/** `dtop down`: stop and remove every container of a project, then, on a
    flag or a yes at the prompt, the project's networks and volumes. */
module DownCommand {
  import opened Wrappers
  import opened Labels
  import opened Docker
  import opened ComposeUtils

  // ---------------------------------------------------------------------
  // _get_containers_by_project

  /** The `{{.ID}}` column of a listing. */
  function IdsOf(cs: seq<Container>): seq<string> {
    seq(|cs|, i requires 0 <= i < |cs| => cs[i].id)
  }

  /** What `_get_containers_by_project` returns: the non-empty IDs of every
      container of the project, running or not, in listing order. */
  function ProjectIds(cs: seq<Container>, project: string): seq<string> {
    NonEmptyLines(IdsOf(Listed(cs, ProjectFilter(project), true)))
  }

  /** An ID is collected exactly when it is the non-empty ID of a container
      carrying `dtop.project=<project>`, whatever its state. */
  lemma ProjectIdsSpec(cs: seq<Container>, project: string)
    ensures forall id :: id in ProjectIds(cs, project) <==>
      id != "" && exists c :: c in cs && Selects(ProjectFilter(project), c.labels) && c.id == id
  {
    var f := ProjectFilter(project);
    var listed := Listed(cs, f, true);
    ListedSpec(cs, f, true);
    forall id ensures id in IdsOf(listed) <==> exists c :: c in listed && c.id == id {
      if id in IdsOf(listed) {
        var i :| 0 <= i < |listed| && IdsOf(listed)[i] == id;
        assert listed[i] in listed;
      }
      if exists c :: c in listed && c.id == id {
        var c :| c in listed && c.id == id;
        var i :| 0 <= i < |listed| && listed[i] == c;
        assert IdsOf(listed)[i] == id;
      }
    }
  }

  /** `_get_containers_by_project`: `docker ps -a` filtered on the project
      label, one ID per line, empty lines dropped. */
  method GetContainersByProject(rt: Docker.Runtime, project: string) returns (ids: seq<string>)
    modifies rt`log
    ensures rt.log == old(rt.log) + [ListContainers(ProjectFilter(project), true)]
    ensures ids == ProjectIds(old(rt.containers), project)
  {
    var cs := rt.Ps(ProjectFilter(project), true);
    ids := NonEmptyLines(IdsOf(cs));
  }

  // ---------------------------------------------------------------------
  // down

  /** How `down` ends: with nothing to stop (`typer.Exit`), on a failed
      `docker stop` or `docker rm` (`check=True` raises), or with the list of
      what it removed, as the summary line prints it. */
  datatype DownOutcome = NothingToStop | StopFailed | RemoveFailed | Done(removed: seq<string>)

  /** The two questions `typer.confirm` may ask. */
  datatype Prompt = AskNetworks | AskVolumes

  /** One optional cleanup: its calls and the pool after it. */
  datatype Cleaned = Cleaned(calls: seq<Call>, pool: seq<Resource>)

  /** `cleanup_networks` or `cleanup_volumes` when `go` holds, nothing
      otherwise. */
  function CleanupIf(kind: Kind, pool: seq<Resource>, refused: set<Call>, project: string, go: bool): Cleaned {
    if !go then Cleaned([], pool)
    else
      var targets := NonEmptyLines(Owned(pool, project));
      Cleaned([ListOwned(kind, project)] + RmCalls(kind, targets), RmAll(kind, refused, pool, targets))
  }

  /** A cleanup that runs leaves exactly the resources that are not the
      project's, are unnamed, or whose removal is refused; one that does not
      run leaves the pool as it was. */
  lemma CleanupIfEffect(kind: Kind, pool: seq<Resource>, refused: set<Call>, project: string, go: bool)
    requires DistinctNames(pool)
    ensures !go ==> CleanupIf(kind, pool, refused, project, go).pool == pool
    ensures go ==> forall x :: x in CleanupIf(kind, pool, refused, project, go).pool <==>
      x in pool && (x.owner != Some(project) || x.name == "" || RemoveResource(kind, x.name) in refused)
  {
    CleanupEffect(kind, refused, pool, project);
  }

  /** What `down` does once the containers are gone: the calls, the pools
      after it, the questions asked, and the removal list. */
  datatype Tidied = Tidied(calls: seq<Call>, networks: seq<Resource>, volumes: seq<Resource>,
                           prompts: seq<Prompt>, removed: seq<string>)

  /** The network and volume half of `down`: a flag (or `--all`) decides
      without asking; otherwise the answer to the question does. */
  function Tidy(nets: seq<Resource>, vols: seq<Resource>, refused: set<Call>, project: string,
                removeNetworks: bool, removeVolumes: bool, all: bool,
                answerNetworks: bool, answerVolumes: bool): Tidied
  {
    var flagN := all || removeNetworks;
    var flagV := all || removeVolumes;
    var goN := flagN || answerNetworks;
    var goV := flagV || answerVolumes;
    var n := CleanupIf(Network, nets, refused, project, goN);
    var v := CleanupIf(Volume, vols, refused, project, goV);
    Tidied(n.calls + v.calls, n.pool, v.pool,
           (if flagN then [] else [AskNetworks]) + (if flagV then [] else [AskVolumes]),
           ["Containers"] + (if goN then ["networks"] else []) + (if goV then ["volumes"] else []))
  }

  /** Everything `down` does. */
  datatype Downed = Downed(calls: seq<Call>, containers: seq<Container>, networks: seq<Resource>,
                           volumes: seq<Resource>, prompts: seq<Prompt>, outcome: DownOutcome)

  /** What `down` does for a project, from the runtime's state, the calls it
      refuses, the flags, and the answers the user would give. */
  function DownRun(cs: seq<Container>, nets: seq<Resource>, vols: seq<Resource>, refused: set<Call>,
                   project: string, removeNetworks: bool, removeVolumes: bool, all: bool,
                   answerNetworks: bool, answerVolumes: bool): Downed
  {
    var query := ListContainers(ProjectFilter(project), true);
    var ids := ProjectIds(cs, project);
    if ids == [] then Downed([query], cs, nets, vols, [], NothingToStop)
    else
      var s := StopRemove(cs, refused, ids);
      if !s.ok then
        Downed([query] + s.calls, s.containers, nets, vols, [],
               if StopContainers(ids) in refused then StopFailed else RemoveFailed)
      else
        var t := Tidy(nets, vols, refused, project, removeNetworks, removeVolumes, all, answerNetworks, answerVolumes);
        Downed([query] + s.calls + t.calls, s.containers, t.networks, t.volumes, t.prompts, Done(t.removed))
  }

  /** One "flag, else ask" decision of `down` and the cleanup it leads to;
      `asked` tells whether the question was put. */
  method CleanupOnRequest(rt: Docker.Runtime, kind: Kind, project: string, flagged: bool, answer: bool)
    returns (asked: bool, go: bool)
    requires rt.Valid()
    modifies rt`log, rt`networks, rt`volumes
    ensures rt.Valid()
    ensures asked == !flagged && go == (flagged || answer)
    ensures var c := CleanupIf(kind, old(rt.Pool(kind)), rt.refused, project, go);
      rt.log == old(rt.log) + c.calls && rt.Pool(kind) == c.pool
    ensures rt.Pool(OtherKind(kind)) == old(rt.Pool(OtherKind(kind)))
  {
    asked := false;
    go := flagged;
    if !go {
      asked := true;
      go := answer;
    }
    if go {
      ghost var pool := rt.Pool(kind);
      if kind == Network {
        CleanupNetworks(rt, project);
      } else {
        CleanupVolumes(rt, project);
      }
      LogAppend(old(rt.log), [ListOwned(kind, project)], RmCalls(kind, NonEmptyLines(Owned(pool, project))));
    }
  }

  /** The prompts and cleanups of `down`. */
  method TidyUp(rt: Docker.Runtime, project: string, removeNetworks: bool, removeVolumes: bool, all: bool,
                answerNetworks: bool, answerVolumes: bool) returns (prompts: seq<Prompt>, removed: seq<string>)
    requires rt.Valid()
    modifies rt`log, rt`networks, rt`volumes
    ensures rt.Valid()
    ensures var t := Tidy(old(rt.networks), old(rt.volumes), rt.refused, project,
                          removeNetworks, removeVolumes, all, answerNetworks, answerVolumes);
      && rt.log == old(rt.log) + t.calls && rt.networks == t.networks && rt.volumes == t.volumes
      && prompts == t.prompts && removed == t.removed
  {
    removed := ["Containers"];
    prompts := [];
    var asked, go := CleanupOnRequest(rt, Network, project, all || removeNetworks, answerNetworks);
    if asked {
      prompts := prompts + [AskNetworks];
    }
    if go {
      removed := removed + ["networks"];
    }
    ghost var log1 := rt.log;
    asked, go := CleanupOnRequest(rt, Volume, project, all || removeVolumes, answerVolumes);
    if asked {
      prompts := prompts + [AskVolumes];
    }
    if go {
      removed := removed + ["volumes"];
    }
    LogAppend(old(rt.log), log1[|old(rt.log)|..], rt.log[|log1|..]);
  }

  /** `down` once the project name is known (the empty name falls back to
      the working directory's name before this point). */
  method Down(rt: Docker.Runtime, project: string, removeNetworks: bool, removeVolumes: bool, all: bool,
              answerNetworks: bool, answerVolumes: bool) returns (outcome: DownOutcome, prompts: seq<Prompt>)
    requires rt.Valid()
    modifies rt`log, rt`containers, rt`networks, rt`volumes
    ensures rt.Valid()
    ensures var o := DownRun(old(rt.containers), old(rt.networks), old(rt.volumes), rt.refused, project,
                             removeNetworks, removeVolumes, all, answerNetworks, answerVolumes);
      && rt.log == old(rt.log) + o.calls && rt.containers == o.containers
      && rt.networks == o.networks && rt.volumes == o.volumes
      && prompts == o.prompts && outcome == o.outcome
  {
    var ids := GetContainersByProject(rt, project);
    if ids == [] {
      return NothingToStop, [];
    }
    ghost var cs0 := rt.containers;
    var ok := StopAndRemove(rt, ids);
    LogAppend(old(rt.log), [ListContainers(ProjectFilter(project), true)], StopRemove(cs0, rt.refused, ids).calls);
    if !ok {
      return if StopContainers(ids) in rt.refused then StopFailed else RemoveFailed, [];
    }
    ghost var head := [ListContainers(ProjectFilter(project), true)] + StopRemove(cs0, rt.refused, ids).calls;
    var removed;
    prompts, removed := TidyUp(rt, project, removeNetworks, removeVolumes, all, answerNetworks, answerVolumes);
    outcome := Done(removed);
    LogAppend(old(rt.log), head, Tidy(old(rt.networks), old(rt.volumes), rt.refused, project,
                                      removeNetworks, removeVolumes, all, answerNetworks, answerVolumes).calls);
  }

  // ---------------------------------------------------------------------
  // Properties of `down`

  /** `down` stops early, having only listed, exactly when no container of
      the project has an ID to stop. */
  lemma DownNothing(cs: seq<Container>, nets: seq<Resource>, vols: seq<Resource>, refused: set<Call>,
                    project: string, removeNetworks: bool, removeVolumes: bool, all: bool,
                    answerNetworks: bool, answerVolumes: bool)
    ensures var o := DownRun(cs, nets, vols, refused, project, removeNetworks, removeVolumes, all,
                             answerNetworks, answerVolumes);
      && (o.outcome == NothingToStop <==>
            forall c :: c in cs && Selects(ProjectFilter(project), c.labels) ==> c.id == "")
      && (o.outcome == NothingToStop ==>
            && o.calls == [ListContainers(ProjectFilter(project), true)]
            && o.containers == cs && o.networks == nets && o.volumes == vols && o.prompts == [])
  {
    var ids := ProjectIds(cs, project);
    var f := ProjectFilter(project);
    ProjectIdsSpec(cs, project);
    if ids != [] {
      assert ids[0] in ids;
      var c :| c in cs && Selects(f, c.labels) && c.id == ids[0];
      assert c.id != "";
    } else {
      forall c | c in cs && Selects(f, c.labels) ensures c.id == "" {
        assert c.id !in ids;
      }
    }
  }

  /** A failed `docker stop` ends `down` with nothing changed; a failed
      `docker rm` ends it with the project's containers stopped but still
      there. Neither asks a question or touches a network or volume. */
  lemma DownFailures(cs: seq<Container>, nets: seq<Resource>, vols: seq<Resource>, refused: set<Call>,
                     project: string, removeNetworks: bool, removeVolumes: bool, all: bool,
                     answerNetworks: bool, answerVolumes: bool)
    ensures var o := DownRun(cs, nets, vols, refused, project, removeNetworks, removeVolumes, all,
                             answerNetworks, answerVolumes);
      var ids := ProjectIds(cs, project);
      && (o.outcome == StopFailed ==>
            && o.containers == cs
            && o.calls == [ListContainers(ProjectFilter(project), true), StopContainers(ids)])
      && (o.outcome == RemoveFailed ==>
            && o.containers == Stopped(cs, ids)
            && o.calls == [ListContainers(ProjectFilter(project), true), StopContainers(ids), RemoveContainers(ids)])
      && (!o.outcome.Done? ==> o.networks == nets && o.volumes == vols && o.prompts == [])
  {
  }

  /** After a complete `down`, the containers left are exactly those that do
      not carry `dtop.project=<project>` (or have no ID to name them by): the
      project's containers are gone, whether they ran or not, and no other
      container was touched. */
  lemma DownRemovesProject(cs: seq<Container>, nets: seq<Resource>, vols: seq<Resource>, refused: set<Call>,
                           project: string, removeNetworks: bool, removeVolumes: bool, all: bool,
                           answerNetworks: bool, answerVolumes: bool)
    requires DistinctIds(cs)
    ensures var o := DownRun(cs, nets, vols, refused, project, removeNetworks, removeVolumes, all,
                             answerNetworks, answerVolumes);
      o.outcome.Done? ==>
        forall c :: c in o.containers <==> c in cs && (c.id == "" || !Selects(ProjectFilter(project), c.labels))
  {
    var ids := ProjectIds(cs, project);
    var f := ProjectFilter(project);
    ProjectIdsSpec(cs, project);
    StopRemoveEffect(cs, refused, ids);
    forall c | c in cs ensures c.id in ids <==> c.id != "" && Selects(f, c.labels) {
      if c.id in ids {
        var d :| d in cs && Selects(f, d.labels) && d.id == c.id;
        var i :| 0 <= i < |cs| && cs[i] == c;
        var j :| 0 <= j < |cs| && cs[j] == d;
        assert i == j;
      }
    }
  }

  /** A flag (or `--all`) decides each cleanup without a question; without
      one the question is asked and its answer decides, for networks and
      volumes independently, the network question first. The network
      cleanup's calls come before the volume one's. The summary is
      `Containers`, then `networks`, then `volumes`, each of the last two once
      and only when that cleanup ran; each pool ends as its cleanup
      (`CleanupIfEffect`) leaves it. */
  lemma TidySpec(nets: seq<Resource>, vols: seq<Resource>, refused: set<Call>, project: string,
                 removeNetworks: bool, removeVolumes: bool, all: bool, answerNetworks: bool, answerVolumes: bool)
    ensures var t := Tidy(nets, vols, refused, project, removeNetworks, removeVolumes, all, answerNetworks, answerVolumes);
      var goN := all || removeNetworks || answerNetworks;
      var goV := all || removeVolumes || answerVolumes;
      && t.calls == CleanupIf(Network, nets, refused, project, goN).calls
                    + CleanupIf(Volume, vols, refused, project, goV).calls
      && (AskNetworks in t.prompts <==> !all && !removeNetworks)
      && (AskVolumes in t.prompts <==> !all && !removeVolumes)
      && |t.prompts| == (if all || removeNetworks then 0 else 1) + (if all || removeVolumes then 0 else 1)
      && (!all && !removeNetworks ==> t.prompts[0] == AskNetworks)
      && (!all && !removeVolumes ==> t.prompts[|t.prompts| - 1] == AskVolumes)
      && t.removed[0] == "Containers"
      && ("networks" in t.removed <==> goN)
      && ("volumes" in t.removed <==> goV)
      && |t.removed| == 1 + (if goN then 1 else 0) + (if goV then 1 else 0)
      && (goN ==> t.removed[1] == "networks")
      && (goV ==> t.removed[|t.removed| - 1] == "volumes")
      && t.networks == CleanupIf(Network, nets, refused, project, goN).pool
      && t.volumes == CleanupIf(Volume, vols, refused, project, goV).pool
  {
  }

  /** A complete `down` lists, stops and removes the project's containers,
      and only then does the network and volume half (`TidySpec`). */
  lemma DownDone(cs: seq<Container>, nets: seq<Resource>, vols: seq<Resource>, refused: set<Call>,
                 project: string, removeNetworks: bool, removeVolumes: bool, all: bool,
                 answerNetworks: bool, answerVolumes: bool)
    ensures var o := DownRun(cs, nets, vols, refused, project, removeNetworks, removeVolumes, all,
                             answerNetworks, answerVolumes);
      var ids := ProjectIds(cs, project);
      var t := Tidy(nets, vols, refused, project, removeNetworks, removeVolumes, all, answerNetworks, answerVolumes);
      o.outcome.Done? ==>
        && ids != []
        && o.calls == [ListContainers(ProjectFilter(project), true), StopContainers(ids), RemoveContainers(ids)] + t.calls
        && o.networks == t.networks && o.volumes == t.volumes
        && o.prompts == t.prompts && o.outcome.removed == t.removed
  {
  }
}
