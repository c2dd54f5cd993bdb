/** The container runtime as the commands see it through the `docker` CLI:
    its containers, networks and volumes, and a log of every call made to it.
    Each call the commands issue is one method of `Runtime`; which calls fail
    is fixed by the runtime (`refused`), and a failed call changes nothing. */
module Docker {
  import opened Wrappers
  import opened Compose
  import opened Labels

  /** One line of `docker ps --format '{{json .}}'`, already decoded. */
  datatype Container = Container(
    id: string, names: string, image: string, status: string, ports: string,
    labels: string, running: bool)

  /** A network or volume, with the value of its `dtop.project` label. */
  datatype Resource = Resource(name: string, owner: Option<string>)

  datatype Kind = Network | Volume

  function OtherKind(k: Kind): Kind {
    if k == Network then Volume else Network
  }

  /** `--filter label=key` and `--filter label=key=value` */
  datatype Filter = LabelPresent(key: string) | LabelEquals(key: string, value: string)

  predicate Selects(f: Filter, labels: string) {
    match f
    case LabelPresent(k) => HasLabel(labels, k)
    case LabelEquals(k, v) => HasLabel(labels, k) && LabelOf(labels, k) == v
  }

  /** The containers of a project, as `docker ps --filter label=dtop.project=<p>`
      selects them. */
  function ProjectFilter(project: string): Filter {
    LabelEquals(ProjectKey, project)
  }

  /** The calls the commands make, as recorded in the runtime's log. */
  datatype Call =
    | ListContainers(filter: Filter, all: bool)                // docker ps [-a] --filter ...
    | InspectResource(kind: Kind, name: string)               // docker network|volume inspect
    | CreateResource(kind: Kind, name: string, project: string) // docker network|volume create --label dtop.project=...
    | ListOwned(kind: Kind, project: string)                  // docker network|volume ls --filter label=dtop.project=...
    | RemoveResource(kind: Kind, name: string)                // docker network|volume rm
    | StopContainers(ids: seq<string>)                        // docker stop
    | RemoveContainers(ids: seq<string>)                      // docker rm
    | ComposeUp(definition: Definition, args: seq<string>)    // docker compose -f <file> up ...

  /** What `docker ps` lists: the selected containers, in the runtime's order;
      without `-a`, only running ones. */
  function Listed(cs: seq<Container>, f: Filter, all: bool): seq<Container>
    decreases |cs|
  {
    if cs == [] then []
    else
      var c := cs[|cs| - 1];
      Listed(cs[..|cs| - 1], f, all) + if (all || c.running) && Selects(f, c.labels) then [c] else []
  }

  /** `docker ps` lists exactly the selected containers, running ones only
      without `-a`. */
  lemma {:induction false} ListedSpec(cs: seq<Container>, f: Filter, all: bool)
    ensures forall c :: c in Listed(cs, f, all) <==> c in cs && (all || c.running) && Selects(f, c.labels)
    decreases |cs|
  {
    if cs != [] {
      ListedSpec(cs[..|cs| - 1], f, all);
      assert cs == cs[..|cs| - 1] + [cs[|cs| - 1]];
    }
  }

  /** Each listed container appears once when IDs are distinct. */
  lemma {:induction false} ListedDistinct(cs: seq<Container>, f: Filter, all: bool)
    requires DistinctIds(cs)
    ensures DistinctIds(Listed(cs, f, all))
    decreases |cs|
  {
    if cs != [] {
      var init := cs[..|cs| - 1];
      ListedSpec(init, f, all);
      ListedDistinct(init, f, all);
      var r := Listed(cs, f, all);
      var ri := Listed(init, f, all);
      forall i, j | 0 <= i < j < |r| ensures r[i].id != r[j].id {
        if j >= |ri| {
          assert r[i] in init;
          var k :| 0 <= k < |init| && init[k] == r[i];
          assert cs[k].id != cs[|cs| - 1].id;
        }
      }
    }
  }

  ghost predicate DistinctIds(cs: seq<Container>) {
    forall i, j :: 0 <= i < j < |cs| ==> cs[i].id != cs[j].id
  }

  ghost predicate DistinctNames(pool: seq<Resource>) {
    forall i, j :: 0 <= i < j < |pool| ==> pool[i].name != pool[j].name
  }

  function NamesOf(pool: seq<Resource>): set<string> {
    set r | r in pool :: r.name
  }

  /** The names `docker network|volume ls --filter label=dtop.project=<p>`
      prints, in the runtime's order. */
  function Owned(pool: seq<Resource>, project: string): (r: seq<string>)
    ensures forall n :: n in r <==> exists x :: x in pool && x.name == n && x.owner == Some(project)
    ensures DistinctNames(pool) ==> forall i, j :: 0 <= i < j < |r| ==> r[i] != r[j]
    decreases |pool|
  {
    if pool == [] then []
    else
      var init := Owned(pool[..|pool| - 1], project);
      var x := pool[|pool| - 1];
      assert pool == pool[..|pool| - 1] + [x];
      assert forall y :: y in pool <==> y in pool[..|pool| - 1] || y == x;
      assert DistinctNames(pool) ==> forall y :: y in pool[..|pool| - 1] ==> y.name != x.name by {
        if DistinctNames(pool) {
          forall y | y in pool[..|pool| - 1] ensures y.name != x.name {
            var k :| 0 <= k < |pool| - 1 && pool[..|pool| - 1][k] == y;
          }
          assert DistinctNames(pool[..|pool| - 1]);
        }
      }
      var r := init + if x.owner == Some(project) then [x.name] else [];
      assert DistinctNames(pool) ==> forall i, j :: 0 <= i < j < |r| ==> r[i] != r[j] by {
        if DistinctNames(pool) {
          forall i, j | 0 <= i < j < |r| ensures r[i] != r[j] {
            if j >= |init| { assert r[i] in init; }
          }
        }
      }
      r
  }

  /** The pool after `docker network|volume rm name` succeeded. */
  function Without(pool: seq<Resource>, name: string): (r: seq<Resource>)
    ensures forall x :: x in r <==> x in pool && x.name != name
    ensures DistinctNames(pool) ==> DistinctNames(r)
    decreases |pool|
  {
    if pool == [] then []
    else
      var init := Without(pool[..|pool| - 1], name);
      var x := pool[|pool| - 1];
      assert pool == pool[..|pool| - 1] + [x];
      init + if x.name != name then [x] else []
  }

  /** The containers after `docker stop ids`: every container stays where it
      was and keeps its ID, labels and other columns; afterwards a container
      runs exactly when it ran before and was not named. */
  function Stopped(cs: seq<Container>, ids: seq<string>): (r: seq<Container>)
    ensures |r| == |cs|
    ensures forall i :: 0 <= i < |cs| ==> r[i].(running := cs[i].running) == cs[i]
    ensures forall i :: 0 <= i < |cs| ==> (r[i].running <==> cs[i].running && cs[i].id !in ids)
  {
    seq(|cs|, i requires 0 <= i < |cs| => if cs[i].id in ids then cs[i].(running := false) else cs[i])
  }

  /** The containers after `docker rm ids`: the stopped ones listed are gone,
      the rest keep their order. */
  function Removed(cs: seq<Container>, ids: seq<string>): (r: seq<Container>)
    ensures forall c :: c in r <==> c in cs && !(c.id in ids && !c.running)
    ensures DistinctIds(cs) ==> DistinctIds(r)
    decreases |cs|
  {
    if cs == [] then []
    else
      var init := Removed(cs[..|cs| - 1], ids);
      var c := cs[|cs| - 1];
      assert cs == cs[..|cs| - 1] + [c];
      init + if c.id in ids && !c.running then [] else [c]
  }

  /** After `docker stop ids`, none of the listed containers is running. */
  lemma StoppedNotRunning(cs: seq<Container>, ids: seq<string>)
    ensures forall c :: c in Stopped(cs, ids) && c.id in ids ==> !c.running
  {
    var r := Stopped(cs, ids);
    forall c | c in r && c.id in ids ensures !c.running {
      var i :| 0 <= i < |r| && r[i] == c;
    }
  }

  /** `docker stop ids` followed by `docker rm ids` removes exactly the listed
      containers and leaves every other one as it was. */
  lemma StoppedThenRemoved(cs: seq<Container>, ids: seq<string>)
    ensures forall c :: c in Removed(Stopped(cs, ids), ids) <==> c in cs && c.id !in ids
  {
    var st := Stopped(cs, ids);
    forall c ensures c in Removed(st, ids) <==> c in cs && c.id !in ids {
      if c in Removed(st, ids) {
        var i :| 0 <= i < |st| && st[i] == c;
        assert cs[i].id == c.id;
        if cs[i].id !in ids { assert cs[i] == c; }
      }
      if c in cs && c.id !in ids {
        var i :| 0 <= i < |cs| && cs[i] == c;
        assert st[i] == c;
      }
    }
  }

  /** What a stop step did: its calls, the containers after it, and whether
      the command may go on (`check=True` ends it on a failure). */
  datatype Stopping = Stopping(calls: seq<Call>, containers: seq<Container>, ok: bool)

  /** `docker stop ids` then, if that succeeded, `docker rm ids`. */
  function StopRemove(cs: seq<Container>, refused: set<Call>, ids: seq<string>): Stopping {
    if StopContainers(ids) in refused then Stopping([StopContainers(ids)], cs, false)
    else
      var stopped := Stopped(cs, ids);
      var calls := [StopContainers(ids), RemoveContainers(ids)];
      if RemoveContainers(ids) in refused then Stopping(calls, stopped, false)
      else Stopping(calls, Removed(stopped, ids), true)
  }

  /** Stopping and removing `ids` leaves every other container as it was;
      when both calls succeed the containers listed are gone. */
  lemma StopRemoveEffect(cs: seq<Container>, refused: set<Call>, ids: seq<string>)
    ensures var s := StopRemove(cs, refused, ids);
      && (forall c :: c in cs && c.id !in ids ==> c in s.containers)
      && (s.ok ==> forall c :: c in s.containers <==> c in cs && c.id !in ids)
  {
    StoppedThenRemoved(cs, ids);
    var st := Stopped(cs, ids);
    forall c | c in cs && c.id !in ids ensures c in st {
      var i :| 0 <= i < |cs| && cs[i] == c;
      assert st[i] == c;
    }
  }

  class Runtime {
    var containers: seq<Container>
    var networks: seq<Resource>
    var volumes: seq<Resource>
    /** Every call made so far, oldest first. */
    var log: seq<Call>
    /** The calls this runtime answers with a non-zero exit status. */
    const refused: set<Call>

    ghost predicate Valid()
      reads this
    {
      DistinctIds(containers) && DistinctNames(networks) && DistinctNames(volumes)
    }

    constructor (cs: seq<Container>, nets: seq<Resource>, vols: seq<Resource>, fails: set<Call>)
      requires DistinctIds(cs) && DistinctNames(nets) && DistinctNames(vols)
      ensures Valid()
      ensures containers == cs && networks == nets && volumes == vols && refused == fails && log == []
    {
      containers, networks, volumes, refused, log := cs, nets, vols, fails, [];
    }

    function Pool(kind: Kind): seq<Resource>
      reads this
    {
      if kind == Network then networks else volumes
    }

    /** `docker ps [-a] --filter <f>` */
    method Ps(f: Filter, all: bool) returns (cs: seq<Container>)
      modifies this`log
      ensures log == old(log) + [ListContainers(f, all)]
      ensures cs == Listed(containers, f, all)
    {
      log := log + [ListContainers(f, all)];
      cs := Listed(containers, f, all);
    }

    /** `docker network|volume inspect name`, read as "exists" when it exits 0. */
    method Inspect(kind: Kind, name: string) returns (found: bool)
      modifies this`log
      ensures log == old(log) + [InspectResource(kind, name)]
      ensures found == (name in NamesOf(Pool(kind)))
    {
      log := log + [InspectResource(kind, name)];
      found := name in NamesOf(Pool(kind));
    }

    /** `docker network|volume create --label dtop.project=<project> name`;
        an existing name is refused. */
    method Create(kind: Kind, name: string, project: string) returns (ok: bool)
      requires Valid()
      modifies this`log, this`networks, this`volumes
      ensures Valid()
      ensures log == old(log) + [CreateResource(kind, name, project)]
      ensures ok == (CreateResource(kind, name, project) !in refused && name !in NamesOf(old(Pool(kind))))
      ensures Pool(kind) == if ok then old(Pool(kind)) + [Resource(name, Some(project))] else old(Pool(kind))
      ensures Pool(OtherKind(kind)) == old(Pool(OtherKind(kind)))
    {
      log := log + [CreateResource(kind, name, project)];
      ok := CreateResource(kind, name, project) !in refused && name !in NamesOf(Pool(kind));
      if ok {
        if kind == Network {
          networks := networks + [Resource(name, Some(project))];
        } else {
          volumes := volumes + [Resource(name, Some(project))];
        }
      }
    }

    /** `docker network|volume ls --filter label=dtop.project=<project>` */
    method ListResources(kind: Kind, project: string) returns (names: seq<string>)
      modifies this`log
      ensures log == old(log) + [ListOwned(kind, project)]
      ensures names == Owned(Pool(kind), project)
    {
      log := log + [ListOwned(kind, project)];
      names := Owned(Pool(kind), project);
    }

    /** `docker network|volume rm name`, which fails for a resource in use. */
    method Rm(kind: Kind, name: string) returns (ok: bool)
      requires Valid()
      modifies this`log, this`networks, this`volumes
      ensures Valid()
      ensures log == old(log) + [RemoveResource(kind, name)]
      ensures ok == (RemoveResource(kind, name) !in refused && name in NamesOf(old(Pool(kind))))
      ensures Pool(kind) == if ok then Without(old(Pool(kind)), name) else old(Pool(kind))
      ensures Pool(OtherKind(kind)) == old(Pool(OtherKind(kind)))
    {
      log := log + [RemoveResource(kind, name)];
      ok := RemoveResource(kind, name) !in refused && name in NamesOf(Pool(kind));
      if ok {
        if kind == Network {
          networks := Without(networks, name);
        } else {
          volumes := Without(volumes, name);
        }
      }
    }

    /** `docker stop ids...` */
    method Stop(ids: seq<string>) returns (ok: bool)
      requires Valid()
      modifies this`log, this`containers
      ensures Valid()
      ensures log == old(log) + [StopContainers(ids)]
      ensures ok == (StopContainers(ids) !in refused)
      ensures containers == if ok then Stopped(old(containers), ids) else old(containers)
    {
      log := log + [StopContainers(ids)];
      ok := StopContainers(ids) !in refused;
      if ok {
        var cs := Stopped(containers, ids);
        assert forall i :: 0 <= i < |cs| ==> cs[i].id == containers[i].id;
        containers := cs;
      }
    }

    /** `docker rm ids...`: stopped containers are removed; the call fails if
        any listed container is still running. */
    method Remove(ids: seq<string>) returns (ok: bool)
      requires Valid()
      modifies this`log, this`containers
      ensures Valid()
      ensures log == old(log) + [RemoveContainers(ids)]
      ensures ok == (RemoveContainers(ids) !in refused
                     && forall c :: c in old(containers) && c.id in ids ==> !c.running)
      ensures containers == if RemoveContainers(ids) in refused then old(containers)
                            else Removed(old(containers), ids)
    {
      log := log + [RemoveContainers(ids)];
      ok := RemoveContainers(ids) !in refused
            && forall c | c in containers && c.id in ids :: !c.running;
      if RemoveContainers(ids) !in refused {
        containers := Removed(containers, ids);
      }
    }

    /** `docker compose -f <file> up ...` with `file` holding `definition`. */
    method Up(definition: Definition, args: seq<string>) returns (ok: bool)
      modifies this`log
      ensures log == old(log) + [ComposeUp(definition, args)]
      ensures ok == (ComposeUp(definition, args) !in refused)
    {
      log := log + [ComposeUp(definition, args)];
      ok := ComposeUp(definition, args) !in refused;
    }
  }

  /** The log after two commands, one after the other. */
  lemma LogAppend(log: seq<Call>, first: seq<Call>, second: seq<Call>)
    ensures log + first + second == log + (first + second)
  {
  }

  /** `docker stop ids` then, if that succeeded, `docker rm ids`, each with
      `check=True`. */
  method StopAndRemove(rt: Runtime, ids: seq<string>) returns (ok: bool)
    requires rt.Valid()
    modifies rt`log, rt`containers
    ensures rt.Valid()
    ensures var s := StopRemove(old(rt.containers), rt.refused, ids);
      rt.log == old(rt.log) + s.calls && rt.containers == s.containers && ok == s.ok
  {
    ok := rt.Stop(ids);
    if ok {
      StoppedNotRunning(old(rt.containers), ids);
      ok := rt.Remove(ids);
    }
  }
}
