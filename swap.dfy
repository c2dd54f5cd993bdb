/** `dtop swap`: find out whether a service of a project runs as prod or dev,
    stop its containers, and start the other version from a definition that
    holds only that service. */
module SwapCommand {
  import opened Wrappers
  import opened Labels
  import opened Compose
  import opened Docker
  import opened UpCommand

  /** A container started by Compose for `service`. */
  predicate OfService(c: Container, service: string) {
    LabelOf(c.labels, ServiceKey) == service
  }

  /** A container of the service that says which environment it runs. */
  predicate Reports(c: Container, service: string) {
    OfService(c, service) && LabelOf(c.labels, EnvKey) != ""
  }

  // ---------------------------------------------------------------------
  // _get_service_env

  /** The answer of `_get_service_env` for the listed containers. */
  function EnvOf(cs: seq<Container>, service: string): Option<string>
    decreases |cs|
  {
    if cs == [] then None
    else if Reports(cs[0], service) then Some(LabelOf(cs[0].labels, EnvKey))
    else EnvOf(cs[1..], service)
  }

  /** The environment is the `dtop.env` value of the first listed container
      of the service that has one; containers of the service with an empty
      value are passed over; with none at all the answer is `None`. */
  lemma {:induction false} EnvOfSpec(cs: seq<Container>, service: string)
    ensures EnvOf(cs, service).None? <==> forall i :: 0 <= i < |cs| ==> !Reports(cs[i], service)
    ensures EnvOf(cs, service).Some? ==>
      exists i :: && 0 <= i < |cs| && Reports(cs[i], service)
                  && EnvOf(cs, service).value == LabelOf(cs[i].labels, EnvKey)
                  && forall j :: 0 <= j < i ==> !Reports(cs[j], service)
    decreases |cs|
  {
    if cs != [] {
      EnvOfSpec(cs[1..], service);
      if !Reports(cs[0], service) {
        if EnvOf(cs, service).Some? {
          var i :| && 0 <= i < |cs[1..]| && Reports(cs[1..][i], service)
                   && EnvOf(cs[1..], service).value == LabelOf(cs[1..][i].labels, EnvKey)
                   && forall j :: 0 <= j < i ==> !Reports(cs[1..][j], service);
          assert forall j :: 0 < j <= i ==> cs[j] == cs[1..][j - 1];
          assert Reports(cs[i + 1], service);
        }
        assert (forall i :: 0 <= i < |cs| ==> !Reports(cs[i], service)) <==>
               (forall i :: 0 <= i < |cs[1..]| ==> !Reports(cs[1..][i], service)) by {
          assert forall i :: 0 < i < |cs| ==> cs[i] == cs[1..][i - 1];
        }
      } else {
        assert Reports(cs[0], service);
      }
    }
  }

  /** `_get_service_env`: list the project's running containers and return
      the environment of the first one of the service that carries it. */
  method GetServiceEnv(rt: Docker.Runtime, project: string, service: string) returns (env: Option<string>)
    modifies rt`log
    ensures rt.log == old(rt.log) + [ListContainers(ProjectFilter(project), false)]
    ensures env == EnvOf(Listed(rt.containers, ProjectFilter(project), false), service)
  {
    var cs := rt.Ps(ProjectFilter(project), false);
    var i := 0;
    while i < |cs|
      invariant 0 <= i <= |cs|
      invariant EnvOf(cs[i..], service) == EnvOf(cs, service)
      modifies {}
    {
      var svc := GetLabel(cs[i].labels, ServiceKey);
      if svc == service {
        var e := GetLabel(cs[i].labels, EnvKey);
        if e != "" {
          return Some(e);
        }
      }
      assert cs[i..][1..] == cs[i + 1..];
      i := i + 1;
    }
    return None;
  }

  // ---------------------------------------------------------------------
  // _stop_service_containers

  /** The IDs of the service's containers, in listing order. */
  function ServiceIds(cs: seq<Container>, service: string): seq<string>
    decreases |cs|
  {
    if cs == [] then []
    else
      var c := cs[|cs| - 1];
      ServiceIds(cs[..|cs| - 1], service) + if OfService(c, service) then [c.id] else []
  }

  /** The IDs picked are exactly those of the service's containers. */
  lemma {:induction false} ServiceIdsSpec(cs: seq<Container>, service: string)
    ensures forall id :: id in ServiceIds(cs, service) <==> exists c :: c in cs && OfService(c, service) && c.id == id
    decreases |cs|
  {
    if cs != [] {
      ServiceIdsSpec(cs[..|cs| - 1], service);
      assert cs == cs[..|cs| - 1] + [cs[|cs| - 1]];
    }
  }

  /** Selecting keeps the order of the listing: the IDs of two listings one
      after the other are the IDs of the first, then those of the second. */
  lemma {:induction false} ServiceIdsConcat(a: seq<Container>, b: seq<Container>, service: string)
    ensures ServiceIds(a + b, service) == ServiceIds(a, service) + ServiceIds(b, service)
    decreases |b|
  {
    if b != [] {
      var init := b[..|b| - 1];
      ServiceIdsConcat(a, init, service);
      assert (a + b)[..|a + b| - 1] == a + init;
      assert b[..|b| - 1] == init;
    } else {
      assert a + b == a;
    }
  }

  /** What `_stop_service_containers` does: the project's containers are
      listed, and the service's ones, if any, are stopped and removed. */
  function StopService(cs: seq<Container>, refused: set<Call>, project: string, service: string): Stopping {
    var query := ListContainers(ProjectFilter(project), true);
    var ids := ServiceIds(Listed(cs, ProjectFilter(project), true), service);
    if ids == [] then Stopping([query], cs, true)
    else
      var s := StopRemove(cs, refused, ids);
      Stopping([query] + s.calls, s.containers, s.ok)
  }

  /** The loop of `_stop_service_containers` that collects the IDs. */
  method CollectIds(cs: seq<Container>, service: string) returns (ids: seq<string>)
    ensures ids == ServiceIds(cs, service)
  {
    ids := [];
    var i := 0;
    while i < |cs|
      invariant 0 <= i <= |cs|
      invariant ids == ServiceIds(cs[..i], service)
    {
      var svc := GetLabel(cs[i].labels, ServiceKey);
      if svc == service {
        ids := ids + [cs[i].id];
      }
      assert cs[..i + 1][..i] == cs[..i];
      i := i + 1;
    }
    assert cs[..i] == cs;
  }

  /** `_stop_service_containers`: list every container of the project, running
      or not, collect the IDs of the service's ones, then `docker stop` and
      `docker rm` them; with none, nothing is stopped. */
  method StopServiceContainers(rt: Docker.Runtime, project: string, service: string) returns (ok: bool)
    requires rt.Valid()
    modifies rt`log, rt`containers
    ensures rt.Valid()
    ensures var s := StopService(old(rt.containers), rt.refused, project, service);
      rt.log == old(rt.log) + s.calls && rt.containers == s.containers && ok == s.ok
  {
    var cs := rt.Ps(ProjectFilter(project), true);
    var ids := CollectIds(cs, service);
    ok := true;
    if ids != [] {
      ok := StopAndRemove(rt, ids);
    }
  }

  /** The stop step picks exactly the project's containers of the service, in
      any state and of either environment. */
  lemma StopTargets(cs: seq<Container>, project: string, service: string)
    ensures forall id :: id in ServiceIds(Listed(cs, ProjectFilter(project), true), service) <==>
      exists c :: c in cs && Selects(ProjectFilter(project), c.labels) && OfService(c, service) && c.id == id
  {
    var f := ProjectFilter(project);
    var listed := Listed(cs, f, true);
    ListedSpec(cs, f, true);
    ServiceIdsSpec(listed, service);
    forall id ensures id in ServiceIds(listed, service) <==>
      exists c :: c in cs && Selects(f, c.labels) && OfService(c, service) && c.id == id
    {
      if id in ServiceIds(listed, service) {
        var c :| c in listed && OfService(c, service) && c.id == id;
        assert c in cs && Selects(f, c.labels);
      }
      if exists c :: c in cs && Selects(f, c.labels) && OfService(c, service) && c.id == id {
        var c :| c in cs && Selects(f, c.labels) && OfService(c, service) && c.id == id;
        assert c in listed;
      }
    }
  }

  /** With no container of the service, the stop step lists and does nothing
      else; otherwise it makes the stop and remove calls after the listing. */
  lemma StopServiceEffect(cs: seq<Container>, refused: set<Call>, project: string, service: string)
    ensures var ids := ServiceIds(Listed(cs, ProjectFilter(project), true), service);
      var s := StopService(cs, refused, project, service);
      && (forall c :: c in cs && c.id !in ids ==> c in s.containers)
      && (s.ok ==> forall c :: c in s.containers <==> c in cs && c.id !in ids)
      && (ids == [] ==> s.calls == [ListContainers(ProjectFilter(project), true)])
      && (ids != [] ==> s.calls[1..] == StopRemove(cs, refused, ids).calls && s.calls[1] == StopContainers(ids))
  {
    var ids := ServiceIds(Listed(cs, ProjectFilter(project), true), service);
    if ids != [] {
      StopRemoveEffect(cs, refused, ids);
    }
  }

  // ---------------------------------------------------------------------
  // The swap decision

  /** `dev` exactly when the service runs as `prod`; anything else swaps to
      `prod`. */
  function Target(current: string): (t: string)
    ensures t == "dev" <==> current == "prod"
    ensures t == "prod" <==> current != "prod"
  {
    if current == "prod" then "dev" else "prod"
  }

  /** The definition a swap to `target` starts from. */
  function TargetDef(devDef: Definition, prodDef: Definition, target: string): Definition {
    if target == "dev" then devDef else prodDef
  }

  /** The definition to start: every top-level key of `def` but `services`,
      and a `services` holding only `service` with its configuration. */
  function Minimal(def: Definition, service: string): (m: Definition)
    requires def.Valid() && service in ServiceNames(def)
    ensures m.Valid()
  {
    def.(services := Some(Dict([service], map[service := def.services.value.vals[service]])))
  }

  datatype SwapError =
    | UnknownService            // in neither definition
    | NotRunning                // no running container of the service says its environment
    | NoDefinition(env: string) // the target definition lacks the service
    | StopFailed                // `docker stop` or `docker rm` failed
    | LaunchError(e: UpError)   // labels could not be injected, or `compose up` failed

  /** The decision taken once the current environment is known: the target
      environment, or the reason not to go on. */
  function SwapPlan(devDef: Definition, prodDef: Definition, service: string, current: Option<string>)
    : (r: Result<string, SwapError>)
    ensures r.Ok? ==> service in ServiceNames(TargetDef(devDef, prodDef, r.value))
  {
    match current
    case None => Err(NotRunning)
    case Some(env) =>
      var target := Target(env);
      if service in ServiceNames(TargetDef(devDef, prodDef, target)) then Ok(target)
      else Err(NoDefinition(target))
  }

  /** The `compose up` call that starts the service alone in `target`. */
  function LaunchStep(def: Definition, target: string, project: string, service: string, build: bool, file: string)
    : Result<Call, UpError>
    requires def.Valid() && service in ServiceNames(def)
  {
    LaunchCall(Minimal(def, service), target, project, [service], build, file)
  }

  /** Everything a swap does: its calls, the containers after it, and the
      environment now running or the reason it stopped. */
  datatype Swapped = Swapped(calls: seq<Call>, containers: seq<Container>, result: Result<string, SwapError>)

  /** A swap once its target is chosen: stop the service, then launch it. */
  function SwapFrom(def: Definition, target: string, project: string, service: string,
                    build: bool, file: string, cs: seq<Container>, refused: set<Call>): (o: Swapped)
    requires def.Valid() && service in ServiceNames(def)
    ensures o.result.Ok? ==> o.result.value == target
    ensures o.result.Err? ==> o.result.error.StopFailed? || o.result.error.LaunchError?
  {
    var s := StopService(cs, refused, project, service);
    if !s.ok then Swapped(s.calls, s.containers, Err(StopFailed))
    else
      match LaunchStep(def, target, project, service, build, file)
      case Err(e) => Swapped(s.calls, s.containers, Err(LaunchError(e)))
      case Ok(up) =>
        Swapped(s.calls + [up], s.containers, if up in refused then Err(LaunchError(LaunchFailed(target))) else Ok(target))
  }

  /** What `swap` does, from the definitions, the containers and the calls
      the runtime refuses. */
  function SwapRun(devDef: Definition, prodDef: Definition, project: string, service: string,
                   build: bool, file: string, cs: seq<Container>, refused: set<Call>): Swapped
    requires devDef.Valid() && prodDef.Valid()
  {
    if service !in ServiceNames(devDef) && service !in ServiceNames(prodDef) then Swapped([], cs, Err(UnknownService))
    else
      var query := ListContainers(ProjectFilter(project), false);
      var current := EnvOf(Listed(cs, ProjectFilter(project), false), service);
      match SwapPlan(devDef, prodDef, service, current)
      case Err(e) => Swapped([query], cs, Err(e))
      case Ok(target) =>
        var rest := SwapFrom(TargetDef(devDef, prodDef, target), target, project, service, build, file, cs, refused);
        Swapped([query] + rest.calls, rest.containers, rest.result)
  }

  /** Start the minimal definition of the service, labelled for `target`. */
  method LaunchService(rt: Docker.Runtime, def: Definition, target: string, project: string, service: string,
                       build: bool, file: string) returns (r: Result<string, SwapError>)
    requires def.Valid() && service in ServiceNames(def)
    modifies rt`log
    ensures var l := LaunchStep(def, target, project, service, build, file);
      && rt.log == old(rt.log) + (if l.Ok? then [l.value] else [])
      && r == if l.Err? then Err(LaunchError(l.error))
              else if l.value in rt.refused then Err(LaunchError(LaunchFailed(target)))
              else Ok(target)
  {
    var minimal := Minimal(def, service);
    var labelled := InjectLabels(minimal, target, project);
    if labelled.Err? {
      return Err(LaunchError(BadLabel(labelled.error)));
    }
    var ok := Launch(rt, labelled.value, [service], build, file);
    if !ok {
      return Err(LaunchError(LaunchFailed(target)));
    }
    r := Ok(target);
  }

  /** The stop and launch half of `swap`. */
  method StopAndLaunch(rt: Docker.Runtime, def: Definition, target: string, project: string, service: string,
                       build: bool, file: string) returns (r: Result<string, SwapError>)
    requires rt.Valid() && def.Valid() && service in ServiceNames(def)
    modifies rt`log, rt`containers
    ensures rt.Valid()
    ensures var o := SwapFrom(def, target, project, service, build, file, old(rt.containers), rt.refused);
      rt.log == old(rt.log) + o.calls && rt.containers == o.containers && r == o.result
  {
    var stopped := StopServiceContainers(rt, project, service);
    if !stopped {
      return Err(StopFailed);
    }
    r := LaunchService(rt, def, target, project, service, build, file);
  }

  /** `swap` after the definitions are loaded (`build` is `--build`, `file`
      the temporary file `_compose_up` writes). */
  method Swap(rt: Docker.Runtime, project: string, service: string, devDef: Definition, prodDef: Definition,
              build: bool, file: string) returns (r: Result<string, SwapError>)
    requires rt.Valid() && devDef.Valid() && prodDef.Valid()
    modifies rt`log, rt`containers
    ensures rt.Valid()
    ensures var o := SwapRun(devDef, prodDef, project, service, build, file, old(rt.containers), rt.refused);
      rt.log == old(rt.log) + o.calls && rt.containers == o.containers && r == o.result
  {
    var devServices := ServiceNames(devDef);
    var prodServices := ServiceNames(prodDef);
    if service !in devServices && service !in prodServices {
      return Err(UnknownService);
    }
    var current := GetServiceEnv(rt, project, service);
    if current.None? {
      return Err(NotRunning);
    }
    var targetEnv: string;
    var targetDef: Definition;
    if current.value == "prod" {
      targetEnv := "dev";
      if service !in devServices {
        return Err(NoDefinition(targetEnv));
      }
      targetDef := devDef;
    } else {
      targetEnv := "prod";
      if service !in prodServices {
        return Err(NoDefinition(targetEnv));
      }
      targetDef := prodDef;
    }
    ghost var log0 := rt.log;
    ghost var cs0 := rt.containers;
    r := StopAndLaunch(rt, targetDef, targetEnv, project, service, build, file);
    LogAppend(old(rt.log), [ListContainers(ProjectFilter(project), false)],
              SwapFrom(targetDef, targetEnv, project, service, build, file, cs0, rt.refused).calls);
  }

  // ---------------------------------------------------------------------
  // Properties of a swap

  /** A request that is turned down before the stop step changes nothing: no
      container is touched and the only call, if any, is the `docker ps` that
      finds the current environment. A service in neither definition is
      turned down before any call. */
  lemma SwapRejectsEarly(devDef: Definition, prodDef: Definition, project: string, service: string,
                         build: bool, file: string, cs: seq<Container>, refused: set<Call>)
    requires devDef.Valid() && prodDef.Valid()
    ensures var o := SwapRun(devDef, prodDef, project, service, build, file, cs, refused);
      && (o.result == Err(UnknownService) <==> service !in ServiceNames(devDef) && service !in ServiceNames(prodDef))
      && (o.result == Err(UnknownService) ==> o.calls == [])
      && (o.result.Err? && !o.result.error.StopFailed? && !o.result.error.LaunchError? ==>
            o.containers == cs && forall c :: c in o.calls ==> c == ListContainers(ProjectFilter(project), false))
  {
  }

  /** A known service is `NotRunning` exactly when no running container of
      the project reports its environment. */
  lemma SwapNotRunning(devDef: Definition, prodDef: Definition, project: string, service: string,
                       build: bool, file: string, cs: seq<Container>, refused: set<Call>)
    requires devDef.Valid() && prodDef.Valid()
    ensures var o := SwapRun(devDef, prodDef, project, service, build, file, cs, refused);
      o.result == Err(NotRunning) <==>
        && (service in ServiceNames(devDef) || service in ServiceNames(prodDef))
        && forall c :: c in Listed(cs, ProjectFilter(project), false) ==> !Reports(c, service)
  {
    var listed := Listed(cs, ProjectFilter(project), false);
    EnvOfSpec(listed, service);
    assert (forall c :: c in listed ==> !Reports(c, service)) <==>
           (forall i :: 0 <= i < |listed| ==> !Reports(listed[i], service));
  }

  /** The target definition: `dev` for a service running as `prod`, `prod`
      otherwise; a target that lacks the service is turned down before the
      stop step. */
  lemma SwapTarget(devDef: Definition, prodDef: Definition, project: string, service: string,
                   build: bool, file: string, cs: seq<Container>, refused: set<Call>)
    requires devDef.Valid() && prodDef.Valid()
    ensures var o := SwapRun(devDef, prodDef, project, service, build, file, cs, refused);
      var current := EnvOf(Listed(cs, ProjectFilter(project), false), service);
      && (o.result.Ok? ==> current.Some? && (o.result.value == "dev" <==> current.value == "prod"))
      && (o.result.Ok? && o.result.value == "dev" ==> service in ServiceNames(devDef))
      && (o.result.Ok? && o.result.value == "prod" ==> service in ServiceNames(prodDef))
      && (o.result.Err? && o.result.error.NoDefinition? ==>
            && current.Some? && o.result.error.env == Target(current.value)
            && service !in ServiceNames(if current.value == "prod" then devDef else prodDef)
            && forall c :: c in o.calls ==> c.ListContainers?)
  {
  }

  /** A successful stop-and-launch stops and removes the service's
      containers, and only then starts it: the last call is the one `compose
      up` of a definition whose only service is `service`, with the
      configuration `def` gives it but its labels rewritten to the target
      environment and the project, every other top-level key of `def` kept,
      and `[service]` as the services to start. No other container is
      touched. */
  lemma SwapFromLaunch(def: Definition, target: string, project: string, service: string,
                       build: bool, file: string, cs: seq<Container>, refused: set<Call>)
    requires def.Valid() && service in ServiceNames(def)
    requires SwapFrom(def, target, project, service, build, file, cs, refused).result.Ok?
    ensures var o := SwapFrom(def, target, project, service, build, file, cs, refused);
      var ids := ServiceIds(Listed(cs, ProjectFilter(project), true), service);
      && o.calls[..|o.calls| - 1] == StopService(cs, refused, project, service).calls
      && o.calls[|o.calls| - 1].ComposeUp?
      && var up := o.calls[|o.calls| - 1];
      && up.args == ComposeUpArgs(file, [service], build)
      && ServiceNames(up.definition) == [service]
      && up.definition.networks == def.networks && up.definition.volumes == def.volumes
      && up.definition.other == def.other
      && var svc := up.definition.services.value.vals[service];
      && svc.fields == def.services.value.vals[service].fields
      && svc.labels.LabelMap? && svc.labels.m[EnvKey] == target && svc.labels.m[ProjectKey] == project
      && (forall c :: c in o.containers <==> c in cs && c.id !in ids)
  {
    var m := Minimal(def, service);
    InjectedShape(m, target, project);
    InjectServiceSpec(m.services.value.vals[service], target, project);
    StopServiceEffect(cs, refused, project, service);
  }

  /** A successful swap lists the running containers, then does what
      `SwapFromLaunch` describes for the target definition. */
  lemma SwapLaunch(devDef: Definition, prodDef: Definition, project: string, service: string,
                   build: bool, file: string, cs: seq<Container>, refused: set<Call>)
    requires devDef.Valid() && prodDef.Valid()
    requires SwapRun(devDef, prodDef, project, service, build, file, cs, refused).result.Ok?
    ensures var o := SwapRun(devDef, prodDef, project, service, build, file, cs, refused);
      var t := o.result.value;
      var def := TargetDef(devDef, prodDef, t);
      && service in ServiceNames(def)
      && o.calls == [ListContainers(ProjectFilter(project), false)]
                    + SwapFrom(def, t, project, service, build, file, cs, refused).calls
      && o.containers == SwapFrom(def, t, project, service, build, file, cs, refused).containers
      && SwapFrom(def, t, project, service, build, file, cs, refused).result.Ok?
  {
  }
}
