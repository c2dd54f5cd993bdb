/** up.py: label injection, the `docker compose up` command line, the choice
    of dev and prod services, and the `up` command that launches them. */
module UpCommand {
  import opened Wrappers
  import opened Text
  import opened Labels
  import opened Compose
  import opened Docker

  // ---------------------------------------------------------------------
  // _inject_labels

  /** `label.split("=", 1)`: key and value of one list-form label. */
  function ItemKey(item: string): string { BeforeFirst(item, '=') }
  function ItemValue(item: string): string { AfterFirst(item, '=') }

  /** `dict(label.split("=", 1) for label in labels)`: an item without `=`
      makes `dict` fail (the first such item is reported); a later item with
      the same key overwrites an earlier one. */
  function ListToMap(items: seq<string>): Result<map<string, string>, string>
    decreases |items|
  {
    if items == [] then Ok(map[])
    else
      match ListToMap(items[..|items| - 1])
      case Err(e) => Err(e)
      case Ok(m) =>
        var item := items[|items| - 1];
        if '=' in item then Ok(m[ItemKey(item) := ItemValue(item)]) else Err(item)
  }

  /** The conversion succeeds exactly when every item has an `=`; otherwise
      it reports the first item that has none. */
  lemma {:induction false} ListToMapOk(items: seq<string>)
    ensures ListToMap(items).Ok? <==> forall i :: 0 <= i < |items| ==> '=' in items[i]
    ensures ListToMap(items).Err? ==>
      exists i :: 0 <= i < |items| && ListToMap(items).error == items[i] && '=' !in items[i]
                  && forall j :: 0 <= j < i ==> '=' in items[j]
    decreases |items|
  {
    if items != [] {
      var init := items[..|items| - 1];
      ListToMapOk(init);
      assert forall i :: 0 <= i < |init| ==> init[i] == items[i];
      if ListToMap(init).Err? {
        var i :| 0 <= i < |init| && ListToMap(init).error == init[i] && '=' !in init[i]
                 && forall j :: 0 <= j < i ==> '=' in init[j];
        assert ListToMap(items).error == items[i];
      }
    }
  }

  /** The keys of the mapping are the keys of the items. */
  lemma {:induction false} ListToMapKeys(items: seq<string>, k: string)
    requires ListToMap(items).Ok?
    ensures k in ListToMap(items).value <==> exists i :: 0 <= i < |items| && ItemKey(items[i]) == k
    decreases |items|
  {
    if items != [] {
      var init := items[..|items| - 1];
      var item := items[|items| - 1];
      ListToMapKeys(init, k);
      if k != ItemKey(item) {
        if exists i :: 0 <= i < |items| && ItemKey(items[i]) == k {
          var i :| 0 <= i < |items| && ItemKey(items[i]) == k;
          assert i < |init| && init[i] == items[i];
        }
        if exists i :: 0 <= i < |init| && ItemKey(init[i]) == k {
          var i :| 0 <= i < |init| && ItemKey(init[i]) == k;
          assert items[i] == init[i];
        }
      }
    }
  }

  /** Each key holds the value of the LAST item with that key. */
  lemma {:induction false} ListToMapLastWins(items: seq<string>, i: nat)
    requires ListToMap(items).Ok? && i < |items|
    requires forall j :: i < j < |items| ==> ItemKey(items[j]) != ItemKey(items[i])
    ensures ItemKey(items[i]) in ListToMap(items).value
    ensures ListToMap(items).value[ItemKey(items[i])] == ItemValue(items[i])
    decreases |items|
  {
    var init := items[..|items| - 1];
    if i < |init| {
      assert init[i] == items[i];
      forall j | i < j < |init| ensures ItemKey(init[j]) != ItemKey(init[i]) {
        assert init[j] == items[j];
      }
      ListToMapLastWins(init, i);
      assert ItemKey(items[|items| - 1]) != ItemKey(items[i]);
    }
  }

  /** The label set of a service as a flat mapping. */
  function Normalize(labels: LabelSpec): Result<map<string, string>, string> {
    match labels
    case NoLabels => Ok(map[])
    case LabelMap(m) => Ok(m)
    case LabelList(items) => ListToMap(items)
  }

  /** One service after injection: its labels become a mapping carrying the
      environment and the project. */
  function InjectService(svc: Service, env: string, project: string): Result<Service, string> {
    match Normalize(svc.labels)
    case Err(e) => Err(e)
    case Ok(m) => Ok(Service(LabelMap(m[EnvKey := env][ProjectKey := project]), svc.fields))
  }

  /** An injected service carries the two owned keys with `env` and
      `project` (whatever they held before); every other label is the one it
      had, and its other fields are unchanged. Only a list-form label without
      `=` makes injection fail. */
  lemma InjectServiceSpec(svc: Service, env: string, project: string)
    ensures InjectService(svc, env, project).Ok? <==> Normalize(svc.labels).Ok?
    ensures InjectService(svc, env, project).Ok? ==>
      var out := InjectService(svc, env, project).value;
      var before := Normalize(svc.labels).value;
      && out.fields == svc.fields
      && out.labels.LabelMap?
      && out.labels.m[EnvKey] == env
      && out.labels.m[ProjectKey] == project
      && forall key :: key != EnvKey && key != ProjectKey ==>
           (key in out.labels.m <==> key in before)
           && (key in before ==> out.labels.m[key] == before[key])
  {
    assert |EnvKey| != |ProjectKey|;
  }

  /** The services after the first `n` of them have been injected. */
  function InjectUpTo(d: Dict<Service>, n: nat, env: string, project: string): Result<map<string, Service>, string>
    requires d.Valid() && n <= |d.keys|
    decreases n
  {
    if n == 0 then Ok(d.vals)
    else
      match InjectUpTo(d, n - 1, env, project)
      case Err(e) => Err(e)
      case Ok(vals) =>
        var name := d.keys[n - 1];
        match InjectService(d.vals[name], env, project)
        case Err(e) => Err(e)
        case Ok(s) => Ok(vals[name := s])
  }

  /** Injecting the first `n` services succeeds exactly when none of them
      has a bad label list. */
  lemma {:induction false} InjectUpToOk(d: Dict<Service>, n: nat, env: string, project: string)
    requires d.Valid() && n <= |d.keys|
    ensures InjectUpTo(d, n, env, project).Ok? <==>
      forall i :: 0 <= i < n ==> InjectService(d.vals[d.keys[i]], env, project).Ok?
    decreases n
  {
    if n > 0 {
      InjectUpToOk(d, n - 1, env, project);
    }
  }

  /** After a successful injection of the first `n` services, each of them
      holds its injected form and every later one is untouched. */
  lemma {:induction false} InjectUpToValues(d: Dict<Service>, n: nat, env: string, project: string)
    requires d.Valid() && n <= |d.keys|
    requires InjectUpTo(d, n, env, project).Ok?
    ensures var vals := InjectUpTo(d, n, env, project).value;
      && vals.Keys == d.vals.Keys
      && (forall i :: 0 <= i < n ==>
            InjectService(d.vals[d.keys[i]], env, project).Ok?
            && vals[d.keys[i]] == InjectService(d.vals[d.keys[i]], env, project).value)
      && (forall i :: n <= i < |d.keys| ==> vals[d.keys[i]] == d.vals[d.keys[i]])
    decreases n
  {
    InjectUpToOk(d, n, env, project);
    if n > 0 {
      var name := d.keys[n - 1];
      var prev := InjectUpTo(d, n - 1, env, project);
      assert prev.Ok?;
      InjectUpToValues(d, n - 1, env, project);
      var step := InjectService(d.vals[name], env, project);
      assert step.Ok?;
      var vals := prev.value[name := step.value];
      assert InjectUpTo(d, n, env, project) == Ok(vals);
      forall i | 0 <= i < |d.keys| && i != n - 1 ensures vals[d.keys[i]] == prev.value[d.keys[i]] {
        assert d.keys[i] != name;
      }
    }
  }

  /** Once a service's labels are rejected, injection stops with that error. */
  lemma {:induction false} InjectUpToStops(d: Dict<Service>, i: nat, n: nat, env: string, project: string)
    requires d.Valid() && i < n <= |d.keys|
    requires InjectUpTo(d, i, env, project).Ok?
    requires InjectService(d.vals[d.keys[i]], env, project).Err?
    ensures InjectUpTo(d, n, env, project) == Err(InjectService(d.vals[d.keys[i]], env, project).error)
    decreases n
  {
    if n > i + 1 {
      InjectUpToStops(d, i, n - 1, env, project);
    }
  }

  /** What `_inject_labels(compose_data, env, project_name)` returns: the
      definition with every service injected, or the label item `dict()`
      rejects. */
  function Injected(def: Definition, env: string, project: string): Result<Definition, string>
    requires def.Valid()
  {
    match def.services
    case None => Ok(def)
    case Some(d) =>
      match InjectUpTo(d, |d.keys|, env, project)
      case Err(e) => Err(e)
      case Ok(vals) => Ok(def.(services := Some(Dict(d.keys, vals))))
  }

  /** `_inject_labels`: the loop over the services of a copy of the
      definition (the argument, a value, is never changed). */
  method InjectLabels(def: Definition, env: string, project: string) returns (r: Result<Definition, string>)
    requires def.Valid()
    ensures r == Injected(def, env, project)
  {
    if def.services.None? {
      return Ok(def);
    }
    var d := def.services.value;
    var vals := d.vals;
    var i := 0;
    while i < |d.keys|
      invariant 0 <= i <= |d.keys|
      invariant InjectUpTo(d, i, env, project) == Ok(vals)
    {
      InjectUpToValues(d, i, env, project);
      var name := d.keys[i];
      var svc := vals[name];
      var labels: map<string, string>;
      match svc.labels {
        case NoLabels => labels := map[];
        case LabelMap(m) => labels := m;
        case LabelList(items) =>
          var converted := ListToMap(items);
          if converted.Err? {
            InjectUpToStops(d, i, |d.keys|, env, project);
            return Err(converted.error);
          }
          labels := converted.value;
      }
      labels := labels[EnvKey := env];
      labels := labels[ProjectKey := project];
      var injected := svc.(labels := LabelMap(labels));
      assert svc == d.vals[name];
      assert InjectService(svc, env, project) == Ok(injected);
      vals := vals[name := injected];
      i := i + 1;
    }
    return Ok(def.(services := Some(Dict(d.keys, vals))));
  }

  /** Injection fails exactly when some service has a list-form label
      without `=`. */
  lemma InjectedOk(def: Definition, env: string, project: string)
    requires def.Valid()
    ensures Injected(def, env, project).Ok? <==>
      forall k :: k in ServiceNames(def) ==> Normalize(def.services.value.vals[k].labels).Ok?
  {
    if def.services.Some? {
      var d := def.services.value;
      InjectUpToOk(d, |d.keys|, env, project);
      forall k | k in d.keys
        ensures InjectService(d.vals[k], env, project).Ok? <==> Normalize(d.vals[k].labels).Ok?
      {
        InjectServiceSpec(d.vals[k], env, project);
      }
      assert forall k :: k in d.keys ==> exists i :: 0 <= i < |d.keys| && d.keys[i] == k;
    }
  }

  /** A successful injection replaces every service by its injected form
      (see `InjectServiceSpec`) and keeps the service names, their order, and
      every other top-level key. */
  lemma InjectedShape(def: Definition, env: string, project: string)
    requires def.Valid() && Injected(def, env, project).Ok?
    ensures var out := Injected(def, env, project).value;
      && out.Valid()
      && ServiceNames(out) == ServiceNames(def)
      && out.networks == def.networks && out.volumes == def.volumes && out.other == def.other
      && forall k :: k in ServiceNames(def) ==>
           InjectService(def.services.value.vals[k], env, project).Ok?
           && out.services.value.vals[k] == InjectService(def.services.value.vals[k], env, project).value
  {
    if def.services.Some? {
      var d := def.services.value;
      InjectUpToValues(d, |d.keys|, env, project);
      forall k | k in d.keys
        ensures exists i :: 0 <= i < |d.keys| && d.keys[i] == k
      {
        var i :| 0 <= i < |d.keys| && d.keys[i] == k;
      }
    }
  }

  // ---------------------------------------------------------------------
  // _compose_up

  /** The command `_compose_up` runs: `cmd.insert(-1, "--build")` puts
      `--build` just before `-d`, and `cmd.extend(services)` appends the
      services. */
  function ComposeUpArgs(file: string, services: seq<string>, build: bool): seq<string> {
    var base := ["docker", "compose", "-f", file, "up", "-d"];
    var withBuild := if build then base[..|base| - 1] + ["--build"] + base[|base| - 1..] else base;
    withBuild + services
  }

  /** The command is `docker compose -f <file> up [--build] -d <services...>`. */
  lemma ComposeUpArgsLayout(file: string, services: seq<string>, build: bool)
    ensures var cmd := ComposeUpArgs(file, services, build);
      var d := if build then 6 else 5;
      && |cmd| == d + 1 + |services|
      && cmd[..5] == ["docker", "compose", "-f", file, "up"]
      && (build ==> cmd[5] == "--build")
      && cmd[d] == "-d"
      && cmd[d + 1..] == services
  {
  }

  /** Reads a `docker compose up` command back into its file, services and
      build flag. */
  function ParseUpArgs(cmd: seq<string>): Option<(string, seq<string>, bool)> {
    if |cmd| < 6 || cmd[..3] != ["docker", "compose", "-f"] || cmd[4] != "up" then None
    else if cmd[5] == "-d" then Some((cmd[3], cmd[6..], false))
    else if cmd[5] == "--build" && |cmd| >= 7 && cmd[6] == "-d" then Some((cmd[3], cmd[7..], true))
    else None
  }

  /** The command carries its file, its services and the build flag, with
      nothing lost. */
  lemma ParseComposeUpArgs(file: string, services: seq<string>, build: bool)
    ensures ParseUpArgs(ComposeUpArgs(file, services, build)) == Some((file, services, build))
  {
    var cmd := ComposeUpArgs(file, services, build);
    assert cmd[..3] == ["docker", "compose", "-f"];
  }

  /** `_compose_up(compose_data, services, build)`: one `docker compose up`
      call carrying the definition (written to `file`). */
  method Launch(rt: Docker.Runtime, definition: Definition, services: seq<string>, build: bool, file: string)
    returns (ok: bool)
    modifies rt`log
    ensures rt.log == old(rt.log) + [ComposeUp(definition, ComposeUpArgs(file, services, build))]
    ensures ok == (ComposeUp(definition, ComposeUpArgs(file, services, build)) !in rt.refused)
  {
    var cmd := ["docker", "compose", "-f", file, "up", "-d"];
    if build {
      cmd := cmd[..|cmd| - 1] + ["--build"] + cmd[|cmd| - 1..];
    }
    if services != [] {
      cmd := cmd + services;
    } else {
      assert cmd + services == cmd;
    }
    assert cmd == ComposeUpArgs(file, services, build);
    ok := rt.Up(definition, cmd);
  }

  // ---------------------------------------------------------------------
  // Service selection in `up`

  /** `s.upper() == "ALL"` for a stripped `--dev` value. */
  predicate IsAllKeyword(s: string) {
    && |s| == 3
    && (s[0] == 'a' || s[0] == 'A')
    && (s[1] == 'l' || s[1] == 'L')
    && (s[2] == 'l' || s[2] == 'L')
  }

  /** `[s.strip() for s in parts if s.strip()]` */
  function Requested(parts: seq<string>): seq<string>
    decreases |parts|
  {
    if parts == [] then []
    else
      var s := Strip(parts[|parts| - 1]);
      Requested(parts[..|parts| - 1]) + if s != "" then [s] else []
  }

  /** The requested names are the non-empty stripped parts. */
  lemma {:induction false} RequestedMembers(parts: seq<string>, x: string)
    ensures x in Requested(parts) <==> x != "" && exists i :: 0 <= i < |parts| && Strip(parts[i]) == x
    decreases |parts|
  {
    if parts != [] {
      var init := parts[..|parts| - 1];
      RequestedMembers(init, x);
      if exists i :: 0 <= i < |parts| && Strip(parts[i]) == x {
        var i :| 0 <= i < |parts| && Strip(parts[i]) == x;
        if i < |init| { assert init[i] == parts[i]; }
      }
      if exists i :: 0 <= i < |init| && Strip(init[i]) == x {
        var i :| 0 <= i < |init| && Strip(init[i]) == x;
        assert parts[i] == init[i];
      }
    }
  }

  /** Parts are read one after another: the names of a longer request are
      those of its first parts followed by those of the rest, so request
      order and repeats are kept. */
  lemma {:induction false} RequestedConcat(a: seq<string>, b: seq<string>)
    ensures Requested(a + b) == Requested(a) + Requested(b)
    decreases |b|
  {
    if b == [] {
      assert a + b == a;
    } else {
      var init := b[..|b| - 1];
      var last := b[|b| - 1];
      assert (a + b)[..|a + b| - 1] == a + init;
      assert (a + b)[|a + b| - 1] == last;
      RequestedConcat(a, init);
    }
  }

  /** One part names its stripped text, unless that is empty. */
  lemma RequestedOne(p: string)
    ensures Requested([p]) == if Strip(p) == "" then [] else [Strip(p)]
  {
    assert [p][..0] == [];
  }

  /** `dev_to_start` in `up`, from the `--dev` option and the dev service
      names. */
  function ResolveDev(dev: Option<string>, devNames: seq<string>): seq<string> {
    if dev.None? || dev.value == "" then []
    else if IsAllKeyword(Strip(dev.value)) then devNames
    else Requested(Split(dev.value, ','))
  }

  /** `prod_to_start`: the prod names not shadowed by a dev name. */
  function ProdToStart(prodNames: seq<string>, devToStart: seq<string>): seq<string>
    decreases |prodNames|
  {
    if prodNames == [] then []
    else
      var s := prodNames[|prodNames| - 1];
      ProdToStart(prodNames[..|prodNames| - 1], devToStart) + if s !in devToStart then [s] else []
  }

  /** `a` is `b` with some elements left out, order kept. */
  predicate IsSubsequence(a: seq<string>, b: seq<string>)
    decreases |b|
  {
    if a == [] then true
    else if b == [] then false
    else if a[|a| - 1] == b[|b| - 1] then IsSubsequence(a[..|a| - 1], b[..|b| - 1])
    else IsSubsequence(a, b[..|b| - 1])
  }

  /** Without `--dev`, or with an empty one, no dev service starts; with an
      `ALL` in any case (after stripping), every dev service starts in
      declaration order; otherwise each requested name is a non-empty,
      stripped, comma-free piece of the option, and every such piece is
      requested. */
  lemma ResolveDevSpec(dev: Option<string>, devNames: seq<string>)
    ensures dev.None? || dev.value == "" ==> ResolveDev(dev, devNames) == []
    ensures dev.Some? && dev.value != "" && IsAllKeyword(Strip(dev.value)) ==> ResolveDev(dev, devNames) == devNames
    ensures dev.Some? && dev.value != "" && !IsAllKeyword(Strip(dev.value)) ==>
      var r := ResolveDev(dev, devNames);
      && (forall x :: x in r <==> x != "" && exists p :: p in Split(dev.value, ',') && Strip(p) == x)
      && (forall i :: 0 <= i < |r| ==> ',' !in r[i] && Strip(r[i]) == r[i])
  {
    if dev.Some? && dev.value != "" && !IsAllKeyword(Strip(dev.value)) {
      var parts := Split(dev.value, ',');
      var r := Requested(parts);
      forall x ensures x in r <==> x != "" && exists p :: p in parts && Strip(p) == x {
        RequestedMembers(parts, x);
        if x != "" && exists p :: p in parts && Strip(p) == x {
          var p :| p in parts && Strip(p) == x;
          var j :| 0 <= j < |parts| && parts[j] == p;
        }
      }
      forall i | 0 <= i < |r| ensures ',' !in r[i] && Strip(r[i]) == r[i] {
        RequestedMembers(parts, r[i]);
        var j :| 0 <= j < |parts| && Strip(parts[j]) == r[i];
        assert ',' !in parts[j];
        StripSpec(parts[j]);
        StripChars(parts[j]);
        StripClean(r[i]);
      }
    }
  }

  lemma {:induction false} RequestedClean(names: seq<string>)
    requires forall i :: 0 <= i < |names| ==> names[i] != "" && Strip(names[i]) == names[i]
    ensures Requested(names) == names
    decreases |names|
  {
    if names != [] {
      var init := names[..|names| - 1];
      assert forall i :: 0 <= i < |init| ==> init[i] == names[i];
      RequestedClean(init);
      var last := names[|names| - 1];
      assert Strip(last) == last;
      assert names == init + [last];
    }
  }

  /** A comma-separated request of clean names (that is not the ALL
      keyword) starts exactly those names, in request order, whether or not
      the dev definition has them. */
  lemma ResolveDevExplicit(names: seq<string>, devNames: seq<string>)
    requires names != []
    requires forall i :: 0 <= i < |names| ==> names[i] != "" && ',' !in names[i] && Strip(names[i]) == names[i]
    requires !IsAllKeyword(Strip(Join(names, ',')))
    ensures ResolveDev(Some(Join(names, ',')), devNames) == names
  {
    SplitJoin(names, ',');
    RequestedClean(names);
    assert names[0] != "";
    assert Join(names, ',') != "" by {
      if |names| > 1 {
        assert Join(names, ',') == names[0] + [','] + Join(names[1..], ',');
      }
    }
  }

  /** Any explicit `--dev` value, written as its comma-separated parts
      (spaces and empty parts included), starts the names `Requested` reads
      from those parts; with `RequestedConcat` and `RequestedOne` that is
      each non-empty stripped part in request order, repeats kept. */
  lemma ResolveDevParts(parts: seq<string>, devNames: seq<string>)
    requires parts != []
    requires forall i :: 0 <= i < |parts| ==> ',' !in parts[i]
    requires Join(parts, ',') != ""
    requires !IsAllKeyword(Strip(Join(parts, ',')))
    ensures ResolveDev(Some(Join(parts, ',')), devNames) == Requested(parts)
  {
    SplitJoin(parts, ',');
  }

  /** One leading blank before a word is dropped by `strip()`. */
  lemma StripLeadingBlank(w: string)
    requires w != [] && !IsSpace(w[0]) && !IsSpace(w[|w| - 1])
    ensures Strip([' '] + w) == w
  {
    var s := [' '] + w;
    assert s[1..] == w;
    assert IsSpace(s[0]);
    assert TrimLeft(s) == TrimLeft(w);
    assert TrimLeft(w) == w;
    assert TrimRight(w) == w;
  }

  /** `--dev " x, y"` (a blank before each name, as in `--dev "api, worker"`
      typed with spaces) starts dev `x` then dev `y`. */
  lemma ResolveDevBlanks(x: string, y: string, devNames: seq<string>)
    requires x != [] && !IsSpace(x[0]) && !IsSpace(x[|x| - 1]) && ',' !in x
    requires y != [] && !IsSpace(y[0]) && !IsSpace(y[|y| - 1]) && ',' !in y
    ensures ResolveDev(Some([' '] + x + [','] + [' '] + y), devNames) == [x, y]
  {
    var a, b := [' '] + x, [' '] + y;
    var parts := [a, b];
    var joined := Join(parts, ',');
    assert joined == a + [','] + b by {
      assert parts[1..] == [b];
      assert Join([b], ',') == b;
    }
    var w := x + [','] + b;
    assert joined == [' '] + w;
    assert w[0] == x[0] && w[|w| - 1] == y[|y| - 1];
    StripLeadingBlank(w);
    assert !IsAllKeyword(Strip(joined));
    ResolveDevParts(parts, devNames);
    assert parts == [a] + [b];
    RequestedConcat([a], [b]);
    StripLeadingBlank(x);
    StripLeadingBlank(y);
    RequestedOne(a);
    RequestedOne(b);
    assert joined == [' '] + x + [','] + [' '] + y;
  }

  /** The prod services started are the prod names, in prod declaration
      order, that are not among the dev services started, so the two lists
      share no name. */
  lemma {:induction false} ProdToStartSpec(prodNames: seq<string>, devToStart: seq<string>)
    ensures forall x :: x in ProdToStart(prodNames, devToStart) <==> x in prodNames && x !in devToStart
    ensures IsSubsequence(ProdToStart(prodNames, devToStart), prodNames)
    decreases |prodNames|
  {
    if prodNames != [] {
      var init := prodNames[..|prodNames| - 1];
      var s := prodNames[|prodNames| - 1];
      ProdToStartSpec(init, devToStart);
      assert prodNames == init + [s];
      var r := ProdToStart(prodNames, devToStart);
      if s !in devToStart {
        assert r[..|r| - 1] == ProdToStart(init, devToStart);
      } else {
        assert r == ProdToStart(init, devToStart);
        assert prodNames[..|prodNames| - 1] == init;
        if r != [] {
          assert r[|r| - 1] in r;
        }
      }
    }
  }

  // ---------------------------------------------------------------------
  // The `up` command

  datatype UpError = BadLabel(item: string) | LaunchFailed(env: string)

  /** The `docker compose up` call for one environment, or the label item
      that made injection fail. */
  function LaunchCall(def: Definition, env: string, project: string, names: seq<string>, build: bool, file: string)
    : Result<Call, UpError>
    requires def.Valid()
  {
    match Injected(def, env, project)
    case Err(e) => Err(BadLabel(e))
    case Ok(labelled) => Ok(ComposeUp(labelled, ComposeUpArgs(file, names, build)))
  }

  /** The calls one launch step makes: none when nothing is to start or the
      labels could not be injected. */
  function Issued(names: seq<string>, call: Result<Call, UpError>): seq<Call> {
    if names == [] || call.Err? then [] else [call.value]
  }

  /** A launch step lets the command go on. */
  predicate Passed(names: seq<string>, call: Result<Call, UpError>, refused: set<Call>) {
    names == [] || (call.Ok? && call.value !in refused)
  }

  function StepError(call: Result<Call, UpError>, env: string): UpError {
    if call.Err? then call.error else LaunchFailed(env)
  }

  /** `up` after the definitions are loaded: the prod services not shadowed
      by a requested dev service are launched labelled `prod`, then the
      requested dev services labelled `dev`; a step with nothing to start
      makes no call, and a failing step ends the command. On success it
      returns (prod started, dev started). */
  method Up(rt: Docker.Runtime, project: string, dev: Option<string>, devDef: Definition, prodDef: Definition,
            build: bool, file: string)
    returns (r: Result<(seq<string>, seq<string>), UpError>)
    requires devDef.Valid() && prodDef.Valid()
    modifies rt`log
    ensures
      var devS := ResolveDev(dev, ServiceNames(devDef));
      var prodS := ProdToStart(ServiceNames(prodDef), devS);
      var prodCall := LaunchCall(prodDef, "prod", project, prodS, build, file);
      var devCall := LaunchCall(devDef, "dev", project, devS, build, file);
      && rt.log == old(rt.log) + Issued(prodS, prodCall)
                   + (if Passed(prodS, prodCall, rt.refused) then Issued(devS, devCall) else [])
      && r == if !Passed(prodS, prodCall, rt.refused) then Err(StepError(prodCall, "prod"))
              else if !Passed(devS, devCall, rt.refused) then Err(StepError(devCall, "dev"))
              else Ok((prodS, devS))
  {
    var devNames := ServiceNames(devDef);
    var prodNames := ServiceNames(prodDef);
    var devToStart := ResolveDev(dev, devNames);
    var prodToStart := ProdToStart(prodNames, devToStart);

    if prodToStart != [] {
      var labelled := InjectLabels(prodDef, "prod", project);
      if labelled.Err? {
        return Err(BadLabel(labelled.error));
      }
      var ok := Launch(rt, labelled.value, prodToStart, build, file);
      if !ok {
        return Err(LaunchFailed("prod"));
      }
    }

    if devToStart != [] {
      var labelled := InjectLabels(devDef, "dev", project);
      if labelled.Err? {
        return Err(BadLabel(labelled.error));
      }
      var ok := Launch(rt, labelled.value, devToStart, build, file);
      if !ok {
        return Err(LaunchFailed("dev"));
      }
    }
    r := Ok((prodToStart, devToStart));
  }

  /** The example of a project with prod services api and db and a dev
      service api: `up --dev api` starts prod db only, then dev api. */
  lemma ShopExample()
    ensures ResolveDev(Some("api"), ["api"]) == ["api"]
    ensures ProdToStart(["api", "db"], ["api"]) == ["db"]
  {
    StripClean("api");
    ResolveDevExplicit(["api"], ["api"]);
    assert ["api", "db"][..1] == ["api"];
  }
}
