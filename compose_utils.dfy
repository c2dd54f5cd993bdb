/** compose_utils.py: making the networks and volumes of a definition exist
    before launch (creating the missing ones, labelled with the project) and
    rewriting the definition to use them as external resources; removing a
    project's resources at teardown. */
module ComposeUtils {
  import opened Wrappers
  import opened Labels
  import opened Compose
  import opened Docker

  /** The Docker name of a logical network or volume: the entry's `name`
      when the entry is a mapping with a non-empty `name`, else the logical
      key. */
  function Physical(logical: string, cfg: ResourceConfig): string {
    if cfg.Config? && cfg.name.Some? && cfg.name.value != "" then cfg.name.value else logical
  }

  /** `{"name": physical, "external": True}` */
  function ExternalRef(physical: string): ResourceConfig {
    Config(Some(physical), Some(true), map[])
  }

  function PhysicalAt(d: Dict<ResourceConfig>, j: nat): string
    requires d.Valid() && j < |d.keys|
  {
    Physical(d.keys[j], d.vals[d.keys[j]])
  }

  /** Every entry of a section replaced by the external reference to its
      physical resource; the logical keys and their order are kept. */
  function Rewrite(d: Dict<ResourceConfig>): Dict<ResourceConfig> {
    Dict(d.keys, map k | k in d.vals :: ExternalRef(Physical(k, d.vals[k])))
  }

  function Section(def: Definition, kind: Kind): Option<Dict<ResourceConfig>> {
    if kind == Network then def.networks else def.volumes
  }

  function WithSection(def: Definition, kind: Kind, s: Dict<ResourceConfig>): Definition {
    if kind == Network then def.(networks := Some(s)) else def.(volumes := Some(s))
  }

  /** The runtime's pool and the calls made after the first `n` entries, and
      the physical name whose creation failed, if any. */
  datatype Outcome = Outcome(pool: seq<Resource>, calls: seq<Call>, failed: Option<string>)

  /** The loop of `ensure_networks` / `ensure_volumes` over the first `n`
      entries, from the pool `pool`: each physical name is inspected, and
      created with the project label when it is not there. A refused create
      (`check=True`) ends the loop. */
  function EnsureUpTo(kind: Kind, project: string, refused: set<Call>, pool: seq<Resource>,
                      d: Dict<ResourceConfig>, n: nat): Outcome
    requires d.Valid() && n <= |d.keys|
    decreases n
  {
    if n == 0 then Outcome(pool, [], None)
    else EnsureStep(kind, project, refused, EnsureUpTo(kind, project, refused, pool, d, n - 1), PhysicalAt(d, n - 1))
  }

  /** One entry of the loop, for physical name `p`. */
  function EnsureStep(kind: Kind, project: string, refused: set<Call>, o: Outcome, p: string): Outcome {
    if o.failed.Some? then o
    else Outcome(StepPool(kind, project, refused, o.pool, p), o.calls + StepCalls(kind, project, refused, o.pool, p),
                 if StepFails(kind, project, refused, o.pool, p) then Some(p) else None)
  }

  /** The create of a missing resource is refused. */
  predicate StepFails(kind: Kind, project: string, refused: set<Call>, pool: seq<Resource>, p: string) {
    p !in NamesOf(pool) && CreateResource(kind, p, project) in refused
  }

  function StepPool(kind: Kind, project: string, refused: set<Call>, pool: seq<Resource>, p: string): seq<Resource> {
    if p in NamesOf(pool) || CreateResource(kind, p, project) in refused then pool
    else pool + [Resource(p, Some(project))]
  }

  function StepCalls(kind: Kind, project: string, refused: set<Call>, pool: seq<Resource>, p: string): seq<Call> {
    if p in NamesOf(pool) then [InspectResource(kind, p)]
    else [InspectResource(kind, p), CreateResource(kind, p, project)]
  }

  /** The pool, the calls and the returned definition (or the resource whose
      creation failed) of one `ensure_*` call. */
  datatype Reconciled = Reconciled(pool: seq<Resource>, calls: seq<Call>, result: Result<Definition, string>)

  function Ensured(kind: Kind, project: string, refused: set<Call>, pool: seq<Resource>, def: Definition)
    : (e: Reconciled)
    requires def.Valid()
    // only the reconciled section changes: services, the other section and
    // every other top-level key are kept
    ensures e.result.Ok? ==>
      && e.result.value.Valid()
      && e.result.value.services == def.services
      && e.result.value.other == def.other
      && Section(e.result.value, OtherKind(kind)) == Section(def, OtherKind(kind))
  {
    var s := Section(def, kind);
    if s.None? || s.value.keys == [] then Reconciled(pool, [], Ok(def))
    else
      var o := EnsureUpTo(kind, project, refused, pool, s.value, |s.value.keys|);
      Reconciled(o.pool, o.calls,
                 if o.failed.Some? then Err(o.failed.value) else Ok(WithSection(def, kind, Rewrite(s.value))))
  }

  /** Once a create has failed, the later entries are not looked at. */
  lemma {:induction false} EnsureStops(kind: Kind, project: string, refused: set<Call>, pool: seq<Resource>,
                                       d: Dict<ResourceConfig>, i: nat, n: nat)
    requires d.Valid() && i <= n <= |d.keys|
    requires EnsureUpTo(kind, project, refused, pool, d, i).failed.Some?
    ensures EnsureUpTo(kind, project, refused, pool, d, n) == EnsureUpTo(kind, project, refused, pool, d, i)
    decreases n
  {
    if n > i {
      EnsureStops(kind, project, refused, pool, d, i, n - 1);
    }
  }

  /** The body of the loop for one entry: `docker inspect`, then `docker
      create` with the project label when the resource is missing. */
  method EnsureEntry(rt: Docker.Runtime, kind: Kind, physical: string, project: string) returns (ok: bool)
    requires rt.Valid()
    modifies rt`log, rt`networks, rt`volumes
    ensures rt.Valid()
    ensures rt.Pool(kind) == StepPool(kind, project, rt.refused, old(rt.Pool(kind)), physical)
    ensures rt.log == old(rt.log) + StepCalls(kind, project, rt.refused, old(rt.Pool(kind)), physical)
    ensures ok == !StepFails(kind, project, rt.refused, old(rt.Pool(kind)), physical)
    ensures rt.Pool(OtherKind(kind)) == old(rt.Pool(OtherKind(kind)))
  {
    var present := rt.Inspect(kind, physical);
    ok := true;
    if !present {
      ok := rt.Create(kind, physical, project);
    }
  }

  /** The section's entries after the loop has rewritten the first `n`. */
  function RewriteUpTo(d: Dict<ResourceConfig>, n: nat): map<string, ResourceConfig>
    requires d.Valid() && n <= |d.keys|
  {
    if n == 0 then d.vals
    else RewriteUpTo(d, n - 1)[d.keys[n - 1] := ExternalRef(PhysicalAt(d, n - 1))]
  }

  lemma {:induction false} RewriteUpToKeys(d: Dict<ResourceConfig>, n: nat)
    requires d.Valid() && n <= |d.keys|
    ensures RewriteUpTo(d, n).Keys == d.vals.Keys
  {
    if n > 0 { RewriteUpToKeys(d, n - 1); }
  }

  lemma {:induction false} RewriteUpToAt(d: Dict<ResourceConfig>, n: nat, j: nat)
    requires d.Valid() && n <= |d.keys| && j < |d.keys|
    ensures RewriteUpTo(d, n).Keys == d.vals.Keys
    ensures RewriteUpTo(d, n)[d.keys[j]] == if j < n then ExternalRef(PhysicalAt(d, j)) else d.vals[d.keys[j]]
  {
    RewriteUpToKeys(d, n);
    if n > 0 {
      RewriteUpToAt(d, n - 1, j);
      if j != n - 1 { assert d.keys[j] != d.keys[n - 1]; }
    }
  }

  /** Once every entry has been visited, the section is `Rewrite(d)`. */
  lemma RewriteUpToAll(d: Dict<ResourceConfig>)
    requires d.Valid()
    ensures Dict(d.keys, RewriteUpTo(d, |d.keys|)) == Rewrite(d)
  {
    var m := RewriteUpTo(d, |d.keys|);
    RewriteUpToKeys(d, |d.keys|);
    forall k | k in m ensures m[k] == Rewrite(d).vals[k] {
      var j :| 0 <= j < |d.keys| && d.keys[j] == k;
      RewriteUpToAt(d, |d.keys|, j);
    }
  }

  /** The runtime after the loop has handled the first `i` entries without a
      failure. */
  ghost predicate EnsuredUpTo(rt: Docker.Runtime, kind: Kind, d: Dict<ResourceConfig>, project: string,
                              pool0: seq<Resource>, log0: seq<Call>, i: nat)
    requires d.Valid() && i <= |d.keys|
    reads rt
  {
    var o := EnsureUpTo(kind, project, rt.refused, pool0, d, i);
    o.failed.None? && rt.Pool(kind) == o.pool && rt.log == log0 + o.calls
  }

  /** One pass of the loop: entry `i` is looked up under its physical name and
      created when missing. */
  method EnsureAt(rt: Docker.Runtime, kind: Kind, d: Dict<ResourceConfig>, project: string, i: nat,
                  ghost pool0: seq<Resource>, ghost log0: seq<Call>)
    returns (ok: bool, physical: string)
    requires rt.Valid() && d.Valid() && i < |d.keys|
    requires EnsuredUpTo(rt, kind, d, project, pool0, log0, i)
    modifies rt`log, rt`networks, rt`volumes
    ensures rt.Valid()
    ensures physical == PhysicalAt(d, i)
    ensures var o := EnsureUpTo(kind, project, rt.refused, pool0, d, i + 1);
      rt.Pool(kind) == o.pool && rt.log == log0 + o.calls && o.failed == if ok then None else Some(physical)
    ensures rt.Pool(OtherKind(kind)) == old(rt.Pool(OtherKind(kind)))
  {
    var name := d.keys[i];
    var cfg := d.vals[name];
    physical := if cfg.Config? && cfg.name.Some? && cfg.name.value != "" then cfg.name.value else name;
    ghost var o := EnsureUpTo(kind, project, rt.refused, pool0, d, i);
    ok := EnsureEntry(rt, kind, physical, project);
    assert rt.log == log0 + (o.calls + StepCalls(kind, project, rt.refused, o.pool, physical));
  }

  /** The loop of `ensure_networks` / `ensure_volumes` over the entries of
      a non-empty section: it issues the calls of `EnsureUpTo` and rewrites
      each entry in place to its external reference; it stops at the first
      create that fails. */
  method EnsureLoop(rt: Docker.Runtime, kind: Kind, d: Dict<ResourceConfig>, project: string,
                    ghost pool0: seq<Resource>, ghost log0: seq<Call>, ghost other0: seq<Resource>)
    returns (failed: Option<string>, vals: map<string, ResourceConfig>)
    requires rt.Valid() && d.Valid()
    requires rt.Pool(kind) == pool0 && rt.log == log0 && rt.Pool(OtherKind(kind)) == other0
    modifies rt`log, rt`networks, rt`volumes
    ensures rt.Valid()
    ensures var o := EnsureUpTo(kind, project, rt.refused, pool0, d, |d.keys|);
      rt.Pool(kind) == o.pool && rt.log == log0 + o.calls && failed == o.failed
    ensures failed.None? ==> vals == RewriteUpTo(d, |d.keys|)
    ensures rt.Pool(OtherKind(kind)) == other0
  {
    vals := d.vals;
    var i := 0;
    while i < |d.keys|
      invariant 0 <= i <= |d.keys|
      invariant rt.Valid()
      invariant rt.Pool(OtherKind(kind)) == other0
      invariant EnsuredUpTo(rt, kind, d, project, pool0, log0, i)
      invariant vals == RewriteUpTo(d, i)
    {
      var ok, physical := EnsureAt(rt, kind, d, project, i, pool0, log0);
      if !ok {
        EnsureStops(kind, project, rt.refused, pool0, d, i + 1, |d.keys|);
        return Some(physical), vals;
      }
      vals := vals[d.keys[i] := ExternalRef(physical)];
      i := i + 1;
    }
    failed := None;
  }

  /** `ensure_networks` (kind `Network`) and `ensure_volumes` (kind
      `Volume`), on a copy of the definition: the argument, a value, is never
      changed. */
  method EnsureResources(rt: Docker.Runtime, kind: Kind, def: Definition, project: string)
    returns (r: Result<Definition, string>)
    requires rt.Valid() && def.Valid()
    modifies rt`log, rt`networks, rt`volumes
    ensures rt.Valid()
    ensures var e := Ensured(kind, project, rt.refused, old(rt.Pool(kind)), def);
      rt.Pool(kind) == e.pool && rt.log == old(rt.log) + e.calls && r == e.result
    ensures rt.Pool(OtherKind(kind)) == old(rt.Pool(OtherKind(kind)))
    ensures Section(def, kind).None? || Section(def, kind).value.keys == [] ==>
      r == Ok(def) && rt.log == old(rt.log)
  {
    var section := if kind == Network then def.networks else def.volumes;
    if section.None? || section.value.keys == [] {
      return Ok(def);
    }
    var d := section.value;
    var failed, vals := EnsureLoop(rt, kind, d, project, rt.Pool(kind), rt.log, rt.Pool(OtherKind(kind)));
    RewriteUpToAll(d);
    if failed.Some? {
      return Err(failed.value);
    }
    if kind == Network {
      r := Ok(def.(networks := Some(Dict(d.keys, vals))));
    } else {
      r := Ok(def.(volumes := Some(Dict(d.keys, vals))));
    }
  }

  method EnsureNetworks(rt: Docker.Runtime, def: Definition, project: string) returns (r: Result<Definition, string>)
    requires rt.Valid() && def.Valid()
    modifies rt`log, rt`networks, rt`volumes
    ensures rt.Valid()
    ensures var e := Ensured(Network, project, rt.refused, old(rt.networks), def);
      rt.networks == e.pool && rt.log == old(rt.log) + e.calls && r == e.result
    ensures rt.volumes == old(rt.volumes)
  {
    r := EnsureResources(rt, Network, def, project);
  }

  method EnsureVolumes(rt: Docker.Runtime, def: Definition, project: string) returns (r: Result<Definition, string>)
    requires rt.Valid() && def.Valid()
    modifies rt`log, rt`networks, rt`volumes
    ensures rt.Valid()
    ensures var e := Ensured(Volume, project, rt.refused, old(rt.volumes), def);
      rt.volumes == e.pool && rt.log == old(rt.log) + e.calls && r == e.result
    ensures rt.networks == old(rt.networks)
  {
    r := EnsureResources(rt, Volume, def, project);
  }

  /** `prepare_compose`: networks first, then volumes on the result. */
  method PrepareCompose(rt: Docker.Runtime, def: Definition, project: string) returns (r: Result<Definition, string>)
    requires rt.Valid() && def.Valid()
    modifies rt`log, rt`networks, rt`volumes
    ensures rt.Valid()
    ensures var n := Ensured(Network, project, rt.refused, old(rt.networks), def);
      if n.result.Err? then
        r == n.result && rt.networks == n.pool && rt.volumes == old(rt.volumes) && rt.log == old(rt.log) + n.calls
      else
        var v := Ensured(Volume, project, rt.refused, old(rt.volumes), n.result.value);
        r == v.result && rt.networks == n.pool && rt.volumes == v.pool && rt.log == old(rt.log) + n.calls + v.calls
  {
    var data := EnsureNetworks(rt, def, project);
    if data.Err? {
      return data;
    }
    r := EnsureVolumes(rt, data.value, project);
  }

  // ---------------------------------------------------------------------
  // Properties of the reconciliation

  lemma RewriteValid(d: Dict<ResourceConfig>)
    requires d.Valid()
    ensures Rewrite(d).Valid()
  {
  }

  /** The pool only grows: what was there stays, in place, and each
      resource added carries the project as owner and a name that was not
      there before. */
  lemma {:induction false} EnsureGrows(kind: Kind, project: string, refused: set<Call>, pool: seq<Resource>,
                                       d: Dict<ResourceConfig>, n: nat)
    requires d.Valid() && n <= |d.keys|
    ensures var o := EnsureUpTo(kind, project, refused, pool, d, n);
      && |pool| <= |o.pool| && o.pool[..|pool|] == pool
      && forall j :: |pool| <= j < |o.pool| ==> o.pool[j].owner == Some(project) && o.pool[j].name !in NamesOf(pool)
    decreases n
  {
    if n > 0 {
      EnsureGrows(kind, project, refused, pool, d, n - 1);
      var o := EnsureUpTo(kind, project, refused, pool, d, n - 1);
      var o' := EnsureUpTo(kind, project, refused, pool, d, n);
      if o.failed.None? && PhysicalAt(d, n - 1) !in NamesOf(o.pool) {
        var p := PhysicalAt(d, n - 1);
        PrefixNames(pool, o.pool);
        assert o'.pool == o.pool + [Resource(p, Some(project))] || o'.pool == o.pool;
      }
    }
  }

  /** After a successful reconciliation every physical name exists. */
  lemma {:induction false} EnsureCovers(kind: Kind, project: string, refused: set<Call>, pool: seq<Resource>,
                                        d: Dict<ResourceConfig>, n: nat)
    requires d.Valid() && n <= |d.keys|
    ensures var o := EnsureUpTo(kind, project, refused, pool, d, n);
      o.failed.None? ==> forall j :: 0 <= j < n ==> PhysicalAt(d, j) in NamesOf(o.pool)
    decreases n
  {
    if n > 0 {
      EnsureCovers(kind, project, refused, pool, d, n - 1);
      var o := EnsureUpTo(kind, project, refused, pool, d, n - 1);
      if EnsureUpTo(kind, project, refused, pool, d, n).failed.None? {
        StepCovers(kind, project, refused, o, PhysicalAt(d, n - 1));
      }
    }
  }

  /** A step that does not fail leaves its name in the pool and keeps every
      name that was there. */
  lemma StepCovers(kind: Kind, project: string, refused: set<Call>, o: Outcome, p: string)
    requires EnsureStep(kind, project, refused, o, p).failed.None?
    ensures o.failed.None?
    ensures NamesOf(o.pool) <= NamesOf(EnsureStep(kind, project, refused, o, p).pool)
    ensures p in NamesOf(EnsureStep(kind, project, refused, o, p).pool)
  {
    var added := Resource(p, Some(project));
    assert added in o.pool + [added];
  }

  /** The only names in the pool after reconciliation are the ones that
      were there or were asked for. */
  lemma {:induction false} EnsureNamesFrom(kind: Kind, project: string, refused: set<Call>, pool: seq<Resource>,
                                           d: Dict<ResourceConfig>, n: nat)
    requires d.Valid() && n <= |d.keys|
    ensures var o := EnsureUpTo(kind, project, refused, pool, d, n);
      forall x :: x in NamesOf(o.pool) ==> x in NamesOf(pool) || exists j :: 0 <= j < n && PhysicalAt(d, j) == x
    decreases n
  {
    if n > 0 {
      EnsureNamesFrom(kind, project, refused, pool, d, n - 1);
      var o := EnsureUpTo(kind, project, refused, pool, d, n - 1);
      var o' := EnsureUpTo(kind, project, refused, pool, d, n);
      var p := PhysicalAt(d, n - 1);
      if o.failed.None? && p !in NamesOf(o.pool) && CreateResource(kind, p, project) !in refused {
        var added := Resource(p, Some(project));
        assert o'.pool == o.pool + [added];
        forall x | x in NamesOf(o'.pool) ensures x in NamesOf(pool) || exists j :: 0 <= j < n && PhysicalAt(d, j) == x {
          var y :| y in o'.pool && y.name == x;
          if y != added { assert y in o.pool; }
        }
      }
    }
  }

  /** The names of a prefix are names of the whole. */
  lemma PrefixNames(pool: seq<Resource>, big: seq<Resource>)
    requires |pool| <= |big| && big[..|pool|] == pool
    ensures NamesOf(pool) <= NamesOf(big)
  {
    forall x | x in pool ensures x in big {
      var k :| 0 <= k < |pool| && pool[k] == x;
      assert big[k] == x;
    }
  }

  /** Reconciliation only inspects and creates; each create is for a
      physical name of the section that was missing from the pool at the
      start, and carries the project label. */
  lemma {:induction false} EnsureCreatesOnlyMissing(kind: Kind, project: string, refused: set<Call>,
                                                    pool: seq<Resource>, d: Dict<ResourceConfig>, n: nat)
    requires d.Valid() && n <= |d.keys|
    ensures var o := EnsureUpTo(kind, project, refused, pool, d, n);
      forall c :: c in o.calls ==>
        || (c.InspectResource? && c == InspectResource(kind, c.name))
        || (&& c.CreateResource? && c == CreateResource(kind, c.name, project) && c.name !in NamesOf(pool)
            && exists j :: 0 <= j < n && PhysicalAt(d, j) == c.name)
    decreases n
  {
    if n > 0 {
      EnsureCreatesOnlyMissing(kind, project, refused, pool, d, n - 1);
      EnsureGrows(kind, project, refused, pool, d, n - 1);
      var o := EnsureUpTo(kind, project, refused, pool, d, n - 1);
      var p := PhysicalAt(d, n - 1);
      if o.failed.None? && p !in NamesOf(o.pool) {
        PrefixNames(pool, o.pool);
        assert EnsureUpTo(kind, project, refused, pool, d, n).calls
            == o.calls + [InspectResource(kind, p), CreateResource(kind, p, project)];
      }
    }
  }

  /** On success, every physical name missing from the pool at the start
      got a create labelled with the project. */
  lemma EnsureCreatesAllMissing(kind: Kind, project: string, refused: set<Call>,
                                pool: seq<Resource>, d: Dict<ResourceConfig>, n: nat)
    requires d.Valid() && n <= |d.keys|
    ensures var o := EnsureUpTo(kind, project, refused, pool, d, n);
      o.failed.None? ==> forall j :: 0 <= j < n && PhysicalAt(d, j) !in NamesOf(pool) ==>
        CreateResource(kind, PhysicalAt(d, j), project) in o.calls
  {
    if EnsureUpTo(kind, project, refused, pool, d, n).failed.None? {
      forall j | 0 <= j < n && PhysicalAt(d, j) !in NamesOf(pool)
        ensures CreateResource(kind, PhysicalAt(d, j), project) in EnsureUpTo(kind, project, refused, pool, d, n).calls
      {
        CreatedAt(kind, project, refused, pool, d, n, j);
      }
    }
  }

  /** A name the loop added comes from an earlier entry. */
  lemma Origin(kind: Kind, project: string, refused: set<Call>, pool: seq<Resource>,
               d: Dict<ResourceConfig>, n: nat, x: string) returns (k: nat)
    requires d.Valid() && n <= |d.keys|
    requires x in NamesOf(EnsureUpTo(kind, project, refused, pool, d, n).pool) && x !in NamesOf(pool)
    ensures k < n && PhysicalAt(d, k) == x
  {
    EnsureNamesFrom(kind, project, refused, pool, d, n);
    k :| 0 <= k < n && PhysicalAt(d, k) == x;
  }

  lemma {:induction false} CreatedAt(kind: Kind, project: string, refused: set<Call>,
                                     pool: seq<Resource>, d: Dict<ResourceConfig>, n: nat, j: nat)
    requires d.Valid() && j < n <= |d.keys|
    requires EnsureUpTo(kind, project, refused, pool, d, n).failed.None?
    requires PhysicalAt(d, j) !in NamesOf(pool)
    ensures CreateResource(kind, PhysicalAt(d, j), project) in EnsureUpTo(kind, project, refused, pool, d, n).calls
    decreases n
  {
    var o := EnsureUpTo(kind, project, refused, pool, d, n - 1);
    var o' := EnsureUpTo(kind, project, refused, pool, d, n);
    var p := PhysicalAt(d, n - 1);
    assert o.failed.None?;
    assert o'.calls == o.calls + StepCalls(kind, project, refused, o.pool, p);
    if j < n - 1 {
      CreatedAt(kind, project, refused, pool, d, n - 1, j);
    } else if p in NamesOf(o.pool) {
      // an earlier entry with the same physical name created it
      var k := Origin(kind, project, refused, pool, d, n - 1, p);
      CreatedAt(kind, project, refused, pool, d, n - 1, k);
    } else {
      assert StepCalls(kind, project, refused, o.pool, p)[1] == CreateResource(kind, p, project);
    }
  }

  /** `docker inspect` calls for the first `n` physical names, in order. */
  function Inspections(kind: Kind, d: Dict<ResourceConfig>, n: nat): seq<Call>
    requires d.Valid() && n <= |d.keys|
    decreases n
  {
    if n == 0 then [] else Inspections(kind, d, n - 1) + [InspectResource(kind, PhysicalAt(d, n - 1))]
  }

  /** When every physical name already exists, reconciliation only
      inspects: no create, no change to the pool, no failure. */
  lemma {:induction false} EnsureNothingMissing(kind: Kind, project: string, refused: set<Call>, pool: seq<Resource>,
                                                d: Dict<ResourceConfig>, n: nat)
    requires d.Valid() && n <= |d.keys|
    requires forall j :: 0 <= j < n ==> PhysicalAt(d, j) in NamesOf(pool)
    ensures EnsureUpTo(kind, project, refused, pool, d, n) == Outcome(pool, Inspections(kind, d, n), None)
    decreases n
  {
    if n > 0 {
      EnsureNothingMissing(kind, project, refused, pool, d, n - 1);
    }
  }

  /** Physical names survive the rewrite, so the rewritten section names the
      same Docker resources. */
  lemma PhysicalOfRewrite(d: Dict<ResourceConfig>, j: nat)
    requires d.Valid() && j < |d.keys|
    ensures Rewrite(d).Valid() && PhysicalAt(Rewrite(d), j) == PhysicalAt(d, j)
  {
    RewriteValid(d);
  }

  lemma {:induction false} InspectionsOfRewrite(kind: Kind, d: Dict<ResourceConfig>, n: nat)
    requires d.Valid() && n <= |d.keys|
    ensures Rewrite(d).Valid() && Inspections(kind, Rewrite(d), n) == Inspections(kind, d, n)
    decreases n
  {
    RewriteValid(d);
    if n > 0 {
      InspectionsOfRewrite(kind, d, n - 1);
      PhysicalOfRewrite(d, n - 1);
    }
  }

  /** Rewriting an already rewritten section changes nothing. */
  lemma RewriteIdempotent(d: Dict<ResourceConfig>)
    requires d.Valid()
    ensures Rewrite(Rewrite(d)) == Rewrite(d)
  {
    var r := Rewrite(d);
    assert Rewrite(r).vals == r.vals by {
      forall k | k in r.vals ensures Rewrite(r).vals[k] == r.vals[k] {
        assert Physical(k, r.vals[k]) == Physical(k, d.vals[k]);
      }
    }
  }

  /** Reconciliation is idempotent: run again on the pool it left, with the
      same definition or with the definition it returned, it issues no
      create (only inspections), leaves the pool as it is, and returns the
      same definition. */
  lemma EnsuredIdempotent(kind: Kind, project: string, refused: set<Call>, pool: seq<Resource>, def: Definition)
    requires def.Valid() && Ensured(kind, project, refused, pool, def).result.Ok?
    ensures var e := Ensured(kind, project, refused, pool, def);
      var again := Ensured(kind, project, refused, e.pool, def);
      var onOutput := Ensured(kind, project, refused, e.pool, e.result.value);
      && again.pool == e.pool && again.result == e.result
      && onOutput.pool == e.pool && onOutput.result == e.result
      && (forall c :: c in again.calls ==> c.InspectResource?)
      && again.calls == onOutput.calls
  {
    var e := Ensured(kind, project, refused, pool, def);
    var s := Section(def, kind);
    if s.Some? && s.value.keys != [] {
      var d := s.value;
      var n := |d.keys|;
      EnsureCovers(kind, project, refused, pool, d, n);
      EnsureNothingMissing(kind, project, refused, e.pool, d, n);
      InspectionsAreInspections(kind, d, n);
      var out := e.result.value;
      RewriteValid(d);
      assert Section(out, kind) == Some(Rewrite(d));
      forall j | 0 <= j < n ensures PhysicalAt(Rewrite(d), j) in NamesOf(e.pool) {
        PhysicalOfRewrite(d, j);
      }
      EnsureNothingMissing(kind, project, refused, e.pool, Rewrite(d), n);
      InspectionsOfRewrite(kind, d, n);
      RewriteIdempotent(d);
      assert WithSection(out, kind, Rewrite(Rewrite(d))) == out;
    }
  }

  lemma {:induction false} InspectionsAreInspections(kind: Kind, d: Dict<ResourceConfig>, n: nat)
    requires d.Valid() && n <= |d.keys|
    ensures forall c :: c in Inspections(kind, d, n) ==> c.InspectResource?
    decreases n
  {
    if n > 0 { InspectionsAreInspections(kind, d, n - 1); }
  }

  // ---------------------------------------------------------------------
  // cleanup_networks / cleanup_volumes

  /** `[v for v in output if v]`: the empty lines dropped. */
  function NonEmptyLines(lines: seq<string>): (r: seq<string>)
    ensures forall x :: x in r <==> x in lines && x != ""
    decreases |lines|
  {
    if lines == [] then []
    else
      var last := lines[|lines| - 1];
      assert lines == lines[..|lines| - 1] + [last];
      NonEmptyLines(lines[..|lines| - 1]) + if last != "" then [last] else []
  }

  /** The `docker rm` calls of the cleanup loop. */
  function RmCalls(kind: Kind, names: seq<string>): seq<Call>
    decreases |names|
  {
    if names == [] then [] else RmCalls(kind, names[..|names| - 1]) + [RemoveResource(kind, names[|names| - 1])]
  }

  /** The pool after trying to remove each name in turn; a refused removal
      leaves the resource and the loop goes on. */
  function RmAll(kind: Kind, refused: set<Call>, pool: seq<Resource>, names: seq<string>): seq<Resource>
    decreases |names|
  {
    if names == [] then pool
    else RmStep(kind, refused, RmAll(kind, refused, pool, names[..|names| - 1]), names[|names| - 1])
  }

  /** The pool after one `docker rm`. */
  function RmStep(kind: Kind, refused: set<Call>, pool: seq<Resource>, name: string): seq<Resource> {
    if RemoveResource(kind, name) !in refused && name in NamesOf(pool) then Without(pool, name) else pool
  }

  lemma RmAllNext(kind: Kind, refused: set<Call>, pool: seq<Resource>, names: seq<string>, i: nat)
    requires i < |names|
    ensures RmAll(kind, refused, pool, names[..i + 1]) == RmStep(kind, refused, RmAll(kind, refused, pool, names[..i]), names[i])
    ensures RmCalls(kind, names[..i + 1]) == RmCalls(kind, names[..i]) + [RemoveResource(kind, names[i])]
  {
    assert names[..i + 1][..i] == names[..i];
  }

  /** A resource survives the cleanup loop exactly when its name was not
      targeted or its removal was refused. */
  lemma {:induction false} RmAllSpec(kind: Kind, refused: set<Call>, pool: seq<Resource>, names: seq<string>)
    requires DistinctNames(pool)
    ensures DistinctNames(RmAll(kind, refused, pool, names))
    ensures forall x :: x in RmAll(kind, refused, pool, names) <==>
      x in pool && (x.name !in names || RemoveResource(kind, x.name) in refused)
    decreases |names|
  {
    if names != [] {
      var init := names[..|names| - 1];
      RmAllSpec(kind, refused, pool, init);
      assert names == init + [names[|names| - 1]];
    }
  }

  /** The runtime after the cleanup loop has tried the first `i` targets. */
  ghost predicate CleanedUpTo(rt: Docker.Runtime, kind: Kind, targets: seq<string>,
                              pool0: seq<Resource>, log0: seq<Call>, i: nat)
    requires i <= |targets|
    reads rt
  {
    rt.log == log0 + RmCalls(kind, targets[..i]) && rt.Pool(kind) == RmAll(kind, rt.refused, pool0, targets[..i])
  }

  /** One pass of the cleanup loop: `docker rm` of target `i`, whatever its
      outcome. */
  method RmAt(rt: Docker.Runtime, kind: Kind, targets: seq<string>, i: nat,
              ghost pool0: seq<Resource>, ghost log0: seq<Call>)
    requires rt.Valid() && i < |targets|
    requires CleanedUpTo(rt, kind, targets, pool0, log0, i)
    modifies rt`log, rt`networks, rt`volumes
    ensures rt.Valid() && CleanedUpTo(rt, kind, targets, pool0, log0, i + 1)
    ensures rt.Pool(OtherKind(kind)) == old(rt.Pool(OtherKind(kind)))
  {
    ghost var before := rt.Pool(kind);
    var _ := rt.Rm(kind, targets[i]);
    assert rt.Pool(kind) == RmStep(kind, rt.refused, before, targets[i]);
    RmAllNext(kind, rt.refused, pool0, targets, i);
  }

  /** `cleanup_networks` (kind `Network`) and `cleanup_volumes` (kind
      `Volume`): list the resources labelled with the project, then try to
      remove each one; failures are ignored. */
  method Cleanup(rt: Docker.Runtime, kind: Kind, project: string)
    requires rt.Valid()
    modifies rt`log, rt`networks, rt`volumes
    ensures rt.Valid()
    ensures var targets := NonEmptyLines(Owned(old(rt.Pool(kind)), project));
      && rt.log == old(rt.log) + [ListOwned(kind, project)] + RmCalls(kind, targets)
      && rt.Pool(kind) == RmAll(kind, rt.refused, old(rt.Pool(kind)), targets)
    ensures rt.Pool(OtherKind(kind)) == old(rt.Pool(OtherKind(kind)))
  {
    var output := rt.ListResources(kind, project);
    var targets := NonEmptyLines(output);
    ghost var pool0 := old(rt.Pool(kind));
    ghost var log0 := rt.log;
    var i := 0;
    while i < |targets|
      invariant 0 <= i <= |targets|
      invariant rt.Valid()
      invariant CleanedUpTo(rt, kind, targets, pool0, log0, i)
      invariant rt.Pool(OtherKind(kind)) == old(rt.Pool(OtherKind(kind)))
    {
      RmAt(rt, kind, targets, i, pool0, log0);
      i := i + 1;
    }
    assert targets[..i] == targets;
  }

  /** After cleanup, the only resources of the project left are the ones
      whose removal was refused (and any with an empty name, which the line
      filter drops); resources of other owners are all still there. */
  lemma CleanupEffect(kind: Kind, refused: set<Call>, pool: seq<Resource>, project: string)
    requires DistinctNames(pool)
    ensures var after := RmAll(kind, refused, pool, NonEmptyLines(Owned(pool, project)));
      forall x :: x in after <==>
        x in pool && (x.owner != Some(project) || x.name == "" || RemoveResource(kind, x.name) in refused)
  {
    var targets := NonEmptyLines(Owned(pool, project));
    RmAllSpec(kind, refused, pool, targets);
    forall x | x in pool && x.name in targets ensures x.owner == Some(project) {
      var y :| y in pool && y.name == x.name && y.owner == Some(project);
      var i :| 0 <= i < |pool| && pool[i] == x;
      var j :| 0 <= j < |pool| && pool[j] == y;
      assert i == j;
    }
  }

  method CleanupNetworks(rt: Docker.Runtime, project: string)
    requires rt.Valid()
    modifies rt`log, rt`networks, rt`volumes
    ensures rt.Valid()
    ensures var targets := NonEmptyLines(Owned(old(rt.networks), project));
      && rt.log == old(rt.log) + [ListOwned(Network, project)] + RmCalls(Network, targets)
      && rt.networks == RmAll(Network, rt.refused, old(rt.networks), targets)
    ensures rt.volumes == old(rt.volumes)
  {
    Cleanup(rt, Network, project);
  }

  method CleanupVolumes(rt: Docker.Runtime, project: string)
    requires rt.Valid()
    modifies rt`log, rt`networks, rt`volumes
    ensures rt.Valid()
    ensures var targets := NonEmptyLines(Owned(old(rt.volumes), project));
      && rt.log == old(rt.log) + [ListOwned(Volume, project)] + RmCalls(Volume, targets)
      && rt.volumes == RmAll(Volume, rt.refused, old(rt.volumes), targets)
    ensures rt.networks == old(rt.networks)
  {
    Cleanup(rt, Volume, project);
  }
}
