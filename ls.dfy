/** `dtop ls`: list the containers the tool manages, grouped by project,
    projects in ascending order and each project's containers by name. */
module LsCommand {
  import opened Wrappers
  import opened Text
  import opened Labels
  import opened Compose
  import opened Docker

  // ---------------------------------------------------------------------
  // _get_containers

  /** The filter of `_get_containers`: the project's own label value when a
      non-empty name is given, mere presence of the label otherwise. */
  function ListFilter(project: Option<string>): (f: Filter)
    ensures f.key == ProjectKey
    ensures f.LabelEquals? <==> project.Some? && project.value != ""
    ensures f.LabelEquals? ==> f.value == project.value
  {
    if project.Some? && project.value != "" then LabelEquals(ProjectKey, project.value)
    else LabelPresent(ProjectKey)
  }

  /** `_get_containers`: `docker ps -a` with that filter. */
  method GetContainers(rt: Docker.Runtime, project: Option<string>) returns (cs: seq<Container>)
    modifies rt`log
    ensures rt.log == old(rt.log) + [ListContainers(ListFilter(project), true)]
    ensures cs == Listed(old(rt.containers), ListFilter(project), true)
  {
    var filter := LabelPresent(ProjectKey);
    if project.Some? && project.value != "" {
      filter := LabelEquals(ProjectKey, project.value);
    }
    cs := rt.Ps(filter, true);
  }

  /** Every container, and only those, of the runtime that the filter
      selects is listed, whether it runs or not. */
  lemma GetContainersSpec(cs: seq<Container>, project: Option<string>)
    ensures forall c :: c in Listed(cs, ListFilter(project), true) <==>
      && c in cs && HasLabel(c.labels, ProjectKey)
      && (project.Some? && project.value != "" ==> LabelOf(c.labels, ProjectKey) == project.value)
  {
    ListedSpec(cs, ListFilter(project), true);
  }

  // ---------------------------------------------------------------------
  // Grouping

  /** The group a container goes to. */
  function ProjectOf(c: Container): string {
    LabelOf(c.labels, ProjectKey)
  }

  /** The elements of `xs` whose key is `p`, in order. */
  function Members<T>(xs: seq<T>, key: T -> string, p: string): seq<T>
    decreases |xs|
  {
    if xs == [] then []
    else
      var x := xs[|xs| - 1];
      Members(xs[..|xs| - 1], key, p) + if key(x) == p then [x] else []
  }

  /** The `projects` dict after the `setdefault(proj, []).append(c)` loop:
      a key is added at its first element, and each element is appended to
      its key's list. */
  function GroupBy<T>(xs: seq<T>, key: T -> string): (g: Dict<seq<T>>)
    ensures g.Valid()
    decreases |xs|
  {
    if xs == [] then Dict([], map[])
    else
      var x := xs[|xs| - 1];
      AddTo(GroupBy(xs[..|xs| - 1], key), key(x), x)
  }

  /** `projects.setdefault(p, []).append(x)` */
  function AddTo<T>(g: Dict<seq<T>>, p: string, x: T): (r: Dict<seq<T>>)
    requires g.Valid()
    ensures r.Valid()
  {
    if p in g.vals then g.(vals := g.vals[p := g.vals[p] + [x]])
    else Dict(g.keys + [p], g.vals[p := [x]])
  }

  /** There is one group per key present, and each group holds the elements
      with that key in their original order. */
  lemma {:induction false} GroupBySpec<T>(xs: seq<T>, key: T -> string)
    ensures forall p :: p in GroupBy(xs, key).vals <==> exists x :: x in xs && key(x) == p
    ensures forall p :: p in GroupBy(xs, key).vals ==> GroupBy(xs, key).vals[p] == Members(xs, key, p)
    decreases |xs|
  {
    if xs != [] {
      var init := xs[..|xs| - 1];
      var x := xs[|xs| - 1];
      GroupBySpec(init, key);
      assert xs == init + [x];
      var g := GroupBy(xs, key);
      forall p ensures p in g.vals <==> exists y :: y in xs && key(y) == p {
        if exists y :: y in xs && key(y) == p {
          var y :| y in xs && key(y) == p;
          if y != x { assert y in init; }
        }
      }
      assert xs[..|xs| - 1] == init;
      forall p | p in g.vals ensures g.vals[p] == Members(xs, key, p) {
        if p != key(x) {
          assert p in GroupBy(init, key).vals;
        } else if p !in GroupBy(init, key).vals {
          MembersNone(init, key, p);
        }
      }
    }
  }

  lemma {:induction false} MembersNone<T>(xs: seq<T>, key: T -> string, p: string)
    requires forall x :: x in xs ==> key(x) != p
    ensures Members(xs, key, p) == []
    decreases |xs|
  {
    if xs != [] {
      MembersNone(xs[..|xs| - 1], key, p);
    }
  }

  /** An element occurs in its own key's group as often as in `xs`, and in
      no other group: every container is in exactly one group. */
  lemma {:induction false} MembersCount<T>(xs: seq<T>, key: T -> string, p: string, x: T)
    ensures multiset(Members(xs, key, p))[x] == if key(x) == p then multiset(xs)[x] else 0
    decreases |xs|
  {
    if xs != [] {
      var init := xs[..|xs| - 1];
      MembersCount(init, key, p, x);
      assert xs == init + [xs[|xs| - 1]];
    }
  }

  /** The grouping loop of `ls`. */
  method Group(cs: seq<Container>) returns (projects: Dict<seq<Container>>)
    ensures projects == GroupBy(cs, ProjectOf)
  {
    projects := Dict([], map[]);
    var i := 0;
    while i < |cs|
      invariant 0 <= i <= |cs|
      invariant projects == GroupBy(cs[..i], ProjectOf)
    {
      var proj := GetLabel(cs[i].labels, ProjectKey);
      assert cs[..i + 1][..i] == cs[..i];
      assert GroupBy(cs[..i + 1], ProjectOf) == AddTo(projects, ProjectOf(cs[i]), cs[i]);
      if proj in projects.vals {
        projects := projects.(vals := projects.vals[proj := projects.vals[proj] + [cs[i]]]);
      } else {
        projects := Dict(projects.keys + [proj], projects.vals[proj := [cs[i]]]);
      }
      i := i + 1;
    }
    assert cs[..i] == cs;
  }

  // ---------------------------------------------------------------------
  // The listing

  /** One printed row: ID, service, name, image, status, ports, env. */
  datatype Row = Row(id: string, service: string, name: string, image: string, status: string,
                     ports: string, env: string)

  function RowOf(c: Container): Row {
    Row(c.id, LabelOf(c.labels, ServiceKey), c.names, c.image, c.status, c.ports, LabelOf(c.labels, EnvKey))
  }

  /** The row carries the container's own columns; a container without a
      `dtop.env` or a Compose service label shows `""` there. */
  lemma RowOfSpec(c: Container)
    ensures RowOf(c).id == c.id && RowOf(c).name == c.names && RowOf(c).image == c.image
    ensures RowOf(c).status == c.status && RowOf(c).ports == c.ports
    ensures !HasLabel(c.labels, EnvKey) ==> RowOf(c).env == ""
    ensures !HasLabel(c.labels, ServiceKey) ==> RowOf(c).service == ""
  {
    if !HasLabel(c.labels, EnvKey) { LabelOfAbsent(c.labels, EnvKey); }
    if !HasLabel(c.labels, ServiceKey) { LabelOfAbsent(c.labels, ServiceKey); }
  }

  function RowsOf(cs: seq<Container>): seq<Row> {
    seq(|cs|, i requires 0 <= i < |cs| => RowOf(cs[i]))
  }

  /** The sort key `x.get("Names", "")`. */
  function ByName(c: Container): string { c.names }

  /** One project's block of the listing. */
  datatype Section = Section(project: string, rows: seq<Row>)

  function SectionOf(g: Dict<seq<Container>>, p: string): Section
    requires p in g.vals
  {
    Section(p, RowsOf(SortBy(g.vals[p], ByName)))
  }

  function Sections(g: Dict<seq<Container>>, order: seq<string>): seq<Section>
    requires forall p :: p in order ==> p in g.vals
    decreases |order|
  {
    if order == [] then []
    else Sections(g, order[..|order| - 1]) + [SectionOf(g, order[|order| - 1])]
  }

  lemma SectionsNext(g: Dict<seq<Container>>, order: seq<string>, i: nat)
    requires forall p :: p in order ==> p in g.vals
    requires i < |order|
    ensures Sections(g, order[..i + 1]) == Sections(g, order[..i]) + [SectionOf(g, order[i])]
  {
    assert order[..i + 1][..i] == order[..i];
  }

  /** What `ls` prints: a "no containers" line (naming the project when one
      was given), or the sections. */
  datatype LsOutput = NoContainers(project: Option<string>) | Listing(sections: seq<Section>)

  function LsRun(cs: seq<Container>, project: Option<string>): LsOutput {
    var listed := Listed(cs, ListFilter(project), true);
    if listed == [] then NoContainers(if project.Some? && project.value != "" then project else None)
    else
      var g := GroupBy(listed, ProjectOf);
      var order := SortBy(g.keys, Identity);
      assert forall p :: p in order ==> p in g.vals by {
        SortBySpec(g.keys, Identity);
        forall p | p in order ensures p in g.vals {
          assert p in multiset(order);
        }
      }
      Listing(Sections(g, order))
  }

  /** The columns of one row, the two label columns read by `_get_label`. */
  method ReadRow(c: Container) returns (row: Row)
    ensures row == RowOf(c)
  {
    var env := GetLabel(c.labels, EnvKey);
    var service := GetLabel(c.labels, ServiceKey);
    row := Row(c.id, service, c.names, c.image, c.status, c.ports, env);
  }

  /** The inner loop of `ls`: one row per container of project `p`, in
      name order. */
  method PrintSection(projects: Dict<seq<Container>>, p: string) returns (section: Section)
    requires p in projects.vals
    ensures section == SectionOf(projects, p)
  {
    var members := SortBy(projects.vals[p], ByName);
    var rows: seq<Row> := [];
    var j := 0;
    while j < |members|
      invariant 0 <= j <= |members|
      invariant rows == RowsOf(members[..j])
    {
      var row := ReadRow(members[j]);
      assert RowsOf(members[..j + 1]) == RowsOf(members[..j]) + [RowOf(members[j])];
      rows := rows + [row];
      j := j + 1;
    }
    assert members[..j] == members;
    section := Section(p, rows);
  }

  /** The outer loop of `ls`: one section per project, in the given order. */
  method PrintSections(projects: Dict<seq<Container>>, order: seq<string>) returns (sections: seq<Section>)
    requires forall p :: p in order ==> p in projects.vals
    ensures sections == Sections(projects, order)
  {
    sections := [];
    var i := 0;
    while i < |order|
      invariant 0 <= i <= |order|
      invariant sections == Sections(projects, order[..i])
    {
      var section := PrintSection(projects, order[i]);
      SectionsNext(projects, order, i);
      sections := sections + [section];
      i := i + 1;
    }
    assert order[..i] == order;
  }

  /** `ls` once its argument is known. */
  method Ls(rt: Docker.Runtime, project: Option<string>) returns (out: LsOutput)
    modifies rt`log
    ensures rt.log == old(rt.log) + [ListContainers(ListFilter(project), true)]
    ensures out == LsRun(old(rt.containers), project)
  {
    var containers := GetContainers(rt, project);
    if containers == [] {
      if project.Some? && project.value != "" {
        return NoContainers(project);
      }
      return NoContainers(None);
    }
    var projects := Group(containers);
    var order := SortBy(projects.keys, Identity);
    assert forall p :: p in order ==> p in projects.vals by {
      SortBySpec(projects.keys, Identity);
      forall p | p in order ensures p in projects.vals {
        assert p in multiset(order);
      }
    }
    var sections := PrintSections(projects, order);
    out := Listing(sections);
  }

  // ---------------------------------------------------------------------
  // Properties of the listing

  lemma {:induction false} SectionsAt(g: Dict<seq<Container>>, order: seq<string>)
    requires forall p :: p in order ==> p in g.vals
    ensures |Sections(g, order)| == |order|
    ensures forall i :: 0 <= i < |order| ==> Sections(g, order)[i] == SectionOf(g, order[i])
    decreases |order|
  {
    if order != [] {
      SectionsAt(g, order[..|order| - 1]);
    }
  }

  /** The sections come in the given project order. */
  lemma {:induction false} SectionsProjects(g: Dict<seq<Container>>, order: seq<string>)
    requires forall p :: p in order ==> p in g.vals
    ensures Projects(Sections(g, order)) == order
    decreases |order|
  {
    if order != [] {
      var init := order[..|order| - 1];
      SectionsProjects(g, init);
      assert order == init + [order[|order| - 1]];
    }
  }

  /** `ls` reports that there is nothing exactly when the filter selects no
      container of the runtime; the message names the project only when one
      was given. */
  lemma LsEmpty(cs: seq<Container>, project: Option<string>)
    ensures LsRun(cs, project).NoContainers? <==>
      forall c :: c in cs ==> !Selects(ListFilter(project), c.labels)
    ensures LsRun(cs, project).NoContainers? ==>
      LsRun(cs, project).project == if project.Some? && project.value != "" then project else None
  {
    var listed := Listed(cs, ListFilter(project), true);
    ListedSpec(cs, ListFilter(project), true);
    if listed != [] {
      assert listed[0] in listed;
    }
  }

  /** The project column of the sections. */
  function Projects(sections: seq<Section>): seq<string> {
    seq(|sections|, i requires 0 <= i < |sections| => sections[i].project)
  }

  /** A section shows its group sorted by name. */
  lemma SectionRows(g: Dict<seq<Container>>, p: string)
    requires p in g.vals
    ensures SectionOf(g, p).project == p
    ensures exists m :: && SortedBy(m, ByName) && multiset(m) == multiset(g.vals[p])
                        && SectionOf(g, p).rows == RowsOf(m)
  {
    var m := SortBy(g.vals[p], ByName);
    SortBySpec(g.vals[p], ByName);
    assert SectionOf(g, p).rows == RowsOf(m);
  }

  /** Printing the groups in sorted key order gives one section per group,
      with the keys strictly ascending. */
  lemma SortedSectionsOrder(g: Dict<seq<Container>>)
    requires g.Valid()
    ensures forall p :: p in SortBy(g.keys, Identity) ==> p in g.vals
    ensures var sections := Sections(g, SortBy(g.keys, Identity));
      && (forall i, j :: 0 <= i < j < |sections| ==>
            LexLe(sections[i].project, sections[j].project) && sections[i].project != sections[j].project)
      && (forall p :: p in Projects(sections) <==> p in g.vals)
  {
    var order := SortBy(g.keys, Identity);
    SortDistinctNames(g.keys);
    var sections := Sections(g, order);
    SectionsProjects(g, order);
    forall i, j | 0 <= i < j < |sections|
      ensures LexLe(sections[i].project, sections[j].project) && sections[i].project != sections[j].project
    {
      assert Projects(sections)[i] == order[i] && Projects(sections)[j] == order[j];
    }
  }

  /** Each section holds its group's rows sorted by name. */
  lemma SortedSectionsRows(g: Dict<seq<Container>>)
    requires g.Valid()
    requires forall p :: p in SortBy(g.keys, Identity) ==> p in g.vals
    ensures var sections := Sections(g, SortBy(g.keys, Identity));
      forall i :: 0 <= i < |sections| ==>
        && sections[i].project in g.vals
        && exists m :: && SortedBy(m, ByName)
                       && multiset(m) == multiset(g.vals[sections[i].project])
                       && sections[i].rows == RowsOf(m)
  {
    var order := SortBy(g.keys, Identity);
    var sections := Sections(g, order);
    SectionsAt(g, order);
    forall i | 0 <= i < |sections|
      ensures && sections[i].project in g.vals
              && exists m :: && SortedBy(m, ByName)
                             && multiset(m) == multiset(g.vals[sections[i].project])
                             && sections[i].rows == RowsOf(m)
    {
      SectionRows(g, order[i]);
    }
  }

  /** The listing has one section per project label value among the listed
      containers, in strictly ascending order of the value; each section's
      rows are the rows of exactly that project's containers (each as often
      as it was listed), sorted by container name. */
  lemma LsListing(cs: seq<Container>, project: Option<string>)
    ensures var out := LsRun(cs, project);
      var listed := Listed(cs, ListFilter(project), true);
      out.Listing? ==>
        && (forall i, j :: 0 <= i < j < |out.sections| ==>
              LexLe(out.sections[i].project, out.sections[j].project)
              && out.sections[i].project != out.sections[j].project)
        && (forall p :: p in Projects(out.sections) <==> exists c :: c in listed && ProjectOf(c) == p)
        && (forall i :: 0 <= i < |out.sections| ==>
              exists m :: && SortedBy(m, ByName)
                          && multiset(m) == multiset(Members(listed, ProjectOf, out.sections[i].project))
                          && out.sections[i].rows == RowsOf(m))
  {
    var listed := Listed(cs, ListFilter(project), true);
    if listed != [] {
      var g := GroupBy(listed, ProjectOf);
      GroupBySpec(listed, ProjectOf);
      SortedSectionsOrder(g);
      SortedSectionsRows(g);
      assert LsRun(cs, project).sections == Sections(g, SortBy(g.keys, Identity));
    }
  }
}
