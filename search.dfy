/**
 * Attribute search: join every stored attribute with its instance,
 * resource, module, state and version; keep the rows that pass the
 * filters; report one page of them and the number of all of them.
 */
module Search {
  import opened Wrappers
  import opened Attributes
  import opened Schema

  /** Rows per page (the LIMIT of the page query). */
  const PageSize: nat := 20

  type PageNumber = n: int | n >= 1 witness 1

  /**
   * The search parameters. An empty filter string means the parameter was
   * not given. `tfVersion` is accepted but not applied (see the README).
   */
  datatype SearchQuery = SearchQuery(
    resourceType: string,
    name: string,
    key: string,
    value: string,
    tfVersion: string,
    page: Option<PageNumber>)

  /** One joined row. `versionId` is "" for a state without a version. */
  datatype SearchResult = SearchResult(
    path: string,
    versionId: string,
    tfVersion: string,
    serial: nat,
    modulePath: string,
    resourceType: string,
    resourceName: string,
    index: string,
    key: string,
    value: string)

  datatype SearchPage = SearchPage(results: seq<SearchResult>, page: int, total: nat)

  // ---------------------------------------------------------------------------
  // The join
  // ---------------------------------------------------------------------------

  /** `f` applied to every element of `xs`, the results concatenated in order. */
  function FlatMap<T, U>(xs: seq<T>, f: T -> seq<U>): seq<U> {
    if xs == [] then [] else f(xs[0]) + FlatMap(xs[1..], f)
  }

  lemma {:induction false} FlatMapMember<T, U>(xs: seq<T>, f: T -> seq<U>, x: U)
    ensures x in FlatMap(xs, f) <==> exists e :: e in xs && x in f(e)
  {
    if xs != [] {
      FlatMapMember(xs[1..], f, x);
      assert forall e :: e in xs <==> e == xs[0] || e in xs[1..];
    }
  }

  function RowOf(st: Store, s: StateRow, m: Module, r: Resource, i: Instance, a: Attribute): SearchResult {
    SearchResult(s.path, VersionIdOf(st, s).GetOr(""), s.tfVersion, s.serial, m.path,
                 r.resourceType, r.name, i.index, a.key, a.value)
  }

  function InstanceHits(st: Store, s: StateRow, m: Module, r: Resource, i: Instance): seq<SearchResult> {
    seq(|i.attributes|, k requires 0 <= k < |i.attributes| => RowOf(st, s, m, r, i, i.attributes[k]))
  }

  function ResourceHits(st: Store, s: StateRow, m: Module, r: Resource): seq<SearchResult> {
    FlatMap(r.instances, i => InstanceHits(st, s, m, r, i))
  }

  function ModuleHits(st: Store, s: StateRow, m: Module): seq<SearchResult> {
    FlatMap(m.resources, r => ResourceHits(st, s, m, r))
  }

  /**
   * The state takes part in the join: its lineage is live, and its version
   * reference names a version row, which the join goes through.
   */
  predicate Searchable(st: Store, s: StateRow) {
    LiveState(st, s) && VersionIdOf(st, s).Some?
  }

  /** The rows of one state; none for a state that does not take part in the join. */
  function StateRowsOf(st: Store, s: StateRow): seq<SearchResult> {
    if Searchable(st, s) then FlatMap(s.modules, m => ModuleHits(st, s, m)) else []
  }

  /**
   * Every stored attribute of a state of a live lineage with a version,
   * joined with its instance, resource, module, state and version.
   */
  function Joined(st: Store): seq<SearchResult> {
    FlatMap(st.states, s => StateRowsOf(st, s))
  }

  /** `x` is the joined row of some attribute stored in `st` under a state that takes part in the join. */
  predicate Stored(st: Store, x: SearchResult) {
    exists s, m, r, i, a ::
      s in st.states && Searchable(st, s) && m in s.modules && r in m.resources && i in r.instances && a in i.attributes &&
      x == RowOf(st, s, m, r, i, a)
  }

  lemma InstanceHitsMember(st: Store, s: StateRow, m: Module, r: Resource, i: Instance, x: SearchResult)
    ensures x in InstanceHits(st, s, m, r, i) <==> exists a :: a in i.attributes && x == RowOf(st, s, m, r, i, a)
  {
    if exists a :: a in i.attributes && x == RowOf(st, s, m, r, i, a) {
      var a :| a in i.attributes && x == RowOf(st, s, m, r, i, a);
      var k :| 0 <= k < |i.attributes| && i.attributes[k] == a;
      assert InstanceHits(st, s, m, r, i)[k] == x;
    }
  }

  lemma ResourceHitsMember(st: Store, s: StateRow, m: Module, r: Resource, x: SearchResult)
    ensures x in ResourceHits(st, s, m, r) <==>
      exists i, a :: i in r.instances && a in i.attributes && x == RowOf(st, s, m, r, i, a)
  {
    FlatMapMember(r.instances, i => InstanceHits(st, s, m, r, i), x);
    forall i | i in r.instances {
      InstanceHitsMember(st, s, m, r, i, x);
    }
  }

  lemma ModuleHitsMember(st: Store, s: StateRow, m: Module, x: SearchResult)
    ensures x in ModuleHits(st, s, m) <==>
      exists r, i, a :: r in m.resources && i in r.instances && a in i.attributes && x == RowOf(st, s, m, r, i, a)
  {
    FlatMapMember(m.resources, r => ResourceHits(st, s, m, r), x);
    forall r | r in m.resources {
      ResourceHitsMember(st, s, m, r, x);
    }
  }

  lemma StateRowsMember(st: Store, s: StateRow, x: SearchResult)
    ensures x in StateRowsOf(st, s) <==>
      (Searchable(st, s) &&
       exists m, r, i, a :: m in s.modules && r in m.resources && i in r.instances && a in i.attributes &&
         x == RowOf(st, s, m, r, i, a))
  {
    FlatMapMember(s.modules, m => ModuleHits(st, s, m), x);
    forall m | m in s.modules {
      ModuleHitsMember(st, s, m, x);
    }
  }

  /** The join lists exactly the stored attributes. */
  lemma JoinedIsStored(st: Store, x: SearchResult)
    ensures x in Joined(st) <==> Stored(st, x)
  {
    FlatMapMember(st.states, s => StateRowsOf(st, s), x);
    forall s | s in st.states {
      StateRowsMember(st, s, x);
    }
  }

  // ---------------------------------------------------------------------------
  // Filtering, counting and paging
  // ---------------------------------------------------------------------------

  /** The row passes every filter that was given: type, name, attribute key, attribute value. */
  predicate Matches(q: SearchQuery, x: SearchResult) {
    (q.resourceType == "" || x.resourceType == q.resourceType) &&
    (q.name == "" || x.resourceName == q.name) &&
    (q.key == "" || x.key == q.key) &&
    (q.value == "" || x.value == q.value)
  }

  /** The rows of `rows` that pass the filters, in their order. */
  function Filter(rows: seq<SearchResult>, q: SearchQuery): (r: seq<SearchResult>)
    ensures |r| <= |rows|
    ensures forall x :: x in r <==> x in rows && Matches(q, x)
  {
    if rows == [] then []
    else
      var rest := Filter(rows[1..], q);
      assert forall x :: x in rows <==> x == rows[0] || x in rows[1..];
      if Matches(q, rows[0]) then [rows[0]] + rest else rest
  }

  /** The filtered rows keep every matching row as often as it occurs, and no other. */
  lemma {:induction false} FilterMultiset(rows: seq<SearchResult>, q: SearchQuery, x: SearchResult)
    ensures multiset(Filter(rows, q))[x] == if Matches(q, x) then multiset(rows)[x] else 0
  {
    if rows != [] {
      FilterMultiset(rows[1..], q, x);
      assert rows == [rows[0]] + rows[1..];
    }
  }

  /** The count does not depend on the order the rows come in. */
  lemma FilterCountOrderIndependent(rows1: seq<SearchResult>, rows2: seq<SearchResult>, q: SearchQuery)
    requires multiset(rows1) == multiset(rows2)
    ensures |Filter(rows1, q)| == |Filter(rows2, q)|
  {
    forall x
      ensures multiset(Filter(rows1, q))[x] == multiset(Filter(rows2, q))[x]
    {
      FilterMultiset(rows1, q, x);
      FilterMultiset(rows2, q, x);
    }
    assert multiset(Filter(rows1, q)) == multiset(Filter(rows2, q));
    assert |multiset(Filter(rows1, q))| == |Filter(rows1, q)|;
    assert |multiset(Filter(rows2, q))| == |Filter(rows2, q)|;
  }

  function Min(a: int, b: int): int {
    if a <= b then a else b
  }

  /** Rows (page - 1) * PageSize up to, but excluding, page * PageSize, as far as they exist. */
  function Window(matches: seq<SearchResult>, page: PageNumber): (w: seq<SearchResult>)
    ensures |w| <= PageSize
    ensures w == matches[Min((page - 1) * PageSize, |matches|)..Min(page * PageSize, |matches|)]
  {
    var lo := Min((page - 1) * PageSize, |matches|);
    matches[lo..Min(lo + PageSize, |matches|)]
  }

  /**
   * SearchAttribute: the requested page (page 1 when none is given) of the
   * rows that pass the filters, and the number of all such rows.
   */
  function SearchAttribute(st: Store, q: SearchQuery): (p: SearchPage)
    ensures p.page == q.page.GetOr(1)
    ensures p.total == |Filter(Joined(st), q)|
    ensures |p.results| <= PageSize && |p.results| <= p.total
    ensures forall x :: x in p.results ==> Matches(q, x) && Stored(st, x)
    ensures p.results == Window(Filter(Joined(st), q), q.page.GetOr(1))
  {
    var matches := Filter(Joined(st), q);
    var page := q.page.GetOr(1);
    var results := Window(matches, page);
    forall x | x in results
      ensures Matches(q, x) && Stored(st, x)
    {
      JoinedIsStored(st, x);
    }
    SearchPage(results, page, |matches|)
  }

  /** Pages 1 .. n, one after the other. */
  function Pages(matches: seq<SearchResult>, n: nat): seq<SearchResult> {
    if n == 0 then [] else Pages(matches, n - 1) + Window(matches, n)
  }

  lemma {:induction false} PagesArePrefix(matches: seq<SearchResult>, n: nat)
    ensures Pages(matches, n) == matches[..Min(n * PageSize, |matches|)]
  {
    if n > 0 {
      PagesArePrefix(matches, n - 1);
      var a := Min((n - 1) * PageSize, |matches|);
      var b := Min(n * PageSize, |matches|);
      assert matches[..a] + matches[a..b] == matches[..b];
    }
  }

  /**
   * Paging loses and repeats nothing: the first ceil(total / PageSize)
   * pages, read one after the other, are exactly the matching rows (page p
   * of a search being Window(matches, p), by SearchAttribute's contract).
   */
  lemma PagesCoverMatches(st: Store, q: SearchQuery)
    ensures var matches := Filter(Joined(st), q);
      var n := (|matches| + PageSize - 1) / PageSize;
      Pages(matches, n) == matches
  {
    var matches := Filter(Joined(st), q);
    var n := (|matches| + PageSize - 1) / PageSize;
    PagesArePrefix(matches, n);
    assert n * 20 >= |matches|;
    assert matches[..|matches|] == matches;
  }

  /**
   * The search the tests pin down: one stored attribute woozles =
   * "confuzles" of a test_thing named baz, in the state at "path" under
   * version "foo" and Terraform 1.0.0; searching with all four filters (and
   * a tf_version) gives that one row, page 1, total 1.
   */
  lemma SearchExample()
    ensures var st := Store([VersionRow(1, "foo", 0)], [LineageRow(1, "lineage", None)],
        [StateRow(1, "path", Some(1), "1.0.0", 2, 1,
          [Module("", [Resource(Managed, "test_thing", "baz", [Instance("", [Attribute("woozles", "\"confuzles\"")])])])])]);
      var p := SearchAttribute(st, SearchQuery("test_thing", "baz", "woozles", "\"confuzles\"", "1.0.0", None));
      p.page == 1 && p.total == 1 && |p.results| == 1 &&
      p.results[0].path == "path" && p.results[0].tfVersion == "1.0.0" && p.results[0].versionId == "foo"
  {
    var st := Store([VersionRow(1, "foo", 0)], [LineageRow(1, "lineage", None)],
        [StateRow(1, "path", Some(1), "1.0.0", 2, 1,
          [Module("", [Resource(Managed, "test_thing", "baz", [Instance("", [Attribute("woozles", "\"confuzles\"")])])])])]);
    var s := st.states[0];
    var m := s.modules[0];
    var r := m.resources[0];
    var i := r.instances[0];
    var row := RowOf(st, s, m, r, i, i.attributes[0]);
    assert InstanceHits(st, s, m, r, i) == [row];
    assert r.instances[1..] == [] && m.resources[1..] == [] && s.modules[1..] == [] && st.states[1..] == [];
    assert ResourceHits(st, s, m, r) == [row];
    assert ModuleHits(st, s, m) == [row];
    assert StateRowsOf(st, s) == [row];
    assert Joined(st) == [row];
    var q := SearchQuery("test_thing", "baz", "woozles", "\"confuzles\"", "1.0.0", None);
    assert Matches(q, row);
    assert Filter(Joined(st), q) == [row];
  }
}
