/**
 * The Database handle: the three tables as fields, the two writing
 * operations as methods that update them step by step, and the read
 * operations as methods that leave them as they are. The pure functions
 * of Ingest, Queries and Search specify each method's result and new
 * tables; InsertState's two commits (lineage, then state) are taken as one
 * step.
 */
module Db {
  import opened Wrappers
  import opened Schema
  import Ingest
  import Queries
  import Search

  class Database {
    var versions: seq<VersionRow>
    var lineages: seq<LineageRow>
    var states: seq<StateRow>

    /** The tables as one value. */
    function Tables(): Store
      reads this
    {
      Store(versions, lineages, states)
    }

    ghost predicate Valid()
      reads this
    {
      WellFormed(Tables())
    }

    /** A handle on an index that already holds `existing`. */
    constructor (existing: Store)
      requires WellFormed(existing)
      ensures Valid() && Tables() == existing
    {
      versions := existing.versions;
      lineages := existing.lineages;
      states := existing.states;
    }

    /** Records a backend version unless a row with its `version_id` exists. */
    method InsertVersion(v: Version)
      requires Valid()
      modifies this
      ensures Valid()
      ensures Tables() == Ingest.WithVersion(old(Tables()), v)
    {
      var found := Ingest.FindVersion(versions, v.id);
      if found.None? {
        versions := versions + [VersionRow(|versions| + 1, v.id, v.lastModified)];
      }
      assert Tables() == Ingest.WithVersion(old(Tables()), v);
    }

    /**
     * Records one decoded snapshot: looks up the version (without creating
     * it), finds or creates the live lineage, then appends the state row
     * with its module tree. Fails, writing nothing, when the lineage value
     * belongs only to a soft-deleted row: creating it again would break the
     * uniqueness of lineage values.
     */
    method InsertState(path: string, versionId: string, file: StateFile) returns (ok: bool)
      requires Valid()
      modifies this
      ensures Valid()
      ensures ok <==> !LineageConflict(old(lineages), file.lineage)
      ensures Tables() == Ingest.WithState(old(Tables()), path, versionId, file)
    {
      var versionRef: Option<nat> := None;
      var version := Ingest.FindVersion(versions, versionId);
      if version.Some? {
        versionRef := Some(versions[version.value].id);
      }
      var lineageId: nat;
      var lineage := Ingest.FindLiveLineage(lineages, file.lineage);
      if lineage.Some? {
        lineageId := lineages[lineage.value].id;
      } else {
        var taken := Ingest.FindLineage(lineages, file.lineage);
        if taken.Some? {
          ok := false;
          return;
        }
        lineageId := |lineages| + 1;
        lineages := lineages + [LineageRow(lineageId, file.lineage, None)];
      }
      states := states + [StateRow(|states| + 1, path, versionRef, file.terraformVersion, file.serial,
                                   lineageId, ModuleRows(file.modules))];
      ok := true;
      assert Tables() == Ingest.WithState(old(Tables()), path, versionId, file);
    }

    method GetState(lineage: string, versionId: string) returns (r: Option<StateRow>)
      ensures r.Some? ==> r.value in states && Queries.StateMatches(Tables(), r.value, lineage, versionId)
      ensures r == Queries.GetState(Tables(), lineage, versionId)
    {
      r := Queries.GetState(Tables(), lineage, versionId);
    }

    method GetLineageActivity(lineage: string) returns (r: seq<Queries.Activity>)
      ensures r == Queries.GetLineageActivity(Tables(), lineage)
    {
      r := Queries.GetLineageActivity(Tables(), lineage);
    }

    method KnownVersions() returns (r: seq<string>)
      ensures forall id :: id in r <==> Known(Tables(), id)
      ensures r == Queries.KnownVersions(Tables())
    {
      r := Queries.KnownVersions(Tables());
    }

    method SearchAttribute(q: Search.SearchQuery) returns (results: seq<Search.SearchResult>, page: int, total: nat)
      ensures page == q.page.GetOr(1) && |results| <= Search.PageSize && |results| <= total
      ensures Search.SearchPage(results, page, total) == Search.SearchAttribute(Tables(), q)
    {
      var p := Search.SearchAttribute(Tables(), q);
      results, page, total := p.results, p.page, p.total;
    }
  }

  /**
   * The write-then-read sequence of the version tests: a fresh handle on an
   * empty index, InsertVersion("foo") with a zero timestamp, then
   * KnownVersions lists "foo" once; a repeated insert changes nothing.
   */
  method KnownVersionsScenario() returns (first: seq<string>, second: seq<string>)
    ensures first == ["foo"] && second == ["foo"]
  {
    var db := new Database(EmptyStore);
    db.InsertVersion(Version("foo", 0));
    first := db.KnownVersions();
    db.InsertVersion(Version("foo", 0));
    second := db.KnownVersions();
    Queries.KnownVersionsExample();
  }

  /**
   * The ingestion test as a sequence of calls: InsertState into an empty
   * index with an unknown version writes one lineage and one state row and
   * no version row; the lineage's activity is then that one state.
   */
  method InsertStateScenario() returns (ok: bool, activity: seq<Queries.Activity>)
    ensures ok && activity == [Queries.Activity("path", "")]
  {
    var db := new Database(EmptyStore);
    ok := db.InsertState("path", "foo", StateFile("1.0.0", 2, "lineage", []));
    Queries.InsertStateActivityExample();
    activity := db.GetLineageActivity("lineage");
  }

  /**
   * Ingesting a snapshot whose lineage was soft-deleted: the call fails and
   * the index still holds no state.
   */
  method DeletedLineageScenario() returns (ok: bool, stateCount: nat)
    ensures !ok && stateCount == 0
  {
    var db := new Database(Store([], [LineageRow(1, "lineage", Some(1))], []));
    ok := db.InsertState("path", "foo", StateFile("1.0.0", 3, "lineage", []));
    stateCount := |db.states|;
  }
}
