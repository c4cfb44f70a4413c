/**
 * Ingestion: recording a backend version and recording a decoded state
 * snapshot. Versions and lineages are found or created; a state row is
 * always appended and never overwritten.
 */
module Ingest {
  import opened Wrappers
  import opened Schema

  /**
   * Position of the first version row with this `version_id`, as
   * `SELECT * FROM versions WHERE version_id = ? ORDER BY id LIMIT 1`.
   */
  function FindVersion(versions: seq<VersionRow>, versionId: string): (r: Option<nat>)
    ensures r.Some? ==> r.value < |versions| && versions[r.value].versionId == versionId
    ensures r.Some? ==> forall j :: 0 <= j < r.value ==> versions[j].versionId != versionId
    ensures r.None? ==> forall j :: 0 <= j < |versions| ==> versions[j].versionId != versionId
  {
    if versions == [] then None
    else if versions[0].versionId == versionId then Some(0)
    else match FindVersion(versions[1..], versionId)
      case None => None
      case Some(i) => Some(i + 1)
  }

  /**
   * Position of the first live lineage row with this value; soft-deleted
   * rows are skipped, as `... WHERE value = ? AND deleted_at IS NULL ORDER BY id LIMIT 1`.
   */
  function FindLiveLineage(lineages: seq<LineageRow>, value: string): (r: Option<nat>)
    ensures r.Some? ==> r.value < |lineages| && lineages[r.value].value == value && lineages[r.value].deletedAt.None?
    ensures r.Some? ==> forall j :: 0 <= j < r.value ==> !(lineages[j].value == value && lineages[j].deletedAt.None?)
    ensures r.None? ==> forall j :: 0 <= j < |lineages| ==> !(lineages[j].value == value && lineages[j].deletedAt.None?)
  {
    if lineages == [] then None
    else if lineages[0].value == value && lineages[0].deletedAt.None? then Some(0)
    else match FindLiveLineage(lineages[1..], value)
      case None => None
      case Some(i) => Some(i + 1)
  }

  /**
   * The store after InsertVersion(v): a row (v.id, v.lastModified) is
   * appended when no row has that `version_id`; otherwise nothing changes.
   */
  function WithVersion(st: Store, v: Version): (r: Store)
    requires WellFormed(st)
    ensures WellFormed(r)
    ensures r.lineages == st.lineages && r.states == st.states
    ensures Known(st, v.id) ==> r.versions == st.versions
    ensures !Known(st, v.id) ==> r.versions == st.versions + [VersionRow(|st.versions| + 1, v.id, v.lastModified)]
  {
    match FindVersion(st.versions, v.id)
    case Some(_) => st
    case None =>
      var r := st.(versions := st.versions + [VersionRow(|st.versions| + 1, v.id, v.lastModified)]);
      assert forall i :: 0 <= i < |r.states| ==> StateWellFormed(st, i) ==> StateWellFormed(r, i);
      r
  }

  /**
   * Position of the first lineage row with this value, soft-deleted or not:
   * the row the uniqueness of lineage values would clash with.
   */
  function FindLineage(lineages: seq<LineageRow>, value: string): (r: Option<nat>)
    ensures r.Some? ==> r.value < |lineages| && lineages[r.value].value == value
    ensures r.Some? ==> forall j :: 0 <= j < r.value ==> lineages[j].value != value
    ensures r.None? ==> forall j :: 0 <= j < |lineages| ==> lineages[j].value != value
  {
    if lineages == [] then None
    else if lineages[0].value == value then Some(0)
    else match FindLineage(lineages[1..], value)
      case None => None
      case Some(i) => Some(i + 1)
  }

  /**
   * The lineages table once `value` is sure to have a live row: unchanged
   * when one exists, otherwise with a new live row appended.
   */
  function WithLiveLineage(lineages: seq<LineageRow>, value: string): (r: seq<LineageRow>)
    requires LineagesWellFormed(lineages) && !LineageConflict(lineages, value)
    ensures LineagesWellFormed(r)
    ensures |r| == |lineages| + (if exists i :: 0 <= i < |lineages| && lineages[i].value == value then 0 else 1)
    ensures r[..|lineages|] == lineages
  {
    match FindLiveLineage(lineages, value)
    case Some(_) => lineages
    case None => lineages + [LineageRow(|lineages| + 1, value, None)]
  }

  /** The lineage id a new state of `value` gets: the first live row's, or the next free id. */
  function LineageIdFor(lineages: seq<LineageRow>, value: string): (id: nat)
    requires LineagesWellFormed(lineages) && !LineageConflict(lineages, value)
    ensures var r := WithLiveLineage(lineages, value);
      1 <= id <= |r| && r[id - 1].value == value && r[id - 1].deletedAt.None?
  {
    match FindLiveLineage(lineages, value)
    case Some(i) => lineages[i].id
    case None => |lineages| + 1
  }

  /** The version reference a new state gets: the row with that `version_id`, or NULL. */
  function VersionRefFor(versions: seq<VersionRow>, versionId: string): (r: Option<nat>)
    requires VersionsWellFormed(versions)
    ensures r.Some? <==> exists i :: 0 <= i < |versions| && versions[i].versionId == versionId
    ensures r.Some? ==> 1 <= r.value <= |versions| && versions[r.value - 1].versionId == versionId
  {
    match FindVersion(versions, versionId)
    case Some(i) => Some(versions[i].id)
    case None => None
  }

  /**
   * The store after InsertState(path, versionId, file). The version is only
   * looked up, never created; the lineage is found among live rows or
   * created; a new state row is then appended, carrying the path, the
   * Terraform version text, the serial and the module tree. When the only
   * row with the lineage value is soft-deleted, creating the lineage
   * violates the uniqueness of lineage values: the call fails and nothing
   * is written.
   */
  function WithState(st: Store, path: string, versionId: string, file: StateFile): (r: Store)
    requires WellFormed(st)
    ensures WellFormed(r)
    ensures LineageConflict(st.lineages, file.lineage) ==> r == st
    ensures !LineageConflict(st.lineages, file.lineage) ==>
      r.versions == st.versions &&
      |r.lineages| == |st.lineages| + (if HasLiveLineage(st, file.lineage) then 0 else 1) &&
      r.lineages[..|st.lineages|] == st.lineages &&
      |r.states| == |st.states| + 1 && r.states[..|st.states|] == st.states
    ensures !LineageConflict(st.lineages, file.lineage) ==>
      var s := r.states[|st.states|];
      s.path == path && s.tfVersion == file.terraformVersion && s.serial == file.serial &&
      s.modules == ModuleRows(file.modules) &&
      LineageOf(r, s).Some? && LineageOf(r, s).value.value == file.lineage && LineageOf(r, s).value.deletedAt.None? &&
      VersionIdOf(r, s) == (if Known(st, versionId) then Some(versionId) else None)
  {
    if FindLiveLineage(st.lineages, file.lineage).None? && FindLineage(st.lineages, file.lineage).Some? then
      st
    else
      WithNewState(st, path, versionId, file)
  }

  /** The successful case of WithState: the lineage row is in place and the state row appended. */
  function WithNewState(st: Store, path: string, versionId: string, file: StateFile): (r: Store)
    requires WellFormed(st) && !LineageConflict(st.lineages, file.lineage)
    ensures WellFormed(r)
    ensures r.versions == st.versions
    ensures |r.lineages| == |st.lineages| + (if HasLiveLineage(st, file.lineage) then 0 else 1)
    ensures r.lineages[..|st.lineages|] == st.lineages
    ensures |r.states| == |st.states| + 1 && r.states[..|st.states|] == st.states
    ensures var s := r.states[|st.states|];
      s.path == path && s.tfVersion == file.terraformVersion && s.serial == file.serial &&
      s.modules == ModuleRows(file.modules) &&
      LineageOf(r, s).Some? && LineageOf(r, s).value.value == file.lineage && LineageOf(r, s).value.deletedAt.None? &&
      VersionIdOf(r, s) == (if Known(st, versionId) then Some(versionId) else None)
  {
    var lineages := WithLiveLineage(st.lineages, file.lineage);
    var s := StateRow(|st.states| + 1, path, VersionRefFor(st.versions, versionId), file.terraformVersion, file.serial,
                      LineageIdFor(st.lineages, file.lineage), ModuleRows(file.modules));
    AppendedStateWellFormed(st, lineages, s);
    Store(st.versions, lineages, st.states + [s])
  }

  /** Appending a state row whose references resolve, over a grown lineage table, keeps a store well formed. */
  lemma AppendedStateWellFormed(st: Store, lineages: seq<LineageRow>, s: StateRow)
    requires WellFormed(st) && LineagesWellFormed(lineages) && |st.lineages| <= |lineages|
    requires s.id == |st.states| + 1 && 1 <= s.lineageId <= |lineages|
    requires s.versionRef.Some? ==> 1 <= s.versionRef.value <= |st.versions|
    ensures WellFormed(Store(st.versions, lineages, st.states + [s]))
  {
    var r := Store(st.versions, lineages, st.states + [s]);
    assert forall i :: 0 <= i < |st.states| ==> StateWellFormed(st, i) ==> StateWellFormed(r, i);
    assert StateWellFormed(r, |st.states|);
  }

  // ---------------------------------------------------------------------------
  // Properties of ingestion
  // ---------------------------------------------------------------------------

  /** Registering the same version twice has the effect of registering it once. */
  lemma WithVersionIdempotent(st: Store, v: Version)
    requires WellFormed(st)
    ensures WithVersion(WithVersion(st, v), v) == WithVersion(st, v)
  {
    var once := WithVersion(st, v);
    if !Known(st, v.id) {
      assert once.versions[|once.versions| - 1].versionId == v.id;
    }
    assert Known(once, v.id);
  }

  /**
   * Ingesting two snapshots of one lineage creates at most one lineage row
   * (none when a live one already exists), and always two distinct state
   * rows that refer to the same lineage row, unless the value belongs only
   * to a soft-deleted row (then both calls fail, by DeletedLineageNotReused).
   */
  lemma SameLineageReused(st: Store, path1: string, versionId1: string, file1: StateFile,
                          path2: string, versionId2: string, file2: StateFile)
    requires WellFormed(st) && file1.lineage == file2.lineage && !LineageConflict(st.lineages, file1.lineage)
    ensures var mid := WithState(st, path1, versionId1, file1);
      var r := WithState(mid, path2, versionId2, file2);
      |r.lineages| == |mid.lineages| &&
      |r.lineages| <= |st.lineages| + 1 &&
      |r.states| == |st.states| + 2 &&
      r.states[|st.states|].id != r.states[|st.states| + 1].id &&
      r.states[|st.states|].lineageId == r.states[|st.states| + 1].lineageId
  {
    var mid := WithState(st, path1, versionId1, file1);
    var s := mid.states[|st.states|];
    assert mid.lineages[s.lineageId - 1].value == file1.lineage;
    assert HasLiveLineage(mid, file2.lineage);
    assert !LineageConflict(mid.lineages, file2.lineage);
    var r := WithState(mid, path2, versionId2, file2);
    var k :| 0 <= k < |mid.lineages| && mid.lineages[k].value == file2.lineage && mid.lineages[k].deletedAt.None?;
    assert s.lineageId - 1 == k;
    assert r.states[|st.states|] == s;
  }

  /**
   * A soft-deleted lineage is never reused, and no second row with its
   * value can be created: ingesting a snapshot of it fails and writes nothing.
   */
  lemma DeletedLineageNotReused(st: Store, path: string, versionId: string, file: StateFile)
    requires WellFormed(st)
    requires exists i :: 0 <= i < |st.lineages| && st.lineages[i].value == file.lineage
    requires forall i :: 0 <= i < |st.lineages| && st.lineages[i].value == file.lineage ==> st.lineages[i].deletedAt.Some?
    ensures WithState(st, path, versionId, file) == st
  {
    assert LineageConflict(st.lineages, file.lineage);
  }

  /** A lineage value never seen before gets a new live row, which the new state refers to. */
  lemma NewLineageCreated(st: Store, path: string, versionId: string, file: StateFile)
    requires WellFormed(st)
    requires forall i :: 0 <= i < |st.lineages| ==> st.lineages[i].value != file.lineage
    ensures var r := WithState(st, path, versionId, file);
      |r.lineages| == |st.lineages| + 1 &&
      r.lineages[|st.lineages|] == LineageRow(|st.lineages| + 1, file.lineage, None) &&
      r.states[|st.states|].lineageId == |r.lineages|
  {
    assert !LineageConflict(st.lineages, file.lineage);
    assert !HasLiveLineage(st, file.lineage);
  }

  /**
   * The ingestion the state tests pin down: into an empty index, version
   * "foo" unknown, lineage "lineage", Terraform 1.0.0, serial 2, no modules.
   * One lineage row (id 1) and one state row referring to it, with a NULL
   * version, are written; no version row is.
   */
  lemma InsertStateExample()
    ensures WithState(EmptyStore, "path", "foo", StateFile("1.0.0", 2, "lineage", []))
         == Store([], [LineageRow(1, "lineage", None)], [StateRow(1, "path", None, "1.0.0", 2, 1, [])])
  {
    assert ModuleRows([]) == [];
  }
}
