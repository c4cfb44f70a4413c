/**
 * Read-side queries over the index: fetch one state, list a lineage's
 * activity, enumerate known versions. None of them changes a table.
 */
module Queries {
  import opened Wrappers
  import opened Schema
  import opened Ingest

  // ---------------------------------------------------------------------------
  // GetState
  // ---------------------------------------------------------------------------

  /**
   * The state belongs to the live lineage `lineage` and was recorded under
   * version `versionId`; states of a soft-deleted lineage are never found.
   */
  predicate StateMatches(st: Store, s: StateRow, lineage: string, versionId: string) {
    LiveState(st, s) && LineageOf(st, s).value.value == lineage && VersionIdOf(st, s) == Some(versionId)
  }

  /** Position in `states` of the first row matching both keys. */
  function FirstMatch(st: Store, states: seq<StateRow>, lineage: string, versionId: string): (r: Option<nat>)
    ensures r.Some? ==> r.value < |states| && StateMatches(st, states[r.value], lineage, versionId)
    ensures r.Some? ==> forall j :: 0 <= j < r.value ==> !StateMatches(st, states[j], lineage, versionId)
    ensures r.None? ==> forall j :: 0 <= j < |states| ==> !StateMatches(st, states[j], lineage, versionId)
  {
    if states == [] then None
    else if StateMatches(st, states[0], lineage, versionId) then Some(0)
    else match FirstMatch(st, states[1..], lineage, versionId)
      case None => None
      case Some(i) => Some(i + 1)
  }

  /**
   * The state recorded for (lineage, versionId), with its module tree; the
   * first in id order when several match; None when none does.
   */
  function GetState(st: Store, lineage: string, versionId: string): (r: Option<StateRow>)
    ensures r.Some? ==> r.value in st.states && StateMatches(st, r.value, lineage, versionId)
    ensures r.None? <==> forall s :: s in st.states ==> !StateMatches(st, s, lineage, versionId)
  {
    match FirstMatch(st, st.states, lineage, versionId)
    case Some(i) => Some(st.states[i])
    case None => None
  }

  // ---------------------------------------------------------------------------
  // GetLineageActivity
  // ---------------------------------------------------------------------------

  /** One timeline entry: where the state was stored and under which version. */
  datatype Activity = Activity(path: string, versionId: string)

  /** The state belongs to the live lineage `lineage`. */
  predicate OfLineage(st: Store, s: StateRow, lineage: string) {
    LiveState(st, s) && LineageOf(st, s).value.value == lineage
  }

  /** A state's timeline entry; a state without a version shows the empty version id. */
  function ActivityOf(st: Store, s: StateRow): Activity {
    Activity(s.path, VersionIdOf(st, s).GetOr(""))
  }

  /** The entries of the states in `states` that belong to `lineage`, in order. */
  function ActivityIn(st: Store, states: seq<StateRow>, lineage: string): (r: seq<Activity>)
    ensures |r| <= |states|
    ensures forall a :: a in r <==> exists s :: s in states && OfLineage(st, s, lineage) && a == ActivityOf(st, s)
  {
    if states == [] then []
    else
      var rest := ActivityIn(st, states[1..], lineage);
      assert forall s :: s in states[1..] ==> s in states;
      assert forall s :: s in states ==> s == states[0] || s in states[1..];
      if OfLineage(st, states[0], lineage) then [ActivityOf(st, states[0])] + rest else rest
  }

  /** One {path, version id} entry per state of the lineage. */
  function GetLineageActivity(st: Store, lineage: string): (r: seq<Activity>)
    ensures |r| <= |st.states|
    ensures forall a :: a in r <==> exists s :: s in st.states && OfLineage(st, s, lineage) && a == ActivityOf(st, s)
  {
    ActivityIn(st, st.states, lineage)
  }

  lemma {:induction false} ActivityInAppend(st: Store, states: seq<StateRow>, s: StateRow, lineage: string)
    ensures ActivityIn(st, states + [s], lineage)
         == ActivityIn(st, states, lineage) + (if OfLineage(st, s, lineage) then [ActivityOf(st, s)] else [])
  {
    if states != [] {
      assert (states + [s])[1..] == states[1..] + [s];
      ActivityInAppend(st, states[1..], s, lineage);
    }
  }

  /** The state belongs to the live lineage `lineage` and its entry is `a`. */
  predicate HasEntry(st: Store, s: StateRow, lineage: string, a: Activity) {
    OfLineage(st, s, lineage) && ActivityOf(st, s) == a
  }

  /** Positions among the first `n` states of the states with entry `a` in `lineage`. */
  ghost function EntryPositions(st: Store, states: seq<StateRow>, lineage: string, a: Activity, n: nat): set<int>
    requires n <= |states|
  {
    set i | 0 <= i < n && HasEntry(st, states[i], lineage, a)
  }

  lemma EntryPositionsStep(st: Store, states: seq<StateRow>, lineage: string, a: Activity, n: nat)
    requires 0 < n <= |states|
    ensures |EntryPositions(st, states, lineage, a, n)| ==
      |EntryPositions(st, states, lineage, a, n - 1)| + (if HasEntry(st, states[n - 1], lineage, a) then 1 else 0)
  {
    var before := EntryPositions(st, states, lineage, a, n - 1);
    var after := EntryPositions(st, states, lineage, a, n);
    assert n - 1 !in before;
    var added: set<int> := if HasEntry(st, states[n - 1], lineage, a) then {n - 1} else {};
    forall i
      ensures i in after <==> i in before + added
    {
      if i == n - 1 {
        assert i in after <==> HasEntry(st, states[n - 1], lineage, a);
      }
    }
    assert after == before + added;
  }

  /**
   * One entry per state of the lineage: an entry occurs in the activity of
   * the first `n` states exactly as often as there are states among them of
   * that lineage with that entry.
   */
  lemma {:induction false} ActivityInCount(st: Store, states: seq<StateRow>, lineage: string, a: Activity, n: nat)
    requires n <= |states|
    ensures multiset(ActivityIn(st, states[..n], lineage))[a] == |EntryPositions(st, states, lineage, a, n)|
  {
    if n > 0 {
      ActivityInCount(st, states, lineage, a, n - 1);
      EntryPositionsStep(st, states, lineage, a, n);
      assert states[..n] == states[..n - 1] + [states[n - 1]];
      ActivityInAppend(st, states[..n - 1], states[n - 1], lineage);
    }
  }

  /**
   * The lineage's activity lists every entry as often as there are stored
   * states of the lineage with that entry: one entry per state.
   */
  lemma ActivityCount(st: Store, lineage: string, a: Activity)
    ensures multiset(GetLineageActivity(st, lineage))[a] ==
      |set i | 0 <= i < |st.states| && OfLineage(st, st.states[i], lineage) && ActivityOf(st, st.states[i]) == a|
  {
    ActivityInCount(st, st.states, lineage, a, |st.states|);
    assert st.states[..|st.states|] == st.states;
    assert EntryPositions(st, st.states, lineage, a, |st.states|) ==
      set i | 0 <= i < |st.states| && OfLineage(st, st.states[i], lineage) && ActivityOf(st, st.states[i]) == a;
  }

  /** Entries only depend on the lineage and version rows the states refer to. */
  lemma {:induction false} ActivityInGrownTables(st: Store, r: Store, states: seq<StateRow>, lineage: string)
    requires |st.lineages| <= |r.lineages| && r.lineages[..|st.lineages|] == st.lineages
    requires r.versions == st.versions
    requires forall s :: s in states ==> 1 <= s.lineageId <= |st.lineages|
    ensures ActivityIn(r, states, lineage) == ActivityIn(st, states, lineage)
  {
    if states != [] {
      assert r.lineages[states[0].lineageId - 1] == st.lineages[states[0].lineageId - 1];
      assert forall s :: s in states[1..] ==> s in states;
      ActivityInGrownTables(st, r, states[1..], lineage);
    }
  }

  /**
   * Ingesting a snapshot adds exactly one entry, at the end, to its own
   * lineage's activity, and leaves every other lineage's activity as it
   * was; a call that fails on a soft-deleted lineage changes nothing.
   */
  lemma ActivityAfterInsertState(st: Store, path: string, versionId: string, file: StateFile, lineage: string)
    requires WellFormed(st)
    ensures var r := WithState(st, path, versionId, file);
      GetLineageActivity(r, lineage) == GetLineageActivity(st, lineage) +
        (if lineage == file.lineage && !LineageConflict(st.lineages, file.lineage)
         then [Activity(path, if Known(st, versionId) then versionId else "")] else [])
  {
    if LineageConflict(st.lineages, file.lineage) {
      return;
    }
    var r := WithState(st, path, versionId, file);
    var s := r.states[|st.states|];
    assert r.states == st.states + [s];
    ActivityInAppend(r, st.states, s, lineage);
    forall t | t in st.states
      ensures 1 <= t.lineageId <= |st.lineages|
    {
      var i :| 0 <= i < |st.states| && st.states[i] == t;
      assert StateWellFormed(st, i);
    }
    ActivityInGrownTables(st, r, st.states, lineage);
  }

  // ---------------------------------------------------------------------------
  // KnownVersions
  // ---------------------------------------------------------------------------

  /** Every `version_id` in the versions table, in id order. */
  function KnownVersions(st: Store): (r: seq<string>)
    ensures |r| == |st.versions|
    ensures forall id :: id in r <==> Known(st, id)
    ensures VersionsWellFormed(st.versions) ==> forall i, j :: 0 <= i < j < |r| ==> r[i] != r[j]
  {
    var r := seq(|st.versions|, i requires 0 <= i < |st.versions| => st.versions[i].versionId);
    assert forall id :: Known(st, id) ==> id in r by {
      forall id | Known(st, id) ensures id in r {
        var i :| 0 <= i < |st.versions| && st.versions[i].versionId == id;
        assert r[i] == id;
      }
    }
    r
  }

  /**
   * After InsertVersion(v) the known versions are the earlier ones, plus
   * v.id at the end when it was new; v.id is listed exactly once.
   */
  lemma KnownVersionsAfterInsert(st: Store, v: Version)
    requires WellFormed(st)
    ensures var r := KnownVersions(WithVersion(st, v));
      r == KnownVersions(st) + (if Known(st, v.id) then [] else [v.id]) &&
      exists i :: 0 <= i < |r| && r[i] == v.id && forall j :: 0 <= j < |r| && r[j] == v.id ==> j == i
  {
    var after := WithVersion(st, v);
    var r := KnownVersions(after);
    assert Known(after, v.id) by {
      if !Known(st, v.id) {
        assert after.versions[|after.versions| - 1].versionId == v.id;
      }
    }
    var i :| 0 <= i < |r| && r[i] == v.id;
  }

  /** Registering "foo" into an empty index, once or twice, lists "foo" exactly once. */
  lemma KnownVersionsExample()
    ensures KnownVersions(WithVersion(EmptyStore, Version("foo", 0))) == ["foo"]
    ensures KnownVersions(WithVersion(WithVersion(EmptyStore, Version("foo", 0)), Version("foo", 0))) == ["foo"]
  {
    KnownVersionsAfterInsert(EmptyStore, Version("foo", 0));
    WithVersionIdempotent(EmptyStore, Version("foo", 0));
  }

  // ---------------------------------------------------------------------------
  // GetState after ingestion
  // ---------------------------------------------------------------------------

  /**
   * After ingesting a snapshot under a known version, fetching its lineage
   * and version gives the earliest matching state: the one already there
   * if any, otherwise the row just written. Under an unknown version the
   * new row has no version, and a call that fails on a soft-deleted lineage
   * writes nothing, so in those cases the answer does not change.
   */
  lemma GetStateAfterInsertState(st: Store, path: string, versionId: string, file: StateFile)
    requires WellFormed(st)
    ensures var r := WithState(st, path, versionId, file);
      var before := GetState(st, file.lineage, versionId);
      GetState(r, file.lineage, versionId) ==
        (if before.None? && Known(st, versionId) && !LineageConflict(st.lineages, file.lineage)
         then Some(r.states[|st.states|]) else before)
  {
    if LineageConflict(st.lineages, file.lineage) {
      return;
    }
    var r := WithState(st, path, versionId, file);
    var s := r.states[|st.states|];
    assert r.states == st.states + [s];
    forall i | 0 <= i < |st.states|
      ensures StateMatches(r, st.states[i], file.lineage, versionId) == StateMatches(st, st.states[i], file.lineage, versionId)
    {
      assert StateWellFormed(st, i);
      assert r.lineages[st.states[i].lineageId - 1] == st.lineages[st.states[i].lineageId - 1];
    }
    FirstMatchAppend(r, st.states, s, file.lineage, versionId);
    FirstMatchSameTables(st, r, st.states, file.lineage, versionId);
  }

  lemma {:induction false} FirstMatchAppend(st: Store, states: seq<StateRow>, s: StateRow, lineage: string, versionId: string)
    ensures FirstMatch(st, states + [s], lineage, versionId) ==
      match FirstMatch(st, states, lineage, versionId)
      case Some(i) => Some(i)
      case None => if StateMatches(st, s, lineage, versionId) then Some(|states|) else None
  {
    if states != [] {
      assert (states + [s])[1..] == states[1..] + [s];
      FirstMatchAppend(st, states[1..], s, lineage, versionId);
    }
  }

  lemma {:induction false} FirstMatchSameTables(st: Store, r: Store, states: seq<StateRow>, lineage: string, versionId: string)
    requires forall i :: 0 <= i < |states| ==>
      StateMatches(r, states[i], lineage, versionId) == StateMatches(st, states[i], lineage, versionId)
    ensures FirstMatch(r, states, lineage, versionId) == FirstMatch(st, states, lineage, versionId)
  {
    if states != [] {
      FirstMatchSameTables(st, r, states[1..], lineage, versionId);
    }
  }

  /**
   * The read-side cases the tests pin down: a state with id 1 at "path"
   * under lineage "lineage" and version "foo" is what GetState returns, and
   * it is the lineage's one activity entry.
   */
  lemma ReadExamples()
    ensures var st := Store([VersionRow(1, "foo", 0)], [LineageRow(1, "lineage", None)],
                            [StateRow(1, "path", Some(1), "1.0.0", 2, 1, [])]);
      GetState(st, "lineage", "foo") == Some(st.states[0]) &&
      GetState(st, "lineage", "foo").value.id == 1 &&
      GetState(st, "lineage", "foo").value.path == "path" &&
      GetLineageActivity(st, "lineage") == [Activity("path", "foo")]
  {
    var st := Store([VersionRow(1, "foo", 0)], [LineageRow(1, "lineage", None)],
                    [StateRow(1, "path", Some(1), "1.0.0", 2, 1, [])]);
    assert StateMatches(st, st.states[0], "lineage", "foo");
    assert st.states[1..] == [];
  }

  /** After the tested ingestion into an empty index, the lineage's activity is that one state, without a version. */
  lemma InsertStateActivityExample()
    ensures GetLineageActivity(WithState(EmptyStore, "path", "foo", StateFile("1.0.0", 2, "lineage", [])), "lineage")
         == [Activity("path", "")]
  {
    InsertStateExample();
    var st := Store([], [LineageRow(1, "lineage", None)], [StateRow(1, "path", None, "1.0.0", 2, 1, [])]);
    assert OfLineage(st, st.states[0], "lineage");
    assert st.states[1..] == [];
  }
}
