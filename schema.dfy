/**
 * The relational index the engine writes and queries, as in-memory tables,
 * and the decoded state file it ingests.
 *
 * Tables: versions, lineages and states, each row carrying the
 * auto-increment id its position gives it. The module / resource /
 * instance / attribute rows written with a state are kept nested in that
 * state's row, since they are written once with it and never on their own.
 */
module Schema {
  import opened Wrappers
  import opened ResourceIndex
  import opened Attributes

  // ---------------------------------------------------------------------------
  // Input: what the backends and the state-file decoder hand over
  // ---------------------------------------------------------------------------

  /** A version as a backend reports it; `lastModified` is a timestamp, 0 for Go's zero time. */
  datatype Version = Version(id: string, lastModified: int)

  datatype Mode = Managed | Data

  datatype InstanceSrc = InstanceSrc(key: InstanceKey, current: Option<ObjectSrc>)

  datatype ResourceSrc = ResourceSrc(mode: Mode, resourceType: string, name: string, instances: seq<InstanceSrc>)

  /** One module of a decoded state; `address` is the module address as text ("" for the root module). */
  datatype ModuleSrc = ModuleSrc(address: string, resources: seq<ResourceSrc>)

  /**
   * A decoded state file. `terraformVersion` is the version text as the
   * semantic-version library prints it ("1.0.0" for v1.0.0).
   */
  datatype StateFile = StateFile(terraformVersion: string, serial: nat, lineage: string, modules: seq<ModuleSrc>)

  // ---------------------------------------------------------------------------
  // Rows
  // ---------------------------------------------------------------------------

  datatype Instance = Instance(index: string, attributes: seq<Attribute>)

  datatype Resource = Resource(mode: Mode, resourceType: string, name: string, instances: seq<Instance>)

  datatype Module = Module(path: string, resources: seq<Resource>)

  datatype VersionRow = VersionRow(id: nat, versionId: string, lastModified: int)

  /** A lineage row; `deletedAt` is the soft-delete tombstone, None while the row is live. */
  datatype LineageRow = LineageRow(id: nat, value: string, deletedAt: Option<int>)

  /** A state row; `versionRef` is the id of its version row, None (NULL) when there is none. */
  datatype StateRow = StateRow(
    id: nat,
    path: string,
    versionRef: Option<nat>,
    tfVersion: string,
    serial: nat,
    lineageId: nat,
    modules: seq<Module>)

  datatype Store = Store(versions: seq<VersionRow>, lineages: seq<LineageRow>, states: seq<StateRow>)

  const EmptyStore := Store([], [], [])

  // ---------------------------------------------------------------------------
  // Table invariants
  // ---------------------------------------------------------------------------

  /** Ids are 1, 2, 3, ... in insertion order and `version_id` is unique. */
  predicate VersionsWellFormed(versions: seq<VersionRow>) {
    (forall i :: 0 <= i < |versions| ==> versions[i].id == i + 1) &&
    (forall i, j :: 0 <= i < j < |versions| ==> versions[i].versionId != versions[j].versionId)
  }

  /**
   * Ids are 1, 2, 3, ... in insertion order and `value` is unique over all
   * rows, soft-deleted ones included (the storage's uniqueness constraint).
   */
  predicate LineagesWellFormed(lineages: seq<LineageRow>) {
    (forall i :: 0 <= i < |lineages| ==> lineages[i].id == i + 1) &&
    (forall i, j :: 0 <= i < j < |lineages| ==> lineages[i].value != lineages[j].value)
  }

  /** The row at position `i` has id i + 1 and its references name existing rows. */
  predicate StateWellFormed(st: Store, i: nat)
    requires i < |st.states|
  {
    var s := st.states[i];
    s.id == i + 1 &&
    1 <= s.lineageId <= |st.lineages| &&
    (s.versionRef.Some? ==> 1 <= s.versionRef.value <= |st.versions|)
  }

  predicate WellFormed(st: Store) {
    VersionsWellFormed(st.versions) &&
    LineagesWellFormed(st.lineages) &&
    forall i :: 0 <= i < |st.states| ==> StateWellFormed(st, i)
  }

  // ---------------------------------------------------------------------------
  // Following references
  // ---------------------------------------------------------------------------

  /** The lineage row a state refers to. */
  function LineageOf(st: Store, s: StateRow): Option<LineageRow> {
    if 1 <= s.lineageId <= |st.lineages| then Some(st.lineages[s.lineageId - 1]) else None
  }

  /** The `version_id` text of the version a state refers to; None for a NULL reference. */
  function VersionIdOf(st: Store, s: StateRow): Option<string> {
    match s.versionRef
    case Some(v) => if 1 <= v <= |st.versions| then Some(st.versions[v - 1].versionId) else None
    case None => None
  }

  /** Some version row has this `version_id`. */
  predicate Known(st: Store, versionId: string) {
    exists i :: 0 <= i < |st.versions| && st.versions[i].versionId == versionId
  }

  /** Some live lineage row has this value. */
  predicate HasLiveLineage(st: Store, value: string) {
    exists i :: 0 <= i < |st.lineages| && st.lineages[i].value == value && st.lineages[i].deletedAt.None?
  }

  /**
   * The value belongs to a soft-deleted row and to no live one: the lookup
   * skips that row, and creating a live one would break the uniqueness of
   * lineage values.
   */
  predicate LineageConflict(lineages: seq<LineageRow>, value: string) {
    (exists i :: 0 <= i < |lineages| && lineages[i].value == value) &&
    !(exists i :: 0 <= i < |lineages| && lineages[i].value == value && lineages[i].deletedAt.None?)
  }

  /** The state's lineage row exists and is not soft-deleted; reads only see such states. */
  predicate LiveState(st: Store, s: StateRow) {
    LineageOf(st, s).Some? && LineageOf(st, s).value.deletedAt.None?
  }

  // ---------------------------------------------------------------------------
  // The module tree written with a state
  // ---------------------------------------------------------------------------

  function InstanceRow(src: InstanceSrc): Instance {
    Instance(GetResourceIndex(src.key), MarshalAttributeValues(src.current))
  }

  function ResourceRow(src: ResourceSrc): Resource {
    Resource(src.mode, src.resourceType, src.name,
      seq(|src.instances|, i requires 0 <= i < |src.instances| => InstanceRow(src.instances[i])))
  }

  function ModuleRow(src: ModuleSrc): Module {
    Module(src.address, seq(|src.resources|, i requires 0 <= i < |src.resources| => ResourceRow(src.resources[i])))
  }

  function ModuleRows(mods: seq<ModuleSrc>): seq<Module> {
    seq(|mods|, i requires 0 <= i < |mods| => ModuleRow(mods[i]))
  }

  /**
   * The rows written for a decoded module tree keep its shape at every
   * level, empty modules and resources included: one module row per
   * module with its address, one resource row per resource with its mode,
   * type and name, one instance row per instance.
   */
  lemma ModuleRowsShape(mods: seq<ModuleSrc>)
    ensures var rows := ModuleRows(mods);
      |rows| == |mods| &&
      forall m :: 0 <= m < |mods| ==>
        rows[m].path == mods[m].address && |rows[m].resources| == |mods[m].resources| &&
        forall r :: 0 <= r < |mods[m].resources| ==>
          rows[m].resources[r].mode == mods[m].resources[r].mode &&
          rows[m].resources[r].resourceType == mods[m].resources[r].resourceType &&
          rows[m].resources[r].name == mods[m].resources[r].name &&
          |rows[m].resources[r].instances| == |mods[m].resources[r].instances|
  {
  }

  /**
   * Each instance row of the tree written with a state holds the instance's
   * rendered index, which reads back as its addressing key, and the
   * flattened attributes of its current object, whose keys are distinct.
   */
  lemma ModuleRowsFaithful(mods: seq<ModuleSrc>, m: nat, r: nat, i: nat)
    requires m < |mods| && r < |mods[m].resources| && i < |mods[m].resources[r].instances|
    ensures var rows := ModuleRows(mods);
      |rows| == |mods| &&
      rows[m].path == mods[m].address &&
      |rows[m].resources| == |mods[m].resources| &&
      rows[m].resources[r].resourceType == mods[m].resources[r].resourceType &&
      rows[m].resources[r].name == mods[m].resources[r].name &&
      rows[m].resources[r].mode == mods[m].resources[r].mode &&
      |rows[m].resources[r].instances| == |mods[m].resources[r].instances| &&
      rows[m].resources[r].instances[i].index == GetResourceIndex(mods[m].resources[r].instances[i].key) &&
      ParseResourceIndex(rows[m].resources[r].instances[i].index) == Some(mods[m].resources[r].instances[i].key) &&
      rows[m].resources[r].instances[i].attributes == MarshalAttributeValues(mods[m].resources[r].instances[i].current) &&
      DistinctKeys(rows[m].resources[r].instances[i].attributes)
  {
    ResourceIndexRoundTrip(mods[m].resources[r].instances[i].key);
  }
}
