# Terraboard state index, modelled in Dafny

Terraboard collects Terraform remote-state snapshots from several backends
and keeps an index of them: which backend versions were seen, which
lineages (the lifelines of one state across re-creations) exist, and
every ingested state with its modules, resources, instances and
attributes. A web UI then queries that index.

This project models the `db` package, the part that builds and queries the
index. It has three parts.

- **Resource index formatter** (`resource_index.dfy`). It renders an
  instance's addressing key as the suffix of its address: `""` for a
  singleton, `[n]` for a `count` index and `["s"]` for a `for_each` key.
  The model proves that the key can always be read back from the suffix,
  so no two keys share a suffix.
- **Attribute flattener** (`attributes.dfy`, with the JSON encoder in
  `json.dfy` and text helpers in `text.dfy`). It turns an instance object
  into `{Key, Value}` pairs, one per top-level attribute. Each value is the
  compact JSON text of that attribute. A nil object gives nothing. So does
  a JSON document that is not an object. A non-empty legacy flat map takes
  precedence over the JSON document, and its values are written as JSON
  strings.
- **Index store** (`schema.dfy`, `ingest.dfy`, `queries.dfy`, `search.dfy`,
  `database.dfy`). The versions, lineages and states tables are in-memory
  sequences. Each row's id is its position plus one. A `version_id` is
  unique, and so is a lineage value, soft-deleted rows included.
  - `InsertVersion` finds or creates a version by `version_id`.
  - `InsertState` looks the version up but never creates it: the test
    expects no version insert and a NULL version reference on the new state
    (`db/db_test.go:130-156`). It finds the live lineage, skipping
    soft-deleted rows (`db/db_test.go:139-144`), or creates one. The lineage
    row is written with its value alone, with no link to a version
    (`db/db_test.go:146-150`). It then appends a new state row. When the
    only row with the lineage value is soft-deleted, creating the lineage
    would break the uniqueness of lineage values: the call fails and writes
    nothing.
  - `GetState`, `GetLineageActivity`, `KnownVersions` and `SearchAttribute`
    read the tables and change nothing. States whose lineage is
    soft-deleted are invisible to them. The read queries' own filters are
    not shown in the tests; the model applies to them the `deleted_at IS
    NULL` condition of the lineage lookup (`db/db_test.go:139-144`).
  - `SearchAttribute` joins each attribute up to its state and that
    state's version row, so a state with no version takes no part in it.
    It filters on type, name, attribute key and attribute
    value. It returns one page of at most 20 rows, the page number (1 when
    none is given) and the count of all matches.

The pure functions in `Ingest`, `Queries` and `Search` define each
operation on a value of all three tables (`Schema.Store`). The class
`Db.Database` holds the tables as fields. Its methods update those fields
step by step, and each method's contract ties the result to the matching
function.

The version record passed to `InsertVersion` is `Version{ID, LastModified}`
from `state/state.go:29-32`.

Legacy flat-map values come out JSON-quoted: `"bar"` is stored as the
five-character text `"bar"` with its quotes, as the test expects
(`db/db_test.go:88-102`).

## Model

| member | source | states |
|---|---|---|
| `ResourceIndex.GetResourceIndex` | db/db_test.go:23-53 | The suffix is empty exactly for the no-key case; otherwise it is bracketed; it starts `["` exactly for string keys |
| `ResourceIndex.ResourceIndexRoundTrip` | db/db_test.go:29-38 | The instance key is recovered from its rendered suffix, for every key variant |
| `ResourceIndex.ResourceIndexInjective` | db/db_test.go:29-38 | Distinct keys, of the same or different variants, never render to the same suffix |
| `ResourceIndex.StringKeyIndex` | db/db_test.go:30-32 | A string key free of `"` and `\` renders as `["` + s + `"]` |
| `ResourceIndex.ResourceIndexExamples` | db/db_test.go:29-32 | `StringKey("module.bar")` renders as `["module.bar"]` |
| `Json.Serialize` | db/db_test.go:72-77 | A JSON string's text is the string quoted and escaped; objects and arrays and only they start with `{` and `[` |
| `Attributes.AttributesOf` | db/db_test.go:67-78 | One attribute per field, distinct keys, key set equal to the field set, each value the JSON text of its field |
| `Attributes.MarshalAttributeValues` | db/db_test.go:61-65 | A nil object gives no attributes; attribute keys are always distinct |
| `Attributes.NonObjectHasNoAttributes` | db/db_test.go:79-86 | With no flat map, a document that is not a JSON object (or not JSON) gives no attributes, and no failure |
| `Attributes.ObjectFieldsBecomeAttributes` | db/db_test.go:66-78 | With no flat map, a JSON object gives exactly one attribute per top-level field, valued with that field's JSON text |
| `Attributes.FlatMapTakesPrecedence` | db/db_test.go:87-102 | A non-empty flat map decides the attributes whatever the JSON says: its keys, each value JSON-quoted |
| `Attributes.FlatAttributes` | db/db_test.go:87-102 | Flat-map entries become attributes with the same keys, each value the entry quoted as a JSON string |
| `Attributes.SingleField` | db/db_test.go:67-78 | A single-field source gives exactly that one attribute |
| `Attributes.MarshalAttributeValuesExamples` | db/db_test.go:61-102 | The four tested inputs: nil gives nothing, `{"ami":"bar"}` gives `ami` = `"bar"`, scalar `"bar"` gives nothing, flat `ami`=`bar` plus JSON gives `ami` = `"bar"` |
| `Schema.ModuleRowsFaithful` | db/db_test.go:163-168 | Each stored instance row holds the instance's rendered index, which reads back as its key, and exactly the flattened attributes of its current object, with distinct keys; its module and resource keep path, type, name and mode |
| `Schema.ModuleRowsShape` | db/db_test.go:163-168 | The stored module tree has one module row per module, one resource row per resource and one instance row per instance, at every level, empty ones included |
| `Ingest.FindVersion` | db/db_test.go:130-137 | Finds the first version row with that `version_id`, or reports that none has it |
| `Ingest.FindLiveLineage` | db/db_test.go:139-144 | Finds the first lineage row with that value and no tombstone, or reports that none exists |
| `Ingest.FindLineage` | db/db_test.go:146-150 | Finds the first lineage row with that value, soft-deleted or not, or reports that none has it |
| `Ingest.VersionRefFor` | db/db_test.go:130-137 | A new state refers to a version row exactly when one has the `version_id`, and then to that row |
| `Ingest.WithLiveLineage` | db/db_test.go:139-150 | Unless only a soft-deleted row has the value, the lineages table keeps its rows and gains one exactly when no row has the value; lineage values stay unique |
| `Ingest.LineageIdFor` | db/db_test.go:139-149 | The lineage a new state refers to is a live row with the state's lineage value |
| `Ingest.WithVersion` | db/db_test.go:244-256 | Appends `(id, LastModified)` exactly when the `version_id` is unknown; keeps the tables well formed; leaves lineages and states alone |
| `Ingest.WithState` | db/db_test.go:130-156 | When only a soft-deleted row has the lineage value, nothing changes; otherwise versions unchanged, one lineage row added exactly when no live one has the value, and one state row appended with the path, Terraform version, serial, module tree, a live lineage of that value, and the version only if known; the tables stay well formed |
| `Ingest.WithVersionIdempotent` | db/db_test.go:244-256 | Inserting a version twice has the effect of inserting it once |
| `Ingest.SameLineageReused` | db/db_test.go:139-156 | Two snapshots of one lineage whose value is not held only by a soft-deleted row add at most one lineage row and two distinct state rows referring to the same lineage |
| `Ingest.DeletedLineageNotReused` | db/db_test.go:139-150 | When every row with the value is soft-deleted, the lookup finds none, the lineage cannot be created again, and ingestion writes nothing |
| `Ingest.NewLineageCreated` | db/db_test.go:146-156 | A value no row has gets a new live row with the next id and no version link, and the new state refers to it |
| `Ingest.InsertStateExample` | db/db_test.go:130-169 | The tested ingestion into an empty index: lineage row 1 with value `lineage`, state row 1 at `path` with version NULL, `1.0.0`, serial 2, lineage 1; no version row |
| `Queries.FirstMatch` | db/db_test.go:186-188 | The first state whose lineage and version both match, or none does |
| `Queries.GetState` | db/db_test.go:186-200 | The returned state is stored, its lineage is live and matches, and its version matches; none is returned exactly when no stored state matches |
| `Queries.GetLineageActivity` | db/db_test.go:217-228 | An entry is listed exactly when it is the `{path, version id}` of a stored state of that live lineage |
| `Queries.ActivityCount` | db/db_test.go:217-228 | One entry per state: each entry occurs as often as there are stored states of the live lineage with that path and version |
| `Queries.ActivityInCount` | db/db_test.go:217-228 | The same count over the first n states, by induction on n |
| `Queries.ActivityAfterInsertState` | db/db_test.go:217-228 | A successful ingestion adds exactly one entry, at the end, to its own lineage's activity and changes no other lineage's; a failed one changes nothing |
| `Queries.GetStateAfterInsertState` | db/db_test.go:186-200 | After a successful ingestion under a known version, GetState gives the earlier match if any, else the new state; under an unknown version, or when the ingestion fails, its answer is unchanged |
| `Queries.ReadExamples` | db/db_test.go:186-228 | The tested reads: GetState gives state 1 at `path`; the lineage's activity is `[{path, foo}]` |
| `Queries.KnownVersions` | db/db_test.go:294-308 | A version id is listed exactly when some row has it, one entry per row, with no duplicates in a well-formed table |
| `Queries.KnownVersionsAfterInsert` | db/db_test.go:301-308 | After InsertVersion(v) the list is the old one plus v's id when new, and v's id appears exactly once |
| `Queries.KnownVersionsExample` | db/db_test.go:301-308 | Inserting `foo` into an empty index, once or twice, gives exactly `["foo"]` |
| `Search.JoinedIsStored` | db/db_test.go:329-331 | The join lists exactly the attributes stored under states that have a version and a live lineage, with their instance, resource, module, state and version |
| `Search.Filter` | db/db_test.go:329-331 | A row is kept exactly when it is a row of the input that passes every given filter |
| `Search.FilterMultiset` | db/db_test.go:327-328 | Filtering keeps each matching row as often as it occurs and drops every other |
| `Search.FilterCountOrderIndependent` | db/db_test.go:327-328 | The match count does not depend on the order of the joined rows |
| `Search.Window` | db/db_test.go:329-330 | A page holds at most 20 rows, those from offset (page-1)*20 |
| `Search.SearchAttribute` | db/db_test.go:327-350 | Page number defaults to 1; total is the number of all matches; the results are that page's window of the matches, at most min(total, 20), each stored under a state with a version and a live lineage, and passing the filters |
| `Search.PagesCoverMatches` | db/db_test.go:327-331 | Pages 1 to ceil(total/20), one after the other, are exactly the matching rows |
| `Search.SearchExample` | db/db_test.go:337-350 | The tested search gives one result at `path`, version `foo`, Terraform `1.0.0`, page 1, total 1 |
| `Db.Database.constructor` | db/db_test.go:158-160 | A handle on existing well-formed tables |
| `Db.Database.InsertVersion` | db/db_test.go:244-266 | Keeps the tables well formed and leaves them as `WithVersion` of the old ones |
| `Db.Database.InsertState` | db/db_test.go:130-169 | Succeeds exactly when the lineage value is not held only by a soft-deleted row; keeps the tables well formed and leaves them as `WithState` of the old ones |
| `Db.Database.GetState` | db/db_test.go:186-200 | Returns a stored state matching both keys, as `Queries.GetState` |
| `Db.Database.GetLineageActivity` | db/db_test.go:217-228 | Returns the lineage's activity, as `Queries.GetLineageActivity` |
| `Db.Database.KnownVersions` | db/db_test.go:294-308 | Lists exactly the known version ids, as `Queries.KnownVersions` |
| `Db.Database.SearchAttribute` | db/db_test.go:327-350 | Returns page, page number and total, as `Search.SearchAttribute` |
| `Db.KnownVersionsScenario` | db/db_test.go:269-312 | Insert `foo` then list: `["foo"]`; a second insert still lists `["foo"]` |
| `Queries.InsertStateActivityExample` | db/db_test.go:120-173 | After the tested ingestion into an empty index, the lineage's activity is one entry, at `path`, with no version |
| `Db.InsertStateScenario` | db/db_test.go:120-173 | The tested ingestion succeeds, and the lineage then has one activity entry, at `path`, with no version |
| `Db.DeletedLineageScenario` | db/db_test.go:139-150 | Ingesting into an index whose only lineage row of that value is soft-deleted fails and stores no state |

## Left out

- Backends and configuration are not part of this model: the `Provider` interface, `LockInfo` and `Lock` (`state/state.go:11-40`), and `Configure` with the four backend constructors (`state/state.go:43-85`). They do network I/O and logging.
- SQL and the ORM are replaced by in-memory tables. Storage failures are not modelled: connection errors, and constraint violations from two callers racing to create the same lineage or version. The only failure modelled is InsertState's lineage-uniqueness conflict.
- Db.Database.InsertState: the test expects two transactions, one committing the new lineage row (`db/db_test.go:146-150`) and one committing the state row (`db/db_test.go:152-156`). The model applies both in one step. A failure of the state insert after the lineage commit would leave the new lineage row behind; since the state insert never fails in the model, that outcome is not captured.
- JSON parsing, state-file decoding and semantic-version parsing are external libraries. The model takes their output as input: a decoded `Json` value (or none when the bytes are not JSON), a decoded module tree, and the version text such as `1.0.0`.
- Timestamps are integers, with 0 for Go's zero time. No operation sets a lineage tombstone. Tombstones come only from the existing tables given to the constructor.
- Json.Serialize: numbers are integers, so Go's float64 formatting is not modelled. Only `"` and `\` are escaped; Go's encoder also escapes control characters, `<`, `>`, `&`, U+2028 and U+2029.
- ResourceIndex.GetResourceIndex: string keys get the escaping of `"` and `\` only. The formatter's own code is not part of this model, so how it renders control and non-printable characters is not captured; the tests use a plain key.
- Attributes.MarshalAttributeValues: the attribute order follows Go map iteration, which is unspecified. The model lists keys in sorted order, and no contract depends on that order. A flat map that is present but empty counts as absent. The instance status is carried but not used.
- Only an instance's current object is flattened; deposed objects and module output values are not stored.
- Search.SearchAttribute: only type, name, attribute key and attribute value filter, by equality. These are the values bound to the page query at `db/db_test.go:330`. The `tf_version` parameter is accepted and not applied. Results come in table order, since the query's own ordering is not shown. The join through the version row is taken as an inner join, so a state whose version reference is NULL yields no row; the query's join kind is not shown. A page parameter that is not a positive integer is not modelled.
- Queries.GetState: when several stored states match the lineage and the version, the model returns the first in state-id order. The query at `db/db_test.go:186-188` shows neither an ordering nor a limit, so which match the source returns is not pinned; the "earlier match" of `Queries.GetStateAfterInsertState` rests on this choice.
- Queries.GetLineageActivity: entries come in state-id order, since the query's own ordering is not shown. A state with no version shows the empty version id.
