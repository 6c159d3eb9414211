# Perfectory's hard logic, modelled and proved

Models of the self-contained algorithms and protocols the repository relies on: the CI planner, the schema
registry, the vector-tile decoder, the build lock and others below. Each module follows one part of the
repository and proves what that part is relied on for.

| module | what it models |
|---|---|
| `ShardPlan`, `ShardTargets` | the planner that spreads split test files over CI shards, longest piece first, and which targets each shard executes |
| `SchemaRegistry` | the compatibility rule between revisions of a document schema, against two meanings of a schema: what a writer emits and what a reader accepts |
| `SchemaPaths`, `SchemaPacts` | a schema's field record and the path lookup; the pacts that guarantee a consumer its paths |
| `TileWire`, `TileGeometry`, `TileDecoder` | the vector-tile decoder: varints and fields of the Protocol Buffers wire encoding, the geometry commands of section 4.3 of the Mapbox Vector Tile Specification 2.1, and the nested messages |
| `TileSource`, `TileEncoder`, `TileReordering`, `TileRoundTrip` | the layers the tests' encoder writes and what they mean, the encoder's loops, every other spelling of them, and the round trips through the decoder |
| `TileGrammar`, `TileAcceptance`, `TileLaws` | which bytes are which fields, that whatever decodes is a spelling, and which tiles decode, by their numbers |
| `TileIdentities`, `TileQuote`, `TilePieces`, `TileDump` | the identities of a tile's features, their quoting, texts of quoted values, and the canonical dump |
| `CargoFeatures`, `CfgPredicate` | feature unification over a Cargo workspace and the evaluation of `cfg` predicates |
| `Definitions`, `DefinitionGroups` | splitting catalog artifacts into one definition per group, and generating them back |
| `DefinitionFiles` | the same by what the files hold: which can be split, where items lie, which definitions generate what |
| `ChangeScope` | which crates and which test suites a change verifies |
| `BuildLock` | the release build's lock against registered jobs, over every interleaving |
| `FetchRuns` | fetching workflow runs through a capped query by bisecting the interval |
| `PinnedFetch` | the checksum-pinned download with retry into a content-addressed cache |
| `RegexExample`, `PythonNumbers` | the example text for an anchored regular expression; Python's conversion of a text to an integer |
| `Sorting`, `Sequences`, `Wrappers` | sorting by an order, the order of strings, facts about sequences, options and results |

Loops and objects of the source are methods and classes here, each proved against a function or a predicate
that says the same without the loop; the lemmas are about those. The lock is a state machine over the steps
of its processes. `dafny verify dfyconfig.toml` checks everything.

Five results say where the code does not do what it is for, each with an input and the condition under which
it does:

- A closed enum that holds a boolean passes as a reader of one that holds 1 or 0, because Python compares
  them equal. Reading is right if and only if no enum is confused so (`SchemaRegistry.ReadsIsSoundExactly`).
- The record of a schema with a list of lists names paths that the lookup does not resolve. The two agree if
  and only if no property stands below a list of lists or the items of the schema itself
  (`SchemaPaths.RecordIsLookupExactly`).
- The rule that a revision guarantees a path, taken alone, passes paths under a list whose items the schema
  leaves undeclared; it is right if and only if no document meets such a list on the way
  (`SchemaPacts.PromiseIsKeptExactly`). The registry's checks together leave no such case
  (`SchemaPacts.PactsAreKept`).
- Two dumps taken with different keys can be equal, although a comment promises they never are
  (`scripts/tiles/mvt_assert.rs:99-101`): tiles without features dump to nothing whatever the keys, a long key
  can hold another key and its value (`TileDump.LongKeyConfuses`), and a key with a line break whole lines
  (`TileDump.LineBreakConfuses`). Some n identities of one key list and some m of another have one dump if and
  only if the leads of their lines meet, which the keys decide (`TileDump.KeysConfuseExactly`); different plain
  keys confuse nothing but empty dumps (`TileDump.PlainKeysNeverConfuse`), and the same keys nothing at all
  (`TileDump.OneRunDumpsExactly`).
- The example of an expression that forbids an atom shows the atom. A list of counts gives matching examples,
  whatever the atoms, if and only if no count forbids its atom (`RegexExample.CountsDecideExactly`); of a single
  expression that holds too, unless another atom takes a forbidden one's character
  (`RegexExample.UnabsorbedExampleExactly`).

## Model

| member | source | states |
|---|---|---|
| ShardPlan.Plan | scripts/ci/foundation_spark_shards.py:94-111 | Runs the pieces of every selected file, each piece once, each shard's longest first: a file longer than a minute that names two or more targets and is more than one part in twice the shards of all seconds runs as its targets, each at its own measured time or an even part, any other whole at its measured or the default time. Where no duration is negative, the heaviest shard is within 4/3 - 1/(3m) of any other schedule of the same pieces and no two shards differ by more than the longest piece |
| ShardPlan.PlanHoldsPieces | scripts/ci/foundation_spark_shards.py:97-111 | The plan holds the pieces of each file that is named, split by the written-out rule with its sixty seconds and two slots a shard, as often as they are listed and no others |
| ShardTargets.FileSplitsExactly | scripts/ci/foundation_spark_shards.py:99-106 | Where files share no targets, a file runs as its targets, each once at its own measured time or an even part and the file itself never, if and only if it names at least two, takes over a minute and twice the shards times its seconds exceed all seconds; otherwise the file runs once at its own seconds and its targets never |
| ShardPlan.PlanLongestFirst | scripts/ci/foundation_spark_shards.py:107-111 | Every shard's list descends in seconds, and pieces that take the same stand by their names |
| ShardPlan.PlanIsNearOptimal | scripts/ci/foundation_spark_shards.py:107-111 | Graham's bound: 3m times the plan's heaviest load is at most 4m - 1 times that of every other schedule of the same pieces on m shards |
| ShardPlan.LongPieceFits | scripts/ci/foundation_spark_shards.py:107-111 | While a piece longer than a third of a rival's makespan is being placed, the least loaded shard still has room for it within that makespan |
| ShardPlan.LeastIsBelowAverage | scripts/ci/foundation_spark_shards.py:109-110 | m times the least load plus the piece being placed is at most m times any rival's makespan: the step of the list-scheduling bound |
| ShardPlan.PlanBalanced | scripts/ci/foundation_spark_shards.py:107-111 | Two shards of a plan never differ by more than the longest piece |
| ShardPlan.PlanSchedules | scripts/ci/foundation_spark_shards.py:107-111 | The shards together hold the work, each piece as often as it was listed |
| ShardTargets.EveryTargetRunsOnce | scripts/ci/foundation_spark_shards.py:98-111 | Every test target of every selected file is executed exactly once: one shard runs it and no other does, or one shard runs its whole file and none the target |
| ShardPlan.EveryTargetRuns | scripts/ci/foundation_spark_shards.py:98-111 | No target is lost even where files share targets: some shard runs each target or its whole file |
| ShardPlan.SplitKeepsSeconds | scripts/ci/foundation_spark_shards.py:99-106 | Splitting files neither adds nor loses estimated seconds, when no split target has a measurement of its own |
| ShardPlan.AssignLongestFirst | scripts/ci/foundation_spark_shards.py:107-111 | The loop that appends to the least loaded shard produces the longest-first schedule the bounds are about |
| ShardPlan.BuildWork | scripts/ci/foundation_spark_shards.py:101-106 | The loop that grows the work list produces the split work of all files in order |
| SchemaRegistry.KeywordViolations | platforms/foundation-platform/scripts/schema_registry.py:109-123 | Lists exactly the places, by their paths through properties and items, that hold a keyword or a type outside the registry's or require a name they do not declare; nothing exactly for schemas without such a place |
| SchemaRegistry.Readable | platforms/foundation-platform/scripts/schema_registry.py:162-192 | Lists exactly the places, by their paths through both schemas, where the writer's types, enum or pattern are not the reader's, a required field may be omitted or items are undeclared; nothing exactly when the reader/writer rule holds at every depth |
| SchemaRegistry.ReadsIsSound | platforms/foundation-platform/scripts/schema_registry.py:162-192 | An empty report means every document the writer emits is accepted by the reader, through nested properties, array items, nullable types and integers read as numbers, unless an enum confuses a boolean with a number |
| SchemaRegistry.ReadsIsSoundExactly | platforms/foundation-platform/scripts/schema_registry.py:176-179 | An empty report is right if and only if no enum value the writer can reach is taken for another by Python's equality |
| SchemaRegistry.FoundExactly | platforms/foundation-platform/scripts/schema_registry.py:176-179 | Python finds in an enum the value itself, and takes true for 1 and false for 0 and the other way round, and nothing else |
| SchemaRegistry.ReadsConfusesTrueWithOne | platforms/foundation-platform/scripts/schema_registry.py:176-179 | The exception happens: a closed enum holding true passes as a reader of one holding 1 |
| SchemaRegistry.ConfusionRefused | platforms/foundation-platform/scripts/schema_registry.py:176-179 | Each reachable confusion yields a document the writer emits and the reader refuses |
| SchemaRegistry.PlainEnumsUnconfused | platforms/foundation-platform/scripts/schema_registry.py:176-179 | Enums of strings and nulls are never confused |
| SchemaRegistry.CanEmitExactly | platforms/foundation-platform/scripts/schema_registry.py:162-166 | The syntactic test whether a writer can emit anything agrees with the existence of a document |
| SchemaRegistry.ReportIsRightExactly | platforms/foundation-platform/scripts/schema_registry.py:162-192 | For a reader and a writer whose every place shows what it declares, the report is empty if and only if every document is read, whatever the patterns mean, and the reader asks for no items or members where the writer has no lists or objects: but for that, a finding is never idle, closed enums and patterns included |
| SchemaRegistry.ReportedRefused | platforms/foundation-platform/scripts/schema_registry.py:162-192 | Behind a report on such a writer stands a document that the writer emits and the reader refuses, under some meaning of the patterns |
| SchemaRegistry.ReportMayBeIdle | platforms/foundation-platform/scripts/schema_registry.py:187-192 | The other case happens: a reader of null or a list reads every null and is reported for its items |
| SchemaRegistry.TypesAreThoseShown | platforms/foundation-platform/scripts/schema_registry.py:109-123 | The type names a schema may use are those some document has |
| SchemaRegistry.ReadsReflexive | platforms/foundation-platform/scripts/schema_registry.py:195-198 | Every schema reads its own documents |
| SchemaRegistry.ReadsNotTransitive | platforms/foundation-platform/scripts/schema_registry.py:195-198 | Dropping an optional field and adding it again with another type passes between neighbours and fails between the ends, on a document the last revision writes |
| SchemaRegistry.ReadsTransitive | platforms/foundation-platform/scripts/schema_registry.py:162-192 | The rule is transitive when the middle schema declares every field the outer two share and opens no enum the reader closes |
| SchemaRegistry.CheckPairs | platforms/foundation-platform/scripts/schema_registry.py:261-265 | The double loop over a subject's revisions lists exactly the findings between every two revisions of a major, in both directions; nothing exactly when all are compatible both ways |
| SchemaRegistry.WholeHistoryReads | platforms/foundation-platform/scripts/schema_registry.py:261-265 | Within a checked major, a reader of any revision reads every document of any revision, exactly unless an enum is confused |
| SchemaRegistry.AppendKeepsHistory | platforms/foundation-platform/scripts/schema_registry.py:261-265 | Appending a revision keeps the whole history checked if and only if the new revision is compatible with each earlier one of its major |
| SchemaPaths.RecordOf | platforms/foundation-platform/scripts/schema_registry.py:126-141 | The record is sorted by path and lists exactly the walk's fields; where record and lookup agree each path comes once and is exactly what the lookup resolves, with the same required flag |
| SchemaPaths.NodeAt | platforms/foundation-platform/scripts/schema_registry.py:144-159 | The loop that rebinds the node resolves the path part by part, or finds nothing |
| SchemaPaths.RecordIsLookupExactly | platforms/foundation-platform/scripts/schema_registry.py:126-159 | For every schema whose property names a path can spell, record and lookup agree on every field if and only if no property stands below a list of lists or below the items of the schema itself |
| SchemaPaths.RecordIsLookup | platforms/foundation-platform/scripts/schema_registry.py:126-159 | On such schemas a path is in the record exactly when it names a property the lookup resolves, as required as the lookup says |
| SchemaPaths.NestedListsDisagree | platforms/foundation-platform/scripts/schema_registry.py:131-133 | On a list of lists the record lists a path that the lookup does not resolve |
| SchemaPaths.SplitJoined | platforms/foundation-platform/scripts/schema_registry.py:147-148 | Splitting a path at its dots gives back the parts it was joined from |
| SchemaPacts.Guaranteed | platforms/foundation-platform/scripts/schema_registry.py:314-324 | The loop over a path's prefixes answers exactly the pact's rule: required where declared, or cut off under a field the consumer reads as optional |
| SchemaPacts.GapExactly | platforms/foundation-platform/scripts/schema_registry.py:314-324 | Every emitted document has a path under each object a consumer reaches if and only if the schema leaves no gap on the way |
| SchemaPacts.PactsAreKept | platforms/foundation-platform/scripts/schema_registry.py:261-311 | Where the revisions of a major are compatible, the newest declares every path a consumer reads and each live revision guarantees what it requires, every document of every live revision has each required path under each object the consumer reaches |
| SchemaPacts.DeclaredPromiseIsKept | platforms/foundation-platform/scripts/schema_registry.py:305-324 | A path that a schema declares and a revision it reads guarantees is in every document of that revision, whatever lists stand on the way |
| SchemaPacts.CheckConsumer | platforms/foundation-platform/scripts/schema_registry.py:296-311 | The loop over a consumer's reads complains exactly of the reads that are no path, that the newest revision does not declare, and of each live revision that does not guarantee a required one |
| SchemaPacts.PromiseIsKeptExactly | platforms/foundation-platform/scripts/schema_registry.py:314-324 | What the guarantee taken alone passes is in every emitted document if and only if documents meet no list with undeclared items on the way |
| SchemaPacts.PromiseIsKept | platforms/foundation-platform/scripts/schema_registry.py:314-324 | Where every list declares its items a guarantee always holds |
| SchemaPacts.LooseListBreaksPromise | platforms/foundation-platform/scripts/schema_registry.py:318-322 | The limit of the guarantee taken alone: under a list declared without items, read as optional, a path it passes can be missing; the newest revision of a compatible history that declares the path rules this out |
| TileWire.EncodeVarint | scripts/tiles/mvt_assert_tests.rs:7-18 | The shifting loop writes the varint of its value |
| TileWire.VarintAtExactly | scripts/tiles/mvt_assert.rs:158-176 | A varint is read from bytes exactly when they begin with at most ten groups whose value fits 64 bits, with that value and length |
| TileWire.VarintRoundTrip | scripts/tiles/mvt_assert.rs:158-176 | Every 64-bit number is read back from its encoding, whatever follows |
| TileWire.RecordRoundTrip | scripts/tiles/mvt_assert.rs:178-235 | Every field that can be encoded is read back with its number, kind and payload, whatever follows |
| TileWire.RecordsRoundTrip | scripts/tiles/mvt_assert.rs:178-235 | A message of encodable fields is read back as those fields in order |
| TileWire.Cursor.ReadVarint | scripts/tiles/mvt_assert.rs:158-176 | Returns what the varint grammar says and advances past exactly those bytes, or refuses |
| TileWire.Cursor.ReadRecord | scripts/tiles/mvt_assert.rs:178-235 | Reads one field and strictly advances, or refuses what the grammar refuses |
| TileGrammar.MessageExactly | scripts/tiles/mvt_assert.rs:158-235 | Bytes read as a list of fields if and only if they spell it: each tag and number in any varint form that fits, each payload with its length |
| TileGeometry.ParsePrinted | scripts/tiles/mvt_assert.rs:513-574 | Every list of parts admissible for a geometry type is read back from its command stream |
| TileGeometry.ParsePrints | scripts/tiles/mvt_assert.rs:513-574 | Whatever is accepted is the command stream of the parts read |
| TileGeometry.AcceptsExactlyPrintings | scripts/tiles/mvt_assert.rs:513-574 | A stream is accepted for a type if and only if it is the printing of admissible parts, and then of one list of parts only |
| TileLaws.StreamExactly | scripts/tiles/mvt_assert.rs:513-574 | By the numbers of the stream: what prints points, lines or rings is, for type 1, the number 8n + 1 and n pairs; for type 2, pieces of 9, a pair, 8n + 2 and n pairs that move; for type 3, such pieces of two or more moving pairs, each with a 15 behind it |
| TileGeometry.ValidateGeometry | scripts/tiles/mvt_assert.rs:513-574 | The validating loop accepts a stream for a type if and only if the grammar of section 4.3 of the Mapbox Vector Tile Specification does |
| TileGeometry.ConsumeCoordinateParameters | scripts/tiles/mvt_assert.rs:603-632 | Passes exactly the counted coordinate pairs, refusing a cut stream and, where asked, a delta that does not move |
| TileGeometry.ExpectGeometryCommand | scripts/tiles/mvt_assert.rs:576-601 | Succeeds if and only if the number at the position is the expected command with a count from 1 to the largest a command can carry, and then returns the count that was encoded; a stream that ends, a zero count and another command are refused |
| TileDecoder.ParseValue | scripts/tiles/mvt_assert.rs:352-420 | The field loop decodes exactly the value a message's fields spell |
| TileDecoder.ParseFeature | scripts/tiles/mvt_assert.rs:422-492 | The field loop decodes exactly the feature its fields spell: tags resolved through the tables, one geometry type, a valid geometry; which features those are, by numbers, `TileLaws.FeatureAcceptedExactly` says |
| TileDecoder.ParseLayer | scripts/tiles/mvt_assert.rs:273-332 | The field loop decodes exactly the named layer its fields spell, in whatever order tables and features come |
| TileDecoder.ParseTile | scripts/tiles/mvt_assert.rs:253-271 | The field loop decodes exactly the layers a tile's fields spell, each name once; which tiles those are, `TileLaws.TileAcceptedExactly` says |
| TileDecoder.AppendRepeatedU32 | scripts/tiles/mvt_assert.rs:494-511 | Appends the numbers of a packed or single field, each within 32 bits |
| TileRoundTrip.ValueRoundTrip | scripts/tiles/mvt_assert.rs:352-420 | Every property value is read back from its encoding, unless it is text that is not UTF-8 |
| TileRoundTrip.ZigZagRoundTrip | scripts/tiles/mvt_assert.rs:387-405 | Every signed 64-bit number is read back from its zigzag form |
| TileReordering.PackRoundTrip | scripts/tiles/mvt_assert.rs:494-511 | A packed list of 32-bit numbers is read back whole |
| TileRoundTrip.FeatureRoundTrip | scripts/tiles/mvt_assert.rs:422-492 | The encoding of a feature decodes to that feature assembled over the layer's tables |
| TileRoundTrip.LayerRoundTrip | scripts/tiles/mvt_assert.rs:273-332 | The encoding of a layer decodes to what the layer means |
| TileRoundTrip.TileRoundTrip | scripts/tiles/mvt_assert_tests.rs:7-94 | The encoding of any layers that fit the format decodes to what the layers mean |
| TileRoundTrip.TileDecodesExactly | scripts/tiles/mvt_assert.rs:253-350 | Any spelling of a tile decodes if and only if its layers are good and differently named, and then holds exactly those layers, each feature with the properties its tags name |
| TileRoundTrip.PropertiesExactly | scripts/tiles/mvt_assert.rs:457-481 | Tags resolve if and only if their indexes are in range, keys differ and identity keys are text; the map then holds exactly the pairs |
| TileReordering.FieldOrderIsFree | scripts/tiles/mvt_assert.rs:253-492 | Tiles, layers, features and values read alike whenever, field number by field number, they hold the same known fields in the same order: how different fields interleave, and unknown fields, do not matter |
| TileReordering.NumbersRead | scripts/tiles/mvt_assert.rs:494-511 | However the numbers of a repeated field are cut into packed and single records, they are read in their order |
| TileReordering.ReorderedLayerDecodes | scripts/tiles/mvt_assert.rs:273-332 | A layer whose fields stand in any order, with unknown fields among them and inside its features and values, and with tags and geometry cut up in any way, decodes to what the layer means |
| TileReordering.ReorderedTileDecodes | scripts/tiles/mvt_assert.rs:253-350 | A tile spelled with any order of fields, any unknown fields at every depth, any cut of its repeated fields and any varint form of its numbers decodes to what its layers mean, refusals included |
| TileReordering.EncodingSpells | scripts/tiles/mvt_assert_tests.rs:7-94 | What the encoder writes is one of these spellings |
| TileAcceptance.TileFound | scripts/tiles/mvt_assert.rs:253-492 | Whatever decodes is a spelling of some layers: the decoder accepts nothing else |
| TileLaws.TypeExactly | scripts/tiles/mvt_assert.rs:53-62 | A feature is a Point, LineString or Polygon if and only if its type field is 1, 2 or 3 |
| TileLaws.Utf8Exactly | scripts/tiles/mvt_assert.rs:247-251 | Text is accepted exactly when it is a sequence of UTF-8 characters of one to four bytes, none overlong, a surrogate or above U+10FFFF |
| TileLaws.ValueAcceptedExactly | scripts/tiles/mvt_assert.rs:352-420 | Bytes decode to a value if and only if they spell that value, and text is UTF-8 |
| TileLaws.FeatureAcceptedExactly | scripts/tiles/mvt_assert.rs:422-492 | A feature decodes if and only if it spells one whose type is 1, 2 or 3, whose geometry is a stream of that type and whose tags pair differing keys with values of the tables, identity keys with text; it then has that type and exactly those properties |
| TileLaws.TileAcceptedExactly | scripts/tiles/mvt_assert.rs:253-350 | Bytes decode as a tile if and only if they spell layers of version 1 or 2 with different names, whose texts are UTF-8 and whose features have pairing tags, a stream of their type number and the type that parcels and anchors ask for |
| TileLaws.TileShows | scripts/tiles/mvt_assert.rs:253-350 | A decoded tile shows what its bytes spell: a layer under each name, with a feature for each feature, its type by number and its properties by tag |
| TileRoundTrip.UnknownFieldsSkipped | scripts/tiles/mvt_assert.rs:219-235 | A field whose number a message does not know changes nothing of what is read |
| TileEncoder.FeatureBytes | scripts/tiles/mvt_assert_tests.rs:53-58 | The growing buffer of a feature is the encoding the round trip is about |
| TileEncoder.LayerBytes | scripts/tiles/mvt_assert_tests.rs:69-83 | The loops over features, keys and values write a layer's fields in order, then its extent and version |
| TileEncoder.PackedU32Field | scripts/tiles/mvt_assert_tests.rs:41-47 | Packs the numbers into one length-delimited field |
| TileEncoder.WriteTile | scripts/tiles/mvt_assert_tests.rs:89-94 | What is written for any layers decodes to what they mean |
| TileQuote.WriteQuoted | scripts/tiles/mvt_assert.rs:695-715 | The character loop writes the quoted form of a string: quotes around the characters, each written by the rule of escapes |
| TileQuote.EscapeExactly | scripts/tiles/mvt_assert.rs:695-715 | Each character is written as the rule says: a backslash before a quote or a backslash, `\n`, `\r` and `\t`, four hexadecimal digits for other control characters, and any other itself |
| TileQuote.QuoteRoundTrip | scripts/tiles/mvt_assert.rs:695-715 | Every string is read back from its quoted form at the head of any text |
| TileQuote.QuoteDelimits | scripts/tiles/mvt_assert.rs:695-715 | Quoting is injective and says where it ends |
| TileDump.DumpDetermines | scripts/tiles/mvt_assert.rs:116-125 | Equal dumps come from equal identities in equal order, wherever two identities have the same keys or no key with an equals sign before a quote |
| TileDump.LinesAgreeExactly | scripts/tiles/mvt_assert.rs:116-125 | Two identities share a line if and only if they are of one layer and their properties are two groupings of one list of properties, a group being run together into one long key |
| TileDump.PlainLinesExactly | scripts/tiles/mvt_assert.rs:116-125 | An identity whose keys hold no equals sign before a quote shares its line with exactly its regroupings |
| TileDump.LongKeyConfuses | scripts/tiles/mvt_assert.rs:99-101 | Two properties and one with a long key share a line, so dumps read with different keys can be equal |
| TilePieces.TextsAgreeExactly | scripts/tiles/mvt_assert.rs:116-125 | Two lists of quoted values, each behind its lead, have one text if and only if they are groupings of one list: neighbours run together, value and all, into one lead |
| TilePieces.MeetExactly | scripts/tiles/mvt_assert.rs:116-125 | Some values behind two lists of leads give one text if and only if the leads meet: of two heads the longer holds the shorter, a quoted value and another lead, which is decided on the leads alone |
| TileDump.DumpsAgreeExactly | scripts/tiles/mvt_assert.rs:1025-1031 | Two dumps are equal, whatever keys they were read with and whatever the keys hold, if and only if their lines together are groupings of one list, across line breaks where a key holds one |
| TileDump.KeysConfuseExactly | scripts/tiles/mvt_assert.rs:99-101 | Some n identities of one key list and some m of another have one dump if and only if the leads of n lines and of m lines meet: the exact condition on the keys, whatever they hold |
| TileDump.LineKeysConfuseExactly | scripts/tiles/mvt_assert.rs:99-101 | Where no key holds a line break, two key lists have a dump of identities in common if and only if the leads of one line meet |
| TileDump.PlainKeysNeverConfuse | scripts/tiles/mvt_assert.rs:99-101 | Dumps read with two different lists of plain keys are equal if and only if both are empty |
| TileDump.LineBreakConfuses | scripts/tiles/mvt_assert.rs:99-101 | A key that holds a line break gives one identity the dump of two, though no line is shared |
| TileDump.OneRunDumpsExactly | scripts/tiles/mvt_assert.rs:1025-1031 | With one list of keys, whatever the keys hold, two tiles have one dump if and only if they hold the same identities, each as often |
| TileDump.DecidedDumpsExactly | scripts/tiles/mvt_assert.rs:647-652 | Two lists of identities with the same keys or plain ones have one dump if and only if they hold the same identities, each as often |
| TileIdentities.ReadIdentities | scripts/tiles/mvt_assert.rs:654-668 | Refuses if and only if some feature lacks an identity property or holds it as another type; otherwise gives, sorted, exactly one identity for each feature of each layer, with that layer's name and, in the order of the keys, that feature's texts |
| TileIdentities.ListingIrrelevant | scripts/tiles/mvt_assert.rs:654-668 | The identities found do not depend on the order in which the layers are listed |
| TileDump.SortedComparisonIsMultiset | scripts/tiles/mvt_assert.rs:777-786 | Comparing sorted identities is comparing them as multisets |
| TileDump.PropertiesLeExactly | scripts/tiles/mvt_assert.rs:102-106 | Identities of one layer sort by their properties as lists do: at the first that differs by key, then by value, a shorter list first |
| TileDump.LineWritten | scripts/tiles/mvt_assert.rs:116-125 | A line as it is written: the layer, then a tab, the key, an equals sign and the quoted value for each property |
| TileDump.DumpWritten | scripts/tiles/mvt_assert.rs:1025-1031 | A dump as it is written: its lines with a line break between two |
| CargoFeatures.Compiled | scripts/guard/build-coupling-baseline.py:166-216 | Refuses a package that is no member; otherwise returns the least assignment of features that the table's entries unify, by their text: a plain entry of an enabled feature is enabled, `dep:key` and `key/sub` activate an optional dependency, `key/sub` and `key?/sub` enable the sub-feature where the dependency is active, and an active member has its requested and default features |
| CargoFeatures.ItemRead | scripts/guard/build-coupling-baseline.py:195-207 | An entry is read by its text: without a slash and `dep:` it is a feature, `dep:key` a key, `key/sub` strong and `key?/sub` weak, and nothing else is |
| CargoFeatures.ClosedIsUnified | scripts/guard/build-coupling-baseline.py:178-214 | Closed under the rounds of the loop is unified by the text of the tables |
| CargoFeatures.LeastIsUnique | scripts/guard/build-coupling-baseline.py:166-216 | The least closed assignment does not depend on the order in which packages are asked for |
| CargoFeatures.EverythingClosed | scripts/guard/build-coupling-baseline.py:166-216 | Some assignment is closed, so a least one is sought within a finite bound |
| CargoFeatures.FactsGrow | scripts/guard/build-coupling-baseline.py:178-214 | Every round that changes anything leaves fewer pairs still to enable |
| CargoFeatures.WalkFeatures | scripts/guard/build-coupling-baseline.py:184-205 | The inner worklist closes a crate's features and collects what they switch on, and no more |
| CargoFeatures.VisitAll | scripts/guard/build-coupling-baseline.py:178-214 | A round that changes nothing leaves every enabled crate closed; no round goes above a closed assignment |
| CfgPredicate.EvaluateCfg | scripts/guard/build-coupling-baseline.py:85-118 | The recursive descent computes the value of the tokens, and an expression cut short counts as true |
| CfgPredicate.PredicateMeans | scripts/guard/build-coupling-baseline.py:96-113 | A printed predicate reads as its direct evaluation and ends where it was printed to end, whatever may follow |
| CfgPredicate.ArgsMean | scripts/guard/build-coupling-baseline.py:99-107 | A printed list of predicates, with or without a trailing comma, reads as the values of its members |
| CfgPredicate.CfgTrueMeans | scripts/guard/build-coupling-baseline.py:85-118 | Every printed predicate evaluates to its meaning: test off, a feature on when enabled, all else on |
| CfgPredicate.ValueTokens | scripts/guard/build-coupling-baseline.py:109-113 | `feature = value` holds when that feature is enabled, and any other `name = value` always, quoted or not |
| DefinitionGroups.GroupsOf | scripts/catalog/declared_definitions.py:119-165 | Every item gets the group the priority rule gives it, by literal names: a job that carries an edge ending at `gold-L` or `L-by-pnu-section-packs` is in the lane L of the first such edge, else its own id with dashes; a lane's node in the lane, another with the first job that writes it; an edge with the first job that carries it, else where it ends; memory entries and schemas with their owners |
| DefinitionGroups.RuleIsPlaced | scripts/catalog/declared_definitions.py:119-165 | The rule the loops follow and the one by literal names place the same items in the same groups |
| DefinitionGroups.SplitDocuments | scripts/catalog/declared_definitions.py:168-197 | Succeeds exactly when every collection can be taken and the items say their groups, both by what the documents hold; then each item stands in the group the rule by names gives it, and generating from the result gives these documents and no others; what a job says it carries may be anything that can be iterated over |
| Definitions.Split | scripts/catalog/declared_definitions.py:168-197 | Fails exactly when a collection is misshapen, an id comes twice or an edge is not named by its ends; otherwise scatters every item into its group and records every order |
| DefinitionFiles.TakenExactly | scripts/catalog/declared_definitions.py:168-197 | A collection is splittable exactly when its items have texts as ids under the slot's key, none twice, and each edge is named `<from>-to-<to>` |
| DefinitionFiles.SplitLies | scripts/catalog/declared_definitions.py:185-197 | After a split every item stands once, in the section and group its id has, as it was, an edge without its id, and the order lists the ids as they came |
| Definitions.Generate | scripts/catalog/declared_definitions.py:203-246 | Returns documents the definitions generate, and refuses only when they generate none: a wrong marker, an unknown section, a definition under another group's name, a double id and a stale order included |
| DefinitionFiles.GeneratesExactly | scripts/catalog/declared_definitions.py:203-246 | Definitions generate some documents if and only if they stand, by what the files hold: right marker and group, known sections, readable items, no id twice in a collection, only own checks and no stale order |
| DefinitionFiles.GeneratedHolds | scripts/catalog/declared_definitions.py:225-246 | A generated collection holds exactly the items of all groups, the ordered ones first in their order and the rest by id, each as its file holds it and an edge with its id written from its ends |
| DefinitionFiles.ChecksExactly | scripts/catalog/declared_definitions.py:249-260 | A definition's checks pass if and only if each is on an asset of the same definition and no two are on one asset under one name |
| Definitions.SplitThenGenerate | scripts/catalog/declared_definitions.py:168-246 | Splitting by any grouping and generating gives back the documents, order included, and nothing else |
| Definitions.GeneratedOnce | scripts/catalog/declared_definitions.py:203-246 | Definitions generate at most one set of documents |
| Definitions.AddedGroupKeepsOrder | scripts/catalog/declared_definitions.py:236-245 | Adding a group leaves the ordered items first and moves no existing item relative to another |
| Definitions.SplitChecksOwned | scripts/catalog/declared_definitions.py:249-260 | A split never produces definitions that the asset-check rule refuses |
| ChangeScope.Closure | scripts/ci/change_scope.py:434-446 | Selects a member if and only if a chain leads from it to a changed one, each step to a member named in its own dependencies, on cyclic graphs too |
| ChangeScope.AffectedIsChain | scripts/ci/change_scope.py:434-446 | The least set the worklist computes and the chains over the declared dependencies select the same members |
| ChangeScope.OwningMember | scripts/ci/change_scope.py:449-452 | Returns the member whose directory holds the path and is the longest, the greater name where two are as long, or none when none holds it |
| ChangeScope.OwnerIsDeepest | scripts/ci/change_scope.py:449-452 | The owner's directory lies within that of every other member that holds the path |
| ChangeScope.DecideCrates | scripts/ci/change_scope.py:493-555 | The decision is exactly, by chains, prefixes and suffixes of paths: every member where a run-all glob or an unowned source says so, else the members a chain leads from to a directly affected one, and those that only read a changed source |
| ChangeScope.DecidesExactly | scripts/ci/change_scope.py:493-555 | The rule the loop follows and the written-out one give the same answers |
| ChangeScope.NothingMissed | scripts/ci/change_scope.py:504-508 | Who holds a changed path, names it or a directory above it, or leads by a chain of dependencies to its owner is verified |
| ChangeScope.DecisionDistributes | scripts/ci/change_scope.py:493-555 | The answer for a union of changes is the union of the answers, its readers being the readers of either that the joint change does not affect; running everything absorbs |
| ChangeScope.SelectSuiteModules | scripts/ci/change_scope.py:648-687 | A workspace file named `test_*.py` runs exactly when a chain of imports and quoted names through files that are no tests leads from it to a change; a package when one leads from a file in it; every suite when a change is in the workspace and no suffix, dependent or package places it |
| ChangeScope.ReachedIsChain | scripts/ci/change_scope.py:660-672 | What the worklist reaches is what some dependency chain reaches, in whatever order it is popped |
| ChangeScope.TestExactly | scripts/ci/change_scope.py:660-674 | A test file is one whose last part begins with `test_` and ends in `.py` |
| ChangeScope.UnplacedExactly | scripts/ci/change_scope.py:681-687 | A change cannot be placed exactly when it is in the workspace, is no documentation, Rust or manifest, no source the graph follows, in no package, and no file depends on it |
| BuildLock.BuildWorksAlone | scripts/deploy/foundation-release-admission.py:552-590 | Over every interleaving of builds, jobs and onlookers: while a build works no other holds the lock and no job is admitted or at work |
| BuildLock.JobsWaitForBuild | scripts/deploy/foundation-release-admission.py:583-590 | From the moment a build works until it ends, no job starts its work |
| BuildLock.RunKeepsInv | scripts/deploy/foundation-release-admission.py:561-568 | Every step keeps what the exclusion rests on: the lock is held by whom it says, and a job seen stopped under the lock gets no further than its question |
| BuildLock.LockRefusedExactly | scripts/deploy/foundation-release-admission.py:561-568 | A build is refused the lock if and only if another build holds it or a job or onlooker is asking at that moment |
| BuildLock.JobRefusedExactly | scripts/deploy/foundation-release-admission.py:571-590 | A starting job is refused if and only if some build holds the lock |
| BuildLock.WatchingOnlyRefuses | scripts/deploy/foundation-release-admission.py:571-580 | Every run with onlookers reaches the builds and jobs of a run without them: their shared lock can only refuse a build |
| BuildLock.OnlookerLearns | scripts/deploy/foundation-release-admission.py:571-580 | An onlooker that asks is told whether a build holds the lock, and leaves the host as it found it |
| BuildLock.BuildGetsThrough | scripts/deploy/foundation-release-admission.py:936-938 | On a host at rest a build can always get to work |
| BuildLock.JobGetsThrough | scripts/deploy/foundation-release-admission.py:571-590 | Whatever went before, a stopped job can get to work again once no build holds the lock |
| BuildLock.RebootRests | scripts/deploy/foundation-release-admission.py:561-568 | After a reboot, whatever ran, the host is at rest without a lock file |
| BuildLock.BothMayBeRefused | scripts/deploy/foundation-release-admission.py:552-590 | A job and a build can refuse each other at once |
| FetchRuns.FetchRuns | scripts/ci/ci_time_budget.py:162-195 | Whatever the server answers it ends, and on success the intervals it read to the end partition the whole seconds asked for; against a truthful server it succeeds exactly when no over-full interval of an hour or less is met, and returns the collected runs |
| FetchRuns.FetchPages | scripts/ci/ci_time_budget.py:170-194 | Reads the pages of one interval to its last run, or reports that the query matches too many |
| FetchRuns.CollectedExactly | scripts/ci/ci_time_budget.py:162-195 | What is collected is what one query without a cap would find, each run once |
| FetchRuns.CollectedUnique | scripts/ci/ci_time_budget.py:162-195 | No run is collected twice, so none is overwritten |
| FetchRuns.PutExactly | scripts/ci/ci_time_budget.py:183-193 | A run whose id is known takes that place, a new one comes last, and no other run moves |
| FetchRuns.CollectedBetween | scripts/ci/ci_time_budget.py:162-195 | Of a fetchable interval the runs created in its whole seconds are collected, and only those |
| FetchRuns.MiddleHalves | scripts/ci/ci_time_budget.py:176-181 | An interval is halved at the nearest microsecond, at the even one where two are as near |
| FetchRuns.CollectedByLeaves | scripts/ci/ci_time_budget.py:168-181 | The collected runs are those of the intervals read, one after another: the intervals the loop reports as read to the end |
| FetchRuns.LeavesPartition | scripts/ci/ci_time_budget.py:168-181 | The whole seconds of those intervals partition those of the whole: no gap and no overlap, despite midpoints between seconds |
| FetchRuns.QuietHoursFetch | scripts/ci/ci_time_budget.py:176-181 | The fetch succeeds when no 3,600 seconds in a row hold more runs than the cap |
| PinnedFetch.Fetcher.DownloadOnce | scripts/ci/fetch_pinned.py:91-107 | One request: says from the answer alone what the partial file then holds, whether the body is whole and whether another attempt may help |
| PinnedFetch.Fetcher.Attempt | scripts/ci/fetch_pinned.py:135-153 | Places the asset only if its bytes hash to the pin, and leaves no partial file |
| PinnedFetch.Fetcher.Download | scripts/ci/fetch_pinned.py:132-157 | Attempts until one delivers or none can help, waiting a prefix of the backoff between them |
| PinnedFetch.Fetcher.Fetch | scripts/ci/fetch_pinned.py:110-158 | Returns only a path whose bytes hash to its pin; never removes a verified asset, caches only verified bytes, and downloads only when nothing verified is there |
| PinnedFetch.Fetcher.Prefetch | scripts/ci/fetch_pinned.py:336-345 | On success every pin is cached and verified; pruning then leaves exactly the files under some pin's hash and counts the entries it removed |
| PinnedFetch.Fetcher.Prune | scripts/ci/fetch_pinned.py:257-265 | Removes exactly the entries no pin names |
| PinnedFetch.EndsExactly | scripts/ci/fetch_pinned.py:134-157 | The answers of the network alone determine how often a call downloads and whether it succeeds: once, and once more for each wait used up by a transient failure |
| PinnedFetch.KeptTransitive | scripts/ci/fetch_pinned.py:110-158 | What one call keeps a sequence of calls keeps: verified assets stay, everything new is verified and no partial file is added |
| RegexExample.RegexExample | scripts/ci/foundation_postgres_production_shape.py:122-152 | The walk over the pattern returns the example its atoms and counts spell, in the digits of any script, or none, or raises where a class, an escape or a count is cut off or is no number |
| RegexExample.DocumentedExpression | scripts/ci/foundation_postgres_production_shape.py:122-124 | The expression `^[0-9a-f]{64}$` is the printing of an atom and a count whose texts are those of 64 hexadecimal digits, and its example is 64 zeros |
| RegexExample.CountsDecideExactly | scripts/ci/foundation_postgres_production_shape.py:141-151 | A list of counts gives matching examples, whatever the atoms, if and only if no count forbids its atom |
| RegexExample.ExampleMatches | scripts/ci/foundation_postgres_production_shape.py:122-152 | The example of every printed expression is in the expression's language, when no count forbids its atom |
| RegexExample.UnabsorbedExampleExactly | scripts/ci/foundation_postgres_production_shape.py:128-151 | Whatever the counts, the example matches if and only if no atom is forbidden, unless an atom that may occur takes the character that stands for a forbidden one |
| RegexExample.FixedExampleExactly | scripts/ci/foundation_postgres_production_shape.py:141-151 | Of an expression with exact counts the example matches if and only if no count is zero |
| RegexExample.OneItemExactly | scripts/ci/foundation_postgres_production_shape.py:141-151 | Of an expression of one atom the example matches if and only if its count does not forbid it |
| RegexExample.OneItemMeans | scripts/ci/foundation_postgres_production_shape.py:141-151 | The texts of one atom: as many characters of it as each kind of count allows, and no others |
| RegexExample.ForbiddenAtomIsShown | scripts/ci/foundation_postgres_production_shape.py:145 | The exception happens: the example of `^a{0}$` is `a` |
| RegexExample.NeighbourMayMatch | scripts/ci/foundation_postgres_production_shape.py:145 | The exception within the exception: a neighbour that may occur takes the character of a forbidden atom, and the example matches |
| RegexExample.WalkPrinted | scripts/ci/foundation_postgres_production_shape.py:128-151 | Every printed atom and count is read back as the atom and count it was printed from |
| RegexExample.NoExampleBehind | scripts/ci/foundation_postgres_production_shape.py:128-140 | Behind any printed atoms a group, an alternation, a dot or a negated class leaves no example |
| RegexExample.CutOffRaises | scripts/ci/foundation_postgres_production_shape.py:128-140 | Behind any printed atoms a backslash at the end and a class without its end raise |
| RegexExample.CountRead | scripts/ci/foundation_postgres_production_shape.py:142-146 | A count in braces is the number its text spells up to the first comma, one where that is empty or less, and raises where it spells none |
| RegexExample.CountCutOff | scripts/ci/foundation_postgres_production_shape.py:143-144 | An opened count without its end raises |
| PythonNumbers.NumberExactly | scripts/ci/foundation_postgres_production_shape.py:145 | A text is converted exactly to the number it spells: blanks, a sign or none, at most 4,300 digits of any script with single underscores between them, blanks; any other raises |
| RegexExample.EscapesShown | scripts/ci/foundation_postgres_production_shape.py:134-139 | The example of a digit is 9, of a word character `a`, of white space a blank, and of escaped punctuation itself |

## Left out

- Numbers: durations are real numbers, so the rounding of floating-point sums and quotients in the planner is not modelled; the payload of a tile's floats is kept as bytes.
- The text of error messages, log lines and reports is not modelled; a refusal is a refusal, and a schema finding is its place and kind.
- ShardPlan.Plan: the median of the durations and the targets a test file's source names are parameters, because the first is one library call and the second is Python's own parser.
- ShardPlan.PlanIsNearOptimal: needs pieces that are not negative, as pieces of durations that are not negative are.
- ShardTargets.EveryTargetRunsOnce: is about files that share no target and none of whose targets is a file's name; a target listed by two files is executed for both (`ShardPlan.EveryTargetRuns`).
- SchemaRegistry.ReadsIsSound: enums list scalars, because objects and arrays in an enum make the source's sets raise; patterns are answered by a parameter in place of the regular-expression engine.
- SchemaPaths.RecordIsLookupExactly: property names that are empty, hold a dot or end in `[]` are outside it, because a path cannot spell them.
- SchemaPacts.CheckConsumer: whether a path is well formed is a parameter, because the source asks a regular expression; a consumer's name, place and reason are single-branch validation.
- SchemaPacts.PactsAreKept: every live revision's schema is at hand; the source skips one whose file is missing, which its check of files reports.
- The rest of the registry's subject check (names, decisions, files, lanes) is single-branch validation.
- TileDecoder.ParseLayer: the decoder's check of a field's wire type before its payload and the one after it end in the same refusal, so their order is not told apart.
- TileIdentities.ReadIdentities: decoding UTF-8 text into characters is a parameter.
- The other assertions of the tile tool (counts, sets, single properties) and its command line are single-branch checks.
- CargoFeatures.Compiled: the workspace and its manifests are given as data; reading them from TOML and normalising paths are not modelled.
- CfgPredicate.EvaluateCfg: starts from the tokens, because the tokenizer is one regular expression.
- Definitions.Split: the place of a collection within its artifact and the order of an object's members are not modelled; an artifact's remainder is one opaque value. A node whose id is a number, a boolean or null is refused here; the source takes it, and gives it a group that is no name where no job writes it. Other ids that are no strings fail in the source as well.
- DefinitionGroups.SplitDocuments: an edge whose `to` is no string is refused here; the source groups it by that value where no job carries it.
- ChangeScope.DecideCrates: which paths a member's sources name, which globs run everything and which imports a suite file has are given as data, because they are text scans.
- BuildLock.BuildWorksAlone: the lock functions are steps of a state machine on values, because interleavings are the point; it rests on systemd counting a unit as running from its activation, and on the kernel's `flock`; the build itself, the verification of the release and the registry branch, which takes no lock, are not part of the state.
- FetchRuns.FetchRuns: the runs are those the server holds throughout the fetch; a run that completes meanwhile is outside it, and so are failing requests. What is kept of a run beside its id is one value.
- PinnedFetch.Fetcher.Fetch: the hash, the name of a URL's asset and the network's answers are parameters; one process at a time uses the cache, and being killed in the middle of a download is not modelled.
- RegexExample.UnabsorbedExampleExactly: of a single expression in which an atom that may occur takes a forbidden one's character it says nothing: the example may match (`RegexExample.NeighbourMayMatch`) or not, and telling which is matching itself. Over all atoms the counts decide (`RegexExample.CountsDecideExactly`).
- RegexExample.ExampleMatches: lazy quantifiers, classes that begin with an escape or a bracket, and counts of more digits than Python converts are outside the printed expressions.
- PythonNumbers.NumberExactly: the digits of other scripts are those of Unicode 14, which Python 3.11 knows.
- The repository's guards, renderers, audits and command lists format output or decide on single branches.
