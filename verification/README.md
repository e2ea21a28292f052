# Verified models of the evolution core

This project models the parts of the system whose correctness does not depend on I/O, and proves what they promise.

- **Reviewed JSON.** Host surface sources are read by two passes: a streaming preflight that counts nodes, depth and
  normalised bytes before any tree exists, and a pass that builds an index arena. Both are proved against one recursive
  grammar with unique decoded keys (`Grammar`), so whatever the first admits the second builds, unless a number fails
  the exactness gate. Printers, comparison, rebuild and the two size counters are proved against recursive definitions
  on trees (`Json`, `Render`, `Semantic`, `Rebuild`, `Resources`, `Seed`), and a typed default survives the way to the
  host value and back (`Defaults`, `HostDefaults`). `HostDiff` accounts for every name of a surface upgrade.
- **Decimals.** `Numbers` gives tokens their rational value and proves the normal form canonical; `HostDecimal` proves the
  restore script's normaliser equal to it.
- **Bundles.** `Bundles` compiles leaf patches with provenance; `Replay` proves that the replay checker accepts exactly
  what compiling makes, and what every chain of generations keeps.
- **Learner state.** `Records`, `Learner`, `LearnerState` and `LearnerRuns` model failure records, retest marks and applied
  assets, one method for each operation, and prove what holds over every run. `Variance`, `Plateau` and `Detector` prove
  the plateau arithmetic exact and free of overflow.
- **Anchored restore.** `Restore`, `RestoreReplay` and `Restored` verify a revocation delta against a trusted anchor, replay
  it, and prove that the copy then holds what the anchor holds.
- **Source mask.** `Mask` and `Production` blank comments, strings and test items in place without moving anything.

`Wrappers`, `Texts` and `Ordering` hold what the others share. Loops that the code writes as loops are methods with
invariants; each is proved equal to a function, and the laws are lemmas about that function.

Conventions of the model:

- Digests are ideal: a digest is the material it was computed from (`SkillAfter`, `ValueHash`, `BundleHash`, `TombstoneHash`,
  record and job ids), or a text that is the hash of nothing known. Distinct material has distinct digests by construction.
- serde's number conversion is a parameter `serde`: the text it writes for the number it reads from a token, if any. A
  number is stored as an integer exactly when that text has neither fraction nor exponent. Only the round trip assumes
  more (`SerdeSound`): a written number is read as itself and takes at most 32 bytes.
- Texts are sequences of Unicode scalar values and positions count characters; limits are in UTF-8 bytes (`Bytes`), as in
  the code. Objects list their keys in order, as the code's ordered maps do.
- The decimal checks follow the order of the code: an exponent outside the i64 range is refused even for a zero coefficient.

## Model

| member | source | states |
|---|---|---|
| `Numbers.ReviewedNumberEnd` | crates/evo-core/src/contract.rs:1529-1577 | The scanning loop ends exactly where the number grammar ends a token, tells integer tokens apart, and fails where no token starts |
| `Numbers.ReadTokenSound` | crates/evo-core/src/contract.rs:1529-1577 | What is read is in the grammar and is spelled by the text that was read |
| `Numbers.ReadsSpelled` | crates/evo-core/src/contract.rs:1529-1577 | A spelled token that cannot be continued is read back as itself: the grammar is unambiguous |
| `Numbers.DecimalOfSpelled` | crates/evo-core/src/contract.rs:1578-1619 | The normaliser, which cuts the text at markers, computes the decimal of the grammar's parts, with the checked i64 steps in their order |
| `Numbers.DecimalMeaning` | crates/evo-core/src/contract.rs:1578-1619 | The normal form is canonical and denotes the same rational as the token |
| `Numbers.CanonicalUnique` | crates/evo-core/src/contract.rs:1578-1619 | Two canonical forms are equal exactly when they denote the same rational |
| `Numbers.SameDecimalSameRational` | crates/evo-core/src/contract.rs:1578-1619 | Two accepted tokens have equal forms exactly when they denote the same rational |
| `Numbers.ComparisonTokenRoundTrip` | crates/evo-core/src/contract.rs:1621-1639 | Reading the comparison token of a canonical decimal gives the decimal back |
| `HostDecimal.FullMatchIsGrammar` | scripts/restore_backup.py:59-60 | The script's full match is membership in the same grammar, with unique groups |
| `HostDecimal.ExceedsIsGreater` | scripts/restore_backup.py:62-65 | Comparing digit strings by length and then by text is the numeric comparison with the i64 limits |
| `HostDecimal.HostDecimalParts` | scripts/restore_backup.py:56-79 | The restore script accepts exactly the tokens of the Rust normaliser and returns the same sign, coefficient and exponent |
| `Strings.QuoteBytes` | crates/evo-core/src/contract.rs:1915-1924 | The counted length of a string is the byte length of its serialised form |
| `Strings.ReadsSpelling` | crates/evo-core/src/contract.rs:1691-1714 | Every spelling of a string, with short, four-digit and paired escapes, is read as the characters it means, wherever it stands |
| `Strings.ReadIsSpelling` | crates/evo-core/src/contract.rs:1691-1714 | Conversely, what is read stands between quotes as a spelling of exactly that string |
| `Strings.ReadsQuoted` | crates/evo-core/src/contract.rs:1691-1714 | The serialised form of a string is read back as the string |
| `Cursor.ReviewedJsonCursor.Whitespace` | crates/evo-core/src/contract.rs:1686-1690 | The cursor moves past exactly the blanks |
| `Cursor.ReviewedJsonCursor.Text` | crates/evo-core/src/contract.rs:1691-1714 | The scan for the closing quote and the decoding refine the string grammar |
| `Cursor.ReviewedJsonCursor.Literal` | crates/evo-core/src/contract.rs:1715-1721 | A literal is consumed exactly when it stands at the cursor |
| `Cursor.ReviewedJsonCursor.Add` | crates/evo-core/src/contract.rs:1722-1726 | A node is appended and its index returned |
| `Json.SizeIsComparisonText` | crates/evo-core/src/contract.rs:1915-2122 | The budgeted size of a value is the byte length of the comparison form of its meaning |
| `RoundTrip.PrintThenRead` | crates/evo-core/src/contract.rs:2323-2386 | Reading the compact text of a value gives the value back, for every tree with sorted unique keys and accepted numbers |
| `RoundTrip.PrintInjective` | crates/evo-core/src/contract.rs:2184-2248 | Distinct values have distinct compact texts |
| `Reading.StepOutcome` | crates/evo-core/src/contract.rs:1776-1913 | One step of the frame-stack reader does not change what the recursive grammar still returns |
| `Reading.StepValid` | crates/evo-core/src/contract.rs:1776-1913 | A step keeps the frames well formed: keys sorted, unique and paired with values |
| `Limits.MustFit` | crates/evo-core/src/contract.rs:1979-2122 | On the way to an accepted value every open container stays within bytes, nodes and depth |
| `Limits.ClosedFits` | crates/evo-core/src/contract.rs:1938-2122 | A container that closes is admitted exactly when its frame fits, with the bytes and nodes its frame counted |
| `Preflight.AttachMatches` | crates/evo-core/src/contract.rs:1938-1978 | Counting a value into a budget frame adds exactly its bytes, and fails exactly when a budgeted container would exceed 4096 |
| `Preflight.ClosingLength` | crates/evo-core/src/contract.rs:1948-2122 | When the pass closes a container, the bytes it counted are the byte length of the comparison form of the value read there |
| `Preflight.ReviewedJsonPreflight` | crates/evo-core/src/contract.rs:1979-2122 | The streaming pass accepts exactly the texts within the byte limit that the recursive grammar reads, with node count, depth and default sizes within the limits |
| `Reader.Build` | crates/evo-core/src/contract.rs:1776-1913 | The building pass succeeds exactly when the grammar reads the text and every number passes the exactness gate; its arena denotes the value, children before parents, every node but the root owned once |
| `Reader.ParseWithDefaultRoot` | crates/evo-core/src/contract.rs:1773-1913 | After the preflight only a number that fails the exactness gate can fail the second pass |
| `Arenas.DenotesUnique` | crates/evo-core/src/contract.rs:1641-1656 | An arena index denotes at most one value |
| `Arenas.OwnedFromIds` | crates/evo-core/src/contract.rs:1722-1772 | When every index but the root is referred to once, the arena is owned |
| `Semantic.NumberNodes` | crates/evo-core/src/contract.rs:2254-2268 | The work list numbers exactly a closed set of nodes, injectively, and ends |
| `Semantic.SemanticCopy` | crates/evo-core/src/contract.rs:2254-2293 | The renumbered copy denotes the same value with exact decimals |
| `Semantic.SameValue` | crates/evo-core/src/contract.rs:2140-2182 | The structural comparison is true exactly when both copies denote the same value |
| `Defaults.SameValueSameText` | crates/evo-core/src/contract.rs:2139-2248 | Two read values mean the same exactly when their comparison texts are equal |
| `Defaults.ComparisonTextDecides` | crates/evo-core/src/contract.rs:2185-2248 | The comparison form is injective on canonical meanings |
| `Render.Render` | crates/evo-core/src/contract.rs:2185-2248 | The job-stack printer writes exactly the recursive printer's text, and fails exactly when it exceeds the limit |
| `Render.PushItems` | crates/evo-core/src/contract.rs:2222-2231 | The jobs pushed for an array print its items in order, separated by commas |
| `Render.PushFields` | crates/evo-core/src/contract.rs:2232-2243 | The jobs pushed for an object print its fields in key order |
| `Render.ComparisonUtf8` | crates/evo-core/src/contract.rs:2185-2248 | The comparison form, or an error exactly above 4096 bytes |
| `Render.TypedWireUtf8` | crates/evo-core/src/contract.rs:2323-2386 | The wire form of a value, with the numbers as serde writes them |
| `Rebuild.OpenedWorks` | crates/evo-core/src/contract.rs:2983-2995 | Opening a node keeps the rebuild stack in order: no node twice, every waiting child below its opened parent |
| `Rebuild.FinishedWorks` | crates/evo-core/src/contract.rs:2998-3027 | Finishing a node takes only its own children, so no other opened node loses one |
| `Rebuild.ReviewedTreeValue` | crates/evo-core/src/contract.rs:2979-3034 | The take-based rebuild never misses a child and gives the value the index denotes |
| `Resources.ReviewedValueResources` | crates/evo-core/src/contract.rs:2806-2865 | The work-list counter passes exactly the values within number, depth and 4096-byte limits |
| `Resources.NodesWithinSize` | crates/evo-core/src/contract.rs:2806-2865 | Every node takes at least a byte, so the node limit never decides alone |
| `Resources.ModestAdmitted` | crates/evo-core/src/contract.rs:1979-2122 | A value within the limits of a default is admitted by the preflight wherever it stands |
| `Seed.VisitEvent` | crates/evo-core/src/contract.rs:2701-2802 | The deserialising seed passes exactly the event streams with unique keys whose value fits, and charges the size of its comparison form |
| `Seed.VisitSeq` | crates/evo-core/src/contract.rs:2743-2763 | The same for a sequence |
| `Seed.VisitMap` | crates/evo-core/src/contract.rs:2764-2792 | The same for a map, in source order, with duplicate decoded keys refused |
| `Seed.SeedAgreesWithCounter` | crates/evo-core/src/contract.rs:2674-2865 | The seed and the work-list counter pass the same values |
| `Defaults.BinarySearch` | crates/evo-core/src/contract.rs:2486-2488 | Binary search over sorted choices finds exactly the members |
| `Defaults.TypeFits` | crates/evo-core/src/contract.rs:2474-2494 | The type test on the arena decides whether the value fits the type |
| `Defaults.ReviewedDefault` | crates/evo-core/src/contract.rs:2455-2509 | A default is accepted exactly when its object has the shape, its value the type and its comparison text the size; the result stands for it |
| `Defaults.ReviewedDefaultsSameValue` | crates/evo-core/src/contract.rs:2430-2439 | Defaults are the same exactly when both are absent, both unknown, or mean the same value |
| `HostDefaults.WireLoads` | crates/evo-core/src/contract.rs:2323-2386 | The wire form of a loaded value loads again, exactly, with the same meaning and the same wire form |
| `HostDefaults.WireBytes` | crates/evo-core/src/contract.rs:2323-2386 | The wire form is no longer than the comparison form but for 32 bytes a number |
| `HostDefaults.FromReviewed` | crates/evo-core/src/contract.rs:3076-3086 | The host value is the rebuilt value of the wire text, exactly when that text parses |
| `HostDefaults.Reviewed` | crates/evo-core/src/contract.rs:3088-3099 | Writing a host default and reviewing the text succeeds exactly when size, parse and type allow it |
| `HostDefaults.MatchesReviewed` | crates/evo-core/src/contract.rs:3120-3128 | A host default matches its source exactly when kinds and meanings agree |
| `HostDefaults.TypedDefaultRoundTrip` | crates/evo-core/src/contract.rs:2430-3099 | For every default its type allows: the wire text parses, the host value reviews again under the same type and choices, means the same and has the same wire text |
| `HostDefaults.AdmittedDefaultFits` | crates/evo-core/src/contract.rs:1979-2865 | A default value the preflight admits never fails the printer's 4096 bound, and all size counters give the same number for it |
| `HostDefaults.DecodeHostDefault` | crates/evo-core/src/contract.rs:3052-3073 | Decoding a default text fails only in the preflight, the number gate or the shape; the counter on the rebuilt value has no say |
| `HostDiff.HostSurfaceUpgradeDiff` | crates/evo-core/src/contract.rs:3375-3503 | The loop over items, names and retirements computes the specified diff, and fails exactly when that does |
| `HostDiff.NamesPartition` | crates/evo-core/src/contract.rs:3399-3493 | With distinct names: kept, added and rename-target names are disjoint and together are the current names |
| `HostDiff.RemovedAreRetired` | crates/evo-core/src/contract.rs:3481-3493 | Exactly the retired names are removed |
| `HostDiff.SelfDiffEmpty` | crates/evo-core/src/contract.rs:3375-3503 | A manifest against itself, without renames and retirements, has the empty diff |
| `Bundles.LeavesValid` | crates/evo-core/src/contract.rs:3695-3739 | A skill and strategy are valid exactly when each of the eight leaves is |
| `Bundles.CompileLeaves` | crates/evo-core/src/contract.rs:4379-4406 | The origins of the leaves in order, or failure at the first leaf that may not have its value |
| `Replay.CompiledReplays` | crates/evo-core/src/contract.rs:4453-4590 | Replay accepts every compiled bundle |
| `Replay.PatchesRecovered` | crates/evo-core/src/contract.rs:4263-4357 | The patches read off a compiled bundle's provenance are the patches it was compiled from |
| `Replay.ReplayExactly` | crates/evo-core/src/contract.rs:4240-4406 | Replay accepts a bundle exactly when some skill and improver patches compile to it on the same proof and revocations, origin order and digest included |
| `Replay.CompiledIsCurrent` | crates/evo-core/src/contract.rs:4358-4378 | A compiled bundle is complete current content, so it can be the next parent |
| `Bundles.FromContent` | crates/evo-core/src/contract.rs:4004-4078 | The checks, in their order, build a content proof exactly when profile, parent and baseline agree |
| `Replay.CompiledSafe` | crates/evo-core/src/contract.rs:4465-4560 | One compilation: no revoked dependency in either input or the output, capabilities available and granted, the counterexample flag inherited |
| `Replay.ChainSafe` | crates/evo-core/src/contract.rs:4453-4566 | Over every chain from an empty root each step is safe, and the counterexample requirement stays true |
| `Replay.CompiledTells` | crates/evo-core/src/contract.rs:4379-4406 | Every origin tells the truth: inherited leaves are the parent's, reset ones the baseline's, set ones bound to field and value |
| `Replay.LeafTraced` | crates/evo-core/src/contract.rs:3991-4090 | Over every chain, following inherit origins back through parent digests ends where the leaf was set, reset, or at the root, with its value digest unchanged |
| `Replay.ParentIdentified` | crates/evo-core/src/contract.rs:4060-4072 | In a chain, the only complete bundle that bears a parent digest is the bundle of the generation before |
| `Records.ReducedValid` | crates/evo-core/src/curriculum.rs:769-881 | From a valid list the final validation of a reduction cannot fail |
| `Records.ReducedContext` | crates/evo-core/src/curriculum.rs:819-881 | After a reduction every open record carries the cycle's environment and grader |
| `Records.ReduceTwice` | crates/evo-core/src/curriculum.rs:761-881 | The same reduction twice in a row conflicts or changes nothing |
| `Records.NewRecordsDistinct` | crates/evo-core/src/curriculum.rs:690-719 | New records of one cycle have distinct ids |
| `Records.ReducedAppends` | crates/evo-core/src/curriculum.rs:761-881 | A reduction keeps the old records first, their evidence and the closed ones unchanged |
| `LearnerState.OutcomeStep` | crates/evo-core/src/curriculum.rs:846-879 | Booking one outcome on the open records of its cluster and appending its record settles exactly the outcomes so far |
| `LearnerState.CheckCycle` | crates/evo-core/src/curriculum.rs:769-784 | The checks accept exactly valid cycles with distinct clusters |
| `LearnerState.CheckRecords` | crates/evo-core/src/curriculum.rs:785-808 | The checks accept exactly valid records that do not name the cycle; on valid records the error is a conflict |
| `LearnerState.LearnerStateV3.ApplyCycle` | crates/evo-core/src/curriculum.rs:761-881 | All or nothing: success exactly when the cycle is reducible, and then the records are the settled old ones and the new ones; an error leaves them as they were |
| `LearnerState.LearnerStateV3.MarkRetestDue` | crates/evo-core/src/curriculum.rs:907-942 | Active records of the families become retest-due and every family gets one mark, in sorted order |
| `LearnerState.LearnerStateV3.ApplyLearnerAsset` | crates/evo-core/src/curriculum.rs:1055-1100 | From a valid state, applied exactly when asset and families are valid and the release is new; a repeated identical asset changes nothing; an error leaves the state as it was exactly unless only a bad family is at fault, and then what has changed is stated |
| `LearnerState.LearnerStateV3.ConsumeRetestPriorityMark` | crates/evo-core/src/curriculum.rs:1107-1123 | Succeeds from a valid state exactly when an unconsumed mark exists; the mark is consumed and the family's retests scheduled |
| `LearnerState.LearnerStateV3.VoidRetestDueOfRelease` | crates/evo-core/src/curriculum.rs:1130-1143 | The release's retest-due records return to active |
| `Ordering.OrderedSorted` | crates/evo-core/src/curriculum.rs:1033-1046 | Sorting and dropping repetitions gives a strictly sorted list |
| `Learner.ActiveClustersValid` | crates/evo-core/src/curriculum.rs:1033-1046 | The active failure clusters are distinct identifiers |
| `Learner.CycleKeepsValid` | crates/evo-core/src/curriculum.rs:1163-1225 | A reduction keeps the whole state valid, with the failure clusters recomputed |
| `Learner.AssetKeepsValid` | crates/evo-core/src/curriculum.rs:1055-1225 | Applying an asset keeps the whole state valid, marks every bound family and appends no record |
| `Learner.ConsumeKeepsValid` | crates/evo-core/src/curriculum.rs:1107-1225 | Consuming a mark keeps the whole state valid and the history append-only |
| `Learner.VoidKeepsValid` | crates/evo-core/src/curriculum.rs:1130-1225 | Voiding a release keeps the whole state valid and the history append-only |
| `LearnerRuns.RunKeeps` | crates/evo-core/src/curriculum.rs:761-1225 | Over every run: the state stays valid, so failure clusters are the active absolute view, marks are unique and name applied releases; history is append-only; marks are never removed or un-consumed; every retest-due record has its unconsumed mark |
| `LearnerRuns.StepKeepsRetests` | crates/evo-core/src/curriculum.rs:907-1143 | One operation keeps: a retest-due record has an unconsumed mark of its cluster and release |
| `LearnerRuns.ConsumedOnce` | crates/evo-core/src/curriculum.rs:1107-1123 | In any run a family's mark for a release is consumed at most once |
| `LearnerRuns.CycleOpen` | crates/evo-core/src/curriculum.rs:819-879 | Openness of a cluster after a cycle, from openness before and the outcome |
| `LearnerRuns.OpenExactly` | crates/evo-core/src/curriculum.rs:761-942 | Over every run from no open record: a cluster has an open absolute failure exactly when its last outcome in the current unbroken run failed, an open regression exactly when it regressed there and did not pass cleanly since |
| `LearnerRuns.FromV2Valid` | crates/evo-core/src/curriculum.rs:983-1028 | A valid v2 state reads as a valid v3 state exactly while its failure clusters are within 10000; nothing is open in it |
| `Variance.VarianceMeaning` | crates/evo-core/src/curriculum.rs:1418-1470 | Whenever the checked computation answers, its flag is the comparison of the unbiased variance of the exact means with the threshold, and its number is that variance rounded up |
| `Variance.WindowNeverOverflows` | crates/evo-core/src/curriculum.rs:1418-1470 | Three valid cycles and a threshold of at most 10^9 never hit an i128 or u64 overflow |
| `Variance.VarianceIsQuotient` | crates/evo-core/src/curriculum.rs:1418-1470 | The integer quotient the code forms is the unbiased sample variance |
| `Plateau.SuccessRateMeans` | crates/evo-core/src/curriculum.rs:294-300 | The micros success-rate test is the comparison 20 successes against 19 clusters |
| `Plateau.PlateauHasNoReasons` | crates/evo-core/src/curriculum.rs:1287-1331 | A window has no reason against it exactly when it is a plateau; the thirty unique clusters are implied |
| `Plateau.ProbeExactly` | crates/evo-core/src/curriculum.rs:1249-1331 | The probe is reported exactly without cooldown, failure or coverage gap and for a plateau of the last three cycles; its variance is the exact one rounded up |
| `Detector.DetectWindow` | crates/evo-core/src/curriculum.rs:1279-1331 | The loop over the window gathers exactly the reasons that hold and never overflows |
| `Detector.DetectPlateauSignal` | crates/evo-core/src/curriculum.rs:1249-1331 | The v2 trigger answers for every valid profile and state, with the specified signal |
| `Detector.DetectPlateauSignalV3` | crates/evo-core/src/curriculum.rs:1343-1416 | The v3 trigger answers for every valid profile and state, with the specified signal |
| `Detector.VersionsAgree` | crates/evo-core/src/curriculum.rs:1343-1416 | Without active absolute failures v3 is v2 on the emptied state; a v3 failure gap lists exactly the active clusters of registered buckets |
| `Restore.VerifyDelta` | scripts/restore_backup.py:671-729 | Accepts exactly the deltas bound to the backup whose entries are what the anchor expects, lists their events in order, and reports the anchor's watermark of every namespace |
| `Restore.VerifyEntry` | scripts/restore_backup.py:698-726 | One namespace: base and latest marks agree, old tombstones are in the backup, the events are the anchor's later tombstones, chained without a gap |
| `Restore.CollectLate` | scripts/restore_backup.py:706-718 | The anchor's rows are readable, those up to the base are in the backup with equal fields, the later ones are collected |
| `Restore.LinkEvents` | scripts/restore_backup.py:719-724 | The expected events link each revocation to the digest before it, and tell whether they reach the latest mark |
| `RestoreReplay.Database.ReplayDelta` | scripts/restore_backup.py:734-746 | One transaction: all events are replayed, or the tables are as before |
| `RestoreReplay.Database.ReplayEvent` | scripts/restore_backup.py:737-746 | The statements for one event: tombstone, watermark, pending job, three frontier nodes, log entry |
| `RestoreReplay.EventRow` | scripts/restore_backup.py:706-724 | Every accepted event is a tombstone of the anchor |
| `RestoreReplay.RowEvent` | scripts/restore_backup.py:706-724 | Every later tombstone of the anchor has its event |
| `Restored.RestoredMatchesAnchor` | scripts/restore_backup.py:687-746 | After replay every watermark is the anchor's, every anchor tombstone is in the copy with equal fields, rows that no event names are as before, and the jobs are the old ones and one pending job for each event, under ids of their own |
| `Restored.AcceptedReplays` | scripts/restore_backup.py:734-746 | A copy without cleanup jobs for later revocations takes every accepted delta |
| `Restored.MissingMigrations` | scripts/restore_backup.py:534-544 | Restorable are exactly the prefixes of the known migrations that hold the budget ledger; the rest is what is missing |
| `Mask.LexicalCode` | scripts/check_production_store_open.py:26-63 | The in-place loop blanks exactly the token positions, and fails exactly when a token does not end |
| `Mask.MaskedKeepsPlaces` | scripts/check_production_store_open.py:22-63 | Length and every newline position are kept |
| `Mask.MaskedHasNoQuote` | scripts/check_production_store_open.py:26-63 | No double quote is left |
| `Mask.MaskingIsIdempotent` | scripts/check_production_store_open.py:26-63 | Masking makes no comment, string or character: a masked text masks to itself, nested comments included |
| `Production.BlockEnd` | scripts/check_production_store_open.py:66-73 | The first closing brace that balances the braces since the start |
| `Production.ProductionCode` | scripts/check_production_store_open.py:76-86 | The rewrite loop ends and gives the code with every test item blanked |
| `Production.StrippedExactly` | scripts/check_production_store_open.py:76-86 | Stripping blanks exactly its items and touches nothing else; each item runs from the first test attribute that those before it leave to the end of the attribute's item |
| `Production.ProductionKeepsPlaces` | scripts/check_production_store_open.py:76-86 | The production code has the same offsets and newlines as the source, no double quote and no test attribute, and a character is blanked exactly when it stands in a token or in a test item |

## Left out

- Error messages and, except where a row names them, error kinds: the contracts say exactly when an operation fails, not with
  which text.
- Machine-integer checks on text lengths and counters (`usize` additions): the limits of 262144 bytes and 32768 nodes keep
  them far from overflow. The i64 exponent order and the i128 and u64 variance arithmetic are modelled.
- `Reader.Build`: serde's number parser is a parameter, so which tokens pass the exactness gate is not modelled; the binary64
  scaling and printing behind it are not part of this model.
- `Defaults.ReviewedDefault`: requires sorted choices, which its callers check before (crates/evo-core/src/contract.rs:2590-2596);
  on unsorted choices the library search promises nothing.
- `HostDefaults.TypedDefaultRoundTrip`: assumes that serde reads the numbers it writes as themselves and writes at most 32 bytes.
- `Seed.VisitEvent`: the object around the value (kind and value fields in either order) is not modelled, only the value.
- `HostDiff.HostSurfaceUpgradeDiff`: the comparison of two defaults is a parameter; `HostDefaults` proves what the code passes.
- Extraction of reviewed host sources, manifest classification and field permissions: flat field checks.
- The v2 bundle compiler and the complete-profile variant of the v3 compiler: the same leaves and replay with other field checks.
- `Replay.ReplayExactly`: fields of the frozen profile that compilation does not read are one opaque field of its content.
- `LearnerState.LearnerStateV3.ApplyLearnerAsset`: on an invalid family the code has already moved the skill digest and the
  applied list; the contract states this, and run properties range over successful operations.
- `LearnerRuns.RunKeeps`: the engine's other updates of a reduction (observations, buckets, cooldown) are not part of the step.
- `Plateau.ProbeExactly`: identifiers of schema versions and timestamps of profile and state are not modelled.
- SQLite itself: tables are sequences and maps with their keys, the transaction of a replay restores them on failure. Path,
  link, permission and publication checks, the migration runner and the backup manifest checks are left out.
- `Restore.VerifyDelta`: the comparison of consumed budget facts is equality of one opaque value; the schema check of the
  anchor and the test that its path lies outside the backup are left out; of the receipt only the watermarks are modelled,
  not its digest of the snapshot, its path or its time.
- `RestoreReplay.Database.ReplayDelta`: columns with default values and the JSON text of log details are not modelled.
- The call-site inventory that uses the masked source (function spans, guards, pinned counts): tables of constants.
- Files, locks, HTTP, command line and process code.
