# Verified models of the LyraCore tooling

This project models the tools around the LyraCore Module in Dafny and proves what they are for: the CI scheduler, the
snapshot schema check, the test clients' wire and update decoders, the spell count, two walkers over WebAssembly
binaries, the tier 1 baseline pipeline, the scenario Realm and Reference Server owners, the SQL rewriter and the build
step's registry scan. `dafny verify dfyconfig.toml` verifies all of it. Nothing here is executed.

| file | models |
|---|---|
| `Scheduler.dfy` | longest-first distribution of CI targets over jobs that already carry work |
| `Schema.dfy` | the canonical form of a Module definition, and which definition may follow which |
| `WorldWire.dfy` | the header cipher and the incremental packet reader |
| `Updates.dfy` | packed GUIDs and update masks |
| `Srp.dfy` | the logon key exchange, against the server side of section 2.6 of RFC 5054 |
| `Teaching.dfy` | the closure of teaching spells |
| `Wasm.dfy`, `Reload.dfy` | the import lister and the in-place rename of a private table |
| `Signatures.dfy`, `Baselines.dfy`, `Writers.dfy` | signatures and their order, the baseline file, and concurrent writers of it |
| `Ratchet.dfy`, `Pin.dfy` | the signature ratchet along a history, and the check of a proposed harness pin |
| `Realm.dfy`, `Reference.dfy` | the snapshot store, the scenario Realm and the Reference Server as state machines with crashes |
| `SqlDefaults.dfy` | the INSERT rewriter |
| `Registry.dfy` | the marker scan and the duplicate checks of `module/build.rs` |
| `Sorting.dfy`, `Scanning.dfy`, `Octets.dfy`, `Options.dfy` | what several models share |

Code that works step by step is a method with a loop, or a class, proved against a function of its inputs; the results
are lemmas about that function. Processes that persist state are machines: a step function over events, with a crash
event that is always enabled, and results about every run. SHA-1, JSON texts, UTF-8 and character classes are
parameters, with the property that is needed of them (an injective `json.dumps`, a decoder that inverts the writer) as
a hypothesis.

## What the models found

- `compatible_schema` is not transitive on arbitrary dictionaries: a type whose canonical form is JSON `null` cannot be
  told from a missing one, and it composes exactly without such types (`Schema.CompatibleComposesIff`). A definition
  with a null type can be read (`Schema.NullSchemaIsReadable`), yet on what `canonical_schema` returns acceptance always
  composes, because the entry that names a type has to survive (`Schema.CanonicalComposes`).
- A snapshot sealed without a base is not always the imported world as it was first stopped. A run cut off between
  starting that world again and marking the Realm ready, or while it is being removed, leaves the phase `imported`, and
  the next run with the same inputs seals the world as it is by then: `Realm.CutBeforeReady`, `Realm.CutWhileRemoving`
  and `Realm.CutWhileStopping` are such runs from an empty cache, the last two sealing a world with files missing.
  `Realm.SealsAsImportedIff` says exactly when a Realm at rest is safe from it.
- `insert_defaults` extends every group of parentheses behind `VALUES`, not only rows: `VALUES(id)` in an
  `ON DUPLICATE KEY` clause becomes `VALUES(id,0)` (`SqlDefaults.ClauseIsExtended`). It leaves what follows the rows
  alone exactly when that has no parenthesis outside strings (`SqlDefaults.ClauseStaysIff`).
- The decision whether a proposed pin needs review does not look at Behaviors: `Pin.BehaviorNeedsNoReview` has two
  baselines that differ in one. `validate_baseline` does look, which `Pin.AcceptedWithoutReview` uses.
- The import lister takes every value type for one byte, so it misreads descriptors whose type is a reference with a heap
  type. Of these, tables come out even exactly when the heap type is one odd byte and there is no maximum, globals never
  (`Wasm.DescriptionRoundTrip`). Behind such a descriptor an import from `env` can go unlisted: `Wasm.EnvIsHidden`.
- Renaming the private table can change what the import lister reads when an import section ends in front of its own
  entries: `Reload.OverrunImportChanges` has such a binary, and `Reload.RenamingKeepsImports` excludes it for all that read no
  further than their sections.
- Trimming before the session key is hashed follows RFC 2945 because the shared number has an even length; on an odd
  number of bytes the two rules differ unless all are zero (`Srp.TrimOfOddDiffers`).

## Model

| member | source | states |
|---|---|---|
| `Scheduler.Partition` | scripts/durable-test-targets.py:17-26 | the loop with its mutable totals computes the plan the results below are about, and fails for targets without jobs |
| `Scheduler.LeastLoaded` | scripts/durable-test-targets.py:23 | the job chosen is the first of the least loaded ones |
| `Scheduler.PlanIgnoresInputOrder` | scripts/durable-test-targets.py:20-22 | any reordering of the targets gives the same plan |
| `Scheduler.PlanSplits` | scripts/durable-test-targets.py:18-26 | every target is placed exactly once, and each total is its initial load plus its targets |
| `Scheduler.PlanBound` | scripts/durable-test-targets.py:17-26 | for m jobs, 2m times the largest total is at most 3m-1 times that of any other assignment of the same targets to the same loaded jobs |
| `Scheduler.DurableJobsBound` | scripts/durable-test-targets.py:13-26 | on the six jobs of the repository that is a factor of 17/12 |
| `Schema.SameIffNormal` | conformance/audit.py:114-129 | two values have equal normal forms exactly when one becomes the other by renumbering type references and reordering the unordered collections; order elsewhere counts |
| `Schema.CanonicalIff` | conformance/audit.py:105-137 | two definitions whose types have distinct names have the same canonical form exactly when some renumbering of types turns one into the other up to unordered collections |
| `Schema.CanonicalSchemaIff` | conformance/audit.py:105-137 | the same for raw schemas, through the reading of sections and names |
| `Schema.CompatibleReflexive` | conformance/audit.py:144-166 | a definition is compatible with itself exactly when the check can read it |
| `Schema.ReadableIff` | conformance/audit.py:105-166 | a canonical form can be read exactly when its definition has a list of tables with names, reducers only as a list and explicit names only with entries |
| `Schema.CompatibleTransitive` | conformance/audit.py:144-166 | compatibility composes when no type of the first definition is JSON null |
| `Schema.CompatibleComposesIff` | conformance/audit.py:144-166 | and it composes for all later dictionaries only then |
| `Schema.NullTypesIff` | conformance/audit.py:131-132 | a canonical form has a null type exactly when its definition, of distinct names, has one |
| `Schema.NullSchemaIsReadable` | conformance/audit.py:105-132 | there is a definition with a null type that is read and can be published again |
| `Schema.CanonicalComposes` | conformance/audit.py:105-166 | among canonical forms acceptance composes without any condition: where all type entries survive, every type keeps its name in the Typespace |
| `Schema.ChainKeepsOld` | conformance/audit.py:105-166 | a chain of accepted canonical definitions is accepted in one step: old tables, types and reducers survive, and every added table is private and no event table |
| `WorldWire.Cipher.Encrypt` | native-host/headless.py:92-99 | the method gives the cipher text of its state and data, and leaves the state after it |
| `WorldWire.Cipher.Decrypt` | native-host/headless.py:101-108 | likewise for decryption |
| `WorldWire.DecryptUndoesEncrypt` | native-host/headless.py:86-108 | from equal states decryption undoes encryption and ends in the same state |
| `WorldWire.DecryptedConcat` | native-host/headless.py:101-108 | decrypting in two parts is decrypting the whole |
| `WorldWire.HeaderRoundTrip` | native-host/headless.py:114-119 | a reply header gives back the body size and the opcode it was made from |
| `WorldWire.ScanInTwo` | native-host/load.py:52-74 | using bytes as they arrive, in two parts, is using them at once |
| `WorldWire.ScanIsReadAll` | native-host/load.py:45-74 | using a buffer is reading header by header as `read` does |
| `WorldWire.Client.Use` | native-host/load.py:61-74 | the inner loop hands on every whole packet and leaves the unused bytes and a pending header |
| `WorldWire.Client.Drain` | native-host/load.py:52-83 | whatever the chunks, what was handed on, the cipher state and the reason for closing are those of reading the concatenated bytes |
| `WorldWire.CutsDoNotMatter` | native-host/load.py:45-74 | reading chunk after chunk gives the same for any two ways to cut the same stream, and the same as reading it header by header |
| `WorldWire.ReadUndoesSend` | native-host/load.py:45-73 | the packets of a sender with the same key are recovered in order |
| `WorldWire.OnlyHeadersAreDecrypted` | native-host/load.py:62-73 | the cipher only ever runs over header bytes, four for each packet, never over a body |
| `Updates.PackedRoundTrip` | native-host/headless.py:221-223 | unpacking undoes packing for every eight bytes, and the packed form is one byte longer than its mask has bits |
| `Updates.CastRoundTrip` | native-host/headless.py:226-231 | the target of a spell cast is read back for every 64-bit GUID but zero, which is left out of the packet |
| `Updates.Values` | native-host/headless.py:256-282 | the loops over packets and mask bits compute the fields, or fail where the source raises |
| `Updates.FieldsRoundTrip` | native-host/headless.py:276-281 | mask and values give back every encoded field and end behind the last value |
| `Updates.UpdateRoundTrip` | native-host/headless.py:256-282 | an encoded update, plain or of any modelled create block, is accepted for its GUID and read to its last byte |
| `Updates.ValuesRoundTrip` | native-host/headless.py:256-282 | a list of updates and skipped packets gives the updates laid over one another in order |
| `Srp.SharedAgree` | native-host/headless.py:61 | client and server come to the same number for every modulus, verifier and pair of secrets |
| `Srp.TrimIsInterleaveInput` | native-host/headless.py:62-63 | on an even number of bytes the trimming is the rule of section 3.1 of RFC 2945 and leaves an even number |
| `Srp.TrimOfOddDiffers` | native-host/headless.py:62-63 | on an odd number it is that rule only if all bytes are zero |
| `Srp.Interleave` | native-host/headless.py:64 | the key has the bytes of the two digests in turn |
| `Srp.Logon.Challenge` | native-host/headless.py:39-53 | a nonzero status is returned at once, with nothing kept but the name; otherwise the answer is accepted exactly when it is an offer for generator 7 and the client's prime with a zero behind the sixteen unused bytes, and then its 32-byte public value and salt are left for the proof |
| `Srp.Logon.Prove` | native-host/headless.py:55-64 | the public value and the key of the formulas below |
| `Srp.PrimeIsModulus` | native-host/headless.py:9 | the client's prime is a modulus of 32 bytes |
| `Srp.KeysAgree` | native-host/headless.py:19-21 | for every name, password, salt and pair of secrets the client's key is the server's, computed from the stored verifier |
| `Teaching.LearnIffClean` | conformance/spell_counts.py:41-49 | from any set of spells under way, learning succeeds exactly when no walk along effect 36 meets a missing spell, one under way or itself |
| `Teaching.LearnSucceeds` | conformance/spell_counts.py:41-49 | from the start: exactly when no missing spell and no cycle can be reached |
| `Teaching.LearnValue` | conformance/spell_counts.py:46-49 | the result is exactly the set of reachable spells that teach nothing |
| `Teaching.FailureIsReal` | conformance/spell_counts.py:42-45 | the spell named by an error can be reached and is missing or on a cycle |
| `Teaching.Counts` | conformance/spell_counts.py:51-78 | every class gets exactly the final spells reachable from what trainers and skills offer it, or some offer fails |
| `Wasm.ReadLeb128` | scripts/module-env-imports.py:11-19 | the loop with its shifts computes the base 128 value and the offset after it, or runs off the end |
| `Wasm.LebRoundTrip` | scripts/module-env-imports.py:11-19 | every encoding of a number, padded or not, is read as the number |
| `Wasm.DescriptionRoundTrip` | scripts/module-env-imports.py:27-43 | skipping never fails on a descriptor of any of the five kinds, and consumes exactly it if and only if it has no reference with a heap type, or is a table without maximum whose heap type is one odd byte |
| `Wasm.Imports` | scripts/module-env-imports.py:46-61 | the nested loops list the imports section by section, or fail where the source raises |
| `Wasm.ImportsOfEncoding` | scripts/module-env-imports.py:11-61 | however a module is encoded, its import pairs are listed exactly and in order if each descriptor in front of another import of its section is one that is skipped right |
| `Wasm.EnvIsHidden` | scripts/module-env-imports.py:27-61 | without that they may not be: an encoded module that imports from `env` behind a global of type `(ref func)`, and whose listing has no pair of `env` |
| `Reload.PrivateTableFits` | native-host/reload.py:27-28 | the two names are equally long and of the form the results need |
| `Reload.RenamePrivateTable` | native-host/reload.py:9-31 | the loop over a candidate that is overwritten while it is read computes the renamed bytes, or fails where the source raises |
| `Reload.ReplaceLeavesNone` | native-host/reload.py:28 | replacing leaves the old name nowhere, also not across a replacement |
| `Reload.CountFindsAll` | native-host/reload.py:27 | the count is zero exactly when the name does not occur |
| `Reload.RenamingKeepsLayout` | native-host/reload.py:9-31 | length, first eight bytes, section boundaries and everything outside data sections stay, and no data section holds the old name |
| `Reload.RenamingRefused` | native-host/reload.py:9-31 | renaming fails exactly when a size runs off the end or no data section holds the name |
| `Reload.SplitIsFaithful` | native-host/reload.py:13-29 | the first eight bytes and the sections determine a binary |
| `Reload.RenamingKeepsImports` | native-host/reload.py:9-31 | in every binary whose import sections are read without looking behind their ends, renaming leaves the listed imports, or the error of listing them, as they were |
| `Reload.OverrunImportChanges` | native-host/reload.py:9-31 | without that it may not: a binary whose one import is read out of the data section behind it |
| `Reload.RenamingAnEncoding` | native-host/reload.py:9-31 | renaming an encoded module is encoding the module with renamed data, and its imports are listed as before |
| `Signatures.SignatureLeIsOrder` | conformance/support/ratchet.rs:10-20 | the derived order of signatures is total |
| `Signatures.AscendingUnique` | conformance/support/ratchet.rs:126-132 | a set of signatures has one listing that passes the check over neighbours |
| `Baselines.ReplaceScenario` | conformance/examples/baseline.rs:93-133 | the loops and the sort compute the replaced baseline, or an error |
| `Baselines.ReplacingUpdates` | conformance/examples/baseline.rs:112-132 | on a file in scenario order, replacing is a map update: other entries stay, order and uniqueness are kept |
| `Baselines.ReplacingSucceeds` | conformance/examples/baseline.rs:97-125 | it succeeds exactly for known scenarios whose Behavior is the catalogue's and has not changed |
| `Baselines.ReplacingCommutes` | conformance/examples/baseline.rs:93-133 | replacements of different scenarios commute, errors included |
| `Baselines.StrictUnique` | conformance/support/ratchet.rs:119-125 | a map of entries has one listing in scenario order |
| `Writers.ParseIff` | conformance/support/ratchet.rs:109-136 | exactly the bytes written from a canonical baseline are read, and they are read as it |
| `Writers.ChecksIff` | conformance/support/ratchet.rs:144-188 | against a canonical baseline the check, which compares sets, lets through exactly the committed entries |
| `Writers.CollectedAscends` | conformance/support/ratchet.rs:54-62 | the signatures of a comparison are listed once each, in order, and completely |
| `Writers.BaselineFromResult` | conformance/examples/baseline.rs:28-91 | the loop over a test result computes its baseline, or an error |
| `Writers.FromResultIsCanonical` | conformance/examples/baseline.rs:28-91 | an accepted result is a canonical baseline of exactly the requested scenarios |
| `Writers.AcceptedJobIsOk` | conformance/examples/baseline.rs:135-147 | the job of a run of the tool, targeted or whole, is one the results about writers are about |
| `Writers.FileIsComplete` | conformance/examples/baseline.rs:135-160 | in every interleaving of writers, with crashes, the file is untouched or a complete canonical baseline equal to the persisted jobs applied in lock order; only the lock's holder is past its lock, and a writer that reports success is among the jobs |
| `Writers.VerificationSucceeds` | conformance/examples/baseline.rs:155-158 | reading back what was just persisted never fails, whatever other writers do |
| `Writers.ContentIsUpdates` | conformance/examples/baseline.rs:145-152 | the file holds the entries it started with, updated job by job |
| `Writers.UntouchedStays` | conformance/examples/baseline.rs:145-152 | an entry no job names is unchanged |
| `Writers.LockOrderDoesNotMatter` | conformance/examples/baseline.rs:135-160 | writers of different scenarios that succeed in one lock order succeed in every one and leave the same file |
| `Pin.KeysOrderSignatures` | conformance/pin_bump.py:207-210 | the tuples Python sorts by order signatures as the Rust tools do |
| `Pin.ValidateBaseline` | conformance/pin_bump.py:153-217 | the loops accept exactly the baselines of the accepted form |
| `Pin.AcceptedIsCanonical` | conformance/pin_bump.py:153-217 | what is accepted has distinct, ordered signatures and scenarios, so the Rust tools read it, and names the proposed revision |
| `Pin.OnlyOneOrdering` | conformance/pin_bump.py:211-217 | of all baselines with given digests and signature sets, one is accepted |
| `Pin.SignatureChanges` | conformance/pin_bump.py:118-132 | the loop lists the changes of the given scenarios |
| `Pin.ChangesAreExact` | conformance/pin_bump.py:118-132 | old signatures minus removed plus added are the new ones, for every reported change |
| `Pin.ChangesAreAll` | conformance/pin_bump.py:123-131 | a scenario with different signatures is reported |
| `Pin.NoReviewMeansProvenance` | conformance/pin_bump.py:220-270 | between canonical baselines a proposal that needs no review changes at most Behaviors, revisions and digests |
| `Pin.NoReviewIff` | conformance/pin_bump.py:118-132 | no review is needed exactly when the entries agree up to Behavior, revision and digest, and then up to the last two exactly when the Behaviors agree |
| `Pin.BehaviorNeedsNoReview` | conformance/pin_bump.py:118-132 | two canonical baselines with different Behaviors need none |
| `Pin.AcceptedWithoutReview` | conformance/pin_bump.py:153-270 | and if it was also accepted, only revisions and digests |
| `Ratchet.Compare` | conformance/check_ratchet.py:37-74 | the loop over the candidate computes additions, removals and new measurements, or fails on invalid baselines |
| `Ratchet.HistoryIsReported` | conformance/check_ratchet.py:37-74 | along a history that keeps a scenario's hash and revision, its signatures come from the start or were reported, and their number changes by exactly what was reported |
| `Ratchet.UnlabelledOnlyShrinks` | conformance/check_ratchet.py:65-68 | a history that passes without the label adds none |
| `Realm.StepKeeps` | conformance/audit.py:862-1018 | every step, crash or outside event keeps the invariant of the machine |
| `Realm.ServedIsSealed` | conformance/audit.py:862-1018 | in every run a caller only gets a Realm marked ready for its key and commit and last started on exactly the sealed files of that key |
| `Realm.ValidIsWhole` | conformance/audit.py:409-434 | what validates under a key was there before or is the whole of a stopped world copied under that key, never a part of one |
| `Realm.SealingLeavesTwo` | conformance/audit.py:468-509 | a completed sealing leaves at most two sealed snapshots, the new one and its base among them |
| `Realm.AbandonedStays` | conformance/audit.py:897-898 | a world left in the middle of its import is never sealed, copied or served, and stays until the stop command removes it |
| `Realm.ImportsAreSealed` | conformance/audit.py:899-984 | in every run that is never cut off leaving an imported world running again or changed, what is sealed without a base is exactly the data the imported world had when it was first stopped |
| `Realm.CutOffPlaces` | conformance/audit.py:906-984 | only a run at the ready mark or at a removal can be cut off so |
| `Realm.SealsAsImportedIff` | conformance/audit.py:899-904 | for a Realm at rest whose imported world can be sealed, every later sealing without a base takes an import as it was first stopped, short of another cut, exactly when the world is not running again and unchanged since |
| `Realm.CutBeforeReady` | conformance/audit.py:961-974 | a run from an empty cache, cut off before the ready mark, after which the snapshot of the import is replaced by one of the changed world |
| `Realm.CutWhileRemoving` | conformance/audit.py:906-914 | a run from an empty cache, cut off while it removes the old Realm, after which a world with a file missing is sealed as valid |
| `Realm.CutWhileStopping` | conformance/audit.py:1376-1403 | likewise for the stop command |
| `Reference.StepKeeps` | conformance/audit.py:711-833 | every step, crash or outside event keeps the invariant of the machine |
| `Reference.ServedIsRestored` | conformance/audit.py:752-813 | in every run a caller only gets a server whose world was started on exactly the restored dump, with phase `invalid` on disk |
| `Reference.StartsOnRestored` | conformance/audit.py:798-804 | a world is about to start only with the dump restored, no world running and phase `invalid` on disk |
| `Reference.OnlyRecordedAreStopped` | conformance/audit.py:711-729 | the tool only ever stops containers whose ids the marker records |
| `Reference.RecordedIdsNeverChange` | conformance/audit.py:711-723 | recorded ids and the project stay until the marker is removed |
| `SqlDefaults.InsertDefaults` | native-host/sql_defaults.py:12-37 | the loops over statements and characters compute the rewritten query |
| `SqlDefaults.SplitIff` | native-host/sql_defaults.py:13 | a position separates two parts exactly when it holds a semicolon with as many quotes before it as in the whole query, up to an even number |
| `SqlDefaults.SplitJoins` | native-host/sql_defaults.py:13 | splitting loses nothing |
| `SqlDefaults.SplitStatements` | native-host/sql_defaults.py:13 | statements that close their strings and hold no semicolon outside them, joined by semicolons, are split into exactly those |
| `SqlDefaults.QueryIsStatements` | native-host/sql_defaults.py:13 | every query without an open string is such a list of statements |
| `SqlDefaults.ParseJoined` | native-host/sql_defaults.py:15 | text put together from pieces that fit the expression is matched as those pieces |
| `SqlDefaults.RowsExtendsGroups` | native-host/sql_defaults.py:24-35 | every group behind VALUES gets the values at its end, whatever strings and nested groups it holds, and nothing else changes |
| `SqlDefaults.BalancedIsItems` | native-host/sql_defaults.py:24-35 | every balanced text is made of such groups and text between them |
| `SqlDefaults.StatementIsExtended` | native-host/sql_defaults.py:14-36 | an INSERT into a known table that misses columns gets their names behind its columns and their values in every row, and every other statement stays |
| `SqlDefaults.QueryIsExtended` | native-host/sql_defaults.py:12-37 | a query of such statements is rewritten statement by statement, semicolons and all other text unchanged |
| `SqlDefaults.EveryQueryIsExtended` | native-host/sql_defaults.py:12-37 | which covers every query without an open string whose row lists have matching parentheses |
| `SqlDefaults.OnlyRowsIff` | native-host/sql_defaults.py:24-35 | only the rows are extended exactly when no parenthesis outside strings follows them |
| `SqlDefaults.ClauseStaysIff` | native-host/sql_defaults.py:14-36 | the same for a whole statement with a clause behind its rows |
| `SqlDefaults.ClauseIsExtended` | native-host/sql_defaults.py:24-35 | a literal statement whose `ON DUPLICATE KEY` clause is extended |
| `SqlDefaults.RewriteTwice` | native-host/sql_defaults.py:14-36 | a rewritten statement matches again and misses no column |
| `SqlDefaults.Idempotent` | native-host/sql_defaults.py:12-37 | a second application changes nothing, for every query |
| `Registry.ScanMarker` | module/build.rs:883-893 | the loop calls back at every place where the marker is found, until one stops the build |
| `Registry.MarkersAreFound` | module/build.rs:883-893 | those places are all occurrences of the marker, once each and in order |
| `Registry.OwnedIs` | module/build.rs:635-647 | a `character_owned!` written in one of the four arms is read as that arm and function |
| `Registry.KeyedIs` | module/build.rs:654-664 | a hook or an encounter with a key and a function is read as such |
| `Registry.PassIs` | module/build.rs:649-652 | a tick pass or the function of Package Characters is read as such |
| `Registry.CommandIs` | module/build.rs:666-678 | a client command is read as its three functions |
| `Registry.EveryMarkerRegisters` | module/build.rs:708-872 | in an enabled file that does not stop the build, the list of each marker and arm grows by exactly the readings at its occurrences, in order: those declining transport go into the transfer list and, in core code, into the declined one too; a Package's tables are the names its attributes give at their places; any other file adds nothing |
| `Registry.SplitItems` | module/build.rs:438-456 | the loop over brackets and commas cuts an attribute into its items |
| `Registry.EveryAttributeIsRead` | module/build.rs:427-460 | every attribute of a file is read, once and in order |
| `Registry.WrittenTables` | module/build.rs:427-478 | a file written as text and attributes gives exactly the accessors of its table attributes in order, and stops the build when one of them sets `name` |
| `Registry.PrintedAttribute` | module/build.rs:429-478 | an attribute written with either path, any gaps and any items gives exactly the names of its `accessor = NAME` items in order, and stops the build when an item sets `name` |
| `Registry.Registries.ScanFile` | module/build.rs:708-872 | scanning a file pushes its registrations onto the lists, a core marker that declines transport onto two |
| `Registry.Registries.Check` | module/build.rs:150-315 | the sorts and the comparisons of neighbours succeed exactly when movers, bindings and Package Characters have one owner each |
| `Registry.PassesIff` | module/build.rs:150-315 | claiming tables in sorted order and comparing sorted neighbours pass exactly when nothing has two owners |
| `Registry.BuildIsConsistent` | module/build.rs:150-315 | after a scan and checks that pass, transfer tables, encounter bindings and Package Characters are pairwise distinct and every declined table has a mover in the transfer list |

## Left out

- `WorldWire.Client.Drain`: `received_packet` is a parameter, a verdict on the packets handed on so far; its metrics and futures are not modelled, nor are cancellation and timeouts.
- `Schema.CanonicalSchemaIff`: JSON booleans are not numbers here, while Python finds `True` under the key `1`; typed lists that are not lists are refused.
- `Schema.CompatibleTransitive`: the check's `False` is not told from its exceptions, and sections `Types` and `Reducers` that are not lists count as not surviving.
- `Wasm.ReadLeb128`: `|=` is a sum, which it is because the bits from the shift up are still zero.
- `Wasm.DescriptionRoundTrip`: flags from 128 on in a table of references with a heap type, which no edition of the specification uses.
- `Wasm.ImportsOfEncoding`: no converse for whole modules, where misread bytes could by chance spell the pairs that were written.
- `Reload.RenamingKeepsImports`: no converse; reading past a section changes nothing if what it meets there is not renamed.
- `Srp.Logon.Challenge`: the request that is sent; a challenge whose answer breaks off or is refused raises, and what it leaves in the client then is open.
- `Srp.KeysAgree`: the proofs sent over the wire are hashes of the agreed values and are left out; the hash is any function to 20 bytes.
- `Updates.ValuesRoundTrip`: movement blocks are skipped by their fixed length, as in the source; other opcodes are only told apart by their number.
- `Teaching.Counts`: starts from the rows of the SQLite queries; the bound on Python's recursion is not modelled.
- `Signatures.SignatureLeIsOrder`: the order of streams is the one `conformance/pin_bump.py` lists, as the type `Stream` is not part of this model.
- `Writers.FileIsComplete`: jobs come from `FromResult`; other programs writing the file are not modelled, and a rename replaces the file in one step.
- `Pin.ValidateBaseline`: starts from parsed entries; the checks on JSON shapes and stream objects are in the types, and duplicate keys are refused before.
- `Pin.SignatureChanges`: the order of the report and its Markdown, `latest_tag`, `apply_pin` and the git commands around them.
- `Ratchet.Compare`: wrong JSON types; the order of a dict decides nothing and is left open.
- `Realm.ServedIsSealed`: the files of a world stand for its data, keys and tokens together, manifests for the files they digest, so hash collisions, file modes and free space are not modelled; one cache uses the store, other caches on the same store are not modelled; the acceptability of a snapshot's schema and game files is an input; handlers of exceptions may do less than in the source.
- `Realm.SealingLeavesTwo`: directories without a seal are not counted; they are never served, but also never removed.
- `Reference.ServedIsRestored`: compose keeps one container for each project and service; other people may remove or replace containers but start none in the project; the check for a server running outside, ports, waiting for services, and the label check at the first recording are not modelled.
- `SqlDefaults.InsertDefaults`: the classes `\s` and `\w` are parameters; the expression is matched part by part, which needs no backtracking because no repetition can continue into the next part.
- `Registry.Registries.ScanFile`: starts from text without comments and strings and from a table of what facades re-export; `gated`, package discovery and the printing of the generated files are left out.
- `catalogue_snapshot_key`, `snapshot_origin`, `describe`'s text, sockets, HTTP, Docker, git and cargo calls, logging and timing: read off one branch, or effects of programs that are not part of this model.
