# Verification of upbrr's state machines, rewrites and printers

This project models the parts of upbrr whose correctness is hard to see from one function, and proves what they
promise over every input, every run or every reachable state. `dafny verify dfyconfig.toml` checks all of it.

Two conventions hold throughout. What the program takes from outside (clock, randomness, cryptography, redaction, file
system faults, the path comparison) is a parameter, a value chosen by the environment, or a function about which only
its law is assumed. A character stands for one byte where lengths are limited, and for one code point where text is
scanned. A lemma whose body is its proof carries `{:induction false}`; no proof relies on automatic induction.

## What is modelled

**The OpenAPI schema builder** (`SchemaBuilder`, `SchemaMeaning`, `SchemaEncoding`, `SchemaProjection`,
`ContractObjects`). The builder is an object whose `owners`, `schemas` and `visiting` change during a depth-first walk
over a cyclic type graph. `DefinitionOf` says what a type's schema is without any builder state, and `ReachedFrom` which
types a walk meets. The walk succeeds exactly when no two reachable types share a name, and then holds exactly one
definition for each of them. `SchemaMeaning` defines validation against a schema and, from the Go types alone, which
JSON values a type permits, and `SchemaEncoding` how a Go value is encoded; the finished contract is proved to mean the
types, at any depth. Projection works on schema objects in the heap that share children. It is proved against paths of
property names, for the graphs that a finished contract makes.

**The durable named queue** (`QueueModel`, `QueueRuns`, `QueueDispatch`, `QueueOutcomes`, `NamedQueue`). The disk is a
durable content and the contents renamed into place since the last barrier; a crash between any two steps leaves one of
them. `Step` describes the driver and the crashes, the lemmas of `QueueRuns`, `QueueDispatch` and `QueueOutcomes` hold
in all behaviours, and the `Queue` object is proved to take such steps only: every method records them in the history of
its file, and `CheckpointFile.Valid` says that this history is a behaviour.

**The command line** (`ArgumentText`, `ArgumentLists`, `FlagArgs`, `FlagMeaning`, `FlagReading`, `LaunchDraft`,
`LaunchSecrets`, `EditMerge`). A flag table gives canonical names and says which flags are boolean. The meaning of a
command line is what `Parse` assigns to each flag, in order; `FlagReading` reads it a second time without splitting it.
Printing and reading an edited draft, splitting flags from paths, moving protected options and merging edits are loops
proved against functions. The lemmas say what these functions keep; `LaunchSecrets` says in terms of the sensitive
values alone what a draft may show and which launches are accepted.

**The configuration converter's YAML** (`YamlConfig`, `YamlReading`, `YamlRoundTrip`, `YamlConversion`, `YamlFile`). The
parser is a loop over lines with a stack of open containers, the printer a recursion over values of any depth.

**The provider-metadata policy** (`ProviderTaint`, `ProviderChains`). The loop that marks declarations until nothing
changes computes a least fixpoint. `ProviderChains` says what that is in terms of the names that are written in the
declarations.

**The terminal interface** (`LogWriter`, `Bridge`, `BridgeRuns`, `Presentation`, `PresentationOutcome`,
`PresentationStops`). Producers, bridge and model are objects proved against functions on snapshots of their fields;
`BridgeRuns` lets their steps interleave freely. `Presentation` has the driver goroutine, the terminal program, the
signal worker and main as separate threads. Setting the interrupt flag and the cancellation that follows it are separate
steps, as are announcing the driver, calling it, sending its result and closing its channel. `PresentationOutcome` is
about whole invocations, `PresentationStops` about interrupts, cancellation and forced ends in the runs of one call.

**Stored secrets and credentials** (`SecretRewrap`, `SecretRuns`, `ApiTokens`, `AuthStore`, `AuthRuns`,
`PasswordHash`). The walk over the secret fields, the record store and the token service are objects. Rewraps race with
other writers, and the record lemmas hold for every sequence of store operations.

## Where the code and its promise differ

Each of these is proved: an input or a run that shows it, or the exact condition under which the promise holds.

- A draft token whose only white space is a no-break space or the like is printed without quotes and comes back as
  several tokens (`ArgumentText.NoBreakSpaceSplits`). A list comes back exactly when each of its tokens does alone
  (`ArgumentLists.ListRepresentableExactly`). An unchanged draft runs the original flags all the same
  (`LaunchDraft.UnchangedDraftRunsOriginal`), but typing another option behind such a draft launches with a flag that
  neither the original nor the edit sets (`LaunchDraft.AppendedEditCanChangeMeaning`). Where all tokens are
  representable this cannot happen (`LaunchDraft.AppendedEditKeepsMeaning`).
- The converter escapes quotes and backslashes, but its parser does not undo the escapes. The round trip keeps a
  mapping exactly when no string has either character (`YamlConversion.RoundTripExactly`).
- A named slice, array, map or interface gets a schema that refers to itself
  (`SchemaBuilder.SelfReferenceExactly`). Such a schema resolves but describes nothing.
- Go encodes a nil slice or map as null and an array of bytes as numbers. Where such a container has no name of its
  own, its schema refuses both (`SchemaEncoding.NilAndByteArraysAreRefused`); every other encoding is accepted
  (`SchemaEncoding.EncodedIsAccepted`).
- An edited launch screens a flag with an empty attached value together with the token behind it. So an edit can bring
  in a flag that is sensitive with the empty value only; `LaunchSecrets.AcceptedEditAddsNoSecret` is about the others.
- The converter's lookahead takes a line with nothing but a tab for a significant one, which its parser skips. Between a
  key and its list such a line is an error (`YamlReading.TabMatters`), where comments and lines of spaces change nothing
  (`YamlReading.CommentsDoNotMatter`).
- `saveItem` leaves memory and file in disagreement exactly when a save fails before the rename while durability is
  still unconfirmed (`NamedQueue.SaveItemAgreesExactly`). The driver never gets there, because it stops after any
  failed checkpoint.
- The bridge compares revisions within an item, the model within a workflow. If the revision of a workflow went down
  from one item to the next, a snapshot could stay unshown (`BridgeRuns.StaleSnapshotCanStay`); no producer is shown
  here to lower it. While revisions only grow the model always catches up (`BridgeRuns.ModelCatchesUp`).
- A secret whose text looks like an envelope is left unencrypted by a rewrap (`SecretRuns.RewrappedExactly`).
- Hashing trims the password, verifying does not, and internal/webserver/routes.go:460 passes the password as it
  was typed. So a password verifies against its own hash exactly when it has no surrounding space
  (`PasswordHash.OwnPasswordVerifiesExactly`, and `PasswordHash.PaddedPasswordIsRefused` for one that does not).
- Opening a queue does not look at the attempts in the file. A member can end up with fewer attempts than runs exactly
  if the file gave it negative ones and it was not completed (`QueueDispatch.FallsShortExactly`).
  `QueueRuns.AttemptsCoverRuns` counts from each member's own attempts in that file.
- A string with a line boundary is printed over several lines. The file as a whole reads back as the same mapping
  exactly when no string has a quote, a backslash or a line boundary (`YamlFile.FileRoundTripExactly`).

## Model

| member | source | states |
|---|---|---|
| SchemaBuilder.BuildContract | cmd/workflowcontractgen/main.go:174-196 | the walk succeeds if and only if distinct reachable types have distinct names; then it holds the definition of every reachable type and nothing else, on cyclic graphs too |
| SchemaBuilder.Builder.EnsureNamed | cmd/workflowcontractgen/main.go:1291-1307 | finished types carry their definition and have all dependencies registered, types being visited stay marked; it fails only with a real name clash among what is reachable |
| SchemaBuilder.Builder.Definition | cmd/workflowcontractgen/main.go:1309-1413 | the schema is the one defined without builder state, and exactly its dependencies and what they reach get registered |
| SchemaBuilder.Builder.Compose | cmd/workflowcontractgen/main.go:1309-1413 | hand-written objects with inlined properties register what these refer to |
| SchemaBuilder.Builder.AddFields | cmd/workflowcontractgen/main.go:1415-1440 | the fields in order, embedded structs merged in place, tags and omitted fields respected |
| SchemaBuilder.Builder.AddField | cmd/workflowcontractgen/main.go:1415-1440 | one field extends the object under construction and registers its dependencies |
| SchemaBuilder.Builder.Inline | cmd/workflowcontractgen/main.go:1442-1479 | a named type becomes a reference and is registered, everything else is expanded in place |
| SchemaBuilder.HandWrittenExactly | cmd/workflowcontractgen/main.go:1357-1370 | a definition with limits differs from that of the struct by both bounds of one property only, one with a further requirement by that name only, sorted in |
| SchemaBuilder.SchemaNames | cmd/workflowcontractgen/main.go:1481-1494 | the operation status has a name of its own, and a type keeps a name that needs no change |
| SchemaBuilder.NameCharsExactly | cmd/workflowcontractgen/main.go:1481-1494 | a schema name loses exactly the characters that are no letters, digits or underscores, and keeps the others in order |
| SchemaMeaning.StructSchemaExactly | cmd/workflowcontractgen/main.go:1415-1440 | the schema of a struct has properties for exactly the names its encoded members can have (from the tag or the field, embedded structs flattened, unexported and "-" fields left out), each with the schema of its type, and requires exactly those that every encoding has |
| SchemaMeaning.ContractMeansTypes | cmd/workflowcontractgen/main.go:1291-1522 | the registered schema of every reachable type accepts exactly the JSON values that the Go type permits, through references and at any depth |
| SchemaEncoding.EncodedIsAccepted | cmd/workflowcontractgen/main.go:1291-1522 | every encoding of a Go value without nil slices, maps and embedded pointers and without arrays of bytes is accepted by the schema of its type |
| SchemaEncoding.NilAndByteArraysAreRefused | cmd/workflowcontractgen/main.go:1442-1479 | the null of a nil slice or map without a name of its own, and the numbers of an array of bytes, are refused |
| SchemaBuilder.RegisteredIsReached | cmd/workflowcontractgen/main.go:1291-1307 | after the walk every type reachable from the roots owns its name |
| SchemaBuilder.ClosedContainsReach | cmd/workflowcontractgen/main.go:1291-1413 | a set of types closed under dependencies contains all that is reachable from inside it |
| SchemaBuilder.ContractIgnoresRootOrder | cmd/workflowcontractgen/main.go:174-196 | the same set of roots in any order or multiplicity gives the same contract |
| SchemaBuilder.EveryRefResolves | cmd/workflowcontractgen/main.go:1442-1479 | every reference at any depth of a finished contract names one of its schemas (section 8.2.3.1 of JSON Schema Core 2020-12) and has no properties beside it |
| SchemaBuilder.SelfReferenceExactly | cmd/workflowcontractgen/main.go:1291-1479 | a named type is described by a bare reference to itself if and only if it is a container, an interface or of another kind without fields |
| SchemaBuilder.RegisteredRefIsItsOwn | cmd/workflowcontractgen/main.go:1291-1479 | a registered schema that is a reference, refers to itself |
| ContractObjects.ContractIsBuilt | cmd/workflowcontractgen/main.go:1027-1052 | the objects that hold a finished contract, however shared, are a graph that requests can be projected from: references resolve by the text after their last slash and have no properties, and a registered one names itself |
| SchemaProjection.ProjectRouteBoundField | cmd/workflowcontractgen/main.go:1027-1052 | no existing schema object changes; every path that is not towards the field leads to the same object as before, and along the path stand fresh copies that differ in the description and requirement of the field only |
| SchemaProjection.ProjectEnd | cmd/workflowcontractgen/main.go:1039-1048 | the field itself is a described copy with the same children, and its parent no longer requires it |
| SchemaProjection.ProjectedRequestSchema | cmd/workflowcontractgen/main.go:981-997 | over all bindings of a route: nothing existing changes; the root keeps description, body and children, loses exactly the omitted properties, and requires all but the omitted and the bound names; every bound field is a fresh described copy, every object on the way to one a fresh copy that only stops requiring the names bound in it, and paths off the bindings lead to the registered objects |
| SchemaProjection.OmitFields | cmd/workflowcontractgen/main.go:981-992 | the copy keeps description, body and children, and loses exactly the omitted properties and requirements |
| SchemaProjection.ChildProjects | cmd/workflowcontractgen/main.go:1027-1052 | a parent copy whose child is projected is itself projected along the longer path |
| SchemaProjection.OneMoreBinding | cmd/workflowcontractgen/main.go:993-997 | projecting a projected request along one more path keeps all that earlier bindings established, shared prefixes included, and establishes the same for the new one |
| SchemaProjection.BoundFieldIsServerSupplied | cmd/workflowcontractgen/main.go:1027-1052 | in the finished request every bound field that exists is described as supplied by the server, is a new object, and is not required by its parent, which is new too |
| QueueRuns.StepKeepsInvariant | cmd/upbrr/named_queue.go:231-336 | every step of driver, disk and crash keeps: survivors are acceptable, attempts cover callback runs, memory is what is being saved |
| QueueRuns.AttemptsCoverRuns | cmd/upbrr/named_queue.go:221-336 | over any number of sessions and crashes, a member whose callback ran is still stored, is not pending, and has an attempt for every run besides those it had in the file that the first session found |
| QueueDispatch.FallsShortExactly | cmd/upbrr/named_queue.go:172-191 | a member can get fewer attempts than runs if and only if its file gave it negative ones and it is not completed; a run is constructed for every such member, whatever else the queue holds |
| QueueDispatch.CompletedNeverRuns | cmd/upbrr/named_queue.go:208-229 | a member that is completed in the first file stays so wherever it is stored, and its callback never runs, with retry too |
| QueueRuns.EverySurvivorReopens | cmd/upbrr/named_queue.go:172-191 | whatever a crash leaves after a checkpoint has been durable keeps its root and passes validation when the queue is opened again under any equivalent spelling of it |
| QueueRuns.MemoryIsDurableBetweenSaves | cmd/upbrr/named_queue.go:231-336 | whenever the driver is not saving, its memory is the checkpoint and the checkpoint is durable |
| QueueRuns.DurableProgressIsKept | cmd/upbrr/named_queue.go:68-170 | once durable, members are never removed or reordered, attempts never fall, nothing becomes pending again, and confirmed uploads only grow, in every later survivor |
| QueueDispatch.DispatchedAtMostOnce | cmd/upbrr/main.go:1511-1552 | without retry no member's callback runs twice, over all sessions and crashes |
| QueueDispatch.OncePerSession | cmd/upbrr/main.go:1511-1552 | within any one session, with retry too, no member's callback runs twice |
| QueueRuns.MergedKeeps | cmd/upbrr/named_queue.go:68-170 | a refresh leaves the members that are there in place and keeps their paths distinct |
| QueueRuns.MergedAppendsFresh | cmd/upbrr/named_queue.go:133-148 | all that a refresh appends are discovered paths, pending and without attempts |
| QueueRuns.MergedFindsAll | cmd/upbrr/named_queue.go:133-148 | after a refresh every discovered path is that of a member, up to equivalence |
| QueueOutcomes.StatusTellsLastAttempt | cmd/upbrr/named_queue.go:231-271 | over all sessions and crashes, a survivor has a member as completed, failed or skipped only if the first file had it so or the last attempt that ended for it ended that way |
| QueueOutcomes.RetrySelectsTheRest | cmd/upbrr/named_queue.go:221-229 | an opening with retry and no limit offers a member if and only if it is not completed; so every member whose last attempt did not succeed, and which the first file did not have as completed, is offered again |
| QueueOutcomes.SelectionExactly | cmd/upbrr/named_queue.go:221-229 | a session takes the selected members in file order up to its limit: the pending ones and, with retry, all that are neither completed nor running |
| QueueOutcomes.OpenedExactly | cmd/upbrr/named_queue.go:68-170 | an opened queue has the members of the file in place, none of them running, and behind them the new discovered paths, as fresh members, exactly if there was no file or a refresh is asked for |
| NamedQueue.FailedPathsExactly | cmd/upbrr/main.go:468-538 | the paths reported as failed are exactly those whose members end as failed or interrupted |
| NamedQueue.SaveItemAgreesExactly | cmd/upbrr/named_queue.go:275-281 | after a save, failed or not, file and memory agree unless the save failed before the rename with durability already unconfirmed |
| NamedQueue.FindIndex | cmd/upbrr/named_queue.go:193-206 | the first member with an equivalent path, or none |
| NamedQueue.Validate | cmd/upbrr/named_queue.go:172-191 | accepts exactly version, name and root as expected with distinct absolute paths and known statuses |
| NamedQueue.Queue.Save | cmd/upbrr/named_queue.go:302-336 | what each fault leaves on disk and in the unconfirmed mark; success makes the inventory durable |
| NamedQueue.Queue.SaveItem | cmd/upbrr/named_queue.go:275-281 | a failure before the rename rolls the member back, one after it does not |
| NamedQueue.Queue.Start | cmd/upbrr/named_queue.go:231-245 | one more attempt, recorded and durable before the callback may run; on any failure the process ends with file and memory in agreement |
| NamedQueue.Queue.Finish | cmd/upbrr/named_queue.go:247-271 | the status tells how the attempt ended (completed if and only if it reported that without an error), the confirmed uploads are the union of old and new ones, durable or the process ends; file and memory agree in all cases |
| NamedQueue.OpenQueue | cmd/upbrr/named_queue.go:68-170 | opens exactly acceptable inventories, reports running members as interrupted, and starts with a durable checkpoint |
| NamedQueue.ProcessItem | cmd/upbrr/main.go:1511-1552 | start, callback, finish: the callback runs exactly if the item is a member, not canceled, and its first checkpoint is durable; the process goes on exactly if the second one is durable too, and then the member's status tells how the attempt ended; memory, file and runs are stated in every case |
| NamedQueue.ProcessItems | cmd/upbrr/main.go:468-538 | items are processed in order up to the first one that is canceled or has a failed checkpoint; finished exactly if there is none; the callback runs once for each dispatched member and for no other, the failed ones are collected, and file and memory agree in every case |
| ArgumentText.Join | cmd/upbrr/tui_launcher.go:103-116 | the loop prints exactly the quoted tokens |
| ArgumentText.Split | cmd/upbrr/cli_interaction_helpers.go:75-117 | the loop is the character automaton over the whole text, unterminated quotes being errors |
| ArgumentText.JoinThenSplit | cmd/upbrr/tui_launcher.go:103-116 | tokenizing a printed list of representable tokens gives the list back |
| ArgumentText.RepresentableExactly | cmd/upbrr/cli_interaction_helpers.go:75-117 | a single token comes back if and only if it is representable, a condition on its quote characters and white space |
| ArgumentText.OrdinaryTokensAreRepresentable | cmd/upbrr/tui_launcher.go:103-116 | tokens without both quote kinds and without unusual white space are representable |
| ArgumentText.NoBreakSpaceSplits | cmd/upbrr/cli_interaction_helpers.go:75-117 | a token with a no-break space comes back as two |
| ArgumentLists.ListRepresentableExactly | cmd/upbrr/tui_launcher.go:103-116 | a whole list comes back if and only if every one of its tokens is representable; no token of a list can repair another one |
| ArgumentLists.AllShaped | cmd/upbrr/cli_interaction_helpers.go:75-117 | every token the tokenizer produces gets its white space before the first "=" from one opening quoted part |
| FlagArgs.PartitionUploadArgs | cmd/upbrr/cli_options.go:605-647 | the scanner computes the recursive split of flags, values and paths, lookahead included |
| FlagArgs.NormalizedAgain | cmd/upbrr/cli_options.go:710-733 | normalizing a flag spelling twice is normalizing it once |
| FlagArgs.NormalFormExactly | cmd/upbrr/cli_options.go:605-680 | flags, "--", paths is a normal form of its own result if and only if no value flag lacks its value and no path hides behind a help flag |
| FlagArgs.PartitionComplete | cmd/upbrr/cli_options.go:605-647 | a complete flag vector passes through unchanged when nothing or an argument with a dash follows |
| FlagArgs.PartitionLacking | cmd/upbrr/cli_options.go:605-647 | a trailing value flag takes the following argument with a dash, even "--", as its value, and the split goes on behind it |
| FlagArgs.PartitionEndsWell | cmd/upbrr/cli_options.go:605-680 | every resulting flag vector is complete, ends at help or lacks one last value; the rewritten -hc included |
| FlagArgs.TrimParensExactly | cmd/upbrr/cli_options.go:672-678 | the parentheses around a coverage go, those inside stay |
| FlagReading.SplitThenParseIsRead | cmd/upbrr/cli_options.go:605-733 | for every command line, splitting and parsing give the same values to the same flags in the same order, and the same paths, as reading it directly, or both fail: what is behind a bare or attached -hc as a boolean, as languages with coverage, or as a path, included |
| FlagMeaning.ParseGroups | cmd/upbrr/cli_options.go:605-647 | groups parse if and only if each of them does, whatever their order |
| FlagMeaning.ParsedIsComplete | cmd/upbrr/cli_options.go:605-647 | a vector that comes out of the split and parses is complete |
| FlagMeaning.ValuesOfOccurrences | cmd/upbrr/cli_options.go:593-603 | the values assigned to a flag are those of its occurrences under any spelling, in order |
| LaunchDraft.FindProtected | cmd/upbrr/tui_launcher.go:62-101 | the first pass finds the canonical names of all protected options |
| LaunchDraft.SplitProtected | cmd/upbrr/tui_launcher.go:62-101 | the second pass separates all occurrences and aliases of protected options from the others, both in original order |
| LaunchDraft.MovingKeepsMeaning | cmd/upbrr/tui_launcher.go:62-101 | moving all occurrences of any set of flags behind the others keeps every flag's ordered values |
| LaunchDraft.ValidateLaunch | cmd/upbrr/tui_launcher.go:121-200 | an unchanged draft runs the original flags; an edited one is tokenized, split, screened for sensitive and protected options, joined with the kept ones, and must keep presentation, interaction mode and command; the result must be interactive, with one source for a queue and for corrections of tracks |
| LaunchDraft.UnchangedDraftRunsOriginal | cmd/upbrr/tui_launcher.go:121-200 | with an unchanged draft the launched vector splits into the original flags, unmoved, and the given sources |
| LaunchDraft.AcceptedEditMeans | cmd/upbrr/tui_launcher.go:121-200 | for every accepted edit: the launched vector splits into the edited flags, the protected ones and the given sources, parses, and gives every protected flag its original values and every other flag those of the edited text |
| LaunchDraft.AppendedEditKeepsMeaning | cmd/upbrr/tui_launcher.go:62-200 | if draft and appended tokens are representable, an accepted edit that appends them gives every flag its original values followed by the appended ones; what they do not name is as it was |
| LaunchDraft.AppendedEditKeepsOthers | cmd/upbrr/tui_launcher.go:62-200 | whatever is appended, a value for a final -hc included, flags that neither the last flag of the draft nor the appended tokens assign keep their original values |
| LaunchDraft.PartMeaning | cmd/upbrr/tui_launcher.go:62-101 | the tokens of some flags alone parse and assign these flags all their values, in order, and no others |
| LaunchDraft.AppendedEditCanChangeMeaning | cmd/upbrr/tui_launcher.go:103-116 | an accepted edit that appends one option to a draft with a no-break space launches with a flag that neither the original nor the appended option sets |
| LaunchSecrets.DraftShowsNoSecret | cmd/upbrr/tui_launcher.go:50-116 | no option of the printed draft is sensitive with its value, and none has a value with both kinds of quotes |
| LaunchSecrets.SecretsStayOpaque | cmd/upbrr/tui_launcher.go:62-101 | where one occurrence of a flag holds such a value, all its occurrences under any spelling, with their values and in order, are in the opaque part and none is in the draft |
| LaunchSecrets.AcceptedEditKeepsSecrets | cmd/upbrr/tui_launcher.go:121-200 | whatever the text is edited to, an accepted launch gives every such flag exactly its original values |
| LaunchSecrets.AcceptedEditAddsNoSecret | cmd/upbrr/tui_launcher.go:121-200 | an accepted edit has no flag that is sensitive with the nonempty value it is written with, and none that is sensitive with every value |
| LaunchSecrets.LaunchesExactly | cmd/upbrr/tui_launcher.go:121-200 | a launch is accepted if and only if it has sources, none blank, the edited text is showable, splits into flags only, parses and brings in neither a sensitive token nor a flag with a secret, presentation, interaction and command stay, and the options suit the number of sources; what it runs is stated too |
| EditMerge.ValidateOccurrences | cmd/upbrr/cli_options.go:1287-1310 | accepts exactly vectors in which no correction flag that must be unique occurs twice |
| EditMerge.MergeEditArgs | cmd/upbrr/cli_options.go:1312-1363 | kept flags, then the edit, then "--" and the paths; an edit that does not parse, repeats a correction or is refused by normalization is an error |
| EditMerge.MergedSplits | cmd/upbrr/cli_options.go:1312-1363 | the merged arguments split again into exactly these parts, with the current paths |
| EditMerge.MergedOccurrences | cmd/upbrr/cli_options.go:1312-1363 | a flag that the edit changes or resets has exactly the edit's occurrences, any other flag all its current ones in order, and resets all current ones except those of choices that the edit makes |
| EditMerge.MergedParses | cmd/upbrr/cli_options.go:1312-1363 | if the current arguments parse, so do the merged ones, with the edit's values for every flag it changes and the current values for all others |
| EditMerge.MergedHasNoDuplicates | cmd/upbrr/cli_options.go:1287-1363 | merging introduces no duplicate correction; an edit with one is refused |
| EditMerge.ResetsAndChoices | cmd/upbrr/cli_options.go:1312-1363 | where the edit resets a provider or the category no current choice of it is left, and where it makes the choice no current reset of it is left |
| EditMerge.ChangedExactly | cmd/upbrr/cli_options.go:1312-1328 | an edit changes exactly the flags it gives, those that normalization sets with them, and the choices its resets name |
| EditMerge.MergesExactly | cmd/upbrr/cli_options.go:1287-1316 | a merge fails if and only if the edit does not parse, its values are refused together, or it gives a unique correction twice |
| YamlConfig.NextSignificantLine | scripts/convert_ua_config.py:217-224 | the next line that is neither blank nor a comment, stripped on the right |
| YamlConfig.ParseSimpleYaml | scripts/convert_ua_config.py:227-281 | the loop with its stack is the line-by-line parse, errors included |
| YamlReading.ScalarExactly | scripts/convert_ua_config.py:186-214 | which value a text stands for: brackets, words, decimal numbers, floats, quoted texts of either kind and all others as themselves; the cases exclude each other |
| YamlReading.CommentsDoNotMatter | scripts/convert_ua_config.py:217-281 | comments and lines of spaces can be put anywhere, between a key and its list too, without changing what a file means |
| YamlReading.TabMatters | scripts/convert_ua_config.py:217-281 | a line with a tab between a key and its list turns the list into an error |
| YamlRoundTrip.EntriesParse | scripts/convert_ua_config.py:227-281 | the printed entries of a mapping, at any depth and before any shallower rest, parse into the container on top |
| YamlRoundTrip.ScalarsParse | scripts/convert_ua_config.py:186-214 | a printed integer, boolean or string parses to itself, strings with their escapes |
| YamlConversion.DumpThenParse | scripts/convert_ua_config.py:441-468 | parsing a dumped mapping gives it back, sections first, every string leaf in escaped form |
| YamlConversion.ReorderedIsSameMapping | scripts/convert_ua_config.py:441-468 | printing sections first does not change what any key maps to |
| YamlConversion.EscapedExactly | scripts/convert_ua_config.py:424-426 | a value is unchanged by escaping if and only if no string in it has a quote or a backslash |
| YamlConversion.RoundTripExactly | scripts/convert_ua_config.py:227-468 | the parsed dump is the same mapping if and only if no string leaf has a quote or a backslash |
| YamlConversion.FileRoundTrip | scripts/convert_ua_config.py:500-505 | the same through the written text, for keys and strings without line boundaries |
| YamlFile.FileRoundTripExactly | scripts/convert_ua_config.py:227-505 | the written file reads back as the same mapping if and only if no string has a quote, a backslash or a line boundary and no key a line boundary |
| YamlFile.ParseUnbroken | scripts/convert_ua_config.py:227-281 | whatever lines are parsed, no key and no string of the result has a line boundary |
| ProviderTaint.FindGuarded | internal/architecturepolicy/provider_metadata.go:160-198 | the loop ends, and marks exactly the declarations from which a chain of references through value-returning declarations leads to provider metadata |
| ProviderTaint.ClosedContainsGuarded | internal/architecturepolicy/provider_metadata.go:165-198 | any set of symbols that follows from itself contains all that guarded declarations export |
| ProviderTaint.GuardedIgnoresOrder | internal/architecturepolicy/provider_metadata.go:165-198 | the outcome does not depend on the order of the declarations |
| ProviderTaint.Verify | internal/architecturepolicy/provider_metadata.go:160-220 | reports, in order, exactly the guarded or reviewed declarations without a current, reasoned review |
| ProviderChains.ReportedExactly | internal/architecturepolicy/provider_metadata.go:139-262 | a declaration is reported if and only if its review is stale or without a reason or, where it has none, there is a chain of declarations from it to one that writes a name of provider metadata, each naming, in its own directory or through an import, what the next one offers by a value |
| LogWriter.Writer.Write | cmd/upbrr/tui_bridge.go:371-398 | one chunk takes the writer through its lines |
| LogWriter.ChunkingDoesNotMatter | cmd/upbrr/tui_bridge.go:371-398 | any chunking of a stream appends the same lines and leaves the same state; a line is replaced by the marker exactly when its whole length exceeds 4096 |
| LogWriter.StreamIsLogged | cmd/upbrr/tui_bridge.go:371-398 | lines ended by line feeds or carriage returns, in whatever chunks they arrive, are logged in order, each whole or as a placeholder if it is longer than 4096 |
| LogWriter.LinesConcat | cmd/upbrr/tui_bridge.go:371-398 | going on with a stream only extends its unfinished line |
| Bridge.LinesOf | cmd/upbrr/tui_bridge.go:202-229 | no line that a message adds is blank or longer than 4096, redaction and truncation included |
| Bridge.MessageLines | cmd/upbrr/tui_bridge.go:202-229 | a message is logged line by line; the redaction sees each line whole, or a placeholder where it is too long and not sanitized, and only what it returns is cut; blank results are left out |
| Bridge.LoggedIsRedacted | cmd/upbrr/tui_bridge.go:202-229 | whatever a message adds to the log is what the redaction returned for one of its lines, cut to the limit |
| Bridge.Producer.AppendLog | cmd/upbrr/tui_bridge.go:202-237 | the pending lines are the newest 1000 of what was there and what was added; every line pushed out is counted |
| Bridge.Producer.Progress | cmd/upbrr/tui_bridge.go:149-172 | only current counts are taken, coalesced by lane and attempt, the oldest making room |
| Bridge.Producer.Publish | cmd/upbrr/tui_bridge.go:103-145 | stale snapshots are ignored; leaving an item keeps its bounded result and counts it |
| Bridge.Producer.NextEpoch | cmd/upbrr/tui_workflow.go:446-462 | the new epoch forgets all counts and republishes the latest snapshot |
| Bridge.Producer.Drain | cmd/upbrr/tui_bridge.go:297-309 | an update takes the pending snapshot, lines and aggregate count, and copies the telemetry |
| Bridge.Model.Receive | cmd/upbrr/tui_model.go:186-231 | the newest 2000 lines stay, the others are counted as evicted; only snapshots and counts that do not go back are shown |
| Bridge.ReceivedExactly | cmd/upbrr/tui_model.go:186-231 | the model shows a snapshot unless it goes back in lifetime, item or, within a workflow, revision; counts change the shown stage and are kept exactly if they are about what is shown |
| Bridge.BufferSizes | cmd/upbrr/tui_bridge.go:103-237 | no line, count or result is dropped before 1000 lines are pending, 2000 retained, 256 counts or 128 results kept |
| BridgeRuns.NoLineGoesUncounted | cmd/upbrr/tui_bridge.go:202-309 | over any interleaving, lines ever appended = dropped + pending + in flight + evicted + retained, kept lines are in order and unchanged, all bounds hold, and without drops nothing is missing |
| BridgeRuns.OnlyAppendedIsShown | cmd/upbrr/tui_bridge.go:202-309 | in every run each line that the model shows was appended with this level and text |
| BridgeRuns.RunKeepsInvariant | cmd/upbrr/tui_model.go:186-229 | logs, telemetry (current epoch, distinct keys, at most 256), results and the order of snapshots, in every run |
| BridgeRuns.StepKeepsTelemetry | cmd/upbrr/tui_bridge.go:149-172 | buffered telemetry is of the current epoch with distinct keys; what the model keeps is never older than its view |
| BridgeRuns.StepKeepsResults | cmd/upbrr/tui_bridge.go:103-145 | the retained results are those of the last items left, numbered after the dropped ones, with exact finished and failed counts |
| BridgeRuns.ShownExactly | cmd/upbrr/tui_model.go:186-200 | a delivered snapshot is shown if and only if it does not go back within the shown workflow |
| BridgeRuns.ModelCatchesUp | cmd/upbrr/tui_model.go:186-200 | while revisions only grow, the model shows the latest snapshot as soon as none is pending or in flight |
| BridgeRuns.StaleSnapshotCanStay | cmd/upbrr/tui_bridge.go:103-112 | a run, opening snapshots included, in which the revision of a workflow goes down from one item to the next and the latest snapshot is refused and stays unshown |
| Presentation.NextKeepsSound | cmd/upbrr/tui_runtime.go:80-369 | each step of driver, terminal, signal worker and main keeps the invariant of a call |
| Presentation.CalledAtMostOnce | cmd/upbrr/tui_runtime.go:254-311 | over all interleavings the driver is called at most once per invocation, the plain fallback included, and from the terminal only when it is ready and the launch validated |
| Presentation.FallbackOnlyBeforeTheCall | cmd/upbrr/tui_runtime.go:355-369 | a fallback exists only if the first goroutine has ended without calling, unforced and uninterrupted, and this stays so |
| Presentation.NoSilentEnd | cmd/upbrr/tui_runtime.go:312-390 | the command ends after its driver or reports an unconfirmed shutdown, a forced end is always reported so, and the exit status tells every interrupt |
| PresentationOutcome.DriverRunsExactlyOnce | cmd/upbrr/tui_runtime.go:80-390 | an invocation that ends confirmed and uninterrupted, and whose parent has not ended, has called its driver exactly once, from the terminal or after falling back, unless a terminal that was demanded failed or its output failed unnoticed |
| PresentationOutcome.PlainOnlyAfterFailure | cmd/upbrr/tui_runtime.go:355-369 | there is a plain call only where a terminal was tried, not demanded, and its program failed |
| PresentationOutcome.NoPlainAfterParent | cmd/upbrr/tui_runtime.go:34-40 | once the parent has ended no plain call begins any more |
| PresentationStops.InterruptedExactly | cmd/upbrr/tui_runtime.go:58-222 | over all runs, an interrupt is remembered if and only if the user interrupted: by the cancel key, while a password was read, or by a signal that did not merely close a finished dashboard |
| PresentationStops.ExitTellsInterrupts | cmd/upbrr/tui_runtime.go:312-390 | the exit status of a confirmed end tells exactly whether the user has interrupted |
| PresentationStops.ForcedExactly | cmd/upbrr/tui_runtime.go:58-248 | over all runs, waiting is given up if and only if the cancel key came after an interrupt, a signal after the worker had seen the cancellation, or the deadline passed |
| PresentationStops.SecondSignalForces | cmd/upbrr/tui_runtime.go:205-222 | a worker that takes a signal after it has seen the work canceled cannot go on without giving up |
| PresentationStops.DeadlineFreesMain | cmd/upbrr/tui_runtime.go:223-338 | in every reachable state in which main waits for canceled work and the worker watches, the deadline alone lets main go on, with an unconfirmed result, whatever the driver does |
| PresentationStops.CauseExactly | cmd/upbrr/tui_runtime.go:56-63 | over all runs, work is canceled if and only if its parent ends, the user's interrupt gets to canceling, the output or the terminal program fails or the deadline passes, and the cause is that of the first of these |
| PresentationStops.WorkerWatches | cmd/upbrr/tui_runtime.go:184-249 | in production the signal worker watches until main asks it to stop, waiting is given up, or the signals end for it |
| PresentationStops.ShutdownIsWatched | cmd/upbrr/tui_runtime.go:229-242 | from the start of a shutdown on the deadline runs until the worker sees that the cleanup is complete |
| PresentationStops.LostTerminalCancels | cmd/upbrr/tui_runtime.go:108-112 | in every run, a terminal that has ended, by a failed output for one, has canceled the work |
| PresentationStops.CanceledIsNeverCalled | cmd/upbrr/tui_runtime.go:254-311 | work that is canceled, or whose terminal has ended, before the goroutine has checked for it is never started |
| PresentationStops.FailureCancelsWork | cmd/upbrr/tui_runtime.go:294-333 | once a terminal program has failed and main has seen it, the work is canceled, and a driver that has not passed its checks is never called |
| PresentationStops.CanceledCanEnd | cmd/upbrr/tui_runtime.go:254-390 | from every state of a call whose work is canceled some run leads to its end: no set of threads waits for each other |
| PresentationStops.CallsAreRuns | cmd/upbrr/tui_runtime.go:355-369 | both calls of every invocation are reached by such runs |
| SecretRewrap.Settings.WalkSecretFields | internal/config/secrets.go:378-496 | every secret field is visited and replaced by what the visit returns, everything else stays; it fails if and only if some visit fails |
| SecretRewrap.VisitEntries | internal/config/secrets.go:436-495 | the entries of a map are visited in the order of their names and written back |
| SecretRuns.CleanHelpers | internal/config/secrets.go:304-317 | exactly the trimmed, non-blank helpers, each once |
| SecretRuns.CleaningKeepsOpening | internal/config/secrets.go:304-338 | order, repetition and surrounding space of the helpers do not change what an envelope opens to |
| SecretRuns.MarksAndHelpers | internal/config/secrets.go:511-621 | an envelope is what begins with its mark; a helper of fewer than eight characters neither seals nor opens anything, and changes nothing for the others |
| SecretRuns.DecryptSecrets | internal/config/secrets.go:283-347 | succeeds if and only if every envelope opens under some helper, and then every envelope is replaced by its text |
| SecretRuns.Repository.RewrapSecrets | internal/config/secrets.go:234-277 | succeeds if and only if every secret can be decrypted and sealed; otherwise the stored configuration is untouched |
| SecretRuns.RewrapSucceedsExactly | internal/config/secrets.go:234-277 | one secret is rewrapped if and only if its envelope opens under a source helper and sealing works |
| SecretRuns.RewrappedExactly | internal/config/secrets.go:150-175 | from plain text or any old envelope, a non-blank secret becomes an envelope of the same trimmed text for the new helper, unless and only unless that text looks like an envelope |
| SecretRuns.RewrapKeepsSecrets | internal/config/secrets.go:234-277 | every secret of a configuration stands for the same text afterwards, and everything else is the same |
| SecretRuns.NoWriteIsLost | internal/services/db/config_compare.go:18-24 | however rewraps and other writers interleave, the stored secrets and settings are those of the last configuration activated |
| SecretRuns.SomeCipherIsLawful | internal/config/secrets.go:553-621 | the laws assumed of the cipher can be met |
| ApiTokens.NormalizeScopes | internal/apitoken/service.go:129-148 | the loops accept exactly supported scopes and return them once, in display order |
| ApiTokens.NormalizedIsStable | internal/apitoken/service.go:129-148 | normalized scopes are exactly the wanted ones, never empty, and normalizing again changes nothing |
| AuthStore.Store.InitializeBrowsePolicy | internal/authmaterial/store.go:241-269 | sets the policy once, in the pending target too |
| AuthStore.Store.BeginPendingUpgrade | internal/authmaterial/store.go:291-313 | records a target without keys, only if nothing changed since the caller looked |
| AuthStore.Store.FinalizePendingUpgrade | internal/authmaterial/store.go:340-361 | the target takes over with the current keys and the original time of creation |
| AuthStore.Store.CreateAPIToken | internal/authmaterial/store.go:391-418 | appends an active key unless its id or hash exists |
| AuthStore.Store.RevokeAPIToken | internal/authmaterial/store.go:467-493 | revokes the active key with the id, if there is one, and says so |
| AuthStore.Store.ListAPITokens | internal/authmaterial/store.go:421-437 | the metadata of all keys, newest first |
| AuthStore.Store.FindActiveAPITokenByHash | internal/authmaterial/store.go:440-464 | the first active key with the digest; a hash that does not decode is an error |
| AuthRuns.RunKeepsKeys | internal/authmaterial/store.go:375-493 | in every run of store operations the key list only grows, ids and hashes stay unique, a revoked key never changes again, and the time of creation stays |
| AuthRuns.UpgradeTakesOver | internal/authmaterial/store.go:291-361 | whatever happens between its start and its end, a finalized upgrade brings the user, password, seed and export setting it was begun with, and its browse policy unless one was chosen meanwhile; the keys and the time of creation stay |
| AuthRuns.PolicyIsSetOnce | internal/authmaterial/store.go:241-269 | in every run without an update of the whole record or a finalized upgrade, a browse policy stays as it was first set |
| AuthRuns.FirstPolicyCounts | internal/authmaterial/store.go:241-269 | the first policy chosen is stored: a trimmed root, or none exactly for unrestricted browsing |
| AuthRuns.StaleChangesAreRefused | internal/authmaterial/store.go:226-313 | after a password change, neither another change of the old password nor an upgrade of the old settings goes through |
| AuthRuns.RevokesOnlyItsKey | internal/authmaterial/store.go:467-493 | revoking stamps the one active key with the id and leaves every other key as it is |
| AuthRuns.UnusableExactly | internal/authmaterial/store.go:375-464 | where hashes decode and stored scopes are supported, authentication is an error if and only if the record has no user or no password; such a record issues and revokes nothing |
| AuthRuns.AcceptableExactly | internal/apitoken/service.go:151-203 | a token is issued exactly for a nonblank name and an owner of at most 100 characters without control characters and for supported scopes, with the trimmed name and the owner or "default" |
| AuthRuns.KeysComeFromOperations | internal/authmaterial/store.go:391-418 | every key a run ends with was there before or was created by one of its operations |
| AuthRuns.RunFromBootstrap | internal/authmaterial/store.go:198-222 | from its bootstrap on, in every run, a record has unique and encoded keys, each created by one of the operations, and its original time of creation |
| AuthRuns.FoundExactly | internal/authmaterial/store.go:440-464 | among unique encoded hashes a digest is found exactly if its key is active |
| AuthRuns.Service.Create | internal/apitoken/service.go:151-203 | refuses exactly unreadable names, owners and scopes; otherwise stores the digest of the returned text with normalized scopes |
| AuthRuns.Service.Authenticate | internal/apitoken/service.go:240-260 | nobody bears a short token or an unknown or revoked digest; an unusable record, a broken hash before the key and unsupported stored scopes are errors |
| AuthRuns.AuthenticatesExactly | internal/apitoken/service.go:240-260 | after any run a created token authenticates, with its owner and normalized scopes, if and only if the record is usable and the token not revoked |
| AuthRuns.RevokedNeverAuthenticates | internal/authmaterial/store.go:391-493 | once revoked, a token never authenticates again, whatever operations follow |
| PasswordHash.ParseAuthHashConfig | internal/authmaterial/store.go:678-721 | the loop over the fields computes the parsed costs |
| PasswordHash.ConfigExactly | internal/authmaterial/store.go:678-721 | a text is accepted, with these costs, if and only if it gives each of m, t and p exactly once, positive and in range, in any order |
| PasswordHash.HashRoundTrip | internal/authmaterial/store.go:586-594 | parsing a written hash returns the salt, the digest text and the costs (neither base64 alphabet of sections 4 and 5 of RFC 4648 has the separators) |
| PasswordHash.HashPassword | internal/authmaterial/store.go:569-595 | fails exactly for passwords that are too short when trimmed; a written hash parses to the salt, the digest of the trimmed password and the current costs, and admits the trimmed password |
| PasswordHash.LegacyVerifies | internal/authmaterial/store.go:605-676 | a hash of three parts is checked with one pass, 64 MiB and four lanes, and reported as legacy |
| PasswordHash.OnlyHashesVerify | internal/authmaterial/store.go:605-721 | a text that verifies, or is legacy, begins with the name of the algorithm and has three parts, or five with a positive version and valid costs |
| PasswordHash.VerifiesExactly | internal/authmaterial/store.go:605-629 | a password verifies against a written hash if and only if its digest is that of the trimmed original, and such a hash is never taken for a legacy one |
| PasswordHash.OwnPasswordVerifiesExactly | internal/authmaterial/store.go:569-629 | a password verifies against its own hash if and only if it has no surrounding space, for any digest that tells it from its trimmed form |
| PasswordHash.TrimmedPasswordVerifies | internal/authmaterial/store.go:569-629 | a password without surrounding space verifies against its own hash, whatever the digest function |
| PasswordHash.PaddedPasswordIsRefused | internal/authmaterial/store.go:569-629 | a password with a leading space that is hashed and then refused |

## Left out

- API error schema and deprecation marks: set after the walk without looking at types; a missing `decoderThreads` property is skipped instead of failing.
- JSON tags: the builder model gets the parsed name and options of a field; splitting the tag text is left out.
- SchemaMeaning.ContractMeansTypes: for types without a schema written by hand, enumerations of strings aside, and where the builder and Go read tags alike: no embedded struct of an unexported type, no tag "-,", and no two members of one name, which Go resolves by depth.
- SchemaEncoding.EncodedIsAccepted: which members `omitempty` and `omitzero` drop is arbitrary; the ",string" option and custom marshalers other than those of times and raw JSON are left out.
- Termination of the builder: needs expansion in place to be acyclic, which is more than acyclic embedding (an embedded struct with a slice of itself does not end); `WellFormed` asks for exactly that.
- Route tables and `routeBodyBindings`: the omitted names and bindings of a route are parameters of `ProjectedRequestSchema`.
- SchemaProjection.ProjectedRequestSchema: does not say what stands at a path where one binding ends and another goes on; no route has such a pair.
- SchemaProjection.ProjectRouteBoundField: asks for a graph as the builder leaves it, which `ContractObjects.ContractIsBuilt` describes; on other graphs the code dereferences missing schemas or resolves one reference only. The descriptions set on schemas after the walk are part of `body`.
- File locks, temporary file names and permissions of the queue: one session at a time is assumed, and every fault is one of three places where a save stops.
- Queue attempts are unbounded integers, negative ones included; their overflow is left out.
- Redaction, sensitive options and known languages: arbitrary predicates and functions.
- pflag: modelled as assigning each flag group in turn over the flag table; its error texts, shorthand clusters and help output are left out.
- LaunchDraft.AppendedEditKeepsMeaning: not for a draft that ends in a bare -hc when a value is appended, which then belongs to the -hc; `LaunchDraft.AppendedEditKeepsOthers` covers that case for all other flags.
- LaunchDraft.ValidateLaunch: how assigned values become options, and which of them are accepted, is an arbitrary function.
- The text area of the terminal interface: the edited text is taken as it arrives in the launch request.
- BridgeRuns.StaleSnapshotCanStay: is a run of the bridge and the model; whether a workflow's revision can go down is a matter of producers that are not modelled.
- LaunchSecrets.AcceptedEditAddsNoSecret: not for a flag with an empty value, as said above.
- EditMerge.MergedOccurrences: for current arguments whose flags are complete and an edit of flags only, as the caller ensures.
- YAML floats, the `None` scalar and digits outside ASCII.
- YAML containers filled through references: modelled as a stack of open containers that are attached when they are closed.
- Questions, launch results, artifacts, panels and the summary text of the terminal interface; the clock of log lines; counters are unbounded.
- Bridge.Producer.Publish: takes a snapshot that is already redacted, with its lanes already printed.
- Presentation: panics, the failure to open a cancelable terminal, the settling time after an end of input on Windows and the restoration of the console; bubbletea calls back only while main runs the program.
- Cloning a configuration through JSON: taken as the identity, so that dropping a proxy client's unused credentials and trimming client fields are not modelled.
- SecretRuns.Repository.RewrapSecrets: has no writer between its load and its save; these races are in `NoWriteIsLost`, where the comparison of snapshots is equality of configurations.
- Argon2id, AES-GCM, SHA-256, base64 and randomness: functions and values with the laws stated; an envelope opens to at most one text.
- AuthStore.Store: one handle; canceled contexts, unreadable files and failed writes are one flag, `saves`. Stage names are already recognized ones.
- Corrections, trackers, image hosts, torrent clients, media services and BBCode cleanup are not part of this model.
