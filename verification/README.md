# Verified models of OpenClaw's scripts and extensions

OpenClaw is a TypeScript assistant platform. This project models a dozen of its self-contained algorithms and
protocols in Dafny and proves what each of them promises, for all inputs, runs and interleavings. `dafny verify
dfyconfig.toml` checks everything.

| Files | Component |
|---|---|
| `Paths`, `Reachability`, `ImportGraph`, `CommonAncestor`, `IsolatedCopy`, `IsolatedRootName` | the channel-config loader, which collects the relative import graph of a module, finds the common ancestor of its files and copies them to a fresh directory |
| `NotifyState`, `NotifyTick`, `NotifyRuns` | the pairing notifier: a persisted list of subscribers and remembered request ids, polls with arbitrary send outcomes, and on/off/once commands |
| `BedrockDiscovery`, `SingleFlight` | Bedrock model discovery behind a shared cache that holds lists and promises |
| `Utf16` | slicing and truncating UTF-16 text at code-point boundaries |
| `BlockRewriter` | replacing the text between two marker lines |
| `LabelBatches`, `LabelResume`, `LabelRuns` | paging open issues into batches, and labelling them with checkpoints |
| `ChutesCache` | parsing a model list and keeping it in a bounded, time-limited cache |
| `PermissionArgs`, `CliMigration` | rewriting the permission arguments and the model settings of the Claude CLI backend |
| `SparkleFloors` | build-number floors of calendar versions and the appcast check |
| `TreeWalk` | the directory walk with an explicit stack |
| `Common`, `Js`, `Traces` | shared lists, string operations of the host language, and runs of state machines |

Code that changes state is a class or a method with the source's loops, proved against a specification function; the
theorems are lemmas about those functions. A protocol is a step function, and a run is any sequence of steps:
`Traces` folds them. File systems, servers, clocks, sends, random names and JSON decoding are parameters.

## Where the code does not do what one would expect

- `resolveCommonAncestor` compares texts with a leading `../`, so it does not climb to a path whose child it is already
  at. `FoldExact` says for exactly which inputs the answer is not the common prefix; the call in the loader avoids
  them, because a file never is an ancestor of the package root.
- The isolated copy keeps the resolution of a specifier exactly when the specifier does not climb above the copy root
  on its way, even if it ends inside (`ResolvePreservedIff`): in a package `/r/pkg`, an import of `../pkg` is lost
  (`ReturningLoses`). A specifier that names the copy root itself is also lost when the isolated root, which is named
  after the package, has an extension. That takes a copy root above the package root, as for a package `/r/pkg.v2` that
  imports `..` (`VersionLoses`); it cannot happen in a package that is its own copy root (`RootHitHasNoExtension`).
- The notifier takes a file that it cannot read for an empty one. A poll then does nothing, but a command that
  subscribes its chat overwrites the file with that one subscription (`FailedReadStep`, `FailedReadRepeats`). A torn
  write has the same effect, and a refused one repeats deliveries (`RefusedWriteRepeats`, `RefusedOneShotFiresAgain`).
  The run theorems hold as long as neither happens.
- The notifier drops blank request ids whenever it reads its file, so a blank id is announced at every poll
  (`BlankIdRepeats`). Ids are random UUIDs (`openclaw-src/src/infra/device-pairing.ts:296`), so a blank one comes only
  from an edited pending file; the 24-hour distance holds for all other ids.
- A command may come with an account or thread id that is not trimmed. Its subscriber changes key when the file is
  read back; `UpsertReadBackIff` says exactly when that makes two subscribers share a key, and
  `PaddedAccountSharesKey` shows an input.
- A labelling run that cannot read its file starts as if nothing were saved, and its next checkpoint overwrites the
  file; a torn write makes the next run start from nothing. These are the ways in which a saved item is classified
  again (`ClassifiedAgainIff`, `FailedReadForgets`, `TornWriteForgets`).
- The model-map and selection rewrites are idempotent, but the whole migration is not always: a second run adds the
  built-in default model unless the settings already named it (`MigrationTwiceIff`, `SecondRunAddsBuiltIn`).

## Model

| member | source | states |
|---|---|---|
| `ImportGraph.ResolveImportCandidates` | openclaw-src/scripts/load-channel-config-surface.ts:89-104 | the candidates are the base path and its variants in the order the code adds them, each once |
| `ImportGraph.DedupMeans` | openclaw-src/scripts/load-channel-config-surface.ts:91-103 | dropping repeated candidates keeps each once, where it first occurs |
| `ImportGraph.ResolveRelativeImportPath` | openclaw-src/scripts/load-channel-config-surface.ts:106-115 | a specifier resolves to the first candidate that is a file, and to nothing if none is |
| `ImportGraph.FirstFileDedup` | openclaw-src/scripts/load-channel-config-surface.ts:97-109 | dropping duplicate candidates never changes which file a specifier resolves to |
| `ImportGraph.StemCandidateList` | openclaw-src/scripts/load-channel-config-surface.ts:89-104 | a name with an extension is looked up as it is and then with its extension replaced by `.ts`, `.tsx`, `.mts`, `.cts`, `.js`, `.jsx`, `.mjs` and `.cjs`, in this order |
| `ImportGraph.BareCandidateList` | openclaw-src/scripts/load-channel-config-surface.ts:97-101 | a name without an extension is looked up as it is and then, for each source extension, with it and as a directory with an index file |
| `ImportGraph.BaseMeans` | openclaw-src/scripts/load-channel-config-surface.ts:106-109 | `./name` is looked up beside the importing file and `../name` one directory up |
| `ImportGraph.ResolvesTo` | openclaw-src/scripts/load-channel-config-surface.ts:106-115 | an import resolves to the first of its candidates that is a file |
| `ImportGraph.ScriptNamesSource` | openclaw-src/scripts/load-channel-config-surface.ts:89-115 | in every file tree, an import of `./stem.js` finds the file `stem.ts` beside the importing one if there is no `stem.js` |
| `ImportGraph.PushImports` | openclaw-src/scripts/load-channel-config-surface.ts:130-140 | one file pushes exactly its resolved relative imports, in order, on top of the worklist |
| `ImportGraph.ImportedIffEdge` | openclaw-src/scripts/load-channel-config-surface.ts:130-140 | a path is pushed for a file if and only if it is an import edge of that file, and it is then a file |
| `ImportGraph.CollectRelativeImportGraph` | openclaw-src/scripts/load-channel-config-surface.ts:117-144 | on every finite file tree, cycles included, the worklist ends and returns exactly the files reachable from the entry, each once; it fails exactly when the entry is no file |
| `Reachability.ImageOfReachable` | openclaw-src/scripts/load-channel-config-surface.ts:117-144 | if a map carries the edges of one graph onto those of another, the image of what an entry reaches is exactly what its image reaches |
| `Paths.SplitJoin` | openclaw-src/scripts/load-channel-config-surface.ts:154-181 | splitting a joined segment list gives the segments back |
| `Paths.ClimbTest` | openclaw-src/scripts/load-channel-config-surface.ts:154 | the text test for a leading `../` says exactly that the relative path climbs and has something after the first `..` |
| `Paths.ResolveRelative` | openclaw-src/scripts/load-channel-config-surface.ts:175-187 | resolving a relative path from where it starts gives its target |
| `Paths.RelativeBelow` | openclaw-src/scripts/load-channel-config-surface.ts:175-187 | joining the relative path of a file below the copy root to another directory appends its remaining segments there |
| `CommonAncestor.ResolveCommonAncestor` | openclaw-src/scripts/load-channel-config-surface.ts:146-163 | an empty list fails; otherwise the result is the fold below, and it is the longest common path prefix unless the inputs are in the failing family |
| `CommonAncestor.ClimbTowards` | openclaw-src/scripts/load-channel-config-surface.ts:154-160 | the inner loop stops at the shared prefix, or one level below it when the candidate is a proper ancestor |
| `CommonAncestor.FoldExact` | openclaw-src/scripts/load-channel-config-surface.ts:152-162 | the result is the longest common prefix of all inputs if and only if no later path is a proper ancestor of the first with every other later path inside the same child of it |
| `CommonAncestor.StopsShortTooDeep` | openclaw-src/scripts/load-channel-config-surface.ts:152-162 | in the failing family the result is the child of that ancestor, one level too deep |
| `CommonAncestor.NoAncestorIsExact` | openclaw-src/scripts/load-channel-config-surface.ts:146-174 | when no later path is a proper ancestor of the first, the result is the longest common prefix |
| `CommonAncestor.ParentAfterChild` | openclaw-src/scripts/load-channel-config-surface.ts:146-163 | a concrete input, `/a/b` then `/a`, on which the answer is not an ancestor of every input |
| `IsolatedCopy.ResolvePackageRoot` | openclaw-src/scripts/load-channel-config-surface.ts:57-69 | returns the nearest directory at or above the module that holds a `package.json`, and fails exactly when none does |
| `IsolatedCopy.CollectedBelowRoot` | openclaw-src/scripts/load-channel-config-surface.ts:172-174 | for a package root and collected files the common ancestor is exact and lies strictly above every file |
| `IsolatedCopy.CopyFiles` | openclaw-src/scripts/load-channel-config-surface.ts:180-185 | the copy adds, for each collected file, a file with the same text at its rebased path, and changes nothing else |
| `IsolatedCopy.CopyIntoIsolatedRoot` | openclaw-src/scripts/load-channel-config-surface.ts:174-191 | the copy root is the longest common prefix of package root and files, the copy is complete, and the returned module path is the copy of the module |
| `IsolatedCopy.CopyModuleImportGraph` | openclaw-src/scripts/load-channel-config-surface.ts:165-192 | succeeds if and only if the module is a file with a package root above it, and then leaves a complete isolated copy of its import graph |
| `IsolatedCopy.RebaseInjective` | openclaw-src/scripts/load-channel-config-surface.ts:180-185 | the copy map is injective below the copy root and every target lies strictly under the isolated root |
| `IsolatedCopy.ContainedWalk` | openclaw-src/scripts/load-channel-config-surface.ts:107-109 | walking a specifier that never climbs above the copy root from the copied directory ends at the rebased end of the original walk |
| `IsolatedCopy.EscapingWalk` | openclaw-src/scripts/load-channel-config-surface.ts:107-109 | walking a specifier that does climb above the copy root ends outside the isolated root |
| `IsolatedCopy.CandidateRebase` | openclaw-src/scripts/load-channel-config-surface.ts:89-104 | below the copy root the candidates of a rebased base path are the rebased candidates, one by one |
| `IsolatedCopy.ResolvePreserved` | openclaw-src/scripts/load-channel-config-surface.ts:106-115 | from the copy of a collected file, a relative specifier that stays inside the copy root resolves to the copy of what it resolved to, and to nothing if it resolved to nothing |
| `IsolatedCopy.ResolvePreservedIff` | openclaw-src/scripts/load-channel-config-surface.ts:89-115 | the resolution of a relative specifier survives the copy if and only if the specifier never climbs above the copy root, and its base lies strictly inside the copy root or is the copy root with an index file that is still found |
| `IsolatedCopy.ResolveRootIff` | openclaw-src/scripts/load-channel-config-surface.ts:89-115 | for a contained specifier that names the copy root itself, the resolution survives if and only if it hits an index file, the name of the isolated root has no extension and no file beside the isolated root comes first |
| `IsolatedRootName.IsolatedRootExtension` | openclaw-src/scripts/load-channel-config-surface.ts:176-178 | the isolated root has an extension exactly when the package root has one |
| `IsolatedRootName.IsolatedRootIff` | openclaw-src/scripts/load-channel-config-surface.ts:89-185 | for the directory that the copier makes, the same condition in terms of the package root |
| `IsolatedRootName.RootHitHasNoExtension` | openclaw-src/scripts/load-channel-config-surface.ts:89-115 | a hit from the copy root itself means that the copy root has no extension, so that one lost to the extension of the package root has its copy root above the package root |
| `IsolatedRootName.LeavingAndReturning` | openclaw-src/scripts/load-channel-config-surface.ts:106-185 | in every package `/r/p` without an extension, an import of `../p` is lost |
| `IsolatedRootName.NamedAfterVersion` | openclaw-src/scripts/load-channel-config-surface.ts:106-185 | in every package `/r/p` with an extension, an import of `..` that hits `/r/index.ts` makes `/r` the copy root and is lost |
| `IsolatedRootName.ReturningLoses` | openclaw-src/scripts/load-channel-config-surface.ts:106-185 | a concrete file tree on which the first loss happens, in `/r/pkg` |
| `IsolatedRootName.VersionLoses` | openclaw-src/scripts/load-channel-config-surface.ts:106-185 | a concrete file tree on which the second loss happens, in `/r/pkg.v2` |
| `IsolatedCopy.ClimbingLooksOutside` | openclaw-src/scripts/load-channel-config-surface.ts:89-115 | from the copy, a specifier that climbs above the copy root finds exactly what the original tree has at the place it leads to |
| `IsolatedCopy.RootFindsIff` | openclaw-src/scripts/load-channel-config-surface.ts:89-115 | a lookup from the isolated root finds something if and only if a file lies beside it under its name or the copy root has an index file |
| `IsolatedCopy.ResolvesAlikeIff` | openclaw-src/scripts/load-channel-config-surface.ts:89-115 | a relative specifier resolves from the copy to the copy of what it resolved to, or to nothing if it did so, if and only if it keeps its meaning as the lemmas above say |
| `IsolatedCopy.EdgeForward` | openclaw-src/scripts/load-channel-config-surface.ts:117-185 | when the specifiers keep their meaning, every import edge between collected files has an edge between their copies |
| `IsolatedCopy.EdgeBack` | openclaw-src/scripts/load-channel-config-surface.ts:117-185 | when the specifiers keep their meaning, every import edge that starts at a copy ends at a copy |
| `IsolatedCopy.IsolatedGraphIsImage` | openclaw-src/scripts/load-channel-config-surface.ts:117-192 | when every relative specifier keeps its meaning, what the copied entry reaches is exactly the copies of the collected files |
| `NotifyState.NormalizeNotifyState` | openclaw-src/extensions/device-pair/notify.ts:81-135 | the decoding loops compute the state that the model calls `Read` |
| `NotifyState.ReadIsNormal` | openclaw-src/extensions/device-pair/notify.ts:90-121 | every subscriber that reading yields has a trimmed non-empty address and trimmed account and thread ids |
| `NotifyState.ItemMeans` | openclaw-src/extensions/device-pair/notify.ts:90-121 | an item is skipped exactly when it is no object or its address is no text or blank; otherwise texts are trimmed, blank ones dropped and numbers cut to their whole part, any mode but `once` is persistent, and a missing time is the time of reading |
| `NotifyState.ItemsOneByOne` | openclaw-src/extensions/device-pair/notify.ts:89-121 | items are read one by one, in order |
| `NotifyState.IdMeans` | openclaw-src/extensions/device-pair/notify.ts:123-132 | an id is remembered exactly when it is not blank and its time is a positive number, with the whole part of it |
| `NotifyState.TargetMeans` | openclaw-src/extensions/device-pair/notify.ts:166-182 | a Telegram command has a target exactly when sender, origin or destination is not blank; the target is the first of these that is not, with the account, if named, and the thread as they are |
| `NotifyState.SameKeyIff` | openclaw-src/extensions/device-pair/notify.ts:152-158 | for addresses and accounts without the separator, two targets share a key if and only if address, account and thread agree, a missing one counting as empty |
| `NotifyState.BarsCollide` | openclaw-src/extensions/device-pair/notify.ts:152-158 | with the separator in an address or an account, different targets can share a key |
| `NotifyState.UpsertMeans` | openclaw-src/extensions/device-pair/notify.ts:184-206 | an upsert replaces the first entry with the key unless it has the mode, and appends if there is no such entry |
| `NotifyState.RemoveMeans` | openclaw-src/extensions/device-pair/notify.ts:422-431 | a removal takes out the first entry with the key and nothing else |
| `NotifyState.ReadWrittenIff` | openclaw-src/extensions/device-pair/notify.ts:81-150 | reading back a written state is the identity if and only if its targets are normalised, its ids non-blank and its times positive |
| `NotifyState.ReadNotified` | openclaw-src/extensions/device-pair/notify.ts:123-132 | an id survives writing and reading, with its time, exactly when it is non-blank and its time positive |
| `NotifyState.UpsertKeepsDistinct` | openclaw-src/extensions/device-pair/notify.ts:184-206 | an upsert keeps subscriber keys distinct |
| `NotifyState.RemoveKeepsDistinct` | openclaw-src/extensions/device-pair/notify.ts:422-431 | removing a subscriber keeps subscriber keys distinct |
| `NotifyState.UpsertReadBackIff` | openclaw-src/extensions/device-pair/notify.ts:99-206 | for any target, normalised or not, keys stay distinct in the file if and only if the entry with its key has the mode already or no other entry has the key of the normalised target |
| `NotifyState.PaddedAccountSharesKey` | openclaw-src/extensions/device-pair/notify.ts:99-206 | a chat subscribed under an account and a command with a blank after that account leave a file in which two subscribers share a key |
| `NotifyState.ChatOneSharesKey` | openclaw-src/extensions/device-pair/notify.ts:99-206 | the same at a concrete input: chat `1`, accounts `a` and `a ` |
| `NotifyTick.StateFile.Upsert` | openclaw-src/extensions/device-pair/notify.ts:184-206 | appends, replaces in place or leaves the list, and its result says exactly whether the list changed |
| `NotifyTick.StateFile.HandleCommand` | openclaw-src/extensions/device-pair/notify.ts:374-462 | each command has its state change, and the file is written if and only if the state differs from what was read |
| `NotifyTick.StateFile.PruneSeen` | openclaw-src/extensions/device-pair/notify.ts:298-303 | exactly the ids that are no longer pending or are older than 24 hours are forgotten, and the flag says whether any was |
| `NotifyTick.StateFile.Announce` | openclaw-src/extensions/device-pair/notify.ts:313-327 | the send loop for one request succeeds for exactly the subscribers that should hear about it and whose send goes through |
| `NotifyTick.StateFile.AnnounceAll` | openclaw-src/extensions/device-pair/notify.ts:307-333 | the loop over the pending requests stamps and delivers as the specification says, and reports whether it delivered anything |
| `NotifyTick.StateFile.DropSpent` | openclaw-src/extensions/device-pair/notify.ts:334-342 | exactly the subscribers with a delivered one-shot key go, and the flag is raised only when the list changed |
| `NotifyTick.StateFile.Poll` | openclaw-src/extensions/device-pair/notify.ts:287-348 | a whole poll computes the state and the deliveries of the specification, and writes the file if and only if the state differs from what was read |
| `NotifyTick.PollChanges` | openclaw-src/extensions/device-pair/notify.ts:296-347 | a poll ends in a different state if and only if it forgot an id or delivered something |
| `NotifyTick.PollDelivers` | openclaw-src/extensions/device-pair/notify.ts:229-333 | a poll delivers a request to a subscriber if and only if the subscriber is persistent or the request has a time of at least 1 and not before arming, the send succeeds, the id was not delivered within the last 24 hours according to the file, and no earlier request with the same id was delivered to anyone |
| `NotifyTick.AnnouncedInOrder` | openclaw-src/extensions/device-pair/notify.ts:307-327 | each delivery happens once, request by request and for each in the order of the subscribers |
| `NotifyTick.PollRemembers` | openclaw-src/extensions/device-pair/notify.ts:298-333 | after a poll an id is remembered exactly when the poll delivered it, then as of now, or when it is pending and was remembered for at most 24 hours, then as before |
| `NotifyTick.PollUnsubscribes` | openclaw-src/extensions/device-pair/notify.ts:318-342 | a poll removes exactly the subscribers whose key a one-shot delivery went to |
| `NotifyTick.WithoutLaws` | openclaw-src/extensions/device-pair/notify.ts:336-338 | the filter works on the parts of a list in order, and keeps or drops a single entry by its key |
| `NotifyTick.SubscribeMeans` | openclaw-src/extensions/device-pair/notify.ts:350-420 | switching on or arming leaves an entry with the key of the target and the mode of the command, and adds no other |
| `NotifyTick.WithdrawMeans` | openclaw-src/extensions/device-pair/notify.ts:422-431 | with distinct keys, switching off leaves exactly the entries under other keys |
| `NotifyTick.CommandLeaves` | openclaw-src/extensions/device-pair/notify.ts:350-462 | no command touches the entries under other keys or the remembered ids |
| `NotifyTick.DeliveriesAreSends` | openclaw-src/extensions/device-pair/notify.ts:307-332 | every delivery is a successful send of a pending request to a subscriber that should hear about it |
| `NotifyTick.AnnouncedSeen` | openclaw-src/extensions/device-pair/notify.ts:307-333 | a remembered id is neither sent nor touched, and any other id is stamped with the current time exactly when it is delivered |
| `NotifyTick.OfModeWithout` | openclaw-src/extensions/device-pair/notify.ts:336-338 | filtering by key leaves the subscribers of a mode untouched, in order, if and only if none of them has a filtered key |
| `NotifyTick.PollKeepsPersistent` | openclaw-src/extensions/device-pair/notify.ts:334-342 | with distinct keys, no poll removes or reorders a persistent subscriber |
| `NotifyTick.OneShotSpent` | openclaw-src/extensions/device-pair/notify.ts:237-342 | a successful send to a one-shot subscriber is for a request created at or after arming, and the same poll removes the subscriber |
| `NotifyRuns.FailedReadStep` | openclaw-src/extensions/device-pair/notify.ts:137-144 | a poll or command whose read fails changes nothing, unless it is a command that subscribes its chat; then that subscription is all that the file holds |
| `NotifyRuns.SeenIsPending` | openclaw-src/extensions/device-pair/notify.ts:298-347 | after a poll the remembered ids in the file are among the ids pending in it if and only if the poll could read and write the file or they were so before |
| `NotifyRuns.YoungStampHolds` | openclaw-src/extensions/device-pair/notify.ts:298-333 | a remembered id that stays pending is not delivered again for 24 hours, and it keeps its time if and only if the step does not wipe the file by a torn write or after a failed read |
| `NotifyRuns.StampHolds` | openclaw-src/extensions/device-pair/notify.ts:298-347 | after a delivery whose write goes through, the id keeps the time of that delivery over any run of polls and commands that do not wipe the file, as long as it stays pending and young |
| `NotifyRuns.DeliveriesADayApart` | openclaw-src/extensions/device-pair/notify.ts:287-348 | over every run with a clock that does not run backwards, two polls that deliver one continuously pending non-blank id are more than 24 hours apart, if the first write goes through and no step in between wipes the file |
| `NotifyRuns.BlankIdIsNeverSeen` | openclaw-src/extensions/device-pair/notify.ts:124-127 | a blank id is dropped at every read, so a poll delivers it whatever was delivered before |
| `NotifyRuns.BlankIdRepeats` | openclaw-src/extensions/device-pair/notify.ts:124-127 | a run in which two polls, one millisecond apart, both deliver a blank id |
| `NotifyRuns.RefusedWriteRepeats` | openclaw-src/extensions/device-pair/notify.ts:345-347 | a run in which the first write is refused, so that two polls, one millisecond apart, deliver the same request |
| `NotifyRuns.FailedReadRepeats` | openclaw-src/extensions/device-pair/notify.ts:137-144 | a run in which a second chat subscribes while the file cannot be read: the first chat is no longer subscribed, and a request is delivered again after two milliseconds |
| `NotifyRuns.StepOneShot` | openclaw-src/extensions/device-pair/notify.ts:184-431 | no step puts a one-shot subscription under a key except by arming it, whatever becomes of its read and write |
| `NotifyRuns.OneShotFiresOnce` | openclaw-src/extensions/device-pair/notify.ts:305-382 | over every run, two polls that both deliver to a one-shot subscription under one key have an arming command between them, unless the write of the first is refused |
| `NotifyRuns.RefusedOneShotFiresAgain` | openclaw-src/extensions/device-pair/notify.ts:345-347 | a poll whose write is refused leaves its one-shot subscriptions armed, and the same poll delivers to them again |
| `NotifyRuns.PersistentStays` | openclaw-src/extensions/device-pair/notify.ts:287-462 | over every run from a file with distinct keys and with normalised targets, persistent subscriptions stay, in their order, until a command switches one of them off or arms a one-shot in its place, or a step wipes the file |
| `NotifyRuns.WipedSubscribers` | openclaw-src/extensions/device-pair/notify.ts:137-150 | a step that wipes the file takes every subscription, save the one that its own command makes |
| `NotifyRuns.KeysAlwaysDistinct` | openclaw-src/extensions/device-pair/notify.ts:137-150 | subscriber keys are distinct in every version of the file and every state read from it, however reads and writes of polls and commands interleave, for commands with normalised targets |
| `NotifyRuns.UninterruptedIsStep` | openclaw-src/extensions/device-pair/notify.ts:137-150 | an operation that reads and writes the file with nothing in between is one step of a run |
| `NotifyRuns.LastWriteWins` | openclaw-src/extensions/device-pair/notify.ts:146-150 | a write that goes through replaces the file by what its operation makes of the state that it read, whatever was written since: an update in between is lost |
| `BedrockDiscovery.SameKeyIffSameProviders` | openclaw-src/extensions/amazon-bedrock/discovery.ts:37-55 | two configurations that differ only in the filter share a cache key if and only if the filters name the same providers up to case, padding, order and repetition |
| `BedrockDiscovery.KeyMeans` | openclaw-src/extensions/amazon-bedrock/discovery.ts:16-176 | the key holds the region, the sorted providers, a refresh interval of an hour unless configured and never negative, and the configured limits or 32000 and 4096 |
| `BedrockDiscovery.SameKeyIff` | openclaw-src/extensions/amazon-bedrock/discovery.ts:47-55 | two calls share a cache key if and only if they agree on the region, the providers and the three numbers |
| `BedrockDiscovery.ProviderMeans` | openclaw-src/extensions/amazon-bedrock/discovery.ts:103-105 | the provider is the one that the summary names, or else what its model id has before the first dot |
| `BedrockDiscovery.FilterMeansProviders` | openclaw-src/extensions/amazon-bedrock/discovery.ts:37-111 | a configured filter admits a model if and only if it names no provider at all or names the provider of the model |
| `BedrockDiscovery.MapInputModalities` | openclaw-src/extensions/amazon-bedrock/discovery.ts:66-82 | the result has `image` exactly when some input names it, and `text` exactly when some input names it or none names either, each once |
| `BedrockDiscovery.ModalityOrder` | openclaw-src/extensions/amazon-bedrock/discovery.ts:66-82 | the modalities come in the order in which they are first named |
| `BedrockDiscovery.DiscoveredIff` | openclaw-src/extensions/amazon-bedrock/discovery.ts:113-207 | the discovered models are exactly those of the summaries that name their model, stream, put out text, are active and are of an admitted provider, each with the id, name, reasoning, modalities and limits it should have |
| `BedrockDiscovery.CollectedLaws` | openclaw-src/extensions/amazon-bedrock/discovery.ts:194-205 | the summaries of a response are converted one by one, in order |
| `BedrockDiscovery.SortByNameStable` | openclaw-src/extensions/amazon-bedrock/discovery.ts:206 | the sort gives a sorted rearrangement that keeps the order of models whose names compare as equal |
| `BedrockDiscovery.CollectModels` | openclaw-src/extensions/amazon-bedrock/discovery.ts:192-207 | the fetch loop yields the included models of the response, converted and sorted |
| `SingleFlight.DiscoveryCache.Call` | openclaw-src/extensions/amazon-bedrock/discovery.ts:163-214 | the synchronous part of a call answers with a fresh value, joins the fetch in flight or leads a new one, and changes the cache accordingly |
| `SingleFlight.DiscoveryCache.Settle` | openclaw-src/extensions/amazon-bedrock/discovery.ts:192-207 | an arriving response settles only its own fetch, with the list that the response gives |
| `SingleFlight.DiscoveryCache.Continue` | openclaw-src/extensions/amazon-bedrock/discovery.ts:216-236 | the resuming leader stores its value or drops the entry, and answers its list or the empty list |
| `SingleFlight.CallKeepsInv` | openclaw-src/extensions/amazon-bedrock/discovery.ts:177-214 | a call keeps the cache a function of the fetches: in flight until the leader resumes, then its value or nothing |
| `SingleFlight.ContinueKeepsInv` | openclaw-src/extensions/amazon-bedrock/discovery.ts:216-236 | a resuming leader keeps that invariant for its own key and every other key |
| `SingleFlight.LeaderOwnsEntry` | openclaw-src/extensions/amazon-bedrock/discovery.ts:218-228 | a leader that is about to overwrite or delete the entry for its key finds its own entry there |
| `SingleFlight.SingleFlightAlways` | openclaw-src/extensions/amazon-bedrock/discovery.ts:179-237 | in every reachable state a key has at most one fetch whose leader has not resumed, its entry is in flight exactly while that is so, and it never holds both a value and a promise |
| `SingleFlight.AnswerIff` | openclaw-src/extensions/amazon-bedrock/discovery.ts:179-214 | in every reachable state a call joins exactly the fetch for its own key whose leader has not resumed, takes the list of the latest fetch for its key exactly if that succeeded and is younger than the refresh interval, and otherwise starts the next fetch |
| `SingleFlight.LifeOfFetch` | openclaw-src/extensions/amazon-bedrock/discovery.ts:179-237 | one fetch from start to end: later calls for its key join it until its leader resumes, then take the list made from its response until the refresh interval is over; after a failure the next call starts another fetch |
| `SingleFlight.UncachedLeads` | openclaw-src/extensions/amazon-bedrock/discovery.ts:163-192 | with a refresh interval of zero every call starts a fetch of its own |
| `SingleFlight.HitAgreesWithFetch` | openclaw-src/extensions/amazon-bedrock/discovery.ts:179-224 | a hit at `now` returns the list of a successful fetch for the same key that started less than one refresh interval before `now` |
| `SingleFlight.FailureIsNotCached` | openclaw-src/extensions/amazon-bedrock/discovery.ts:225-235 | after a failed fetch the next call for the key starts a fetch of its own |
| `SingleFlight.FetchesAreSpaced` | openclaw-src/extensions/amazon-bedrock/discovery.ts:179-224 | with a clock that does not run backwards, a fetch for a key starts at least one refresh interval after every earlier successful one |
| `Utf16.EncodeDecode` | openclaw-src/src/utils.ts:230-236 | decoding by section 2.2 of RFC 2781, with lone surrogates kept, loses nothing: encoding gives every text back |
| `Utf16.DecodeEncode` | openclaw-src/src/utils.ts:230-236 | encoding a text of code points that are no surrogates and decoding it gives them back |
| `Utf16.BoundaryIff` | openclaw-src/src/utils.ts:250-262 | the local surrogate test finds exactly the positions that are not reached by stepping over whole code points |
| `Utf16.DecodeSplit` | openclaw-src/src/utils.ts:250-264 | cutting a text decodes piecewise if and only if the cut is at such a boundary |
| `Utf16.SliceUtf16Safe` | openclaw-src/src/utils.ts:238-265 | the branches compute the slice between the two clamped and ordered positions, whose meaning the next lemmas give |
| `Utf16.SliceIsWindow` | openclaw-src/src/utils.ts:238-265 | between two positions of the text, in either order, the slice is the largest window of whole code points, and empty when there is none |
| `Utf16.PositionsMean` | openclaw-src/src/utils.ts:241-248 | a negative position counts from the end of the text, one beyond the text is its nearer end, and a missing end is the end of the text |
| `Utf16.SliceTail` | openclaw-src/src/utils.ts:238-265 | a start of `-k` gives the longest suffix of whole code points of at most `k` units |
| `Utf16.SliceDropTail` | openclaw-src/src/utils.ts:238-265 | an end of `-k` gives the longest prefix of whole code points that leaves out the last `k` units |
| `Utf16.AdjustedWindow` | openclaw-src/src/utils.ts:250-262 | moving an end that splits a pair inwards by one unit gives the largest window, or shows that there is none |
| `Utf16.SliceDecodesToPart` | openclaw-src/src/utils.ts:238-265 | the slice decodes to a contiguous part of what the whole text decodes to, ill-formed text included |
| `Utf16.TruncateUtf16Safe` | openclaw-src/src/utils.ts:267-273 | truncation cuts at the last boundary within the limit |
| `Utf16.TruncatedIsLongest` | openclaw-src/src/utils.ts:267-273 | for any real length, negative and fractional ones included, the result is a prefix of whole code points that fits, and every such prefix is a prefix of it |
| `Utf16.TruncateCompose` | openclaw-src/src/utils.ts:267-273 | truncating to `m` and then to `n` is truncating to the smaller of the two |
| `BlockRewriter.ReplaceResult` | openclaw-src/scripts/sync-moonshot-docs.ts:15-51 | a replacement yields the text before the start marker, the new block and what follows the line of the end marker |
| `BlockRewriter.ReplaceMeans` | openclaw-src/scripts/sync-moonshot-docs.ts:21-50 | from the first start marker and the first end marker from there on: the lines of the two markers and all between them become the block, each line of it behind what stood before the start marker, and the text before and after those lines stays |
| `BlockRewriter.ReplaceFailsIff` | openclaw-src/scripts/sync-moonshot-docs.ts:21-28 | the replacement fails exactly when there is no start marker, or no end marker from the first start marker on |
| `BlockRewriter.ReplaceFrames` | openclaw-src/scripts/sync-moonshot-docs.ts:39-50 | the text up to and including the start marker and the text after the end marker line are unchanged |
| `BlockRewriter.SecondEnd` | openclaw-src/scripts/sync-moonshot-docs.ts:25-40 | in a rewritten text the end marker is found on the last line of the block, so that the rest is the old rest, if and only if it does not occur above that line |
| `BlockRewriter.InUpperIff` | openclaw-src/scripts/sync-moonshot-docs.ts:42-48 | the end marker occurs above the last line of the block exactly when it occurs in the start marker or in an indented line |
| `BlockRewriter.ReplaceTwice` | openclaw-src/scripts/sync-moonshot-docs.ts:15-51 | replacing the block again with the same lines succeeds, and it changes nothing if and only if the end marker occurs in neither the start marker nor an indented line |
| `BlockRewriter.ReplaceIdempotent` | openclaw-src/scripts/sync-moonshot-docs.ts:15-51 | with a blank indent and an end marker that starts with a visible character, the second replacement is a fixpoint if and only if the end marker is in neither the start marker nor the lines |
| `LabelBatches.TakePage` | openclaw-src/scripts/label-open-issues.ts:452-468 | the nodes of a page are taken in order until the limit, and every 500 items become a batch |
| `LabelBatches.FetchBatches` | openclaw-src/scripts/label-open-issues.ts:425-485 | the batches concatenate to the first items of the pages up to the limit, every batch but the last has exactly 500 items, indices count from one and the fetched count is the running sum; a failing request loses fewer than 500 items |
| `LabelBatches.AvailableLaws` | openclaw-src/scripts/label-open-issues.ts:437-473 | pages give their items in order up to the first that announces no other |
| `LabelBatches.TakeMeans` | openclaw-src/scripts/label-open-issues.ts:437-455 | a limited run takes the first items up to the limit, or all if there are no more |
| `LabelBatches.BatchCount` | openclaw-src/scripts/label-open-issues.ts:458-482 | there is one batch for each full 500 items and one for what is left over |
| `LabelBatches.NumberedAt` | openclaw-src/scripts/label-open-issues.ts:456-482 | batch `i` has index `i + 1` and carries the number of items in the batches up to it |
| `LabelResume.BuildStateSnapshot` | openclaw-src/scripts/label-open-issues.ts:303-309 | the snapshot lists both number sets in ascending order, and loading it gives the set back |
| `LabelResume.SnapshotUnique` | openclaw-src/scripts/label-open-issues.ts:303-309 | a set of items has exactly one snapshot |
| `LabelResume.LoadMeans` | openclaw-src/scripts/label-open-issues.ts:267-296 | a readable file loads as the issues and pull requests that it lists, any other as none |
| `LabelResume.PendingLaws` | openclaw-src/scripts/label-open-issues.ts:741-742 | the pending items of a batch are those not done yet, in order |
| `LabelResume.LabelPending` | openclaw-src/scripts/label-open-issues.ts:749-859 | the classification loop computes the labelling of the specification, item by item up to the one whose classification throws |
| `LabelResume.LabelledFacts` | openclaw-src/scripts/label-open-issues.ts:749-859 | items are classified in order and marked done, exempt ones without classification, up to the one that throws |
| `LabelResume.RunBatch` | openclaw-src/scripts/label-open-issues.ts:736-865 | one batch labels its pending items, counts the rest as skipped, and writes the checkpoint unless nothing was pending or it is a dry run |
| `LabelResume.BatchPromises` | openclaw-src/scripts/label-open-issues.ts:736-865 | past a batch, exactly its pending items that need a label were classified, in order, and the file is a snapshot of all that is done or unchanged |
| `LabelResume.RunPhase` | openclaw-src/scripts/label-open-issues.ts:736-865 | the loop over the batches fetched from the pages stops at a classification that throws, an interrupted write or a failing page request, and computes the specification |
| `LabelResume.WholePhasePromises` | openclaw-src/scripts/label-open-issues.ts:736-865 | wherever a loop stops, nothing is marked done that was neither classified nor exempt, and nothing known is classified; past its last batch scanned = processed + skipped = all items |
| `LabelResume.LabelStopsIff` | openclaw-src/scripts/label-open-issues.ts:749-859 | the classification loop of a batch stops if and only if one of its attempts fails |
| `LabelResume.LoopStops` | openclaw-src/scripts/label-open-issues.ts:736-865 | a loop stops exactly at the first batch that it cannot pass, and the file then holds what was known and the passed batches, or is as it was if they bring nothing new |
| `LabelRuns.LabelOpenItems` | openclaw-src/scripts/label-open-issues.ts:709-865 | a run of the script, whether or not it can read its file, is the run of the specification on what it meets; it finishes only if both listings can be fetched as far as it wants them, and says what is then saved |
| `LabelRuns.RunPromises` | openclaw-src/scripts/label-open-issues.ts:709-865 | a run classifies only listed items that it does not take for done, and saves only what was saved, classified or exempt; a torn write ends it |
| `LabelRuns.ClassifiedIff` | openclaw-src/scripts/label-open-issues.ts:709-865 | a finished run classifies a listed item that needs a label if and only if the item was not saved or the file could not be read |
| `LabelRuns.TornIff` | openclaw-src/scripts/label-open-issues.ts:298-301 | a run tears the file if and only if one of its loops reaches a checkpoint whose write is torn |
| `LabelRuns.SavedAfter` | openclaw-src/scripts/label-open-issues.ts:267-309 | what is saved after a run: nothing if it tore the file, as before if it passed nothing new, and otherwise what it took for done with the batches it passed |
| `LabelRuns.KeptIff` | openclaw-src/scripts/label-open-issues.ts:267-309 | a saved item stays saved if and only if the run neither tears the file nor, unable to read it, passes other items only |
| `LabelRuns.SavedKeptIff` | openclaw-src/scripts/label-open-issues.ts:267-309 | a run keeps the saved set if and only if it drops none of its items in this sense |
| `LabelRuns.ClassifiedAgainIff` | openclaw-src/scripts/label-open-issues.ts:709-865 | the next finished run classifies a saved item that it lists, and that needs a label, if and only if the run before it dropped the item or it cannot read the file itself |
| `LabelRuns.SavedSetGrows` | openclaw-src/scripts/label-open-issues.ts:267-309 | across any runs the saved set only grows as long as no run in between drops one of its items |
| `LabelRuns.NeverClassifiedAgain` | openclaw-src/scripts/label-open-issues.ts:709-865 | across any runs, a saved item is classified again only after a run that dropped it, or by a run that cannot read the file |
| `LabelRuns.TornWriteForgets` | openclaw-src/scripts/label-open-issues.ts:267-301 | three concrete runs of the script from no file: the first saves item 7, one over item 8 tears the file, and the next classifies item 7 again |
| `LabelRuns.FailedReadForgets` | openclaw-src/scripts/label-open-issues.ts:709-715 | concrete runs that cannot read an intact file: one classifies the saved item 7 again, one over item 8 leaves only item 8 saved |
| `ChutesCache.ParseModels` | openclaw-src/extensions/chutes/models.ts:553-591 | the parsing loop with its seen-set computes the parsed list of the specification |
| `ChutesCache.ParsedIsFirstOccurrences` | openclaw-src/extensions/chutes/models.ts:556-561 | the list holds exactly the first occurrences of the non-blank trimmed ids, in response order |
| `ChutesCache.AnswerMeans` | openclaw-src/extensions/chutes/models.ts:539-601 | a failed request, or a response without a usable id, gives the catalog; any other response gives the first entry for each of its ids, in order |
| `ChutesCache.ModelsOfValid` | openclaw-src/extensions/chutes/models.ts:539-596 | every discovered list is non-empty with distinct trimmed ids |
| `ChutesCache.ModelCache.PruneExpired` | openclaw-src/extensions/chutes/models.ts:478-484 | exactly the entries at least five minutes old are removed |
| `ChutesCache.ModelCache.CacheAndReturn` | openclaw-src/extensions/chutes/models.ts:486-502 | prunes, drops the oldest entry when a new key finds the cache full, and stores the list |
| `ChutesCache.ModelCache.Lookup` | openclaw-src/extensions/chutes/models.ts:504-511 | after pruning, a call returns the entry under its trimmed token or goes on to fetch |
| `ChutesCache.StoredKeeps` | openclaw-src/extensions/chutes/models.ts:486-502 | storing keeps at most 100 entries with distinct keys and loses no fresh entry of another key except the oldest one of a full cache |
| `ChutesCache.PrunedLaws` | openclaw-src/extensions/chutes/models.ts:478-484 | pruning keeps a slot for five minutes and works on the parts of the list in order |
| `ChutesCache.StoredMeans` | openclaw-src/extensions/chutes/models.ts:486-502 | a new list takes the place of the fresh one under its key; under a new key it comes last, and the first of a hundred fresh slots makes room |
| `ChutesCache.CacheIsSound` | openclaw-src/extensions/chutes/models.ts:504-601 | over every interleaving of calls the cache has at most 100 entries, and an entry under a non-empty token comes from a call with that token that got no 401 |
| `ChutesCache.LifeOfCall` | openclaw-src/extensions/chutes/models.ts:504-601 | one call from start to end: without a hit it answers from its last response, and stores the list under its trimmed token, or under the empty one if the token was rejected |
| `ChutesCache.HitIff` | openclaw-src/extensions/chutes/models.ts:504-511 | in every reachable state a call hits exactly the slot under its trimmed token that is less than five minutes old |
| `ChutesCache.HitIsFresh` | openclaw-src/extensions/chutes/models.ts:506-511 | a hit is younger than the time limit and is the answer of an earlier call with the same effective key |
| `PermissionArgs.NormalizeClaudePermissionArgs` | openclaw-src/extensions/anthropic/cli-shared.ts:44-76 | the index loop with its skips computes the normalisation of the token list; a missing list stays missing |
| `PermissionArgs.TokensReadable` | openclaw-src/extensions/anthropic/cli-shared.ts:51-71 | every argument list is the rendering of its tokens |
| `PermissionArgs.RenderThenRead` | openclaw-src/extensions/anthropic/cli-shared.ts:51-71 | reading a rendered token list gives the tokens back |
| `PermissionArgs.FirstTokenMeans` | openclaw-src/extensions/anthropic/cli-shared.ts:51-71 | an argument is the legacy flag, the mode flag with the next argument as its value, the mode flag with its value after an equals sign, or any other argument |
| `PermissionArgs.BypassIff` | openclaw-src/extensions/anthropic/cli-shared.ts:44-76 | the bypass mode is appended exactly when the legacy flag is there and no mode is named, neither with the value beside it nor after an equals sign; otherwise the arguments are only rid of the legacy flag |
| `PermissionArgs.WithoutLegacyLaws` | openclaw-src/extensions/anthropic/cli-shared.ts:51-56 | the legacy flag goes and every other token stays in its place |
| `PermissionArgs.ExplicitModeWins` | openclaw-src/extensions/anthropic/cli-shared.ts:44-76 | the legacy flag before `--permission-mode=` with any mode: only the legacy flag goes |
| `PermissionArgs.TokensOfNormalized` | openclaw-src/extensions/anthropic/cli-shared.ts:44-76 | the normalised list reads as the old tokens without the legacy flag, in order and with their values, plus the bypass mode at the end when it is needed |
| `PermissionArgs.NormalizedMeansTheSame` | openclaw-src/extensions/anthropic/cli-shared.ts:44-76 | no legacy flag is left outside the value slot of a mode flag, and the effective modes are the same before and after |
| `PermissionArgs.NormalizedTwice` | openclaw-src/extensions/anthropic/cli-shared.ts:44-76 | normalising is idempotent |
| `CliMigration.ImageIsFinal` | openclaw-src/extensions/anthropic/cli-migration.ts:8-18 | a converted model reference is never converted again |
| `CliMigration.OldRefConverts` | openclaw-src/extensions/anthropic/cli-migration.ts:8-18 | a text `anthropic/claude-...`, in any case and with white space around it and after the slash, converts to its model id, case kept, behind `claude-cli/` |
| `CliMigration.OnlyOldRefsConvert` | openclaw-src/extensions/anthropic/cli-migration.ts:8-18 | nothing else converts |
| `CliMigration.RewriteModelEntryMap` | openclaw-src/extensions/anthropic/cli-migration.ts:67-94 | the in-place loop migrates every entry and lists the new keys in the order of their sources |
| `CliMigration.MigratedKeys` | openclaw-src/extensions/anthropic/cli-migration.ts:67-94 | the result has exactly the keys that do not convert and the images of those that do; an existing key keeps its value and any other takes the value of its first source |
| `CliMigration.ImagesLaws` | openclaw-src/extensions/anthropic/cli-migration.ts:78-88 | the listed new keys are the images of the entries, in order |
| `CliMigration.MigrateTwice` | openclaw-src/extensions/anthropic/cli-migration.ts:67-94 | a second run of the map rewrite changes nothing |
| `CliMigration.RewriteSelection` | openclaw-src/extensions/anthropic/cli-migration.ts:20-65 | the rewrite of the selection object property by property computes the rewritten selection |
| `CliMigration.SelectionMeans` | openclaw-src/extensions/anthropic/cli-migration.ts:20-65 | the name, or the primary model and every fallback, is converted where it can be and kept where not, and the primary model is the converted one, if any |
| `CliMigration.SelectionTwice` | openclaw-src/extensions/anthropic/cli-migration.ts:20-65 | the flag says exactly whether the selection changed, and a second rewrite changes nothing |
| `CliMigration.BuildMigration` | openclaw-src/extensions/anthropic/cli-migration.ts:100-131 | the migration combines the rewritten selection, the migrated map and an entry for the default model |
| `CliMigration.MigrationMeans` | openclaw-src/extensions/anthropic/cli-migration.ts:100-131 | the default model is the converted primary one or else the built-in one; the models are the keys that do not convert, the images of those that do, and the default model, with the values they should have |
| `CliMigration.MigrationTwiceIff` | openclaw-src/extensions/anthropic/cli-migration.ts:100-131 | running the whole migration on its own result keeps the models if and only if the built-in default model is the default of the given selection, a key of the given map or the image of one |
| `CliMigration.MergedTwiceIff` | openclaw-src/src/plugins/provider-auth-choice-helpers.ts:44-59 | merging the result into the old settings and running the migration again gives the same models, and the same settings, under the same condition |
| `CliMigration.SecondRunAddsBuiltIn` | openclaw-src/extensions/anthropic/cli-migration.ts:100-131 | without a model map, a selection that converts to another model gains the built-in default in the second run |
| `CliMigration.OpusIsNotBuiltIn` | openclaw-src/extensions/anthropic/cli-migration.ts:8-18 | a concrete such selection, `anthropic/claude-opus-4` |
| `SparkleFloors.NumberOfNatText` | openclaw-src/scripts/sparkle-build.ts:37-51 | reading the decimal text of a number gives the number back |
| `SparkleFloors.SparkleBuildFloors` | openclaw-src/scripts/sparkle-build.ts:22-52 | floors exist exactly for months 1 to 12 and days 1 to 31, and the concatenated texts are the positional numbers of date and lane |
| `SparkleFloors.LaneMeans` | openclaw-src/scripts/sparkle-build.ts:40-52 | no suffix is lane 90, a suffix that ends in a number is that number up to 89, any other is lane 1; so the version without a suffix has the greatest lane floor of its date |
| `SparkleFloors.LaneFloorMonotone` | openclaw-src/scripts/sparkle-build.ts:37-52 | lane floors are ordered exactly as versions are by year, month, day and lane |
| `SparkleFloors.FloorsAroundMinimum` | openclaw-src/scripts/release-check.ts:43-44 | legacy floors lie below the minimum lane build, and lane floors reach it exactly from the year 1000 on |
| `SparkleFloors.CollectAppcastErrors` | openclaw-src/scripts/release-check.ts:239-296 | the errors are those of missing or non-numeric versions in order, then the floor errors; an empty feed has its own error |
| `SparkleFloors.FormProblemIff` | openclaw-src/scripts/release-check.ts:254-261 | an item has a form error exactly when its version is missing or no number |
| `SparkleFloors.CalItemIff` | openclaw-src/scripts/release-check.ts:263-271 | an item is held against a floor exactly when its build is a number and its short version a calendar version with a month and a day |
| `SparkleFloors.FloorProblemIff` | openclaw-src/scripts/release-check.ts:283-293 | an error is reported exactly for an item below its lane floor that has a lane number or is dated on or after the adoption date, or below its legacy floor if neither |
| `SparkleFloors.AdoptionIsMinimum` | openclaw-src/scripts/release-check.ts:274-281 | the adoption date is the least of the built-in date and the dates of lane-numbered items |
| `SparkleFloors.CollectFloorErrors` | openclaw-src/scripts/release-check.ts:274-293 | the floor loop reports exactly the items below the floor that applies to them, in order |
| `SparkleFloors.NoFloorProblemsIff` | openclaw-src/scripts/release-check.ts:283-293 | there are no floor errors if and only if every item meets the floor that applies to it |
| `SparkleFloors.FloorProblemsReorder` | openclaw-src/scripts/release-check.ts:274-293 | reordering the items only reorders the floor errors |
| `SparkleFloors.LaneNumbersSpread` | openclaw-src/scripts/release-check.ts:274-293 | without floor errors every item dated on or after a lane-numbered item has a build number of at least its own lane floor |
| `TreeWalk.PushEntries` | openclaw-src/scripts/check-file-utils.ts:35-47 | the loop over one listing accounts for every file below it, either collected or still below a directory on the stack |
| `TreeWalk.CollectFilesSync` | openclaw-src/scripts/check-file-utils.ts:13-51 | the explicit-stack walk ends on every finite tree and finds, as a multiset, the files of the recursive walk |
| `TreeWalk.FilesInIff` | openclaw-src/scripts/check-file-utils.ts:35-47 | a path is found if and only if it names an included file reached through readable directories that are not skipped |
| `TreeWalk.FilesInDistinct` | openclaw-src/scripts/check-file-utils.ts:13-51 | with unique names in every directory no file is found twice |

## Left out

- Effects: module loading, logging, prompts and message texts. Fetches, AWS requests, page requests, classifications and
  sends are parameters with any outcome, and so are the reads and writes of the two state files (done, failed or torn).
  A file operation of the import copier that fails throws and leaves no result; a Bedrock client that cannot be made
  throws before the cache is touched.
- Regular expressions and JSON parsing: the models start from matched specifiers, parsed feed items, a matched
  calendar version and decoded JSON fields.
- Test hooks: `resetBedrockDiscoveryCacheForTest`, which breaks the single-flight invariant on purpose, and the branch
  of the Chutes discovery for test runs.
- Windows paths, symbolic links, and directories that change while they are read; the walk of an empty root path.
- Text beyond ASCII in case mapping, and string order by UTF-16 units where characters beyond the basic plane differ.
  `localeCompare` is any ranking of names.
- Numbers: slice positions, thread ids in commands, clocks, label numbers and limits are integers; NaN and infinities
  do not occur, except for the missing limit of the label script. Texts of integers from 10^21 on and build numbers
  beyond 2^53 are exact here.
- Object keys such as `__proto__`, key order of objects that are compared as maps, and a `null` entry in the model map.
- Static data: the Chutes catalog is any list that is non-empty with distinct trimmed ids; the other fields of a
  Chutes model are those of the response entry whose number the model keeps.
- Provider setup from the environment, the command line entry points, the notifier's interval timer and the labels
  that the classifier proposes.
- IsolatedCopy.CopyModuleImportGraph: the random part of the directory name is a parameter that is unused for every
  possible package root, and the module path is absolute, as its callers pass it.
- IsolatedCopy.ResolvePreservedIff: leaves out climbing specifiers that spell the name of the fresh directory, which is
  random.
- IsolatedRootName.IsolatedRootIff: the random part of the name has no dot, as `mkdtemp` chooses it.
- CommonAncestor.ClimbTowards: the early return when the parent equals the ancestor is unreachable on absolute POSIX
  paths, which the method proves.
- NotifyTick.StateFile.Poll: a poll and a command are one step each, apart from the fate of their read and write, with a
  clock after 1970; overlapping polls and updates lost between them are covered only by
  NotifyRuns.KeysAlwaysDistinct.
- NotifyRuns.KeysAlwaysDistinct: the file starts with distinct keys; a file edited by hand need not.
- SingleFlight.DiscoveryCache.Settle: the numbered fetches are the promises of the source; the log of past fetches is
  kept for the proofs.
- SingleFlight.HitAgreesWithFetch: what a joining caller sees is the promise itself, which rejects when the fetch
  fails, while the leader then answers the empty list; no agreement is claimed.
- BlockRewriter.ReplaceTwice: markers are non-empty and have no newline.
- BlockRewriter.ReplaceMeans: the start marker is non-empty and has no newline.
- NotifyState.SameKeyIff: no `|` in addresses and accounts; NotifyState.BarsCollide shows what can happen with one.
- LabelBatches.FetchBatches: totals for the log and the mapping of a node to an item are not part of the batches.
- LabelResume.RunPhase: label calls on the server that throw count as throwing classifications; pages are fetched before
  the first batch is labelled, which makes no difference to what a run leaves; label changes and the counters of added
  labels.
- CliMigration.MergedTwiceIff: the recursive merge of an entry with itself is taken to be that entry.
- CliMigration.RewriteModelEntryMap: the conversion is a parameter whose images are not converted again, which
  CliMigration.ImageIsFinal proves of the real one.
- CliMigration.BuildMigration: profiles and notes of the result.
- TreeWalk.CollectFilesSync: the order in which files are found.
