# Verified models of the module loader, the playground bundler and the CLI plumbing

This project models the parts of the repository whose guarantees no single function can give, and proves those
guarantees for every input, every run or every reachable state.

**The AMD module manager** (`src/vs/loader.js`). `LoaderMachine` is the manager as a state machine whose actions are
the stretches of code that touch its tables without calling out; history variables record declared dependencies,
waits, releases still owed, cut edges and completed factories. `LoaderInvariants` proves an inductive invariant, and
`LoaderTheorems` draws the consequences: factories run once and after their dependencies, the counter of unresolved
dependencies is exact, waits never form a cycle, at rest a module is stuck exactly if it waits for a missing or failed
one, and a failure calls each errorback it reaches once. `LoaderFactories` proves which factories are invoked, whose
exceptions are reported, and where every error comes from. `ModuleManagers` is the manager as an object updated in
place; a ghost history ties its fields to the last state of a run of the machine, so that every theorem about
reachable states holds of the object. Scripts may be delivered inside the load request; factories and errorbacks
return or throw before the manager is called again. One promise of the code is false: `_resolve` returns early when it
meets a dependency in error and does not tell the modules that already wait. `EarlyReturnStrandsAWaiter` is a run that
hangs, `PropagationIffNotStranding` says exactly which steps leave a waiter behind, and at rest, with everything
requested defined, every module is complete if and only if errors were propagated (`AllCompleteIffPropagated`).

**Module ids** (`src/vs/loader.js`). `ModuleIds` normalises ids by rewriting text and proves that the path they stand
for is kept; `CanonicalIds` proves that the text becomes the shortest one for its place if and only if the id is tame:
it does not end in "." or in a way back up past a name, and no ".." removes an empty name. Tame ids get the same text
exactly if they lead to the same place.

**Source map concatenation** (`scripts/playground-server.ts`). `Mappings` is a plain decoder of the sections "Mappings
structure" and "Base64 VLQ" of ECMA-426, with the alphabet of section 4 of RFC 4648 written out by character. `Vlq`
proves that the tables of the code are that alphabet, and that the encoder and the decode loop agree under
JavaScript's 32-bit operators exactly for numbers below 2^30 in size. `Transcoder` is the transcoding loop as a
function from what came before and the mappings of one file to the numbers and separators it writes, for any input; it
proves that a decoder of its output has read what a decoder of its input has, moved and looked up.
`SourceMaps.AddedMeans` draws the consequence for a file added to what has been built, and `SourceMapBuilders` proves
that the builder, with its growable byte buffers, computes exactly this function.

**Bundling** (`scripts/playground-server.ts`). `Bundles` is a bundle as a function of its sources, text and map byte
by byte, and proves what it means. `Loads` is the loader as a machine of promises. In whatever order files are read
and promises settle, a load comes to rest, and always to the same: it is rejected if and only if it requests, in the
end, a file that cannot be read; it waits for ever if and only if all files can be read and one requests itself in the
end; else it is fulfilled with what the files say. `PostOrders` and `Bundlers` prove that a bundle holds what is
reachable from the entry, once, dependencies first. Two promises of the cached bundle are false. A file without a
`define` call that gets one goes unnoticed, and an update of a module to text that cannot be parsed throws and keeps
the old bundle: `Updates.StaleIff` proves that after any updates the next bundle is made of the right sources if and
only if there is no such file, and `StaleBundle` is an instance. And a load that has failed or hangs is kept:
`SetModuleContent` says exactly when an update drops it, and in `MissingFileStaysMissing` the missing file appears,
the update throws and the next bundle still fails.

**Streams over RPC** (`cli/src/rpc.rs`). `StreamMachine` interleaves the lock-protected sections of `Streams` and
`write_loop` with single item writes, failed writes and shutdowns. Single ownership of the write half, delivery
without loss and in order, shutdown only after everything was delivered, and termination of the loops are proved over
all interleavings. `StreamTable` holds the table as an object and the undisturbed write loop.

**RPC calls** (`cli/src/rpc.rs`). `RpcCalls` is both ends of a connection with everything under way between them, and
an environment that answers as it likes; the endpoint of `RpcEndpoints` is an object whose methods are proved to take
the steps of that machine. `RpcTheorems` proves that answers find the call they belong to, in whatever order requests
are worked on and answers arrive, on every run in which calls are sent with ids that no pending call holds. That
condition is exact: sending is safe if and only if the id is free (`SafeToSendIffIdIsFree`). The first 2^32 ids always
are; `WrappedIdsMixUp` is a run on which the next one is not. An answer that arrives before its call has registered is
lost, and these are the only calls that are never answered.

**MessagePack framing** (`cli/src/msgpack_rpc.rs`). `MsgPack` reads values of every MessagePack format family and
proves that an answer never depends on later bytes. `MsgPackFormats` is the writer's side, the formats section of the
MessagePack specification with every legal width, and proves that the reader's three answers are exact for it: a
value, a demand for more bytes, or a refusal. `Framing` proves that encoded messages are received one by one, and that
the frames depend on the bytes alone, not on how they were split into reads.

**Keyring chunks** (`cli/src/auth.rs`). `Keyrings` characterises exactly when a stored secret is read back, and how a
reading ends.

**Download cache** (`cli/src/download_cache.rs`, `cli/src/state.rs`). `LruLists` proves size, order and tracking of
the least-recently-used list over runs with failed writes, failed removals, interrupted creations, interrupted
deletions and restarts. While removals succeed the list never has more than `KEEP_LRU` names, and as long as nothing
is interrupted or lost there are no more directories either. That every cached directory is in the list, so that it
can be evicted one day, is false in three ways: a name can be evicted between its touch and the rename of its
directory; a deletion that has removed its directory, or found none, can forget a name whose directory has been
created since; and a list that was not saved is lost in a restart, while `create` ignores the error. `TrackedIff`
proves that an operation lets a directory escape if and only if it is one of these three. `OrderedIff` proves which
failed saves can spoil the order of the list.

Scripts, factories, callbacks, the file system, the keyring service, sockets and the clock are parameters or
environment steps. Nothing was executed.

## Model

| member | source | states |
|---|---|---|
| LoaderInvariants.StepKeepsInv | src/vs/loader.js:1352-1787 | every action keeps the invariant: counters, waits as the transpose of the inverse table, settled scans, sound cuts, acyclic waits, ordered completions |
| LoaderInvariants.ReachableInv | src/vs/loader.js:1352-1787 | the invariant holds in every state any interleaving of actions can reach |
| LoaderInvariants.AddWaitAcyclic | src/vs/loader.js:1685-1698 | a wait recorded after the search found no path closes no cycle of waits, since every wait is an edge the search walks |
| LoaderTheorems.FactoryOrderAndOnce | src/vs/loader.js:1722-1764 | no factory runs twice; it gets one argument for each dependency: the special ones where they are asked for, else the exports of the module the dependency names, also on a cycle; that module completed before, unless that edge was cut |
| LoaderTheorems.CompletionsAreFinal | src/vs/loader.js:1139-1180 | no action takes a completion, a run or a log entry back |
| LoaderTheorems.CounterIsExact | src/vs/loader.js:1107 | the counter of an incomplete module is its occurrences in all inverse lists, plus releases still owed on the recursion stack, plus unscanned dependencies |
| LoaderTheorems.WaitsNeverCycle | src/vs/loader.js:1696-1698 | the inverse dependency table is acyclic in every reachable state |
| LoaderTheorems.CutsLieOnCycles | src/vs/loader.js:1685-1695 | a dependency is cut only if it leads back to its dependent through declared dependencies |
| LoaderTheorems.StuckIffBlocked | src/vs/loader.js:1658-1787 | at rest, a module that has not failed is incomplete if and only if it waits, through others, for a requested id that is not defined or a failed module |
| LoaderTheorems.NoDeadlock | src/vs/loader.js:1658-1787 | at rest, without failures and with everything requested defined, every module has run, cycles or not |
| LoaderTheorems.FloodReachesExactlyTheWaiters | src/vs/loader.js:1464-1498 | what the failure step of the machine means: it reaches exactly the id and what waits for it, directly or not, and leaves all others as they were (that the walk of the code is this step is proved in ModuleManagers.ModuleManager.VisitWaiters and Flood) |
| LoaderTheorems.FloodSparesTheRun | src/vs/loader.js:1464-1498 | a module whose factory ran is never overwritten by the failure of another |
| LoaderTheorems.FailureIsHeardOnce | src/vs/loader.js:1474-1497 | the global handler is called if and only if no reached module has an errorback |
| LoaderTheorems.ErrorbacksAreCalledOnce | src/vs/loader.js:1464-1498 | what the failure step of the machine means for errorbacks: that of each module it reaches is called once, and no other (that the walk of the code does so is proved in ModuleManagers.ModuleManager.VisitWaiters and Flood) |
| LoaderTheorems.PropagationIffNotStranding | src/vs/loader.js:1676-1684 | an action keeps errors propagated to all waiters if and only if it is not a scan that stops at an error while somebody waits |
| LoaderTheorems.AllCompleteIffPropagated | src/vs/loader.js:1658-1787 | at rest, with everything requested defined, every module is complete if and only if errors were propagated to all waiters |
| LoaderTheorems.CalmRunsPropagate | src/vs/loader.js:1676-1684 | a run in which no scan gives up while somebody waits for its module has propagated all errors |
| LoaderTheorems.CalmRunsNeverHang | src/vs/loader.js:1658-1787 | such a run, at rest with everything requested defined, has completed every module |
| LoaderTheorems.EarlyReturnStrandsAWaiter | src/vs/loader.js:1678-1681 | a reachable state at rest, everything requested defined, in which a module waits for ever for one in error |
| LoaderFactories.FactoriesAreHeeded | src/vs/loader.js:1139-1168 | a module that runs has its factory invoked if and only if it was defined with one; the global handler hears of a factory if and only if it has run and thrown, once; a module that has run is in error exactly if its factory threw or its own load failed afterwards |
| LoaderFactories.ErrorsAreFounded | src/vs/loader.js:1464-1498 | a module in error has it from a factory that threw or a load that failed, its own or that of a module its declared dependencies lead to |
| LoaderFactories.DefinitionsAreKept | src/vs/loader.js:1352-1370 | from its definition on a module has the dependencies it was defined with, and until it has run the callback and errorback too |
| ModuleManagers.Module.constructor | src/vs/loader.js:1097-1109 | a new module counts all its dependencies as unresolved |
| ModuleManagers.Module.Complete | src/vs/loader.js:1139-1168 | complete, with dependencies, callback and errorback dropped, and in error if the factory threw |
| ModuleManagers.Module.OnDependencyError | src/vs/loader.js:1172-1180 | complete with the error; says whether an errorback took it |
| ModuleManagers.ModuleManager.constructor | src/vs/loader.js:1233-1252 | an empty manager is at the start of a run |
| ModuleManagers.ModuleManager.HasDependencyPath | src/vs/loader.js:1505-1541 | terminates; true if and only if a non-empty path of dependencies of modules that have not run leads from one to the other |
| ModuleManagers.ModuleManager.EnqueueDependencies | src/vs/loader.js:1521-1537 | one round of the search: found, or all new defined dependencies queued, and the queue stays without duplicates |
| ModuleManagers.ModuleManager.DependencyValues | src/vs/loader.js:1728-1757 | the arguments of a factory, position by position, as the function says that LoaderTheorems.FactoryOrderAndOnce pins |
| ModuleManagers.ModuleManager.RunFactory | src/vs/loader.js:1728-1764 | the tables after one completion; the list of waiters is taken out |
| ModuleManagers.ModuleManager.CompleteAndDetach | src/vs/loader.js:1722-1764 | a completion is one step of the run, and its waiters are owed a release |
| ModuleManagers.ModuleManager.ReleaseWaiter | src/vs/loader.js:1769-1772 | a release pays one debt; says whether the waiter is ready |
| ModuleManagers.ModuleManager.ReleaseAndComplete | src/vs/loader.js:1769-1774 | one release and the completions it causes; no other debt remains, nobody ready is left incomplete |
| ModuleManagers.ModuleManager.OnModuleComplete | src/vs/loader.js:1722-1776 | the recursion terminates, pays all debts it made, and leaves nobody ready but incomplete |
| ModuleManagers.ModuleManager.CompleteIfReady | src/vs/loader.js:1718-1720 | afterwards nobody is ready but incomplete |
| ModuleManagers.ModuleManager.Credit | src/vs/loader.js:1663-1695 | a resolved or cut dependency is one step of the scan |
| ModuleManagers.ModuleManager.FailWith | src/vs/loader.js:1678-1681 | the module takes the error over, and its errorback, if it has one, is called once |
| ModuleManagers.ModuleManager.TakeOverError | src/vs/loader.js:1678-1681 | a dependency in error ends the scan and fails the module; the call of its errorback is recorded |
| ModuleManagers.ModuleManager.RecordInverse | src/vs/loader.js:1696-1698 | the wait is recorded at the end of the inverse list |
| ModuleManagers.ModuleManager.WaitFor | src/vs/loader.js:1696-1715 | the wait is recorded and the dependency requested, even if its script runs inside the request |
| ModuleManagers.ModuleManager.ResolveOne | src/vs/loader.js:1662-1715 | one dependency is treated as the machine's scan treats it |
| ModuleManagers.ModuleManager.ResolveAll | src/vs/loader.js:1660-1717 | all dependencies are scanned, or the scan stops at an error |
| ModuleManagers.ModuleManager.Resolve | src/vs/loader.js:1658-1721 | the module and everything defined meanwhile are scanned to the end, and nobody ready is left incomplete |
| ModuleManagers.ModuleManager.EnqueueInverse | src/vs/loader.js:1484-1493 | unseen waiters are queued, and the queue stays without duplicates |
| ModuleManagers.ModuleManager.FloodOne | src/vs/loader.js:1479-1483 | one module takes the error over, and its errorback, if it has one, is called once |
| ModuleManagers.ModuleManager.VisitNext | src/vs/loader.js:1476-1493 | one round of the walk: the first of the queue takes the error over and is done, its unseen waiters are queued |
| ModuleManagers.ModuleManager.VisitWaiters | src/vs/loader.js:1469-1494 | the walk visits exactly what the inverse edges reach, each once, calls the errorbacks along the way and no others, and knows whether anyone was notified |
| ModuleManagers.ModuleManager.Flood | src/vs/loader.js:1469-1497 | the tables after a load error, and the errorbacks called in the order of the visit, in which every module it reaches occurs once |
| ModuleManagers.ModuleManager.InsertPlaceholder | src/vs/loader.js:1465-1468 | an id without a module gets an empty one, the others stay |
| ModuleManagers.ModuleManager.FailAll | src/vs/loader.js:1464-1498 | the module of the id, or an empty one in its place, and all that wait for it have failed |
| ModuleManagers.ModuleManager.OnLoadError | src/vs/loader.js:1464-1498 | a load error is exactly one failure step, with a placeholder for an undefined id |
| ModuleManagers.ModuleManager.LoadModule | src/vs/loader.js:1591-1633 | an id is requested once; the run goes on with every definition its script makes, in turn, with that definition's dependencies and callback, then with the nameless one under the id of the script, or with its failure |
| ModuleManagers.ModuleManager.RunDefinitions | src/vs/loader.js:1620-1626 | for each definition of a script that is new when its turn comes, the run has the step that defines this id with these dependencies and this callback; a duplicate adds nothing |
| ModuleManagers.ModuleManager.RunScript | src/vs/loader.js:1599-1633 | a delivered script adds to the run its definitions in turn, and then its end |
| ModuleManagers.ModuleManager.RunAnonymous | src/vs/loader.js:1332-1345 | a nameless definition becomes pending, or breaks its script off if another one is; nothing else changes |
| ModuleManagers.ModuleManager.EndScript | src/vs/loader.js:1443-1498 | a script that ran gives its name to the pending nameless definition, its own or one a failed script has left, which enters the run with its dependencies and callback; a script that failed is exactly one failure step and leaves it pending |
| ModuleManagers.ModuleManager.Insert | src/vs/loader.js:1361-1362 | a new module object enters the table, the others stay |
| ModuleManagers.ModuleManager.DefineModule | src/vs/loader.js:1352-1370 | a duplicate changes nothing; otherwise the run goes on with this very definition and its resolution |
| ModuleManagers.ModuleManager.EnqueueDefineAnonymousModule | src/vs/loader.js:1332-1345 | one anonymous definition per script; a second one is refused |
| ModuleManagers.ModuleManager.Define | src/vs/loader.js:1352-1370 | a manager at rest is at rest again after a definition |
| ModuleManagers.ModuleManager.OnLoad | src/vs/loader.js:1443-1450 | the pending nameless definition, if there is one, gets the name of the script |
| ModuleManagers.ModuleManager.OnLoadFailed | src/vs/loader.js:1464-1498 | a manager at rest is at rest again after a load error, one step further |
| ModuleIdProviders.DistinctNamesDistinctIds | src/vs/loader.js:1202-1210 | two names have the same number exactly if they are the same |
| ModuleIdProviders.ModuleIdProvider.constructor | src/vs/loader.js:1190-1198 | exports, module and require are numbers 0, 1 and 2 |
| ModuleIdProviders.ModuleIdProvider.GetModuleId | src/vs/loader.js:1202-1210 | numbers never change, a new name gets the next one |
| ModuleIdProviders.ModuleIdProvider.GetStrModuleId | src/vs/loader.js:1211-1213 | the inverse of getModuleId |
| ModuleIds.NormalizeModuleId | src/vs/loader.js:1061-1078 | the loops terminate and compute the rewriting function the lemmas below are about |
| ModuleIds.NormalizedIsNormal | src/vs/loader.js:1061-1078 | the path an id stands for is kept, and none of the four patterns is left |
| ModuleIds.NormalizingIsIdempotent | src/vs/loader.js:1061-1078 | normalising twice is normalising once |
| ModuleIds.RemoveDotsResult | src/vs/loader.js:1063-1067 | no "/./" is left, the path is kept |
| ModuleIds.RemoveUpsResult | src/vs/loader.js:1070-1074 | no name followed by "/../" is left inside, the path is kept; the earlier passes are not undone |
| ModuleIds.DropFirstUpResult | src/vs/loader.js:1075-1076 | one pass at the front is enough |
| CanonicalIds.NormalizedIsShortestIff | src/vs/loader.js:1058-1078 | an id becomes the shortest text for its place if and only if it is tame: it does not end in "." or in a ".." that goes back past a name, and no ".." goes back past an empty name |
| CanonicalIds.SameTextIffSamePlace | src/vs/loader.js:1058-1078 | two tame ids get the same text if and only if they lead to the same place |
| CanonicalIds.ResolvedFromTheDirectory | src/vs/loader.js:1042-1090 | an id that starts with "./" or "../" and is no absolute path leads where it says, seen from the directory of the requesting module, also if that has no slash; any other id stays as it is |
| CanonicalIds.TrailingUpStays | src/vs/loader.js:1061-1078 | "a/.." stays as it is although its place needs no text |
| Vlq.RoundTripIff | scripts/playground-server.ts:849-868 | the decode loop returns n from the characters written for n, consuming exactly those, if and only if n is below 2^30 in size |
| Vlq.AlphabetInverse | scripts/playground-server.ts:816-824 | the two base64 tables are inverse on the 64 digits |
| Vlq.TablesFollowTheString | scripts/playground-server.ts:816-824 | each table has exactly the entries the string of 65 characters gives it, and 255 elsewhere |
| Vlq.TablesAreStandard | scripts/playground-server.ts:816-824 | both tables agree with Table 1 of RFC 4648, written out character by character; the only further entry is that of "=" |
| Vlq.ShiftExact | scripts/playground-server.ts:772 | a digit that fits into 31 bits is shifted exactly, whatever the shift distance wraps to |
| DynamicBuffers.DynamicBuffer.constructor | scripts/playground-server.ts:830-833 | empty |
| DynamicBuffers.DynamicBuffer.EnsureCapacity | scripts/playground-server.ts:835-842 | growing keeps the contents |
| DynamicBuffers.DynamicBuffer.AddByte | scripts/playground-server.ts:844-847 | one byte is appended |
| DynamicBuffers.DynamicBuffer.AddDigits | scripts/playground-server.ts:858-867 | the base 32 digits are appended, least significant first |
| DynamicBuffers.DynamicBuffer.AddVLQ | scripts/playground-server.ts:849-868 | the encoding of any number is appended, also beyond 32 bits |
| DynamicBuffers.DynamicBuffer.AddBuffer | scripts/playground-server.ts:870-881 | all bytes are appended, in order |
| DynamicBuffers.DynamicBuffer.ToBuffer | scripts/playground-server.ts:883-885 | the bytes written, without the spare capacity |
| Mappings.EncodeReadsAs | scripts/playground-server.ts:849-868 | a standard decoder, in whatever state between two fields, reads the bytes written for n as a field that moves by n |
| Transcoding.PaddedIffWithin | scripts/playground-server.ts:790-794 | padding ends at the line after the source, holding all its segments, if and only if the map stayed within its lines |
| Transcoding.CarriesSeparator | scripts/playground-server.ts:760-768 | a committed segment and a separator keep output and input in step |
| Transcoder.BytesRead | scripts/playground-server.ts:741-757 | a decoder reads the written bytes as the numbers and separators they were written for |
| Transcoder.FollowsMore | scripts/playground-server.ts:772-774 | a digit with the continuation bit keeps the loop's variables in the state of a standard decoder |
| Transcoder.FollowsLast | scripts/playground-server.ts:775-787 | so does the last digit of a field, with its sign split off by 32-bit operators |
| Transcoder.CommitIsRead | scripts/playground-server.ts:741-757 | a decoder reads what a commit writes as the pending segment of the input, its source looked up |
| Transcoder.NoSourceWritesZero | scripts/playground-server.ts:749-751 | a segment whose source the file does not have writes "A" for it, and the running index is undefined afterwards |
| Transcoder.SeparatorInStep | scripts/playground-server.ts:760-768 | a commit and a separator keep output and input in step |
| Transcoder.TranscodedIsRead | scripts/playground-server.ts:731-790 | a decoder of all that is written for a good map has read what a decoder of the map has, moved and looked up |
| SourceMaps.CountNewLines | scripts/playground-server.ts:888-894 | the number of newlines |
| SourceMaps.NewSource | scripts/playground-server.ts:680-697 | a file that is not empty ends its last line, and sourceLines is its number of lines |
| SourceMaps.IndexOf | scripts/playground-server.ts:722 | the first position, or -1 if absent |
| SourceMaps.RemappedLooks | scripts/playground-server.ts:720-728 | the list of sources keeps its order and stays free of duplicates, what is new in it comes from the file, and the table leads to the same names |
| SourceMaps.MeaningGrows | scripts/playground-server.ts:716-795 | adding moved segments adds their meaning and changes none before |
| SourceMaps.DecodableIsClean | scripts/playground-server.ts:770-771 | a map that a standard decoder accepts is never refused |
| SourceMaps.TranscodedOutput | scripts/playground-server.ts:731-794 | decoding the output goes on from before with the moved segments of the file, and ends on the line after it if and only if they stay within its lines |
| SourceMaps.AddedMeans | scripts/playground-server.ts:716-795 | a file is refused exactly for a character outside the table; decoding the output with a decodable file gives what it gave before, followed by the segments of the file by name, moved down; the next file starts on the right line if and only if the map stays within its file |
| SourceMaps.LineMeans | scripts/playground-server.ts:710-714 | a line of text without mappings means nothing and is one line |
| SourceMapBuilders.SourceMapBuilder.constructor | scripts/playground-server.ts:700-708 | nothing written, all totals zero |
| SourceMapBuilders.SourceMapBuilder.WriteOrigin | scripts/playground-server.ts:749-755 | source, line and column relative to the running totals, which then are these |
| SourceMapBuilders.SourceMapBuilder.Commit | scripts/playground-server.ts:741-757 | no, one or four fields, as the function that is proved to be read back says |
| SourceMapBuilders.SourceMapBuilder.WriteSeparator | scripts/playground-server.ts:760-768 | a commit and the separator; a semicolon starts a new line of the loop |
| SourceMapBuilders.SourceMapBuilder.TakeByte | scripts/playground-server.ts:759-788 | one byte is a separator, a digit, or refused for not being in the table |
| SourceMapBuilders.SourceMapBuilder.TranscodeBytes | scripts/playground-server.ts:758-789 | the loop writes what its function says for all bytes, or stops at the first character outside the table |
| SourceMapBuilders.SourceMapBuilder.Transcode | scripts/playground-server.ts:729-790 | what is written for a whole map is what its function says |
| SourceMapBuilders.SourceMapBuilder.RemapSources | scripts/playground-server.ts:720-728 | the list of sources stays free of duplicates, gains only names of the file, and the table leads to the same names |
| SourceMapBuilders.SourceMapBuilder.Pad | scripts/playground-server.ts:791-794 | as many empty lines as the source has left |
| SourceMapBuilders.SourceMapBuilder.AddMappings | scripts/playground-server.ts:729-794 | the mappings go on with exactly the bytes of the transcoded, padded map |
| SourceMapBuilders.SourceMapBuilder.AddSource | scripts/playground-server.ts:716-795 | text, names, mappings and totals become those of the function AddedMeans is about, byte by byte and for any map, and it fails exactly where that does |
| SourceMapBuilders.SourceMapBuilder.AddLine | scripts/playground-server.ts:710-714 | a line of text, and a line without mappings |
| SourceMapBuilders.SourceMapBuilder.ToContent | scripts/playground-server.ts:797-799 | the text built so far |
| SourceMapBuilders.SourceMapBuilder.ToSourceMap | scripts/playground-server.ts:801-803 | the names and mappings built so far, with the given source root |
| Bundles.LinesAreThoseOfTheText | scripts/playground-server.ts:685-689 | the lines a map is moved down by are the newlines of the text above it |
| Bundles.AllAddedKeep | scripts/playground-server.ts:501-516 | several files can be added exactly if each map can be read; text and names are those of the files in order |
| Bundles.AllAddedMean | scripts/playground-server.ts:501-516 | if the maps of several files fit, the output means what each of them means, moved down below the files before |
| Bundles.BundleMeans | scripts/playground-server.ts:501-525 | a bundle exists exactly if every map can be read; it is the contents in order and a line with a map that names the sources of the files, each once, and that means what the maps of the files mean |
| PostOrders.OrderIsReachable | scripts/playground-server.ts:501-516 | the visit lists exactly the modules reachable from the entry, each once |
| PostOrders.OrderIsTopological | scripts/playground-server.ts:505-514 | without cycles every module comes after all its dependencies |
| Bundling.LoadedBundlesDisk | scripts/playground-server.ts:551-588 | the sources a loader bundles are those the files on disk give |
| Bundling.LoadedBundleIsFresh | scripts/playground-server.ts:472-485 | a loader in step with the files bundles, text and map, what a fresh one would |
| Bundling.RequestedIff | scripts/playground-server.ts:564-574 | a file is requested if and only if some request other than the three special ones leads to it |
| Loads.StepKeepsInv | scripts/playground-server.ts:551-588 | reading a file, rejecting and fulfilling a promise keep: every settled promise says what the files say, and nothing is loaded that the entry does not request in the end |
| Loads.LoadsAreShort | scripts/playground-server.ts:551-588 | every schedule of events keeps that, and ends after two events a file at most |
| Loads.LoadsEndWell | scripts/playground-server.ts:551-588 | at rest, a promise is rejected if and only if a file that cannot be read is requested in the end, pending if and only if all can be read and one requests itself in the end, and else fulfilled with what the files say |
| Loads.SchedulesAgree | scripts/playground-server.ts:551-588 | the order in which files are read and promises settle makes no difference |
| Loads.FulfilledAreLoaded | scripts/playground-server.ts:564-583 | the fulfilled modules are those of the files with the dependencies among them, and all that was loaded if the entry is one |
| Updates.UpdateStaysInStep | scripts/playground-server.ts:487-549 | along any updates without a reload the modules are those of the files, as far as the loader has noticed |
| Updates.HiddenAfter | scripts/playground-server.ts:487-549 | which files have changed without being noticed, after one more update |
| Updates.BrokenIsDoom | scripts/playground-server.ts:536-541 | with a loaded file that can no longer be parsed a fresh load fails |
| Updates.UnnoticedIsStale | scripts/playground-server.ts:487-498 | with a file that has got a define call unnoticed the next bundle is made of fewer sources than it should be |
| Updates.StaleIff | scripts/playground-server.ts:487-549 | after any updates without a reload, the next bundle is made of the sources a fresh loader would bundle, if there are any, if and only if no file has changed unnoticed |
| Updates.StaleBundle | scripts/playground-server.ts:487-498 | an update after which the bundle lacks the text of the file that has got its define call |
| Bundlers.BundleIsTopological | scripts/playground-server.ts:501-516 | a bundle of files that can be loaded holds exactly what the entry needs, each module once, dependencies first |
| Bundlers.ModuleLoader.constructor | scripts/playground-server.ts:527-530 | nothing loaded |
| Bundlers.ModuleLoader.AddModuleAndDependencies | scripts/playground-server.ts:551-554 | the load of a file begins, unless it has begun before |
| Bundlers.ModuleLoader.AddAll | scripts/playground-server.ts:564-574 | the loads of all requests begin, in order, but for special ones and those that lead nowhere |
| Bundlers.ModuleLoader.OnRead | scripts/playground-server.ts:556-574 | a file that has been read, or could not be, is the event of the machine |
| Bundlers.ModuleLoader.CollectDependencies | scripts/playground-server.ts:564-574 | the modules among the requests in request order, unless one of them has been rejected |
| Bundlers.ModuleLoader.OnSettled | scripts/playground-server.ts:564-583 | a promise whose requests have settled is rejected or fulfilled as in the machine |
| Bundlers.ModuleLoader.Run | scripts/playground-server.ts:551-588 | taking events in any order until none is left terminates, at rest |
| Bundlers.ModuleLoader.UpdateContent | scripts/playground-server.ts:536-549 | replaces the source, or refuses a file that has no define call or requests something else |
| Bundlers.VisitDependencies | scripts/playground-server.ts:510-512 | the builder becomes what adding the dependencies in order makes of it, up to a map that cannot be read |
| Bundlers.VisitModule | scripts/playground-server.ts:505-514 | the builder becomes what adding a module after its dependencies makes of it, unless visited |
| Bundlers.BundleWithDependencies | scripts/playground-server.ts:501-525 | the bundle equals the one BundleMeans is about, of the modules in that order, with the source root of the entry |
| Bundlers.RestIsFresh | scripts/playground-server.ts:472-485 | a load that has come to rest gives a bundle, fails or hangs as the files alone decide |
| Bundlers.UpdateInStep | scripts/playground-server.ts:487-498 | an update in place keeps the outcome of the entry's load, and freshness is again decided by the files that changed unnoticed |
| Bundlers.UpdateEndsExactly | scripts/playground-server.ts:487-498 | an update hangs exactly on a load that does, and throws exactly on a failed load or a loaded module that can no longer be parsed |
| Bundlers.MissingFileStaysMissing | scripts/playground-server.ts:472-498 | a load that failed for a missing file: the file appears, the update throws, the next bundle fails although a fresh load would not |
| Bundlers.CachedBundle.constructor | scripts/playground-server.ts:460-471 | nothing loaded, nothing cached |
| Bundlers.CachedBundle.Load | scripts/playground-server.ts:476-479 | the entry and everything it requests is loaded until nothing is left to do |
| Bundlers.CachedBundle.BundleLoaded | scripts/playground-server.ts:480-482 | the bundle of the loaded modules, an exception, or nothing ever |
| Bundlers.CachedBundle.Bundle | scripts/playground-server.ts:472-485 | with nothing loaded, the reply is the bundle of the files, an exception or a promise that never settles, as the files decide; with files loaded it is that of the loaded modules, and the same as long as they are those on disk |
| Bundlers.CachedBundle.SetModuleContent | scripts/playground-server.ts:487-498 | waits for ever, throws or is done, exactly as the file's own promise decides; a failed or hanging load is dropped only for a module that requests something else or has lost its define call; after any history of updates the next bundle is made of the sources on disk if and only if no file changed unnoticed |
| Bundlers.CachedBundle.ApplyUpdate | scripts/playground-server.ts:487-498 | the loaded module is updated in place, or the loader dropped, or nothing changed |
| StreamTable.Streams.constructor | cli/src/rpc.rs:537-540 | an empty table |
| StreamTable.Streams.Insert | cli/src/rpc.rs:575-585 | the critical section of insert |
| StreamTable.Streams.Write | cli/src/rpc.rs:564-573 | the critical section of write, and the half a loop is spawned with |
| StreamTable.Streams.Remove | cli/src/rpc.rs:543-562 | the critical section of remove, and the half to shut down |
| StreamTable.Streams.Turn | cli/src/rpc.rs:603-622 | the critical section of one turn of the write loop |
| StreamTable.Pipe.WriteAll | cli/src/rpc.rs:624-628 | the items are written in order |
| StreamTable.WriteLoop | cli/src/rpc.rs:596-631 | undisturbed, the loop writes the whole queue, then hands the half back or removes the record and shuts down |
| StreamInvariants.StepKeepsInv | cli/src/rpc.rs:543-631 | every atomic section, item write, failed write and shutdown keeps ownership and delivery |
| StreamInvariants.ReachableInv | cli/src/rpc.rs:543-631 | they hold in every state any interleaving can reach |
| StreamTheorems.SingleOwner | cli/src/rpc.rs:549-618 | a write half is closed, or in its own idle record, or with exactly one task; a record that has it is empty and not ended |
| StreamTheorems.OneLoopPerStream | cli/src/rpc.rs:564-573 | at most one write loop runs for a stream |
| StreamTheorems.LoopFindsItsRecord | cli/src/rpc.rs:605-608 | the branch for a missing record is never taken, and nothing is left to swap back into the queue |
| StreamTheorems.EveryTaskCanStep | cli/src/rpc.rs:596-631 | no task is ever stuck and a write is never held up |
| StreamTheorems.NothingIsLost | cli/src/rpc.rs:564-628 | delivered, then in flight, then queued bytes are all that was accepted, in order |
| StreamTheorems.IdleMeansDelivered | cli/src/rpc.rs:596-631 | a stream without a task has delivered everything, and is closed if and only if it was removed |
| StreamTheorems.ClosedAfterEverything | cli/src/rpc.rs:543-631 | a half is shut down only after a removal and after everything accepted was delivered, before or after the removal |
| StreamTheorems.FailuresOnlyDrop | cli/src/rpc.rs:624-628 | with failed writes the delivered bytes are a subsequence of the accepted ones |
| StreamTheorems.RunsOnlyAppend | cli/src/rpc.rs:543-631 | along any run delivered and accepted bytes only grow, and never after closing |
| StreamTheorems.LoopsEnd | cli/src/rpc.rs:602-631 | without new writes, however steps interleave, the loop of a stream ends within a bound |
| RpcCalls.StepKeepsInv | cli/src/rpc.rs:342-450 | every step that sends no call with an id in use keeps messages, table and callbacks consistent |
| RpcTheorems.AnswersFindTheirCall | cli/src/rpc.rs:342-450 | a callback is invoked at most once, with the answer to its own request, also when equal requests are answered differently, in every order of work and delivery |
| RpcTheorems.PendingIsExact | cli/src/rpc.rs:363-381 | the table holds exactly the calls registered and not answered since |
| RpcTheorems.AnswersAreFinal | cli/src/rpc.rs:420-450 | the answer to a request is never replaced by another one |
| RpcTheorems.EveryRequestIsAnswered | cli/src/rpc.rs:420-450 | with no request under way or being worked on, every request has its answer, with its id |
| RpcTheorems.UnansweredIffEarly | cli/src/rpc.rs:356-381 | with nothing under way, a registered call is unanswered if and only if at some moment of the run its answer was delivered before it had registered |
| RpcTheorems.EarlyAnswerIsLost | cli/src/rpc.rs:356-381 | a run at the end of which nothing is under way and a registered call waits for ever |
| RpcTheorems.FewIdsAreFree | cli/src/rpc.rs:397-400 | while at most 2^32 ids were issued, every call was sent with a free one |
| RpcTheorems.SafeToSendIffIdIsFree | cli/src/rpc.rs:342-400 | a call can be sent without any callback ever being given the answer to another call if and only if no pending call holds its id |
| RpcTheorems.WrappedIdsMixUp | cli/src/rpc.rs:397-400 | a run with 2^32 + 1 ids on which a callback is given the answer to another call |
| RpcEndpoints.SendMatches | cli/src/rpc.rs:342-362 | taking an id and sending a request does to the endpoint's table what the machine does |
| RpcEndpoints.DeliverMatches | cli/src/rpc.rs:437-448 | an answer does to the table and the callbacks what the machine does when it delivers it, whether or not its id is registered |
| RpcEndpoints.RequestHandled | cli/src/rpc.rs:420-436 | a dispatcher reacts to a request as the machine handles it: an answer at once, or being worked on and the same answer later |
| RpcEndpoints.AnswerTells | cli/src/rpc.rs:420-436 | an answer is a success if and only if the method exists, its parameters can be read and its callback succeeds, and then it is the callback's result; otherwise code and message tell which of these failed |
| RpcEndpoints.CallIsAnswered | cli/src/rpc.rs:342-450 | a call sent with a free id, registered, handled and answered gets what the method's callback has given, or why it has given nothing, once |
| RpcEndpoints.RpcEndpoint.constructor | cli/src/rpc.rs:55-64 | no calls pending, at the start of the machine |
| RpcEndpoints.RpcEndpoint.NextMessageId | cli/src/rpc.rs:397-400 | consecutive 32-bit ids, wrapping around |
| RpcEndpoints.RpcEndpoint.SendRequest | cli/src/rpc.rs:342-360 | the first half of a call is a send of the machine, or only takes an id |
| RpcEndpoints.RpcEndpoint.RegisterCallback | cli/src/rpc.rs:362-381 | the second half is the registration of the machine, whatever came in between |
| RpcEndpoints.RpcEndpoint.Call | cli/src/rpc.rs:342-381 | a sent call is registered under its id, an unsent one is not; undisturbed it is a send and a registration |
| RpcEndpoints.RpcEndpoint.TakeAnswer | cli/src/rpc.rs:437-448 | an answer removes and invokes the callback of its id, once, or nobody's, as the machine delivers it |
| RpcEndpoints.RpcEndpoint.DispatchWithPartial | cli/src/rpc.rs:420-450 | each request gets one reply with its id, or none without an id, on the sync, async, duplex, unknown-method and bad-parameter paths; each answer invokes the callback of its id once; both are steps of the machine |
| MsgPack.OneIsStable | cli/src/msgpack_rpc.rs:143-160 | an answer other than "more bytes" stays the same when bytes follow |
| MsgPack.OneLooksNoFurther | cli/src/msgpack_rpc.rs:143-160 | a value is read from its own bytes alone |
| MsgPack.WaitsExactly | cli/src/msgpack_rpc.rs:143-160 | more bytes are asked for until the last byte of a value is there, and not once more |
| MsgPackFormats.EncodedIsRead | cli/src/msgpack_rpc.rs:139-162 | every value, in every format and width the MessagePack specification allows for it, is read back from its bytes, and no byte more |
| MsgPackFormats.ReadIsEncoded | cli/src/msgpack_rpc.rs:139-162 | whatever is read off the front of a buffer is some value in some format that stands there |
| MsgPackFormats.AnswersAreExact | cli/src/msgpack_rpc.rs:139-162 | a value is read if and only if an encoding of one is at the front; more bytes are asked for if and only if none is yet but bytes could follow that make one; the bytes are bad if and only if no bytes could |
| Framing.Decode | cli/src/msgpack_rpc.rs:139-162 | a frame is taken off the front, or the buffer stays as it is |
| Framing.DrainBuffer | cli/src/msgpack_rpc.rs:71 | all frames of the buffer, up to a bad one |
| Framing.ReadLoop | cli/src/msgpack_rpc.rs:66-97 | the frames of the whole stream, whatever the reads; frames and rest together are the bytes read |
| Framing.ChunkingIndependent | cli/src/msgpack_rpc.rs:66-97 | reading piece by piece gives the frames, the rest and the failure of reading all at once |
| Framing.SplitsAgree | cli/src/msgpack_rpc.rs:66-97 | two splits of the same bytes give the same result |
| Framing.FramesPartitionTheBytes | cli/src/msgpack_rpc.rs:155-160 | the bytes of all frames, then the rest, are the input; reading stops only for want of bytes or at a bad one |
| Framing.EveryFrameIsOneValue | cli/src/msgpack_rpc.rs:155-160 | every frame is exactly one value and at least one byte |
| Framing.SentIsReceived | cli/src/msgpack_rpc.rs:66-97 | messages sent one after the other arrive one by one and nothing remains |
| Framing.FramesAreEncodings | cli/src/msgpack_rpc.rs:155-160 | a frame is a value with the bytes of one of its encodings, and nothing else is |
| Framing.MessagesAreReceived | cli/src/msgpack_rpc.rs:66-97 | messages encoded in any legal formats, sent one after the other and split into any reads, are received one by one with nothing left |
| Keyrings.ReadAfterStore | cli/src/auth.rs:308-352 | what is read after a store into any keyring |
| Keyrings.RoundTripIff | cli/src/auth.rs:308-352 | the secret is read back if and only if it is clean, or an old entry happens to complete it |
| Keyrings.CleanIffAlwaysReadBack | cli/src/auth.rs:330-352 | clean means: read back from every keyring; it is a length that is no multiple of the step and a last piece not ending in the marker |
| Keyrings.WholeStepsAreLost | cli/src/auth.rs:337-341 | a whole number of steps is not read back from a fresh keyring |
| Keyrings.WrittenEntries | cli/src/auth.rs:330-352 | only the entries of the secret are written, and all of them when all goes well |
| Keyrings.RefusedStoreStops | cli/src/auth.rs:346-348 | a store succeeds if and only if none of its entries is refused |
| Keyrings.ReadingEnds | cli/src/auth.rs:308-328 | a reading follows the marked entries up to the first that is not marked, and tells an entry that cannot be read from a missing one and from one that ends the secret |
| KeyringStorages.KeyringStorage.constructor | cli/src/auth.rs:287-292 | no entry looked up yet |
| KeyringStorages.KeyringStorage.GetNextEntry | cli/src/auth.rs:294-305 | entry i, looked up at most once |
| KeyringStorages.KeyringStorage.Store | cli/src/auth.rs:330-352 | the loop writes what the specification says and stops at a refusal |
| KeyringStorages.KeyringStorage.Read | cli/src/auth.rs:308-328 | the loop terminates with the text, a missing entry or an unreadable one |
| KeyringStorages.KeyringStorage.Clear | cli/src/auth.rs:354-364 | deletes every known entry, or stops at the first that is missing or refused; after success nothing is read |
| KeyringStorages.DeletesAllIff | cli/src/auth.rs:356-360 | deleting gets to the end if and only if every entry is there and lets itself be deleted |
| KeyringStorages.ClearableIffClean | cli/src/auth.rs:354-364 | on a fresh keyring a stored secret can be cleared if and only if it can be read back |
| PersistedStates.StateFile.constructor | cli/src/state.rs:33-34 | no file yet |
| PersistedStates.PersistedStateContainer.constructor | cli/src/state.rs:107-115 | nothing cached yet |
| PersistedStates.PersistedStateContainer.LoadOrGet | cli/src/state.rs:46-59 | the cached value, or the file's, or the default for a missing or broken file |
| PersistedStates.PersistedStateContainer.Save | cli/src/state.rs:61-86 | the cached value changes in any case; after success the file holds it |
| LruLists.RunKeepsInv | cli/src/download_cache.rs:63-139 | every run of touches, deletions, creations and restarts keeps the invariant |
| LruLists.RunsStaySmall | cli/src/download_cache.rs:119-139 | no duplicates, and at most KEEP_LRU names beyond the evictions that were refused: the directory was there and could not be removed |
| LruLists.TouchEvicts | cli/src/download_cache.rs:119-139 | a touch puts its name on top; with too many names, the last one and its directory go if the directory is gone or can be removed, and otherwise no name and no directory is lost |
| LruLists.DeleteForgets | cli/src/download_cache.rs:63-72 | a deletion that is not refused leaves neither the name nor its directory, and all others as they were |
| LruLists.RemovedRunsStayWithin | cli/src/download_cache.rs:126-136 | while removals succeed the list never has more than KEEP_LRU names, along any run |
| LruLists.CacheStaysSmall | cli/src/download_cache.rs:63-139 | with every write and removal successful and nothing interrupted there are KEEP_LRU directories at most, along any run |
| LruLists.OrderedIff | cli/src/download_cache.rs:119-139 | an operation keeps the list, and the one a restart would read back, newest first if and only if it is no touch that cannot open the file while the file has the name below its top |
| LruLists.OrderedThroughoutIff | cli/src/download_cache.rs:119-139 | so along any run both stay newest first if and only if no operation is such a touch |
| LruLists.SavedRunsStayOrdered | cli/src/download_cache.rs:119-139 | while writes succeed the list stays newest first along any run |
| LruLists.UnsavedTouchBreaksTheOrder | cli/src/download_cache.rs:119-139 | a touch that could not be saved and a restart: the newest name is last |
| LruLists.EvictsLeastRecent | cli/src/download_cache.rs:126-136 | a touch of an ordered list drops at most one name, the least recently touched, never the one just touched |
| LruLists.TrackedIff | cli/src/download_cache.rs:63-139 | an operation keeps every cached directory in the list if and only if it is none of these: a rename whose name is no longer there, the end of a deletion whose name has a directory again, a restart before the list was saved with all directories |
| LruLists.TrackedThroughoutIff | cli/src/download_cache.rs:63-139 | so along any run every directory stays in the list if and only if no operation of the run is one of these |
| LruLists.SavedRunsTrack | cli/src/download_cache.rs:63-139 | while writes succeed and no creation and no deletion is interrupted, no directory escapes, restarts or not, and the file agrees with the list |
| LruLists.LostSaveLosesADirectory | cli/src/download_cache.rs:101 | a creation whose list was not saved and a restart: the directory is there, the list is empty |
| LruLists.LateForgetLosesADirectory | cli/src/download_cache.rs:63-72 | a deletion interrupted by a creation of the same name: the directory is there, the list is empty, and every write has succeeded |
| LruLists.InterruptedCreationIsLost | cli/src/download_cache.rs:101-138 | touches of KEEP_LRU other names between touch and rename evict any name for good: its directory appears outside the list |
| DownloadCaches.DownloadCache.constructor | cli/src/download_cache.rs:33-38 | uses the given directories and state |
| DownloadCaches.DownloadCache.Touch | cli/src/download_cache.rs:119-139 | the list, the directories and the file after a touch |
| DownloadCaches.DownloadCache.RemoveDirectory | cli/src/download_cache.rs:63-67 | the first half of a deletion removes the directory, outside the lock |
| DownloadCaches.DownloadCache.Forget | cli/src/download_cache.rs:69-71 | the second half takes the name out of the list, whatever the directories are by then |
| DownloadCaches.DownloadCache.Delete | cli/src/download_cache.rs:63-72 | undisturbed, fails without a change if the directory cannot be removed, else forgets the name |
| DownloadCaches.DownloadCache.Create | cli/src/download_cache.rs:78-117 | succeeds if and only if the directory was there, or was created and renamed within the attempts; the name is touched before it appears |
| DownloadCaches.RemoveName | cli/src/download_cache.rs:121-123 | the first occurrence is taken out |

## Left out

- Plugin dependencies (`loader.js` 1382-1389, 1634-1654, 1699-1714, 1777-1786): their waits are not in the graph the search walks, so deadlock freedom is stated for regular dependencies.
- Exports as values, the `exports` and `exportsPassedIn` of a module, its string id and resolver, and `synchronousRequire`.
- Factories and errorbacks that call `define` or `require` before they return: `Module.complete` marks the module complete before it runs the factory and drops its dependencies afterwards, so such a call meets a state the machine does not have; likewise an errorback in the middle of a flood.
- `catchError: false`, where a throwing factory unwinds the recursion of completions, and `shouldInvokeFactory`.
- ModuleManagers.ModuleManager.LoadModule: scripts are a fixed table, and a nameless definition is the last of its script. That a refused second one breaks its script off is so where the script is evaluated inside a `try`; for `node|` paths the exception goes to the caller instead.
- Several paths for one module (`loadNextPath`), script loaders, `OnlyOnceScriptLoader`, recorded events, build info and the printed cycle path.
- LoaderTheorems.FloodSparesTheRun: says nothing of the failing id itself; a script that fails after its definition has run overwrites that module, as the code does.
- The regular expressions of `_normalizeModuleId` are modelled by what they match; `String.replace` without the global flag replaces the leftmost match.
- CanonicalIds.SameTextIffSamePlace: stated for tame ids; `TrailingUpStays` shows another id whose text is longer than its place needs. A name for an empty segment is what the code's patterns treat it as.
- SourceMaps.AddedMeans: for a map that a standard decoder rejects, or that names a source it does not have, the bytes written are specified but have no meaning to keep. The table of the code also accepts '=' as a digit, which the standard alphabet does not; such maps count as rejected. The meaning is stated while the list of all sources is not longer than 2^30, the range of the encoder.
- `parseModule`, path mapping, base64 and JSON: parameters from text to requests, source and map line. A map with fields below zero or above 2^30 counts as not decodable. A file on which `parseModule` throws, in `JSON.parse` of its requests or of its source map, counts as one that cannot be read.
- Bundlers.BundleWithDependencies: how the map is rendered into the last line is a parameter, a function of the map; two bundles are equal if text and map are.
- Bundlers.ModuleLoader.Run: the files do not change while they are loaded. Modules are identified by path where the code uses object identity.
- Bundlers.CachedBundle.Bundle: a load comes to rest and a `setModuleContent` call ends, or hangs, before the next call starts.
- Fairness of the scheduler, channels and back-pressure; liveness of `start_msgpack_rpc`, which sends into its own channel.
- The read half of a stream and `register_stream`; stream ids are inserted once.
- Write failures drop the rest of a batch; delivery is then stated as a subsequence.
- StreamTable.WriteLoop: is the loop without interference and without failed writes; interleavings and failures are in `StreamMachine`.
- RpcTheorems.AnswersFindTheirCall: states that the raw answer reaches the callback; turning it into a typed result, and a call whose request could not be sent, are not followed further.
- Typed deserialisation of frames: a frame is read as a generic value, so a type mismatch that the code reports before the frame is complete, text that is not UTF-8 and the nesting limit are not modelled.
- Sealing and unsealing of secrets, the fallback file and the keyring thread; text is ASCII, since the code cuts it at byte positions.
- LruLists.TrackedIff: one process uses the list; a second one would keep a copy of its own.
- DownloadCaches.DownloadCache.Create: staging directories are kept apart from cached ones, so a name that itself ends in the staging suffix is not modelled; a failed removal leaves the directory there.
- HTTP, file watching, OAuth, update and singleton code.
