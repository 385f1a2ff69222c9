# rslint in Dafny

rslint is a Go linter that drives a Node peer: Go discovers configs, ignores
files, lints, fixes and serves editors, while community plugin rules run in Node
on the other end of a pipe. This project models the parts of it whose behaviour
is not obvious from one function, and proves what they promise over all inputs
and all runs.

| part | files |
|---|---|
| ignore engine: collected Git rules, ordered file decision, directory pruning | `Globs`, `IgnorePatterns`, `PatternParsing`, `GitIgnore`, `FileIgnore`, `IgnorePruning` |
| IPC: frames, the stream observer, the concurrent channel | `Frames`, `Channel`, `ChannelSafety`, `ChannelRuns`, `ChannelReceipts`, `ChannelDelivery`, `ChannelOutcomes`, `ChannelExchange` |
| external symbol naming over a cyclic graph | `ExternalNames`, `ExternalSymbols`, `ExternalNaming` |
| autofix: simultaneous edits, in-memory rounds, one terminal commit | `SourceCodeFixer`, `FixPlacement`, `AutofixState`, `FixPlanning`, `AutofixPipeline` |
| observation lifecycle: leases, plugin tasks, single-use runs | `PluginTasks`, `Observation` |
| language server documents and late plugin results | `LspDocuments`, `LspFreshness`, `LspShown`, `LspServer` |
| language server config transactions | `ConfigTransactions`, `ConfigRefresh`, `ConfigAgreement` |
| directory roots and unavailable boundaries | `DirectoryRoots`, `ConfigBoundaries` |
| flat-config shapes, merge and caches | `ConfigShapes`, `ConfigValues`, `ConfigMerge`, `PublishOnce` |
| text boundaries: stdout forwarding, editor positions | `Utf8`, `StdoutDrain`, `DocumentChanges`, `Unicode` |

`Wrappers`, `Bytes` and `Sorting` hold what several of them share. Check everything with
`dafny verify dfyconfig.toml`.

Concurrent code is a step relation with a program counter per thread; its theorems
quantify over every finite interleaving. Code that updates fields is a class whose
methods are proved against a specification function or relation, and the theorems
are about that specification. Foreign code (filesystem, peer, linter, plugin
worker, clock) is a parameter that may answer anything.

## Findings

- Directory pruning is not sound for every collected rule. A rule that names
  directories only and whose node glob is contents-only (`a/**/`) or already ends
  in `/**/*` passes the probe although no directory on the way to a file is named
  by it: `ContentsOnlyDirectoryRuleLosesFiles` is the concrete input, and
  `CoverIsReliableIffSafe` gives the exact condition on the rule and the directory.
- Unavailable boundaries are exactly the outermost failed directories if and only
  if every outermost failure is spelled before the others it owns: shorter, or as
  long and not later in byte order (`UnavailableConfigBoundaryDirectories`). That
  always holds when case folding keeps the length of names
  (`ShorterFirstIsEnough`), not in general: `ShorteningFoldKeepsNestedBoundary`.
- The global object is named without being expanded: its members are searched as
  roots of their own, where an internal name is skipped, although the same member
  has a name through the object. The collected names are all least if and only if
  every such member is named as well by another path (`CollectExternalSymbols`);
  `InternalMemberIsLost` is a program where one is not.
- A character index past the text of an editor line lands behind the line
  terminator, or between CR and LF, where the Text Documents section of LSP 3.17
  falls back to the end of the text. The code gives the intended offset if and only
  if the line has no terminator or the character is within its text
  (`OffsetIsIntendedIff`); `PastTheEndOvershoots` shows two positions where it does not.
- A config commit whose reply is lost is taken back by the abort that follows it.
  When that abort is lost too, Go keeps the old catalog while the editor extension
  serves the new generation: over every run the two agree if and only if no commit
  stands that lost both, later than the last success (`AgreeIffNothingWasLost`);
  `LostAbortDisagrees` is such an exchange.

## Model

| member | source | states |
|---|---|---|
| `Globs.MatchesSplit` | internal/config/ignore_pattern.go:442-450 | a match of a joined glob splits the path into a part for each half |
| `Globs.MatchesJoin` | internal/config/ignore_pattern.go:442-450 | matches of two halves join to a match of the whole |
| `Globs.CoverMatches` | internal/config/ignore_pattern.go:836-856 | a match of a glob ending in `/**/*` or `/**` splits at a directory of the path |
| `Globs.CoverClosedDownwards` | internal/config/ignore_pattern.go:836-856 | a covering glob that matches a path matches everything below it |
| `Globs.LiteralPrefixMatches` | internal/config/ignore_pattern.go:919-933 | leading literal segments of a matching glob are the leading segments of the path |
| `Globs.PlainGlobMatches` | internal/config/ignore_pattern.go:442-450 | a glob without `**` matches exactly the paths of its length, segment by segment |
| `Globs.DoubleStarSkips` | internal/config/ignore_pattern.go:442-450 | a leading `**` matches exactly what the rest matches behind some number of segments |
| `IgnorePatterns.ProjectionCoversNode` | internal/config/ignore_pattern.go:704-713 | if a rule names an ancestor of a path, its projection matches the path |
| `IgnorePatterns.CollectRules` | internal/config/gitignore_config.go:341-395 | the collected patterns are those of the rules whose node glob is a prefix of their projection, in order |
| `IgnorePatterns.ParsedLineProjects` | internal/utils/gitignore/patterns.go:73-159 | the projection of a parsed line extends its node glob by at most two segments and covers the subtree |
| `IgnorePatterns.ParsedLineIsCollected` | internal/config/gitignore_config.go:341-395 | every parsed line is collected, with the projection invariant the evaluator and the pruner need |
| `PatternParsing.ParsedLineNames` | internal/utils/gitignore/patterns.go:73-159 | a parsed and collected line names exactly the nodes below the directory of its file that its own text matches from there, at any depth unless it is rooted; directories only with a trailing slash; re-including exactly with `!` |
| `PatternParsing.PlainLineNames` | internal/utils/gitignore/patterns.go:73-159 | a one-component line names every node below its directory whose last component it accepts |
| `PatternParsing.ParsedExactly` | internal/utils/gitignore/patterns.go:73-98 | a line is dropped exactly when nothing is left of it or a component is `..` |
| `PatternParsing.AuthoredRole` | internal/config/ignore_pattern.go:135-160 | an authored pattern matches what its body matches and is negated exactly by `!`; it covers a subtree file by file exactly when it ends in `/**/*` behind something, and has no say about directories exactly when it is empty or ends in a mere `/*` |
| `GitIgnore.UndecidedMeansUnnamed` | internal/config/ignore_pattern.go:538-548 | a node has no verdict exactly when no rule names it |
| `GitIgnore.LaterRulesDecide` | internal/config/ignore_pattern.go:538-548 | a verdict of later rules stands whatever precedes them |
| `GitIgnore.EarlierRule` | internal/config/ignore_pattern.go:538-548 | a rule put in front decides only nodes the later ones leave open |
| `GitIgnore.VerdictIsLastWord` | internal/config/ignore_pattern.go:538-548 | the verdict of a node is that of the last rule, by index, that names it |
| `GitIgnore.GitDecisionIsLastWord` | internal/config/ignore_pattern.go:538-548 | a run ignores a path exactly when for some node above or at it the last rule naming it is positive, and speaks about it exactly when some rule names such a node |
| `GitIgnore.RootBasenameMatchesNode` | internal/config/ignore_pattern.go:608-666 | testing one path component equals matching the node glob against the whole node path |
| `GitIgnore.DepthBits` | internal/config/ignore_pattern.go:677-702 | setting one depth bit changes that depth only |
| `GitIgnore.ResolveInOverflow` | internal/config/ignore_pattern.go:677-702 | depths beyond 63 are recorded in the overflow slice without losing any |
| `GitIgnore.PathState.constructor` | internal/config/ignore_pattern.go:507-536 | no node resolved, one per cleaned component open |
| `GitIgnore.PathState.DepthResolved` | internal/config/ignore_pattern.go:677-684 | reads membership in the set of resolved depths |
| `GitIgnore.PathState.ResolveDepth` | internal/config/ignore_pattern.go:686-702 | adds the depth to the resolved set and keeps the count of open nodes |
| `GitIgnore.PathState.ApplyDepth` | internal/config/ignore_pattern.go:668-675 | a positive match ends the evaluation, a negation resolves the node |
| `GitIgnore.PathState.ApplyRootBasename` | internal/config/ignore_pattern.go:619-666 | same outcome as the node scan for basename rules: ignored exactly when the rule names an open node |
| `GitIgnore.PathState.ApplyNodes` | internal/config/ignore_pattern.go:550-606 | same outcome with the projection gate and the early stop |
| `GitIgnore.PathState.Apply` | internal/config/ignore_pattern.go:550-606 | one rule: ignored exactly when it is positive and names an open node; otherwise a negation resolves exactly the nodes it names |
| `GitIgnore.PathState.Evaluate` | internal/config/ignore_pattern.go:538-548 | true exactly when some node has a positive rule as its last match; `matched` exactly when some rule names some node |
| `FileIgnore.ApplyFileIgnorePatterns` | internal/config/ignore_pattern.go:460-486 | the last authored pattern or run of Git rules, by index, that speaks about the path decides it: an authored one by not being negated, a run by what Git says; if nothing speaks the path keeps the decision it came with |
| `FileIgnore.LastWordDecides` | internal/config/ignore_pattern.go:460-486 | the ordered decision is that of the layer with the last word |
| `FileIgnore.SilenceChangesNothing` | internal/config/ignore_pattern.go:460-486 | without a layer that speaks the decision is the incoming one |
| `FileIgnore.GroupWithoutNegation` | internal/config/ignore_pattern.go:460-486 | a Git run no negation of which bears on a path ignores it exactly when some rule bears on it |
| `FileIgnore.DecisionWithoutNegation` | internal/config/ignore_pattern.go:460-486 | without a bearing negation the ordered decision is whether any pattern bears on the path |
| `IgnorePruning.DirectoryPatternBlocks` | internal/config/ignore_pattern.go:757-773 | blocked exactly when the pattern matches the directory, an ancestor, or a probe below one |
| `IgnorePruning.BlockCandidates` | internal/config/ignore_pattern.go:811-824 | the candidates are exactly all prefixes and their probes |
| `IgnorePruning.IsDirAbsolutelyBlocked` | internal/config/ignore_pattern.go:727-755 | the one-pattern path and the candidate path decide the same predicate |
| `IgnorePruning.BlockedBelow` | internal/config/ignore_pattern.go:727-755 | blocking is inherited by every descendant |
| `IgnorePruning.BuildNegReach` | internal/config/ignore_pattern.go:875-897 | exactly one reach per negation |
| `IgnorePruning.ReachIsSound` | internal/config/ignore_pattern.go:900-943 | a pattern that bears on anything below a directory has a reach overlapping it |
| `IgnorePruning.LiteralPrefixIsMaximal` | internal/config/ignore_pattern.go:919-933 | the literal prefix ends at the first segment that is not literal |
| `IgnorePruning.ReachIsExact` | internal/config/ignore_pattern.go:900-943 | a negation misses a directory exactly when its leading literal names lead elsewhere, so its reach is not wider than its text says |
| `IgnorePruning.CoveredIsPrunedIff` | internal/config/ignore_pattern.go:836-856 | a covered directory is pruned exactly when it is blocked or the leading names of every negation lead elsewhere |
| `IgnorePruning.CanPruneDir` | internal/config/ignore_pattern.go:836-856 | pruned exactly when blocked, or covered with no reachable negation |
| `IgnorePruning.IsDirAbsolutelyBlockedAboveFloor` | internal/config/ignore_pattern.go:775-809 | blocked exactly when a positive directory pattern matches the directory or an ancestor deeper than the floor, or a probe below one |
| `IgnorePruning.VisitGroups` | internal/config/config_target_resolver.go:718-757 | for one entry: some group blocks in its own path space, some negation reaches, some pattern covers |
| `IgnorePruning.CanPruneDirectory` | internal/config/config_target_resolver.go:694-760 | pruned exactly when some entry containing the directory blocks it, or some covers it and no negation is reachable in any, entries below it counting every negation |
| `IgnorePruning.OnePathSpaceIsOneList` | internal/config/config_target_resolver.go:694-760 | in one path space the entries decide as one concatenated list |
| `IgnorePruning.SafeCoverTouches` | internal/config/ignore_pattern.go:826-856 | a safe cover of a directory bears on every file below it |
| `IgnorePruning.PruningIsSound` | internal/config/ignore_pattern.go:826-856 | below a pruned directory every file is under a blocked directory or ignored by the ordered decision, for covers that are safe |
| `IgnorePruning.UnsafeCoverLosesFiles` | internal/config/ignore_pattern.go:826-856 | every unsafe cover prunes a directory holding a file that is neither blocked nor ignored |
| `IgnorePruning.CoverIsReliableIffSafe` | internal/config/ignore_pattern.go:826-856 | a cover can be relied on in every pattern list if and only if it is safe |
| `IgnorePruning.ContentsOnlyDirectoryRuleLosesFiles` | internal/utils/gitignore/patterns.go:73-159 | the line `a/**/` is a concrete unsafe cover |
| `Frames.HeaderRoundTrip` | internal/ipc/frame.go:135-181 | the little-endian length header decodes to the length encoded |
| `Frames.HeaderIsLittleEndian` | internal/ipc/frame.go:135-181 | the header spells the length in four bytes, the lowest first |
| `Frames.FramesAreCapped` | internal/ipc/frame.go:135-181 | more than 268435456 announced bytes are refused by the reader and the writer |
| `Frames.ReadWhatWasWritten` | internal/ipc/frame.go:135-181 | reading one written frame gives its body and leaves the rest |
| `Frames.ReadAll` | internal/ipc/frame.go:135-158 | the stream ends cleanly exactly when it is an encoding of frames within the cap, and then those frames are returned; otherwise the frames returned are all those before the break |
| `Frames.EncodingIsInjective` | internal/ipc/frame.go:160-192 | different frame sequences have different bytes |
| `Frames.RoundTrip` | internal/ipc/frame.go:135-192 | reading back any written frames gives the same bodies |
| `Frames.ScanIgnoresChunks` | internal/api/api.go:441-469 | the observer's position depends on the bytes and not on their chunking |
| `Frames.BoundaryMeansWholeFrames` | internal/api/api.go:416-469 | at a boundary exactly when the bytes seen are a whole number of frames |
| `Frames.Observer.constructor` | internal/api/api.go:416-425 | starts between frames with no error |
| `Frames.Observer.Observe` | internal/api/api.go:441-469 | the header buffer, the counts and the flag track the byte-by-byte position |
| `Frames.Observer.Read` | internal/api/api.go:426-439 | an end of stream inside a frame is recorded as unexpected, one between frames as clean |
| `Channel.InitialInv` | internal/ipc/channel.go:138-154 | a new channel meets the invariant of all runs |
| `ChannelSafety.LockAndWireStep` | internal/ipc/channel.go:297-367 | every step keeps the write lock, sealing and wire discipline |
| `ChannelSafety.ThreadsStep` | internal/ipc/channel.go:191-268 | every step keeps what each sender, handler and closer knows about its frame, receipt and id |
| `ChannelSafety.DeliveryStep` | internal/ipc/channel.go:399-414 | every step keeps ids issued once and responses delivered at most once, to the request they carry |
| `ChannelSafety.InvStep` | internal/ipc/channel.go:191-597 | every enabled step of every thread keeps the whole invariant |
| `ChannelRuns.ReachableHasInv` | internal/ipc/channel.go:191-597 | the invariant holds in every state any interleaving reaches |
| `ChannelRuns.WireIsFrames` | internal/ipc/channel.go:284-343 | the outbound bytes are whole frames followed by at most one partial frame |
| `ChannelRuns.NothingFollowsTheEnd` | internal/ipc/channel.go:297-367 | nothing is ever written after a failed write or an accepted terminal response |
| `ChannelSafety.MoveKeepsBreak` | internal/ipc/channel.go:316-327 | a broken write closes the channel before its caller hears of it |
| `ChannelRuns.ReceiptsTellTheTruth` | internal/ipc/channel.go:27-45 | a finished tracked response has a completed receipt, successful exactly when its own response frame was fully written |
| `ChannelReceipts.OwnStepAdvances` | internal/ipc/channel.go:297-328 | each step of a thread lowers a rank, so no call goes on for ever |
| `ChannelReceipts.OpenReceiptCanMove` | internal/ipc/channel.go:297-328 | while a receipt is open, its thread or the holder of the write lock it waits for has an enabled step |
| `ChannelReceipts.ReceiptCanComplete` | internal/ipc/channel.go:22-45 | from every reachable state its own thread and the present lock holder alone can complete any receipt a handler handed out |
| `ChannelReceipts.AnswersAreCarried` | internal/ipc/channel.go:446-514 | a thread writes the body its handler returned and no other |
| `ChannelReceipts.SuccessMeansTheAnswerWasSent` | internal/ipc/channel.go:22-45 | a finished receipt reports success exactly when a response frame with the very body the handler returned is on the wire |
| `ChannelRuns.ReceiptsCompleteOnce` | internal/ipc/channel.go:39-44 | a completed receipt never changes |
| `ChannelRuns.IdsAreFresh` | internal/ipc/channel.go:191-215 | a new request takes an id never issued before |
| `ChannelRuns.ResponsesReachTheirRequest` | internal/ipc/channel.go:399-414 | a response reaches only the request with its id, at most once, so its buffer never blocks the reader; what the caller gets is `ChannelDelivery.ResultsAreTheAnswers` |
| `ChannelRuns.HonestAnswersAreNotOrphans` | internal/ipc/channel.go:399-414 | if the peer answers once each request whose bytes are all on the wire, even one whose write reported an error, an orphan answer means cancellation or close |
| `ChannelDelivery.RunTellsTheTruth` | internal/ipc/channel.go:399-414 | in every run what is being handed over, buffered or returned is the very message that answered its id |
| `ChannelDelivery.ResultsAreTheAnswers` | internal/ipc/channel.go:191-252 | in every run the result of a caller is exactly a message the peer sent, payload included: the one before the first dispatch that found its request pending |
| `ChannelDelivery.AnswersAreNotLost` | internal/ipc/channel.go:399-414 | a dispatched answer is, unchanged, about to be handed over, in the buffer of its request, or the result of its caller |
| `ChannelDelivery.HonestAnswersOnce` | internal/ipc/channel.go:399-414 | a peer that answers each request once sends one message per answered id, so the result is the only message with it |
| `ChannelOutcomes.EndedCallsHaveAReason` | internal/ipc/channel.go:191-268 | a call that ended wrote its frame or writes were refused; a written request has its answer, was cancelled or saw the close; writes are refused only after a close, a broken write or a terminal response |
| `ChannelOutcomes.WaitersAreReleased` | internal/ipc/channel.go:570-592 | once the channel is closed every waiting caller can leave, or somebody can take the step that lets it |
| `ChannelOutcomes.NoEntryIsLeaked` | internal/ipc/channel.go:191-252 | every entry of the request table belongs to a request in progress, and a closed channel has none |
| `ChannelOutcomes.ChannelsCloseForAReason` | internal/ipc/channel.go:570-597 | a channel closes only when a caller asked for it, the reader failed or a write broke off |
| `ChannelExchange.OpenWriteGoesOut` | internal/ipc/channel.go:297-343 | on an open channel a frame within the cap goes out whole, its receipt and caller hear of it, and the stream is sealed exactly behind a terminal response |
| `ChannelExchange.SealedWriteIsRefused` | internal/ipc/channel.go:345-357 | on a sealed or closed channel nothing goes out and the receipt and the caller hear of that |
| `ChannelExchange.CallsEnter` | internal/ipc/channel.go:191-282 | a call on a closed channel ends at once; on an open one a request gets the next id and an entry |
| `ChannelExchange.RequestRoundTrip` | internal/ipc/channel.go:191-252 | a request on an open channel goes out as one frame, its caller gets the payload the peer answers with, and nothing is left behind |
| `ExternalNames.PreferIsTotal` | cmd/tsgo/external_symbols.go:250-260 | name preference is irreflexive, asymmetric and total; what it prefers is `ExternalNaming.PreferPrecedes` |
| `ExternalNaming.PreferPrecedes` | cmd/tsgo/external_symbols.go:250-260 | a name is preferred exactly when it has fewer dots, or as many and is shorter, or is as long and has the smaller byte where the two first differ |
| `ExternalNaming.DotsCountSteps` | cmd/tsgo/external_symbols.go:225-230 | a path of members with plain names is spelled with one dot less than it has steps |
| `ExternalNames.PreferIsTransitive` | cmd/tsgo/external_symbols.go:250-260 | name preference is transitive |
| `ExternalNames.PreferExtends` | cmd/tsgo/external_symbols.go:225-260 | appending the same child name preserves preference |
| `ExternalNames.JoinIsLater` | cmd/tsgo/external_symbols.go:225-230 | a child's name is never preferred to its parent's |
| `ExternalSymbols.LabelsBoundPaths` | cmd/tsgo/external_symbols.go:121-180 | labels closed under expansion bound the name of every path, cyclic ones included |
| `ExternalSymbols.ClosedLabelsAreLeast` | cmd/tsgo/external_symbols.go:121-180 | such labels are the least names, and every symbol a path leads to has one |
| `ExternalSymbols.PreferSymbolOrders` | cmd/tsgo/external_symbols.go:232-248 | entry preference is a strict order, total on entries of one symbol |
| `ExternalSymbols.PreferSymbolTransitive` | cmd/tsgo/external_symbols.go:232-248 | entry preference is transitive |
| `ExternalSymbols.RecordKeepsBest` | cmd/tsgo/external_symbols.go:193-208 | recording a preferred name keeps each symbol's entry the best over all namespaces |
| `ExternalSymbols.RecordIsIdle` | cmd/tsgo/external_symbols.go:193-208 | a name no better than the label leaves the entries alone |
| `ExternalSymbols.Collector.constructor` | cmd/tsgo/external_symbols.go:31-51 | starts with no label and no entry |
| `ExternalSymbols.Collector.Record` | cmd/tsgo/external_symbols.go:193-208 | adds, replaces or keeps the one entry of the symbol |
| `ExternalSymbols.Collector.LabelWith` | cmd/tsgo/external_symbols.go:121-180 | relabels and reopens a symbol exactly when the name is preferred |
| `ExternalSymbols.Collector.Collect` | cmd/tsgo/external_symbols.go:121-180 | the re-expanding search terminates and closes every label it opened |
| `ExternalSymbols.Collector.CollectMembers` | cmd/tsgo/external_symbols.go:121-180 | every member of the expanded symbol is labelled at least as well as through it |
| `ExternalSymbols.Collector.CollectGlobals` | cmd/tsgo/external_symbols.go:53-73 | labels everything reachable from the global object |
| `ExternalSymbols.Collector.CollectDependencies` | cmd/tsgo/external_symbols.go:75-119 | labels everything reachable from each dependency root |
| `ExternalSymbols.LabelsBoundWalks` | cmd/tsgo/external_symbols.go:53-73 | labels bound every path that does not continue at the unexpanded global object |
| `ExternalSymbols.LeastIffSkippedAreNamed` | cmd/tsgo/external_symbols.go:53-73 | all names are least if and only if each member of the global object skipped for its internal name is named as well elsewhere |
| `ExternalSymbols.CollectExternalSymbols` | cmd/tsgo/external_symbols.go:38-51 | terminates on every graph; every label is spelled by a path; exactly under that condition each is the least over all paths and every reachable symbol has one; each symbol has one best entry |
| `ExternalNaming.LeastNamesPrecede` | cmd/tsgo/external_symbols.go:121-180 | for every path to a symbol its label has no more dots than the path's name, is no longer among names with as few, and comes first in byte order among those of the same length |
| `ExternalNaming.LabelsAreShallowest` | cmd/tsgo/external_symbols.go:121-180 | with plain names a label has no more dots than any path to its symbol has steps behind the first |
| `ExternalNaming.EntriesArePlaced` | cmd/tsgo/external_symbols.go:232-248 | the entry of a symbol is in the global namespace whenever the symbol has a name there, else in the first of its namespaces in byte order, under the label it has there |
| `ExternalNaming.GlobalIsSpelled` | cmd/tsgo/external_symbols.go:14-61 | the global namespace is called `global` and its object `globalThis` |
| `ExternalSymbols.InternalMemberIsLost` | cmd/tsgo/external_symbols.go:121-124 | a program where a member is spelled through the global object and by no path the search follows |
| `SourceCodeFixer.ApplyOneMore` | internal/linter/source_code_fixer.go:96-112 | writing one more edit behind the others equals applying them together |
| `SourceCodeFixer.SortedFixesChain` | internal/linter/source_code_fixer.go:23-49 | sorting the disjoint fixes of a diagnostic puts them in text order without overlap |
| `SourceCodeFixer.ApartIsFree` | internal/linter/source_code_fixer.go:71-94 | diagnostics the pass keeps apart do not conflict |
| `SourceCodeFixer.ApartIsTransitive` | internal/linter/source_code_fixer.go:71-94 | comparing with the last applied diagnostic is enough to be apart from all of them |
| `SourceCodeFixer.WriteFixes` | internal/linter/source_code_fixer.go:96-112 | the builder holds the text up to the last edit with all edits so far applied |
| `SourceCodeFixer.PrepareDiagnostics` | internal/linter/source_code_fixer.go:23-49 | splits the diagnostics into those with fixes, sorted, and those without, losing none |
| `SourceCodeFixer.ApplyOrdered` | internal/linter/source_code_fixer.go:51-118 | the pass applies whole diagnostics, pairwise free of conflict, and hands back the others, each without a usable fix or in conflict with an applied one that comes no later in text order |
| `SourceCodeFixer.ApplyRuleFixes` | internal/linter/source_code_fixer.go:23-118 | the output is the simultaneous application of the applied diagnostics to the original text, byte order mark included; applied plus unapplied is a permutation of the input; something is applied whenever a diagnostic has fixes and no inverted range |
| `SourceCodeFixer.SomethingIsApplied` | internal/linter/source_code_fixer.go:51-118 | something is applied whenever a diagnostic has fixes and no inverted range |
| `FixPlacement.KeptBytes` | internal/linter/source_code_fixer.go:96-118 | a byte no applied edit touches is in the output, moved by what the edits before it add and remove |
| `FixPlacement.EditBytes` | internal/linter/source_code_fixer.go:96-118 | every applied edit's text stands at its position, moved in the same way |
| `FixPlacement.LengthShifts` | internal/linter/source_code_fixer.go:96-118 | the output is as long as the text with all that added and removed, so nothing else is in it |
| `FixPlacement.MarkSurvivesUnless` | internal/linter/source_code_fixer.go:23-118 | the byte order mark survives unless an applied edit reaches from before the text into it or starts the text with a mark of its own |
| `FixPlacement.ConflictByPositions` | internal/linter/source_code_fixer.go:71-94 | two diagnostics are free of each other exactly when one ends before the other starts, or where it starts and neither of the fixes that meet is an insertion |
| `AutofixState.RunIsConsistent` | internal/linter/pipeline_autofix_state.go:49-90 | after any rounds the current texts are those that differ from the initial ones |
| `AutofixState.CurrentIsReplay` | internal/linter/pipeline_autofix_state.go:25-47 | the snapshot over the base is the replay of all rounds |
| `AutofixState.NetDeltaIsReplay` | internal/linter/pipeline_autofix_state.go:92-108 | applying the net delta to the initial sources equals replaying all rounds in order |
| `AutofixState.RestoredMeansInitial` | internal/linter/pipeline_autofix_state.go:70-90 | the state is empty exactly when every text is back to its initial value |
| `AutofixState.PlannedRoundIsAccepted` | internal/linter/pipeline_autofix_state.go:49-69 | with an immutable base, a round planned from memory is never stale |
| `AutofixState.RoundOnFile` | internal/linter/pipeline_autofix_state.go:70-90 | a round gives every file it names its new text, adds its diagnostics to the count, remembers the first text, and leaves other files alone |
| `AutofixState.WriteOnFile` | internal/linter/pipeline_autofix_state.go:92-108 | writing changes gives exactly the named files their new texts |
| `AutofixState.AppliedAddsUp` | internal/linter/pipeline_autofix_state.go:70-90 | the count of a round adds up over its changes |
| `AutofixState.State.constructor` | internal/linter/pipeline_autofix_state.go:17-23 | starts empty |
| `AutofixState.State.Validate` | internal/linter/pipeline_autofix_state.go:49-69 | accepts exactly the acceptable rounds |
| `AutofixState.State.Apply` | internal/linter/pipeline_autofix_state.go:49-90 | an accepted round becomes the next state, a rejected one changes nothing, and the round reports whether the initial texts are restored |
| `AutofixState.State.FinalChanges` | internal/linter/pipeline_autofix_state.go:92-108 | the net delta, sorted by path |
| `AutofixState.State.FinalSources` | internal/linter/pipeline_autofix_state.go:110-125 | every file a round touched with its current text, sorted by path |
| `FixPlanning.GroupByPath` | internal/linter/pipeline_fix.go:28-42 | each path with fixes gets exactly its diagnostics, in order |
| `FixPlanning.PlanFile` | internal/linter/pipeline_fix.go:43-62 | one file: the change applies a conflict-free part of its group, and every usable diagnostic left out conflicts with an applied one that comes no later; or nothing of the group is usable |
| `FixPlanning.PlanFixes` | internal/linter/pipeline_fix.go:28-63 | fails exactly for a missing path or text; otherwise one change per file where something applies, sorted by path |
| `FixPlanning.PlanChangesUsableFiles` | internal/linter/pipeline_fix.go:28-63 | a plan changes exactly the files for which some diagnostic has fixes and no inverted range |
| `FixPlanning.PlanIsEmptyIff` | internal/linter/pipeline_fix.go:28-63 | it is empty exactly when no diagnostic has a usable fix |
| `FixPlanning.GroupKeepsOrder` | internal/linter/pipeline_fix.go:28-42 | the group of a file holds its reports with fixes in the order they came |
| `FixPlanning.ValidateCommitResult` | internal/linter/pipeline_fix.go:74-125 | complete exactly when every planned path is reported once and nothing else is, without error; confirms only planned and reported paths |
| `AutofixPipeline.PlanIsAccepted` | internal/linter/pipeline_autofix.go:11-111 | a plan made from an observation of the snapshot is an acceptable round |
| `AutofixPipeline.CommitFinalChanges` | internal/linter/pipeline_autofix.go:113-139 | the committer runs exactly once when there are final changes and the run was not cancelled before, on those changes; committed means it confirmed exactly their paths; a failure means a cancellation or a failed, misreported or missing path |
| `AutofixPipeline.RunAutofixPipeline` | internal/linter/pipeline_autofix.go:11-139 | every round is a nonempty plan of a complete observation of what the earlier rounds left; the run ends because the rounds are used up, the initial texts are back, the last observation has syntax errors and the request stops on them, or no diagnostic of it has a usable fix; the observation returned and `verified` are those of the final texts, the final changes their net delta, and the commit happens once; an aborted run names its cause |
| `AutofixPipeline.UsableFixIsActedOn` | internal/linter/pipeline_autofix.go:36-60 | a usable fix in a complete first observation means a first round that changes its file, unless no round is allowed or syntax errors stop the run |
| `PluginTasks.ProjectPaths` | internal/linter/pipeline_plugin.go:119-149 | accepts exactly distinct non-empty wire paths and maps each back to its target |
| `PluginTasks.MaterializePluginTask` | internal/linter/pipeline_plugin.go:108-187 | succeeds exactly when the projection is good and every needed text and clone is; reads no text before the projection is checked; each input holds the text of its own target |
| `PluginTasks.InputsAreFrozen` | internal/linter/pipeline_plugin.go:150-227 | each plugin file goes out under its wire path with the text in memory, else on disk, unless the host reads unchanged files itself; with its frame only while attached |
| `PluginTasks.DetachedTaskHoldsNoSource` | internal/linter/pipeline_plugin.go:108-227 | a detached task without fix candidates holds no source frame, no observer and all its text |
| `PluginTasks.NewDeferredPluginRun` | internal/linter/pipeline_plugin.go:32-48 | refuses exactly the plugin tasks that still point into the generation |
| `PluginTasks.DeferredRun.constructor` | internal/linter/pipeline_plugin.go:32-52 | a new run has not been dispatched |
| `PluginTasks.DeferredRun.Invoke` | internal/linter/pipeline_plugin.go:49-67 | at most one dispatch over all invocations; later ones report that it already ran |
| `Observation.LifeCounts` | internal/linter/pipeline_generation.go:12-27 | in a fine journal, acquisitions, releases and worker ends are counted by its state |
| `Observation.FinishedJournal` | internal/linter/pipeline_observation.go:20-246 | a finished journal has one acquisition and one release, no use after it, joined workers ended before it and detached work started after it |
| `Observation.Lease.constructor` | internal/linter/pipeline_generation.go:14-17 | an open lease on a held generation |
| `Observation.Lease.Close` | internal/linter/pipeline_generation.go:19-27 | releases on the first call and does nothing after it |
| `Observation.ExecuteConcurrent` | internal/linter/pipeline_observation.go:193-246 | wherever the plugin worker ends among the native uses, it has ended when this returns, on error and panic too |
| `Observation.ObserveConcurrent` | internal/linter/pipeline_observation.go:78-99 | joined mode keeps the lease discipline on all its exits, succeeds exactly when lint and freezing do and it is not cancelled, and starts plugin work exactly when there is some |
| `Observation.ObserveAfterNative` | internal/linter/pipeline_observation.go:100-163 | the lease is closed before the dispatch, which happens exactly when there is plugin work and nothing stopped the observation; success exactly when every stage it needs goes well |
| `Observation.ObserveProgressive` | internal/linter/pipeline_observation.go:164-187 | no dispatch here; the surviving task is handed over after the release exactly when there is plugin work, and success depends on the native lint alone |
| `Observation.PrepareTask` | internal/linter/pipeline_observation.go:36-73 | goes on exactly when plan, targets and plugin task can be made and joined work has a dispatcher; until then the generation stays held |
| `Observation.ExecuteObservation` | internal/linter/pipeline_observation.go:20-191 | every exit leaves a finished journal: released exactly once, and not under a running worker; it succeeds exactly when no stage it needs fails, and then plugin work was joined, deferred frozen or absent as the mode and the generation say |
| `Observation.PresentProgressiveLint` | internal/linter/pipeline.go:60-84 | the deferred run is never refused; the baseline is always published and the enrichment submitted unless cancelled |
| `LspFreshness.SupersedeClears` | internal/lsp/eslint_plugin.go:176-195 | after a bump and a cancel no worker of the document runs and every result of it is of an earlier generation |
| `LspFreshness.ForgetKeepsInv` | internal/lsp/document_sync.go:71-77 | dropping diagnostics after any change of text keeps the invariant |
| `LspFreshness.PushKeepsInv` | internal/lsp/diagnostics.go:82-138 | a lint keeps it whatever changed before and however the lint ends |
| `LspFreshness.CommitKeepsInv` | internal/lsp/config_discovery.go:822-851 | a config commit keeps it because every open document was invalidated first |
| `LspFreshness.MergeKeepsInv` | internal/lsp/eslint_plugin.go:209-233 | merging a result keeps it: the baseline is enriched at most once |
| `LspFreshness.StepKeepsInv` | internal/lsp/server.go:564-590 | every turn of the main loop and every worker step keeps the invariant |
| `LspFreshness.OpenDocumentsAreFresh` | internal/lsp/document_sync.go:33-158 | in every run an open document's diagnostics are one baseline plus at most one enrichment of its current text, config and generation |
| `LspFreshness.ResultsMergeExactlyWhenCurrent` | internal/lsp/eslint_plugin.go:205-233 | a result is merged exactly when its stamp is the document's current one, and then onto its own bare baseline |
| `LspFreshness.StepRaises` | internal/lsp/document_sync.go:129-141 | no event lowers any generation |
| `LspFreshness.ResultsFromBeforeACloseStayStale` | internal/lsp/document_sync.go:129-141 | work from before a close never again matches the document, reopened or not |
| `LspShown.OpenAndSaveShowTheirLint` | internal/lsp/document_sync.go:33-127 | after an open or save of a supported document in a session exactly one baseline is shown, with the messages of that lint and the current stamp, and a worker on that stamp is registered exactly when plugin work is left; a lint without result shows nothing |
| `LspShown.RefreshShowsEveryDocument` | internal/lsp/server.go:564-590 | a refresh shows the same for every open document and a debounce for every edited one, and both leave the rest alone |
| `LspShown.CommitClears` | internal/lsp/diagnostics.go:46-52 | a config commit takes down what open documents show and keeps their texts |
| `LspShown.CommitIsRelinted` | internal/lsp/server.go:564-590 | the refresh after a commit shows every supported open document under the new config |
| `LspShown.EditAndCloseClear` | internal/lsp/document_sync.go:53-158 | an edit and a close take down what is shown, stop the worker and open a new generation |
| `LspShown.InvalidationClears` | internal/lsp/diagnostics.go:46-52 | an invalidation does so for every open document |
| `LspShown.PendingIffEdited` | internal/lsp/document_sync.go:16-31 | in every run a document waits for a lint exactly when it was edited in the session and no debounce and no save or close of it came after |
| `LspShown.TextIsTheLatest` | internal/lsp/document_sync.go:33-158 | in every run a document is open with exactly the text opened or edited last and not closed since |
| `LspShown.OthersAreUntouched` | internal/lsp/document_sync.go:33-158 | no event disturbs the text, generation, diagnostics or worker of a document it is not about |
| `LspShown.DeliveredMessagesAreShown` | internal/lsp/eslint_plugin.go:94-233 | the messages a worker of the current lint delivers are shown behind their baseline once the main loop has taken the waiting results, whatever else waits |
| `LspServer.Server.constructor` | internal/lsp/server.go:60-80 | starts with no document, worker or diagnostic |
| `LspServer.Server.CancelInflightPluginDispatch` | internal/lsp/eslint_plugin.go:179-195 | unregisters and waits for the registered worker, whose result may still arrive |
| `LspServer.Server.ClearInflightPluginDispatch` | internal/lsp/eslint_plugin.go:197-203 | removes the registry entry only if it is still its own |
| `LspServer.Server.StartDiagnosticEnrichment` | internal/lsp/eslint_plugin.go:94-159 | registers one fresh worker for the document |
| `LspServer.Server.PublishBaseline` | internal/lsp/diagnostics.go:26-44 | stores exactly the baseline |
| `LspServer.Server.PushDiagnostics` | internal/lsp/diagnostics.go:82-138 | the lint step of the specification, whose effect on what is shown is `LspShown.OpenAndSaveShowTheirLint` |
| `LspServer.Server.InvalidateOpenDocumentDiagnostics` | internal/lsp/diagnostics.go:46-52 | every visited document is superseded and cleared |
| `LspServer.Server.RelintAll` | internal/lsp/server.go:571-582 | every visited document is linted |
| `LspServer.Server.HandleDidOpen` | internal/lsp/document_sync.go:33-51 | the open step |
| `LspServer.Server.HandleDidChange` | internal/lsp/document_sync.go:53-87 | the change step; a malformed change does nothing |
| `LspServer.Server.HandleDidSave` | internal/lsp/document_sync.go:89-127 | the save step; the mirror keeps its text and only a stale save of an open document is not forwarded |
| `LspServer.Server.HandleDidClose` | internal/lsp/document_sync.go:129-158 | the close step |
| `LspServer.Server.MergePluginDiagnostics` | internal/lsp/eslint_plugin.go:209-233 | the merge step |
| `LspServer.Server.Dispatch` | internal/lsp/server.go:564-590 | each event is its specification step and keeps the freshness invariant |
| `ConfigTransactions.LiveUnmoved` | internal/lsp/config_discovery.go:238-262 | exchanges without an acknowledged commit do not change the live transaction |
| `ConfigTransactions.PublishedIsSound` | internal/lsp/config_discovery.go:593-660 | a published snapshot never shares a directory between usable and unavailable, and has a last-good catalog exactly when it has a usable config |
| `ConfigTransactions.Loader.constructor` | internal/lsp/config_discovery.go:91-97 | one loader per transaction, nothing sent |
| `ConfigTransactions.Loader.ObserveTransaction` | internal/lsp/config_discovery.go:170-186 | adopts the first id, refuses an empty or different one |
| `ConfigTransactions.Loader.LoadConfigs` | internal/lsp/config_discovery.go:99-123 | sends exactly one request for the observed transaction and accepts only its reply |
| `ConfigTransactions.Loader.ActivateConfigs` | internal/lsp/config_discovery.go:125-168 | activated means the peer confirmed this transaction, with its plugin host unless no usable catalog exists yet |
| `ConfigTransactions.Loader.EnsureActivated` | internal/lsp/config_discovery.go:188-236 | on success the transaction is activated, by discovery or by one request with the effective configs; a failure means the peer declined something |
| `ConfigTransactions.Loader.Commit` | internal/lsp/config_discovery.go:238-262 | success means the peer acknowledged exactly this commit |
| `ConfigTransactions.Loader.Abort` | internal/lsp/config_discovery.go:264-288 | sends exactly the abort of this transaction |
| `ConfigRefresh.PublishingKeepsUsable` | internal/lsp/config_discovery.go:542-570 | publishing a catalog that fails at no usable directory turns none of them into a boundary |
| `ConfigRefresh.Server.constructor` | internal/lsp/server.go:60-77 | nothing published before the first commit |
| `ConfigRefresh.Server.FailureAtCommittedConfigBoundary` | internal/lsp/config_discovery.go:542-570 | true exactly when a failed directory is a usable committed one, tombstones excluded |
| `ConfigRefresh.AddBoundaries` | internal/lsp/config_discovery.go:642-655 | adds one empty entry per boundary and touches no found config |
| `ConfigRefresh.Server.PrepareSnapshot` | internal/lsp/config_discovery.go:593-694 | the snapshot holds the found configs and exactly the boundaries of the failures |
| `ConfigRefresh.Server.Publish` | internal/lsp/config_discovery.go:822-851 | swaps all published fields at once |
| `ConfigRefresh.Server.AbortFailedConfigRefresh` | internal/lsp/config_discovery.go:576-591 | asks for the abort when an id is known, otherwise sends nothing |
| `ConfigRefresh.Server.CommitCatalog` | internal/lsp/config_discovery.go:479-519 | publishes after the acknowledged commit; any earlier failure ends in an abort with nothing published |
| `ConfigRefresh.Server.RefreshConfig` | internal/lsp/config_discovery.go:411-540 | publishes one acknowledged, activated transaction with the catalog found and the boundaries of its failures, or leaves all fields unchanged and asks for the abort; it fails whenever it is hindered on this side, and otherwise only when the peer declined a request |
| `ConfigRefresh.Serve` | internal/lsp/config_discovery.go:411-540 | the same over any number of refreshes |
| `ConfigAgreement.RefreshOnNode` | packages/vscode-extension/src/PluginLintPool.ts:199-260 | one refresh moves the extension to its generation exactly when its commit took effect and no abort took it back; an acknowledged one always does |
| `ConfigAgreement.AbortRestores` | packages/vscode-extension/src/PluginLintPool.ts:229-260 | an abort that arrives leaves the extension serving what it served before the refresh |
| `ConfigAgreement.NodeServesLastStanding` | packages/vscode-extension/src/PluginLintPool.ts:199-260 | after any refreshes the extension serves the last commit that took effect and was not taken back |
| `ConfigAgreement.GoServesLastSuccess` | internal/lsp/config_discovery.go:518-522 | after any refreshes Go serves the last one whose commit was acknowledged |
| `ConfigAgreement.AgreeIffNothingWasLost` | internal/lsp/config_discovery.go:576-591 | over every run both serve the same transaction if and only if the last commit standing on the other side is one Go heard of |
| `ConfigAgreement.LostAbortDisagrees` | internal/lsp/config_discovery.go:518-520 | a commit that arrives and an abort that does not leave Go without the transaction the extension serves |
| `ConfigAgreement.ServeAgrees` | internal/lsp/config_discovery.go:411-540 | the agreement condition after any number of refreshes of the server, whatever is lost |
| `DirectoryRoots.ContainsIsAnOrder` | internal/config/path_identity.go:59-72 | containment by equal lexical and physical suffix is a partial order |
| `DirectoryRoots.ContainsMeans` | internal/config/path_identity.go:59-72 | a root contains another exactly when one relative path leads to it both as spelled and as resolved |
| `DirectoryRoots.EveryOneIsCovered` | internal/config/path_identity.go:49-52 | every requested root lies in an outermost one |
| `DirectoryRoots.CoalesceDirectoryIdentities` | internal/config/path_identity.go:53-93 | returns exactly the outermost requested roots, each once, and covers all of them |
| `DirectoryRoots.RootsAreTheSmallestCover` | internal/config/path_identity.go:49-93 | every covering choice of requested roots includes all of these |
| `ConfigBoundaries.CollectCandidates` | internal/lsp/config_discovery.go:757-780 | exactly the first spelling of every failed directory without a usable ancestor |
| `ConfigBoundaries.BeforeIsTotal` | internal/lsp/config_discovery.go:782-791 | shorter first, then byte order, is a total preorder |
| `ConfigBoundaries.BeforeMeans` | internal/lsp/config_discovery.go:782-791 | a directory is visited before another exactly when its text is shorter, or as long and smaller at the first differing byte |
| `ConfigBoundaries.OwnsByNames` | internal/lsp/config_discovery.go:792-820 | a directory owns another exactly when it leads towards it name by name up to case |
| `ConfigBoundaries.GreedyPass` | internal/lsp/config_discovery.go:792-805 | keeps a candidate unless one kept earlier owns it |
| `ConfigBoundaries.KeptIsOutermostIff` | internal/lsp/config_discovery.go:792-805 | the pass keeps exactly the outermost candidates if and only if each is visited before what it owns |
| `ConfigBoundaries.SpellingsTell` | internal/lsp/config_discovery.go:782-791 | normalised paths with the same text are the same path, so the visit order has no ties |
| `ConfigBoundaries.VisitOrderIsSpelling` | internal/lsp/config_discovery.go:782-805 | the visit order is right exactly when outermost failures are spelled before the others they own |
| `ConfigBoundaries.ShorterFirstIsEnough` | internal/lsp/config_discovery.go:782-791 | outermost failures are spelled first whenever folding keeps the length of names |
| `ConfigBoundaries.KelvinIsNotSpelledFirst` | internal/lsp/config_discovery.go:782-791 | the failures `/K` (Kelvin sign) and `/k/k` break the condition under a folding that shortens the sign |
| `ConfigBoundaries.ShorteningFoldKeepsNestedBoundary` | internal/lsp/config_discovery.go:757-805 | for those failures the operation returns both the nested directory and its owner |
| `ConfigBoundaries.UnavailableConfigBoundaryDirectories` | internal/lsp/config_discovery.go:757-820 | boundaries are blocking failures in their first spelling, own every blocking failure, include every outermost one, and none is owned by an earlier one; for normalised paths they are exactly the outermost ones if and only if each of those is spelled before the others it owns |
| `ConfigShapes.WordBits` | internal/config/config_resolution.go:11-26 | adding one of the first 64 entries changes its own bit only |
| `ConfigShapes.AddContains` | internal/config/config_resolution.go:11-26 | adding an entry makes exactly that entry contained, across word and tail |
| `ConfigShapes.KeyContains` | internal/config/config_resolution.go:11-26 | a key contains exactly the entries added to it |
| `ConfigShapes.KeysAreExact` | internal/config/config_resolution.go:3-9 | two keys are equal exactly when the same entries matched, for configs of any length |
| `ConfigShapes.MatchConfigEntries` | internal/config/config_resolution.go:32-90 | a key exactly when the file has a config, and then it contains exactly the entries that are no global ignores, whose selectors match if they have any, and that do not ignore the file |
| `ConfigShapes.HasConfigMeans` | internal/config/config_resolution.go:32-90 | a file has a config exactly when nothing takes it out and some entry applies that selects it, or that has no selectors while the file is linted by default or selected by another |
| `ConfigMerge.MergeRules` | internal/config/config_resolution.go:112-126 | one entry overrides exactly the rules it gives a usable value; a bare severity keeps earlier options |
| `ConfigMerge.MentionedChanges` | internal/config/config_resolution.go:112-126 | a mention takes over the severity and, if it has options, the options |
| `ConfigValues.OverrideDecides` | internal/config/config.go:1051-1066 | at every path a deep merge shows the override where it says anything and the base elsewhere |
| `ConfigValues.ObjectsAreKept` | internal/config/config.go:1051-1066 | the objects of a deep merge, empty ones included, are those of the override and those of the base it says nothing about |
| `ConfigValues.LastSetIsLast` | internal/config/config.go:1147-1178 | the last set value, by index |
| `ConfigValues.LastLayerDecides` | internal/config/config_resolution.go:132-137 | at every path merged settings show the last entry that says anything about it |
| `ConfigValues.OptionsMergeByField` | internal/config/config.go:1147-1178 | each parser option is the last one set, on its own, and raw language options merge as settings do |
| `ConfigMerge.MergeConfigEntries` | internal/config/config_resolution.go:101-142 | each rule has the severity of its last chosen mention and the options of its last options-bearing one; plugins are collected; settings and language options are merged in entry order |
| `ConfigMerge.SettingsAreTheLast` | internal/config/config_resolution.go:127-137 | every setting of a merge is that of the last chosen entry that says anything about it |
| `ConfigMerge.OptionsAreTheLast` | internal/config/config.go:1147-1178 | every parser option of a merge is the one set by the last chosen entry that sets it |
| `ConfigMerge.PluginsAreListed` | internal/config/config_resolution.go:101-142 | the plugins of a merge are the normalized names the chosen entries list |
| `ConfigMerge.MergeIsUnique` | internal/config/config_resolution.go:99-142 | those promises determine the merge |
| `ConfigMerge.ResolutionIsUnique` | internal/config/file_resolver.go:179-209 | direct resolution of a target has one answer |
| `ConfigMerge.ShapeFitsSelection` | internal/config/file_resolver.go:199-206 | a plan cached under a key fits every selection with that key |
| `ConfigMerge.FileConfigResolver.constructor` | internal/config/file_resolver.go:94-107 | starts with empty caches |
| `ConfigMerge.FileConfigResolver.PlanForShape` | internal/config/file_resolver.go:199-206 | a hit or a miss gives the plan of the selection, and no cached plan changes |
| `ConfigMerge.FileConfigResolver.ResolutionForTarget` | internal/config/file_resolver.go:179-209 | whatever the caches hold, the answer is the direct one |
| `PublishOnce.StepKeepsInv` | internal/config/resolution_cache.go:16-26 | every step of every caller keeps the slot and history invariant |
| `PublishOnce.EveryCallerSeesTheOneValue` | internal/config/resolution_cache.go:5-26 | in every interleaving a key is initialised at most once and every caller returns that value |
| `PublishOnce.WaitingMeansSomeoneWorks` | internal/config/resolution_cache.go:16-26 | a waiting caller always waits for a running initialiser |
| `PublishOnce.SomeoneCanMove` | internal/config/resolution_cache.go:16-26 | a caller that has not returned can move, or another is initialising its key and can finish |
| `PublishOnce.StepAdvances` | internal/config/resolution_cache.go:16-26 | each step brings its caller closer to its return with the same key and touches no other caller |
| `PublishOnce.InitialisedKeysAreServed` | internal/config/resolution_cache.go:5-26 | a caller of an initialised key gets its value without another initialisation |
| `Utf8.ValidConcat` | cmd/rslint/ipc_cli.go:690-721 | after valid text, the whole is valid exactly when the rest is |
| `Utf8.LastStartIsBoundary` | cmd/rslint/ipc_cli.go:690-721 | any cut of valid text falls in, or at the end of, the character that starts last before it |
| `Utf8.AsciiIsAlone` | internal/lsp/document_changes.go:78-99 | a line terminator ends at a character boundary |
| `StdoutDrain.SplitAtUTF8Boundary` | cmd/rslint/ipc_cli.go:683-721 | holds back exactly an announced and unfinished last character, nothing else |
| `StdoutDrain.SplitOfValid` | cmd/rslint/ipc_cli.go:683-721 | cutting valid text anywhere leaves whole characters and at most three bytes held back |
| `StdoutDrain.Flush` | cmd/rslint/ipc_cli.go:618-641 | sends what is pending; the first refusal ends forwarding for good |
| `StdoutDrain.ConcatJoins` | cmd/rslint/ipc_cli.go:595-681 | frames and reads add up chunk by chunk |
| `StdoutDrain.DrainStdout` | cmd/rslint/ipc_cli.go:595-681 | for every way the stream is read the frames add up to it, or to a beginning of it after the first refused send; every frame was accepted, valid text gives valid frames, and only the last frame may be short |
| `DocumentChanges.ComputeLSPLineStarts` | internal/lsp/document_changes.go:78-99 | increasing, and exactly 0 and the ends of CR, LF and CRLF |
| `DocumentChanges.LineStartsAreUnique` | internal/lsp/document_changes.go:78-99 | the line starts are determined by the text |
| `DocumentChanges.WalkIsMonotone` | internal/lsp/document_changes.go:62-75 | more UTF-16 units never give a smaller offset |
| `DocumentChanges.WalkStopsBetweenCharacters` | internal/lsp/document_changes.go:62-75 | the walk stops at a character boundary of valid text |
| `DocumentChanges.WalkFindsEveryBoundary` | internal/lsp/document_changes.go:62-75 | walking the UTF-16 length of a prefix ends at that prefix |
| `DocumentChanges.LspUTF16PositionToOffset` | internal/lsp/document_changes.go:50-76 | the loop is the line start plus the walk, or the end of the text |
| `DocumentChanges.OffsetIsMonotone` | internal/lsp/document_changes.go:50-76 | lookup is monotone in line and character |
| `DocumentChanges.OffsetIsBoundary` | internal/lsp/document_changes.go:50-76 | in valid text lookup lands on a character boundary |
| `DocumentChanges.EveryBoundaryHasAPosition` | internal/lsp/document_changes.go:50-76 | every character boundary is the offset of some position |
| `DocumentChanges.WalkPastText` | internal/lsp/document_changes.go:62-75 | walking a line with its terminator agrees with walking its text up to the text's length and overshoots behind it |
| `DocumentChanges.OffsetIsIntendedIff` | internal/lsp/document_changes.go:50-76 | for any content the offset is the one LSP 3.17 intends if and only if the line has no terminator or the character is within its text |
| `DocumentChanges.PastTheEndOvershoots` | internal/lsp/document_changes.go:50-76 | two positions past the text of a line that land behind it |
| `DocumentChanges.ApplyDocumentChanges` | internal/lsp/document_changes.go:16-48 | either all splices in order or the original text |
| `DocumentChanges.ChangesKeepUtf8` | internal/lsp/document_changes.go:16-48 | valid text changed by valid text stays valid |
| `DocumentChanges.OrderedRangesAreAccepted` | internal/lsp/document_changes.go:34-36 | ranges that do not run backwards are never rejected, whatever the text |
| `DocumentChanges.EveryEditCanBeMade` | internal/lsp/document_changes.go:16-48 | every replacement of whole characters is what some range does, and that range reversed is rejected unless empty |
| `Unicode.EncodedIsOneRune` | internal/lsp/document_changes.go:66-75 | an encoded scalar value is one step of the walk and counts as many units as its UTF-16 encoding is long |
| `Unicode.RuneIsEncoded` | internal/lsp/document_changes.go:66-75 | every recognized character is the UTF-8 encoding of a scalar value |
| `Unicode.ValidIffEncoded` | internal/lsp/document_changes.go:66-75 | valid text is exactly the UTF-8 encoding of some scalar values |
| `Unicode.UnitsAreUtf16` | internal/lsp/document_changes.go:66-75 | the units of a text are those of its UTF-16 encoding |
| `Unicode.WalkCountsUtf16` | internal/lsp/document_changes.go:62-75 | a character index is found behind exactly as many characters as fit into that many UTF-16 units |
| `Unicode.FitsIsUnique` | internal/lsp/document_changes.go:62-75 | there is only one such place |

## Left out

- Globs.Matches: matching of characters and braces inside one path segment is an abstract predicate, because the glob library's code is not part of this model.
- IgnorePruning.PruningIsSound: stated for blocked directories and safe covers, because it is false for the others; `CoverIsReliableIffSafe` is the exact condition.
- IgnorePruning.IsDirAbsolutelyBlocked: directories are non-empty relative paths, as the callers pass them (internal/config/config_target_resolver.go:777).
- FileIgnore.ApplyFileIgnorePatterns: patterns are taken as parsed, and one path space is modelled; symlink and realpath projection and the choice of a collected scope depend on the filesystem.
- ExternalSymbols.CollectExternalSymbols: the name-dependent acceptance of type-only symbols and the choice between module exports and properties are not modelled.
- SourceCodeFixer.ApplyRuleFixes: sorting is on values, so the reordering of the caller's own fix slices in place is not captured.
- FixPlanning.PlanFixes: requires well-formed fixes as the fixer does; a fix outside the text or overlapping another of its own diagnostic is a rule error the source does not handle either.
- ChannelReceipts.ReceiptCanComplete: scheduling is not fair in the model, so completion is stated as always within reach of two threads, not as inevitable.
- IgnorePruning.CanPruneDirectory: how a directory relates to an entry's scope, how each path space spells it and where its floor lies are inputs; soundness is stated in one path space.
- Channel.InitialInv: ids are unbounded integers, deadlines and timers are cancellations that may happen at any time, and an error reply to an unhandled request runs as a thread of its own.
- Frames.Encode: JSON bodies are opaque bytes.
- LspServer.Server.Dispatch: a panic inside a lint, and the effect of other open documents' text on a document's types, are not modelled; the plugin result channel has no capacity limit, a full one being a result that is dropped.
- LspShown.PendingIffEdited: code actions, which lint a document afresh and take it off the waiting list (internal/lsp/code_action.go:119-121), are not modelled.
- ChannelDelivery.ResultsAreTheAnswers: a peer may send an id before it is issued, so the answer is told by the first dispatch that found the request pending and not by the first message received.
- LspServer.Server.HandleDidSave: the session and program store notified by the handlers are not modelled.
- ConfigRefresh.Server.RefreshConfig: discovery is any sequence of loader calls under one transaction id with any outcome; validation of the configs found is a stage that may fail; the path tables, owner index, resolvers and rule catalog are one derived value.
- ConfigBoundaries.UnavailableConfigBoundaryDirectories: case is folded name by name, by any function; the exact condition is stated for normalised paths, which is what the source passes on.
- ConfigAgreement.AgreeIffNothingWasLost: worker hosts, their retirement and a restart of either process are not modelled; an activation that failed on the other side counts as one that did not reach it.
- ConfigValues.OptionsMergeByField: a group of parser options that is set together is one value.
- DirectoryRoots.CoalesceDirectoryIdentities: the filesystem's realpath is an input, and drive letters are already normalised.
- ConfigMerge.FileConfigResolver.ResolutionForTarget: the caches are sequential here; their concurrent protocol is `PublishOnce`.
- Observation.ExecuteObservation: what linting, projecting and freezing compute is left to the autofix modules; here they are stages that succeed, fail or panic.
- TypeScript AST, checker and Program construction, rule bodies, JSON encoding, error text, logging, flag parsing, config migration, rendering and file watchers: foreign code or presentation.
