# A verified model of the tmula load-test engine's core

tmula walks virtual users through a scenario graph against a target, collects what
happened, and shows it in a web console. This project models the parts of it that
carry real algorithms or protocols, in Dafny, and proves what they promise. The code
is followed branch by branch; where it works by changing state step by step the model
is a method with a loop or a class, and where several goroutines share state it is a
transition system in which every interleaving is a schedule (a list of steps), so that a
theorem about schedules holds for every run.

The modules, by subject:

- **Funnel drawing** (`FunnelGraph`, `FunnelLayout`): the breadth-first search that gives
  every node its column, proved to be exactly the shortest-walk distance, and from that
  the classification of edges and the placing of nodes.
- **Printers and parsers that undo each other** (`CredentialCsv` after section 2 of RFC
  4180, `ShellWords` after section 2.2 of the POSIX.1-2017 Shell Command Language,
  `CurlCommand` and `PastedCurl`, with `JsText` and `AsciiCase` below them). Each round trip
  is stated for all inputs, with the exact condition where it can fail.
- **Form bodies and templates** (`FormCodec`, `RequestTemplates`, `RefreshGrant` after
  section 6 and appendix B of RFC 6749, `LoginTemplates`): a refresh or login body is
  rewritten as text, rendered with secrets, and decoded again by the server.
- **The prewarm burst** (`PrewarmBurst`): semaphore, wait group, once-only first error and
  cancellation, over every interleaving.
- **Aggregators against their event log** (`LatencyHeat`, `HeatCounters`).
- **The walker and the signup compiler** (`ScenarioWalker`, `SignupCompiler`): the one walk
  a list of random draws makes, with and without deviation, and which journeys a compiled
  step list allows, whatever the draws.
- **Runs** (`RunLifecycle`, `RunRegistry`): a run racing any number of kills until its done
  channel closes, and the bounded registry of runs.
- **Credentials** (`SourceChecksum`, `LoginSessions`, `RefreshFlight`): the digest's
  pre-image, minting and rotating, holders shared or per user, and the single flight of
  concurrent refreshes.
- **Root causes** (`RootCause`, `Annotations`): the verdict of a replay, and stamping it
  concurrently on the live and the stored findings.

`dafny verify dfyconfig.toml` checks everything.

## Where the code does not do what is said of it

- The comment on the cap enforcement says that a run's spec goes with the run
  (server/internal/api/registry.go:20-23). Specs are stored under experiment ids, and the
  delete uses the run's id; `RunRegistry.SpecsAreNeverEvicted` shows that it never removes one.
- The single flight of refreshes is there against the lost update
  (server/internal/auth/login.go:147-156). It prevents it in the cache, but each caller sets the
  holder on its own afterwards, so a slow caller can put an older credential back.
  `RefreshFlight.GuardedHolderIsLatest` and `RefreshFlight.BrokenGuardCanGoStale` give the
  condition under which the holder is current, and show that without it it need not be.
- A step's `dependsOn` is documented as naming an earlier step
  (server/internal/domain/signupflow.go:27-29). The compiler takes any step of the list;
  `SignupCompiler.VisitsAllIffBackwards` shows that the journey then stops short, exactly there.
- Annotating a finding is said to leave both views agreeing
  (server/internal/api/reproduce.go:469-480). `Annotations.VerdictIsStoredIff` gives the exact
  condition, and `Annotations.AnnotatingWhilePersistingIsLost` a schedule that breaks it.
- A run that looks terminal may be evicted, and its report is then to be read from the store.
  It can look terminal with nothing stored: a killed run from the accepted kill on, and every
  run, killed or not, from finalize until its row is saved, while its metrics are fetched.
  `RunLifecycle.TerminalButUnstored` gives the exact condition.
- A frame of the traffic map that ends a killed run's stream can miss requests, and a frame can
  show more errors than requests on an edge. `HeatCounters.CountersAreFaithful` says when neither
  happens, and `HeatCounters.EarlyKilledFrameCanMiss` and `HeatCounters.HalfwayFrameCanTear` that
  outside those conditions both always can.

## Model

| member | source | states |
|---|---|---|
| FunnelGraph.GraphDepths | web/src/api.ts:2592-2624 | for any nodes, edges and start, the map holds exactly the reachable nodes, each with the least number of edges of a walk from the start over declared nodes |
| FunnelGraph.ShortestDepthsUnique | web/src/api.ts:2592-2624 | that reference has one answer, so listing order and duplicates of nodes and edges cannot matter |
| FunnelGraph.SearchIsExact | web/src/api.ts:2608-2623 | what the queue loop keeps (discovered, rooted, relaxed) is enough for exactness |
| FunnelGraph.ScanQueue | web/src/api.ts:2608-2623 | the queue loop ends, with exactly the shortest depths over the adjacency it is given |
| FunnelLayout.ForwardRaisesByOne | web/src/api.ts:2454-2465 | an edge out of a reachable node is forward if and only if its target is no terminal and exactly one column deeper |
| FunnelLayout.BackNeverDeepens | web/src/api.ts:2454-2465 | such an edge is terminal if and only if it enters a terminal, and otherwise back if and only if its target can be reached in no more steps than its source |
| FunnelLayout.ForwardWalkMeasuresDepth | web/src/api.ts:2454-2465 | along any all-forward walk, depth counts the steps |
| FunnelLayout.CycleIsForwardIffUnreachable | web/src/api.ts:2454-2465 | a directed cycle is all forward if and only if it is unreachable and meets no terminal; hence every reachable cycle has a back or terminal edge |
| FunnelLayout.DepthsAreContiguous | web/src/api.ts:2632-2667 | below an occupied column there is no empty one |
| FunnelLayout.BucketNodes | web/src/api.ts:2638-2654 | one column per depth with its nodes in listed order, the unreached ones in one more column behind |
| FunnelLayout.LayoutGraph | web/src/api.ts:2632-2667 | every node is placed; with distinct ids no two share a point, reachable nodes are in the column of their depth, unreachable ones in one column to the right, no column is empty, and each column is centred |
| CredentialCsv.SplitCSVRow | web/src/api.ts:659-687 | the character loop computes the recursive reading of a line |
| CredentialCsv.RowRoundTrip | web/src/api.ts:1425-1428 | splitting the comma-join of any non-empty list of cells gives the list back |
| CredentialCsv.ParseLoginCredsCSV | web/src/api.ts:760-785 | the reader of a pasted list, with every error case, computes the specification it is reasoned about with |
| CredentialCsv.ReaderOutputIsClean | web/src/api.ts:760-785 | whatever the text, accepted entries have trimmed non-empty user names and non-empty passwords without a line feed |
| CredentialCsv.GenerateCredentialRows | web/src/api.ts:1199-1221 | refuses exactly a bad count or a blank token template, otherwise yields the rows of the rendered templates |
| CredentialCsv.TokenTextsAt | web/src/api.ts:1212-1215 | a bare-token pool is the rendered token of each index, in order |
| CredentialCsv.RenderAround | web/src/api.ts:1210 | rendering keeps the text and puts the index in the place of each {{.userIndex}} |
| CredentialCsv.RowsRoundTrip | web/src/api.ts:760-785 | for any user names and passwords the reader gives the list back if and only if every row is transportable |
| CredentialCsv.AnyHeaderIsRead | web/src/api.ts:760-785 | whatever other columns a list has and wherever the two stand, each row is read as its trimmed username cell and its password cell |
| CredentialCsv.GeneratedPoolRoundTrip | web/src/api.ts:1199-1221 | a generated pool parses to exactly its `count` rendered entries if and only if every rendered row is transportable |
| ShellWords.TokenizeShell | web/src/api.ts:895-929 | the tokenizer loop computes the recursive reading that the round trips are about |
| ShellWords.RefusedIffQuoteOpen | web/src/api.ts:895-929 | the result is null if and only if a quote is open at the end |
| ShellWords.QuotedWordsRoundTrip | web/src/api.ts:895-929 | tokenizing the space-join of words gives the words back, however each is written: any mixture of bare, backslashed, single-quoted and double-quoted pieces, in the last with backslashes escaping or kept |
| CurlCommand.ParseCurlCommand | web/src/api.ts:845-890 | the flag loop and its conclusion compute the reading of a curl line that the theorems on printed and pasted lines are about |
| CurlCommand.CurlOfPrint | web/src/api.ts:845-890 | what reading a printed request yields, for any field texts |
| CurlCommand.CurlRoundTrip | web/src/api.ts:845-890 | a well-formed request printed as a curl line is read back if and only if no field holds a backslash-newline |
| PastedCurl.PastedWordsIff | web/src/api.ts:849-929 | a line of words written in any quoting, with blanks, tabs and line continuations between them, is read as those words if and only if no word is written with a backslash-newline in it |
| PastedCurl.PastedCurlIsRead | web/src/api.ts:834-890 | such a line is read as the request its arguments ask for, in any order: the last verb, or by default POST if there is data and GET if not, every header, the non-empty data joined with &, the target, values glued to their flags or not, and the listed unused flags skipped with their values |
| FormCodec.UnescapeEscape | server/internal/api/login.go:464-485 | query-unescaping an escaped byte string gives the bytes back |
| FormCodec.AnyEscapeDecodes | server/internal/api/login.go:372-375 | however each byte of a text is escaped, in hexadecimal digits of either case, it decodes to that text |
| FormCodec.DecodeSlots | server/internal/api/login.go:443-485 | joined pairs decode to those pairs in order and nothing else |
| RequestTemplates.RenderLiteral | server/internal/load/adapter.go:115-128 | text without a brace is rendered as itself, so no such text acts as an action |
| RequestTemplates.RenderPiped | server/internal/load/adapter.go:115-128 | a piped placeholder is replaced by the escaped value, which is never read as template text |
| RequestTemplates.RenderPlain | server/internal/load/adapter.go:115-128 | a bare placeholder is replaced by the value as it is |
| RequestTemplates.RenderMissing | server/internal/load/adapter.go:115-128 | a placeholder the context does not have makes the rendering an error |
| RefreshGrant.RewriteToRefreshGrant | server/internal/api/login.go:443-485 | whatever order the keys come in, the body is the grant prefix and the kept fields in key order, and rendered with any captured token it decodes to the refresh grant with that token alone, without username, password and code, and with every other field as it was |
| RefreshGrant.RefreshTextUnique | server/internal/api/login.go:464-485 | there is one such text for a form, so it does not depend on map iteration |
| RefreshGrant.RefreshBodyDecodes | server/internal/api/login.go:443-485 | for every form and every captured token, decoding the rendered body yields without an error the refresh grant, that token byte for byte and no other one, no username, password or code, every field of any other name with its values in order, and nothing else |
| RefreshGrant.IsFormURLEncoded | server/internal/api/login.go:428-435 | true only if some content type is form encoding, and exactly then when there is one such header |
| RefreshGrant.ContentTypeLetters | server/internal/api/login.go:428-435 | the header name is met letter by letter in either case |
| RefreshGrant.DeriveRefreshTemplate | server/internal/api/login.go:361-385 | derives only from a form-encoded, parseable token request with a grant type, and from every such request with one content type; then only id, captures and body change, to a body that decodes to such a refresh request |
| RefreshGrant.ParseQueryIsParsed | server/internal/api/login.go:372-375 | a decoded form holds byte strings and no empty value list, whatever the text |
| LoginTemplates.UrlqueryFormLoginTemplates | server/internal/api/login.go:332-341 | rewrites exactly the form-encoded templates' bodies and leaves the rest of every template as it is; only a template with a second content type may be kept |
| LoginTemplates.PipeTemplateIdempotent | server/internal/api/login.go:324-341 | a template rewritten twice is the template rewritten once |
| LoginTemplates.RewriteIdempotent | server/internal/api/login.go:324-341 | rewriting twice changes nothing more, on any text |
| LoginTemplates.LoginFormDecodes | server/internal/api/login.go:324-341 | rendering a rewritten form with any credential bytes and decoding it gives every field its text with those exact bytes in place, whether a placeholder was piped already or not, next to other seeded placeholders |
| LoginTemplates.FormLoginSendsCredentials | server/internal/api/login.go:319-341 | what is sent from a rewritten form template decodes to each field's text with the exact bytes of the username, password, subject or secret in the placeholders' place |
| PrewarmBurst.ConcurrencyFor | server/internal/api/prewarm.go:104-113 | the smaller of the two caps, never below one |
| PrewarmBurst.BurstIsBounded | server/internal/api/prewarm.go:25-74 | in every interleaving the acquires in flight stay within the bound, launched indices are a prefix each launched once, and from any moment on at which a failed acquire was through the once block, or the caller's cancellation had come through, at most one more is launched |
| PrewarmBurst.BurstResult | server/internal/api/prewarm.go:25-74 | at return nothing is running; an error is what the acquire of the once winner failed with in the schedule; nil means no acquire failed in it and all launched succeeded, all n of them or the caller cancelled |
| PrewarmBurst.StepInv | server/internal/api/prewarm.go:38-70 | every step of the caller and of every goroutine keeps the invariant behind both |
| PrewarmBurst.NoDeadlock | server/internal/api/prewarm.go:38-73 | until the burst returns some step of its own can be taken, whether or not anybody cancels it |
| PrewarmBurst.BurstReturns | server/internal/api/prewarm.go:25-74 | if acquires return, every schedule in which the burst has no step left ends returned, cancelled or not, after a bounded number of steps |
| LatencyHeat.LatencyRowFor | server/internal/api/latency_heatmap.go:42-49 | the scan finds the band the latency lies in |
| LatencyHeat.BandUnique | server/internal/api/latency_heatmap.go:33-49 | there is only one such band |
| LatencyHeat.LatencyRowsMeta | server/internal/api/latency_heatmap.go:96-105 | the axis labels are the bands the rows are counted by |
| LatencyHeat.Grid.Record | server/internal/api/latency_heatmap.go:68-85 | recording extends the event log by the request and keeps the grid counting it |
| LatencyHeat.Grid.Snapshot | server/internal/api/latency_heatmap.go:110-147 | every cell counts exactly the logged requests of its band and widened column; at most 300 columns, no wider than needed; the total is the log's length and maxCount the true maximum |
| LatencyHeat.DownsampleCols | server/internal/api/latency_heatmap.go:152-165 | each merged cell is the sum of its group of columns |
| LatencyHeat.FactorIsLeast | server/internal/api/latency_heatmap.go:129-135 | the merge factor fits the cap and no smaller one does |
| LatencyHeat.MergeRefines | server/internal/api/latency_heatmap.go:129-165 | merging columns refines the same log at the widened width |
| LatencyHeat.TotalsConserved | server/internal/api/latency_heatmap.go:110-147 | no request is lost or counted twice |
| HeatCounters.NewHeatAgg | server/internal/api/heatmap.go:34-51 | every transition of the graph has a slot, every slot is one, and keys and slots name each other |
| HeatCounters.CountersAreFaithful | server/internal/api/heatmap.go:56-139 | in every interleaving errors never exceed requests in memory, counts never fall between frames, a frame whose status was read after finalize holds every event of the schedule whatever the status, a completed or failed one was, and errors exceed requests in a frame only where a request was added between the two loads, on top of those loaded |
| HeatCounters.StepInv | server/internal/api/heatmap.go:56-139 | every step of recorders, run and reader keeps the invariant behind it |
| HeatCounters.SlotIsExactIff | server/internal/api/heatmap.go:34-63 | a slot counts its own edge's events and nothing else if and only if no other recorded edge has its key |
| HeatCounters.SlotCountsItsEdge | server/internal/api/heatmap.go:34-63 | with source ids free of '>' a slot's two counts are its edge's |
| HeatCounters.KeysCanCollide | server/internal/api/heatmap.go:36-42 | two different edges whose ids contain '>' share a counter |
| HeatCounters.EarlyKilledFrameCanMiss | server/internal/api/heatmap.go:124-138 | whenever a killed run's status is read before finalize, the done frame can come to miss an event |
| HeatCounters.HalfwayFrameCanTear | server/internal/api/heatmap.go:74-84 | whenever the reader stands between the two loads of an edge of an unfinalized run, the frame can come to show more errors than requests on it |
| HeatCounters.KilledFrameCanMissEvents | server/internal/api/heatmap.go:124-138 | a schedule from the start whose done frame misses a request of a killed run |
| HeatCounters.FrameCanShowMoreErrors | server/internal/api/heatmap.go:74-84 | a schedule from the start with a frame of one request and two errors |
| ScenarioWalker.Walker.constructor | server/internal/engine/walker.go:22-42 | the walker's maps hold each node's outgoing edges and dependency predecessors |
| ScenarioWalker.Walker.Eligible | server/internal/engine/walker.go:88-101 | exactly the positive edges to enterable nodes are offered, and none only when the walk is stuck |
| ScenarioWalker.WeightedPick | server/internal/engine/walker.go:104-114 | the edge whose stretch of the summed weights holds the draw |
| ScenarioWalker.PickIsUnique | server/internal/engine/walker.go:88-114 | a draw leads to one node at most, so the stretches of the takeable edges do not overlap |
| ScenarioWalker.Walker.Walk | server/internal/engine/walker.go:58-83 | fails exactly for a bad bound, start or unmet dependency; otherwise transition i goes where draw i leads among the takeable edges in graph order, each as long as its weight; at most maxSteps transitions, fewer only when stuck, and one draw for each |
| ScenarioWalker.Walker.WalkWithDeviation | server/internal/engine/deviation.go:23-58 | at every turn the draws decide between the weighted transition, an even one and leaving, and the path is what they make of it, always permitted; the draws taken are counted |
| ScenarioWalker.DecisionIs | server/internal/engine/deviation.go:45-55 | who leaves, who explores and how many draws it takes: deviating below the rate, and a second draw only between both |
| ScenarioWalker.DrawnWalkIsUnique | server/internal/engine/walker.go:58-114 | the draws make one walk |
| ScenarioWalker.RateZeroIsTheWalk | server/internal/engine/deviation.go:45-55 | at rate 0 a walk with deviation is the walk without, with the same draws taken |
| ScenarioWalker.FullRateAlwaysDeviates | server/internal/engine/deviation.go:45-55 | at rate 1 a user who may only leave does so at once, and one who may only explore takes every transition evenly, on every second draw |
| ScenarioWalker.DependenciesAreNeverSkipped | server/internal/engine/walker.go:46-83 | no walk of any graph enters a node before all its dependency predecessors |
| SignupCompiler.CompileSignupSteps | server/internal/api/bootstrap.go:232-294 | succeeds exactly on valid, distinct steps with known dependencies and non-negative weights, with the graph and for each step a template holding its verb, path, headers, body and captures |
| SignupCompiler.DependencyEdgesAreDeclared | server/internal/api/bootstrap.go:262-287 | a step with a dependency has exactly one dependency edge into it, from the step it names; other steps have none |
| SignupCompiler.PositiveEdgesAreTheChain | server/internal/api/bootstrap.go:262-287 | a positive edge joins two steps exactly when they are consecutive |
| SignupCompiler.ChainEdgeAt | server/internal/api/bootstrap.go:262-275 | the edge between two consecutive steps has the given weight, or 1 for none, and depends exactly if the later step names the earlier one |
| SignupCompiler.WalksFollowTheSteps | server/internal/api/bootstrap.go:232-294 | every walk from a step follows the steps in order and never passes one whose dependency is unvisited |
| SignupCompiler.StuckWalksReachTheStop | server/internal/api/bootstrap.go:232-294 | a walk that cannot go on has visited exactly the steps up to the first such one |
| SignupCompiler.VisitsAllIffBackwards | server/internal/api/bootstrap.go:232-294 | some walk of the compiled graph visits every step if and only if every dependency names an earlier step |
| SignupCompiler.CompileSignupFlow | server/internal/api/bootstrap.go:207-224 | the start defaults to the first step and the bound is the number of steps |
| SignupCompiler.WalkCompiled | server/internal/api/bootstrap.go:207-224 | walking a compiled flow yields one journey whatever the draws, or the error the start deserves; from the first step it is all steps in order if and only if every dependency names an earlier one |
| RunLifecycle.RunRecord.Kill | server/internal/api/handlers.go:101-110 | accepts exactly a running run, and then sets status and reason |
| RunLifecycle.RunRecord.Finalize | server/internal/api/orchestrator.go:92-107 | an earlier kill wins over a cancelled context, that over an error, that over completion |
| RunLifecycle.DoneRunsAreSettled | server/internal/api/orchestrator.go:23-190 | once done is closed: finalized once, at the end time, status and reason its schedule calls for; the live findings, and the stored ones, are what its work found in order up to verdicts, none for a failed boot or a failed direct run; the stored row is the final record; each is stored exactly if its save went through; provisioned accounts were torn down once |
| RunLifecycle.ExecuteKeeps | server/internal/api/orchestrator.go:23-190 | at any moment of any schedule the requests, the accepted kill, the end time, the context, the work's error, its findings and the saves are those of the steps taken |
| RunLifecycle.OneKillWins | server/internal/api/handlers.go:88-114 | at most one kill is accepted, the first one checked; the run then is Killed with the reason that request gave, or the default for an empty one, and once it is answered the context is cancelled; a refused one saw a terminal status |
| RunLifecycle.TerminalIsAbsorbing | server/internal/api/orchestrator.go:92-107 | a terminal status and its reason never change; after finalize neither does the record, and the findings change in their verdicts only |
| RunLifecycle.CancelledRunsEndKilled | server/internal/api/orchestrator.go:99-100 | a context cancelled before finalize always ends in Killed, without a reason of its own |
| RunLifecycle.TerminalButUnstored | server/internal/api/runstate.go:77-87 | a run looks terminal with nothing stored if and only if, before finalize, a kill was accepted, and after it, its row has not been tried to be saved or there is no store |
| RunLifecycle.KilledButUnstored | server/internal/api/handlers.go:101-110 | a schedule with such a run that was killed at work |
| RunLifecycle.CompletedButUnstored | server/internal/api/orchestrator.go:92-118 | a schedule with such a run that completed and that nobody killed |
| RunLifecycle.RunStepsAreBounded | server/internal/api/orchestrator.go:23-118 | however many kills and annotations come in, at most ten steps of the run are left |
| RunLifecycle.RunIsNeverBlocked | server/internal/api/orchestrator.go:23-118 | until done is closed a step of the run itself can be taken |
| RunLifecycle.StepInv | server/internal/api/orchestrator.go:23-118 | every step of the run and of every kill keeps the invariant behind these |
| RunRegistry.IdsAreDistinct | server/internal/api/registry.go:9-11 | ids never collide, within a kind or across the two |
| RunRegistry.Registry.RegisterRunLocked | server/internal/api/registry.go:15-18 | a fresh run is stored and appended, keeping the registry valid |
| RunRegistry.Registry.SweepRuns | server/internal/api/registry.go:28-43 | the loop drops stale entries, evicts terminal runs while over the cap and keeps the rest in order |
| RunRegistry.Registry.EnforceRunCapLocked | server/internal/api/registry.go:24-44 | nothing happens at or below the cap or for a non-positive one; the order keeps listing exactly the held runs in insertion order |
| RunRegistry.RetentionIsBounded | server/internal/api/registry.go:20-44 | exactly as many runs go as exceed the cap, or all terminal ones if those are fewer, and never a younger one before an older terminal one |
| RunRegistry.OldestGoFirst | server/internal/api/registry.go:28-42 | a terminal run that stays is younger than every run that goes |
| RunRegistry.OrderIsInsertionOrder | server/internal/api/registry.go:13-44 | in every trace the order is duplicate free and lists exactly the held runs of those the trace started, in that order, and one that is gone was seen terminal |
| RunRegistry.NumbersAreUsedOnce | server/internal/api/registry.go:9-18 | in every trace a run can be started exactly under a number that was drawn for a run and not used yet |
| RunRegistry.StartingRespectsTheCap | server/internal/api/server.go:319-322 | after a start at most the cap is held, or only as many more as were not terminal, and those all stay |
| RunRegistry.SpecsAreNeverEvicted | server/internal/api/registry.go:36-39 | in every trace the specs held are exactly those stored: the delete by run id never removes one |
| SourceChecksum.Checksum | server/internal/auth/checksum.go:24-39 | what is hashed is the count and every subject, each behind its 8-byte big-endian length |
| SourceChecksum.PutUint64 | server/internal/auth/checksum.go:24-39 | the reused buffer holds the big-endian bytes of the number |
| SourceChecksum.StreamInjective | server/internal/auth/checksum.go:24-39 | two streams are equal if and only if the subject sequences are |
| SourceChecksum.SameStreamSameAssignment | server/internal/auth/pool.go:25-30 | two workers with equal streams give every global index the same subject |
| LoginSessions.Mint | server/internal/api/login_transport.go:91-179 | no login exactly without a token, which is the explicit capture if one is named and the detected one otherwise; the subject is the explicit capture, else the detected one, else the row's; refresh token and lifetime are the answer's |
| LoginSessions.SubjectIsConstant | server/internal/api/login_transport.go:288-300 | along any chain of refreshes the subject is constant, and without a new refresh token the old one stays |
| LoginSessions.LastRefreshTokenIsHeld | server/internal/api/login_transport.go:288-300 | the refresh token held is the last non-empty one of an accepted answer |
| LoginSessions.LastTokenIsHeld | server/internal/api/login_transport.go:280-300 | the access token held is the last one an answer carried, with that answer's lifetime |
| LoginSessions.LoginProvider.Acquire | server/internal/auth/login.go:82-110 | one login per key; a failed one is not kept |
| LoginSessions.LoginProvider.Refresh | server/internal/auth/login.go:209-232 | exchanges when it can, logs in again when it cannot, and a failure leaves the cache |
| LoginSessions.LoginAuth.Seed | server/internal/api/login.go:169-201 | the shared scope always hands out the same holder, the per-user scope a fresh one with that index's credential |
| LoginSessions.LoginAuth.RunRefresh | server/internal/api/login.go:206-215 | in the shared scope every session then reads the outcome; per user no other session's holder changes |
| RefreshFlight.OneExchangeAtATime | server/internal/auth/login.go:161-194 | at most one exchange is in flight, and each successful one presents exactly the credential the one before it was answered with |
| RefreshFlight.OneFlightOneResult | server/internal/auth/login.go:175-193 | sessions served by the same flight return the same result |
| RefreshFlight.FlightGoesOn | server/internal/auth/login.go:161-194 | no session waits for ever: whoever is in its refresh can go on, or the session it waits for can |
| RefreshFlight.RefreshesAreBounded | server/internal/auth/login.go:161-194 | every arrival is a session, and together they take at most seven further steps each, whatever the schedule |
| RefreshFlight.GuardedHolderIsLatest | server/internal/api/login.go:206-215 | if a new flight starts only when earlier results are delivered, an idle system's holder has the latest credential |
| RefreshFlight.BrokenGuardCanGoStale | server/internal/api/login.go:206-215 | from every reachable state that breaks that guard a stale holder, which nobody is about to mend, can be reached |
| RefreshFlight.StepInv | server/internal/auth/login.go:161-232 | every step of every session keeps the invariant behind these |
| RootCause.BuildAttempt | server/internal/api/reproduce.go:437-453 | every step is mirrored, and the attempt reproduced exactly when one of them carries the signal |
| RootCause.AnswersThatDecide | server/internal/api/reproduce.go:407-435 | which answers decide: a 5xx of the finding's own node for a contract finding, that or a transport error for an availability finding, any transport error or 4xx or 5xx for the error rate, any answer slower than a positive gate for the latency |
| RootCause.Reproduce | server/internal/api/reproduce.go:118-206 | for a finding's category, reference and latency gate: functional if and only if every replay shows its signal, load dependent if and only if none does; no verdict for a bad count, a finding without a signal or an aborted replay |
| RootCause.TransportErrorsAlone | server/internal/api/reproduce.go:407-467 | where the node only meets transport errors, a contract finding is load dependent and an availability finding functional |
| RootCause.CountAllOrNone | server/internal/api/reproduce.go:455-467 | the tally equals all, or none, exactly when all, or none, of the replays show the signal |
| Annotations.StampInPlace | server/internal/api/reproduce.go:509-516 | exactly the findings with the key get the verdict, in place, and a change is reported exactly when there is one |
| Annotations.VerdictIsStoredIff | server/internal/api/reproduce.go:469-523 | in every interleaving, persisting included, the verdict a call asked for is on the stored finding if and only if, in the schedule, the call stamped the cached live copy before the report was taken or read the store after it was saved |
| Annotations.NoUpdateIsLost | server/internal/api/reproduce.go:481-523 | the concurrent calls of a schedule on distinct findings of a persisted run lose nothing: same findings in the same order, each named one with the verdict asked for, the rest untouched, and the live copy equal unless the run was evicted |
| Annotations.AnnotatingWhilePersistingIsLost | server/internal/api/reproduce.go:481-523 | a schedule in which the stored finding never gets the verdict the live one shows |
| Annotations.StepInv | server/internal/api/reproduce.go:481-523 | every step of the calls and of persisting keeps the invariant behind these |

## Left out

- HTTP, SSE, gRPC and Prometheus plumbing, JSON coding, the React components, markdown and HTML rendering.
- The pacing of load, think times, the open-model scheduler, worker sharding and the merging of worker summaries.
- Regular expressions as an engine: the patterns the code uses are written out as string functions.
- SHA-256: the digest is an uninterpreted function of the stream.
- Text: characters are code points, where the console's strings are UTF-16 units; upper and lower case is ASCII only.
- Template actions other than a field and a field piped through urlquery: they are an error in the model.
- A message with several Content-Type headers: the code reads the first one met in map order, so the model allows either outcome for it.
- FunnelLayout.LayoutGraph: a node whose id is `__proto__` gets a point like any other, where the console's record would take it as its prototype and not as a key.
- LoginTemplates.LoginFormDecodes: authored text holds no brace outside placeholders, and a placeholder for another seeded value is written without blanks.
- The choice of the token node, the override refresh template, JSON bodies of refresh requests, and the placeholder hints of login errors.
- Bare-token and JSON-lines credential lists; `terminalNodeIds`.
- Floating point: latencies, weights and draws are reals, so NaN and infinite weights do not occur and the last-edge fallback of the weighted pick is unreachable.
- The seeded generator: its draws are given as a sequence of reals in [0, 1), one for each float or index asked for.
- Durations: time offsets are unbounded integers of nanoseconds, without saturation.
- The latency grid's rows are sequence values in a map: in-place update and aliasing of a row's slice is not modelled.
- The input map of the login-template rewrite is a value, so that the original is not changed holds by construction.
- Progress logging of the burst, and wall-clock timeouts of teardown, metrics fetches and shutdown.
- Which error text a failed step list, login or replay reports beyond its kind.
- SignupCompiler.CompileSignupSteps: does not say which of several faults is reported first.
- RunLifecycle.DoneRunsAreSettled: which verdicts the stored findings have is the subject of `Annotations`. A store call that fails is recorded as lost, as in the code, and stats rows and the experiment row are not modelled.
- RunRegistry.Registry.EnforceRunCapLocked: the status of each run when it is checked is a parameter, because runs finish concurrently.
- Eviction and specs: only what the delete does is stated, not what it may have been meant to do.
- RefreshFlight.OneExchangeAtATime: covers refreshes of one key whose credential carries a refresh token; a login that replaces the exchange is counted as an exchange.
- Annotations.NoUpdateIsLost: calls on the same finding are left out, since the live stamp is made outside the annotation lock and the two views may then differ.
- LoginSessions.LoginAuth.RunRefresh: one refresh at a time; overlapping ones are the subject of `RefreshFlight`.
