# Models of the Magi desktop agent

Verified models of five components of the Magi repository: the dominator ranking of heap snapshots, the connection
protocol of the App Server, the browser automation worker, the page snapshot collector and the agent roles. Each
model is a set of Dafny modules; `dafny verify dfyconfig.toml` checks all of them.

**Heap dominators.** `FlowGraph` states dominance over an arbitrary finite directed graph with root 0.
`DepthFirstTree` and `Semidominators` hold the theory: preorder intervals, semidominators as minima over paths, and
the two theorems that turn them into immediate dominators. `LinkedLists`, `DepthFirstSearch`, `LinkEval` and
`HeapDominators` are the array program itself. The path compression of the worker stores the grandparent it read
before recursing; `LinkEval` re-derives the forest invariant for that form.

**App Server connection.** `BrowserCall` is the race between start, cancel, timeout, result and settlement of a browser
tool call, one atomic operation or lock action at a time. `OutboundQueue` is the numbered two-queue path with its
reorder buffer. `EventSubscription` is a snapshot followed by live events. The comment at
`crates/magi-api/src/app_server.rs:925-927` calls snapshot and receiver one continuous cut. They are, unless a
subscription request is refused while a subscription is active: the refused request has already replaced the receiver
and stored a snapshot. `RefusalIsExactIff` and `StaleCutIsExactIff` say exactly when nothing is lost, and
`RefusalLosesAnEvent` is a run in which an event is.

**Browser worker.** `CdpRequests` says what the client of the debugging protocol does to its requests and proves
what holds over every run; `CdpClient` is the class. In the same way `CommandLanes` and `CommandRuntime` model the
promise chains that admit commands, and `PageStates` and `PageTable` the page states under navigation. `NativeInput`
runs the input commands against an arbitrary world. It proves what a `succeeded` command did, exactly when a command
is reported as `failed`, and that a `failed` outcome means that nothing was dispatched, with one exact exception: a
form of which an option was written (`FailedAfterWriting`). It needs a host that fails a request under the code of a
page script failure. No host code in the repository emits that code; only
`browser-automation-worker/src/runtime.ts:451` and `browser-automation-worker/src/runtime.ts:1408` mention it. The
comment at `browser-automation-worker/src/runtime.ts:525` says that a navigation before the press fails without side
effect; the catch block flags it, so it is reported as indeterminate, and the model follows the code.
`SelectOptions` is the page side of setting a select control.

**Page snapshot.** `PageWalk` is the traversal with a stack of iterators, `SnapshotSelection` the order in which
elements compete, `SnapshotBudget` the node and text budgets, `PageSnapshot` the whole. `FrameGeometry` holds the
coordinate maps through nested frames, over real numbers.

**Agent roles.** `Text`, `Json`, `RoleMarkdown`, `RoleParser` and `RoleRules` model reading, normalising, validating
and writing a role file; `RoleRoundTrip` proves that they undo each other. The parser drops repeated kinds, which
normalisation keeps, so the round trip holds exactly for roles that repeat none. `RoleRegistry` is the registry with
its directory, `RoleRegistryThreads` its operations on many threads. `RoleWriters` says what the revision a writer
names protects: an outdated save or deletion is refused, reloads or not, unless the role was deleted and created again
in between, which starts its revisions over, or stands at the last 64-bit revision.

In the protocol models an action that is not enabled changes nothing, so a theorem over all action sequences is one
over all interleavings. Texts are sequences of characters, and 32-bit and 64-bit limits are written out where the code
depends on them.

## Model

| member | source | states |
|---|---|---|
| HeapDominators.DominatorRows | browser-automation-worker/src/runtime.ts:2340-2478 | for every finite directed graph with root 0: one row for each vertex reachable from the root and for no other, holding the number of its dominators and its one immediate dominator (none exactly for the root) |
| HeapDominators.RankBySemidominators | browser-automation-worker/src/runtime.ts:2416-2476 | from a finished depth-first search, every row in visiting order is right |
| HeapDominators.CountDominators | browser-automation-worker/src/runtime.ts:2466-2476 | the counts, one more than those of the immediate dominator, are the numbers of dominators |
| HeapDominators.CountStep | browser-automation-worker/src/runtime.ts:2470-2474 | a vertex has one dominator more than its immediate dominator, which is unique and numbered lower |
| HeapDominators.Resolve | browser-automation-worker/src/runtime.ts:2461-2464 | after the ascending pass every provisional answer is the immediate dominator |
| HeapDominators.ResolveStep | browser-automation-worker/src/runtime.ts:2461-2464 | a provisional answer other than the semidominator is replaced by the answer of that answer, and becomes the immediate dominator |
| HeapDominators.Descend | browser-automation-worker/src/runtime.ts:2442-2460 | after the descending pass every vertex holds the true semidominator number and a provisional answer of least semidominator on its tree path |
| HeapDominators.ProcessVertex | browser-automation-worker/src/runtime.ts:2442-2460 | one iteration of the descending pass keeps forest, buckets, semidominators and answers right |
| HeapDominators.ComputeSemi | browser-automation-worker/src/runtime.ts:2444-2449 | once all predecessors of `w` were evaluated, `semi[w]` is the number of the true semidominator of `w` |
| HeapDominators.DrainBucket | browser-automation-worker/src/runtime.ts:2455-2460 | every vertex waiting in the bucket of a parent gets an answer of least semidominator between it and that parent |
| HeapDominators.FirstAnswerResolves | browser-automation-worker/src/runtime.ts:2455-2464 | an answer of least semidominator decides between the semidominator and the dominator of the answer |
| LinkEval.EvaluateNode | browser-automation-worker/src/runtime.ts:2436-2440 | the vertex of least `semi` on the forest path up to and without the tree root, or the root's own label |
| LinkEval.Compress | browser-automation-worker/src/runtime.ts:2424-2435 | compression with the grandparent read before recursing keeps the arrays a representation of the uncompressed forest; it terminates on the numbering |
| LinkEval.CompressStep | browser-automation-worker/src/runtime.ts:2427-2434 | storing the grandparent and the better label still describes the part of the path that is left out |
| LinkEval.LinkStep | browser-automation-worker/src/runtime.ts:2453-2454 | linking a root below a lower-numbered vertex keeps the representation |
| LinkEval.LinkKeepsLowPath | browser-automation-worker/src/runtime.ts:2453-2454 | a link changes no path that ends below an old ancestor |
| DepthFirstSearch.Search | browser-automation-worker/src/runtime.ts:2380-2414 | the search with an explicit stack visits a preorder spanning tree of exactly the reachable vertices |
| DepthFirstSearch.BuildAdjacency | browser-automation-worker/src/runtime.ts:2349-2375 | the linked lists hold exactly the edges, by source and by target |
| DepthFirstSearch.VisitDescends | browser-automation-worker/src/runtime.ts:2392-2410 | an unvisited target hangs below every open vertex that has an edge to it |
| DepthFirstSearch.OpenFrame | browser-automation-worker/src/runtime.ts:2392-2410 | opening a frame keeps the invariant of the search |
| DepthFirstTree.DescendantsContiguous | browser-automation-worker/src/runtime.ts:2380-2414 | what is numbered between a vertex and one of its descendants is its descendant |
| DepthFirstTree.HighPathDescends | browser-automation-worker/src/runtime.ts:2380-2414 | a path whose vertices are all numbered from `u` on stays among the descendants of `u` |
| DepthFirstTree.VisitedIsReachable | browser-automation-worker/src/runtime.ts:2380-2414 | visited and reachable are the same |
| Semidominators.SdomRealised | browser-automation-worker/src/runtime.ts:2442-2449 | the semidominator of `w` is a predecessor or the semidominator of a tree ancestor, above `w`, of a predecessor |
| Semidominators.HighAncestorBoundsSdom | browser-automation-worker/src/runtime.ts:2442-2449 | no such candidate is numbered below the semidominator |
| Semidominators.DominatesIffNoBypass | browser-automation-worker/src/runtime.ts:2442-2464 | a tree ancestor dominates exactly when no vertex between has a semidominator numbered lower |
| Semidominators.SdomIsImmediateDominator | browser-automation-worker/src/runtime.ts:2459-2460 | when no vertex between has a lower semidominator, the semidominator is the immediate dominator |
| Semidominators.RelativeDominator | browser-automation-worker/src/runtime.ts:2459-2464 | otherwise the vertex of least semidominator has the same immediate dominator |
| Semidominators.ImmediateDominatorUnique | browser-automation-worker/src/runtime.ts:2461-2476 | a vertex has at most one immediate dominator |
| Semidominators.DominatorsStep | browser-automation-worker/src/runtime.ts:2470-2474 | the dominators of a vertex are itself and the dominators of its immediate dominator |
| BrowserCall.OneRightItem | crates/magi-api/src/app_server.rs:1182-1318 | in every interleaving of start, cancel, timeout, result and settlement at most one terminal item is written; one not ordered after a termination has the status and text the runtime returned to the thread that launched the call, while that thread was running it; one ordered after a termination says `cancelled` exactly when execution never started and `indeterminate` otherwise, with the code of the termination |
| BrowserCall.LaunchStarts | crates/magi-api/src/app_server.rs:194-203 | the launching thread starts the call, unless it was cancelled before |
| BrowserCall.ResultIsWritten | crates/magi-api/src/app_server.rs:1248-1318 | the result of a call that nobody terminates is written as the runtime returned it |
| BrowserCall.RequestTakesEffect | crates/magi-api/src/app_server.rs:151-184 | a cancel or timeout marks the call with its cause, unless another came first, and keeps a call that has not started from starting |
| BrowserCall.TerminationIsWritten | crates/magi-api/src/app_server.rs:1235-1318 | a terminated call that nobody has recorded yet is recorded, by its supervisor, with the item that fits |
| BrowserCall.LaterStatesKeep | crates/magi-api/src/app_server.rs:151-229 | the first of cancel and timeout fixes the cause for ever, a call cancelled before its start never starts, a written item stays |
| BrowserCall.TerminatedForGood | crates/magi-api/src/app_server.rs:1235-1318 | once the lock is free after a termination, whatever is written later is the termination item that fits |
| BrowserCall.WrittenAfterTermination | crates/magi-api/src/app_server.rs:1248-1252 | no commit that enters after a termination writes the runtime's result |
| BrowserCall.ReachableInv | crates/magi-api/src/app_server.rs:137-229 | every interleaving keeps the discipline of the commit lock and what each program point relies on |
| OutboundQueue.NumbersHaveNoHoles | crates/magi-api/src/app_server.rs:278-317 | whenever the sequence lock is free the next number is one past the accepted messages, however many sends found a queue full or closed, and each number carries the message accepted under it |
| OutboundQueue.SinkIsPrefix | crates/magi-api/src/app_server.rs:278-387 | what reached the sink is a prefix of the accepted messages, in lock order, and these are what as many different senders began with, each on its lane |
| OutboundQueue.AcceptedWereSent | crates/magi-api/src/app_server.rs:278-317 | each accepted message is the one its own thread handed over, on the lane of the queue that held it, and no thread is accepted twice |
| OutboundQueue.OfferDecides | crates/magi-api/src/app_server.rs:286-317 | an offer is accepted exactly when the path is open and the queue of its lane has room (48 control messages, 64 events), and then stands at the end of that queue under the next number |
| OutboundQueue.SendGoesThrough | crates/magi-api/src/app_server.rs:278-317 | a send that holds the lock goes through on an open path with room, gives its number back otherwise, and releases the lock either way |
| OutboundQueue.WriterDrains | crates/magi-api/src/app_server.rs:344-387 | from any moment on the writer can deliver everything accepted so far |
| OutboundQueue.ClosedForGood | crates/magi-api/src/app_server.rs:344-387 | a path whose writer failed accepts and delivers nothing any more |
| OutboundQueue.NothingStranded | crates/magi-api/src/app_server.rs:344-387 | with both queues drained, all was delivered or the writer holds the very next message |
| OutboundQueue.ReachableInv | crates/magi-api/src/app_server.rs:278-387 | senders and the writer together refine one queue, step by step |
| EventSubscription.DeliveredExactlyOnce | crates/magi-api/src/app_server.rs:661-743 | after a subscription on an aligned snapshot and receiver, and until the next request, a connected client that did not lag has exactly the events after the sequence it named, projected on the scope it named, each once and in increasing order: those up to the cut whatever their kind, later ones unless their kind is muted; it is told to resync exactly when it named a sequence whose successor is no longer kept, or lagged |
| EventSubscription.EverySubscriptionIsExact | crates/magi-api/src/app_server.rs:449-470 | the same of every subscription of a connection in which no request was refused while a subscription was active |
| EventSubscription.ExactMeans | crates/magi-api/src/app_server.rs:933-938 | exact delivery, sequence by sequence: which are delivered, and in increasing order |
| EventSubscription.SubscribeIsExact | crates/magi-api/src/app_server.rs:882-938 | such a subscription starts with what is due of the snapshot, whatever sequence the client names |
| EventSubscription.FirstRequest | crates/magi-api/src/app_server.rs:925-927 | the first subscription of a connection finds all that was kept when the connection was made, up to the cut |
| EventSubscription.ReadingCatchesUp | crates/magi-api/src/app_server.rs:661-704 | reading on, a subscription catches up with the bus |
| EventSubscription.ReceiveKeepsExact | crates/magi-api/src/app_server.rs:661-704 | publishing and receiving keep it exact, with muted kinds and full queues |
| EventSubscription.RefusalIsExactIff | crates/magi-api/src/app_server.rs:449-470 | a request refused while a subscription is active replaces the receiver: delivery stays exact, for the request that was made, exactly when nothing projected was waiting |
| EventSubscription.StaleCutIsExactIff | crates/magi-api/src/app_server.rs:895-925 | a subscription that uses a snapshot stored by an earlier refusal is exact exactly when nothing projected was received since |
| EventSubscription.RefusalLosesAnEvent | crates/magi-api/src/app_server.rs:449-470 | a run in which such a refusal loses an event: however the subscription goes on, it never hears of it |
| EventSubscription.LostStaysLost | crates/magi-api/src/app_server.rs:661-704 | a sequence received and not delivered stays undelivered, whatever is published and received afterwards |
| EventSubscription.WantedMeans | crates/magi-api/src/app_server.rs:2172-2225 | the list of projected events holds each wanted sequence and no other, strictly increasing |
| CdpRequests.RunKeepsInv | browser-automation-worker/src/cdp-client.ts:67-205 | in every run of sends, responses, timeouts, aborts, failing posts and closes: each promise is pending or settled and never settled twice, timers and abort listeners live exactly as long as their request, requests and cancels are posted at most once |
| CdpRequests.SettlesAsItLeaves | browser-automation-worker/src/cdp-client.ts:142-205 | a promise settles in the very step in which its request leaves the table |
| CdpRequests.ResolvedByItsOwnResponse | browser-automation-worker/src/cdp-client.ts:142-160 | a promise resolves only with the result of an error-free response that arrived after its send with its request id, call id and full binding |
| CdpRequests.ResponseDecides | browser-automation-worker/src/cdp-client.ts:142-160 | a response to a pending request of its call settles that promise, with the result, with the error of the page, or as stale when the binding differs; any other is ignored |
| CdpRequests.TimerDecides | browser-automation-worker/src/cdp-client.ts:93-96 | a timeout rejects its request and no other, and posts its cancel if the port takes it |
| CdpRequests.SendDecides | browser-automation-worker/src/cdp-client.ts:67-120 | a send under a live signal is pending with timer and listener and posted with its call, binding and operation; under an aborted signal, or when the post fails, it is rejected at once |
| CdpRequests.RequestsAreAsked | browser-automation-worker/src/cdp-client.ts:67-120 | in every run a posted request carries the call, binding and operation of a send that was asked for |
| CdpRequests.CancelsFollowRequests | browser-automation-worker/src/cdp-client.ts:168-205 | each cancel follows the request it names, with its call and binding, no other names it, and its promise is rejected as cancelled or timed out |
| CdpRequests.CloseSettlesAll | browser-automation-worker/src/cdp-client.ts:132-140 | closing settles every promise ever made and leaves no timer and no abort listener |
| CdpRequests.AbortKeepsInv | browser-automation-worker/src/cdp-client.ts:107-112 | after the abort of a call no request of it is pending |
| CdpRequests.ActExtends | browser-automation-worker/src/cdp-client.ts:142-160 | what is settled or posted stays; a step resolves only by accepting a matching response |
| CdpClient.CdpClient.Send | browser-automation-worker/src/cdp-client.ts:67-120 | sends as specified: table, timer and abort listener first, the message last; a failing post rejects and posts nothing |
| CdpClient.CdpClient.AcceptMessage | browser-automation-worker/src/cdp-client.ts:142-160 | accepts as specified: unknown requests and foreign calls are ignored, a foreign binding rejects as stale |
| CdpClient.CdpClient.FireTimer | browser-automation-worker/src/cdp-client.ts:93-96 | a timeout cancels what is pending and nothing else |
| CdpClient.CdpClient.AbortCall | browser-automation-worker/src/cdp-client.ts:107-112 | an abort cancels the requests of its signal in the order they were sent |
| CdpClient.CdpClient.CancelRequest | browser-automation-worker/src/cdp-client.ts:168-205 | cancelling posts at most one cancel and settles once |
| CdpClient.CdpClient.CloseClient | browser-automation-worker/src/cdp-client.ts:132-140 | closing empties the table |
| SurfaceBinding.SameBinding | browser-automation-worker/src/cdp-client.ts:207-217 | two bindings pass the comparison exactly when they are equal |
| SurfaceBinding.SamePhysicalIff | browser-automation-worker/src/runtime.ts:2040-2049 | two bindings show the same physical surface exactly when they agree in everything but the navigation revision |
| CommandLanes.OneBodyPerLane | browser-automation-worker/src/runtime.ts:158-162 | in every run at most one ordinary and one annotation body runs on a surface |
| CommandLanes.ArrivalOrder | browser-automation-worker/src/runtime.ts:158-162 | bodies are entered at most once, on a lane in arrival order |
| CommandLanes.CancelledBeforeTurnNeverRuns | browser-automation-worker/src/runtime.ts:123-124 | a command cancelled before its turn is never entered, whatever follows |
| CommandLanes.IdleLaneLeavesNothing | browser-automation-worker/src/runtime.ts:163-170 | a lane has a map entry exactly while its last call has not returned |
| CommandLanes.CancelReaches | browser-automation-worker/src/runtime.ts:112-122 | a cancel reaches the call it names unless the id was used again |
| CommandLanes.NoCallIsStuck | browser-automation-worker/src/runtime.ts:159-165 | a call that is not done runs, can take its turn, or waits for a call of its lane that does |
| CommandLanes.ReportedResult | browser-automation-worker/src/runtime.ts:128-144 | in every run a settled call reports how its own body ended (success, failure, or indeterminate after a side effect), or cancellation of a call that was aborted |
| CommandLanes.EndSettles | browser-automation-worker/src/runtime.ts:128-144 | a body that ends settles its call, as cancelled exactly when the call was aborted, and that is what is returned |
| CommandLanes.RunKeepsInv | browser-automation-worker/src/runtime.ts:116-171 | every run keeps the chain of promises, the two lane maps and the call map consistent |
| CommandRuntime.CommandRuntime.Begin | browser-automation-worker/src/runtime.ts:116-162 | the part of `execute` before its first suspension: a dialog command starts at once, any other queues behind the last of its lane |
| CommandRuntime.CommandRuntime.RunTurn | browser-automation-worker/src/runtime.ts:123-131 | a turn enters the body, or ends at once when the call was cancelled; whoever enters is not cancelled, and every earlier call of its lane is done |
| CommandRuntime.CommandRuntime.EndBody | browser-automation-worker/src/runtime.ts:128-144 | the body of a call ends as specified; a cancelled call reports cancellation however its body ended |
| CommandRuntime.CommandRuntime.Leave | browser-automation-worker/src/runtime.ts:163-170 | a returning call clears its own entries, not those of a later call |
| CommandRuntime.CommandRuntime.CancelById | browser-automation-worker/src/runtime.ts:112-114 | a cancel aborts the call registered under the id, if any |
| PageStates.NoPageKeepsAClosedHandshake | browser-automation-worker/src/runtime.ts:331-355 | in every run the handshake of a registered page is absent or in flight, and that of its own surface, however navigations and failures overlap |
| PageStates.EnsureMakesProgress | browser-automation-worker/src/runtime.ts:331-355 | once its page is found, a command's domains are enabled or being enabled: a failed handshake does not stick, and asking again changes nothing |
| PageStates.EnsureStartsOnce | browser-automation-worker/src/runtime.ts:331-342 | a surface whose domains are enabled or being enabled starts no further handshake |
| PageStates.AnswerMakesReady | browser-automation-worker/src/runtime.ts:343-346 | an answered handshake makes ready the page it was started for and the current one, as far as they show its physical surface, and changes nothing else of any page |
| PageStates.ClosingLetsGo | browser-automation-worker/src/runtime.ts:347-351 | when a handshake is over neither of the two holds it, and nothing else of any page changes |
| PageStates.EventIsRecorded | browser-automation-worker/src/runtime.ts:1829-1840 | an event of the current document is appended to what its page heard, one of a newer document starts anew |
| PageStates.RebindTakes | browser-automation-worker/src/runtime.ts:89-110 | a rebind takes another physical surface with a new page and a newer document of the same one; surfaces not named are dropped, and only those |
| PageStates.RevisionGrowsOverRun | browser-automation-worker/src/runtime.ts:246-312 | while a physical surface stays registered its navigation revision never decreases |
| PageStates.RevisionNeverDecreases | browser-automation-worker/src/runtime.ts:89-110 | the same for one step; a newer document starts with nothing heard before and keeps domains and handshake |
| PageStates.OlderChangesNothing | browser-automation-worker/src/runtime.ts:262-267 | a binding or event of an older navigation changes nothing, on whichever path it arrives |
| PageStates.PagesHearTheirOwnDocument | browser-automation-worker/src/runtime.ts:1829-1840 | a page state holds only what was heard of its own document |
| PageStates.RunKeepsInv | browser-automation-worker/src/runtime.ts:246-355 | every run keeps pages under their surfaces, and domains enabled only after an answer from the same physical surface |
| PageTable.PageTable.Rebind | browser-automation-worker/src/runtime.ts:89-110 | a rebind drops the surfaces it does not name and takes its bindings in order |
| PageTable.PageTable.PageOf | browser-automation-worker/src/runtime.ts:246-312 | the page of a binding: the current one, a newer one, or a refusal |
| PageTable.PageTable.EnsureCdpDomains | browser-automation-worker/src/runtime.ts:331-354 | at most one handshake is started for a page, and none when one is in flight or done |
| PageTable.PageTable.OnCdpEvent | browser-automation-worker/src/runtime.ts:1829-1840 | an event reaches the page of its own document, moving the surface on when it is newer |
| PageTable.PageTable.MarkHolders | browser-automation-worker/src/runtime.ts:343-346 | the loop over the page a handshake was started for and the current one marks those of the same physical surface ready, and no other |
| PageTable.PageTable.ClearHolders | browser-automation-worker/src/runtime.ts:347-351 | the loop over the two clears the handshake where it is this one, and nowhere else |
| PageTable.PageTable.Succeed | browser-automation-worker/src/runtime.ts:343-346 | an answered handshake makes its page and the current one ready, if they show the same physical surface |
| PageTable.PageTable.Settle | browser-automation-worker/src/runtime.ts:347-351 | a handshake that is over is let go of by the page it was started for and by the current one |
| NativeInput.Worker.Run | browser-automation-worker/src/runtime.ts:116-146 | for every behaviour of browser and page: `succeeded` means that the call was not cancelled and the command was performed, all its input commands sent in order and answered without a dialog, at points the page named, and what they did read back from the page, except that a click may end with the page moving on; `failed` is reported exactly when the call was not cancelled and the handshake failed or the command was turned down before any input, unflagged; it sent no input command, and wrote an option in exactly one case: a form whose first field is a select control with acceptable values, whose options the page wrote before the host failed the request, unflagged, under the code of a page script failure; everything else is `indeterminate`; and a command that nothing stands in the way of succeeds |
| NativeInput.Worker.PointerAction | browser-automation-worker/src/runtime.ts:511-583 | click, double click and hover: the commands sent are moves (at most four for a click on an element) and then press and release in order at the point last moved to, each once, at points the page named; a failure is unflagged exactly when the first script fails unflagged, and then nothing was sent; success without navigation sent everything, each command answered without a dialog, and the page confirmed it; success with navigation means that the page went away under the clicks |
| NativeInput.Worker.Strike | browser-automation-worker/src/runtime.ts:539-558 | presses and releases alternate, each at most once per click; the page had not moved on after any command but the last, all are sent when success reports no navigation, answered without a dialog, and navigation is reported exactly when the page had moved on after the last command |
| NativeInput.Worker.Aim | browser-automation-worker/src/runtime.ts:526-538 | a moving target is followed at most three times, to points the page named; it succeeds only when every move was answered |
| NativeInput.Worker.ObservedPointer | browser-automation-worker/src/runtime.ts:585-602 | exactly one command is sent; it succeeds exactly when the browser answered, no dialog is open, and the page did not move on or may; otherwise it fails, with the browser's own error when that is not a timeout under a dialog |
| NativeInput.Worker.TypeText | browser-automation-worker/src/runtime.ts:620-662 | the focusing click, then the editing commands in order, each at most once and all of them on success; success means that all were answered without a dialog and the page shows the text; a failure is unflagged exactly when the first script fails unflagged, and then nothing was sent |
| NativeInput.Worker.Drag | browser-automation-worker/src/runtime.ts:1181-1219 | the drag commands in order up to a failure; a drag undone releases at its source after a successful cancel; success means that the whole plan was sent, at points the page named, all answered, and the page saw the drop; a failure is unflagged exactly when the first script fails unflagged, and then nothing was sent |
| NativeInput.Worker.SetSelectValue | browser-automation-worker/src/runtime.ts:1391-1412 | an unflagged failure wrote options in exactly one case: the values are acceptable and the host fails the request, unflagged, under the code of a page script failure after the page wrote; success means that the page applied them |
| NativeInput.Worker.SetBooleanControl | browser-automation-worker/src/runtime.ts:1414-1435 | a failure is unflagged exactly when the value does not fit or the first scripts fail unflagged, and then nothing was sent; on success nothing was sent exactly when the control already had the wanted value; otherwise it was clicked once and the wanted value was read afterwards |
| NativeInput.Worker.FillForm | browser-automation-worker/src/runtime.ts:1350-1389 | for every list of fields a failure is unflagged exactly when the list is empty or its first field is turned down, and then nothing was sent, and wrote options exactly when the first field is a select control that fails as above; on success the commands sent are those of the fields in order, each field by the control the page named for it: focus and editing of a text, nothing for a select control, at most one click for a box, each answered and read back |
| NativeInput.Worker.Execute | browser-automation-worker/src/runtime.ts:116-146 | a success performed the command, a failure has a cause: a page script or input command that failed, a dialog, a page that moved on, or a value that does not fit |
| NativeInput.FailedAfterWriting | browser-automation-worker/src/runtime.ts:1405-1411 | a command that is reported `failed` after an option was written |
| SelectOptions.Select | browser-automation-worker/src/page-script.ts:938-962 | it throws exactly for an unusable control, several values in a single-select control, or a value with no enabled option, and then leaves the control as it was; it is applied exactly when no error was caught while writing and the control, still in the page, then shows the requested options, each the first enabled one of its value |
| SelectOptions.FindAll | browser-automation-worker/src/page-script.ts:943-950 | every requested value is resolved before anything is written, or the whole request is refused |
| SelectOptions.ReadBackIff | browser-automation-worker/src/page-script.ts:957-958 | comparing the count and checking inclusion is the same as comparing the selections |
| PageWalk.Walk | browser-automation-worker/src/page-script.ts:209-235 | the stack of iterators collects what the recursive preorder collects, in the same order; the walk counts as cut exactly when the limit is reached or a frame document lies too deep |
| PageWalk.VisitsTheReachable | browser-automation-worker/src/page-script.ts:209-235 | no element is visited twice, each is reachable without passing through a sensitive one, and a walk that is not cut visits all that are |
| PageWalk.ParentsFirst | browser-automation-worker/src/page-script.ts:209-235 | the walk begins at the root and visits nothing before an element that leads to it |
| PageWalk.SuccessorIff | browser-automation-worker/src/page-script.ts:217-231 | where it goes: to the document of a frame, to what is assigned to a slot, else to the shadow root, else to the children, and from a sensitive element nowhere |
| PageWalk.NextContinues | browser-automation-worker/src/page-script.ts:214-233 | taking one element off the top iterator leaves the same remaining walk |
| PageWalk.IncludedMeans | browser-automation-worker/src/page-script.ts:221 | the candidates are the included elements among them, each once |
| SnapshotSelection.Select | browser-automation-worker/src/page-script.ts:262-285 | the loops compute the specified selection |
| SnapshotSelection.SelectionIsPermutation | browser-automation-worker/src/page-script.ts:270-285 | the selection is the candidates in another order, and everything in the modal dialog comes before everything outside |
| SnapshotSelection.QuotaOfRank | browser-automation-worker/src/page-script.ts:263-269 | of each rank the quotas take as many as there are up to the limit, those on screen first |
| SnapshotSelection.RestFollows | browser-automation-worker/src/page-script.ts:271 | what the quotas left follows in viewport order |
| SnapshotSelection.OnScreenFirst | browser-automation-worker/src/page-script.ts:262-268 | elements on screen come before those that are not, and either part keeps the order of the document |
| SnapshotBudget.Encode | browser-automation-worker/src/page-script.ts:287-297 | a text is cut to its longest prefix within the byte budget and 240 UTF-16 units; the counter is exact and a cut is reported exactly when something is missing |
| SnapshotBudget.LongerDoesNotFit | browser-automation-worker/src/page-script.ts:290-295 | no longer prefix fits either |
| SnapshotBudget.LengthsOfEncodings | browser-automation-worker/src/page-script.ts:287-297 | the lengths counted are those of the UTF-8 and UTF-16 encodings |
| SnapshotBudget.EncodeNode | browser-automation-worker/src/page-script.ts:301-312 | the four texts of a node share the budget in order; a sensitive value is never encoded |
| SnapshotBudget.CollectNodes | browser-automation-worker/src/page-script.ts:298-315 | nodes follow the selection until a budget is used up |
| SnapshotBudget.Collect | browser-automation-worker/src/page-script.ts:286-329 | nodes and title stay within the budgets; the result is marked truncated exactly when an element or part of a text is missing; the rest is counted |
| PageSnapshot.Snapshot | browser-automation-worker/src/page-script.ts:209-330 | returned and omitted elements together are the selection of the walk; each is reachable, included and listed once; a snapshot not marked truncated returns every one of them with every text uncut |
| FrameGeometry.InwardOutward | browser-automation-worker/src/page-script.ts:126-152 | the outward and the inward map undo each other for any chain of positively scaled frames |
| FrameGeometry.InwardMeets | browser-automation-worker/src/page-script.ts:378-398 | going in through the outer frames meets, on every level, the point that was tested going out |
| FrameGeometry.RectFor | browser-automation-worker/src/page-script.ts:126-152 | a rectangle is carried through at most sixteen frames |
| FrameGeometry.HitAtMeans | browser-automation-worker/src/page-script.ts:350-371 | a hit is a hit on every level at the point carried out to it |
| FrameGeometry.DocumentHitMeans | browser-automation-worker/src/page-script.ts:350-371 | one document is hit exactly when the element and every shadow host around it in the document are on top, each in the root it lies in |
| FrameGeometry.SamplesLieInside | browser-automation-worker/src/page-script.ts:399-414 | the samples lie inside element and viewport, the middle first |
| FrameGeometry.ClippedIsOverlap | browser-automation-worker/src/page-script.ts:399-404 | a point is in the visible part exactly when it is in the element and in the viewport |
| FrameGeometry.LocalPointRecovers | browser-automation-worker/src/page-script.ts:372-377 | the point tested again is the point of the first test |
| FrameGeometry.ViewportPointIsOutward | browser-automation-worker/src/page-script.ts:399-414 | the action point is the tested point carried out through the frames that were followed |
| FrameGeometry.ActionPointIsViewportPointIff | browser-automation-worker/src/page-script.ts:132 | it is the viewport point of the hit test exactly when the frames beyond the sixteenth leave it in place; always, for at most sixteen |
| FrameGeometry.SeventeenFramesMiss | browser-automation-worker/src/page-script.ts:132 | a chain of seventeen frames for which neither the action point nor the test of a given point is the right one |
| FrameGeometry.ActionPoint | browser-automation-worker/src/page-script.ts:399-414 | the first of five samples that hits on every level, carried out; verifying the result never finds the target obscured |
| FrameGeometry.ElementAtPoint | browser-automation-worker/src/page-script.ts:378-398 | the walk goes from element to content, each element the one its root shows at the point carried in so far, and ends at an element that leads no further, at a frame that is refused, or where nothing is shown |
| FrameGeometry.OneWayIn | browser-automation-worker/src/page-script.ts:378-398 | for a page and a point there is one way in: of two, one begins the other |
| FrameGeometry.WayInIsHit | browser-automation-worker/src/page-script.ts:350-371 | what is shown at the end of a way passes the hit test on every level, at the point carried in |
| FrameGeometry.LocalPointIsCarriedInIff | browser-automation-worker/src/page-script.ts:372-377 | checking a viewport point tests the point carried in exactly when the frames beyond the sixteenth leave it in place; always, for at most sixteen |
| FrameGeometry.ShownIsNotObscured | browser-automation-worker/src/page-script.ts:372-377 | with at most sixteen frames on the way, checking the point one came by never finds the element obscured |
| FrameGeometry.PrepareAtPoint | browser-automation-worker/src/page-script.ts:800-833 | a click at coordinates: the element found is accepted at the very point asked for, for at most sixteen frames |
| FrameGeometry.OutwardIsAffine | browser-automation-worker/src/page-script.ts:140-144 | a step inside an element becomes the scaled step in the viewport |
| RoleRoundTrip.WrittenRoleReadsBack | crates/magi-agent-role/src/lib.rs:822-941 | every role with an accepted id, some kind, clean lists and a trimmed prompt, whatever its other texts and numbers, reads back from what is written, with its kinds freed of repetitions; every normalised and validated role is one (`StorableIsWritable`) |
| RoleRoundTrip.StorageRoundTripIff | crates/magi-agent-role/src/lib.rs:1118-1165 | the storage form gives the role back exactly when no kind is repeated |
| RoleRoundTrip.ExportRoundTripIff | crates/magi-agent-role/src/lib.rs:1112-1165 | the export form gives it back with revision 1 exactly when no kind is repeated |
| RoleRoundTrip.RepeatedKindIsLost | crates/magi-agent-role/src/lib.rs:1228-1240 | a role whose repeated kind does not survive |
| RoleRoundTrip.KindListReadsBack | crates/magi-agent-role/src/lib.rs:1228-1240 | the comma-separated kinds read back without repetitions |
| RoleRoundTrip.WrittenDelimiterFound | crates/magi-agent-role/src/lib.rs:1184-1214 | the closing delimiter found is the one written, whatever lines of dashes the body holds |
| RoleRoundTrip.LinesReadBack | crates/magi-agent-role/src/lib.rs:822-941 | the written lines set exactly the fields they were written from |
| RoleParser.ParseRoleMarkdown | crates/magi-agent-role/src/lib.rs:822-941 | the line loop computes the specified parse, errors included |
| RoleParser.AcceptedFile | crates/magi-agent-role/src/lib.rs:822-941 | a file that is read has both delimiter lines, a header of readable lines only, and the prompt that follows |
| RoleParser.CommentsAreSkipped | crates/magi-agent-role/src/lib.rs:852-856 | blank lines and comments may stand anywhere in the header: what is read is the same without them |
| RoleParser.MarksAreSkipped | crates/magi-agent-role/src/lib.rs:822-829 | byte order marks in front make no difference |
| RoleParser.FindCloseDelimiter | crates/magi-agent-role/src/lib.rs:1184-1214 | the byte scan finds the specified first delimiter line |
| RoleMarkdown.ScanItems | crates/magi-agent-role/src/lib.rs:952-1009 | the character loop splits items as specified, quotes and escapes included |
| RoleMarkdown.ParseStringList | crates/magi-agent-role/src/lib.rs:952-1009 | a list field parses as specified: JSON first, then the lenient form |
| RoleMarkdown.WholeItemsSplit | crates/magi-agent-role/src/lib.rs:968-1009 | whole items with commas between them are split into just these items |
| RoleMarkdown.QuotedIsWhole | crates/magi-agent-role/src/lib.rs:968-1000 | quoted text is one item, whatever commas it holds, in either kind of quotes |
| RoleMarkdown.SingleQuotesComeOff | crates/magi-agent-role/src/lib.rs:1216-1226 | single quotes are taken off and nothing between them is changed |
| RoleMarkdown.CleanList | crates/magi-agent-role/src/lib.rs:1053-1059 | trimming, dropping blanks and repetitions, in order |
| RoleMarkdown.CleanedMembers | crates/magi-agent-role/src/lib.rs:1011-1018 | cleaning keeps exactly the values that are not blank, trimmed |
| RoleMarkdown.CleanStaysClean | crates/magi-agent-role/src/lib.rs:1053-1059 | a cleaned list is not changed by cleaning it again |
| RoleRules.Normalize | crates/magi-agent-role/src/lib.rs:1021-1051 | the in-place normalisation computes the specified role |
| RoleRules.NormalIffFixed | crates/magi-agent-role/src/lib.rs:1021-1051 | a role is normal exactly when normalising leaves it alone |
| RoleRules.NormalizeKeeps | crates/magi-agent-role/src/lib.rs:1021-1051 | normalising leaves version, kinds, limit and mode alone, and a revision other than 0 |
| RoleRules.ValidIff | crates/magi-agent-role/src/lib.rs:1061-1109 | what may be stored, condition by condition |
| RoleRules.ValidIdIff | crates/magi-agent-role/src/lib.rs:129-150 | an id is accepted exactly when it is one to sixty-four small letters, digits and hyphens, with a letter or digit at either end and no two hyphens together |
| Json.ParseQuotedList | crates/magi-agent-role/src/lib.rs:952-965 | a printed list of strings parses back, for arbitrary strings (section 7 of RFC 8259) |
| Json.QuoteReadsBack | crates/magi-agent-role/src/lib.rs:1122-1165 | a printed string parses back |
| Json.UnicodeEscapeReadsBack | crates/magi-agent-role/src/lib.rs:952-965 | every character reads back from its hexadecimal escape, in small or capital digits, a supplementary one from its two surrogates |
| Json.BodyHasNoControls | crates/magi-agent-role/src/lib.rs:952-965 | a string that is read holds no raw control character |
| RoleRegistry.ReloadChangesNothing | crates/magi-agent-role/src/lib.rs:531-679 | after a reload and any run of saves, deletes and reloads without repeated kinds, another reload leaves the roles as they are |
| RoleRegistry.SaveKeepsStepIff | crates/magi-agent-role/src/lib.rs:560-633 | a successful save keeps memory and files in step exactly when no kind is repeated |
| RoleRegistry.RunKeepsBuiltins | crates/magi-agent-role/src/lib.rs:531-679 | no run replaces or removes a builtin role |
| RoleRegistry.RevisionCountsSuccesses | crates/magi-agent-role/src/lib.rs:309-332 | the revision rises by one with each success, up to the largest 64-bit number |
| RoleRegistry.AgentRoleRegistry.ReloadFromDisk | crates/magi-agent-role/src/lib.rs:531-558 | a reload serves builtins and admitted files, or fails and changes nothing |
| RoleRegistry.AgentRoleRegistry.SaveUserRole | crates/magi-agent-role/src/lib.rs:560-633 | a save goes through exactly when the normalised role is valid and no builtin one, the writer names the stored revision (or none for a new id), and the file can be written; it then stores the role, one revision further (short of the last) or at revision 1, in file and snapshot, and nothing else; a refused save changes no role and no file |
| RoleRegistry.AgentRoleRegistry.DeleteUserRole | crates/magi-agent-role/src/lib.rs:635-679 | a deletion goes through exactly for a stored role that is no builtin one, when the writer names its revision and its file, if any, can be removed; a refused one changes nothing |
| RoleRegistry.AgentRoleRegistry.LoadDir | crates/magi-agent-role/src/lib.rs:689-730 | the files of the directory, loaded or skipped |
| RoleRegistry.LoadDecides | crates/magi-agent-role/src/lib.rs:732-767 | a file is loaded exactly when it is readable and its id is the stem of its name or blank; the role is the one read, under the stem |
| RoleRegistry.ReloadDecides | crates/magi-agent-role/src/lib.rs:531-558 | a reload serves, under each id, the builtin role or else the valid role its file holds, and fails only when the directory cannot be listed |
| RoleWriters.SecondSaveIsRefused | crates/magi-agent-role/src/lib.rs:578-601 | of two saves prepared from the same revision the second is refused and changes nothing, whatever saves, reloads and deletions of other roles come between (short of the last 64-bit revision) |
| RoleWriters.DeleteAfterSaveIsRefused | crates/magi-agent-role/src/lib.rs:654-659 | so is a deletion prepared before a save |
| RoleWriters.AfterDeleteIsRefused | crates/magi-agent-role/src/lib.rs:578-659 | and a save or a deletion prepared before a deletion |
| RoleWriters.RevisionNeverFalls | crates/magi-agent-role/src/lib.rs:602-605 | in every run that does not delete it, reloads included, the revision of a saved role never falls, and the role stays loadable |
| RoleWriters.LastRevisionProtectsNothing | crates/magi-agent-role/src/lib.rs:602-605 | at the last 64-bit revision the second of two saves goes through exactly when it would without the first |
| RoleWriters.RecreatedRoleIsOverwritten | crates/magi-agent-role/src/lib.rs:602-605 | a role deleted and created again starts at revision 1: a save prepared from the first role overwrites the second |
| RoleRegistryThreads.ThreadsAreSequential | crates/magi-agent-role/src/lib.rs:317-332 | in every interleaving no compare-and-swap finds another revision, and the store is what the finished operations give one after the other |
| RoleRegistryThreads.FromTheStart | crates/magi-agent-role/src/lib.rs:531-679 | the same from the start of the process |

## Left out

- Decoding of heap snapshot edges (`browser-automation-worker/src/runtime.ts:2196-2204`, `2317-2338`, `2355-2375`): the dominator model starts from an edge list with valid endpoints.
- `heapRetainingPaths` (`browser-automation-worker/src/runtime.ts:2480-2507`): it expands from the last element of a path, which stays the target, so its chains are not what their name says.
- The final sort of the dominator rows by size, and node names: presentation.
- The 32-bit width of the dominator arrays: node counts are far below it.
- LinkEval.Compress: does not model the depth of the JavaScript stack. The worker's `compress` (`browser-automation-worker/src/runtime.ts:2424-2435`) is recursive, and on a chain of several hundred thousand nodes closed by a back edge it would exceed that depth.
- Wake-up of waiting requests (`notify_waiters`), response wording and request ids in the browser call: only the recorded item is modelled, not how soon a waiter hears of it.
- The wording of the runtime's status in the record (`crates/magi-api/src/app_server.rs:1550-1557`): the status returned to the launching thread is the one recorded.
- Poisoned locks and aborted tasks: an aborted task is a thread that takes no further step.
- OutboundQueue.NumbersHaveNoHoles: does not model exhaustion of the 64-bit sequence number, which no connection reaches.
- EventSubscription.DeliveredExactlyOnce: models the bus as an append-only list with an atomic snapshot-and-subscribe, event projection as a predicate of event and scope, and no canonical recovery event, whose source is not part of this model.
- EventSubscription.EverySubscriptionIsExact: a kind the client muted is delivered in a snapshot but not live, as in the code.
- Event listeners of the protocol client (`browser-automation-worker/src/cdp-client.ts:122-130`, `161-165`): they are called in turn and keep no state.
- Request ids of the protocol client are drawn once per send; that random identifiers never repeat is taken for granted.
- The order of microtasks between the end of a lane's promise and the next turn: the model allows every order.
- Console, network, trace and profiler contents of a page state: one list of entries stands for what is reset with the document.
- `press` as a command of its own (`browser-automation-worker/src/runtime.ts:673-704`): it rethrows without the flag, so the property does not hold of it.
- Dialog, upload, evaluate, scroll, storage and tracing commands of the worker: no native input, or no claim about it.
- NativeInput.Worker.Run: a command counts as sent when it is attempted, which is more than what reaches the browser; the handshake and the page context are one question to the world.
- SelectOptions.Select: whether the control can be resolved and used is one given truth value, and the place of a caught write error is given; event handlers of the page are an arbitrary selection shown afterwards, and the coupling of options in a single-select control by the browser is part of it.
- Which elements are visible, included, sensitive or modal, and their names and roles: given to the snapshot model.
- FrameGeometry.ActionPoint: real arithmetic, without rounding; unsupported transforms are excluded by requiring positive scales, and the shadow roots of one level are one hit test.
- FrameGeometry.ElementAtPoint: a page whose contents are finitely nested; coordinates are numbers, and what a root shows at a point is an arbitrary function of both.
- FrameGeometry.PrepareAtPoint: the checks of the element's kind before the point is checked, and the guard installed afterwards, are not part of it.
- The summary of omitted elements by kind: only the total and those on screen are counted.
- Role files that are not valid UTF-8 and the order of directory entries: a file is readable text or unreadable.
- Temporary files and renames while saving a role: a save writes the file or fails.
- Role files written by anything but the registry while it runs.
- Capability catalogues, prompts and summaries of roles, leases, tabs, agent service and change projection.
