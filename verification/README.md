# Verification of the self-contained cores of ChocoSploit

A Dafny model of the parts of the program whose correctness does not depend on a
foreign process, with proofs of what they guarantee.  `dafny verify dfyconfig.toml`
checks all of it.

## What is modelled

**The skyline rectangle packer** (`Dependencies/Imgui/imstb_rectpack.h`).  Nodes are heap
objects that the context links into an active and a free list; every loop over the lists is
a loop here.  The specification knows nothing about pointers.  A packer is a value
(`Packing.Packer`) whose skyline is a list of points that stands for a height map
(`Skyline.Height`), and `Packing.Packs` says what one request does to it: it succeeds
exactly when some column leaves room and a node is free, the rectangle goes where the
heuristic says, and the height map is raised there.  The heap code is proved to do exactly
that, and everything else is proved about `Packs`.

- `Skyline`, `Window`, `Overcount`: the height map, what an insertion does to it, and what
  the walk that measures a position computes.
- `Packing`, `Choice`: one request, and why trying the node columns is enough.
- `Runs`, `Floor`, `Refusals`, `Storage`: all runs of a packer: safety and area, the true
  waste, when refusals are final, and when storage suffices.  `Instances` has two short runs.
- `RectPack`, `PackRects`: the linked lists, and packing an array with its two sorts.

**Capability words and prototypes** (`Execution/LuauSecurity.cpp`): the word for an
identity (`Capabilities`), the depth-first search for a marked prototype in an arbitrary
graph and the recursive marking (`Prototypes`).

**The task scheduler** (`Execution/InternalTaskScheduler.cpp`): the pool of yielding
requests (`YieldPool`), and the list of dispatches with websockets as its clients
(`Dispatches` for the transition system, `Websockets` for the objects and the loop).

**Multi-strings** (`Dependencies/WinReg.hpp`), module `MultiString`.

**Encrypted constants** (`Dependencies/oxorany.h`), module `Oxorany`.

## Where the code does less than one may expect

- The header of the packer promises that quantised widths never run out of storage.  The
  search uses the quantised width, but the insertion the exact one.  `Storage.StorageGuarantee`
  says exactly when the promise holds: with a node for each column, or in a bin of height one
  that is narrow enough.  Otherwise unit squares use up the nodes with room left.
- With best-fit and quantised widths, an insertion may raise columns to the right of the
  rectangle.  It does so exactly if the rectangle starts inside a segment and ends inside the
  same one (`Packing.PlacementEnd`); `Instances.ColumnLost` is a run in which it happens.  The
  area is lost (`Runs.PlacesFilled`), but nothing else.
- A rectangle that was refused may fit later, if the caller turns quantisation off: exactly if
  there is room for its exact width and a node is free (`Refusals.RefusalFinal`);
  `Instances.RefusalReversed` is such a run.  With quantisation left on, refusals are final.
- The table of identities is keyed by bytes, although scripts may set any number
  (`Environment/Libraries/Misc.cpp:65-74`).  So identity 259 is given what identity 3 is
  (`Capabilities.Identity259`); `Capabilities.KeyIsByte` says for which identities the word is
  what the table says.
- The empty multi-string does not survive a round trip (`MultiString.ParseBuiltEmpty`).

One thing only looks wrong.  The walk that measures the waste of a position would count too
much from inside a segment of height 0 that is not the last one.  `Floor.RunFloorLast` proves
that no run gets there, so in runs the waste is always the area left empty.

## Model

| member | source | states |
|---|---|---|
| `Skyline.RaiseHeights` | Dependencies/Imgui/imstb_rectpack.h:464-499 | an insertion refines an update of the height map: columns from x to the end of the raised range get the new height, all others keep theirs, and the list keeps its shape |
| `Skyline.RaiseFits` | Dependencies/Imgui/imstb_rectpack.h:475-499 | the node kept after the freed ones starts, once moved, exactly where the raised columns end, which is inside the bin |
| `Skyline.SlideLeft` | Dependencies/Imgui/imstb_rectpack.h:365-389 | sliding a window left to the start of its segment never raises its top, which is why only node columns need to be tried |
| `Skyline.NodeCount` | Dependencies/Imgui/imstb_rectpack.h:145-150 | a skyline has no more nodes than columns, besides the sentinel |
| `Window.WalkFindsRest` | Dependencies/Imgui/imstb_rectpack.h:291-339 | the walk from the node that holds x0 returns the largest height over the window, between 0 and the height of the bin |
| `Window.WalkExact` | Dependencies/Imgui/imstb_rectpack.h:312-337 | from a node at x0 or one higher than the level so far, the waste is the sum of (min_y - height) over the columns |
| `Overcount.WasteExact` | Dependencies/Imgui/imstb_rectpack.h:291-339 | the walk taken alone, on any well-formed list, reached by a run or not: the waste is at least the empty area, and equal to it if and only if the walk does not start low, or needs one node only, or the window ends flat |
| `Floor.RaiseFloorLast` | Dependencies/Imgui/imstb_rectpack.h:464-499 | an insertion that does not start inside the floor leaves the floor, if any, the last segment before the sentinel |
| `Floor.ChosenOffFloor` | Dependencies/Imgui/imstb_rectpack.h:365-446 | neither heuristic, at any quantum, chooses a column inside the floor |
| `Floor.LeftEndOfFloor` | Dependencies/Imgui/imstb_rectpack.h:365-446 | if a rectangle fits on the floor, both heuristics choose its left end |
| `Floor.RunFloorLast` | Dependencies/Imgui/imstb_rectpack.h:449-526 | in every run, only the last segment can have height 0 |
| `Floor.RunWasteExact` | Dependencies/Imgui/imstb_rectpack.h:291-339 | in every state of every run, for every column and width, the waste returned is the sum of (min_y - height) over the columns |
| `Floor.RunBestFit` | Dependencies/Imgui/imstb_rectpack.h:376-446 | in every run, best-fit packs at the lexicographically least (y, area left empty, x) of all fitting positions with an edge at a node |
| `Packing.RoundUpIsLeast` | Dependencies/Imgui/imstb_rectpack.h:353-356 | the rounded width is the least multiple of the quantum that is at least the width |
| `Packing.BottomLeftAtNode` | Dependencies/Imgui/imstb_rectpack.h:370-375 | the lexicographically least (y, x) over all columns is at a node |
| `Packing.BestFitIsLowest` | Dependencies/Imgui/imstb_rectpack.h:376-446 | the position best-fit chooses among node-aligned ones rests no higher than any column at all |
| `Packing.PlacementEnd` | Dependencies/Imgui/imstb_rectpack.h:475-499 | the raised range ends between x + width and x + rounded width, and at x + width if and only if the rectangle starts at a node or reaches the next one; it does for bottom-left, or if the width is a multiple of the quantum |
| `Packing.PlacesValid` | Dependencies/Imgui/imstb_rectpack.h:459-499 | a placement is inside the bin whenever there is room at all, and leads to a valid packer |
| `Packing.PlacesHeights` | Dependencies/Imgui/imstb_rectpack.h:464-499 | the exact height map after a placement, with the exact condition for it to be raised under the rectangle only; the columns raised were no higher than the rectangle's bottom |
| `Instances.ColumnLost` | Dependencies/Imgui/imstb_rectpack.h:475-499 | a run from a fresh target in which a rectangle five columns wide raises six |
| `Packing.PacksDeterministic` | Dependencies/Imgui/imstb_rectpack.h:449-526 | the specification of a request admits one outcome only |
| `Choice.LeftEdgesSuffice` | Dependencies/Imgui/imstb_rectpack.h:365-391 | the best of the node columns is the lexicographically least (y, x) over every integer column |
| `Choice.LeftEdgesFind` | Dependencies/Imgui/imstb_rectpack.h:376-391 | trying left edges only, best-fit finds a position if and only if some column leaves room |
| `Choice.AllEdgesSuffice` | Dependencies/Imgui/imstb_rectpack.h:376-446 | the best of all left and right edges is the lexicographically least (y, waste, x) over every fitting position with an edge at a node |
| `Choice.ChosenExists` | Dependencies/Imgui/imstb_rectpack.h:365-446 | whenever some column leaves room, the heuristic has a position to choose |
| `Choice.PacksTotal` | Dependencies/Imgui/imstb_rectpack.h:449-526 | the specification of a request always admits an outcome; with its uniqueness, it is a function |
| `Runs.DefaultAlignIsLeast` | Dependencies/Imgui/imstb_rectpack.h:253-262 | the quantum is the least one with nodes * quantum >= width, and 1 if and only if there is a node for each column |
| `Runs.SafePlaces` | Dependencies/Imgui/imstb_rectpack.h:449-526 | a placement keeps all boxes inside the bin, pairwise apart and under the skyline |
| `Runs.RunSafe` | Dependencies/Imgui/imstb_rectpack.h:109-114 | after any operations on a fresh target, with any heuristic and quantum, all boxes placed are inside the bin, pairwise disjoint and under the skyline |
| `Runs.RoomNeverReturns` | Dependencies/Imgui/imstb_rectpack.h:455-462 | once no column leaves room for some searched width and height, no later state of the run has room for as much |
| `Refusals.RequestRefused` | Dependencies/Imgui/imstb_rectpack.h:455-462 | after a refused request, a later one for as much height whose rounded width is no less is refused, whatever was done in between |
| `Refusals.QuantisedRefusal` | Dependencies/Imgui/imstb_rectpack.h:455-462 | in runs that leave quantisation on, a refused rectangle, or one as large, is never packed |
| `Refusals.RefusalFinal` | Dependencies/Imgui/imstb_rectpack.h:245-263 | whatever the caller does after a refusal, the rectangle and all as large stay refused: if and only if there is no room for the exact width, or no node is free |
| `Instances.RefusalReversed` | Dependencies/Imgui/imstb_rectpack.h:245-263 | a run in which a unit square is refused with a node free, and packed after quantisation is turned off |
| `Runs.PlacesFilled` | Dependencies/Imgui/imstb_rectpack.h:464-499 | a placement adds to the area under the skyline at least the rectangle and the empty area below it, and no more if and only if the raised columns end with the rectangle |
| `Runs.RunArea` | Dependencies/Imgui/imstb_rectpack.h:449-526 | along any run, the area of the boxes is at most the area under the skyline, which is at most the bin's |
| `Storage.StorageSuffices` | Dependencies/Imgui/imstb_rectpack.h:145-150 | with a node for each column there is a free node at every insertion |
| `Storage.ThinStarves` | Dependencies/Imgui/imstb_rectpack.h:253-262 | the run of unit squares that uses up the storage, with room left for another |
| `Storage.NodesPaid` | Dependencies/Imgui/imstb_rectpack.h:464-469 | in every run, each node in use was paid for with a cell of the bin |
| `Storage.StorageGuarantee` | Dependencies/Imgui/imstb_rectpack.h:145-153 | for every bin and node count, quantised runs never run out of storage if and only if there is a node for each column or, at height one, width < nodes + quantum |
| `RectPack.Context.Shape` | Dependencies/Imgui/imstb_rectpack.h:501-523 | every valid context passes the debug checks: ascending from 0 to one sentinel at the right end with null next, no repetition, active and free apart, num_nodes + 2 nodes together |
| `RectPack.Context.SetupHeuristic` | Dependencies/Imgui/imstb_rectpack.h:233-243 | changes the heuristic and nothing else |
| `RectPack.Context.SetupAllowOutOfMem` | Dependencies/Imgui/imstb_rectpack.h:245-263 | sets the quantum to 1 or to the default, and keeps the context valid |
| `RectPack.Context.InitTarget` | Dependencies/Imgui/imstb_rectpack.h:265-288 | from any context and nodes: a valid context that stands for the empty bin, whose free list is the user's nodes |
| `RectPack.Context.FindMinY` | Dependencies/Imgui/imstb_rectpack.h:291-339 | over the linked nodes: the resting height, and the waste as specified; no null is dereferenced and the loop ends |
| `RectPack.Context.ScanLeft` | Dependencies/Imgui/imstb_rectpack.h:365-391 | remembers the best of all left edges, and the link that leads to its node |
| `RectPack.Context.ScanRight` | Dependencies/Imgui/imstb_rectpack.h:410-441 | remembers the best of what was seen before and all right edges |
| `RectPack.Context.FindBestPos` | Dependencies/Imgui/imstb_rectpack.h:347-447 | if there is room, the position the heuristic prefers over all columns, its height and the link to its node; otherwise a result that the caller rejects |
| `RectPack.FindsDecides` | Dependencies/Imgui/imstb_rectpack.h:455-459 | the caller's check of the result succeeds if and only if some column leaves room |
| `RectPack.Context.FreeCovered` | Dependencies/Imgui/imstb_rectpack.h:485-493 | moves exactly the nodes whose successor starts within the limit to the free list, in order, and returns the first that stays |
| `RectPack.Context.LinkNode` | Dependencies/Imgui/imstb_rectpack.h:475-483 | puts the new node behind the link, or behind the node the link leads to if that one starts further left; the rest stays chained |
| `RectPack.Context.Stitch` | Dependencies/Imgui/imstb_rectpack.h:495-499 | joins the new node to the first node kept and moves that one to the end of the raised range |
| `RectPack.Context.Rewire` | Dependencies/Imgui/imstb_rectpack.h:464-499 | the changes to the nodes: the new node takes the place of exactly the nodes its columns cover, which are freed, and the next one starts where it ends |
| `RectPack.Context.Insert` | Dependencies/Imgui/imstb_rectpack.h:464-499 | the pointer surgery: both lists stay proper and disjoint, no node is lost, and the active list shows the raised skyline |
| `RectPack.Context.PackRectangle` | Dependencies/Imgui/imstb_rectpack.h:449-526 | the heap code refines the specification: success exactly when there is room and a node, at the place the heuristic defines, nothing changed on failure, invariant kept |
| `PackRects.Sort` | Dependencies/Imgui/imstb_rectpack.h:555-556 | for any comparator that is an ordering: the array is a sorted permutation of what it was; stability is not promised |
| `PackRects.ComparatorsOrder` | Dependencies/Imgui/imstb_rectpack.h:528-544 | both comparators are orderings |
| `PackRects.HeightOrder` | Dependencies/Imgui/imstb_rectpack.h:528-537 | a list is sorted by the first comparator if and only if every rectangle is higher than each later one, or as high and at least as wide |
| `PackRects.SortedPermutation` | Dependencies/Imgui/imstb_rectpack.h:572-573 | a sorted permutation of 0, ..., n - 1 is the identity |
| `PackRects.Unsorted` | Dependencies/Imgui/imstb_rectpack.h:550-573 | sorting by the tags undoes the first sort, whatever either did to equal elements |
| `PackRects.FlagIsReport` | Dependencies/Imgui/imstb_rectpack.h:575-580 | the flag recomputed from the coordinates is true exactly for the rectangles packed and the empty ones |
| `PackRects.PackSorted` | Dependencies/Imgui/imstb_rectpack.h:558-570 | the rectangles are packed one after the other in array order, empty ones without effect; each gets the coordinates of its turn |
| `PackRects.PackRects` | Dependencies/Imgui/imstb_rectpack.h:546-584 | packs the highest first, and of those as high the widest; each rectangle is back at its index with id, width and height unchanged and with the outcome of its turn; the result is 1 if and only if all flags are set |
| `PackRects.Verdict` | Dependencies/Imgui/imstb_rectpack.h:558-580 | what the caller reads off each rectangle: an empty one is at the origin and packed; any other is packed, and where its turn put it, if and only if there was room and a node at its turn, else both coordinates are 0x7fffffff |
| `PackRects.PackedInside` | Dependencies/Imgui/imstb_rectpack.h:99-117 | a rectangle reported as packed is inside the target and apart from everything packed by earlier calls |
| `PackRects.PackedApart` | Dependencies/Imgui/imstb_rectpack.h:99-117 | two non-empty rectangles reported as packed by one call are apart |
| `BitSets.UnionMisses` | Execution/LuauSecurity.cpp:121-131 | a union of words lacks some bits if and only if both words lack them |
| `Capabilities.IdentityToCapabilities` | Execution/LuauSecurity.cpp:120-135 | the loop computes the folded word, for every identity |
| `Capabilities.WordIs` | Execution/LuauSecurity.cpp:15-135 | that word, as a literal, for every identity: chosen by the low byte, with bit 48 if it is asked for |
| `Capabilities.FoldIsUnion` | Execution/LuauSecurity.cpp:126-132 | the word lacks some bits if and only if the base word and all listed entries lack them |
| `Capabilities.NoNameMarks` | Execution/LuauSecurity.cpp:15-48 | no entry of the table has the marker bit |
| `Capabilities.MarkerAsAsked` | Execution/LuauSecurity.cpp:120-135 | for every identity, the word has the marker if and only if it was asked for |
| `Capabilities.KeyIsByte` | Execution/LuauSecurity.cpp:50-125 | the word is what the table lists for the whole identity if and only if the identity fits a byte or its low byte is not listed |
| `Capabilities.Identity259` | Execution/LuauSecurity.cpp:120-125 | identity 259 is given the word of identity 3, which is more than the base word |
| `Prototypes.IsOurProtoInternal` | Execution/LuauSecurity.cpp:162-183 | a hit comes with a path of live prototypes to a marked one; after a miss, every new visited prototype is live, unmarked and has only caught children; the unvisited set shrinks |
| `Prototypes.NoWayOut` | Execution/LuauSecurity.cpp:162-183 | no path leads from an exhausted visited set to a mark |
| `Prototypes.MarkUnfolds` | Execution/LuauSecurity.cpp:163-180 | a mark is reachable from a prototype if and only if it has userdata, and is marked or a mark is reachable from a child |
| `Prototypes.IsOurProto` | Execution/LuauSecurity.cpp:185-188 | on every finite graph, cyclic or not: true if and only if a marked prototype is reachable through prototypes with userdata |
| `Prototypes.ChildBelow` | Execution/LuauSecurity.cpp:193-196 | in an acyclic graph, what is below a child is a proper subset of what is below its parent, so the recursion ends |
| `Prototypes.ElevateProtoInternal` | Execution/LuauSecurity.cpp:190-197 | sets the userdata of exactly the reachable prototypes |
| `Prototypes.OneWordBelow` | Execution/LuauSecurity.cpp:162-203 | a search below a prototype whose descendants all carry one word finds the marker if and only if that word has it |
| `Prototypes.ElevateProto` | Execution/LuauSecurity.cpp:199-203 | marks exactly the reachable prototypes with one new word, and a search from any of them afterwards succeeds if and only if the marker was asked for |
| `YieldPool.FillInv` | Execution/InternalTaskScheduler.cpp:220-223 | starting one request restores work conservation when it is off by at most one |
| `YieldPool.NextInv` | Execution/InternalTaskScheduler.cpp:206-310 | every event keeps the invariant of the pool |
| `YieldPool.SessionInv` | Execution/InternalTaskScheduler.cpp:206-245 | in every session: no more than three workers; a request waits only if all are busy; only started requests are ready, only ready ones completed, with the outcome they reported; the active list is the rest, in order |
| `YieldPool.SessionGrows` | Execution/InternalTaskScheduler.cpp:206-245 | requests are started in the order they were scheduled, and none is started or completed twice |
| `YieldPool.SessionScheduled` | Execution/InternalTaskScheduler.cpp:239-240 | in every session, the requests scheduled are those of the scheduling events, in order |
| `YieldPool.SessionRunning` | Execution/InternalTaskScheduler.cpp:206-245 | in every session, a request is running if and only if it was started and its worker has not ended; at most three run, and three if one waits, so a worker that ends makes room for the oldest that waits |
| `YieldPool.SessionReady` | Execution/InternalTaskScheduler.cpp:279-289 | in every session, a request is ready with some outcome if and only if that is the last one reported for it |
| `YieldPool.OutcomesInOrder` | Execution/InternalTaskScheduler.cpp:279-310 | the requests a step completes and those it keeps are each what is left of the list without the others, in order |
| `YieldPool.StepCompletes` | Execution/InternalTaskScheduler.cpp:279-310 | only a step completes requests; it appends the active ones that are ready, in order, to those completed, and keeps the others |
| `YieldPool.Conservation` | Execution/InternalTaskScheduler.cpp:239-240 | scheduled = active + completed, each request is one or the other, and a queued one is active and neither ready nor running |
| `YieldPool.ResumeInv` | Execution/InternalTaskScheduler.cpp:279-310 | a step keeps the invariant, and no request that was ready stays active |
| `YieldPool.YieldScheduler.ProcessNextYield` | Execution/InternalTaskScheduler.cpp:206-225 | starts the oldest queued request, if any |
| `YieldPool.YieldScheduler.WorkerDone` | Execution/InternalTaskScheduler.cpp:220-223 | the worker leaves the pool, and the oldest queued request is started if there is one |
| `YieldPool.YieldScheduler.ScheduleYield` | Execution/InternalTaskScheduler.cpp:227-245 | a new request is active and queued, and started at once if a worker is available |
| `YieldPool.YieldScheduler.SetReady` | Environment/Libraries/Websockets.cpp:54-54 | a started request becomes ready with its outcome |
| `YieldPool.CompleteOneInv` | Execution/InternalTaskScheduler.cpp:280-309 | completing and erasing one ready request keeps the invariant of the pool |
| `YieldPool.YieldScheduler.Complete` | Execution/InternalTaskScheduler.cpp:294-309 | records the outcome of one request and erases it under the loop |
| `YieldPool.YieldScheduler.RunScript` | Execution/InternalTaskScheduler.cpp:301-307 | a resumed script that schedules requests appends them to the list under the loop, which stays where it was |
| `YieldPool.YieldScheduler.ResumeReady` | Execution/InternalTaskScheduler.cpp:279-310 | the loop that erases while it iterates, and whose list grows by what resumed scripts schedule: it ends, completes exactly the requests that were ready, in order, and keeps the others and the new ones in order, as if all new ones had been scheduled before the step |
| `Dispatches.NextInv` | Environment/ExploitObjects/Websocket.cpp:140-216 | every event keeps the invariant of the sockets and the queue |
| `Dispatches.RunHolds` | Environment/ExploitObjects/Websocket.cpp:140-173 | in every interleaving, when a dispatch is begun the release of its socket has not been begun before, and neither has that of any socket scripts may use |
| `Dispatches.RunOrder` | Environment/ExploitObjects/Websocket.cpp:147-172 | in every interleaving, the release and the close notice of a socket are queued at most once, the notice before the release, and nothing about the socket after the release |
| `Dispatches.RunFifo` | Execution/InternalTaskScheduler.cpp:312-318 | dispatches are begun in the order they were queued, also those that a running dispatch queues |
| `Dispatches.ClosedExactly` | Environment/ExploitObjects/Websocket.cpp:140-216 | in every run, a socket is closed if and only if a script or a time-out closed it or its remote close was begun, and useable if and only if it was created and is not closed |
| `Dispatches.RunCloses` | Environment/ExploitObjects/Websocket.cpp:140-216 | the same from any state, for what a run adds |
| `Dispatches.ArrivalsLogged` | Environment/ExploitObjects/Websocket.cpp:182-216 | in every run, what is queued besides notices and releases is exactly what arrived at sockets useable then, in the order of arrival |
| `Dispatches.NoticeQueued` | Environment/ExploitObjects/Websocket.cpp:147-154 | a socket whose connection did not time out while it was useable is closed with a notice |
| `Dispatches.NoticeOmitted` | Environment/Libraries/Websockets.cpp:38-40 | a useable socket that times out is closed without a notice, ever |
| `Dispatches.NoticeExactly` | Environment/ExploitObjects/Websocket.cpp:140-154 | a closed socket has a close notice if and only if no time-out happened while it was useable |
| `Dispatches.Drained` | Execution/InternalTaskScheduler.cpp:312-318 | once the queue is empty, the closed sockets are exactly the released ones, and all that was queued has been begun |
| `Dispatches.DrainBound` | Execution/InternalTaskScheduler.cpp:312-318 | with nothing arriving, at most queue + 2 * useable sockets dispatches run, whatever they and their scripts close |
| `Websockets.Dispatcher.CreateNewWebsocket` | Environment/ExploitObjects/Websocket.cpp:175-230 | adds one useable socket |
| `Websockets.Dispatcher.OnMessage` | Environment/ExploitObjects/Websocket.cpp:182-216 | queues a message or a remote close, or records the reason of an error, for a useable socket, and does nothing for another |
| `Websockets.Dispatcher.CloseWebsocketInstance` | Environment/ExploitObjects/Websocket.cpp:140-173 | closes once: the socket becomes unuseable, and a notice, if wanted, and a release are queued |
| `Websockets.Dispatcher.IndexClose` | Environment/ExploitObjects/Websocket.cpp:37-45 | closes with a notice, if the socket is useable |
| `Websockets.Dispatcher.RunHead` | Execution/InternalTaskScheduler.cpp:314-316 | runs the dispatch at the head, which closes the socket if it is a remote close, and then all closes of the script it calls, in order |
| `Websockets.Dispatcher.RunDispatches` | Execution/InternalTaskScheduler.cpp:312-318 | for every behaviour of the scripts, the loop ends with an empty list after a run of at most queue + 2 * useable dispatches; what waited was begun in order; every socket with a remote close begun, or closed by a script, is closed and its release begun |
| `MultiString.BuildMultiString` | Dependencies/WinReg.hpp:733-777 | builds the buffer of the format, of exactly the length computed in advance |
| `MultiString.Wcslen` | Dependencies/WinReg.hpp:858-864 | the scan for a NUL stays inside the buffer |
| `MultiString.ParseMultiString` | Dependencies/WinReg.hpp:805-882 | fails exactly if the buffer is not double-NUL terminated, else returns the strings between the NULs; the cursor stops exactly at the last element |
| `MultiString.SplitStep` | Dependencies/WinReg.hpp:861-879 | from any position before the last NUL, the next NUL is an earlier one |
| `MultiString.BuiltFacts` | Dependencies/WinReg.hpp:733-796 | every buffer built is double-NUL terminated and has the computed length |
| `MultiString.BuiltLayout` | Dependencies/WinReg.hpp:726-777 | each string is in the buffer at the sum of the lengths before it, a NUL behind each, and one NUL more at the end |
| `MultiString.ParseBuilt` | Dependencies/WinReg.hpp:733-882 | parsing gives the list back if and only if it is not empty and no string contains a NUL |
| `MultiString.ParseBuiltEmpty` | Dependencies/WinReg.hpp:736-740 | the empty list comes back as one empty string |
| `MultiString.BuiltParsed` | Dependencies/WinReg.hpp:784-882 | every accepted buffer is built again from what it parses to, a non-empty list of strings without a NUL |
| `MultiString.ParseCuts` | Dependencies/WinReg.hpp:733-882 | what any non-empty list parses to: its strings, each cut at the NULs inside |
| `Oxorany.SumIsXorAnd` | Dependencies/oxorany.h:232-236 | a + b is the exclusive or plus twice the conjunction, for all naturals |
| `Oxorany.SumsAreXor` | Dependencies/oxorany.h:233-237 | with all sums and differences wrapping, the computed value is the exclusive or |
| `Oxorany.DecryptEncrypt` | Dependencies/oxorany.h:225-239 | for every key, index and byte, decryption and encryption are inverse to each other, both ways |
| `Oxorany.CodecForms` | Dependencies/oxorany.h:225-239 | closed forms of both, for every key, index and byte: exclusive or with the low byte of i + key after adding, or before subtracting, 7 * key; the wrapping at 2^64 does not show |
| `Oxorany.IndexSequence` | Dependencies/oxorany.h:113-142 | the halving recursion of the index sequence yields 0, ..., N - 1 |
| `Oxorany.RoundTrip` | Dependencies/oxorany.h:727-767 | decrypting the buffer of a constant recovers every one of its bytes |
| `Oxorany.Limit` | Dependencies/oxorany.h:241-245 | a limit is between 1 and 4096, for every key |
| `Oxorany.NoJump` | Dependencies/oxorany.h:264-311 | with both counters zero no ladder takes a jump, whatever the limits are |
| `Oxorany.DecryptPlain` | Dependencies/oxorany.h:718-720 | decrypts each byte in place |
| `Oxorany.Round` | Dependencies/oxorany.h:260-518 | with both counters zero, a round through the five ladders ends at the assignment with the byte of the right key |
| `Oxorany.DecryptBranched` | Dependencies/oxorany.h:256-715 | for any starting counters, the obfuscated loop leaves its path if and only if there is a byte and not both are zero; otherwise it leaves the buffer that the plain loop leaves |

## Left out

- Integer widths of the packer: coordinates, areas and waste are unbounded integers, so the model does not show overflow of 32-bit products in very large targets; widths and heights are those the header supports.
- RectPack.Context.InitTarget: requires at least one node, a positive width and height and a height below the sentinel, which the code assumes without a check; `init_mode` is left out, since it has one value only.
- PackRects.Sort: stands for the library sort; the packer relies on nothing but its contract.
- Prototypes.ElevateProto: the array of children and its length are one sequence, and the graph below the closure must be acyclic and without null children; on a cycle the code does not return, on a null child it stops the process.
- Capabilities.IdentityToCapabilities: names are an enumeration instead of strings; all names used in the table of identities are defined, so the check for unknown names has no effect.
- YieldPool.SessionInv: each step of a worker or the scheduler is atomic, and a session has no ClearLists and no ClearState; the real check and increment of the worker counter are two steps.
- YieldPool.YieldScheduler.SetReady: a request becomes ready through its own yield function, so after it was started and before it was completed.
- YieldPool.YieldScheduler.ResumeReady: a completion callback is reduced to the outcome it returns, and a resumed script to the requests it schedules; workers do not act while the loop runs.
- Dispatches.RunHolds: one call of the close function is one step; the destructor of a websocket, which closes through a pointer that does not own it, is not part of this model.
- Websockets.Dispatcher.RunHead: what a script does is reduced to the sockets it closes; the contents of messages and the Lua calls of a dispatch are not modelled, and a script does not re-enter the step.
- Oxorany.DecryptBranched: what happens after a jump is not modelled, only that none is taken; size_t has 64 bits, and the random keys are arbitrary.
- The execution of scheduled scripts: compiling, loading and deferring a script happen in a library that is not part of this model, and the loop around them only empties its list.
- Lua objects, metatables and environments, process memory, hooks, file and registry access, rendering and input: foreign state without a definition in the repository.
