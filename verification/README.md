# Verified models of the selector engine, the map loader and their bookkeeping

The project models the four places of the repository that hold algorithms with
state, and proves what they promise.

* **The selector engine** of `debian/missing-sources/jquery.js`. A query starts from
  the candidates for the rightmost compound and walks the selector right to left,
  overwriting an array `checkSet` with one witness per candidate. The tree is a
  value (`Dom.Tree`: nodes numbered in document order, with their links), because a
  query never changes it; what the engine does write, the expando properties
  `sizcache`, `sizset` and `nodeIndex`, the counter `done`, and `checkSet`, are the
  mutable state of the class `SelectorEngine.Engine`. A simple selector is the set of
  nodes that pass it and the set of nodes on which it raises, as an attribute test does on
  a document; nth-child is modelled with its cached counter.
  `Combinators` states the meaning of combinators as Selectors Level 3, sections 8.1
  to 8.3, has it.
* **The supporting state machines** of the same file: `uniqueSort` and the splice loop
  of `find`, the fx queue, the data store, the event registry and the animation timers.
  What nested calls do to the animations of one element (a step that completes an
  animation, the next one beginning inside it) is a function on worlds in `FxTimers` and
  `FxActions`; `FxPages` puts several elements on a page with one list of timers, whose
  ticks and runs are in `FxTicks` and `FxRuns`. The methods of `FxEngine.Effects` realise
  all of it in place.
* **The slippy map** of `demos/lightmaps/lightmaps.cpp`: the integer tile geometry and
  the download, cache and purge loop.
* **Two smaller loops**: the satellite list of `demos/lightmaps/satellitedialog.cpp` and
  the best-language choice of `examples/annotatedurl/annotatedurl.cpp`.

## What the proofs found

Each of these is a place where an expected property does not hold of the code. The
code is kept as it is; the exact condition under which the property holds is proved.

* Keeping one witness per candidate is complete iff, reading right to left, every
  descendant step is followed only by a descendant step and no general-sibling step is
  followed by an adjacent-sibling step (`Backtracking.QueryCriterion`). For every other
  pattern a document is constructed in which a matching candidate is lost.
* The `parentNode` of a detached root is `null`, and so is that of a document, which a
  filtered ">" step keeps when the filter passes it, as `:has(p)` and `:not(.x)` do. `null`
  ends the loops over `checkSet`, so the result is cut off at the first candidate whose
  walk arrives there (`Query.LeavesTreeExact`, `QueryAnswers.QueryExact`); on a safe pattern
  all matches are returned iff all of them come before it (`QueryAnswers.QueryComplete`).
  Concrete inputs: `QueryAnswers.DocumentHidesMatch`, `QueryAnswers.DetachedRootHidesMatch`.
* Two things raise a TypeError: a ">" step on a bare tag name at a node without parent, and
  a test put to a node it cannot answer. The latter happens on any page: in `[lang] > *` the
  topmost element's parent is the document, which has no `getAttribute`
  (`QueryAnswers.AttributeRaisesOnDocument`). `QueryAnswers.QueryRaises` says exactly when a
  query raises; when tests answer on every element, `QueryAnswers.AnsweringRaises`.
* A selector with a leading combinator returns nothing under a document context, since
  the entry `true` has no `nodeType` (`QueryAnswers.QueryComplete`).
* A continuation of the fx queue called again lets two functions run at once, unless nothing
  waits and nothing is queued before the running function ends (`FxQueue.SoloExactly`).
* `data(elem, "", v)` is dropped on an element without data, and `removeData(elem, "")`
  removes everything (`DataStore.ReadAfterWrite`, `DataStore.RemoveEmptyKey`).
* `event.remove` with several types and one handler can leave a native listener behind
  (`EventRegistry.RemoveBalance` says exactly when).
* `animate({})` dequeues at once: called while an animation runs and another waits, it
  begins the second beside the first (`FxActions.EmptyOverlaps`, `FxRuns.OverlapReached`). Over
  a whole run, the animations of an element keep to their turns iff it is only called on that
  element while none runs (`FxRuns.RunExclusive`).
* A property with an undefined target value gets a timer but no entry in `curAnim`, so
  `complete` fires exactly once iff the property ending last has a defined value or is the
  only one (`FxTimers.CompletesOnceExactly`, `FxTimers.UndefinedCompletesTwice`).
* The map loader stops for good when the tile it would fetch next is (0, 0)
  (`SlippyMap.LoaderCompletes`, `SlippyMap.TopLeftStalls`).
* Tile numbers are cut off towards zero but fractions are taken downwards, so the view
  is centred iff the position is non-negative or whole (`TileGeometry.CentredCriterion`,
  `TileGeometry.NegativeOffCentre`).
* Ordered by strength, known satellites of which none is due index position -1; ordered by
  number, the recorded maximum is right iff some strength due is positive
  (`Satellites.SatelliteWidget.UpdateSatelliteList`, `Satellites.LastOfNothing`,
  `Satellites.MaximumMissed`).

## Model

| member | source | states |
|---|---|---|
| Dom.BeyondIsPrecedes | debian/missing-sources/jquery.js:2834 | walking back over `previousSibling` meets exactly the nodes with the same parent that come earlier in document order |
| Dom.NearestIsNearest | debian/missing-sources/jquery.js:3472-3490 | the node a walk stops at is reachable, and every other accepted node in that direction lies beyond it |
| Combinators.PreviousElement | debian/missing-sources/jquery.js:2834 | the loop of "+" ends at the one element that stands in the adjacent-sibling relation of Selectors Level 3, section 8.3.1, if there is one |
| Combinators.PickSound | debian/missing-sources/jquery.js:2824-2896 | the witness a step keeps stands in the step's combinator relation to the node it came from |
| Combinators.GreedySound | debian/missing-sources/jquery.js:2608-2622 | the witnesses kept from right to left form a full chain of the selector's combinators, starting at the candidate and ending at the leftmost witness |
| Combinators.GreedyPrefix | debian/missing-sources/jquery.js:2608-2622 | after any number of steps the witness kept is the corresponding member of that chain |
| Combinators.PickDominates | debian/missing-sources/jquery.js:3466-3495 | exchange step: a witness that dominates another one picks a witness that dominates whatever the other one could pick, for every safe pair of combinators |
| Combinators.GreedyDominates | debian/missing-sources/jquery.js:2608-2622 | on a safe pattern the nearest witnesses reach the left end whenever any chain does, and end at a dominating witness |
| Combinators.DominatesInScope | debian/missing-sources/jquery.js:2639-2651 | passing to a dominating witness never leaves the context |
| Combinators.FoundMatches | debian/missing-sources/jquery.js:2639-2651 | a candidate whose leftmost witness passes the final scope test matches the selector within the context |
| Combinators.MatchesFound | debian/missing-sources/jquery.js:2608-2651 | on a safe pattern every matching candidate is found, the final scope test included |
| Backtracking.LostMatch | debian/missing-sources/jquery.js:2848-2896 | for every pattern with an unsafe pair there is a document with one root element, without detached nodes, with a matching candidate whose walk ends empty |
| Backtracking.CompletenessCriterion | debian/missing-sources/jquery.js:2608-2622 | one witness per candidate finds every match in every document with one root element iff no neighbouring pair of combinators is unsafe |
| Backtracking.QueryCriterion | debian/missing-sources/jquery.js:2596-2654 | the same criterion for the results of the whole query, with or without a leading combinator, candidates array, filters and final loops included |
| NthChild.IndexTestExact | debian/missing-sources/jquery.js:3149-3154 | the truncating remainder and the quotient test hold iff index = first*k + last for some k >= 0, for all integers first and last (Selectors Level 3, section 6.6.5.2) |
| NthChild.CountThroughExact | debian/missing-sources/jquery.js:3140-3147 | the running count of a child is one more than the number of elements among its earlier siblings |
| Query.SteppedPointwise | debian/missing-sources/jquery.js:2736-2776 | in front of the first `null` a step treats each entry on its own, and a `null` stays |
| Query.RunPointwise | debian/missing-sources/jquery.js:2608-2622 | the same over all steps |
| Query.RunEntryIsGreedy | debian/missing-sources/jquery.js:2608-2622 | an entry ends as the leftmost witness of its candidate, `true` for the context, or `false`/`null` when there is none |
| Query.LeavesTreeExact | debian/missing-sources/jquery.js:2866-2873 | a candidate's entry ends as `null` iff a filtered ">" step is asked of a kept node that has no parent |
| Query.ClearStepsExact | debian/missing-sources/jquery.js:2736-2776 | how many steps are run before a `null` stands in front of a position: the earliest at which some entry before it meets a missing parent |
| Query.WalkRaisesExact | debian/missing-sources/jquery.js:3501-3525 | the filters raise during a walk iff they raise on some element on its way, up to and including the node at which it stops |
| Query.RaisesExact | debian/missing-sources/jquery.js:2596-2622 | the query raises iff some step raises on the entry some candidate has by then: a filter put to a node it cannot answer, or a ">" step on a bare tag name at an entry without parent |
| Query.DriftIsGreedy | debian/missing-sources/jquery.js:2736-2776 | behind a `null` an entry goes on as a one-witness evaluation too, with a filtered ">" or "+" step left at the parent, or the previous element, whatever it is |
| QueryAnswers.GreedyDeclared | debian/missing-sources/jquery.js:2608-2622 | for a candidate that does not leave the tree, walks that may pass a document find what walks over elements alone find |
| QueryAnswers.QueryExact | debian/missing-sources/jquery.js:2637-2651 | when the query does not raise, the results are the found candidates in candidate order, cut off at the first candidate that leaves the tree |
| QueryAnswers.QuerySound | debian/missing-sources/jquery.js:2637-2651 | on every tree each result is a candidate with a full chain of elements inside the context |
| QueryAnswers.MatchesSpelledOut | debian/missing-sources/jquery.js:2637-2651 | a match, without named predicates in between: each witness stands in its combinator's relation to the one before, is an element with that name or passing those tests, or the context itself, and the last lies inside a context element |
| QueryAnswers.ResultsInOrder | debian/missing-sources/jquery.js:2637-2651 | candidates in document order give results in document order |
| QueryAnswers.QueryComplete | debian/missing-sources/jquery.js:2637-2651 | on safe patterns the results are exactly the matches before the first candidate that leaves the tree, none under a document for a leading combinator; all matches are returned iff all of them are such |
| QueryAnswers.QueryRaises | debian/missing-sources/jquery.js:2596-2622 | the query raises iff some step raises on the witness some candidate keeps by then, the steps whose filters a `null` in front has switched off counting by parents and previous elements alone |
| QueryAnswers.RaisesWhenNoneLeaves | debian/missing-sources/jquery.js:2848-2874 | when no candidate leaves the tree, the query raises iff some step raises on a witness kept for some candidate: a ">" step on a bare tag name asked of a node without parent, or a filter put to a node it cannot answer |
| QueryAnswers.AnsweringRaises | debian/missing-sources/jquery.js:2866-2873 | when every test answers on every element, that happens only at a ">" step: on a bare tag name without a parent, or filtered under a document on which the filters raise |
| QueryAnswers.AttachedMeetsRoot | debian/missing-sources/jquery.js:2848-2874 | without detached roots a walk meets a missing parent iff a filtered ">" step keeps a document and a ">" step follows |
| QueryAnswers.QueryAnswer | debian/missing-sources/jquery.js:2596-2654 | soundness on every tree; and no TypeError and every match when the pattern is safe, no candidate leaves the tree and no step raises on a kept witness |
| QueryAnswers.DetachedRootHidesMatch | debian/missing-sources/jquery.js:2866-2873 | a concrete tree in which a detached first candidate hides the second one's match |
| QueryAnswers.DocumentHidesMatch | debian/missing-sources/jquery.js:2866-2873 | an ordinary document and two filtered ">" steps, the first passed by the document: a match is not returned |
| QueryAnswers.DetachedRootRaises | debian/missing-sources/jquery.js:2853-2857 | a detached candidate and a ">" step on a bare tag name: the query raises |
| QueryAnswers.AttributeRaisesOnDocument | debian/missing-sources/jquery.js:3172-3174 | an ordinary document and `[lang] > *`, on a safe pattern with a match: the query raises |
| SelectorEngine.Engine.CountChildren | debian/missing-sources/jquery.js:3140-3147 | numbers exactly the element children of one parent, each by its true position, and stamps only that parent |
| SelectorEngine.Engine.TestNth | debian/missing-sources/jquery.js:3130-3155 | for an element with a parent, true iff one more than the number of elements among its earlier siblings is a value of the progression, whatever stale indices the nodes carry, because a number is fresh per filter; for any other node true iff first is 1 and last is 0 |
| SelectorEngine.Engine.PreFilter | debian/missing-sources/jquery.js:2947-2965 | an nth-child filter takes a number no node is stamped with |
| SelectorEngine.Engine.FilterOne | debian/missing-sources/jquery.js:3518 | a filter on one node raises iff some test cannot answer for it and all tests before that pass it, and otherwise says whether all pass it; it stamps nodes only with newer numbers |
| SelectorEngine.Engine.FilterPass | debian/missing-sources/jquery.js:2747-2764 | one in-place filter raises iff it does on an entry in front of the first `null`, and otherwise clears exactly the failing ones among these |
| SelectorEngine.Engine.FilterInPlace | debian/missing-sources/jquery.js:2728-2796 | all filters, with the early exit, leave exactly the entries in the whole compound, or raise iff some entry they reach makes them |
| SelectorEngine.Engine.WalkToName | debian/missing-sources/jquery.js:3470-3490 | the memoised walk returns the outcome of the naive one and keeps every stamp pointing at the outcome from its node |
| SelectorEngine.Engine.DirNodeCheck | debian/missing-sources/jquery.js:3466-3495 | every entry becomes the nearest node of that name in its direction, or `false` iff there is none; with the memo on, element nodes looked at are at most the distinct ones stamped on the way, all within reach, plus one per entry |
| SelectorEngine.Engine.Visit | debian/missing-sources/jquery.js:3508-3521 | looking at one node decides membership or raises, and the nested filter's stamps never disturb this walk's memo |
| SelectorEngine.Engine.WalkToPart | debian/missing-sources/jquery.js:3501-3525 | the memoised walk with nested filters raises iff the naive one does, and otherwise returns its outcome |
| SelectorEngine.Engine.DirCheck | debian/missing-sources/jquery.js:3497-3533 | every entry becomes the nearest node in the compound (or `true` for the context) or `false`, even when nth-child overwrites stamps mid-walk; it raises iff the naive walk of some entry does |
| SelectorEngine.Engine.RelativeWalk | debian/missing-sources/jquery.js:2876-2895 | the steps " " and "~" on the whole array, under a fresh number, or a TypeError exactly when the step raises |
| SelectorEngine.Engine.RelativeAdjacent | debian/missing-sources/jquery.js:2825-2847 | the step "+" on the whole array, likewise |
| SelectorEngine.Engine.RelativeChild | debian/missing-sources/jquery.js:2848-2875 | the step ">" on the whole array; it raises iff the part is a bare tag and some entry has no parent, or a filter raises on some parent in front of the first `null`; for a bare tag each entry becomes its parent iff that bears the name |
| SelectorEngine.Engine.Collect | debian/missing-sources/jquery.js:2637-2651 | the final loops, which `null` ends |
| SelectorEngine.Engine.Evaluate | debian/missing-sources/jquery.js:2596-2662 | the query in place computes the specified run and raises exactly when that does; all results match, each with witnesses spelled out, candidates in document order give results in document order, and plain queries return every match; a context that is neither element nor document gives nothing |
| ResultSets.DropRepeats | debian/missing-sources/jquery.js:2669-2675 | the splice loop makes a sorted array strictly increasing with the same elements |
| ResultSets.UniqueSort | debian/missing-sources/jquery.js:2664-2679 | the element set is kept; the result is strictly in document order iff the flag was raised or nothing repeats, and otherwise what the sort left |
| ResultSets.NeighboursFlagRepeats | debian/missing-sources/jquery.js:3261-3273 | if the sort compares every two neighbours of its output, the flag is raised whenever a node repeats |
| ResultSets.DropKnown | debian/missing-sources/jquery.js:3627-3634 | the loop with `n--` terminates and drops from the new batch exactly what was there before |
| ResultSets.FreshCounts | debian/missing-sources/jquery.js:3627-3634 | every other entry of the batch is kept as often as it occurs, repeats within the batch included |
| ResultSets.FreshConcat | debian/missing-sources/jquery.js:3627-3634 | and in order: a batch in two parts keeps what is left of the first, then what is left of the second |
| ResultSets.Find | debian/missing-sources/jquery.js:3618-3639 | the result over all contexts is the specified merge of the batches |
| ResultSets.MergedIsFirstOccurrences | debian/missing-sources/jquery.js:3618-3639 | over duplicate-free batches it is duplicate-free and equals the union in order of first occurrence |
| FxQueue.DequeueConserves | debian/missing-sources/jquery.js:1125-1146 | a dequeue starts the first waiting function if there is one and changes nothing else in the order |
| FxQueue.QueueConserves | debian/missing-sources/jquery.js:1102-1123 | a queued function goes to the end, and starts at once exactly on an idle fx queue |
| FxQueue.RunConserves | debian/missing-sources/jquery.js:1101-1166 | over every run, stray continuations included, started functions followed by waiting ones are the functions queued, in order; the sentinel occurs at the head only |
| FxQueue.RunExcludes | debian/missing-sources/jquery.js:1125-1166 | when each function calls its continuation once, at most one runs, it is the last started, and the sentinel is there exactly then |
| FxQueue.SoloExactly | debian/missing-sources/jquery.js:1125-1166 | for every run, continuations called again included, at most one function runs at every point iff each repeated call comes while nothing waits and nothing is queued between it and the end of the function then running |
| FxQueue.DoubleContinuationOverlaps | debian/missing-sources/jquery.js:1141-1143 | a run in which one continuation called twice lets two functions run at once |
| FxQueue.ElementQueue.Dequeue | debian/missing-sources/jquery.js:1125-1146 | the array operations realise the specified dequeue, and hand out the function started |
| FxQueue.ElementQueue.Enqueue | debian/missing-sources/jquery.js:1150-1166 | the array operations realise the specified queueing, keep the sentinel at the head, and hand out the function started, if any |
| FxQueue.ElementQueue.CallContinuation | debian/missing-sources/jquery.js:1141-1143 | a continuation dequeues once more, and hands out the function started, if any |
| DataStore.ReadAfterWrite | debian/missing-sources/jquery.js:980-1021 | a value written is read back iff the key is not empty or the element already has data |
| DataStore.KeyFrame | debian/missing-sources/jquery.js:980-1062 | writing or removing one key of one element leaves every other key and element unchanged |
| DataStore.ObjectReplaces | debian/missing-sources/jquery.js:1004-1006 | an object argument replaces the whole record of its element and nothing else |
| DataStore.RemoveKey | debian/missing-sources/jquery.js:1034-1043 | removing a key frees the element iff it was the last one, and otherwise takes exactly that key |
| DataStore.RemoveEmptyKey | debian/missing-sources/jquery.js:1035-1060 | removing the empty key removes everything |
| DataStore.IdNeverReused | debian/missing-sources/jquery.js:999-1001 | over any run an id its element has lost is never given out again |
| DataStore.JQueryData.Data | debian/missing-sources/jquery.js:980-1021 | a read leaves every element's data as it was and answers from it; a write changes the one entry, under "undefined" or "[object Object]" for a name that is no string, and an object replaces the record; ids and cache realise all that, live ids staying unique with exactly one record each |
| DataStore.JQueryData.RemoveData | debian/missing-sources/jquery.js:1023-1062 | removal takes exactly that key, or with the last key or without a key the whole element, its id and record together |
| EventRegistry.AddKeeps | debian/missing-sources/jquery.js:1603-1652 | adding keeps a listener for exactly the types with an entry, and keeps the balance with handlers |
| EventRegistry.AddBinds | debian/missing-sources/jquery.js:1652-1653 | adding binds exactly the given handler for exactly the given types |
| EventRegistry.RemoveKeepsValid | debian/missing-sources/jquery.js:1685-1732 | whatever the types and handler, afterwards a type has a listener iff it has an entry |
| EventRegistry.RemoveUnbinds | debian/missing-sources/jquery.js:1697-1710 | removing unbinds exactly the given handler, or all, for exactly the given types |
| EventRegistry.RemoveBalance | debian/missing-sources/jquery.js:1685-1732 | listeners and handlers stay balanced iff no type losing its last handler comes, in the call's list, after one keeping some |
| EventRegistry.SingleTypeBalance | debian/missing-sources/jquery.js:1663-1747 | removal of one type, or of all handlers, always keeps the balance |
| EventRegistry.ListenerLeftBehind | debian/missing-sources/jquery.js:1717-1729 | a concrete call that leaves a listener with no handler bound |
| EventRegistry.NamedExact | debian/missing-sources/jquery.js:1603 | the loop acts on a type iff it is listed with no blank one up to it |
| EventRegistry.ElementEvents.Add | debian/missing-sources/jquery.js:1542-1656 | the loop over types, up to a blank one, realises the specified binding and keeps the balance |
| EventRegistry.ElementEvents.Remove | debian/missing-sources/jquery.js:1663-1749 | the loop, up to a blank type, with its carried-over `ret` realises the specified removal, with the exact condition for balance; the handle goes iff no entry is left |
| EventRegistry.ElementEvents.RemoveEverything | debian/missing-sources/jquery.js:1673-1676 | removal without a type ends with no entry, no listener and no handle |
| FxTimers.FinishKeeps | debian/missing-sources/jquery.js:5640-5683 | when a property ends, `complete` fires iff it was the last one under way of its animation, which had not completed before; other animations are untouched |
| FxTimers.CompletesOnceExactly | debian/missing-sources/jquery.js:5645-5651 | with undefined target values, which have a timer but no entry in `curAnim`, `complete` fires exactly once iff the property ending last has a defined value or is the only one |
| FxTimers.UndefinedCompletesTwice | debian/missing-sources/jquery.js:5645-5651 | a defined and an undefined target value, the defined one ending first: `complete` fires twice |
| FxTimers.EndKeeps | debian/missing-sources/jquery.js:5640-5683 | the end of a property keeps the invariant, and completes a queued animation exactly when it was its last |
| FxTimers.BeginKeeps | debian/missing-sources/jquery.js:5394-5465 | the next animation taken off the queue becomes the one behind the sentinel, with all its properties under way and those of others untouched |
| FxTimers.StepEnds | debian/missing-sources/jquery.js:5637-5683 | a step whose time is up ends its property; if that completes a queued animation the next one begins inside the call, and the animations still under way then become strays; otherwise the queue is as before |
| FxTimers.DequeueKeeps | debian/missing-sources/jquery.js:1125-1146 | a dequeue keeps the invariant, takes plans off the head of the queue as they are, appends timers only for animations that begin, touches no other animation, and leaves as strays those under way before it |
| FxTimers.StartKeeps | debian/missing-sources/jquery.js:5433-5465 | starting all properties leaves each of them ended or with its own timer, and the queue as it was unless all of them ended |
| FxTimers.OpenKeeps | debian/missing-sources/jquery.js:5591-5609 | a property opened has ended or goes on with a timer of its own |
| FxPages.MergeOthers | debian/missing-sources/jquery.js:5591-5609 | whatever a call on one element appends to the shared list, the timers, queues and animations of the others are as they were |
| FxTicks.CallKeeps | debian/missing-sources/jquery.js:5708-5712 | one round of the loop takes the timer out iff its property ended, keeps the others in order, appends only timers of animations its element begins meanwhile, and leaves all other elements as they were |
| FxTicks.TickKeeps | debian/missing-sources/jquery.js:5704-5721 | over the timers of all elements: a tick calls every timer there was once, in order, then once each timer made meanwhile, no property of an element twice; a call returns false iff its deadline has come by the reading it makes, and then its property has ended; the timers left are in order those that returned true; on each element only animations whose timers are called move; the interval runs on iff any timer is left |
| FxActions.StartOnTime | debian/missing-sources/jquery.js:5433-5465 | the i-th property of an animation that begins is opened at the 2i-th reading of the clock from then, ends at once iff its time is up at the next reading, and otherwise has its timer with that start |
| FxActions.EnqueueKeeps | debian/missing-sources/jquery.js:1150-1166 | on a busy element a queued animation is only appended; on an idle one it begins at once, the others and their timers unchanged, and the element is busy iff it has not ended already |
| FxActions.BesideKeeps | debian/missing-sources/jquery.js:5394-5465 | an animation with `queue: false` begins at once, leaving the queue and every other animation unchanged |
| FxActions.EmptyKeeps | debian/missing-sources/jquery.js:5390-5392 | `animate({})` makes the running animation a stray and begins the waiting one, if any; on an idle element it does nothing |
| FxActions.EmptyOverlaps | debian/missing-sources/jquery.js:5390-5392 | at that moment two queued animations are under way iff one was running and one waiting, and afterwards iff one was running and the sentinel is there |
| FxRuns.OverlapReached | debian/missing-sources/jquery.js:5390-5392 | two animations queued, then `animate({})` while the first runs: both are under way at once |
| FxRuns.ActApart | debian/missing-sources/jquery.js:5387-5465 | an `animate` on one element, the dequeues and completions inside it included, leaves the queue, the animations and the timers of every other element as they were |
| FxRuns.RunKeeps | debian/missing-sources/jquery.js:5387-5465 | over every run of a page the invariant holds, and on each element the animations begun followed by those waiting are the ones queued on it, in order |
| FxRuns.RunProgresses | debian/missing-sources/jquery.js:5637-5683 | from any moment of a run to its end, on every element, animations and ended properties stay, begun ones stay begun in order, and `complete` fires at most once for each |
| FxRuns.RunCompletes | debian/missing-sources/jquery.js:5645-5680 | once an element has no timer left, every animation it was ever asked for has completed exactly once, whatever runs on the others |
| FxActions.IdleMeansCompleted | debian/missing-sources/jquery.js:5645-5680 | once no timer is left, every animation known has completed, none waits, and every one queued has begun |
| FxActions.BegunInOrder | debian/missing-sources/jquery.js:5528-5537 | the i-th animation begun is the i-th queued, and has completed unless it is a stray or the current one |
| FxRuns.RunExclusive | debian/missing-sources/jquery.js:5387-5392 | at no point of a run does a queued animation of an element run outside its turn iff `animate({})` is only called on that element while none of its runs, whatever happens to the others |
| FxRuns.PatientNeverOverlaps | debian/missing-sources/jquery.js:5387-5392 | and then no two queued animations of it overlap |
| FxEngine.Effects.MarkDone | debian/missing-sources/jquery.js:5645-5651 | the loop over `curAnim` finds out whether every property has ended |
| FxEngine.Effects.Step | debian/missing-sources/jquery.js:5637-5701 | a step returns false iff the clock read at its start has passed the deadline, and realises the specified end, the nested dequeue included, on its own element |
| FxEngine.Effects.Dequeue | debian/missing-sources/jquery.js:1125-1146 | out of `complete`, the next animation begins, or the sentinel goes |
| FxEngine.Effects.Start | debian/missing-sources/jquery.js:5433-5465 | the loop over properties realises the specified start |
| FxEngine.Effects.Custom | debian/missing-sources/jquery.js:5591-5609 | the first step at once, then a timer and the interval if it returned true |
| FxEngine.Effects.AnimateQueued | debian/missing-sources/jquery.js:1150-1166 | a queued animation is appended on a busy element and begins at once on an idle one; other elements are left as they were |
| FxEngine.Effects.AnimateBeside | debian/missing-sources/jquery.js:5394-5465 | an animation with `queue: false` begins beside the others and disturbs neither them, nor the queue, nor other elements |
| FxEngine.Effects.AnimateEmpty | debian/missing-sources/jquery.js:5390-5392 | `animate({})` dequeues on its element alone, and the animation that was running becomes a stray |
| FxEngine.Effects.Tick | debian/missing-sources/jquery.js:5704-5721 | the loop with `splice(i--, 1)` over the shared list that grows under it realises the specified tick and makes the calls TickKeeps describes |
| TileGeometry.AxisExact | demos/lightmaps/lightmaps.cpp:160-179 | the offset lies in (-256, 0], and a tile column belongs to the view iff it meets the viewport |
| TileGeometry.AxisLaidOut | demos/lightmaps/lightmaps.cpp:160-179 | told by tiles and position alone: the tiles are those that meet the viewport, and the position is drawn at its middle, a tile further left if it is negative and not whole, the corner of its tile cut off towards zero to a pixel |
| TileGeometry.LayoutUnique | demos/lightmaps/lightmaps.cpp:160-179 | only one first tile, number of tiles and offset are laid out so |
| TileGeometry.PixelCovered | demos/lightmaps/lightmaps.cpp:160-179 | every pixel of an axis lies in exactly one tile, a tile of the view |
| TileGeometry.CentredCriterion | demos/lightmaps/lightmaps.cpp:160-177 | the position is drawn at the middle of the viewport, to the pixel, iff it is non-negative or whole |
| TileGeometry.NegativeOffCentre | demos/lightmaps/lightmaps.cpp:160-177 | at position -0.5 the view is a whole tile off its middle |
| TileGeometry.TilesMeetViewport | demos/lightmaps/lightmaps.cpp:151-180 | the tiles of the view are exactly those whose rectangle meets the viewport |
| TileGeometry.PixelInOneTile | demos/lightmaps/lightmaps.cpp:151-180 | every pixel of the viewport is painted by exactly one tile, one of the view |
| TileGeometry.DrawnExactly | demos/lightmaps/lightmaps.cpp:185-197 | for a dirty rectangle inside the viewport, every tile meeting it is visited, and the extra row and column never show |
| SlippyMap.ReplyShrinks | demos/lightmaps/lightmaps.cpp:215-238 | a reply for the current view takes exactly its own tile off the missing ones, and the purge drops no window tile |
| SlippyMap.CacheKept | demos/lightmaps/lightmaps.cpp:231-235 | after any reply the cache holds, of what it held and the tile replied, exactly what lies within two tiles of the view |
| SlippyMap.CacheBounded | demos/lightmaps/lightmaps.cpp:231-237 | so it holds at most (w+4)*(h+4) tiles, and the next request is for the current view |
| SlippyMap.LoaderSettles | demos/lightmaps/lightmaps.cpp:215-262 | with the view fixed the loader fetches exactly the missing tiles scanned before (0, 0), one per reply, then stops |
| SlippyMap.LoaderCompletes | demos/lightmaps/lightmaps.cpp:240-262 | the window is completed after one reply per missing tile iff (0, 0) is not among them; otherwise never |
| SlippyMap.TopLeftStalls | demos/lightmaps/lightmaps.cpp:240-262 | a 400 by 300 view around position (0.5, 0.5) contains (0, 0) and is never completed |
| SlippyMap.RenderedExactly | demos/lightmaps/lightmaps.cpp:151-197 | on a view just laid out, rendering a dirty part of the viewport draws exactly the tiles that meet it and paints each of its pixels exactly once |
| SlippyMap.SlippyMap.Download | demos/lightmaps/lightmaps.cpp:240-262 | the loops with the inner `break`, over one column and one row more than the view, request the topmost tile not in the cache of the rightmost column that has one, unless that is (0, 0) |
| SlippyMap.SlippyMap.Invalidate | demos/lightmaps/lightmaps.cpp:151-183 | lays out the view as AxisLaidOut has it in both directions, requests a tile iff none is outstanding, and does nothing for an empty viewport |
| SlippyMap.SlippyMap.Resize | demos/lightmaps/lightmaps.cpp:480-490 | a resize lays the view out in the same way and keeps one request outstanding exactly while `m_url` is set |
| SlippyMap.SlippyMap.HandleNetworkData | demos/lightmaps/lightmaps.cpp:215-238 | a reply, good or bad, caches its tile, keeps exactly what lies within two tiles of the view, each with its image, and keeps one request outstanding exactly while `m_url` is set |
| SlippyMap.SlippyMap.Render | demos/lightmaps/lightmaps.cpp:185-197 | draws exactly the tiles of the view, and of the one column and row more, that meet the dirty rectangle, each once, with its cached image or the empty tile |
| Satellites.BinaryFind | demos/lightmaps/satellitedialog.cpp:216-222 | on the sorted in-use list the search fails iff the number is absent |
| Satellites.NothingDue | demos/lightmaps/satellitedialog.cpp:206-228 | nothing is to be shown iff all in-use strengths are zero and every in-view satellite is zero or in use |
| Satellites.SatelliteWidget.Merge | demos/lightmaps/satellitedialog.cpp:206-228 | holds each non-zero in-use satellite flagged true, and each non-zero in-view one whose number is not in use, exactly as often as it occurs |
| Satellites.MergedStrengths | demos/lightmaps/satellitedialog.cpp:206-245 | the merged list is empty iff nothing is due, and its maximum is the strongest signal due among the two input lists |
| Satellites.LastOfNothing | demos/lightmaps/satellitedialog.cpp:243-245 | one satellite in view with strength 0, ordered by strength: position -1 is read |
| Satellites.MaximumMissed | demos/lightmaps/satellitedialog.cpp:236-240 | one satellite without a reported strength, ordered by number: the maximum recorded is 0, which is not shown |
| Satellites.SatelliteWidget.UpdateSatelliteList | demos/lightmaps/satellitedialog.cpp:193-248 | the list holds that merge, sorted by number or by strength as ordered; ordered by strength, position -1 is read iff a list is non-empty, all in-use strengths are zero and each in-view one is zero or in use, and else the maximum is the true one; ordered by number it is the true one iff a strength in use, or one in view and not in use, is positive, and else 0 |
| Satellites.SatelliteWidget.InViewUpdated | demos/lightmaps/satellitedialog.cpp:169-174 | the same for a new in-view list in any order, with the in-use list staying sorted |
| Satellites.SatelliteWidget.InUseUpdated | demos/lightmaps/satellitedialog.cpp:176-181 | the same for a new in-use list |
| Satellites.SatelliteWidget.SetOrdering | demos/lightmaps/satellitedialog.cpp:131-137 | the same under a changed ordering; an unchanged one touches nothing |
| Satellites.SatelliteWidget.ClearSatellites | demos/lightmaps/satellitedialog.cpp:162-167 | nothing is shown any more, and the maximum stays what it was |
| AnnotatedUrl.TitleUnique | examples/annotatedurl/annotatedurl.cpp:128-148 | the message determines the title: there is one first text of its kind |
| AnnotatedUrl.BestIsTitle | examples/annotatedurl/annotatedurl.cpp:128-148 | the first text of the highest rank is the first in the reader's own locale, failing that in his language, failing that in English, failing that at all |
| AnnotatedUrl.Labels.ConsiderText | examples/annotatedurl/annotatedurl.cpp:132-148 | the chain of comparisons replaces the title iff the record's own rank is higher than the best so far; the match afterwards is told by locale and languages directly |
| AnnotatedUrl.Labels.DisplayNdefMessage | examples/annotatedurl/annotatedurl.cpp:112-157 | the title is the first text in the reader's own locale, without one the first in his language, then the first in English, then the first of all; url and image are the last of their kind |

## Left out

- Selector text: regular expressions, the chunker, `Sizzle.find`, positional pseudos, comma lists and the leading-ID shortcut; a query starts from a split selector and its candidates.
- Native `querySelectorAll`, live node lists and changes of the tree during a query.
- The tree as linked objects: nodes are positions in a value, so aliasing of node objects is not modelled; the expando properties are mutable arrays.
- Bare tag names that a non-element bears as its nodeName: an XML processing instruction or a doctype of that name; a filter may pass any node, the document included.
- SelectorEngine.Engine.TestNth: an element that lost its parent after an earlier nth-child query keeps a stale `nodeIndex`; parentless nodes are taken to have none.
- The native array sort and qSort are contracts: `uniqueSort` takes what the sort left and the pairs it compared, and `Satellites.QSort` promises only a sorted permutation.
- `:not`, `:has` and other pseudo filters beyond nth-child, except as the nodes that pass them and the nodes on which they raise; the filtering of the candidates before the first step.
- Queue replacement by arrays (`clearQueue`, `stop`).
- Prototype members of cache records, records shared by reference with callers, and a data name of `null`.
- Namespaced, special and live events, and the event dispatch itself.
- FxEngine.Effects.Tick: the user's own callbacks are taken not to start or stop animations; the dequeue inside `complete`, which begins the next animation in the middle of a tick, is modelled.
- `stop`, a hide or show that has nothing to do, and a target value of `true`, which `curAnim` would mistake for an ended property; runs take no undefined target value, whose effect on `complete` is stated for one animation alone.
- Easing, styles and units of animations.
- Mercator projection and floating-point rounding: a map position is a pair of reals in tile units; zoom changes are left out, as tiles are keyed without zoom.
- The network itself: a reply arrives once per request; painting, signals and the disk cache.
- Satellite and map painting, the scaling of strengths, and the rest of the user interface.
- Qt's locale parsing: a locale is its language and country.
