# Verified models of the utility library

This project models the algorithmic core of a C++ utility library and proves what that core
is for. `dafny verify dfyconfig.toml` checks everything.

- **Search** (`public/util/algorithm`). `NodeList.dfy` is the indexed binary heap, with every
  node knowing its own position. `SearchSpec`, `SearchTree`, `SearchOptimal` and
  `SearchPlan` describe one best-first search as steps on values: the stored nodes with their
  parent links, and the nodes closed so far. `SearchRace` and `SearchLimits` say which
  estimates keep it from failing. `AStar.dfy` is the engine that keeps the heap, the storage
  and the links in place; each of its methods is proved to take exactly the specified step.
  `TwoWaySpec`, `TwoWayRuns` and `TwoWay` are the search from both ends. `TwoWayComplete` says
  on which inputs it is sure to find a path, `TwoWaySure` which estimates keep it from failing,
  and `TwoWayBest` when the path it finds is a cheapest one. `TwoWayMiss`, `TwoWayTie` and
  `TwoWayCost` are inputs on which it finds none, a cheapest one, or one that is dearer.
- **Caches** (`public/util/cache`). `LruCache`, `LruRuns` and `LruRecency` are the
  list-plus-map cache, its behaviour over whole runs, and when it evicts a key; `LruExpiry` is
  about runs with times. `ProxyCache`, `ProxyProgress`, `ProxyAnswers` and `ProxyRoom` are the
  thundering-herd protocol as a system of threads in
  which one step is one critical section.
  `GroupStore`, `GroupRefines`, `GroupShards` and `GroupCache` are the write-back cache over
  files, its shards, and its background eviction; `GroupHistory` says what it does in terms of
  the calls made and the files alone.
- **Counter** (`public/util/counter`). `CounterSpec`, `CounterUpdate` and `Counter`: nested
  rings of bins, with the additive count as the metric and the clock as an argument.
  `CounterLinear` and `CounterTime` follow one count through the rings as time passes.
  `CounterSums` and `CounterAnswers` say what a query answers, at once and after any history.
- **Region data** (`public/util/region_data`, `public/util/index`). `KeyIndex` and `Grid`: the
  index and the nine-cell lookup. `CityDedup`: removing near-duplicate cities.
- **Text** (`public/util/string`, `public/util/serial`, `public/util/abbreviations`).
  `EditDistance`, `Variants` with `VariantPhrases`, `Base64` with `Base64Laws` and
  `Base64Inputs`, `CEscape` with `CEscapeForms`, `CsvSpec` with `Csv` and `CsvForms`, and `Porter`
  with `PorterPublished` and `PorterStemmer`. `CStrings` and `Sequences` hold what they share.

Objects that the library changes in place are classes; what they do is stated through a
function that gives their abstract value. Costs, distances and scores are reals. Bytes are
the numbers below 256. Identities (pointers) of stored records are part of the record.

Where a contract says `P(..) == true`, the comparison only keeps the verifier from taking the
predicate apart; it means `P(..)`.

Assumptions worth knowing:

- A one-way search gives an optimal answer for every finite, non-negatively weighted graph and
  every consistent estimate. The comment at `public/util/algorithm/astar.h:248` asks only for
  an estimate that never exceeds the remaining cost. That is not enough: the assertion at
  `public/util/algorithm/astar.h:375` can fail, as `SearchLimits.AdmissibleIsNotEnough` shows on
  a graph. Consistency is exactly what is needed: by `SearchLimits.ConsistentIffNeverFails` an
  estimate that never exceeds the remaining cost is consistent along every edge if and only if
  no search from any source attached to the graph by two edges fails.
- The search from both ends may find nothing although a path exists. Unless an assertion fails,
  it is sure to find one, whatever the two estimates are, if no source is a destination, no edge
  leads from a source straight to a destination, and any two different routes of one cost have a
  state between their ends in common (`TwoWayComplete.NotFoundIsRight`). Only routes that visit no
  state twice count, so on a finite graph the condition is about finitely many routes, and it can
  hold on a graph that is the same backwards, as the default expansion at
  `public/util/algorithm/astar.h:262-268` makes it: `TwoWayCost.SearchLine` is one.
  Each of the three is needed: `TwoWayMiss.SharedEndIsMissed`,
  `TwoWayMiss.SingleEdgeIsMissed` and `TwoWayTie.TieIsMissed` are inputs that fail one of them and
  meet the other two, and on which every run ends with nothing found. Told from its last states,
  a run that found nothing is wrong exactly if one side has stored an end of the other
  (`TwoWayRuns.NotFoundIsRightIffUntouched`).
- No assertion fails in the search from both ends if costs are not negative and both estimates
  are not negative and consistent along every edge (`TwoWaySure.RunNeverBreaks`). Under the
  condition above it then finds a path if and only if there is one.
- With such estimates that are also zero at the ends of the other side, the path it finds is a
  cheapest one if there is a single source and a single destination, or under the condition above
  (`TwoWayBest.FoundIsCheapest`). Otherwise it may be dearer: with an edge of cost 1 from the
  source to one destination, and a way of cost 5 to another, `TwoWayCost.DearerIsFound` is a run
  that ends with the latter. Told from its last states, the path is a cheapest one exactly if no
  node closed on both sides joins them at a lower cost (`TwoWayBest.CheapestIffApart`).
- A count of the counter that leaves a ring exactly when it has been in it for as long as the ring
  covers goes to bin 0 of the next ring, wherever that bin then is
  (`public/util/counter/counter.cc:93-95`). `CounterTime.DotGoesAstray` says how far off it then
  is; all others stay within a few bins of their true age (`CounterTime.SeenLater`). A new
  counter's rings start one after the other (`public/util/counter/counter.h:87-105`), and a count
  in a ring that has not started stands still while its true age grows, so that shorter queries
  see it (`CounterObject.EarlyStandsStill`); `SeenLater` adds the time that may be spent waiting.
- Sources have f-value 0, not their estimate (`public/util/algorithm/astar.h:310`); the proofs
  of order and optimality cover this.
- The library is read with signed characters, so that bytes from 128 on count as spaces when
  spaces are skipped.
- A failed assertion of the library ends the program. Methods model it as a result
  (`Aborted`, `Stop`, `false` or `None`), and the theorems say when it cannot happen.

## Model

| member | source | states |
|---|---|---|
| NodeLists.RootIsLeast | public/util/algorithm/nodelist.h:20-45 | in a heap no value is below the root |
| NodeLists.SiftUp | public/util/algorithm/nodelist.h:76-95 | swapping a node with a larger parent moves the only possible disorder up one level |
| NodeLists.SiftDown | public/util/algorithm/nodelist.h:100-153 | swapping a node with its lesser child moves the only possible disorder down |
| NodeLists.Overwritten | public/util/algorithm/nodelist.h:167-184 | a heap with one value overwritten by anything is disordered at most there |
| NodeLists.NodeList.MoveUpItem | public/util/algorithm/nodelist.h:76-95 | restores order and back-indices and keeps the multiset of members, given the entry check of the source |
| NodeLists.NodeList.MoveDownItem | public/util/algorithm/nodelist.h:100-153 | the same, downwards |
| NodeLists.NodeList.LesserChild | public/util/algorithm/nodelist.h:107-148 | the child with the least value, or none exactly for a leaf |
| NodeLists.NodeList.AdjustPosition | public/util/algorithm/nodelist.h:176-184 | after an arbitrary change of one member's value the heap is ordered and indexed again with the same members; true exactly for members |
| NodeLists.NodeList.InList | public/util/algorithm/nodelist.h:187-190 | exact membership |
| NodeLists.NodeList.AddNode | public/util/algorithm/nodelist.h:49-58 | adds exactly the new node and keeps order and back-indices |
| NodeLists.NodeList.RemoveItem | public/util/algorithm/nodelist.h:156-164 | removes exactly the given member; its own index may already be cleared |
| NodeLists.NodeList.GetAndRemoveFirstNode | public/util/algorithm/nodelist.h:205-217 | removes a member of least value; nothing only when empty; membership stays exact although the cleared index may be set again |
| NodeLists.NodeList.AdjustItemLocation | public/util/algorithm/nodelist.h:167-173 | restores a heap that is disordered at most at one place, up or down |
| NodeLists.NodeList.FirstNode | public/util/algorithm/nodelist.h:220-225 | a member of least value, or nothing when empty |
| SearchOptimal.ReachableStatesAreSafe | public/util/algorithm/astar.h:319-383 | in every reachable state nodes were closed in non-decreasing f order, every closed cost is optimal, every link adds up from a closed parent, and no step can run into an assertion |
| SearchOptimal.NeverCheaperThanClosed | public/util/algorithm/astar.h:360-382 | no candidate is cheaper than a node that is already closed |
| SearchOptimal.FirstIsOptimal | public/util/algorithm/astar.h:457-483 | the first open node is reached at the least cost of any path |
| SearchOptimal.FirstTargetIsOptimal | public/util/algorithm/astar.h:474-483 | when the first open node is a target, no path to any target is cheaper |
| SearchOptimal.ExhaustedMeansUnreachable | public/util/algorithm/astar.h:457-463 | when nothing is open, no target can be reached |
| SearchOptimal.ExpandedInv | public/util/algorithm/astar.h:508-545 | closing the first node and registering its candidates keeps the whole invariant and cannot fail |
| SearchLimits.AdmissibleIsNotEnough | public/util/algorithm/astar.h:246-249 | on a concrete graph an estimate that never exceeds the remaining cost makes a reachable step fail |
| SearchLimits.InconsistentFails | public/util/algorithm/astar.h:246-249 | for every finite graph, every estimate that never exceeds the remaining cost and every edge along which it drops by more than the edge costs, a source attached by two edges has a run into a failing step |
| SearchLimits.ConsistentIffNeverFails | public/util/algorithm/astar.h:246-249 | an estimate that never exceeds the remaining cost is consistent if and only if no search from any attached source fails |
| SearchRace.RaceFails | public/util/algorithm/astar.h:360-382 | when a node is closed early and one that closes later undercuts it, some run ends in a step that fails |
| SearchLimits.ConsistentIsAdmissible | public/util/algorithm/astar.h:246-249 | a consistent estimate never exceeds the remaining cost |
| SearchTree.TreePath | public/util/algorithm/astar.h:570-598 | the parent links of a node form a path from a source with the recorded cost |
| SearchTree.RegisterTree | public/util/algorithm/astar.h:319-383 | registering a node keeps the parent links an acyclic tree rooted in the sources whose costs add up |
| SearchPlan.PlanToIsPlan | public/util/algorithm/astar.h:570-598 | the traced plan starts at a source, follows edges of the graph, and its costs telescope to the recorded cost |
| SearchPlan.PlanIsPath | public/util/algorithm/astar.h:140-154 | a plan is a path whose edge costs sum to its last cumulative cost |
| SearchPlan.ReverseVector | public/util/algorithm/astar.h:560-566 | the in-place swaps reverse the vector |
| AStarEngine.AStar.RegisterNode | public/util/algorithm/astar.h:319-383 | the object takes exactly the specified registration, or fails exactly when that has no result |
| AStarEngine.AStar.AddSrcNode | public/util/algorithm/astar.h:300-314 | adds a source of f-value 0; fails exactly if it is already stored or a node has been closed |
| AStarEngine.AStar.FindInClosedList | public/util/algorithm/astar.h:182-190 | the stored node exactly when it is closed |
| AStarEngine.AStar.MoveFirstOpenNodeToClosedList | public/util/algorithm/astar.h:173-177 | closes the head of the heap and changes nothing else |
| AStarEngine.AStar.SearchOneStep | public/util/algorithm/astar.h:454-547 | does nothing once the search is over; otherwise ends it when nothing is open, closes the first node and ends it at a target, or registers all its candidates, exactly as specified; fails exactly when the specified step does, a candidate of negative cost included |
| AStarEngine.AStar.TracePlanFromNode | public/util/algorithm/astar.h:570-598 | the plan to the node, by following primary links |
| AStarEngine.AStar.Search | public/util/algorithm/astar.h:424-449 | terminates; -1 exactly when no target is reachable, otherwise the least cost of all source-to-target paths with a real path of that cost |
| AStarEngine.FindCheapest | public/util/algorithm/astar.h:424-449 | the same from scratch, for any distinct sources |
| TwoWaySpec.JoinedIsPlan | public/util/algorithm/astar2way.h:292-305 | a forward plan and a backward plan that meet join into one plan whose costs telescope |
| TwoWaySpec.BackwardsIsPlan | public/util/algorithm/astar2way.h:315-341 | a plan of the mirrored graph, turned round, is a plan of the graph with the same cost |
| TwoWaySpec.ConnectorSplits | public/util/algorithm/astar2way.h:205-229 | a connector's parent is closed on both sides and is no connector, and the connector's cost is the sum of its two costs |
| TwoWaySpec.ConnectedJoint | public/util/algorithm/astar2way.h:198-229 | making a connector keeps both trees, keeps connectors out of the closed lists and keeps every connector meeting |
| TwoWaySpec.ExpandedJoint | public/util/algorithm/astar2way.h:171-180 | expanding on one side keeps the joint invariant, for any estimate |
| TwoWayEngine.JoinPlans | public/util/algorithm/astar2way.h:292-305 | the resizing loop appends the other plan in reverse |
| TwoWayEngine.ReversePlanSteps | public/util/algorithm/astar2way.h:315-341 | the in-place patching turns a plan round |
| TwoWayEngine.CheckSuccess | public/util/algorithm/astar2way.h:257-310 | a connector at the head gives a sound plan at the connector's cost; anything else gives none |
| TwoWayEngine.FindMeeting | public/util/algorithm/astar2way.h:193-213 | whether the node is closed on the other side, and if so its cost there and the end that its parent links lead back to |
| TwoWayEngine.ConnectOrExpand | public/util/algorithm/astar2way.h:171-229 | a connector to the end of the other side's plan exactly if the head is closed there, otherwise an expansion; the new state is exactly the specified one, and it fails exactly when there is none |
| TwoWayEngine.ForwardMoves | public/util/algorithm/astar2way.h:120-156 | the side whose first node has the lower f-value moves, the forward one on a tie; none exactly when nothing is open on either side |
| TwoWayEngine.NextTurn | public/util/algorithm/astar2way.h:117-181 | one turn of the right side: a plan at the cost of the connector at its head, the specified step, a failure exactly when that step has no result, or nothing when nothing is open |
| TwoWayEngine.SearchTwoWay | public/util/algorithm/astar2way.h:117-184 | terminates after a run of specified turns; a plan it returns is a real path whose cost is that of the connector the run ends at; it reports nothing only when nothing is open, and fails only when the next turn does, which never happens with consistent estimates; where no two routes can be confused it then returns a path if and only if there is one, and with estimates that are zero at the ends a cheapest one, there or between two single ends |
| TwoWayEngine.FindTwoWay | public/util/algorithm/astar2way.h:99-184 | the same from scratch |
| TwoWayComplete.NotFoundIsRight | public/util/algorithm/astar2way.h:117-229 | if no source is a destination, no edge joins a source to a destination and two different routes of one cost always have an inner state in common, where only routes without repeated states count, every run that ends with nothing open, for any two estimates, ends so because no route exists |
| TwoWayComplete.RunHalves | public/util/algorithm/astar2way.h:117-229 | in every run each closed node was expanded by exactly one side, all links start from nodes of their own side, and every node closed on both sides has left an end of the other side stored at no more than the cost through it |
| TwoWayComplete.TwoRoutes | public/util/algorithm/astar2way.h:198-229 | a destination stored on one side and a source stored on the other at one cost stand for two routes of that cost, each without repeated states and the two without a common inner state, or for ends that coincide or are joined by one edge |
| TwoWaySure.TurnGoesOn | public/util/algorithm/astar2way.h:171-229 | with consistent estimates a turn undercuts nothing that is closed, neither by an edge nor by a connector, and keeps the closed nodes in the order of their f-values |
| TwoWaySure.RunNeverBreaks | public/util/algorithm/astar2way.h:117-229 | if costs and both estimates are not negative and the estimates are consistent along every edge, no run comes to a turn that runs into an assertion |
| TwoWayBest.RunFair | public/util/algorithm/astar2way.h:117-229 | in every run with such estimates a cheaper path to a closed node leads through one that the same side closed before it and did not expand, and of two nodes expanded by different sides the sides have not both closed the other's first |
| TwoWayBest.CheapestIffApart | public/util/algorithm/astar2way.h:257-310 | with such estimates that are zero at the ends, the path a run ends with is a cheapest one if and only if no node closed on both sides joins them at a lower cost |
| TwoWayBest.FoundIsCheapest | public/util/algorithm/astar2way.h:117-310 | with such estimates, the path a run ends with is a cheapest one between a single source and a single destination, and wherever no two routes can be confused |
| TwoWayCost.SearchLine | public/util/algorithm/astar2way.h:99-184 | on a line that can be walked both ways, where the graph is its own reverse, the engines return the way from end to end at its cost |
| TwoWayCost.DearerIsFound | public/util/algorithm/astar2way.h:117-310 | with zero estimates, separate ends and no two routes of one cost, a run ends with a path of cost 5 although an edge of cost 1 joins the source to another destination |
| TwoWayRuns.NotFoundIsRightIffUntouched | public/util/algorithm/astar2way.h:117-184 | after every run that ends with nothing open, a destination can be reached if and only if one side has stored an end of the other |
| TwoWayRuns.RunKeeps | public/util/algorithm/astar2way.h:117-229 | over every run both trees and all connectors stay sound, every closed node was expanded or had been closed on the other side, and a node closed on both sides leaves an end of one side stored on the other |
| TwoWayMiss.SingleEdgeIsMissed | public/util/algorithm/astar2way.h:117-229 | on a graph of one edge every run ends with nothing found although the destination can be reached; the ends are apart and there is no second route |
| TwoWayMiss.SharedEndIsMissed | public/util/algorithm/astar2way.h:117-229 | the same where the source is the destination; no edge joins the ends and there is no second route |
| TwoWayMiss.SearchSharedEnd | public/util/algorithm/astar2way.h:117-184 | the engines report nothing there |
| TwoWayTie.TieIsMissed | public/util/algorithm/astar2way.h:117-229 | the same on a graph of four edges with two routes of one cost; the ends are apart and no edge joins them |
| TwoWayTie.SearchTie | public/util/algorithm/astar2way.h:117-184 | the engines report nothing there |
| TwoWayMiss.SearchSingleEdge | public/util/algorithm/astar2way.h:117-184 | the engines report nothing on that graph |
| LruCache.SharedLruCache.Insert | public/util/cache/shared_lru_cache.h:90-109 | list and map become the recency list with the entry in front, cut to the capacity |
| LruCache.SharedLruCache.Erase | public/util/cache/shared_lru_cache.h:111-119 | the entry is gone and nothing else changes; the number erased |
| LruCache.SharedLruCache.Find | public/util/cache/shared_lru_cache.h:123-137 | the unexpired value if any; a hit moves to the front, an expired entry is dropped |
| LruRuns.HitsAreCurrent | public/util/cache/shared_lru_cache.h:90-137 | after any run, whatever is found is what the last insert of that key stored |
| LruRuns.FitsMeansPlain | public/util/cache/shared_lru_cache.h:90-137 | while the live keys fit at every point of a run, the cache holds exactly the plain map: nothing is evicted |
| LruRuns.PlainIffFits | public/util/cache/shared_lru_cache.h:90-137 | the cache reads as the plain map at every point of a run if and only if the live keys fit at every point |
| LruRecency.KeptWhileRecent | public/util/cache/shared_lru_cache.h:101-105 | a key just used stays, behind exactly the keys inserted or hit since and not erased, while these are fewer than the cache holds |
| LruRecency.KeptIffRecent | public/util/cache/shared_lru_cache.h:90-137 | a key just used and then neither erased nor inserted again is still there if and only if those keys were always fewer than the cache holds |
| LruExpiry.FoundDrops | public/util/cache/shared_lru_cache.h:123-137 | a find that returns nothing leaves nothing of the key, one that returns a value puts the key in front; no other entry changes |
| LruExpiry.FoundIffAlive | public/util/cache/shared_lru_cache.h:90-137 | after any run with times, a key that is listed is found, with the value inserted last, exactly if the cache does not expire or that was at most a lifetime ago; one that is not listed is not found |
| LruExpiry.PlainIsLast | public/util/cache/shared_lru_cache.h:90-119 | the keys that must fit are those inserted and not erased since |
| LruExpiry.FitsMeansAlive | public/util/cache/shared_lru_cache.h:90-137 | while the keys that were not erased fit, a find returns the value inserted last and not erased, exactly if the cache does not expire or that was at most a lifetime ago |
| ProxyCache.EveryRunIsSafe | public/util/cache/proxy_cache.h:39-73 | over every interleaving and for every capacity, a blocked thread has a live runner for its key, and every hit returns a value computed for that key that had not expired at the caller's time |
| ProxyCache.NextSafe | public/util/cache/proxy_cache.h:39-73 | every step of every thread keeps that |
| ProxyProgress.OneRunnerPerKey | public/util/cache/proxy_cache.h:40-61 | when the capacity covers the keys in use, at most one thread computes a key at any time, and the flag is set exactly while one does |
| ProxyAnswers.PassAnswers | public/util/cache/proxy_cache.h:44-66 | a caller gets the stored value at once exactly if that has not expired and will not soon, or is being computed anew, or the caller does not want to wait; it waits exactly if there is no such value and one is being computed; otherwise it computes one; nothing else changes |
| ProxyAnswers.PassMarks | public/util/cache/proxy_cache.h:45-63 | a caller that is to compute a value marks the slot of its key and no other; one that is not leaves every slot as it was |
| ProxyAnswers.CompletionReturns | public/util/cache/proxy_cache.h:68-78 | a computation returns its value, and every waiting thread is woken |
| ProxyAnswers.CompletionStores | public/util/cache/proxy_cache.h:68-76 | the value is stored, to expire a time to live after the call was made; other slots stay or are evicted |
| ProxyAnswers.CallsAreAnswered | public/util/cache/proxy_cache.h:39-78 | in every run, with room for all keys, what a caller gets depends on the last completed result of its key and on whether some thread computes that key, alone: before the result is to be refreshed it is returned, and so on in all cases |
| ProxyRoom.CapacityIsNeeded | public/util/cache/proxy_cache.h:40-61 | for every capacity and any one key more, some interleaving has two threads compute the same key |
| ProxyProgress.NeverStuck | public/util/cache/proxy_cache.h:48-72 | while a call is pending some step of the protocol can be taken: no lost wake-up, no deadlock |
| ProxyProgress.EveryCallReturns | public/util/cache/proxy_cache.h:39-73 | in every run, with new calls and spurious wake-ups at any time, the steps of the protocol taken and the work left are at most the work there was, one per wake-up and the number of threads plus two per call; when no step is left, every call has returned |
| ProxyProgress.WorkIsBounded | public/util/cache/proxy_cache.h:39-73 | from the start, the steps of the protocol are at most one per wake-up and the number of threads plus two per call |
| GroupRefines.InsertRefines | public/util/cache/group_cache.h:164-173 | readers see the new value there and everything else unchanged |
| GroupRefines.EraseRefines | public/util/cache/group_cache.h:188-194 | readers see nothing there and everything else unchanged |
| GroupRefines.FindRefines | public/util/cache/group_cache.h:205-221 | returns what readers see and changes none of it |
| GroupRefines.FlushGroupRefines | public/util/cache/group_cache.h:375-384 | the group becomes clean, agrees with its file, and readers see the same |
| GroupRefines.FlushRefines | public/util/cache/group_cache.h:273-288 | nothing stays dirty and readers see the same |
| GroupRefines.EvictRefines | public/util/cache/group_cache.h:472-493 | eviction never changes what readers see |
| GroupRefines.DropAllRefines | public/util/cache/group_cache.h:314-326 | dropping all clean groups never changes what readers see |
| GroupRefines.TickRefines | public/util/cache/group_cache.h:358-363 | passing time only makes entries expire |
| GroupShards.EveryRunIsAMap | public/util/cache/group_cache.h:164-221 | whatever sequence of insert, erase, find, flush, clear, eviction and time is applied to a fresh cache over any files, on all shards, it is a plain map with expiry, and every find returns what the map holds |
| GroupShards.ApplyAgrees | public/util/cache/group_cache.h:495-497 | every action on its home shard keeps the agreement with the map: dirty groups are cached, clean ones agree with their file, groups marked missing have none |
| GroupShards.StartAgrees | public/util/cache/group_cache.h:136-145 | a fresh cache over any files agrees with their contents |
| GroupHistory.ClockIsLatest | public/util/cache/group_cache.h:265-269 | the time of a run is the latest there was |
| GroupHistory.InsertedIsFound | public/util/cache/group_cache.h:164-221 | after any run, a value inserted last at a time and not erased is found exactly while life is not positive or no more than life seconds, in microseconds, have passed |
| GroupHistory.ErasedIsGone | public/util/cache/group_cache.h:188-221 | after any run, what was erased last is not found |
| GroupHistory.OtherwiseFromFile | public/util/cache/group_cache.h:205-221 | after any run, what was neither inserted nor erased is found as in the file of its group at the start, exactly while it is alive |
| GroupHistory.ReadingLeaves | public/util/cache/group_cache.h:387-415 | reading a group caches the entries of its file that are still alive, makes it dirty exactly if there were others, and marks it as missing without a file |
| GroupHistory.FindingLeaves | public/util/cache/group_cache.h:205-221 | a find in a cached group takes out an entry that is too old and makes the group dirty, and otherwise changes nothing but the order |
| GroupHistory.FlushedFiles | public/util/cache/group_cache.h:273-288 | a flush writes each dirty group as exactly its entries still alive, removes the file of one that has none, and touches no other file |
| GroupHistory.FlushedFile | public/util/cache/group_cache.h:376-385 | the same for one group |
| GroupHistory.FlushedSurvives | public/util/cache/group_cache.h:273-288 | after any run and a flush of all shards, a new cache over the files finds what the old one did |
| GroupHistory.EvictsLeastRecent | public/util/cache/group_cache.h:472-493 | in any run, the group that a shard evicts is the one of its groups that was named by a call longest ago; every other group stays |
| GroupCacheObject.FreshEntries | public/util/cache/group_cache.h:400-413 | the loop keeps exactly the unexpired entries and tells whether any had expired |
| GroupCacheObject.GroupCache.InsertEntry | public/util/cache/group_cache.h:164-173 | the object takes the specified step |
| GroupCacheObject.GroupCache.EraseEntry | public/util/cache/group_cache.h:188-194 | the object takes the specified step |
| GroupCacheObject.GroupCache.ClearAll | public/util/cache/group_cache.h:314-326 | flushes, then drops every group; the number written |
| GroupCacheObject.GroupCache.Read | public/util/cache/group_cache.h:387-415 | caches the unexpired entries of the file, dirty if some had expired, or marks the group as missing |
| GroupCacheObject.GroupCache.Write | public/util/cache/group_cache.h:418-450 | the file holds exactly the unexpired entries and is gone when there are none |
| GroupCacheObject.GroupCache.FindEntry | public/util/cache/group_cache.h:205-221 | the object takes the specified step and returns what readers see |
| GroupCacheObject.GroupCache.FlushAll | public/util/cache/group_cache.h:273-288 | the loop over the dirty groups writes all of them, in any order |
| GroupCacheObject.GroupCache.EvictLast | public/util/cache/group_cache.h:472-493 | one round of the background thread flushes and drops the least recently used group |
| CounterSpec.EventIsSeen | public/util/counter/counter.cc:41-115 | right after an event is placed whose age some set covers, every query at least as long grows by its count and every query a full bin of that set shorter is unchanged |
| CounterSpec.TrackedIffCovered | public/util/counter/counter.cc:84-115 | an event of positive age has a bin if and only if its age is at most the sum of the spans of all sets, and then in the set that covers it |
| CounterSpec.PlacedThenQueried | public/util/counter/counter.cc:41-115 | placement and query walk the rings alike: a query grows by the count exactly when it reaches beyond the start of the event's bin |
| CounterSpec.AgelessEventIsSeen | public/util/counter/counter.cc:93-95 | an event without age is seen exactly by the queries that reach bin 0 |
| CounterSpec.TotalsAreAFastPath | public/util/counter/counter.cc:47-58 | adding a set's total equals adding its bins |
| CounterSums.QueryIsSum | public/util/counter/counter.cc:36-80 | a query is the sum of the bins that start within its interval, and of no other |
| CounterSums.LongQueryIsHeld | public/util/counter/counter.cc:36-80 | a query as long as all sets cover counts all they hold |
| CounterLinear.UpdatedWith | public/util/counter/counter.cc:129-181 | two counters that differ in one count still do after an update, in the bin the count has moved to, or no longer once it is dropped |
| CounterTime.QueryWith | public/util/counter/counter.cc:36-80 | a query grows by a count in any bin exactly if it is longer than the age at which the bin starts |
| CounterTime.StayingReads | public/util/counter/counter.cc:129-160 | what stays in its ring is taken by an update to be as old as before |
| CounterTime.MovedHolds | public/util/counter/counter.cc:84-181 | what leaves its ring, but not on the dot, is dropped exactly if no ring covers the age it is taken to have, and otherwise lands in a bin that starts at most one bin size before that age |
| CounterTime.DotGoesAstray | public/util/counter/counter.cc:93-95 | what leaves its ring on the dot lands too far back by as many bins as the next ring has moved on, so in a bin that holds its age exactly if that is none |
| CounterTime.RanWith | public/util/counter/counter.cc:11-80 | whatever is recorded and asked, counters that differ in one count go on to differ in that count alone |
| CounterTime.SeenLater | public/util/counter/counter.cc:11-181 | after any history of calls in which it never goes astray, an event recorded after any update is seen by every query longer than its true age by the bin sizes of all rings, while the rings cover as much, and by none shorter by twice as much and by the part of the time since then that passed before all rings had started |
| CounterTime.DotIsMissed | public/util/counter/counter.cc:93-95 | a count that leaves on the dot is missed by every query that does not reach back to bin 0 of the next ring |
| CounterTime.StandsStill | public/util/counter/counter.cc:129-160 | an update before a ring has started leaves its counts as they are: a query sees one exactly if it is longer than the age at which its bin started |
| CounterAnswers.NewAnswersZero | public/util/counter/counter.h:87-105 | a new counter answers 0 to every query |
| CounterAnswers.AnswerIsSum | public/util/counter/counter.cc:11-80 | after any history from an empty counter, a query answers the sum of the events whose bins by then start within its interval |
| CounterAnswers.AddsRightly | public/util/counter/counter.cc:11-181 | each event is counted if it is inside the window of the query by all bin sizes, and not if it is outside by twice as much and the time it may have waited |
| CounterAnswers.WindowBounds | public/util/counter/counter.cc:11-181 | after any history of a new counter in which nothing leaves a ring on the dot, a query answers at least the events inside its window and at most those not outside it |
| CounterObject.OnTheDotIsMissed | public/util/counter/counter.cc:93-95 | nine microseconds after a counter of two rings was made, an event is recorded that a query longer than its true age and all bin sizes together misses a microsecond later |
| CounterObject.EarlyStandsStill | public/util/counter/counter.cc:84-115 | an event recorded by a new counter is seen ten microseconds later by a query shorter than its true age by more than twice the bin sizes |
| CounterObject.NewStartsBy | public/util/counter/counter.h:87-105 | whenever a new counter is updated, no ring has a turn left to make, and all have started or will once the time they cover together has passed |
| CounterUpdate.UpdateConserves | public/util/counter/counter.cc:129-181 | an update moves counts or drops them: held plus dropped is what was held, and totals stay sums |
| CounterUpdate.CountsOnlyMoveOn | public/util/counter/counter.cc:129-181 | however many sets one looks at from the front, an update never increases what they hold |
| CounterUpdate.UpdatedIsUpToDate | public/util/counter/counter.cc:129-181 | after an update no ring has a turn left to make |
| CounterUpdate.UpdatingIsIdempotent | public/util/counter/counter.cc:129-181 | updating again at the same time changes nothing |
| CounterObject.FindSpot | public/util/counter/counter.cc:84-115 | the walk finds the specified bin, or none past the last set |
| CounterObject.QuerySets | public/util/counter/counter.cc:36-80 | the walk computes the specified sum |
| CounterObject.RotateSet | public/util/counter/counter.cc:136-175 | the loop empties exactly the bins that fall out of the ring and lists their contents |
| CounterObject.BuildSets | public/util/counter/counter.h:87-105 | one empty set per configured pair, each starting where the one before it ends |
| CounterObject.Counter.ProcessEvent | public/util/counter/counter.cc:11-26 | updates, places the event, and keeps recorded equal to held plus dropped |
| CounterObject.Counter.UpdateBins | public/util/counter/counter.cc:129-181 | the two loops take the specified update and account for what is dropped |
| CounterObject.Counter.PlaceMetricsInBin | public/util/counter/counter.cc:85-127 | the count goes to the specified bin and into its set's total, or is dropped |
| CounterObject.Counter.GetMetricsForInterval | public/util/counter/counter.cc:28-80 | the sum over the bins the interval covers |
| CounterObject.Counter.RecordThenQuery | public/util/counter/counter.cc:11-80 | of two queries around one event, the second is greater by its count if the interval is at least its age, and equal if the interval is a full bin shorter or the event is older than all sets cover |
| KeyIndex.FilingIsARelation | public/util/index/index.h:437-482 | without a cap, filing adds exactly one pair and taking out removes exactly one; no value is listed twice |
| KeyIndex.Index.AddKeyValueToIndex | public/util/index/index.h:437-463 | files a value once, up to the cap; fails exactly for a unique key in use |
| KeyIndex.Index.RemoveKeyValueFromIndex | public/util/index/index.h:469-482 | takes one value out from under a key |
| KeyIndex.Index.Retrieve | public/util/index/index.h:408-419 | all values of a key, each once |
| Grid.NearMeansNeighbours | public/util/region_data/region.h:281-287 | points less than a grid size apart have cell numbers at most one apart, in spite of truncation toward zero |
| Grid.NeighboursAreWithinThree | public/util/region_data/region.h:281-287 | points of neighbouring cells are less than three grid sizes apart |
| Grid.ThreeSizesAreReached | public/util/region_data/region.h:281-287 | that bound is met around cell zero |
| Grid.ZeroCell | public/util/region_data/region.h:281-287 | cell zero covers both sides of zero |
| Grid.NineCellsSuffice | public/util/region_data/region.h:472-499 | the nine cells report each listed place within a grid size in both directions and within the radius once, and nothing else |
| Grid.NineCellsAreNear | public/util/region_data/region.h:482-490 | every place the nine cells hold is less than three grid sizes away in both directions |
| Grid.LookupIsAFullScan | public/util/region_data/region.h:472-499 | with no cap the nine-cell lookup reports what a scan of all stored places reports, each once |
| Grid.ListsAllIffWithinCap | public/util/index/index.h:444-455 | with a cap the index lists every stored place exactly when no cell holds more than the cap |
| Grid.BuiltEntries | public/util/region_data/region.h:408-417 | each cell lists the first of its distinct places, as many as the cap allows |
| Grid.Region.BuildLatLongIndex | public/util/region_data/region.h:408-417 | the index of all stored places |
| Grid.Region.LookupByLatLong | public/util/region_data/region.h:472-499 | appends each place that the index lists, once, if it is less than a grid size away in both directions and within the radius, with its distance, and nothing else |
| Grid.Region.BuildThenLookup | public/util/region_data/region.h:408-499 | with no cap, building the index and looking up appends each stored place once that is less than a grid size away in both directions and within the radius, with its distance, and nothing else |
| EditDistance.EditDistance | public/util/string/strutil.h:403-418 | the table holds the distance of every two prefixes |
| EditDistance.DistanceIsShortest | public/util/string/strutil.h:401-418 | the distance is the length of a shortest script of insertions, deletions and substitutions |
| EditDistance.Triangle | public/util/string/strutil.h:403-418 | the triangle inequality |
| EditDistance.Symmetric | public/util/string/strutil.h:403-418 | symmetry |
| EditDistance.ZeroIffEqual | public/util/string/strutil.h:403-418 | the distance is zero exactly for equal strings |
| EditDistance.DistanceBounds | public/util/string/strutil.h:403-418 | at least the difference and at most the sum of the lengths |
| CityDedup.NamesTooFar | public/util/region_data/cities.cc:318-324 | testing the lengths first never changes what the full distance decides |
| CityDedup.IsDuplicate | public/util/region_data/cities.cc:293-334 | the inner loops find a similar better city exactly when there is one |
| CityDedup.Dedup | public/util/region_data/cities.cc:279-342 | the list keeps exactly the first occurrences that no earlier city of the same country beats |
| CityDedup.DropRepeats | public/util/region_data/region.h:568-578 | the first occurrence of every city, in order |
| CityDedup.StaysIffNoneBetter | public/util/region_data/cities.cc:279-342 | of a list without repetitions a city stays exactly if its score is above the limit, it has no coordinates, or no earlier city of its country with coordinates is within the distance and has a name within the edits |
| CityDedup.SurvivorsInOrder | public/util/region_data/cities.cc:337-341 | the cities that stay keep their order |
| CityDedup.FirstsInOrder | public/util/region_data/region.h:568-578 | first occurrences keep their order |
| CityDedup.EveryCountrySurvives | public/util/region_data/cities.cc:279-342 | some city of every listed country stays |
| Variants.SearchVariants | public/util/abbreviations/abbreviations.cc:64-84 | the stack loop terminates and emits all boards in order; the board up to an item's position is always its path |
| Variants.ExpandIsProduct | public/util/abbreviations/abbreviations.cc:64-84 | the boards are exactly the cartesian product of the lists of variants, as many as the product of their sizes |
| Variants.ExpandCount | public/util/abbreviations/abbreviations.cc:64-84 | every board is emitted once for each way to choose it |
| Variants.OriginalIsLast | public/util/abbreviations/abbreviations.cc:17-30 | the words as they were come last |
| Variants.GetAllVariants | public/util/abbreviations/abbreviations.cc:12-86 | no words give nothing, no variants give the phrase, anything else all combinations |
| VariantPhrases.PhrasesAreVariants | public/util/abbreviations/abbreviations.cc:17-84 | the phrases are exactly those in which every word is itself or, normalized, what the dictionary has for it; the words as they were come last |
| VariantPhrases.JoinedWordsArePieces | public/util/abbreviations/abbreviations.cc:78 | joined with spaces, words without spaces can be told apart again |
| VariantPhrases.PhrasesDiffer | public/util/abbreviations/abbreviations.cc:64-84 | without spaces in the words, different choices give different phrases |
| Variants.HasVariants | public/util/abbreviations/abbreviations.cc:33-45 | whether some word has more than itself as a variant |
| Base64.EncodeString_Base64 | public/util/string/strutil.cc:475-518 | the loop writes the groups of the input, in lines if asked |
| Base64.DecodeString_Base64 | public/util/string/strutil.cc:521-570 | the loop reads groups up to the end of the text; nothing at an error |
| Base64Laws.RoundTrip | public/util/string/strutil.cc:475-570 | decoding an encoding gives back every byte string, in lines or not |
| Base64Laws.EncodeThenDecode | public/util/string/strutil.cc:475-570 | the same of the two methods |
| Base64Laws.SpellsTheInput | public/util/string/strutil.cc:506-514 | the letters spell the bits of the input six at a time, completed with zeros, as section 4 of RFC 4648 asks |
| Base64Laws.LettersThenFillers | public/util/string/strutil.cc:484-514 | letters of the alphabet, then the fillers that complete the last group of four |
| Base64Laws.BreaksAreEvery77 | public/util/string/strutil.cc:502-504 | line breaks stand after every 76 letters and nowhere else, the line length of section 6.8 of RFC 2045 |
| Base64Laws.LinesAreFull | public/util/string/strutil.cc:475-518 | in a split text exactly every seventy-seventh byte is a line break, in any other none |
| Base64Laws.SplitAddsBreaks | public/util/string/strutil.cc:502-504 | splitting adds line breaks and nothing else |
| Base64Inputs.LettersAreTheAlphabet | public/util/string/strutil.cc:477-480 | the letters are the alphabet of Table 1 of RFC 4648, in order, and each reads as its place |
| Base64Inputs.OnlyLettersRead | public/util/string/strutil.cc:521-570 | nothing but letters and the filler reads as a digit |
| Base64Inputs.DecodesIffCode | public/util/string/strutil.cc:521-570 | a text without spaces decodes exactly if it is groups of four letters and fillers, with at most two fillers and those in the last group, to three bytes for each group and one less for each filler |
| CEscape.UnescapeReadsEscape | public/util/string/strutil.cc:105-312 | unescaping reads exactly the escaped string, whatever follows it, and gives every byte string back |
| CEscape.EscapeString_C | public/util/string/strutil.cc:105-220 | a quoted string with every byte escaped as specified |
| CEscape.UnescapeString_C | public/util/string/strutil.cc:225-312 | the string up to the closing quote and the bytes that takes; nothing without an opening quote |
| CEscapeForms.ControlsAreWritten | public/util/string/strutil.cc:182-209 | backspace, tab, newline, form feed and return are written by their letters, other control characters by three octal digits |
| CEscapeForms.OthersAreWritten | public/util/string/strutil.cc:210-215 | quotes and backslashes are escaped, all else is written as it is |
| CEscapeForms.SimpleEscapesRead | public/util/string/strutil.cc:243-267 | each of the eight simple sequences reads as its character |
| CEscapeForms.OctalEscapesRead | public/util/string/strutil.cc:287-293 | three digits read as an octal number, eight and nine among them, cut to a byte |
| CEscapeForms.UniversalEscapesRead | public/util/string/strutil.cc:268-286 | four hexadecimal digits of either case after a u read as a byte if their number is below 256, and as nothing if not |
| CEscapeForms.UnknownEscapesAreDropped | public/util/string/strutil.cc:287-300 | any other sequence stands for nothing |
| CEscapeForms.ShortUniversalIsDropped | public/util/string/strutil.cc:268-286 | a u without four hexadecimal digits stands for nothing |
| CEscapeForms.HexDigitsAreThose | public/util/string/strutil.cc:268-274 | the hexadecimal digits are those of either case, with their values |
| CEscapeForms.PlainBytesRead | public/util/string/strutil.cc:304-308 | any byte but a backslash reads as itself |
| CStrings.SkipSpaces | public/util/string/strutil.h:72-75 | the text after its leading spaces |
| CStrings.SpacesAreSkipped | public/util/string/strutil.h:72-75 | exactly the bytes from 1 to 32 and from 128 on are skipped, up to the first other one |
| CsvSpec.DecimalReads | public/util/serial/serializer_csv.h:139-145 | a printed 32-bit number reads as itself |
| CsvForms.NumberReads | public/util/serial/serializer_csv.h:139-145 | white space, perhaps a sign, and digits read as their decimal number, up to the first other byte |
| CsvForms.NoNumberReads | public/util/serial/serializer_csv.h:139-145 | without a digit the number is zero and nothing is read |
| CsvForms.NumbersAreCut | public/util/serial/serializer_csv.h:139-145 | a number that does not fit is cut to 64 bits at the nearer end, and to 32 by its last bits |
| CsvForms.EndsIs | public/util/serial/serializer_csv.h:84-90 | after spaces, only the end of the text or a comment ends a row |
| CsvForms.NumberFieldReads | public/util/serial/serializer_csv.h:119-127 | a field for a number is one exactly if only spaces and a comment follow the number |
| CsvForms.UnquotedTextReads | public/util/serial/serializer_csv.h:105-117 | a field without a quote is read up to the delimiter, with the spaces after it but not those before it |
| CsvForms.NoDelimiterFails | public/util/serial/serializer_csv.h:96-102 | a field after the first that does not begin with the delimiter is an error |
| CsvForms.RowIsWritten | public/util/serial/serializer_csv.h:18-25 | fields are written one after the other with a delimiter between any two |
| Csv.RowRoundTrip | public/util/serial/serializer_csv.h:20-41 | a written row is read back with its strings cut at the first zero, so it is read back unchanged exactly when no string holds a zero |
| Csv.FieldReads | public/util/serial/serializer_csv.h:97-137 | one field is read back, and nothing after it |
| Csv.SerializeCSV.Put | public/util/serial/serializer_csv.h:19-41 | appends a field, after a delimiter unless it is the first |
| Csv.DeserializeCSV.Get | public/util/serial/serializer_csv.h:94-137 | reads the specified field or fails, and stays failed |
| Csv.DeserializeCSV.End | public/util/serial/serializer_csv.h:84-90 | accepts spaces and a comment after the last field, nothing else |
| Csv.ReadWholeRow | public/util/serial/serializer_csv.h:84-137 | reading field after field and the end is reading the specified row |
| Csv.WriteThenRead | public/util/serial/serializer_csv.h:20-137 | writing a row and reading it back succeeds and gives the row, with strings cut at zeros, for every delimiter but a digit or a minus sign |
| Csv.SeparatesIffRecovers | public/util/serial/serializer_csv.h:20-137 | a delimiter that is not zero lets every row be read back if and only if it is neither a digit nor a minus sign |
| Porter.TransitionsCount | public/util/string/porter_stemmer.cc:107-142 | the measure is the number of places where a vowel gives way to a consonant |
| Porter.SwitchIsScan | public/util/string/porter_stemmer.cc:265-348 | switching on one letter finds the rule that a scan of the whole table finds |
| Porter.SwitchRewrites | public/util/string/porter_stemmer.cc:265-348 | that stays so when the word is too short to have the letter, whatever is read instead |
| Porter.Step2TakesLongest | public/util/string/porter_stemmer.cc:265-302 | the rule applied has the longest suffix of all that match |
| Porter.Step3TakesLongest | public/util/string/porter_stemmer.cc:306-319 | the same |
| Porter.Step4TakesLongest | public/util/string/porter_stemmer.cc:323-348 | the same |
| Porter.StemmingShortens | public/util/string/porter_stemmer.cc:365-383 | a stem is not empty, is no longer than the word and begins with the same letter |
| PorterPublished.ConsonantsAre | public/util/string/porter_stemmer.cc:99-105 | a consonant is a letter other than a, e, i, o and u, and other than y after a consonant |
| PorterPublished.VowelAnywhere | public/util/string/porter_stemmer.cc:146-151 | a word has a vowel if any of its letters, the first and the last among them, is one |
| PorterPublished.NoVowels | public/util/string/porter_stemmer.cc:146-151 | and none if all are consonants |
| PorterPublished.SsesToSs | public/util/string/porter_stemmer.cc:233 | -sses becomes -ss |
| PorterPublished.IesToI | public/util/string/porter_stemmer.cc:234 | -ies becomes -i |
| PorterPublished.SsStays | public/util/string/porter_stemmer.cc:235 | -ss stays |
| PorterPublished.SGoes | public/util/string/porter_stemmer.cc:235 | any other -s goes |
| PorterPublished.WithoutSStays | public/util/string/porter_stemmer.cc:232 | a word that does not end in s stays |
| PorterPublished.EedToEe | public/util/string/porter_stemmer.cc:237 | -eed becomes -ee after a stem of positive measure |
| PorterPublished.EdGoes | public/util/string/porter_stemmer.cc:238-239 | -ed goes after a stem with a vowel, whose end is then restored |
| PorterPublished.IngGoes | public/util/string/porter_stemmer.cc:238-239 | so does -ing |
| PorterPublished.EIsRestored | public/util/string/porter_stemmer.cc:240-242 | -at, -bl and -iz get their e back |
| PorterPublished.DoublesAreHalved | public/util/string/porter_stemmer.cc:243-248 | a double consonant becomes single, but for l, s and z |
| PorterPublished.DoubleIs | public/util/string/porter_stemmer.cc:155-161 | a double consonant is two equal letters at the end, the last one a consonant |
| PorterPublished.ShortGetsE | public/util/string/porter_stemmer.cc:249 | a stem of measure one that ends in consonant, vowel, consonant gets an e; any other stays |
| PorterPublished.YToI | public/util/string/porter_stemmer.cc:255-258 | -y becomes -i after a stem with a vowel |
| PorterPublished.Step2IsPublished | public/util/string/porter_stemmer.cc:265-302 | the longest of the twenty-one published suffixes is replaced by its counterpart after a stem of positive measure; without one the word stays |
| PorterPublished.Step3IsPublished | public/util/string/porter_stemmer.cc:306-319 | the same with the seven suffixes of step 3 |
| PorterPublished.Step4IsPublished | public/util/string/porter_stemmer.cc:323-348 | the longest of the nineteen suffixes of step 4 goes after a stem of measure above one, ion only after s or t |
| PorterPublished.FinalE | public/util/string/porter_stemmer.cc:353-360 | -e goes after a stem of measure above one, or of measure one that is not short |
| PorterPublished.FinalLl | public/util/string/porter_stemmer.cc:361 | -ll becomes -l if the measure of the word before the step is above one |
| PorterPublished.SuffixesGoInOrder | public/util/string/porter_stemmer.cc:371-383 | as in generalizations, -s, -ization, -alize and -al go one after the other |
| PorterStemmer.Stemmer.M | public/util/string/porter_stemmer.cc:118-142 | the nested loops compute the measure of the letters up to j |
| PorterStemmer.Stemmer.Ends | public/util/string/porter_stemmer.cc:182-190 | whether the word ends with the suffix, and if so the mark before it |
| PorterStemmer.Stemmer.CvcAt | public/util/string/porter_stemmer.cc:172-178 | consonant, vowel, consonant |
| PorterStemmer.Stemmer.Step1bInPlace | public/util/string/porter_stemmer.cc:236-250 | takes off -eed, -ed and -ing in place as specified |
| PorterStemmer.Stemmer.Step1aInPlace | public/util/string/porter_stemmer.cc:231-236 | takes off plurals in place as specified |
| PorterStemmer.Stemmer.Step5InPlace | public/util/string/porter_stemmer.cc:353-362 | takes off a final -e and undoubles -ll in place as specified |
| PorterStemmer.Stemmer.SetTo | public/util/string/porter_stemmer.cc:196-201 | replaces what follows the mark and writes nothing else |
| PorterStemmer.Stemmer.SwitchOn | public/util/string/porter_stemmer.cc:265-348 | in place, the first matching rule of the whole table, whatever lies before the buffer |
| PorterStemmer.Stemmer.Steps | public/util/string/porter_stemmer.cc:371-383 | all six steps in place are the specified stem, and nothing after the word is written |
| PorterStemmer.Stem | public/util/string/porter_stemmer.cc:371-383 | the new end lies between 0 and the old one, the word up to it is the specified stem, and nothing after the old end is written, whatever lies before the buffer |
| PorterStemmer.StemTerm | public/util/string/porter_stemmer.cc:400-405 | the stem of a string |

## Left out

- TwoWayComplete.NotFoundIsRight: the condition on the input is sufficient and each part of it is needed, but an input that fails it may still be searched rightly; which of these are depends on the two estimates.
- TwoWayBest.FoundIsCheapest: the same holds of its condition on the input; the exact condition, `CheapestIffApart`, is about the last states of the run.
- Weak duplicates (`StrongDuplicate` returning false) and the parent links they add.
- The arguments of expansion and of the target test other than the node itself, and the debug tracking of the best cost so far.
- The flags for one-way, forward and reverse search, which are a constructor parameter here, and `ReplaceItem` of the heap.
- Rounding of floating-point costs, distances and scores, which are reals here.
- Overflow of machine integers in the heap, the counter and the caches (times, interval lengths, the 32-bit number of bins a ring turns, the product of lifetime and a million).
- The copy constructor of the recency cache, hit statistics, and `get` callbacks that throw.
- The format of cached files and failures to write them: a file is the map it holds. Flushing with a probability is the same step taken or not taken.
- Locks of the group cache below the level of one operation: one operation on one shard is one step, and so is one round of eviction.
- Metrics of the counter other than the count (minimum and maximum do not subtract).
- Sorting, truncating and deduplicating the result of a place lookup after the nine cells are read; adding to an index without clearing it; the distance on the surface, which is a parameter.
- Local vectors that the library changes through a reference (plans, results of lookups, the stack and board of the variants) are values here: a method returns the new vector, so aliasing between them is not modelled.
- Splitting a phrase into words, which is a parameter of the enumeration of variants, and the normalization of dictionary entries.
- Escaping in JSON style, which is lossy.
- A backslash as the very last byte of an escaped string: the library reads past the end of the text, the model stops there with no result.
- A zero byte as the delimiter of rows: it also ends the text, and the library would read past that.
- Field types of rows other than strings and 32-bit numbers, and headers.
- Networking, HTTP, files, logging, flags, factories, region tables, snippets and scoring: plumbing or data.
