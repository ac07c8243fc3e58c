# Airport taxiing and aircraft maintenance, modelled in Dafny

The repository solves two airport problems.

- **Taxiing (part 2).** Several aircraft move on a grid map from their start cells to their
  goal cells in synchronous time steps. A joint A* search explores all aircraft together. Each
  step every aircraft waits or moves one cell (up, down, left, right). An aircraft may not enter
  a `G` cell, may not wait on an `A` cell, stays on its goal once there, never shares a cell
  with another aircraft and never swaps cells with one. The estimate is the sum or the maximum
  of the Manhattan distances to the goals. `parte-2/ASTARRodaje.py` keeps its open list as a
  Python list, stably re-sorted by priority before every pop, and gives up after 100000
  expansions. `p2.py` keeps it as a binary heap of `(priority, counter, node)` tuples and has no
  ceiling.
- **Maintenance (part 1).** Aircraft (`ID-TIPO-RESTR-T1-T2`) are assigned, per time slot, to a
  standard workshop, a specialist workshop or a parking. A constraint solver enumerates the
  assignments that a handful of constraint predicates accept. `parte-1/CSPMaintenance.py` and
  `probando.py` hold two versions of the same predicates. The root `CSPMaintenance.py` is a third
  version with per-aircraft domains and different constraints.

The Dafny project models both cores as pure functions, plus loop methods where the source's
loops are the point.

| file | module | what it holds |
|---|---|---|
| `wrappers.dfy` | `Wrappers` | `Option` and `Result` |
| `airfield.dfy` | `Airfield` | cells, the map of cell tokens, bounds, Manhattan distance |
| `heuristics.dfy` | `Heuristics` | the summed and maximum Manhattan estimates; `max([])` fails as `None` |
| `movement.dfy` | `Movement` | one aircraft's valid moves, in the source's order, and the goal lock |
| `collisions.dfy` | `Collisions` | the shared-cell test `len(set(...))` and the pairwise swap loop |
| `combinations.dfy` | `Combinations` | `itertools.product` over the per-aircraft candidate lists |
| `successors.dfy` | `Successors` | successor generation: candidates, product, both filters, new logs |
| `plans.dfy` | `Plans` | start and goal nodes; valid plans as the logs record them; reachability |
| `frontier.dfy` | `Frontier` | the stable sort by priority and the heap's tuple-minimum pop |
| `search.dfy` | `Search` | both A* loops, the list search with a ceiling and the heap search with fuel |
| `agreement.dfy` | `Agreement` | the two searches return the same outcome, short of the list search's ceiling |
| `loading.dfy` | `Loading` | the input checks of `read_input`, `select_heuristic`, and the runner up to the search |
| `workshops.dfy` | `Workshops` | aircraft, layout, and a statement of what each maintenance constraint demands |
| `scheduler.dfy` | `Scheduler` | the predicates of `parte-1/CSPMaintenance.py` as loop methods |
| `probando.dfy` | `Probando` | the predicates of `probando.py` as folds |
| `records.dfy` | `Records` | `extract_aircraft`: strip, split on `-`, `int()`; the header the results file writes |
| `assignment.dfy` | `Assignment` | the root `CSPMaintenance.py`: parsing, domains and its five constraints |

The search is modelled as follows.

- A search node holds positions, a time step and one log per aircraft. A log entry is a token:
  the origin cell, or a direction label with the cell reached.
- A queued entry is `(priority, counter, node)`, and the search loop is a function over an
  open-list record.
- Both loops share the body after the pop:
  - the goal test;
  - the closed-set test on `(positions, time)`;
  - the expansion count;
  - for the list search only, the ceiling;
  - the pushes.
- `Frontier.PopsAgree` shows that the head of the stably sorted list is the entry the heap pops,
  because the counters are unique and increase with every push.
- `Agreement.SearchesAgree` lifts that to the whole searches.

For maintenance, `Workshops` states each constraint once as a predicate. `Scheduler` and
`Probando` are each proved to accept exactly the assignments that statement accepts, so the two
versions accept the same assignments. The root version in `Assignment` is related to the same
statements where it agrees with them, and shown to differ where it does not.

## Model

| member | source | states |
|---|---|---|
| `Heuristics.SumManhattan` | parte-2/ASTARRodaje.py:8-12 | the summed estimate is zero exactly when every aircraft that `zip` pairs with a goal stands on it, and it is never below any one aircraft's distance |
| `Heuristics.MaxManhattan` | parte-2/ASTARRodaje.py:15-20 | the maximum estimate is undefined (Python's `max` raises) exactly when `zip` pairs nothing; otherwise it is one of the distances and no distance exceeds it |
| `Heuristics.MaxAtMostSum` | p2.py:34-41 | on a non-empty list the maximum estimate is defined, never exceeds the summed one, and is zero exactly when every aircraft is on its goal |
| `Heuristics.Estimate` | parte-2/ASTARRodaje.py:182-185 | the chosen estimate fails only for the maximum over no aircraft, and is zero exactly when every aircraft is on its goal |
| `Movement.KeepEnterable` | parte-2/ASTARRodaje.py:30-31 | the filtered offsets are exactly the candidates in bounds and not `G`, each taken from the candidate list |
| `Movement.ValidMoves` | parte-2/ASTARRodaje.py:24-34 | a cell is a valid move exactly when it is the current cell of a non-`A` cell, or an in-bounds non-`G` orthogonal neighbour; staying comes first exactly when waiting is allowed; the moves follow the offset order right, left, down, up |
| `Movement.RankIncreasing` | parte-2/ASTARRodaje.py:28-31 | filtering keeps the neighbours in the offset order of the source |
| `Movement.Candidates` | parte-2/ASTARRodaje.py:49-54 | an aircraft on its goal has the single candidate of staying; every candidate is in bounds and is the current cell or one step away |
| `Collisions.Cells` | parte-2/ASTARRodaje.py:58 | `set(new_positions)` holds exactly the cells of the list |
| `Collisions.CellsSizeDetectsSharing` | parte-2/ASTARRodaje.py:58-59 | the set is never larger than the list, and is as large exactly when no two aircraft share a cell |
| `Collisions.PartnerFrom` | parte-2/ASTARRodaje.py:63-66 | the inner loop finds a swap exactly when some later aircraft from its start index exchanges cells with aircraft `i` |
| `Collisions.SwapFrom` | parte-2/ASTARRodaje.py:62-68 | the outer loop with its breaks finds a swap exactly when some pair `a < b` from its start index exchanges cells |
| `Collisions.HasSwap` | parte-2/ASTARRodaje.py:61-71 | the cross-collision flag is set exactly when some pair of aircraft exchanges cells |
| `Collisions.NoSwapAnyOrder` | parte-2/ASTARRodaje.py:63-64 | scanning only pairs `i < j` misses no exchanging pair in either order |
| `Combinations.PrependAllMembers` | parte-2/ASTARRodaje.py:56 | the combinations that start with `a` are exactly `a` before each completion |
| `Combinations.Spread` | parte-2/ASTARRodaje.py:56 | every first choice is combined with every completion, and nothing else is produced |
| `Combinations.SpreadIsPicks` | parte-2/ASTARRodaje.py:56 | spreading the first candidates over the picks of the rest gives exactly the picks of all |
| `Combinations.Product` | parte-2/ASTARRodaje.py:56 | `product(*candidates)` holds exactly the combinations that take, for each aircraft, one of its candidates |
| `Successors.DirectionOfStep` | parte-2/ASTARRodaje.py:75-76 | on a wait or a single step the label is `w` exactly for staying, and each arrow exactly for its offset |
| `Successors.Survivors` | parte-2/ASTARRodaje.py:56-71 | the kept combinations are exactly those with no shared cell and no exchanged pair |
| `Successors.SurvivorIsSuccessor` | parte-2/ASTARRodaje.py:56-83 | a node built from a collision-free pick of candidates is a successor |
| `Successors.ExpandedAreSuccessors` | parte-2/ASTARRodaje.py:73-83 | every node built from the survivors is a successor |
| `Successors.SuccessorKeepsGoal` | parte-2/ASTARRodaje.py:50-51 | an aircraft on its goal is still on it in every successor |
| `Successors.ExpandedKeepGoals` | parte-2/ASTARRodaje.py:49-54 | no generated node moves an aircraft off its goal |
| `Successors.ExpandedComplete` | parte-2/ASTARRodaje.py:56-83 | every collision-free pick of candidates yields a generated node |
| `Successors.Generate` | parte-2/ASTARRodaje.py:38-85 | `generate_successors` yields only successors (legal moves, no shared cell, no swap, goal lock, time plus one, logs extended) and misses none |
| `Plans.InitialReached` | parte-2/ASTARRodaje.py:98-102 | the start node is reached by the empty plan |
| `Plans.ReachedInsideMap` | parte-2/ASTARRodaje.py:24-31 | every cell of a reached node is inside the map |
| `Plans.SuccessorLogFacts` | parte-2/ASTARRodaje.py:73-83 | a successor's logs extend its parent's by exactly one legal step |
| `Plans.SuccessorReached` | parte-2/ASTARRodaje.py:79-83 | a successor of a reached node is reached: its logs are a valid plan ending in its positions |
| `Plans.PlanCollisionFree` | parte-2/ASTARRodaje.py:56-71 | in a valid plan from distinct starts, no two aircraft ever share a cell and no pair ever swaps |
| `Frontier.Insert` | parte-2/ASTARRodaje.py:115 | one insertion step of the sort adds exactly the entry |
| `Frontier.InsertSorted` | parte-2/ASTARRodaje.py:115 | inserting into a sorted list keeps it sorted by priority |
| `Frontier.SortByPriority` | parte-2/ASTARRodaje.py:115 | `queue.sort(key=priority)` is a permutation of the queue, sorted by priority |
| `Frontier.InsertKeepsGroups` | parte-2/ASTARRodaje.py:115 | insertion puts the entry in front of its own priority group and leaves the other groups alone |
| `Frontier.SortIsStable` | parte-2/ASTARRodaje.py:115 | the sort keeps every priority group in its original order, as Python's sort does |
| `Frontier.StableSortUnique` | parte-2/ASTARRodaje.py:115 | two sorted lists with the same priority groups are equal, so any stable sort gives the list modelled |
| `Frontier.FifoAppend` | parte-2/ASTARRodaje.py:132-135 | pushing entries numbered past every queued counter keeps equal priorities in push order |
| `Frontier.SortKeepsFifo` | parte-2/ASTARRodaje.py:115-116 | sorting keeps equal priorities in push order |
| `Frontier.MinIndex` | p2.py:115 | `heappop` takes an entry that no queued entry precedes in `(priority, counter)` order |
| `Frontier.RemoveAt` | p2.py:115 | the pop leaves the other entries exactly |
| `Frontier.SortedHeadIsLexMin` | parte-2/ASTARRodaje.py:115-116 | with ties in push order, the sorted head precedes every other entry in `(priority, counter)` order |
| `Frontier.PopsAgree` | p2.py:114-115 | the list search's pop and the heap's pop take the same entry and leave the same entries |
| `Search.Cost` | parte-2/ASTARRodaje.py:134 | a push priority is never below the node's time, and equals it exactly when the node is the goal configuration |
| `Search.AllAtGoalIsEquality` | parte-2/ASTARRodaje.py:119 | the goal test `positions == goal` holds exactly when every aircraft is on its goal |
| `Search.PushedFacts` | parte-2/ASTARRodaje.py:132-135 | pushed entries carry reached nodes and counters past the old one, in push order |
| `Search.ExpandSound` | parte-2/ASTARRodaje.py:122-135 | closing a new key and pushing the successors keeps the loop invariant |
| `Search.AfterPopDone` | parte-2/ASTARRodaje.py:119-130 | the loop body returns either a solution or, at the ceiling, no solution after exactly one expansion too many |
| `Search.AfterPopContinue` | parte-2/ASTARRodaje.py:122-135 | a continuing loop body keeps the invariant, and either closes one more key or shrinks the open list |
| `Search.ListPop` | parte-2/ASTARRodaje.py:115-116 | the list pop takes a reached node and leaves a good queue |
| `Search.ListStepDone` | parte-2/ASTARRodaje.py:114-137 | a list-search iteration that returns gives a solution within the ceiling, an exhausted list, or the ceiling |
| `Search.ListStepContinue` | parte-2/ASTARRodaje.py:114-135 | a continuing list-search iteration keeps the invariant and makes progress |
| `Search.ListStepFifo` | parte-2/ASTARRodaje.py:114-135 | a list-search iteration keeps equal priorities in push order |
| `Search.HeapStep` | p2.py:114-132 | a heap-search iteration returns only solutions, and otherwise keeps the invariant |
| `Search.ListRun` | parte-2/ASTARRodaje.py:114-137 | the list loop returns a solution within the ceiling, or no solution with at most one expansion over the ceiling, and always the initial estimate |
| `Search.HeapRun` | p2.py:114-134 | the heap loop returns solutions only, with the initial estimate, and never fails the estimate |
| `Search.StartSound` | parte-2/ASTARRodaje.py:105-108 | the open list holding only the start node pushed with counter 0 meets the loop invariant |
| `Search.EstimateDefined` | parte-2/ASTARRodaje.py:107 | the initial estimate fails exactly for the maximum over no aircraft |
| `Search.AStar` | parte-2/ASTARRodaje.py:94-137 | `a_star`: a returned plan is a solution within the ceiling; the reported initial estimate is the start's; an unsuccessful run expands at most one node over the ceiling; only the maximum over no aircraft fails |
| `Search.HeapAStar` | p2.py:96-134 | `a_estrella`: a returned plan is a solution; the reported initial estimate is the start's; only the maximum over no aircraft fails |
| `Search.StartOnGoal` | parte-2/ASTARRodaje.py:119-120 | when every aircraft starts on its goal, both searches return the start logs at makespan 0 with no expansion |
| `Agreement.GoalPopsAgree` | p2.py:119-120 | popping the goal returns the same plan in both searches |
| `Agreement.ClosedPopsAgree` | p2.py:122-124 | both searches skip a closed key and change nothing else |
| `Agreement.CeilingPop` | parte-2/ASTARRodaje.py:126-130 | the list search stops with no solution when one more expansion would pass the ceiling |
| `Agreement.ExpandPopsAgree` | p2.py:122-132 | below the ceiling both searches expand the popped node, to open lists with the same entries |
| `Agreement.ExpandsAgree` | p2.py:125-132 | expanding one node from open lists with the same entries gives open lists with the same entries |
| `Agreement.StepsAgree` | p2.py:114-132 | one iteration of each search from open lists with the same entries ends alike, short of the ceiling |
| `Agreement.PairedStep` | p2.py:114-132 | a continuing iteration keeps the two open lists paired and makes progress on the list side |
| `Agreement.PairedDone` | p2.py:119-134 | an iteration that returns, short of the ceiling, returns the same from both searches |
| `Agreement.Advance` | p2.py:114-134 | one iteration of both searches either ends alike or leads to paired open lists closer to the end |
| `Agreement.RunsAgree` | p2.py:114-134 | from paired open lists, the heap search given enough iterations returns what the list search returns, unless that stopped at its ceiling |
| `Agreement.SearchesAgree` | p2.py:96-134 | `a_estrella` and `a_star` return the same outcome whenever `a_star` does not stop at its ceiling |
| `Loading.StartsBeforeHas` | parte-2/ASTARRodaje.py:157-170 | the set of starts seen so far holds exactly the starts of the earlier aircraft |
| `Loading.CheckFromAccepts` | parte-2/ASTARRodaje.py:160-170 | the aircraft loop accepts from an index exactly when the later aircraft have valid endpoints and starts apart from all others |
| `Loading.CheckFromStep` | parte-2/ASTARRodaje.py:165-170 | one turn of the loop passes exactly when the start is new and both endpoints are on the map and not `G` |
| `Loading.CheckAgentsAccepts` | parte-2/ASTARRodaje.py:160-176 | `read_input` accepts the aircraft exactly when the starts are pairwise different and no start or goal is off the map or `G`, and then keeps the list unchanged |
| `Loading.CheckFromRefuses` | parte-2/ASTARRodaje.py:165-168 | a refusal names a repeated start, an endpoint off the map or an endpoint on `G` of some aircraft |
| `Loading.AcceptedStartsInsideMap` | parte-2/ASTARRodaje.py:165-170 | accepted aircraft start inside the map on pairwise different cells |
| `Loading.SelectHeuristic` | parte-2/ASTARRodaje.py:178-189 | 1 selects the summed estimate, 2 the maximum, and every other number is refused |
| `Loading.Run` | parte-2/ASTARRodaje.py:144-146 | the runner searches exactly when the input checks and the heuristic number pass; a returned plan is a collision-free solution; the search never runs out of fuel and fails only for the maximum over no aircraft |
| `Workshops.DomainHas` | parte-1/CSPMaintenance.py:152 | the domain holds exactly the parkings, standard and specialist workshops |
| `Workshops.NeighboursAreAdjacent` | parte-1/CSPMaintenance.py:244-245 | the listed neighbours are exactly the cells at distance one |
| `Workshops.IsolatedCellIsSurrounded` | parte-1/CSPMaintenance.py:263-267 | an occupied domain cell with no domain neighbour counts as closed in, because `all` over nothing is true |
| `Workshops.IndexOf` | parte-1/CSPMaintenance.py:209 | `aircrafts.index(aircraft)` is the first position holding an equal aircraft |
| `Workshops.SlotsOf` | parte-1/CSPMaintenance.py:208-209 | an aircraft's block of the flat assignment has one cell per time slot |
| `Workshops.JumboCellsHas` | parte-1/CSPMaintenance.py:241-242 | the jumbo cell list holds exactly the cells of the jumbos that `zip` pairs with a cell |
| `Workshops.JumboListView` | parte-1/CSPMaintenance.py:241-248 | judging the jumbo cell list is judging the jumbos themselves |
| `Workshops.LabelOf` | parte-1/CSPMaintenance.py:134-139 | a cell is labelled `SPC` exactly when it is a specialist workshop, `STD` exactly when it is only a standard one, and never unknown |
| `Scheduler.MaxOneJumboPerWorkshop` | parte-1/CSPMaintenance.py:159-172 | accepts exactly when no two jumbos paired with cells share one |
| `Scheduler.MaxTwoPerWorkshop` | parte-1/CSPMaintenance.py:180-191 | accepts exactly when no cell holds more than two aircraft |
| `Scheduler.AircraftTasks` | parte-1/CSPMaintenance.py:204-228 | one aircraft's turn accepts exactly when a restricted aircraft never enters a standard workshop with specialist tasks outstanding, it spends at least `T2` slots in specialist workshops, and at least `T1 + T2` in workshops |
| `Scheduler.TaskConstraints` | parte-1/CSPMaintenance.py:199-230 | accepts exactly when every aircraft's demand holds over the block of the first aircraft equal to it |
| `Scheduler.JumboNextTo` | parte-1/CSPMaintenance.py:245-248 | finds exactly a neighbour that is a domain cell holding a jumbo |
| `Scheduler.NoAdjacentJumbo` | parte-1/CSPMaintenance.py:237-249 | accepts exactly when no jumbo has a domain neighbour holding a jumbo |
| `Scheduler.NoAdjacentOccupancy` | parte-1/CSPMaintenance.py:257-268 | accepts exactly when every occupied domain cell has a free domain neighbour |
| `Probando.CountsStep` | probando.py:121 | incrementing a `defaultdict` counter keeps every count equal to the occurrences so far |
| `Probando.MaxTwoFromSays` | probando.py:120-123 | the capacity loop from any index, with the counts of the prefix, decides the capacity constraint |
| `Probando.MaxTwoSays` | probando.py:118-124 | accepts exactly when no cell holds more than two aircraft |
| `Probando.MaxOneJumboFromSays` | probando.py:129-133 | the jumbo loop from any index, with the counts of the earlier jumbos, decides the jumbo constraint |
| `Probando.MaxOneJumboSays` | probando.py:127-134 | accepts exactly when no two jumbos paired with cells share one |
| `Probando.TallyFromSays` | probando.py:148-162 | the slot loop runs to its end exactly when the order rule holds, and then holds both workshop counts |
| `Probando.AircraftOkSays` | probando.py:144-168 | one aircraft's turn accepts exactly that aircraft's maintenance demand |
| `Probando.TasksFromSays` | probando.py:143-168 | the aircraft loop from any aircraft accepts exactly when that aircraft and all later ones are served |
| `Probando.TasksSays` | probando.py:142-170 | `task_constraints` accepts exactly when every aircraft's demand is met, as in the first version |
| `Probando.AllTakenSays` | probando.py:182 | the `all` test holds exactly when every neighbour in the domain is occupied |
| `Probando.OccupancyFromSays` | probando.py:178-183 | the occupancy loop from any index accepts exactly when none of the later occupied domain cells is closed in |
| `Probando.OccupancySays` | probando.py:176-184 | accepts exactly when every occupied domain cell has a free domain neighbour |
| `Probando.AnyJumboNextSays` | probando.py:196 | the `any` test holds exactly when some neighbour in the domain holds a jumbo |
| `Probando.NoJumboNextFromSays` | probando.py:193-197 | the jumbo loop from any index accepts exactly when none of the later jumbos has a jumbo as a domain neighbour |
| `Probando.NoJumboNextSays` | probando.py:191-198 | accepts exactly when no jumbo has a domain neighbour holding a jumbo |
| `Records.FirstIndex` | parte-1/CSPMaintenance.py:86 | the first separator is found with none before it |
| `Records.Split` | parte-1/CSPMaintenance.py:86 | `split("-")` gives at least one piece, none holding a separator |
| `Records.JoinSplit` | parte-1/CSPMaintenance.py:86 | joining the pieces of a split gives the line back |
| `Records.SplitJoin` | parte-1/CSPMaintenance.py:86 | splitting a join of separator-free pieces gives the pieces back |
| `Records.Strip` | parte-1/CSPMaintenance.py:86 | `strip()` leaves no blank at either end |
| `Records.StripSlice` | parte-1/CSPMaintenance.py:86 | stripping removes only blanks, from the two ends |
| `Records.StripKeeps` | parte-1/CSPMaintenance.py:86 | a text with no blank at its ends is unchanged by stripping |
| `Records.StripIdempotent` | parte-1/CSPMaintenance.py:86 | stripping twice strips no more than once |
| `Records.ShowNat` | parte-1/CSPMaintenance.py:131 | `str(n)` writes a non-empty run of digits with no leading zero |
| `Records.ParseShow` | parte-1/CSPMaintenance.py:91-92 | `int(str(n)) == n` |
| `Records.ZerosValue` | parte-1/CSPMaintenance.py:91-92 | leading zeros do not change the value of a run of digits |
| `Records.StripPadded` | parte-1/CSPMaintenance.py:86 | stripping removes exactly the blanks around a text whose ends are not blank |
| `Records.ParsePadded` | parte-1/CSPMaintenance.py:91-92 | `int()` reads a number with any leading zeros and any `str.isspace` blanks around it as that number |
| `Records.ExtractAircraft` | parte-1/CSPMaintenance.py:82-93 | fields are read in the dictionary's order: a line is refused as short of fields exactly when it has fewer than four, or four with an integer fourth; a non-integer fourth field is refused as such; with five or more fields and an integer fourth, a non-integer fifth is refused as such, and otherwise the line is accepted with its first three fields and the integer values of the fourth and fifth |
| `Records.FourthFieldReadFirst` | parte-1/CSPMaintenance.py:91-92 | `1-JMB-T-x` is refused for its non-integer fourth field before the missing fifth is noticed |
| `Records.ExtractHeader` | parte-1/CSPMaintenance.py:130-131 | the aircraft header the results file writes reads back as the aircraft |
| `Records.ExtraFieldsIgnored` | parte-1/CSPMaintenance.py:86-93 | fields after the fifth do not change what is read |
| `Records.ReadJoined` | parte-1/CSPMaintenance.py:86-93 | a line joined from separator-free fields, with written numbers fourth and fifth, reads as those fields |
| `Assignment.ParsePlane` | CSPMaintenance.py:19-27 | fields are read in the dictionary's order: a non-integer identifier is refused first; a line is refused as short of fields exactly when its identifier is an integer and it has fewer than four fields, or four with an integer fourth; then a non-integer fourth field, then a non-integer fifth, is refused as such; a line whose identifier, fourth and fifth fields are integers and which has five fields or more is accepted with the identifier, type, restriction (true exactly for `T`) and both task counts |
| `Assignment.FieldsReadInOrder` | CSPMaintenance.py:22-26 | `abc` is refused for its non-integer identifier and `1-STD-T-x` for its non-integer fourth field, neither for missing fields |
| `Assignment.ParsePlaneFields` | CSPMaintenance.py:20-27 | a line joined from an aircraft's fields reads back as the aircraft, restricted exactly when the restriction text is `T` |
| `Assignment.ParsePlanePadded` | CSPMaintenance.py:20-26 | a line whose counts carry leading zeros, and whose fifth field ends in blanks such as `\r`, still reads back as the aircraft |
| `Assignment.FilterCounts` | CSPMaintenance.py:74-79 | the domain keeps each allowed cell as often as it is listed and drops the others |
| `Assignment.FilterIdempotent` | CSPMaintenance.py:74-79 | filtering a domain again changes nothing |
| `Assignment.FilterAppend` | CSPMaintenance.py:74-79 | filtering a concatenation filters each part in place, so the filter keeps the order of its input |
| `Assignment.FilterKeepsAllowed` | CSPMaintenance.py:74-79 | a list of allowed cells passes the filter unchanged |
| `Assignment.PlaneDomainOrder` | CSPMaintenance.py:74-79 | an aircraft's domain is every parking in order, then its allowed standard workshops, then its allowed specialist workshops, each in listed order |
| `Assignment.PlaneDomainHas` | CSPMaintenance.py:74-79 | an aircraft's domain holds exactly every parking, the standard workshops if it is `STD`, and the specialist workshops if it is restricted |
| `Assignment.CountIsMultiplicity` | CSPMaintenance.py:94 | the counted list comprehension gives the cell's number of occurrences |
| `Assignment.CapacitySays` | CSPMaintenance.py:86-96 | the capacity limits hold exactly when no workshop holds more than two aircraft; parkings are not limited |
| `Assignment.CapacityOfAtMostTwo` | CSPMaintenance.py:86-96 | the other versions' capacity constraint implies this one |
| `Assignment.ParkingsUnlimited` | CSPMaintenance.py:86 | three aircraft on one parking pass this capacity limit but not the other versions' |
| `Assignment.CapacityIgnoresOthers` | CSPMaintenance.py:86-96 | one more aircraft on a cell that is not a workshop never changes the capacity verdict |
| `Assignment.JumboVarsCount` | CSPMaintenance.py:131-134 | a cell occurs among the jumbo variables' values once per jumbo on it |
| `Assignment.JumbosOnMiss` | CSPMaintenance.py:131-137 | no jumbo is on a cell exactly when its count is zero |
| `Assignment.JumbosOnOnce` | CSPMaintenance.py:137 | at most one jumbo is on a cell exactly when no two jumbos share it |
| `Assignment.OneJumboOnStep` | CSPMaintenance.py:131-134 | adding an aircraft makes two jumbos share a cell exactly when it is a jumbo there after another |
| `Assignment.JumboCapacitySays` | CSPMaintenance.py:129-139 | the jumbo limits hold exactly when no two jumbos share a workshop; jumbos may share a parking |
| `Assignment.SpecialistFromSays` | CSPMaintenance.py:103-109 | the specialist constraints from a slot on hold exactly when every later slot is a specialist workshop |
| `Assignment.SpecialistRuleSays` | CSPMaintenance.py:101-109 | a restricted aircraft is in a specialist workshop at every slot from `T2` on; other aircraft are unconstrained |
| `Assignment.SeparatedSays` | CSPMaintenance.py:114-124 | with distinct identifiers, the pairwise rule holds exactly when the aircraft stand on distinct cells, none next to another |
| `Assignment.DistinctOnce` | CSPMaintenance.py:114-124 | cells that no two aircraft share occur once each |
| `Assignment.SeparatedWithinCapacity` | CSPMaintenance.py:114-124 | a separated slot meets every version's capacity limit |
| `Assignment.RootLabelAgrees` | CSPMaintenance.py:44-51 | this version's label matches the first version's exactly for domain cells not on both workshop lists, and is `UNK` exactly off the domain |

## Left out

- File reading, CSV writing, printing, timing, `sys.argv` and `sys.exit`. A run is a function of
  the loaded map, the aircraft and the heuristic number.
- The regular-expression position parser `extract_positions` and the coordinate parsing of
  `read_input` and `leer_mapa_csv`. The model starts from parsed cells.
- The constraint-solver library (`Problem`, `addVariable`, `addConstraint`, `getSolutions`). It
  is not part of this model. Each constraint predicate is modelled on the values it is given, and
  the order in which the solver enumerates domains and solutions is not modelled.
- The text of the move log. A log entry is a token (origin cell, or direction and cell), not the
  formatted string `"→ (x,y)"`.
- `p2.py` has no expansion ceiling, so its loop is bounded by a `fuel` argument. `OutOfFuel`
  means the bound ran out, not that the program stops; `Agreement.SearchesAgree` supplies enough
  fuel.
- Search.AStar: requires the starts to lie inside the map. The `G` test of `read_input` at
  `parte-2/ASTARRodaje.py:167` raises an `IndexError` for a coordinate past the end, but wraps a
  negative one around the map, so such a start gets through and `a_star` searches from it.
- Search.HeapAStar: requires the starts to lie inside the map. `p2.py` reads them without any
  check, and a start off the map raises an `IndexError` in Python or, with a negative
  coordinate, wraps around.
- Loading.CheckAgents: refuses a start or goal off the map. Python would raise on a too-large
  index and would wrap a negative one to the other side of the map.
- Airfield.Rectangular: maps must be non-empty and rectangular. The source measures width by
  the first row only.
- Loading.Run: a run that finds the empty plan (no aircraft, summed estimate) is reported as
  `Found`. The runner's `if solution:` prints "no solution" for an empty list; that is report
  formatting, left out with the other output.
- Records.ParseNat: accepts only an optionally blank-padded run of ASCII digits. Python's `int`
  also takes a sign and underscores, and reads non-ASCII decimal digits.
- Records.Strip: uses the blank characters of Python's `str.isspace`, written out as a fixed
  list of code points; a future Unicode version that adds a blank is not followed.
- Probando.OccupancyFrom: iterates the list of occupied cells rather than their set. The verdict
  is the same: a repeated cell is judged twice with the same answer.
- Scheduler.AircraftTasks: the `T1` countdown of `task_constraints` is kept but never affects the
  verdict, so its contract does not mention it.
- Assignment.ParsePlaneFields: the results file writes the restriction as `True`/`False`, so a
  restricted aircraft written there would read back unrestricted. The program never reads its
  own output, so this is stated and not treated as a defect.
- The specialist rule of the root version binds slots `T2` onwards, and its capacity limits
  exempt parkings. Both are modelled as written and contrasted with the other versions
  (`Assignment.SpecialistRuleSays`, `Assignment.ParkingsUnlimited`).
- `parte-1/comparador.py`, `analisis-p1.py` and `analisis-p2.py` are measurement and comparison
  scripts outside the core.
