# Ticket auto-assignment, modelled in Dafny

This project models the scheduling core of the Ticket API service (`server.js`). The
service reads agent and ticket records from a document store. It assigns every ticket
marked `"Auto Assign"` to an available agent, choosing greedily by least load. It also
reports how many tickets each agent holds.

The model covers four pieces:

- **Availability filter** (`Availability`). An agent is available at `now` when
  `shiftStart <= now < shiftEnd` and its status is not `"Offline"`. The filter keeps
  the available agents in their original order.
- **Load counting** (`Loads`). This is one pass over the tickets that bumps a
  per-key count. A ticket with no agent is counted under a fallback bucket:
  `"Unassigned"` in the report (`aggregateTicketsByAgent`) and `"Auto Assign"` in the
  scheduler. `TicketCounts` is the reference meaning: each key that occurs, mapped to
  its number of tickets. The loop `CountTicketsByKey` is proved to compute it.
- **Stable sort by load** (`LoadSort`). This is `availableAgents.sort(...)` on the
  agent array, done in place. The model defines the sort as insertion sort
  (`SortByLoad`) and sorts the array in place (`SortByLoadInPlace`). It proves the
  result is ordered by load, keeps agents of equal load in their relative order, and
  is the only arrangement with both properties. So any stable sort gives the same
  array.
- **Assignment loop** (`Scheduler`). `Decide` and `Run` are the reference definition
  of one scheduling run. `AutoAssignTickets` is the loop as the source performs it: a
  mutable agent array that every sentinel ticket re-sorts in place, a load map that
  is bumped for the chosen agent, and a queue of output records in input order.

Encoding choices:

- Timestamps are integer seconds.
- `now` is a parameter.
- An absent or falsy `assigned_agent` or `status` is the empty string.
- `due_date` is kept as raw seconds.

Ties are broken by the order left by the previous sort, not by the original agent
order. The array is re-sorted in place for every sentinel ticket. So with two idle
agents A and B and three sentinel tickets, the code yields A, B, B. Breaking ties by
the original agent order would give A, B, A instead. `Scheduler.TieBreakScenario`
proves A, B, B.

## Model

| member | source | states |
|---|---|---|
| `Availability.AvailableAgents` | server.js:187-189 | the result holds exactly the input agents with `shiftStart <= now < shiftEnd` and status not "Offline", each with its original multiplicity, and is no longer than the input |
| `Availability.AvailableAgentsAppend` | server.js:187-189 | filtering distributes over concatenation, so kept agents keep their original relative order |
| `Availability.ShiftBoundaries` | server.js:188 | the window is half-open: available at `shiftStart`, unavailable at `shiftEnd` and just before `shiftStart` |
| `Loads.CountTicketsByKey` | server.js:124-133 | the counting loop returns exactly `TicketCounts`: each occurring key (`KeyOf`: the agent, or the fallback bucket for a falsy one) mapped to its number of tickets |
| `Loads.AggregateTicketsByAgent` | server.js:121-136 | the report's count is `TicketCounts` with fallback "Unassigned" |
| `Loads.TicketCountsSnoc` | server.js:127-132 | counting one more ticket raises its key by one, or creates it at 1, and leaves all other keys alone |
| `Loads.OccurrencesPositive` | server.js:128-131 | a key has a positive count exactly when some ticket is counted under it |
| `Loads.CountsMeaning` | server.js:126-133 | every present count is at least 1; absent keys have no tickets; a falsy agent is counted under the fallback and a real one under its own name |
| `Loads.CountsSumToTicketCount` | server.js:124-133 | the counts sum to the number of tickets |
| `Loads.OccurrencesPermutation` | server.js:126-133 | a key's count is the same for any reordering of the tickets |
| `Loads.CountsOrderIndependent` | server.js:126-133 | the whole count map does not depend on ticket order |
| `Loads.CallSitesDifferOnlyInFallback` | server.js:192-200 | the scheduler's initial map matches the report's count except for agentless tickets: they add to "Auto Assign" instead of "Unassigned"; every other key agrees |
| `Loads.TotalBump` | server.js:214 | raising one key by one (or creating it at 1) raises the map's total by exactly one |
| `LoadSort.InsertStable` | server.js:208-210 | inserting an agent into the list keeps each load class (the agents of one load) in its order, with the new agent placed last in its own class |
| `LoadSort.SortStable` | server.js:208-210 | the sort is stable: for every load, the agents with that load appear in the sorted array in the same relative order as before the sort |
| `LoadSort.StableSortIsUnique` | server.js:208-210 | any load-ordered arrangement that keeps every load class in its original order equals `SortByLoad`: the stable sort's result is determined, whatever algorithm the engine uses |
| `LoadSort.SortByLoadIsSortedPermutation` | server.js:208-210 | the sorted array is ordered by non-decreasing load and is a permutation of the input |
| `LoadSort.FirstLeastLoadedIndex` | server.js:208-212 | returns the index of an agent whose load is at most everyone's, with every earlier agent strictly more loaded |
| `LoadSort.SortHeadIsFirstLeastLoaded` | server.js:208-212 | element 0 after the sort is the first least-loaded agent of the array as it was before the sort (stability) |
| `LoadSort.SortByLoadInPlace` | server.js:208-210 | the array afterwards holds the stable sort of its old contents |
| `LoadSort.InsertInPlace` | server.js:208-210 | one insertion step: the prefix `a[..i+1]` becomes `old(a[..i])` with `old(a[i])` inserted after every agent of no greater load; the rest is unchanged |
| `Scheduler.Decide` | server.js:204-218 | one ticket's decision leaves the agent array a permutation of what it was |
| `Scheduler.DecideChoosesFirstLeastLoaded` | server.js:207-214 | a sentinel ticket with agents available goes to the first least-loaded agent of the array as the previous ticket left it, and only that agent's count rises by one |
| `Scheduler.Run` | server.js:203-232 | one record per ticket, and the agent array stays a permutation of the available agents |
| `Scheduler.RunPrefix` | server.js:203-232 | handling the first `j` tickets yields the first `j` records of the full queue: later tickets never rewrite earlier records |
| `Scheduler.RunStep` | server.js:203-232 | record `i` is decided from the state left by tickets `0..i-1`, and that decision gives the state before ticket `i+1` |
| `Scheduler.AutoAssign` | server.js:183-234 | the run starts from `InitialState` (the available agents, and the counts with "Auto Assign" as fallback); the queue has one record per ticket (`Summarize`), in input order, with title and due date copied and status defaulted to "Pending"; a ticket whose agent is not exactly "Auto Assign" keeps it |
| `Scheduler.GreedyAssignment` | server.js:207-214 | for a run from any state with some agent (the scheduler's starts with the available agents), a sentinel ticket goes to an agent of that pool whose load is at most every pool agent's; ties go to the first such agent in the order the previous sort left; that agent's count rises by one and no other count changes |
| `Scheduler.RunWithoutAgents` | server.js:215-217 | with no agent in the array, every ticket keeps its agent and the state does not change |
| `Scheduler.NoAvailableAgents` | server.js:207-217 | with no available agent, sentinel tickets stay "Auto Assign", every other ticket keeps its agent, and the final load map equals the initial count |
| `Scheduler.RunWithoutSentinel` | server.js:204-206 | tickets without the exact sentinel change nothing: each keeps its agent, and neither agent order nor any load moves |
| `Scheduler.RunAddsOnePerSentinel` | server.js:206-214 | with agents available, the loads' total grows by exactly the number of sentinel tickets |
| `Scheduler.TieBreakScenario` | server.js:208-212 | two idle agents A, B and three sentinel tickets are assigned A, B, B |
| `Scheduler.AssignTicket` | server.js:204-218 | the loop body for one ticket agrees with `Decide` on the chosen agent, the new array order and the new load map |
| `Scheduler.AutoAssignTickets` | server.js:179-235 | the imperative run (in-place re-sorting, load bumps, queue pushes) returns exactly the reference queue `AutoAssign` |

## Left out

- Express setup, the HTTP routes and the HTML landing page: HTTP plumbing with no scheduling logic.
- Reading agents and tickets from Firestore: they arrive as input sequences. The 500 responses for a failed read are not modelled.
- `saveAssignedTicketToFirestore`, including its `assigned_at` timestamp: this is a fire-and-forget asynchronous write whose errors are only logged. It does not affect the returned queue.
- `Date.now()`: the current time in whole seconds is the parameter `now`.
- `toLocaleString()` on the due date: locale-dependent formatting. The record carries the due date as raw seconds.
- Missing `shift_start`, `shift_end` or `due_date`: the source throws and aborts the whole run. These fields are always present in the model's records.
- Falsy values other than absent or empty (`null`, `0`, `false`): all are the empty string in the model. Non-string values (such as a numeric agent name, which the source would count and report under its string form) are outside the model.
- The counts live in a plain JavaScript object. So an agent key that names an `Object.prototype` property (such as `"constructor"`) starts out truthy and is miscounted. The model treats every key as an ordinary map key.
- Console logging.
- Concurrent scheduling runs and the order of the asynchronous saves: out of scope for a single sequential run.

