/** Which agents may receive tickets at a given time (the filter at the top of
    `autoAssignTickets`). */
module Availability {
  import opened TicketTypes

  /** An agent is available at `now` when `now` lies in the half-open shift window
      [shiftStart, shiftEnd) and its status is anything but "Offline". */
  predicate IsAvailable(a: Agent, now: int)
  {
    a.shiftStart <= now && now < a.shiftEnd && a.status != OfflineStatus
  }

  /** `agents.filter(IsAvailable)`: the available agents, in their original order. */
  function AvailableAgents(agents: seq<Agent>, now: int): (r: seq<Agent>)
    ensures |r| <= |agents|
    ensures forall a :: a in r <==> a in agents && IsAvailable(a, now)
    ensures forall a :: multiset(r)[a] == if IsAvailable(a, now) then multiset(agents)[a] else 0
  {
    if agents == [] then []
    else
      var rest := AvailableAgents(agents[1..], now);
      assert agents == [agents[0]] + agents[1..];
      if IsAvailable(agents[0], now) then [agents[0]] + rest else rest
  }

  /** Filtering distributes over concatenation: the relative order of the kept agents
      is the order they had in the input. */
  lemma {:induction false} AvailableAgentsAppend(xs: seq<Agent>, ys: seq<Agent>, now: int)
    ensures AvailableAgents(xs + ys, now) == AvailableAgents(xs, now) + AvailableAgents(ys, now)
  {
    if xs == [] {
      assert xs + ys == ys;
    } else {
      assert (xs + ys)[1..] == xs[1..] + ys;
      AvailableAgentsAppend(xs[1..], ys, now);
    }
  }

  /** The shift window's boundaries: the start second counts as on shift, the end
      second does not. */
  lemma ShiftBoundaries(a: Agent)
    requires a.shiftStart < a.shiftEnd && a.status != OfflineStatus
    ensures IsAvailable(a, a.shiftStart)
    ensures !IsAvailable(a, a.shiftEnd)
    ensures !IsAvailable(a, a.shiftStart - 1)
  {
  }
}
