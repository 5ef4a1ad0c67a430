/** `autoAssignTickets`: the greedy least-loaded assignment of "Auto Assign" tickets.

    The functions below are the reference definition of one scheduling run; the
    method `AutoAssignTickets` is the run as the source performs it, on a mutable
    agent array that is re-sorted in place for every sentinel ticket. */
module Scheduler {
  import opened TicketTypes
  import opened Availability
  import opened Loads
  import opened LoadSort

  /** What the loop carries from one ticket to the next: the agent array in the
      order the last sort left it, and the ticket count per agent key. */
  datatype SchedulerState = SchedulerState(order: seq<Agent>, loads: map<string, int>)

  /** The agent a ticket ends up with, and the state for the next ticket. */
  datatype Decision = Decision(agent: string, next: SchedulerState)

  /** The queue of output records, and the state after the last ticket. */
  datatype RunResult = RunResult(queue: seq<TicketSummary>, final: SchedulerState)

  /** The output record for a ticket: title and due date copied, the resolved agent,
      and the status with "Pending" standing in for a falsy one. */
  function Summarize(t: Ticket, agent: string): TicketSummary
  {
    TicketSummary(t.title, t.dueDate, agent, OrElse(t.status, PendingStatus))
  }

  /** One iteration of the loop. A ticket that is not exactly "Auto Assign" keeps its
      agent; a sentinel ticket with no available agent stays "Auto Assign"; otherwise
      the agents are stably sorted by load, the first one gets the ticket and its
      count goes up by one. */
  function Decide(s: SchedulerState, t: Ticket): (d: Decision)
    ensures multiset(d.next.order) == multiset(s.order)
  {
    if t.assignedAgent != AutoAssignSentinel then Decision(t.assignedAgent, s)
    else if s.order == [] then Decision(AutoAssignSentinel, s)
    else
      var sorted := SortByLoad(s.order, s.loads);
      SortByLoadIsSortedPermutation(s.order, s.loads);
      var name := sorted[0].name;
      Decision(name, SchedulerState(sorted, s.loads[name := Load(s.loads, name) + 1]))
  }

  /** The loop over the tickets, in input order, from state `s`: the tickets before
      the last are handled first, then the last one is decided from the state they
      left. */
  function Run(s: SchedulerState, ts: seq<Ticket>): (r: RunResult)
    ensures |r.queue| == |ts|
    ensures multiset(r.final.order) == multiset(s.order)
    decreases |ts|
  {
    if ts == [] then RunResult([], s)
    else
      var prev := Run(s, ts[..|ts| - 1]);
      var d := Decide(prev.final, ts[|ts| - 1]);
      RunResult(prev.queue + [Summarize(ts[|ts| - 1], d.agent)], d.next)
  }

  /** The state before the first ticket: the available agents in their original
      order, and the tickets counted per agent with "Auto Assign" for none. */
  function InitialState(agents: seq<Agent>, tickets: seq<Ticket>, now: int): SchedulerState
  {
    SchedulerState(AvailableAgents(agents, now), TicketCounts(tickets, AutoAssignSentinel))
  }

  /** The queue one scheduling run returns: one record per ticket, in input order,
      title and due date copied, status defaulted to "Pending", and every ticket
      that is not exactly "Auto Assign" keeping its agent. */
  function AutoAssign(agents: seq<Agent>, tickets: seq<Ticket>, now: int): (q: seq<TicketSummary>)
    ensures |q| == |tickets|
    ensures forall i :: 0 <= i < |tickets| ==>
              && q[i].title == tickets[i].title
              && q[i].dueDate == tickets[i].dueDate
              && (tickets[i].status != "" ==> q[i].status == tickets[i].status)
              && (tickets[i].status == "" ==> q[i].status == PendingStatus)
    ensures forall i :: 0 <= i < |tickets| && tickets[i].assignedAgent != AutoAssignSentinel ==>
              q[i].assignedAgent == tickets[i].assignedAgent
  {
    var s := InitialState(agents, tickets, now);
    forall i | 0 <= i < |tickets|
      ensures Run(s, tickets).queue[i] == Summarize(tickets[i], Decide(StateAt(s, tickets, i), tickets[i]).agent)
    {
      RunStep(s, tickets, i);
    }
    Run(s, tickets).queue
  }

  /** The state of the loop just before ticket `i` is handled. */
  function StateAt(s: SchedulerState, ts: seq<Ticket>, i: int): SchedulerState
    requires 0 <= i <= |ts|
  {
    Run(s, ts[..i]).final
  }

  /** Handling a prefix of the tickets yields a prefix of the queue. */
  lemma {:induction false} RunPrefix(s: SchedulerState, ts: seq<Ticket>, j: int)
    requires 0 <= j <= |ts|
    ensures Run(s, ts[..j]).queue == Run(s, ts).queue[..j]
    decreases |ts|
  {
    if j < |ts| {
      var n := |ts| - 1;
      assert ts[..n][..j] == ts[..j];
      RunPrefix(s, ts[..n], j);
      assert Run(s, ts).queue[..j] == Run(s, ts[..n]).queue[..j];
    } else {
      assert ts[..j] == ts;
    }
  }

  /** Handling one more ticket appends its record to the queue and moves the state
      by one decision. */
  lemma RunSnoc(s: SchedulerState, ts: seq<Ticket>, t: Ticket)
    ensures var prev := Run(s, ts);
            var d := Decide(prev.final, t);
            Run(s, ts + [t]) == RunResult(prev.queue + [Summarize(t, d.agent)], d.next)
  {
    assert (ts + [t])[..|ts|] == ts;
  }

  /** Record `i` of the run is decided from the state the first `i` tickets left,
      and deciding it yields the state before ticket `i + 1`. */
  lemma RunStep(s: SchedulerState, ts: seq<Ticket>, i: int)
    requires 0 <= i < |ts|
    ensures Run(s, ts).queue[i] == Summarize(ts[i], Decide(StateAt(s, ts, i), ts[i]).agent)
    ensures StateAt(s, ts, i + 1) == Decide(StateAt(s, ts, i), ts[i]).next
  {
    RunPrefix(s, ts, i + 1);
    assert ts[..i + 1][..i] == ts[..i];
    assert Run(s, ts).queue[i] == Run(s, ts).queue[..i + 1][i];
  }

  /** The greedy choice, for a run from any state (the scheduler starts from
      `InitialState`, whose agents are the available ones). When the state has some
      agent, a sentinel ticket goes to one of those agents whose current load is at
      most that of every one of them; ties go to the first such agent in the order the
      previous sort left the array in; that agent's count rises by exactly one and no
      other count changes. */
  lemma GreedyAssignment(s: SchedulerState, ts: seq<Ticket>, i: int)
    requires 0 <= i < |ts|
    requires ts[i].assignedAgent == AutoAssignSentinel
    requires s.order != []
    ensures var before := StateAt(s, ts, i);
            var chosen := Run(s, ts).queue[i].assignedAgent;
            && multiset(before.order) == multiset(s.order)
            && before.order != []
            && var k := FirstLeastLoadedIndex(before.order, before.loads);
            && chosen == before.order[k].name
            && before.order[k] in s.order
            && (forall b :: b in s.order ==> Load(before.loads, chosen) <= Load(before.loads, b.name))
            && StateAt(s, ts, i + 1).loads == before.loads[chosen := Load(before.loads, chosen) + 1]
  {
    var before := StateAt(s, ts, i);
    RunStep(s, ts, i);
    assert |before.order| == |multiset(before.order)| == |multiset(s.order)| == |s.order|;
    var d := Decide(before, ts[i]);
    assert Run(s, ts).queue[i].assignedAgent == d.agent;
    assert StateAt(s, ts, i + 1).loads == d.next.loads;
    DecideChoosesFirstLeastLoaded(before, ts[i]);
    LeastLoadedInPool(before.order, s.order, before.loads, FirstLeastLoadedIndex(before.order, before.loads));
  }

  /** A sentinel ticket with agents to choose from: the agents are sorted, the head
      of the sorted list gets the ticket and one more unit of load. */
  lemma DecideSentinel(s: SchedulerState, t: Ticket)
    requires t.assignedAgent == AutoAssignSentinel && s.order != []
    ensures var sorted := SortByLoad(s.order, s.loads);
            var name := sorted[0].name;
            Decide(s, t) == Decision(name, SchedulerState(sorted, s.loads[name := Load(s.loads, name) + 1]))
  {
  }

  /** A sentinel ticket with agents to choose from goes to the first least-loaded
      agent of the array as the previous ticket left it, whose count rises by one. */
  lemma DecideChoosesFirstLeastLoaded(s: SchedulerState, t: Ticket)
    requires t.assignedAgent == AutoAssignSentinel && s.order != []
    ensures var d := Decide(s, t);
            && d.agent == s.order[FirstLeastLoadedIndex(s.order, s.loads)].name
            && d.next.loads == s.loads[d.agent := Load(s.loads, d.agent) + 1]
  {
    DecideSentinel(s, t);
    SortHeadIsFirstLeastLoaded(s.order, s.loads);
  }

  /** The first least-loaded agent of a rearrangement of a pool of agents belongs to
      the pool and is loaded no more than any agent of the pool. */
  lemma LeastLoadedInPool(order: seq<Agent>, pool: seq<Agent>, loads: map<string, int>, k: int)
    requires multiset(order) == multiset(pool) && FirstLeastLoaded(order, loads, k)
    ensures order[k] in pool
    ensures forall b :: b in pool ==> AgentLoad(loads, order[k]) <= AgentLoad(loads, b)
  {
    assert order[k] in multiset(order);
    forall b | b in pool ensures AgentLoad(loads, order[k]) <= AgentLoad(loads, b) {
      assert b in multiset(order);
      var j :| 0 <= j < |order| && order[j] == b;
    }
  }

  /** With no agent available, every ticket keeps its agent (sentinel tickets stay
      "Auto Assign") and the state does not change. */
  lemma {:induction false} RunWithoutAgents(s: SchedulerState, ts: seq<Ticket>)
    requires s.order == []
    ensures forall i :: 0 <= i < |ts| ==> Run(s, ts).queue[i].assignedAgent == ts[i].assignedAgent
    ensures Run(s, ts).final == s
    decreases |ts|
  {
    if ts != [] {
      var n := |ts| - 1;
      RunWithoutAgents(s, ts[..n]);
      assert forall i :: 0 <= i < n ==> ts[..n][i] == ts[i];
    }
  }

  lemma NoAvailableAgents(agents: seq<Agent>, tickets: seq<Ticket>, now: int)
    requires AvailableAgents(agents, now) == []
    ensures forall i :: 0 <= i < |tickets| ==> AutoAssign(agents, tickets, now)[i].assignedAgent == tickets[i].assignedAgent
    ensures Run(InitialState(agents, tickets, now), tickets).final.loads == TicketCounts(tickets, AutoAssignSentinel)
  {
    RunWithoutAgents(InitialState(agents, tickets, now), tickets);
  }

  /** A run over tickets none of which carries the sentinel changes nothing: each
      ticket keeps its agent, and neither the agent order nor a load moves. */
  lemma {:induction false} RunWithoutSentinel(s: SchedulerState, ts: seq<Ticket>)
    requires forall i :: 0 <= i < |ts| ==> ts[i].assignedAgent != AutoAssignSentinel
    ensures forall i :: 0 <= i < |ts| ==> Run(s, ts).queue[i].assignedAgent == ts[i].assignedAgent
    ensures Run(s, ts).final == s
    decreases |ts|
  {
    if ts != [] {
      var n := |ts| - 1;
      assert forall i :: 0 <= i < n ==> ts[..n][i] == ts[i];
      RunWithoutSentinel(s, ts[..n]);
    }
  }

  /** How many tickets carry exactly the sentinel. */
  function SentinelCount(ts: seq<Ticket>): nat
  {
    if ts == [] then 0
    else SentinelCount(ts[..|ts| - 1]) + (if ts[|ts| - 1].assignedAgent == AutoAssignSentinel then 1 else 0)
  }

  /** With some agent available, every sentinel ticket adds exactly one unit of load
      and no other ticket adds any. */
  lemma {:induction false} RunAddsOnePerSentinel(s: SchedulerState, ts: seq<Ticket>)
    requires s.order != []
    ensures Total(Run(s, ts).final.loads) == Total(s.loads) + SentinelCount(ts)
    decreases |ts|
  {
    if ts != [] {
      var n := |ts| - 1;
      var prev := Run(s, ts[..n]);
      RunAddsOnePerSentinel(s, ts[..n]);
      assert |prev.final.order| == |multiset(prev.final.order)| == |multiset(s.order)| == |s.order|;
      var d := Decide(prev.final, ts[n]);
      if ts[n].assignedAgent == AutoAssignSentinel {
        TotalBump(prev.final.loads, d.agent);
      }
    }
  }

  /** The source's loop, step by step: `availableAgents` is an array that every
      sentinel ticket re-sorts in place, and the load map is bumped for the agent
      that takes the ticket. */
  method AutoAssignTickets(agents: seq<Agent>, tickets: seq<Ticket>, now: int) returns (queue: seq<TicketSummary>)
    ensures queue == AutoAssign(agents, tickets, now)
  {
    var filtered := AvailableAgents(agents, now);
    var availableAgents := new Agent[|filtered|](i requires 0 <= i < |filtered| => filtered[i]);
    var agentTicketCount := CountTicketsByKey(tickets, AutoAssignSentinel);
    ghost var s0 := InitialState(agents, tickets, now);
    assert availableAgents[..] == filtered;
    queue := [];
    for i := 0 to |tickets|
      invariant queue == Run(s0, tickets[..i]).queue
      invariant SchedulerState(availableAgents[..], agentTicketCount) == Run(s0, tickets[..i]).final
    {
      assert tickets[..i + 1][..i] == tickets[..i];
      var ticket := tickets[i];
      var assignedAgent;
      assignedAgent, agentTicketCount := AssignTicket(availableAgents, agentTicketCount, ticket);
      queue := queue + [Summarize(ticket, assignedAgent)];
    }
    assert tickets[..|tickets|] == tickets;
  }

  /** The body of the loop for one ticket: a sentinel ticket re-sorts the agent
      array in place and goes to its first agent, whose count is bumped. */
  method AssignTicket(availableAgents: array<Agent>, agentTicketCount: map<string, int>, ticket: Ticket)
    returns (assignedAgent: string, counts: map<string, int>)
    modifies availableAgents
    ensures Decide(SchedulerState(old(availableAgents[..]), agentTicketCount), ticket)
            == Decision(assignedAgent, SchedulerState(availableAgents[..], counts))
  {
    counts := agentTicketCount;
    assignedAgent := ticket.assignedAgent;
    if assignedAgent == AutoAssignSentinel {
      if availableAgents.Length > 0 {
        SortByLoadInPlace(availableAgents, counts);
        assignedAgent := availableAgents[0].name;
        counts := counts[assignedAgent := Load(counts, assignedAgent) + 1];
        assert availableAgents[..][0] == availableAgents[0];
        DecideSentinel(SchedulerState(old(availableAgents[..]), agentTicketCount), ticket);
      } else {
        assignedAgent := AutoAssignSentinel;
      }
    }
  }

  /** Two idle agents A and B and three sentinel tickets: because the array is
      re-sorted in place, the tie after the second ticket goes to B, which the
      previous sort moved to the front, so the run yields A, B, B (not A, B, A). */
  lemma TieBreakScenario()
    ensures var a := Agent("A", 0, 1000, "Online");
            var b := Agent("B", 0, 1000, "Online");
            var t := Ticket("T", 0, AutoAssignSentinel, "");
            var q := AutoAssign([a, b], [t, t, t], 500);
            q[0].assignedAgent == "A" && q[1].assignedAgent == "B" && q[2].assignedAgent == "B"
  {
    var a := Agent("A", 0, 1000, "Online");
    var b := Agent("B", 0, 1000, "Online");
    var t := Ticket("T", 0, AutoAssignSentinel, "");
    var l0 := map[AutoAssignSentinel := 3];
    ScenarioInitialLoads(t);
    assert AvailableAgents([a, b], 500) == [a, b];
    var s0 := SchedulerState([a, b], l0);
    var l1 := l0["A" := 1];
    var l2 := l1["B" := 1];
    ScenarioSorts(a, b, l0);
    var d1 := Decide(s0, t);
    DecideSentinel(s0, t);
    assert d1 == Decision("A", SchedulerState([a, b], l1));
    var d2 := Decide(d1.next, t);
    DecideSentinel(d1.next, t);
    assert d2 == Decision("B", SchedulerState([b, a], l2));
    var d3 := Decide(d2.next, t);
    DecideSentinel(d2.next, t);
    assert d3.agent == "B";
    assert InitialState([a, b], [t, t, t], 500) == s0;
    RunOfThree(s0, t);
  }

  /** A run over three copies of one ticket: one record per decision, in order. */
  lemma RunOfThree(s: SchedulerState, t: Ticket)
    ensures var d1 := Decide(s, t);
            var d2 := Decide(d1.next, t);
            var d3 := Decide(d2.next, t);
            Run(s, [t, t, t]).queue == [Summarize(t, d1.agent), Summarize(t, d2.agent), Summarize(t, d3.agent)]
  {
    assert [] + [t] == [t] && [t] + [t] == [t, t] && [t, t] + [t] == [t, t, t];
    RunSnoc(s, [], t);
    RunSnoc(s, [t], t);
    RunSnoc(s, [t, t], t);
  }

  lemma ScenarioInitialLoads(t: Ticket)
    requires t.assignedAgent == AutoAssignSentinel
    ensures TicketCounts([t, t, t], AutoAssignSentinel) == map[AutoAssignSentinel := 3]
  {
    var ts := [t, t, t];
    assert KeySet(ts, AutoAssignSentinel) == {AutoAssignSentinel};
    assert ts[..2] == [t, t] && [t, t][..1] == [t] && [t][..0] == [];
    assert Occurrences([t], AutoAssignSentinel, AutoAssignSentinel) == 1;
    assert Occurrences([t, t], AutoAssignSentinel, AutoAssignSentinel) == 2;
    assert Occurrences(ts, AutoAssignSentinel, AutoAssignSentinel) == 3;
  }

  lemma ScenarioSorts(a: Agent, b: Agent, l0: map<string, int>)
    requires a.name == "A" && b.name == "B" && l0 == map[AutoAssignSentinel := 3]
    ensures SortByLoad([a, b], l0) == [a, b]
    ensures SortByLoad([a, b], l0["A" := 1]) == [b, a]
    ensures SortByLoad([b, a], l0["A" := 1]["B" := 1]) == [b, a]
  {
    assert [a, b][..1] == [a] && [b, a][..1] == [b] && [a][..0] == [] && [b][..0] == [];
    var l1 := l0["A" := 1];
    assert AgentLoad(l1, a) == 1 && AgentLoad(l1, b) == 0;
    assert SortByLoad([a], l1) == [a];
    assert InsertByLoad([a], b, l1) == InsertByLoad([], b, l1) + [a];
  }
}
