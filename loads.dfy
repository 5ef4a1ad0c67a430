/** Counting tickets per agent key: the `forEach` loops of `aggregateTicketsByAgent`
    (reporting, fallback bucket "Unassigned") and of `autoAssignTickets` (initial
    scheduler load, fallback bucket "Auto Assign"). */
module Loads {
  import opened TicketTypes

  /** The key a ticket is counted under: its agent, or the fallback bucket when
      the agent is falsy. */
  function KeyOf(t: Ticket, fallback: string): string
  {
    OrElse(t.assignedAgent, fallback)
  }

  /** How many tickets of `ts` are counted under `k`. */
  function Occurrences(ts: seq<Ticket>, fallback: string, k: string): nat
  {
    if ts == [] then 0
    else Occurrences(ts[..|ts| - 1], fallback, k) + (if KeyOf(ts[|ts| - 1], fallback) == k then 1 else 0)
  }

  /** The keys some ticket of `ts` is counted under. */
  function KeySet(ts: seq<Ticket>, fallback: string): set<string>
  {
    set i | 0 <= i < |ts| :: KeyOf(ts[i], fallback)
  }

  /** What the counting loop is meant to produce: each key that some ticket is
      counted under, mapped to the number of such tickets. */
  function TicketCounts(ts: seq<Ticket>, fallback: string): map<string, int>
  {
    map k | k in KeySet(ts, fallback) :: Occurrences(ts, fallback, k)
  }

  /** The sum of the values of a map. */
  ghost function Total(m: map<string, int>): int
    decreases |m|
  {
    if m == map[] then 0
    else
      var k :| k in m;
      m[k] + Total(m - {k})
  }

  lemma {:induction false} OccurrencesAppend(xs: seq<Ticket>, ys: seq<Ticket>, fallback: string, k: string)
    ensures Occurrences(xs + ys, fallback, k) == Occurrences(xs, fallback, k) + Occurrences(ys, fallback, k)
    decreases |ys|
  {
    if ys == [] {
      assert xs + ys == xs;
    } else {
      var n := |ys| - 1;
      assert (xs + ys)[..|xs + ys| - 1] == xs + ys[..n];
      OccurrencesAppend(xs, ys[..n], fallback, k);
    }
  }

  /** A key has a positive count exactly when some ticket is counted under it. */
  lemma {:induction false} OccurrencesPositive(ts: seq<Ticket>, fallback: string, k: string)
    ensures Occurrences(ts, fallback, k) > 0 <==> k in KeySet(ts, fallback)
  {
    if ts != [] {
      var n := |ts| - 1;
      OccurrencesPositive(ts[..n], fallback, k);
      assert forall i :: 0 <= i < n ==> ts[..n][i] == ts[i];
      if k in KeySet(ts, fallback) {
        var i :| 0 <= i < |ts| && KeyOf(ts[i], fallback) == k;
        if i < n {
          assert k in KeySet(ts[..n], fallback);
        }
      }
    }
  }

  /** Counting one more ticket bumps its key by one (creating it at 1) and leaves
      every other key alone: the body of the counting loop. */
  lemma TicketCountsSnoc(ts: seq<Ticket>, t: Ticket, fallback: string)
    ensures var m := TicketCounts(ts, fallback);
            var k := KeyOf(t, fallback);
            TicketCounts(ts + [t], fallback) == m[k := if k in m then m[k] + 1 else 1]
  {
    var m := TicketCounts(ts, fallback);
    var k := KeyOf(t, fallback);
    var ts' := ts + [t];
    var bumped := m[k := if k in m then m[k] + 1 else 1];
    var m' := TicketCounts(ts', fallback);
    KeySetSnoc(ts, t, fallback);
    assert m'.Keys == KeySet(ts, fallback) + {k} == bumped.Keys;
    forall j | j in m' ensures m'[j] == bumped[j] {
      OccurrencesSnoc(ts, t, fallback, j);
      if j == k && k !in m {
        OccurrencesPositive(ts, fallback, k);
      }
    }
  }

  /** One more ticket adds one to the count of its own key and nothing to others. */
  lemma OccurrencesSnoc(ts: seq<Ticket>, t: Ticket, fallback: string, j: string)
    ensures Occurrences(ts + [t], fallback, j) == Occurrences(ts, fallback, j) + (if KeyOf(t, fallback) == j then 1 else 0)
  {
    assert (ts + [t])[..|ts|] == ts;
  }

  lemma KeySetSnoc(ts: seq<Ticket>, t: Ticket, fallback: string)
    ensures KeySet(ts + [t], fallback) == KeySet(ts, fallback) + {KeyOf(t, fallback)}
  {
    var ts' := ts + [t];
    assert forall i :: 0 <= i < |ts| ==> ts'[i] == ts[i];
    forall j | j in KeySet(ts', fallback) ensures j in KeySet(ts, fallback) + {KeyOf(t, fallback)} {
      var i :| 0 <= i < |ts'| && KeyOf(ts'[i], fallback) == j;
      if i < |ts| { assert KeyOf(ts[i], fallback) == j; }
    }
    assert KeyOf(ts'[|ts|], fallback) == KeyOf(t, fallback);
  }

  /** The method the two call sites share: one pass over the tickets, bumping the
      ticket's key or creating it with count 1. */
  method CountTicketsByKey(tickets: seq<Ticket>, fallback: string) returns (counts: map<string, int>)
    ensures counts == TicketCounts(tickets, fallback)
  {
    counts := map[];
    for i := 0 to |tickets|
      invariant counts == TicketCounts(tickets[..i], fallback)
    {
      var key := KeyOf(tickets[i], fallback);
      if key in counts {
        counts := counts[key := counts[key] + 1];
      } else {
        counts := counts[key := 1];
      }
      TicketCountsSnoc(tickets[..i], tickets[i], fallback);
      assert tickets[..i + 1] == tickets[..i] + [tickets[i]];
    }
    assert tickets[..|tickets|] == tickets;
  }

  /** The reporting path: tickets counted per agent, "Unassigned" for none. */
  method AggregateTicketsByAgent(tickets: seq<Ticket>) returns (counts: map<string, int>)
    ensures counts == TicketCounts(tickets, UnassignedBucket)
  {
    counts := CountTicketsByKey(tickets, UnassignedBucket);
  }

  /** Every key present has count at least 1, every key absent has no ticket, and a
      ticket with a falsy agent is counted under the fallback bucket. */
  lemma CountsMeaning(ts: seq<Ticket>, fallback: string)
    ensures forall k :: k in TicketCounts(ts, fallback) ==> TicketCounts(ts, fallback)[k] >= 1
    ensures forall k :: k !in TicketCounts(ts, fallback) ==> Occurrences(ts, fallback, k) == 0
    ensures forall i :: 0 <= i < |ts| && ts[i].assignedAgent == "" ==> fallback in TicketCounts(ts, fallback)
    ensures forall i :: 0 <= i < |ts| && ts[i].assignedAgent != "" ==> ts[i].assignedAgent in TicketCounts(ts, fallback)
  {
    forall k ensures Occurrences(ts, fallback, k) > 0 <==> k in KeySet(ts, fallback) {
      OccurrencesPositive(ts, fallback, k);
    }
    assert forall i :: 0 <= i < |ts| ==> KeyOf(ts[i], fallback) in KeySet(ts, fallback);
  }

  lemma {:induction false} TotalRemove(m: map<string, int>, k: string)
    requires k in m
    ensures Total(m) == m[k] + Total(m - {k})
    decreases |m|
  {
    var j :| j in m && Total(m) == m[j] + Total(m - {j});
    if j != k {
      assert m - {j} - {k} == m - {k} - {j};
      TotalRemove(m - {j}, k);
      TotalRemove(m - {k}, j);
    }
  }

  /** Every ticket is counted exactly once: the counts add up to the number of tickets. */
  lemma {:induction false} CountsSumToTicketCount(ts: seq<Ticket>, fallback: string)
    ensures Total(TicketCounts(ts, fallback)) == |ts|
  {
    if ts == [] {
      assert TicketCounts(ts, fallback) == map[];
    } else {
      var n := |ts| - 1;
      var m := TicketCounts(ts[..n], fallback);
      var k := KeyOf(ts[n], fallback);
      CountsSumToTicketCount(ts[..n], fallback);
      TicketCountsSnoc(ts[..n], ts[n], fallback);
      assert ts[..n] + [ts[n]] == ts;
      assert TicketCounts(ts, fallback) == m[k := Load(m, k) + 1];
      TotalBump(m, k);
    }
  }

  /** Counting is independent of the order the tickets come in. */
  lemma {:induction false} OccurrencesPermutation(xs: seq<Ticket>, ys: seq<Ticket>, fallback: string, k: string)
    requires multiset(xs) == multiset(ys)
    ensures Occurrences(xs, fallback, k) == Occurrences(ys, fallback, k)
    decreases |xs|
  {
    if xs != [] {
      var n := |xs| - 1;
      var t := xs[n];
      assert xs == xs[..n] + [t];
      assert t in multiset(ys);
      var i :| 0 <= i < |ys| && ys[i] == t;
      var ys' := ys[..i] + ys[i + 1..];
      assert ys == ys[..i] + [t] + ys[i + 1..];
      calc {
        multiset(xs[..n]) + multiset{t};
        multiset(xs);
        multiset(ys);
        multiset(ys[..i]) + multiset{t} + multiset(ys[i + 1..]);
        multiset(ys') + multiset{t};
      }
      assert multiset(xs[..n]) == multiset(xs[..n]) + multiset{t} - multiset{t};
      assert multiset(ys') == multiset(ys') + multiset{t} - multiset{t};
      var one := Occurrences([t], fallback, k);
      var left, right := Occurrences(ys[..i], fallback, k), Occurrences(ys[i + 1..], fallback, k);
      OccurrencesPermutation(xs[..n], ys', fallback, k);
      OccurrencesAppend(xs[..n], [t], fallback, k);
      assert Occurrences(xs, fallback, k) == Occurrences(ys', fallback, k) + one;
      OccurrencesAppend(ys[..i], ys[i + 1..], fallback, k);
      assert Occurrences(ys', fallback, k) == left + right;
      OccurrencesAppend(ys[..i], [t], fallback, k);
      OccurrencesAppend(ys[..i] + [t], ys[i + 1..], fallback, k);
      assert Occurrences(ys, fallback, k) == left + one + right;
    } else {
      assert |ys| == |multiset(ys)| == 0;
      assert ys == [];
    }
  }

  lemma CountsOrderIndependent(xs: seq<Ticket>, ys: seq<Ticket>, fallback: string)
    requires multiset(xs) == multiset(ys)
    ensures TicketCounts(xs, fallback) == TicketCounts(ys, fallback)
  {
    forall k ensures Occurrences(xs, fallback, k) == Occurrences(ys, fallback, k) {
      OccurrencesPermutation(xs, ys, fallback, k);
    }
    forall k ensures k in KeySet(xs, fallback) <==> k in KeySet(ys, fallback) {
      OccurrencesPositive(xs, fallback, k);
      OccurrencesPositive(ys, fallback, k);
    }
  }

  /** Bumping one key (creating it at 1) raises the total by exactly one. */
  lemma TotalBump(m: map<string, int>, k: string)
    ensures Total(m[k := Load(m, k) + 1]) == Total(m) + 1
  {
    var m' := m[k := Load(m, k) + 1];
    TotalRemove(m', k);
    assert m' - {k} == m - {k};
    if k in m {
      TotalRemove(m, k);
    } else {
      assert m - {k} == m;
    }
  }

  /** How many tickets have no agent at all. */
  function NoAgentCount(ts: seq<Ticket>): nat
  {
    if ts == [] then 0
    else NoAgentCount(ts[..|ts| - 1]) + (if ts[|ts| - 1].assignedAgent == "" then 1 else 0)
  }

  /** The two call sites differ only in where agentless tickets go: the scheduler's
      "Auto Assign" bucket holds them on top of the literal sentinel tickets, the
      report's "Unassigned" bucket holds them on top of tickets literally assigned to
      "Unassigned", and every other key has the same count in both. */
  lemma {:induction false} CallSitesDifferOnlyInFallback(ts: seq<Ticket>)
    ensures Occurrences(ts, AutoAssignSentinel, AutoAssignSentinel)
            == Occurrences(ts, UnassignedBucket, AutoAssignSentinel) + NoAgentCount(ts)
    ensures Occurrences(ts, UnassignedBucket, UnassignedBucket)
            == Occurrences(ts, AutoAssignSentinel, UnassignedBucket) + NoAgentCount(ts)
    ensures forall k :: k != AutoAssignSentinel && k != UnassignedBucket ==>
              Occurrences(ts, AutoAssignSentinel, k) == Occurrences(ts, UnassignedBucket, k)
  {
    if ts != [] {
      CallSitesDifferOnlyInFallback(ts[..|ts| - 1]);
    }
  }
}
