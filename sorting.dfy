/** `availableAgents.sort((a, b) => load(a) - load(b))`: a stable sort of the agents
    by their current load, done in place on the agent array.

    The sort is defined here as insertion sort. `SortStable` and `StableSortIsUnique`
    show it is the one load-ordered rearrangement that keeps agents of equal load in
    their relative order, so any stable sort produces the same array. */
module LoadSort {
  import opened TicketTypes

  function AgentLoad(loads: map<string, int>, a: Agent): int
  {
    Load(loads, a.name)
  }

  /** Agents in non-decreasing order of load. */
  predicate SortedByLoad(s: seq<Agent>, loads: map<string, int>)
  {
    forall i, j :: 0 <= i < j < |s| ==> AgentLoad(loads, s[i]) <= AgentLoad(loads, s[j])
  }

  /** Index `k` holds a least-loaded agent of `s`, and every agent before it is
      strictly more loaded: the first of the least-loaded agents. */
  predicate FirstLeastLoaded(s: seq<Agent>, loads: map<string, int>, k: int)
  {
    && 0 <= k < |s|
    && (forall j :: 0 <= j < |s| ==> AgentLoad(loads, s[k]) <= AgentLoad(loads, s[j]))
    && (forall j :: 0 <= j < k ==> AgentLoad(loads, s[k]) < AgentLoad(loads, s[j]))
  }

  /** Places `x` into `sorted` after every agent whose load is at most its own. */
  function InsertByLoad(sorted: seq<Agent>, x: Agent, loads: map<string, int>): (r: seq<Agent>)
    ensures |r| == |sorted| + 1
  {
    if sorted == [] then [x]
    else if AgentLoad(loads, sorted[|sorted| - 1]) <= AgentLoad(loads, x) then sorted + [x]
    else InsertByLoad(sorted[..|sorted| - 1], x, loads) + [sorted[|sorted| - 1]]
  }

  /** The stable sort of `s` by load. */
  function SortByLoad(s: seq<Agent>, loads: map<string, int>): (r: seq<Agent>)
    ensures |r| == |s|
  {
    if s == [] then []
    else InsertByLoad(SortByLoad(s[..|s| - 1], loads), s[|s| - 1], loads)
  }

  lemma {:induction false} InsertPermutes(sorted: seq<Agent>, x: Agent, loads: map<string, int>)
    ensures multiset(InsertByLoad(sorted, x, loads)) == multiset(sorted) + multiset{x}
  {
    if sorted != [] {
      var n := |sorted| - 1;
      assert sorted == sorted[..n] + [sorted[n]];
      if AgentLoad(loads, sorted[n]) > AgentLoad(loads, x) {
        InsertPermutes(sorted[..n], x, loads);
      }
    }
  }

  lemma {:induction false} InsertKeepsSorted(sorted: seq<Agent>, x: Agent, loads: map<string, int>)
    requires SortedByLoad(sorted, loads)
    ensures SortedByLoad(InsertByLoad(sorted, x, loads), loads)
  {
    if sorted != [] {
      var n := |sorted| - 1;
      var last := sorted[n];
      if AgentLoad(loads, last) > AgentLoad(loads, x) {
        var front := InsertByLoad(sorted[..n], x, loads);
        InsertKeepsSorted(sorted[..n], x, loads);
        InsertBounded(sorted[..n], x, loads, AgentLoad(loads, last));
        assert front + [last] == InsertByLoad(sorted, x, loads);
      }
    }
  }

  /** Inserting an agent under a load bound into a list under that bound keeps every
      agent under the bound. */
  lemma {:induction false} InsertBounded(sorted: seq<Agent>, x: Agent, loads: map<string, int>, bound: int)
    requires forall i :: 0 <= i < |sorted| ==> AgentLoad(loads, sorted[i]) <= bound
    requires AgentLoad(loads, x) <= bound
    ensures forall i :: 0 <= i < |InsertByLoad(sorted, x, loads)| ==> AgentLoad(loads, InsertByLoad(sorted, x, loads)[i]) <= bound
  {
    if sorted != [] {
      var n := |sorted| - 1;
      InsertBounded(sorted[..n], x, loads, bound);
    }
  }

  /** The stable sort yields a load-ordered permutation of its input. */
  lemma {:induction false} SortByLoadIsSortedPermutation(s: seq<Agent>, loads: map<string, int>)
    ensures SortedByLoad(SortByLoad(s, loads), loads)
    ensures multiset(SortByLoad(s, loads)) == multiset(s)
  {
    if s != [] {
      var n := |s| - 1;
      SortByLoadIsSortedPermutation(s[..n], loads);
      InsertKeepsSorted(SortByLoad(s[..n], loads), s[n], loads);
      InsertPermutes(SortByLoad(s[..n], loads), s[n], loads);
      assert s == s[..n] + [s[n]];
    }
  }

  /** The agents of `s` whose load is `v`, in their order in `s`. */
  function WithLoad(s: seq<Agent>, loads: map<string, int>, v: int): seq<Agent>
  {
    if s == [] then []
    else WithLoad(s[..|s| - 1], loads, v) + (if AgentLoad(loads, s[|s| - 1]) == v then [s[|s| - 1]] else [])
  }

  /** Insertion keeps every load class in order, with the new agent last in its own
      class. */
  lemma {:induction false} InsertStable(sorted: seq<Agent>, x: Agent, loads: map<string, int>, v: int)
    ensures WithLoad(InsertByLoad(sorted, x, loads), loads, v)
            == WithLoad(sorted, loads, v) + (if AgentLoad(loads, x) == v then [x] else [])
  {
    if sorted != [] {
      var n := |sorted| - 1;
      if AgentLoad(loads, sorted[n]) <= AgentLoad(loads, x) {
        WithLoadSnoc(sorted, x, loads, v);
      } else {
        InsertStable(sorted[..n], x, loads, v);
        PassLast(sorted[..n], sorted[n], x, InsertByLoad(sorted[..n], x, loads), loads, v);
        assert sorted[..n] + [sorted[n]] == sorted;
      }
    }
  }

  /** When `x` is strictly less loaded than `last`, the two belong to different load
      classes, so placing `x` before `last` does not reorder any class. */
  lemma PassLast(pre: seq<Agent>, last: Agent, x: Agent, front: seq<Agent>, loads: map<string, int>, v: int)
    requires AgentLoad(loads, x) < AgentLoad(loads, last)
    requires WithLoad(front, loads, v) == WithLoad(pre, loads, v) + (if AgentLoad(loads, x) == v then [x] else [])
    ensures WithLoad(front + [last], loads, v)
            == WithLoad(pre + [last], loads, v) + (if AgentLoad(loads, x) == v then [x] else [])
  {
    var tx := if AgentLoad(loads, x) == v then [x] else [];
    var tl := if AgentLoad(loads, last) == v then [last] else [];
    var p := WithLoad(pre, loads, v);
    WithLoadSnoc(front, last, loads, v);
    WithLoadSnoc(pre, last, loads, v);
    if tl == [] {
      assert p + tx + tl == p + tl + tx;
    } else {
      assert tx == [];
      assert p + tx + tl == p + tl + tx;
    }
  }

  lemma WithLoadSnoc(s: seq<Agent>, y: Agent, loads: map<string, int>, v: int)
    ensures WithLoad(s + [y], loads, v) == WithLoad(s, loads, v) + (if AgentLoad(loads, y) == v then [y] else [])
  {
    assert (s + [y])[..|s|] == s;
  }

  /** The sort is stable: agents of equal load keep their relative order. */
  lemma {:induction false} SortStable(s: seq<Agent>, loads: map<string, int>, v: int)
    ensures WithLoad(SortByLoad(s, loads), loads, v) == WithLoad(s, loads, v)
  {
    if s != [] {
      var n := |s| - 1;
      SortStable(s[..n], loads, v);
      InsertStable(SortByLoad(s[..n], loads), s[n], loads, v);
    }
  }

  /** Every agent of load `v` appears in `WithLoad(s, loads, v)`, and only those. */
  lemma {:induction false} WithLoadMembers(s: seq<Agent>, loads: map<string, int>, v: int)
    ensures forall a :: a in WithLoad(s, loads, v) <==> a in s && AgentLoad(loads, a) == v
  {
    if s != [] {
      var n := |s| - 1;
      WithLoadMembers(s[..n], loads, v);
      assert s == s[..n] + [s[n]];
    }
  }

  /** Two load-ordered lists with the same agents in the same order in every load
      class are equal. */
  lemma {:induction false} SortedStableUnique(r1: seq<Agent>, r2: seq<Agent>, loads: map<string, int>)
    requires SortedByLoad(r1, loads) && SortedByLoad(r2, loads)
    requires forall v :: WithLoad(r1, loads, v) == WithLoad(r2, loads, v)
    ensures r1 == r2
    decreases |r1| + |r2|
  {
    if r1 == [] || r2 == [] {
      if r1 != [] {
        EmptyClass(r2, r1, loads, r1[0]);
      } else if r2 != [] {
        EmptyClass(r1, r2, loads, r2[0]);
      }
    } else {
      var n1, n2 := |r1| - 1, |r2| - 1;
      var m1, m2 := AgentLoad(loads, r1[n1]), AgentLoad(loads, r2[n2]);
      if m1 < m2 {
        TopClass(r1, r2, loads, m2);
      } else if m2 < m1 {
        TopClass(r2, r1, loads, m1);
      } else {
        SameLastAgent(r1, r2, loads);
        DropLast(r1, r2, r1[..n1], r2[..n2], loads);
        SortedStableUnique(r1[..n1], r2[..n2], loads);
        assert r1 == r1[..n1] + [r1[n1]] && r2 == r2[..n2] + [r2[n2]];
      }
    }
  }

  /** Lists whose load classes agree and whose last agents have equal loads end with
      the same agent. */
  lemma SameLastAgent(r1: seq<Agent>, r2: seq<Agent>, loads: map<string, int>)
    requires r1 != [] && r2 != []
    requires AgentLoad(loads, r1[|r1| - 1]) == AgentLoad(loads, r2[|r2| - 1])
    requires forall v :: WithLoad(r1, loads, v) == WithLoad(r2, loads, v)
    ensures r1[|r1| - 1] == r2[|r2| - 1]
  {
    var m := AgentLoad(loads, r1[|r1| - 1]);
    var w := WithLoad(r1, loads, m);
    assert w[|w| - 1] == r1[|r1| - 1];
    assert WithLoad(r2, loads, m)[|w| - 1] == r2[|r2| - 1];
  }

  /** Dropping the same last agent from two lists whose load classes agree leaves
      lists whose load classes agree. */
  lemma DropLast(r1: seq<Agent>, r2: seq<Agent>, q1: seq<Agent>, q2: seq<Agent>, loads: map<string, int>)
    requires r1 != [] && r2 != [] && r1[|r1| - 1] == r2[|r2| - 1]
    requires q1 == r1[..|r1| - 1] && q2 == r2[..|r2| - 1]
    requires forall v :: WithLoad(r1, loads, v) == WithLoad(r2, loads, v)
    ensures forall v :: WithLoad(q1, loads, v) == WithLoad(q2, loads, v)
  {
    var x := r1[|r1| - 1];
    forall v ensures WithLoad(q1, loads, v) == WithLoad(q2, loads, v) {
      var p1, p2 := WithLoad(q1, loads, v), WithLoad(q2, loads, v);
      var tail := if AgentLoad(loads, x) == v then [x] else [];
      assert WithLoad(r1, loads, v) == p1 + tail;
      assert WithLoad(r2, loads, v) == p2 + tail;
      assert p1 == (p1 + tail)[..|p1|] && p2 == (p2 + tail)[..|p2|];
    }
  }

  /** An agent of `r2` has a non-empty load class there, so `r1` cannot have an
      empty one. */
  lemma EmptyClass(r1: seq<Agent>, r2: seq<Agent>, loads: map<string, int>, a: Agent)
    requires r1 == [] && a in r2
    ensures WithLoad(r1, loads, AgentLoad(loads, a)) != WithLoad(r2, loads, AgentLoad(loads, a))
  {
    WithLoadMembers(r2, loads, AgentLoad(loads, a));
  }

  /** When `r1` tops out below load `m` but `r2` ends with an agent of load `m`, their
      classes of load `m` differ. */
  lemma TopClass(r1: seq<Agent>, r2: seq<Agent>, loads: map<string, int>, m: int)
    requires r1 != [] && r2 != [] && SortedByLoad(r1, loads)
    requires AgentLoad(loads, r1[|r1| - 1]) < m == AgentLoad(loads, r2[|r2| - 1])
    ensures WithLoad(r1, loads, m) != WithLoad(r2, loads, m)
  {
    WithLoadMembers(r1, loads, m);
    WithLoadMembers(r2, loads, m);
    assert r2[|r2| - 1] in r2;
  }

  /** `SortByLoad` is the only stable sort: any load-ordered list that keeps every
      load class of `s` in its order in `s` is `SortByLoad(s, loads)`. */
  lemma StableSortIsUnique(r: seq<Agent>, s: seq<Agent>, loads: map<string, int>)
    requires SortedByLoad(r, loads)
    requires forall v :: WithLoad(r, loads, v) == WithLoad(s, loads, v)
    ensures r == SortByLoad(s, loads)
  {
    SortByLoadIsSortedPermutation(s, loads);
    forall v ensures WithLoad(r, loads, v) == WithLoad(SortByLoad(s, loads), loads, v) {
      SortStable(s, loads, v);
    }
    SortedStableUnique(r, SortByLoad(s, loads), loads);
  }

  /** Inserting into a sorted list changes its head only when the new agent is
      strictly less loaded than the old head. */
  lemma {:induction false} InsertHead(sorted: seq<Agent>, x: Agent, loads: map<string, int>)
    requires sorted != [] && SortedByLoad(sorted, loads)
    ensures InsertByLoad(sorted, x, loads) != []
    ensures InsertByLoad(sorted, x, loads)[0] ==
              if AgentLoad(loads, sorted[0]) <= AgentLoad(loads, x) then sorted[0] else x
  {
    var n := |sorted| - 1;
    if AgentLoad(loads, sorted[n]) > AgentLoad(loads, x) {
      if n == 0 {
        assert InsertByLoad(sorted[..n], x, loads) == [x];
      } else {
        InsertHead(sorted[..n], x, loads);
      }
    }
  }

  /** The position of the first least-loaded agent of `s`. */
  function FirstLeastLoadedIndex(s: seq<Agent>, loads: map<string, int>): (k: int)
    requires s != []
    ensures FirstLeastLoaded(s, loads, k)
  {
    var n := |s| - 1;
    if n == 0 then 0
    else
      var k := FirstLeastLoadedIndex(s[..n], loads);
      FirstLeastLoadedExtend(s[..n], s[n], loads, k);
      assert s[..n] + [s[n]] == s;
      if AgentLoad(loads, s[k]) <= AgentLoad(loads, s[n]) then k else n
  }

  /** Ties are broken by position: the head of the sorted list is the first of the
      least-loaded agents of the list as it was before sorting. */
  lemma {:induction false} SortHeadIsFirstLeastLoaded(s: seq<Agent>, loads: map<string, int>)
    requires s != []
    ensures SortByLoad(s, loads) != []
    ensures SortByLoad(s, loads)[0] == s[FirstLeastLoadedIndex(s, loads)]
  {
    var n := |s| - 1;
    var prefix := s[..n];
    assert SortByLoad(s, loads) == InsertByLoad(SortByLoad(prefix, loads), s[n], loads);
    if n == 0 {
      assert SortByLoad(prefix, loads) == [];
    } else {
      SortHeadIsFirstLeastLoaded(prefix, loads);
      SortByLoadIsSortedPermutation(prefix, loads);
      InsertHead(SortByLoad(prefix, loads), s[n], loads);
    }
  }

  /** Appending an agent keeps the first least-loaded index unless the new agent is
      strictly less loaded, in which case the new agent is it. */
  lemma FirstLeastLoadedExtend(s: seq<Agent>, x: Agent, loads: map<string, int>, k: int)
    requires FirstLeastLoaded(s, loads, k)
    ensures AgentLoad(loads, s[k]) <= AgentLoad(loads, x) ==> FirstLeastLoaded(s + [x], loads, k)
    ensures AgentLoad(loads, s[k]) > AgentLoad(loads, x) ==> FirstLeastLoaded(s + [x], loads, |s|)
  {
    var s' := s + [x];
    assert forall j :: 0 <= j < |s| ==> s'[j] == s[j];
    assert s'[|s|] == x;
  }

  /** The in-place sort: the array afterwards holds the stable sort of what it held. */
  method SortByLoadInPlace(a: array<Agent>, loads: map<string, int>)
    modifies a
    ensures a[..] == SortByLoad(old(a[..]), loads)
  {
    ghost var input := a[..];
    for i := 0 to a.Length
      invariant a[..i] == SortByLoad(input[..i], loads)
      invariant a[i..] == input[i..]
    {
      assert input[..i + 1][..i] == input[..i];
      assert a[i] == input[i];
      ghost var prev := a[..];
      assert prev[i..][1..] == prev[i + 1..];
      InsertInPlace(a, i, loads);
      assert a[i + 1..] == prev[i + 1..] == input[i + 1..];
    }
    assert input[..a.Length] == input;
  }

  /** One step of the sort: shifts the more loaded agents of a[..i] one place right
      and drops a[i] into the gap. */
  method InsertInPlace(a: array<Agent>, i: int, loads: map<string, int>)
    requires 0 <= i < a.Length
    modifies a
    ensures a[..i + 1] == InsertByLoad(old(a[..i]), old(a[i]), loads)
    ensures a[i + 1..] == old(a[i + 1..])
  {
    ghost var sorted := a[..i];
    ghost var rest := a[i + 1..];
    var x := a[i];
    var j := i;
    assert a[..] == sorted[..j] + [a[j]] + sorted[j..] + rest;
    assert sorted[..j] == sorted && sorted[j..] == [];
    while j > 0 && AgentLoad(loads, a[j - 1]) > AgentLoad(loads, x)
      invariant 0 <= j <= i
      invariant a[..] == sorted[..j] + [a[j]] + sorted[j..] + rest
      invariant InsertByLoad(sorted, x, loads) == InsertByLoad(sorted[..j], x, loads) + sorted[j..]
    {
      InsertShiftsPast(sorted, j, x, loads);
      ghost var shifted := a[..];
      ShiftStep(shifted, sorted, j, rest);
      a[j] := a[j - 1];
      assert a[..] == shifted[j := shifted[j - 1]];
      j := j - 1;
    }
    InsertStopsAt(sorted, j, x, loads);
    ghost var last := a[..];
    a[j] := x;
    assert a[..] == last[j := x];
    Spliced(last, sorted, j, x, rest);
  }

  /** Moving the agent left of the gap into the gap moves the gap one place left. */
  lemma ShiftStep(cur: seq<Agent>, sorted: seq<Agent>, j: int, rest: seq<Agent>)
    requires 0 < j <= |sorted| && |cur| == |sorted| + 1 + |rest|
    requires cur == sorted[..j] + [cur[j]] + sorted[j..] + rest
    ensures cur[j := cur[j - 1]] == sorted[..j - 1] + [cur[j - 1]] + sorted[j - 1..] + rest
  {
    assert cur[j - 1] == sorted[j - 1];
    assert sorted[j - 1..] == [sorted[j - 1]] + sorted[j..];
  }

  /** Filling the gap with the inserted agent, read back as the two slices. */
  lemma Spliced(cur: seq<Agent>, sorted: seq<Agent>, j: int, x: Agent, rest: seq<Agent>)
    requires 0 <= j <= |sorted| && |cur| == |sorted| + 1 + |rest|
    requires cur == sorted[..j] + [cur[j]] + sorted[j..] + rest
    ensures cur[j := x][..|sorted| + 1] == sorted[..j] + [x] + sorted[j..]
    ensures cur[j := x][|sorted| + 1..] == rest
  {
    assert cur[j := x] == (sorted[..j] + [x] + sorted[j..]) + rest;
  }

  lemma InsertShiftsPast(sorted: seq<Agent>, j: int, x: Agent, loads: map<string, int>)
    requires 0 < j <= |sorted| && AgentLoad(loads, sorted[j - 1]) > AgentLoad(loads, x)
    ensures InsertByLoad(sorted[..j], x, loads) + sorted[j..] == InsertByLoad(sorted[..j - 1], x, loads) + sorted[j - 1..]
  {
    assert sorted[..j][..j - 1] == sorted[..j - 1];
    assert sorted[j - 1..] == [sorted[j - 1]] + sorted[j..];
  }

  lemma InsertStopsAt(sorted: seq<Agent>, j: int, x: Agent, loads: map<string, int>)
    requires 0 <= j <= |sorted| && (j == 0 || AgentLoad(loads, sorted[j - 1]) <= AgentLoad(loads, x))
    ensures InsertByLoad(sorted[..j], x, loads) == sorted[..j] + [x]
  {
  }
}
