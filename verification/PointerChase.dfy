/**
  The pointer-chase buffers of the latency experiments: an index array is shuffled in place
  (Fisher-Yates), consecutive entries are linked into a ring, and the ring is then followed.
  The random numbers are a parameter.
 */
module PointerChase {

  ghost predicate Injective(s: seq<nat>) {
    forall i, j :: 0 <= i < j < |s| ==> s[i] != s[j]
  }

  /** The slots 0 .. |s|-1, each exactly once. */
  ghost predicate Permutation(s: seq<nat>) {
    Injective(s) && forall i :: 0 <= i < |s| ==> s[i] < |s|
  }

  function Identity(n: nat): seq<nat> {
    seq(n, i => i)
  }

  function Swap(s: seq<nat>, i: nat, j: nat): (r: seq<nat>)
    requires i < |s| && j < |s|
    ensures |r| == |s|
  {
    s[i := s[j]][j := s[i]]
  }

  /** What the loop does from index i down, drawing one number per index. */
  function ShuffleFrom(s: seq<nat>, i: nat, rand: seq<nat>): (r: seq<nat>)
    requires i < |s| && |rand| == i
    ensures |r| == |s|
    decreases i
  {
    if i == 0 then s else ShuffleFrom(Swap(s, i, rand[0] % (i + 1)), i - 1, rand[1..])
  }

  method Shuffle(idx: array<nat>, rand: seq<nat>)
    requires idx.Length >= 1 && |rand| == idx.Length - 1
    modifies idx
    ensures idx[..] == ShuffleFrom(Identity(idx.Length), idx.Length - 1, rand)
  {
    var n := idx.Length;
    for i := 0 to n
      invariant forall k :: 0 <= k < i ==> idx[k] == k
    {
      idx[i] := i;
    }
    assert idx[..] == Identity(n);
    var i := n - 1;
    ghost var goal := ShuffleFrom(idx[..], n - 1, rand);
    while i > 0
      invariant 0 <= i < n
      invariant ShuffleFrom(idx[..], i, rand[n - 1 - i..]) == goal
    {
      var drawn := n - 1 - i;
      ghost var was := idx[..];
      var j := rand[drawn] % (i + 1);
      var t := idx[i];
      idx[i] := idx[j];
      idx[j] := t;
      assert idx[..] == Swap(was, i, j);
      assert rand[drawn..][1..] == rand[drawn + 1..];
      i := i - 1;
    }
  }

  /** Links every slot to the one that follows it in the shuffled order; next[k] is slot k's link. */
  method Link(next: array<nat>, idx: seq<nat>)
    requires next.Length == |idx| >= 1 && Permutation(idx)
    modifies next
    ensures Linked(next[..], idx)
    ensures Follows(next[..], idx)
  {
    var n := |idx|;
    for i := 0 to n
      invariant forall k :: 0 <= k < i ==> next[idx[k]] == idx[(k + 1) % n]
    {
      next[idx[i]] := idx[(i + 1) % n];
    }
    LinkedFollows(next[..], idx);
  }

  ghost predicate Linked(next: seq<nat>, idx: seq<nat>) {
    |next| == |idx| && forall k :: 0 <= k < |idx| ==> idx[k] < |next| && next[idx[k]] == idx[(k + 1) % |idx|]
  }

  /** Every slot leads to the next of the order, the last one to the first. */
  ghost predicate Follows(next: seq<nat>, idx: seq<nat>) {
    && |next| == |idx| >= 1 && (forall k :: 0 <= k < |idx| ==> idx[k] < |next|)
    && (forall k :: 0 <= k < |idx| - 1 ==> next[idx[k]] == idx[k + 1])
    && next[idx[|idx| - 1]] == idx[0]
  }

  lemma LinkedTo(next: seq<nat>, idx: seq<nat>, k: nat)
    requires Linked(next, idx) && k < |idx|
    ensures idx[k] < |next| && next[idx[k]] == idx[if k + 1 == |idx| then 0 else k + 1]
  {
    NextIndex(k, |idx|);
  }

  lemma LinkedFollows(next: seq<nat>, idx: seq<nat>)
    requires Linked(next, idx) && |idx| >= 1
    ensures Follows(next, idx)
  {
    forall k | 0 <= k < |idx| ensures idx[k] < |next| && next[idx[k]] == idx[if k + 1 == |idx| then 0 else k + 1] {
      LinkedTo(next, idx, k);
    }
  }

  /** Shuffling and linking together: whatever was drawn, the links form one ring. */
  method BuildRing(n: nat, rand: seq<nat>) returns (next: array<nat>, idx: array<nat>)
    requires n >= 1 && |rand| == n - 1
    ensures next.Length == idx.Length == n
    ensures idx[..] == ShuffleFrom(Identity(n), n - 1, rand)
    ensures forall start :: 0 <= start < n ==> VisitsAllOnce(next[..], start)
  {
    idx := new nat[n];
    next := new nat[n];
    Shuffle(idx, rand);
    ShuffleKeepsPermutation(Identity(n), n - 1, rand);
    Link(next, idx[..]);
    forall start | 0 <= start < n ensures VisitsAllOnce(next[..], start) {
      LinkedIsOneCycle(next[..], idx[..], start);
    }
  }

  // ----- The shuffle

  lemma SwapKeepsPermutation(s: seq<nat>, i: nat, j: nat)
    requires i < |s| && j < |s| && Permutation(s)
    ensures Permutation(Swap(s, i, j))
  {
  }

  lemma {:induction false} ShuffleKeepsPermutation(s: seq<nat>, i: nat, rand: seq<nat>)
    requires i < |s| && |rand| == i && Permutation(s)
    ensures Permutation(ShuffleFrom(s, i, rand))
    decreases i
  {
    if i > 0 {
      SwapKeepsPermutation(s, i, rand[0] % (i + 1));
      ShuffleKeepsPermutation(Swap(s, i, rand[0] % (i + 1)), i - 1, rand[1..]);
    }
  }

  /** Positions above i are settled. */
  lemma {:induction false} ShuffleSettles(s: seq<nat>, i: nat, rand: seq<nat>)
    requires i < |s| && |rand| == i
    ensures forall k :: i < k < |s| ==> ShuffleFrom(s, i, rand)[k] == s[k]
    decreases i
  {
    if i > 0 {
      ShuffleSettles(Swap(s, i, rand[0] % (i + 1)), i - 1, rand[1..]);
    }
  }

  /** Choices that are already reduced: at index i one of the i + 1 candidates. */
  ghost predicate Reduced(i: nat, c: seq<nat>) {
    |c| == i && forall t :: 0 <= t < i ==> c[t] <= i - t
  }

  /** The first i + 1 entries hold the same values, the others agree. */
  ghost predicate SameBelow(s: seq<nat>, p: seq<nat>, i: nat) {
    && |s| == |p| && i < |s|
    && Injective(s) && Injective(p)
    && (forall k :: i < k < |s| ==> s[k] == p[k])
    && (forall k :: 0 <= k <= i ==> p[k] in s[..i + 1])
  }

  lemma StepTowards(s: seq<nat>, p: seq<nat>, i: nat, j: nat)
    requires i > 0 && SameBelow(s, p, i) && j <= i && s[j] == p[i]
    ensures SameBelow(Swap(s, i, j), p, i - 1)
  {
    var r := Swap(s, i, j);
    forall k | 0 <= k <= i - 1 ensures p[k] in r[..i] {
      var m :| 0 <= m <= i && s[m] == p[k];
      assert m != j;
      if m == i {
        assert r[..i][j] == p[k];
      } else {
        assert r[..i][m] == p[k];
      }
    }
  }

  lemma FirstDraw(s: seq<nat>, i: nat, c: seq<nat>)
    requires 0 < i < |s| && Reduced(i, c)
    ensures ShuffleFrom(s, i, c) == ShuffleFrom(Swap(s, i, c[0]), i - 1, c[1..])
    ensures ShuffleFrom(s, i, c)[i] == s[c[0]]
  {
    assert c[0] % (i + 1) == c[0];
    ShuffleSettles(Swap(s, i, c[0]), i - 1, c[1..]);
  }

  lemma NothingLeft(s: seq<nat>, p: seq<nat>)
    requires SameBelow(s, p, 0)
    ensures s == p
  {
    assert p[0] in s[..1];
  }

  lemma PlaceBelow(s: seq<nat>, p: seq<nat>, i: nat) returns (j: nat)
    requires SameBelow(s, p, i)
    ensures j <= i && s[j] == p[i]
  {
    assert p[i] in s[..i + 1];
    j :| 0 <= j <= i && s[j] == p[i];
  }

  lemma OneMoreDraw(i: nat, j: nat, rest: seq<nat>)
    requires i > 0 && j <= i && Reduced(i - 1, rest)
    ensures Reduced(i, [j] + rest) && ([j] + rest)[1..] == rest
  {
  }

  lemma {:induction false} EveryOrderIsDrawn(s: seq<nat>, p: seq<nat>, i: nat) returns (c: seq<nat>)
    requires SameBelow(s, p, i)
    ensures Reduced(i, c) && ShuffleFrom(s, i, c) == p
    decreases i
  {
    if i == 0 {
      NothingLeft(s, p);
      c := [];
    } else {
      var j := PlaceBelow(s, p, i);
      StepTowards(s, p, i, j);
      var rest := EveryOrderIsDrawn(Swap(s, i, j), p, i - 1);
      OneMoreDraw(i, j, rest);
      c := [j] + rest;
      FirstDraw(s, i, c);
    }
  }

  lemma {:induction false} DrawnOnlyOnce(s: seq<nat>, i: nat, c: seq<nat>, d: seq<nat>)
    requires i < |s| && Injective(s) && Reduced(i, c) && Reduced(i, d)
    ensures ShuffleFrom(s, i, c) == ShuffleFrom(s, i, d) ==> c == d
    decreases i
  {
    if i > 0 && ShuffleFrom(s, i, c) == ShuffleFrom(s, i, d) {
      FirstDraw(s, i, c);
      FirstDraw(s, i, d);
      assert c[0] == d[0];
      DrawnOnlyOnce(Swap(s, i, c[0]), i - 1, c[1..], d[1..]);
      assert c == [c[0]] + c[1..] && d == [d[0]] + d[1..];
    }
  }

  /** Drawing d from the identity order gives the order p. */
  ghost predicate Draws(d: seq<nat>, p: seq<nat>)
    requires |p| >= 1
  {
    Reduced(|p| - 1, d) && ShuffleFrom(Identity(|p|), |p| - 1, d) == p
  }

  /**
    The shuffle is unbiased in the only sense a deterministic model has: every order of the n
    slots comes from exactly one sequence of reduced draws.
   */
  lemma ShuffleIsABijection(p: seq<nat>) returns (c: seq<nat>)
    requires |p| >= 1 && Permutation(p)
    ensures Draws(c, p)
    ensures forall d :: Draws(d, p) ==> d == c
  {
    var n := |p|;
    var s := Identity(n);
    forall k | 0 <= k < n ensures p[k] in s[..n] {
      assert s[..n][p[k]] == p[k];
    }
    c := EveryOrderIsDrawn(s, p, n - 1);
    forall d | Draws(d, p) ensures d == c {
      DrawnOnlyOnce(s, n - 1, c, d);
    }
  }

  /** The draws as the loop uses them: the one for index i modulo i + 1. */
  function Remainders(i: nat, rand: seq<nat>): (c: seq<nat>)
    requires |rand| == i
    ensures |c| == i && forall t :: 0 <= t < i ==> c[t] == rand[t] % (i - t + 1)
  {
    seq(i, t requires 0 <= t < i => rand[t] % (i - t + 1))
  }

  /** One draw exchanges two entries, the upper one for good; the remainder of what was drawn says which. */
  lemma DrawSwaps(s: seq<nat>, i: nat, rand: seq<nat>)
    requires 0 < i < |s| && |rand| == i
    ensures var j := rand[0] % (i + 1);
      var r := Swap(s, i, j);
      && r[i] == s[j] && r[j] == s[i] && (forall k :: 0 <= k < |s| && k != i && k != j ==> r[k] == s[k])
      && ShuffleFrom(s, i, rand)[i] == s[j]
      && ShuffleFrom(s, i, rand) == ShuffleFrom(r, i - 1, rand[1..])
  {
    ShuffleSettles(Swap(s, i, rand[0] % (i + 1)), i - 1, rand[1..]);
  }

  /** Whatever numbers are drawn, only their remainders matter, and these are reduced draws. */
  lemma {:induction false} OnlyRemaindersMatter(s: seq<nat>, i: nat, rand: seq<nat>)
    requires i < |s| && |rand| == i
    ensures Reduced(i, Remainders(i, rand))
    ensures ShuffleFrom(s, i, rand) == ShuffleFrom(s, i, Remainders(i, rand))
    decreases i
  {
    if i > 0 {
      var c := Remainders(i, rand);
      FirstDraw(s, i, c);
      assert c[1..] == Remainders(i - 1, rand[1..]);
      OnlyRemaindersMatter(Swap(s, i, c[0]), i - 1, rand[1..]);
    }
  }

  /** Shuffling with these numbers gives the order p. */
  ghost predicate Gives(rand: seq<nat>, p: seq<nat>)
    requires |p| >= 1
  {
    |rand| == |p| - 1 && ShuffleFrom(Identity(|p|), |p| - 1, rand) == p
  }

  ghost predicate Leaves(rand: seq<nat>, n: nat, c: seq<nat>) {
    |rand| == n && Remainders(n, rand) == c
  }

  lemma OrderOfNumbers(p: seq<nat>, c: seq<nat>, rand: seq<nat>)
    requires |p| >= 1 && Draws(c, p)
    requires forall d :: Draws(d, p) ==> d == c
    ensures Gives(rand, p) <==> Leaves(rand, |p| - 1, c)
  {
    if |rand| == |p| - 1 {
      OnlyRemaindersMatter(Identity(|p|), |p| - 1, rand);
      assert Draws(Remainders(|p| - 1, rand), p) <==> Gives(rand, p);
    }
  }

  /** So every order comes from exactly the numbers with one sequence of remainders. */
  lemma OrdersAndNumbers(p: seq<nat>) returns (c: seq<nat>)
    requires |p| >= 1 && Permutation(p)
    ensures Reduced(|p| - 1, c)
    ensures forall rand :: Gives(rand, p) <==> Leaves(rand, |p| - 1, c)
  {
    c := ShuffleIsABijection(p);
    forall rand ensures Gives(rand, p) <==> Leaves(rand, |p| - 1, c) {
      OrderOfNumbers(p, c, rand);
    }
  }

  // ----- The ring

  function Chase(next: seq<nat>, start: nat, k: nat): nat
    requires forall i :: 0 <= i < |next| ==> next[i] < |next|
    requires start < |next|
    ensures Chase(next, start, k) < |next|
  {
    if k == 0 then start else next[Chase(next, start, k - 1)]
  }

  /** The chase is back after |next| steps, has then seen every slot, and none of them twice. */
  ghost predicate VisitsAllOnce(next: seq<nat>, start: nat) {
    && start < |next| && (forall i :: 0 <= i < |next| ==> next[i] < |next|)
    && Chase(next, start, |next|) == start
    && (forall slot: nat :: slot < |next| ==> Visited(next, start, slot))
    && (forall j: nat, k: nat :: j < k < |next| ==> Chase(next, start, j) != Chase(next, start, k))
  }

  ghost predicate Visited(next: seq<nat>, start: nat, slot: nat)
    requires forall i :: 0 <= i < |next| ==> next[i] < |next|
    requires start < |next|
  {
    exists k: nat :: k < |next| && Chase(next, start, k) == slot
  }

  function Turn(p: nat, k: nat, n: nat): int {
    if p + k < n then p + k else p + k - n
  }

  lemma LinksStayInside(next: seq<nat>, idx: seq<nat>)
    requires Linked(next, idx) && Permutation(idx)
    ensures forall i :: 0 <= i < |next| ==> next[i] < |next|
  {
    forall i | 0 <= i < |next| ensures next[i] < |next| {
      var k := PlaceOf(idx, i);
      assert next[idx[k]] == idx[(k + 1) % |idx|];
    }
  }

  lemma NextIndex(i: nat, n: nat)
    requires i < n
    ensures (i + 1) % n == if i + 1 == n then 0 else i + 1
  {
  }

  lemma {:induction false} ChaseFollowsOrder(next: seq<nat>, idx: seq<nat>, p: nat, k: nat)
    requires Linked(next, idx) && Permutation(idx) && p < |idx| && k <= |idx|
    requires forall i :: 0 <= i < |next| ==> next[i] < |next|
    ensures Chase(next, idx[p], k) == idx[Turn(p, k, |idx|)]
  {
    if k > 0 {
      ChaseFollowsOrder(next, idx, p, k - 1);
      var at := Turn(p, k - 1, |idx|);
      NextIndex(at, |idx|);
      assert next[idx[at]] == idx[(at + 1) % |idx|];
    }
  }

  /** An injective sequence of n numbers below n contains each of them. */
  lemma PlaceOf(idx: seq<nat>, slot: nat) returns (k: nat)
    requires Permutation(idx) && slot < |idx|
    ensures k < |idx| && idx[k] == slot
  {
    if slot !in idx {
      var below := Numbers(|idx|);
      var used := Elements(idx);
      assert used <= below - {slot};
      Subset(used, below - {slot});
      assert false;
    }
    k :| 0 <= k < |idx| && idx[k] == slot;
  }

  lemma {:induction false} Numbers(n: nat) returns (all: set<nat>)
    ensures (forall x: nat :: x in all <==> x < n) && |all| == n
  {
    if n == 0 {
      all := {};
    } else {
      var fewer := Numbers(n - 1);
      all := fewer + {n - 1};
    }
  }

  lemma {:induction false} Elements(s: seq<nat>) returns (all: set<nat>)
    requires Injective(s)
    ensures (forall x :: x in all <==> x in s) && |all| == |s|
  {
    if s == [] {
      all := {};
    } else {
      var fewer := Elements(s[..|s| - 1]);
      all := fewer + {s[|s| - 1]};
      assert s == s[..|s| - 1] + [s[|s| - 1]];
    }
  }

  lemma {:induction false} Subset(a: set<nat>, b: set<nat>)
    requires a <= b
    ensures |a| <= |b|
  {
    assert b == a + (b - a);
  }

  lemma Reaches(next: seq<nat>, idx: seq<nat>, p: nat, slot: nat)
    requires Linked(next, idx) && Permutation(idx) && p < |idx| && slot < |idx|
    requires forall i :: 0 <= i < |next| ==> next[i] < |next|
    ensures Visited(next, idx[p], slot)
  {
    var q := PlaceOf(idx, slot);
    var k := if q >= p then q - p else q - p + |idx|;
    ChaseFollowsOrder(next, idx, p, k);
  }

  lemma NeverTwice(next: seq<nat>, idx: seq<nat>, p: nat, j: nat, k: nat)
    requires Linked(next, idx) && Permutation(idx) && p < |idx| && j < k < |idx|
    requires forall i :: 0 <= i < |next| ==> next[i] < |next|
    ensures Chase(next, idx[p], j) != Chase(next, idx[p], k)
  {
    ChaseFollowsOrder(next, idx, p, j);
    ChaseFollowsOrder(next, idx, p, k);
    assert Turn(p, j, |idx|) != Turn(p, k, |idx|);
  }

  /** Whatever the order, the links form one n-cycle, from any starting slot. */
  lemma LinkedIsOneCycle(next: seq<nat>, idx: seq<nat>, start: nat)
    requires Linked(next, idx) && Permutation(idx) && start < |idx|
    ensures VisitsAllOnce(next, start)
  {
    LinksStayInside(next, idx);
    var p := PlaceOf(idx, start);
    ChaseFollowsOrder(next, idx, p, |idx|);
    forall slot: nat | slot < |next| ensures Visited(next, start, slot) {
      Reaches(next, idx, p, slot);
    }
    forall j: nat, k: nat | j < k < |next| ensures Chase(next, start, j) != Chase(next, start, k) {
      NeverTwice(next, idx, p, j, k);
    }
  }
}
