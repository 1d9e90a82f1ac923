/**
  The lock-free high-water mark shared by the softirq and workqueue experiments.  Each of any
  number of callbacks increments a counter, raises the recorded maximum with a compare-and-swap
  retry loop, works for a while and decrements the counter.  One action is one atomic operation.
 */
module HighWater {
  import opened Arithmetic

  datatype Pc =
    | Before               // has not yet incremented the counter
    | AtRead(c: int)       // about to read the maximum, having drawn the count c
    | AtCas(c: int, m: int)// about to swap the maximum from m to c
    | Inside               // past the loop, at work
    | Left                 // has decremented the counter

  datatype State = State(pcs: seq<Pc>, cur: int, maxcur: int)

  function Init(n: nat): State {
    State(seq(n, _ => Before), 0, 0)
  }

  predicate Enabled(s: State, i: nat) {
    i < |s.pcs| && s.pcs[i] != Left
  }

  function Step(s: State, i: nat): State
    requires Enabled(s, i)
  {
    match s.pcs[i]
    case Before => State(s.pcs[i := AtRead(s.cur + 1)], s.cur + 1, s.maxcur)
    case AtRead(c) => s.(pcs := s.pcs[i := if c <= s.maxcur then Inside else AtCas(c, s.maxcur)])
    case AtCas(c, m) =>
      if s.maxcur == m then s.(pcs := s.pcs[i := Inside], maxcur := c) else s.(pcs := s.pcs[i := AtRead(c)])
    case Inside => s.(pcs := s.pcs[i := Left], cur := s.cur - 1)
  }

  predicate Legal(n: nat, sched: seq<nat>)
    decreases |sched|, 0
  {
    sched == [] ||
    (Legal(n, sched[..|sched| - 1]) && Enabled(After(n, sched[..|sched| - 1]), sched[|sched| - 1]))
  }

  function After(n: nat, sched: seq<nat>): State
    requires Legal(n, sched)
    decreases |sched|, 1
  {
    if sched == [] then Init(n) else Step(After(n, sched[..|sched| - 1]), sched[|sched| - 1])
  }

  // ----- What the counter and the maximum are meant to be

  predicate Counted(pc: Pc) {
    pc.AtRead? || pc.AtCas? || pc.Inside?
  }

  predicate InBump(pc: Pc) {
    pc.AtRead? || pc.AtCas?
  }

  /** The callbacks that have entered and not yet left. */
  ghost function Active(s: State): set<nat> {
    set i: nat | i < |s.pcs| && Counted(s.pcs[i])
  }

  /** The largest number of callbacks active at once, over the whole run so far. */
  ghost function Peak(n: nat, sched: seq<nat>): int
    requires Legal(n, sched)
  {
    var here := |Active(After(n, sched))|;
    if sched == [] then here else Max(Peak(n, sched[..|sched| - 1]), here)
  }

  ghost predicate Quiet(s: State) {
    forall i :: 0 <= i < |s.pcs| ==> !InBump(s.pcs[i])
  }

  // ----- The invariant

  ghost predicate Inv(s: State, peak: int) {
    && s.cur == |Active(s)|
    && s.cur <= peak && 0 <= s.maxcur <= peak
    && (forall i :: 0 <= i < |s.pcs| && InBump(s.pcs[i]) ==> s.pcs[i].c <= peak)
    && (forall i :: 0 <= i < |s.pcs| && s.pcs[i].AtCas? ==> s.pcs[i].m <= s.maxcur && s.pcs[i].m < s.pcs[i].c)
    && (s.maxcur == peak || exists i :: 0 <= i < |s.pcs| && InBump(s.pcs[i]) && s.pcs[i].c == peak)
  }

  lemma ActiveAfterUpdate(s: State, s': State, i: nat, pc: Pc)
    requires i < |s.pcs| && s'.pcs == s.pcs[i := pc]
    ensures |Active(s')| == |Active(s)| + (if Counted(pc) then 1 else 0) - (if Counted(s.pcs[i]) then 1 else 0)
  {
    var rest := Active(s) - {i};
    assert Active(s) == if Counted(s.pcs[i]) then rest + {i} else rest;
    assert Active(s') == if Counted(pc) then rest + {i} else rest;
  }

  /** Every atomic operation keeps the invariant, with the peak brought up to date. */
  lemma StepKeepsInv(s: State, peak: int, i: nat)
    requires Inv(s, peak) && Enabled(s, i)
    ensures Inv(Step(s, i), Max(peak, Step(s, i).cur))
  {
    var s' := Step(s, i);
    var peak' := Max(peak, s'.cur);
    ActiveAfterUpdate(s, s', i, s'.pcs[i]);
    if s'.maxcur != peak' {
      if s.pcs[i].Before? && s'.cur == peak' {
        assert InBump(s'.pcs[i]) && s'.pcs[i].c == peak';
      } else {
        var j :| 0 <= j < |s.pcs| && InBump(s.pcs[j]) && s.pcs[j].c == peak;
        assert s'.pcs[j].c == peak';
      }
    }
  }

  lemma {:induction false} RunsKeepInv(n: nat, sched: seq<nat>)
    requires Legal(n, sched)
    ensures |After(n, sched).pcs| == n && Inv(After(n, sched), Peak(n, sched))
  {
    if sched == [] {
      assert Active(Init(n)) == {};
    } else {
      var k := |sched| - 1;
      RunsKeepInv(n, sched[..k]);
      StepKeepsInv(After(n, sched[..k]), Peak(n, sched[..k]), sched[k]);
    }
  }

  // ----- The theorems

  /**
    In every interleaving the recorded maximum never exceeds the true peak concurrency, equals it
    whenever no callback is inside the loop, and the counter is the true concurrency.
   */
  lemma MaximumIsThePeak(n: nat, sched: seq<nat>)
    requires Legal(n, sched)
    ensures After(n, sched).cur == |Active(After(n, sched))|
    ensures After(n, sched).maxcur <= Peak(n, sched) <= n
    ensures Quiet(After(n, sched)) ==> After(n, sched).maxcur == Peak(n, sched)
  {
    RunsKeepInv(n, sched);
    PeakIsBounded(n, sched);
  }

  lemma {:induction false} PeakIsBounded(n: nat, sched: seq<nat>)
    requires Legal(n, sched)
    ensures Peak(n, sched) <= n
  {
    RunsKeepInv(n, sched);
    ActiveIsBounded(After(n, sched), n);
    if sched != [] {
      PeakIsBounded(n, sched[..|sched| - 1]);
    }
  }

  lemma {:induction false} ActiveIsBounded(s: State, k: nat)
    requires k <= |s.pcs|
    ensures |set i: nat | i < k && Counted(s.pcs[i])| <= k
    ensures k == |s.pcs| ==> Active(s) == set i: nat | i < k && Counted(s.pcs[i])
  {
    if k > 0 {
      ActiveIsBounded(s, k - 1);
      var all := set i: nat | i < k && Counted(s.pcs[i]);
      var fewer := set i: nat | i < k - 1 && Counted(s.pcs[i]);
      assert all - {k - 1} == fewer;
    }
  }

  // ----- Lock freedom

  /** A swap that is bound to fail costs one more round of the loop. */
  function Weight(pc: Pc, maxcur: int): nat {
    match pc
    case Before => 6
    case AtRead(_) => 4
    case AtCas(_, m) => if m == maxcur then 3 else 5
    case Inside => 1
    case Left => 0
  }

  function Weights(pcs: seq<Pc>, maxcur: int): nat {
    if pcs == [] then 0 else Weights(pcs[..|pcs| - 1], maxcur) + Weight(pcs[|pcs| - 1], maxcur)
  }

  lemma {:induction false} WeightsAfterUpdate(pcs: seq<Pc>, maxcur: int, i: nat, pc: Pc)
    requires i < |pcs|
    ensures Weights(pcs[i := pc], maxcur) == Weights(pcs, maxcur) - Weight(pcs[i], maxcur) + Weight(pc, maxcur)
  {
    var k := |pcs| - 1;
    if i == k {
      assert pcs[i := pc][..k] == pcs[..k];
    } else {
      assert pcs[i := pc][..k] == pcs[..k][i := pc];
      WeightsAfterUpdate(pcs[..k], maxcur, i, pc);
    }
  }

  lemma {:induction false} WeightsAfterRaise(pcs: seq<Pc>, maxcur: int, maxcur': int)
    ensures Weights(pcs, maxcur') <= Weights(pcs, maxcur) + 2 * |pcs|
  {
    if pcs != [] {
      WeightsAfterRaise(pcs[..|pcs| - 1], maxcur, maxcur');
    }
  }

  /** Raising the maximum may spoil every other swap once, and it can be raised at most n times. */
  function Potential(n: nat, s: State): int {
    (n - s.maxcur) * (2 * n) + Weights(s.pcs, s.maxcur)
  }

  lemma RaiseLowers(n: nat, low: int, high: int)
    requires low < high
    ensures (n - high) * (2 * n) <= (n - low) * (2 * n) - 2 * n
  {
    if n > 0 {
      Distribute(n - low, n - high, 2 * n);
      MulAtLeast(high - low, 2 * n);
    }
  }

  lemma PotentialIsNat(n: nat, s: State)
    requires s.maxcur <= n
    ensures Potential(n, s) >= 0
  {
    assert (n - s.maxcur) * (2 * n) >= 0;
  }

  lemma StepLowersPotential(n: nat, s: State, peak: int, i: nat)
    requires |s.pcs| == n && Inv(s, peak) && Enabled(s, i)
    ensures Potential(n, Step(s, i)) < Potential(n, s)
  {
    var s' := Step(s, i);
    WeightsAfterUpdate(s.pcs, s.maxcur, i, s'.pcs[i]);
    assert s'.pcs == s.pcs[i := s'.pcs[i]];
    if s'.maxcur != s.maxcur {
      WeightsAfterRaise(s'.pcs, s.maxcur, s'.maxcur);
      RaiseLowers(n, s.maxcur, s'.maxcur);
    }
  }

  lemma {:induction false} InitialWeights(n: nat)
    ensures Weights(seq(n, _ => Before), 0) == 6 * n
  {
    if n > 0 {
      assert seq(n, _ => Before)[..n - 1] == seq(n - 1, _ => Before);
      InitialWeights(n - 1);
    }
  }

  /**
    The retry loop cannot spin for ever: whatever the interleaving, n callbacks take at most
    2n^2 + 6n atomic operations between them.
   */
  lemma RunsAreShort(n: nat, sched: seq<nat>)
    requires Legal(n, sched)
    ensures |sched| <= 2 * n * n + 6 * n
  {
    StepsPlusPotential(n, sched);
    MaximumIsThePeak(n, sched);
    PotentialIsNat(n, After(n, sched));
  }

  lemma {:induction false} StepsPlusPotential(n: nat, sched: seq<nat>)
    requires Legal(n, sched)
    ensures |sched| + Potential(n, After(n, sched)) <= 2 * n * n + 6 * n
  {
    if sched == [] {
      InitialWeights(n);
    } else {
      var k := |sched| - 1;
      StepsPlusPotential(n, sched[..k]);
      RunsKeepInv(n, sched[..k]);
      StepLowersPotential(n, After(n, sched[..k]), Peak(n, sched[..k]), sched[k]);
    }
  }
}
