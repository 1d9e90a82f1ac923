/**
  The hard-lockup half of the mini watchdog: online CPUs form a ring, every CPU's timer counts
  its own ticks, and on every third tick it checks whether its neighbour's count has moved.
 */
module LockupRing {

  // ----- The ring

  /** One flag per possible CPU; its length is nr_cpu_ids. */
  type Mask = seq<bool>

  predicate Online(mask: Mask, cpu: nat) {
    cpu < |mask| && mask[cpu]
  }

  /** The first online CPU at or after `from`, or |mask|. */
  function FirstFrom(mask: Mask, from: nat): nat
    decreases |mask| - from
  {
    if from >= |mask| then |mask|
    else if mask[from] then from
    else FirstFrom(mask, from + 1)
  }

  function NextCpuOf(mask: Mask, cpu: nat): nat {
    var next := FirstFrom(mask, cpu + 1);
    var wrapped := if next >= |mask| then FirstFrom(mask, 0) else next;
    if wrapped == cpu then |mask| else wrapped
  }

  /** How many CPUs below `cpu` are online. */
  function Rank(mask: Mask, cpu: nat): nat
    requires cpu <= |mask|
  {
    if cpu == 0 then 0 else Rank(mask, cpu - 1) + (if mask[cpu - 1] then 1 else 0)
  }

  function Count(mask: Mask): nat {
    Rank(mask, |mask|)
  }

  lemma {:induction false} FirstFromFinds(mask: Mask, from: nat)
    requires from <= |mask|
    ensures var f := FirstFrom(mask, from);
      && from <= f <= |mask|
      && (f < |mask| ==> mask[f])
      && (forall c :: from <= c < f ==> !mask[c])
      && Rank(mask, f) == Rank(mask, from)
    decreases |mask| - from
  {
    if from < |mask| && !mask[from] {
      FirstFromFinds(mask, from + 1);
    }
  }

  lemma {:induction false} RankMonotone(mask: Mask, a: nat, b: nat)
    requires a <= b <= |mask|
    ensures Rank(mask, a) <= Rank(mask, b)
    ensures Online(mask, a) && a < b ==> Rank(mask, a) < Rank(mask, b)
  {
    if a < b {
      RankMonotone(mask, a, b - 1);
    }
  }

  lemma RankInjective(mask: Mask, a: nat, b: nat)
    requires Online(mask, a) && Online(mask, b) && Rank(mask, a) == Rank(mask, b)
    ensures a == b
  {
    if a < b {
      RankMonotone(mask, a, b);
    } else {
      RankMonotone(mask, b, a);
    }
  }

  /** Counting round the ring. */
  function Wrap(x: nat, n: nat): int {
    if x < n then x else x - n
  }

  lemma ScanFacts(mask: Mask, cpu: nat)
    requires Online(mask, cpu)
    ensures var next := FirstFrom(mask, cpu + 1);
      && cpu < next <= |mask|
      && Rank(mask, next) == Rank(mask, cpu) + 1
      && (next < |mask| ==> mask[next] && Rank(mask, next) < Count(mask))
    ensures var first := FirstFrom(mask, 0);
      first <= cpu && mask[first] && Rank(mask, first) == 0 && (first < cpu ==> Rank(mask, cpu) > 0)
    ensures Rank(mask, cpu) < Count(mask)
  {
    FirstFromFinds(mask, cpu + 1);
    FirstFromFinds(mask, 0);
    RankMonotone(mask, cpu, |mask|);
    var next := FirstFrom(mask, cpu + 1);
    if next < |mask| {
      RankMonotone(mask, next, |mask|);
    }
    if FirstFrom(mask, 0) < cpu {
      RankMonotone(mask, FirstFrom(mask, 0), cpu);
    }
  }

  /** With two or more CPUs online, the neighbour is online and one place further round the ring. */
  lemma NextIsSuccessor(mask: Mask, cpu: nat)
    requires Online(mask, cpu) && Count(mask) >= 2
    ensures Online(mask, NextCpuOf(mask, cpu))
    ensures Rank(mask, NextCpuOf(mask, cpu)) == Wrap(Rank(mask, cpu) + 1, Count(mask))
    ensures Rank(mask, cpu) < Count(mask)
  {
    ScanFacts(mask, cpu);
  }

  /** In terms of the mask alone: the next online CPU above, or else the lowest one, with none in between. */
  lemma NextByIndex(mask: Mask, cpu: nat)
    requires Online(mask, cpu) && Count(mask) >= 2
    ensures var n := NextCpuOf(mask, cpu);
      && Online(mask, n) && n != cpu
      && (n > cpu ==> forall c :: cpu < c < n ==> !mask[c])
      && (n < cpu ==> forall c :: 0 <= c < n || cpu < c < |mask| ==> !mask[c])
  {
    NextIsSuccessor(mask, cpu);
    FirstFromFinds(mask, cpu + 1);
    FirstFromFinds(mask, 0);
  }

  /** A CPU that is alone has nobody to watch. */
  lemma AloneHasNoNeighbour(mask: Mask, cpu: nat)
    requires Online(mask, cpu)
    ensures NextCpuOf(mask, cpu) == |mask| <==> Count(mask) == 1
  {
    ScanFacts(mask, cpu);
  }

  function Along(mask: Mask, cpu: nat, steps: nat): nat {
    if steps == 0 then cpu else NextCpuOf(mask, Along(mask, cpu, steps - 1))
  }

  lemma {:induction false} AlongRank(mask: Mask, cpu: nat, steps: nat)
    requires Online(mask, cpu) && Count(mask) >= 2
    ensures Online(mask, Along(mask, cpu, steps))
    ensures steps <= Count(mask) ==>
      Rank(mask, Along(mask, cpu, steps)) == Wrap(Rank(mask, cpu) + steps, Count(mask))
  {
    ScanFacts(mask, cpu);
    if steps > 0 {
      AlongRank(mask, cpu, steps - 1);
      NextIsSuccessor(mask, Along(mask, cpu, steps - 1));
    }
  }

  ghost predicate OnTheWay(mask: Mask, a: nat, b: nat) {
    exists k: nat :: k < Count(mask) && Along(mask, a, k) == b
  }

  /**
    The watch relation is one single cycle: from any online CPU, following the neighbours visits
    every online CPU within Count steps, visits none twice, and then is back at the start.
   */
  lemma RingIsOneCycle(mask: Mask, a: nat)
    requires Online(mask, a) && Count(mask) >= 2
    ensures Along(mask, a, Count(mask)) == a
    ensures forall b :: Online(mask, b) ==> OnTheWay(mask, a, b)
    ensures forall j, k :: 0 <= j < k < Count(mask) ==> Along(mask, a, j) != Along(mask, a, k)
  {
    var n := Count(mask);
    ScanFacts(mask, a);
    AlongRank(mask, a, n);
    RankInjective(mask, Along(mask, a, n), a);
    forall b | Online(mask, b) ensures OnTheWay(mask, a, b) {
      var k := Distance(mask, a, b);
    }
    forall j, k | 0 <= j < k < n ensures Along(mask, a, j) != Along(mask, a, k) {
      AlongRank(mask, a, j);
      AlongRank(mask, a, k);
    }
  }

  /** How many steps round the ring b is from a. */
  lemma Distance(mask: Mask, a: nat, b: nat) returns (k: nat)
    requires Online(mask, a) && Online(mask, b) && Count(mask) >= 2
    ensures k < Count(mask) && Along(mask, a, k) == b
  {
    ScanFacts(mask, a);
    ScanFacts(mask, b);
    k := if Rank(mask, b) >= Rank(mask, a) then Rank(mask, b) - Rank(mask, a)
         else Rank(mask, b) - Rank(mask, a) + Count(mask);
    AlongRank(mask, a, k);
    RankInjective(mask, Along(mask, a, k), b);
  }

  /** Nobody is watched by two CPUs. */
  lemma WatcherIsUnique(mask: Mask, a: nat, b: nat)
    requires Online(mask, a) && Online(mask, b) && Count(mask) >= 2 && NextCpuOf(mask, a) == NextCpuOf(mask, b)
    ensures a == b
  {
    NextIsSuccessor(mask, a);
    NextIsSuccessor(mask, b);
    RankInjective(mask, a, b);
  }

  /** Between CPUs inside and outside any set there is a watcher outside that looks inside. */
  lemma {:induction false} SomeoneWatchesIn(mask: Mask, out: nat, k: nat, inside: set<nat>) returns (w: nat)
    requires Online(mask, out) && Count(mask) >= 2 && out !in inside && Along(mask, out, k) in inside
    ensures Online(mask, w) && w !in inside && NextCpuOf(mask, w) in inside
  {
    AlongRank(mask, out, k - 1);
    if Along(mask, out, k - 1) !in inside {
      w := Along(mask, out, k - 1);
    } else {
      w := SomeoneWatchesIn(mask, out, k - 1, inside);
    }
  }

  // ----- The timer

  /** The three per-CPU variables of the detector. */
  datatype Cpu = Cpu(ticks: nat, saved: nat, reported: bool)

  /** The check of one neighbour. */
  function Check(nb: Cpu): Cpu {
    if nb.saved == nb.ticks then nb.(reported := true) else nb.(reported := false, saved := nb.ticks)
  }

  function Fire(mask: Mask, cpus: seq<Cpu>, cpu: nat): (r: seq<Cpu>)
    requires |cpus| == |mask| && cpu < |mask|
    ensures |r| == |cpus|
  {
    var ticked := cpus[cpu := cpus[cpu].(ticks := cpus[cpu].ticks + 1)];
    var nb := NextCpuOf(mask, cpu);
    if ticked[cpu].ticks % 3 == 0 && nb < |mask| then ticked[nb := Check(ticked[nb])] else ticked
  }

  /** The per-CPU variables as the module keeps them, and the timer that updates them in place. */
  class Watchdog {
    const mask: Mask
    const ticks: array<nat>
    const saved: array<nat>
    const reported: array<bool>

    ghost predicate Valid() {
      && ticks.Length == saved.Length == reported.Length == |mask|
      && ticks != saved
    }

    ghost function Cpus(): (s: seq<Cpu>)
      requires Valid()
      reads this, ticks, saved, reported
      ensures |s| == |mask|
    {
      seq(|mask|, i requires 0 <= i < |mask| && Valid() reads this, ticks, saved, reported =>
        Cpu(ticks[i], saved[i], reported[i]))
    }

    constructor (mask: Mask)
      ensures Valid() && fresh(ticks) && fresh(saved) && fresh(reported)
      ensures this.mask == mask && Cpus() == Fresh(mask)
    {
      this.mask := mask;
      ticks := new nat[|mask|](_ => 0);
      saved := new nat[|mask|](_ => 0);
      reported := new bool[|mask|](_ => false);
    }

    method TimerFn(cpu: nat)
      requires Valid() && cpu < |mask|
      modifies ticks, saved, reported
      ensures Cpus() == Fire(mask, old(Cpus()), cpu)
    {
      ticks[cpu] := ticks[cpu] + 1;
      if ticks[cpu] % 3 == 0 {
        var nb := NextCpuOf(mask, cpu);
        if nb < |mask| {
          var nbTicks := ticks[nb];
          if saved[nb] == nbTicks {
            if !reported[nb] {
              reported[nb] := true;
            }
          } else {
            if reported[nb] {
              reported[nb] := false;
            }
            saved[nb] := nbTicks;
          }
        }
      }
    }
  }

  function Fresh(mask: Mask): seq<Cpu> {
    seq(|mask|, _ => Cpu(0, 0, false))
  }

  /** A trace is the order in which the timers of online CPUs fire. */
  predicate Trace(mask: Mask, tr: seq<nat>) {
    forall i :: 0 <= i < |tr| ==> Online(mask, tr[i])
  }

  function After(mask: Mask, start: seq<Cpu>, tr: seq<nat>): (r: seq<Cpu>)
    requires |start| == |mask| && Trace(mask, tr)
    ensures |r| == |mask|
  {
    if tr == [] then start else Fire(mask, After(mask, start, tr[..|tr| - 1]), tr[|tr| - 1])
  }

  function Fires(tr: seq<nat>, cpu: nat): nat {
    if tr == [] then 0 else Fires(tr[..|tr| - 1], cpu) + (if tr[|tr| - 1] == cpu then 1 else 0)
  }

  lemma {:induction false} TicksCount(mask: Mask, start: seq<Cpu>, tr: seq<nat>, cpu: nat)
    requires |start| == |mask| && Trace(mask, tr) && cpu < |mask|
    ensures After(mask, start, tr)[cpu].ticks == start[cpu].ticks + Fires(tr, cpu)
  {
    if tr != [] {
      TicksCount(mask, start, tr[..|tr| - 1], cpu);
    }
  }

  // ----- When is a CPU flagged?

  /** The last firing is the one in which w checks its neighbour. */
  predicate IsCheck(mask: Mask, tr: seq<nat>, w: nat) {
    tr != [] && tr[|tr| - 1] == w && Fires(tr, w) % 3 == 0
  }

  /** How far nb had ticked when w last looked at it; 0 before the first look. */
  function LastLook(mask: Mask, tr: seq<nat>, w: nat, nb: nat): nat {
    if tr == [] then 0
    else if IsCheck(mask, tr, w) then Fires(tr, nb)
    else LastLook(mask, tr[..|tr| - 1], w, nb)
  }

  /** Only the watcher's checks touch what is recorded about its neighbour. */
  lemma {:induction false} SavedIsLastLook(mask: Mask, tr: seq<nat>, w: nat)
    requires Trace(mask, tr) && Online(mask, w) && Count(mask) >= 2
    ensures NextCpuOf(mask, w) < |mask|
    ensures After(mask, Fresh(mask), tr)[NextCpuOf(mask, w)].saved == LastLook(mask, tr, w, NextCpuOf(mask, w))
  {
    var nb := NextCpuOf(mask, w);
    NextIsSuccessor(mask, w);
    if tr != [] {
      var p := tr[..|tr| - 1];
      var c := tr[|tr| - 1];
      SavedIsLastLook(mask, p, w);
      TicksCount(mask, Fresh(mask), tr, nb);
      TicksCount(mask, Fresh(mask), tr, c);
      if c != w && NextCpuOf(mask, c) == nb {
        WatcherIsUnique(mask, c, w);
      }
      NextIsSuccessor(mask, c);
    }
  }

  /**
    The detector is exact at every check: the neighbour is flagged if and only if its timer has
    not fired since the watcher's previous check (since the start, for the first one).
   */
  lemma FlaggedIffSilentSinceLastCheck(mask: Mask, tr: seq<nat>, w: nat)
    requires Trace(mask, tr) && Online(mask, w) && Count(mask) >= 2 && IsCheck(mask, tr, w)
    ensures NextCpuOf(mask, w) < |mask|
    ensures var nb := NextCpuOf(mask, w);
      After(mask, Fresh(mask), tr)[nb].reported
      <==> Fires(tr, nb) == LastLook(mask, tr[..|tr| - 1], w, nb)
  {
    var nb := NextCpuOf(mask, w);
    NextIsSuccessor(mask, w);
    SavedIsLastLook(mask, tr[..|tr| - 1], w);
    TicksCount(mask, Fresh(mask), tr, nb);
    TicksCount(mask, Fresh(mask), tr, w);
    NextIsNotSelf(mask, w);
  }

  lemma NextIsNotSelf(mask: Mask, w: nat)
    requires Online(mask, w) && Count(mask) >= 2
    ensures NextCpuOf(mask, w) != w
  {
    NextIsSuccessor(mask, w);
  }

  /** A CPU that ticks before the first check of it and between successive checks. */
  predicate KeepsTicking(mask: Mask, tr: seq<nat>, w: nat, nb: nat) {
    tr == [] ||
    (KeepsTicking(mask, tr[..|tr| - 1], w, nb)
     && (IsCheck(mask, tr, w) ==> Fires(tr, nb) != LastLook(mask, tr[..|tr| - 1], w, nb)))
  }

  /** Whether w's neighbour is flagged at the end of a run. */
  predicate Flagged(mask: Mask, tr: seq<nat>, w: nat)
    requires Trace(mask, tr) && Online(mask, w) && Count(mask) >= 2
  {
    NextIsSuccessor(mask, w);
    After(mask, Fresh(mask), tr)[NextCpuOf(mask, w)].reported
  }

  lemma FlagStep(mask: Mask, tr: seq<nat>, w: nat)
    requires Trace(mask, tr) && Online(mask, w) && Count(mask) >= 2 && tr != []
    ensures var p := tr[..|tr| - 1]; var nb := NextCpuOf(mask, w);
      Flagged(mask, tr, w)
      <==> if IsCheck(mask, tr, w) then Fires(tr, nb) == LastLook(mask, p, w, nb) else Flagged(mask, p, w)
  {
    if IsCheck(mask, tr, w) {
      FlaggedIffSilentSinceLastCheck(mask, tr, w);
    } else {
      FlagUntouched(mask, Fresh(mask), tr, w);
    }
  }

  lemma NotFlaggedAtStart(mask: Mask, w: nat)
    requires Online(mask, w) && Count(mask) >= 2
    ensures !Flagged(mask, [], w)
  {
    NextIsSuccessor(mask, w);
    assert After(mask, Fresh(mask), []) == Fresh(mask);
  }

  /** A CPU is never flagged, at any point of a run, exactly when it keeps ticking. */
  lemma {:induction false} NeverFlaggedIffKeepsTicking(mask: Mask, tr: seq<nat>, w: nat)
    requires Trace(mask, tr) && Online(mask, w) && Count(mask) >= 2
    ensures KeepsTicking(mask, tr, w, NextCpuOf(mask, w))
      <==> forall k :: 0 <= k <= |tr| ==> !Flagged(mask, tr[..k], w)
  {
    assert tr[..|tr|] == tr;
    if tr == [] {
      NotFlaggedAtStart(mask, w);
    } else {
      var p := tr[..|tr| - 1];
      NeverFlaggedIffKeepsTicking(mask, p, w);
      FlagStep(mask, tr, w);
      assert p[..|p|] == p;
      assert forall k :: 0 <= k <= |p| ==> p[..k] == tr[..k];
    }
  }

  /** A firing that is not the watcher's check leaves the neighbour's flag alone. */
  lemma FlagUntouched(mask: Mask, start: seq<Cpu>, tr: seq<nat>, w: nat)
    requires |start| == |mask| && Trace(mask, tr) && Online(mask, w) && Count(mask) >= 2 && tr != []
    requires tr[|tr| - 1] != w || (start[w].ticks + Fires(tr, w)) % 3 != 0
    ensures NextCpuOf(mask, w) < |mask|
    ensures var nb := NextCpuOf(mask, w);
      && After(mask, start, tr)[nb].reported == After(mask, start, tr[..|tr| - 1])[nb].reported
      && After(mask, start, tr)[nb].saved == After(mask, start, tr[..|tr| - 1])[nb].saved
  {
    var nb := NextCpuOf(mask, w);
    var c := tr[|tr| - 1];
    NextIsSuccessor(mask, w);
    NextIsSuccessor(mask, c);
    TicksCount(mask, start, tr, w);
    if c != w && NextCpuOf(mask, c) == nb {
      WatcherIsUnique(mask, c, w);
    }
  }

  // ----- Detection within six ticks

  /** How many checks of its neighbour w has made, when it entered with t ticks and fired f times. */
  function Checks(t: nat, f: nat): nat {
    (t + f) / 3 - t / 3
  }

  /** A stopped neighbour: recorded after one check, flagged for good after two. */
  lemma {:induction false} StoppedNeighbour(mask: Mask, start: seq<Cpu>, tr: seq<nat>, w: nat)
    requires |start| == |mask| && Trace(mask, tr) && Online(mask, w) && Count(mask) >= 2
    requires NextCpuOf(mask, w) !in tr
    ensures NextCpuOf(mask, w) < |mask|
    ensures var nb := After(mask, start, tr)[NextCpuOf(mask, w)];
      && (Checks(start[w].ticks, Fires(tr, w)) >= 1 ==> nb.saved == nb.ticks)
      && (Checks(start[w].ticks, Fires(tr, w)) >= 2 ==> nb.reported)
  {
    var n := NextCpuOf(mask, w);
    NextIsSuccessor(mask, w);
    if tr != [] {
      var p := tr[..|tr| - 1];
      StoppedNeighbour(mask, start, p, w);
      TicksCount(mask, start, tr, w);
      if tr[|tr| - 1] != w || (start[w].ticks + Fires(tr, w)) % 3 != 0 {
        FlagUntouched(mask, start, tr, w);
        TicksCount(mask, start, tr, n);
        TicksCount(mask, start, p, n);
      }
    }
  }

  /** From any state, in every run in which the given CPUs stay silent, w's six ticks flag its neighbour. */
  ghost predicate FlagsWithinSix(mask: Mask, stopped: set<nat>, w: nat)
    requires NextCpuOf(mask, w) < |mask|
  {
    forall start: seq<Cpu>, tr: seq<nat> ::
      |start| == |mask| && Trace(mask, tr) && (forall c :: c in stopped ==> c !in tr) && Fires(tr, w) >= 6
      ==> After(mask, start, tr)[NextCpuOf(mask, w)].reported
  }

  /**
    If some CPUs stop while another does not, there is one watcher that has not stopped, the same
    for every state and every run, that flags one of the stopped CPUs within six of its ticks.
   */
  lemma StoppedCpuIsFlagged(mask: Mask, stopped: set<nat>, alive: nat, dead: nat) returns (w: nat)
    requires Online(mask, alive) && alive !in stopped && Online(mask, dead) && dead in stopped
    ensures Count(mask) >= 2 && Online(mask, w) && w !in stopped
    ensures NextCpuOf(mask, w) in stopped && NextCpuOf(mask, w) < |mask| && FlagsWithinSix(mask, stopped, w)
  {
    TwoOnline(mask, alive, dead);
    var k := Distance(mask, alive, dead);
    w := SomeoneWatchesIn(mask, alive, k, stopped);
    NextIsSuccessor(mask, w);
    forall start: seq<Cpu>, tr: seq<nat> |
      |start| == |mask| && Trace(mask, tr) && (forall c :: c in stopped ==> c !in tr) && Fires(tr, w) >= 6
      ensures After(mask, start, tr)[NextCpuOf(mask, w)].reported
    {
      StoppedNeighbour(mask, start, tr, w);
    }
  }

  lemma TwoOnline(mask: Mask, a: nat, b: nat)
    requires Online(mask, a) && Online(mask, b) && a != b
    ensures Count(mask) >= 2
  {
    var low, high := if a < b then a else b, if a < b then b else a;
    RankMonotone(mask, low, high);
    RankMonotone(mask, high, |mask|);
  }

  /** A stopped CPU whose watcher has stopped too is never newly flagged: only "some" can be promised. */
  lemma {:induction false} SilentWatcherFlagsNobody(mask: Mask, start: seq<Cpu>, tr: seq<nat>, w: nat)
    requires |start| == |mask| && Trace(mask, tr) && Online(mask, w) && Count(mask) >= 2 && w !in tr
    ensures NextCpuOf(mask, w) < |mask|
    ensures After(mask, start, tr)[NextCpuOf(mask, w)].reported == start[NextCpuOf(mask, w)].reported
  {
    NextIsSuccessor(mask, w);
    if tr != [] {
      SilentWatcherFlagsNobody(mask, start, tr[..|tr| - 1], w);
      FlagUntouched(mask, start, tr, w);
    }
  }
}
