/**
  The store-buffering litmus test: over an array of slots, one thread stores x and loads y while
  the other stores y and loads x.  The two run at any relative pace, with no handshake per slot.
 */
module StoreBuffering {
  import opened Arithmetic
  import opened StoreBuffer

  datatype Mode = Unordered | Dmb | SeqCst
  datatype Thread = T0 | T1
  datatype Loc = X(slot: nat) | Y(slot: nat)
  datatype Stage = Storing | AtBarrier | Loading

  /** Where a thread is, and the registers (r0 or r1 of each slot) it has filled so far. */
  datatype Local = Local(stage: Stage, regs: seq<int>)

  datatype State = State(m: Memory<Thread, Loc>, a: Local, b: Local)

  datatype Action = Moves(t: Thread) | Drains(t: Thread, l: Loc)

  function Other(t: Thread): Thread {
    if t == T0 then T1 else T0
  }

  function Mine(t: Thread, slot: nat): Loc {
    if t == T0 then X(slot) else Y(slot)
  }

  function At(s: State, t: Thread): Local {
    if t == T0 then s.a else s.b
  }

  function With(s: State, t: Thread, local: Local): State {
    if t == T0 then s.(a := local) else s.(b := local)
  }

  function Init(): State {
    State(Blank(), Local(Storing, []), Local(Storing, []))
  }

  /** A barrier, or a sequentially consistent access, waits for the thread's pending stores. */
  ghost predicate Enabled(mode: Mode, n: nat, s: State, act: Action) {
    match act
    case Drains(t, l) => Pending(s.m, t, l) != []
    case Moves(t) =>
      && |At(s, t).regs| < n
      && (mode == Dmb && At(s, t).stage == AtBarrier ==> Drained(s.m, t))
      && (mode == SeqCst && At(s, t).stage != AtBarrier ==> Drained(s.m, t))
  }

  function Move(s: State, t: Thread): State {
    var me := At(s, t);
    var slot := |me.regs|;
    match me.stage
    case Storing => With(s.(m := Store(s.m, t, Mine(t, slot), 1)), t, me.(stage := AtBarrier))
    case AtBarrier => With(s, t, me.(stage := Loading))
    case Loading => With(s, t, Local(Storing, me.regs + [Load(s.m, t, Mine(Other(t), slot))]))
  }

  ghost function Apply(mode: Mode, n: nat, s: State, act: Action): State
    requires Enabled(mode, n, s, act)
  {
    match act
    case Moves(t) => Move(s, t)
    case Drains(t, l) => s.(m := Drain(s.m, t, l))
  }

  datatype Outcome = Stuck | Reached(s: State)

  ghost function Run(mode: Mode, n: nat, sched: seq<Action>): Outcome {
    if sched == [] then Reached(Init())
    else
      var before := Run(mode, n, sched[..|sched| - 1]);
      var act := sched[|sched| - 1];
      if before.Reached? && Enabled(mode, n, before.s, act) then Reached(Apply(mode, n, before.s, act)) else Stuck
  }

  ghost predicate Complete(n: nat, s: State) {
    |s.a.regs| == n && |s.b.regs| == n
  }

  // ----- Ordered modes

  ghost predicate Issued(s: State, t: Thread, i: nat) {
    i < |At(s, t).regs| || (i == |At(s, t).regs| && At(s, t).stage != Storing)
  }

  /** Once a thread has gone past its barrier for slot i, its store is in memory. */
  ghost predicate PastBarrier(mode: Mode, s: State, t: Thread, i: nat) {
    i < |At(s, t).regs| || (mode == Dmb && i == |At(s, t).regs| && At(s, t).stage == Loading)
  }

  ghost predicate OnlyOnes(m: Memory<Thread, Loc>, t: Thread, l: Loc) {
    && (Pending(m, t, l) != [] ==> l == Mine(t, l.slot))
    && (forall k :: 0 <= k < |Pending(m, t, l)| ==> Pending(m, t, l)[k] == 1)
  }

  ghost predicate Inv(mode: Mode, n: nat, s: State) {
    && (forall t, l :: OnlyOnes(s.m, t, l))
    && (forall t, i :: Issued(s, t, i) ==> Load(s.m, t, Mine(t, i)) == 1)
    && (forall t, i :: PastBarrier(mode, s, t, i) ==> Cell(s.m, Mine(t, i)) == 1)
    && (forall i :: 0 <= i < |s.a.regs| && i < |s.b.regs| ==> s.a.regs[i] != 0 || s.b.regs[i] != 0)
    && |s.a.regs| <= n && |s.b.regs| <= n
  }

  lemma DrainKeepsInv(mode: Mode, n: nat, s: State, t: Thread, l: Loc)
    requires mode != Unordered && Inv(mode, n, s) && Pending(s.m, t, l) != []
    ensures Inv(mode, n, s.(m := Drain(s.m, t, l)))
  {
    var d := Drain(s.m, t, l);
    var s' := s.(m := d);
    DrainEffect(s.m, t, l);
    assert OnlyOnes(s.m, t, l);
    forall t', l' ensures OnlyOnes(d, t', l') {
      assert OnlyOnes(s.m, t', l');
      if (t', l') == (t, l) {
        assert Pending(d, t, l) == Pending(s.m, t, l)[1..];
      }
    }
    forall t', i | Issued(s', t', i) ensures Load(d, t', Mine(t', i)) == 1 {
      assert Issued(s, t', i);
      assert OnlyOnes(d, t', Mine(t', i));
    }
    forall t', i | PastBarrier(mode, s', t', i) ensures Cell(d, Mine(t', i)) == 1 {
      assert PastBarrier(mode, s, t', i);
    }
  }

  lemma StoringKeepsInv(mode: Mode, n: nat, s: State, t: Thread)
    requires mode != Unordered && Inv(mode, n, s) && Enabled(mode, n, s, Moves(t)) && At(s, t).stage == Storing
    ensures Inv(mode, n, Move(s, t))
  {
    var s' := Move(s, t);
    var slot := |At(s, t).regs|;
    forall t', l' ensures OnlyOnes(s'.m, t', l') {
      assert OnlyOnes(s.m, t', l');
    }
    forall t', i | Issued(s', t', i) ensures Load(s'.m, t', Mine(t', i)) == 1 {
      assert (t' == t && i == slot) || Issued(s, t', i);
    }
    forall t', i | PastBarrier(mode, s', t', i) ensures Cell(s'.m, Mine(t', i)) == 1 {
      assert PastBarrier(mode, s, t', i);
    }
  }

  lemma BarrierKeepsInv(mode: Mode, n: nat, s: State, t: Thread)
    requires mode != Unordered && Inv(mode, n, s) && Enabled(mode, n, s, Moves(t)) && At(s, t).stage == AtBarrier
    ensures Inv(mode, n, Move(s, t))
  {
    var s' := Move(s, t);
    forall t', i | Issued(s', t', i) ensures Load(s'.m, t', Mine(t', i)) == 1 {
      assert Issued(s, t', i);
    }
    forall t', i | PastBarrier(mode, s', t', i) ensures Cell(s'.m, Mine(t', i)) == 1 {
      if !PastBarrier(mode, s, t', i) {
        assert Issued(s, t', i);
        assert Load(s.m, t, Mine(t, i)) == 1 && Pending(s.m, t, Mine(t, i)) == [];
      }
    }
  }

  /** A load that finds the other thread past its barrier for this slot loads that thread's store. */
  lemma LoadingKeepsInv(mode: Mode, n: nat, s: State, t: Thread)
    requires mode != Unordered && Inv(mode, n, s) && Enabled(mode, n, s, Moves(t)) && At(s, t).stage == Loading
    ensures Inv(mode, n, Move(s, t))
  {
    var s' := Move(s, t);
    var slot := |At(s, t).regs|;
    forall t', i | Issued(s', t', i) ensures Load(s'.m, t', Mine(t', i)) == 1 {
      assert Issued(s, t', i);
    }
    forall t', i | PastBarrier(mode, s', t', i) ensures Cell(s'.m, Mine(t', i)) == 1 {
      if !PastBarrier(mode, s, t', i) {
        assert Issued(s, t', i);
        assert Load(s.m, t, Mine(t, i)) == 1 && Pending(s.m, t, Mine(t, i)) == [];
      }
    }
    if slot < |At(s, Other(t)).regs| {
      assert PastBarrier(mode, s, Other(t), slot);
      assert OnlyOnes(s.m, t, Mine(Other(t), slot));
    }
  }

  lemma MoveKeepsInv(mode: Mode, n: nat, s: State, t: Thread)
    requires mode != Unordered && Inv(mode, n, s) && Enabled(mode, n, s, Moves(t))
    ensures Inv(mode, n, Move(s, t))
  {
    match At(s, t).stage
    case Storing => StoringKeepsInv(mode, n, s, t);
    case AtBarrier => BarrierKeepsInv(mode, n, s, t);
    case Loading => LoadingKeepsInv(mode, n, s, t);
  }

  lemma {:induction false} RunsKeepInv(mode: Mode, n: nat, sched: seq<Action>)
    requires mode != Unordered && Run(mode, n, sched).Reached?
    ensures Inv(mode, n, Run(mode, n, sched).s)
  {
    if sched != [] {
      var k := |sched| - 1;
      RunsKeepInv(mode, n, sched[..k]);
      var s := Run(mode, n, sched[..k]).s;
      match sched[k]
      case Moves(t) => MoveKeepsInv(mode, n, s, t);
      case Drains(t, l) => DrainKeepsInv(mode, n, s, t, l);
    }
  }

  // ----- The unordered mode: nothing ever needs to drain

  /** Every slot reads zero for thread t: no store of the other thread has drained. */
  ghost predicate StillZero(s: State, t: Thread) {
    forall i: nat :: Load(s.m, t, Mine(Other(t), i)) == 0
  }

  function Zeros(k: nat): seq<int> {
    seq(k, _ => 0)
  }

  lemma Extend(mode: Mode, n: nat, sched: seq<Action>, act: Action)
    requires Run(mode, n, sched).Reached? && Enabled(mode, n, Run(mode, n, sched).s, act)
    ensures Run(mode, n, sched + [act]) == Reached(Apply(mode, n, Run(mode, n, sched).s, act))
  {
    assert (sched + [act])[..|sched + [act]| - 1] == sched;
  }

  lemma StoreStaysHidden(s: State, t: Thread, slot: nat, u: Thread)
    requires StillZero(s, u)
    ensures StillZero(s.(m := Store(s.m, t, Mine(t, slot), 1)), u)
  {
    var s' := s.(m := Store(s.m, t, Mine(t, slot), 1));
    forall i: nat ensures Load(s'.m, u, Mine(Other(u), i)) == 0 {
      assert Load(s.m, u, Mine(Other(u), i)) == 0;
      assert (t, Mine(t, slot)) != (u, Mine(Other(u), i));
    }
  }

  /** One slot of one thread, with no store draining meanwhile. */
  lemma OneSlot(s: State, t: Thread)
    requires At(s, t).stage == Storing && StillZero(s, T0) && StillZero(s, T1)
    ensures var s' := Move(Move(Move(s, t), t), t);
      && At(s', t) == Local(Storing, At(s, t).regs + [0]) && At(s', Other(t)) == At(s, Other(t))
      && StillZero(s', T0) && StillZero(s', T1)
  {
    var slot := |At(s, t).regs|;
    StoreStaysHidden(s, t, slot, T0);
    StoreStaysHidden(s, t, slot, T1);
    var s1 := Move(s, t);
    assert StillZero(s1, t);
    assert Load(s1.m, t, Mine(Other(t), slot)) == 0;
    var s3 := Move(Move(s1, t), t);
    assert s3.m == s1.m;
  }

  /** Thread t alone goes through its next slot. */
  lemma ThreeMoves(n: nat, p: seq<Action>, t: Thread) returns (sched: seq<Action>)
    requires Run(Unordered, n, p).Reached? && At(Run(Unordered, n, p).s, t).stage == Storing
    requires |At(Run(Unordered, n, p).s, t).regs| < n
    ensures Run(Unordered, n, sched) == Reached(Move(Move(Move(Run(Unordered, n, p).s, t), t), t))
  {
    Extend(Unordered, n, p, Moves(t));
    Extend(Unordered, n, p + [Moves(t)], Moves(t));
    Extend(Unordered, n, p + [Moves(t)] + [Moves(t)], Moves(t));
    sched := p + [Moves(t)] + [Moves(t)] + [Moves(t)];
  }

  /** From `s` on, thread t alone has done k slots and read zeros only. */
  ghost predicate Solo(s: State, t: Thread, k: nat, s': State) {
    && At(s', t) == Local(Storing, Zeros(k)) && At(s', Other(t)) == At(s, Other(t))
    && StillZero(s', T0) && StillZero(s', T1)
  }

  lemma SoloStep(s: State, t: Thread, k: nat, s': State)
    requires Solo(s, t, k, s')
    ensures Solo(s, t, k + 1, Move(Move(Move(s', t), t), t))
  {
    OneSlot(s', t);
    assert Zeros(k + 1) == Zeros(k) + [0];
  }

  lemma {:induction false} SoloRun(n: nat, before: seq<Action>, t: Thread, k: nat) returns (sched: seq<Action>)
    requires k <= n && Run(Unordered, n, before).Reached?
    requires Solo(Run(Unordered, n, before).s, t, 0, Run(Unordered, n, before).s)
    ensures Run(Unordered, n, sched).Reached?
    ensures Solo(Run(Unordered, n, before).s, t, k, Run(Unordered, n, sched).s)
  {
    if k == 0 {
      sched := before;
    } else {
      var p := SoloRun(n, before, t, k - 1);
      SoloStep(Run(Unordered, n, before).s, t, k - 1, Run(Unordered, n, p).s);
      sched := ThreeMoves(n, p, t);
    }
  }

  /** Without a barrier a complete run exists in which every single slot ends with two zeros. */
  lemma UnorderedAllZero(n: nat) returns (sched: seq<Action>)
    ensures Run(Unordered, n, sched).Reached?
    ensures Run(Unordered, n, sched).s.a.regs == Zeros(n) && Run(Unordered, n, sched).s.b.regs == Zeros(n)
  {
    assert Run(Unordered, n, []) == Reached(Init());
    assert Zeros(0) == [];
    var half := SoloRun(n, [], T0, n);
    sched := SoloRun(n, half, T1, n);
  }

  // ----- The theorem

  ghost predicate BothZero(s: State, i: nat) {
    i < |s.a.regs| && i < |s.b.regs| && s.a.regs[i] == 0 && s.b.regs[i] == 0
  }

  ghost predicate NeverBothZero(mode: Mode, n: nat) {
    forall sched, i :: Run(mode, n, sched).Reached? ==> !BothZero(Run(mode, n, sched).s, i)
  }

  /** No run of any length shows two zeros in a slot exactly when there is a barrier (or no slot). */
  lemma BarrierIffNeverBothZero(mode: Mode, n: nat)
    ensures NeverBothZero(mode, n) <==> mode != Unordered || n == 0
  {
    if mode != Unordered {
      forall sched, i | Run(mode, n, sched).Reached? ensures !BothZero(Run(mode, n, sched).s, i) {
        RunsKeepInv(mode, n, sched);
      }
    } else if n > 0 {
      var sched := UnorderedAllZero(n);
      assert BothZero(Run(mode, n, sched).s, 0);
    } else {
      forall sched, i | Run(mode, n, sched).Reached? ensures !BothZero(Run(mode, n, sched).s, i) {
        NoSlots(mode, sched);
      }
    }
  }

  lemma {:induction false} NoSlots(mode: Mode, sched: seq<Action>)
    requires Run(mode, 0, sched).Reached?
    ensures Run(mode, 0, sched).s.a.regs == [] && Run(mode, 0, sched).s.b.regs == []
  {
    if sched != [] {
      NoSlots(mode, sched[..|sched| - 1]);
    }
  }

  // ----- Every run can be finished

  /** The locations to which a thread still has pending stores. */
  function PendingLocs(m: Memory<Thread, Loc>, t: Thread): set<Loc> {
    set p | p in m.buffers && p.0 == t && m.buffers[p] != [] :: p.1
  }

  lemma NonePending(m: Memory<Thread, Loc>, t: Thread)
    ensures PendingLocs(m, t) == {} ==> Drained(m, t)
  {
    forall l | PendingLocs(m, t) == {} ensures Pending(m, t, l) == [] {
      PendingIsLoc(m, t, l);
    }
  }

  lemma DrainLowersPending(m: Memory<Thread, Loc>, t: Thread, l: Loc)
    requires Pending(m, t, l) != []
    ensures PendingLocs(Drain(m, t, l), t)
      == if |Pending(m, t, l)| == 1 then PendingLocs(m, t) - {l} else PendingLocs(m, t)
    ensures |Pending(Drain(m, t, l), t, l)| == |Pending(m, t, l)| - 1
  {
    var d := Drain(m, t, l);
    forall k ensures k in PendingLocs(d, t) <==> Pending(d, t, k) != [] {
      PendingIsLoc(d, t, k);
    }
    forall k ensures k in PendingLocs(m, t) <==> Pending(m, t, k) != [] {
      PendingIsLoc(m, t, k);
    }
  }

  lemma PendingIsLoc(m: Memory<Thread, Loc>, t: Thread, l: Loc)
    ensures l in PendingLocs(m, t) <==> Pending(m, t, l) != []
  {
    if Pending(m, t, l) != [] {
      assert (t, l) in m.buffers && m.buffers[(t, l)] != [];
    }
  }

  lemma {:induction false} DrainLoc(mode: Mode, n: nat, sched: seq<Action>, t: Thread, l: Loc)
    returns (all: seq<Action>)
    requires Run(mode, n, sched).Reached? && Pending(Run(mode, n, sched).s.m, t, l) != []
    ensures sched <= all && Run(mode, n, all).Reached?
    ensures var s, s' := Run(mode, n, sched).s, Run(mode, n, all).s;
      s'.a == s.a && s'.b == s.b && PendingLocs(s'.m, t) == PendingLocs(s.m, t) - {l}
    decreases |Pending(Run(mode, n, sched).s.m, t, l)|
  {
    var s := Run(mode, n, sched).s;
    Extend(mode, n, sched, Drains(t, l));
    DrainLowersPending(s.m, t, l);
    all := sched + [Drains(t, l)];
    if |Pending(s.m, t, l)| > 1 {
      all := DrainLoc(mode, n, all, t, l);
    }
  }

  /** A thread's stores can always drain, whatever else is going on. */
  lemma {:induction false} DrainAll(mode: Mode, n: nat, sched: seq<Action>, t: Thread) returns (all: seq<Action>)
    requires Run(mode, n, sched).Reached?
    ensures sched <= all && Run(mode, n, all).Reached?
    ensures var s, s' := Run(mode, n, sched).s, Run(mode, n, all).s;
      s'.a == s.a && s'.b == s.b && Drained(s'.m, t)
    decreases |PendingLocs(Run(mode, n, sched).s.m, t)|
  {
    all := sched;
    var m := Run(mode, n, sched).s.m;
    NonePending(m, t);
    if PendingLocs(m, t) != {} {
      var l :| l in PendingLocs(m, t);
      PendingIsLoc(m, t, l);
      all := DrainLoc(mode, n, sched, t, l);
      all := DrainAll(mode, n, all, t);
    }
  }

  function MovesLeft(n: nat, local: Local): int {
    3 * (n - |local.regs|) - (match local.stage case Storing => 0 case AtBarrier => 1 case Loading => 2)
  }

  /** With its stores drained a thread can move on, in every mode, until it has done all slots. */
  lemma {:induction false} ThreadCanFinish(mode: Mode, n: nat, sched: seq<Action>, t: Thread) returns (all: seq<Action>)
    requires Run(mode, n, sched).Reached? && |At(Run(mode, n, sched).s, t).regs| <= n
    ensures sched <= all && Run(mode, n, all).Reached?
    ensures |At(Run(mode, n, all).s, t).regs| == n
    ensures At(Run(mode, n, all).s, Other(t)) == At(Run(mode, n, sched).s, Other(t))
    decreases n - |At(Run(mode, n, sched).s, t).regs|, MovesLeft(n, At(Run(mode, n, sched).s, t))
  {
    all := sched;
    if |At(Run(mode, n, sched).s, t).regs| < n {
      all := DrainAll(mode, n, sched, t);
      Extend(mode, n, all, Moves(t));
      all := all + [Moves(t)];
      all := ThreadCanFinish(mode, n, all, t);
    }
  }

  lemma {:induction false} NeverTooFar(mode: Mode, n: nat, sched: seq<Action>)
    requires Run(mode, n, sched).Reached?
    ensures |Run(mode, n, sched).s.a.regs| <= n && |Run(mode, n, sched).s.b.regs| <= n
  {
    if sched != [] {
      NeverTooFar(mode, n, sched[..|sched| - 1]);
    }
  }

  /** No barrier waits for ever: in every mode every run can be continued until both threads are done. */
  lemma EveryRunCanFinish(mode: Mode, n: nat, sched: seq<Action>) returns (all: seq<Action>)
    requires Run(mode, n, sched).Reached?
    ensures sched <= all && Run(mode, n, all).Reached? && Complete(n, Run(mode, n, all).s)
  {
    NeverTooFar(mode, n, sched);
    all := ThreadCanFinish(mode, n, sched, T0);
    all := ThreadCanFinish(mode, n, all, T1);
  }

  // ----- Every register, told from the schedule alone

  function CountMoves(sched: seq<Action>, t: Thread): nat {
    if sched == [] then 0
    else CountMoves(sched[..|sched| - 1], t) + (if sched[|sched| - 1] == Moves(t) then 1 else 0)
  }

  /** Thread t's store for a slot reaching memory: x for the first thread, y for the second. */
  function Arrival(t: Thread, slot: nat): Action {
    if t == T0 then Drains(T0, X(slot)) else Drains(T1, Y(slot))
  }

  /** Every third move of a thread fills a register, with whether the other's store for the slot has arrived. */
  function RegsOf(sched: seq<Action>, t: Thread): seq<int> {
    if sched == [] then []
    else
      var before := sched[..|sched| - 1];
      var regs := RegsOf(before, t);
      if sched[|sched| - 1] != Moves(t) || CountMoves(before, t) != 3 * |regs| + 2 then regs
      else regs + [if Arrival(Other(t), |regs|) in before then 1 else 0]
  }

  ghost predicate ThreadTold(sched: seq<Action>, s: State, t: Thread) {
    && At(s, t).regs == RegsOf(sched, t)
    && CountMoves(sched, t)
       == 3 * |At(s, t).regs| + (match At(s, t).stage case Storing => 0 case AtBarrier => 1 case Loading => 2)
  }

  /** Where a store is: not issued, on its way, or arrived; nobody else stores there. */
  ghost predicate StoreTold(sched: seq<Action>, m: Memory<Thread, Loc>, t: Thread, l: Loc, slot: nat) {
    var arrived := Arrival(t, slot) in sched;
    && Cell(m, l) == (if arrived then 1 else 0)
    && Pending(m, t, l) == (if CountMoves(sched, t) > 3 * slot && !arrived then [1] else [])
    && Pending(m, Other(t), l) == []
    && (arrived ==> CountMoves(sched, t) > 3 * slot)
  }

  ghost predicate Told(sched: seq<Action>, s: State) {
    && ThreadTold(sched, s, T0) && ThreadTold(sched, s, T1)
    && (forall i: nat :: StoreTold(sched, s.m, T0, X(i), i))
    && (forall i: nat :: StoreTold(sched, s.m, T1, Y(i), i))
  }

  lemma Grow(before: seq<Action>, act: Action)
    ensures (before + [act])[..|before + [act]| - 1] == before
    ensures forall t :: CountMoves(before + [act], t) == CountMoves(before, t) + (if act == Moves(t) then 1 else 0)
    ensures forall a :: a in before + [act] <==> a in before || a == act
  {
    assert (before + [act])[..|before|] == before;
  }

  lemma LoadTold(before: seq<Action>, s: State, t: Thread)
    requires Told(before, s)
    ensures Load(s.m, t, Mine(Other(t), |At(s, t).regs|))
      == if Arrival(Other(t), |At(s, t).regs|) in before then 1 else 0
  {
    var k := |At(s, t).regs|;
    assert if t == T0 then StoreTold(before, s.m, T1, Y(k), k) else StoreTold(before, s.m, T0, X(k), k);
  }

  lemma MoveThreadsTold(before: seq<Action>, s: State, t: Thread, u: Thread)
    requires Told(before, s)
    ensures ThreadTold(before + [Moves(t)], Move(s, t), u)
  {
    Grow(before, Moves(t));
    LoadTold(before, s, t);
  }

  lemma MoveStoresTold(before: seq<Action>, s: State, t: Thread, u: Thread, l: Loc, slot: nat)
    requires Told(before, s) && l == (if u == T0 then X(slot) else Y(slot))
    ensures StoreTold(before + [Moves(t)], Move(s, t).m, u, l, slot)
  {
    Grow(before, Moves(t));
    assert StoreTold(before, s.m, u, l, slot);
    if At(s, t).stage == Storing {
      StoreEffect(s.m, t, Mine(t, |At(s, t).regs|), 1);
    }
  }

  lemma StoreEffect(m: Memory<Thread, Loc>, t: Thread, l: Loc, v: int)
    ensures var m' := Store(m, t, l, v);
      && Pending(m', t, l) == Pending(m, t, l) + [v]
      && (forall t', k :: (t', k) != (t, l) ==> Pending(m', t', k) == Pending(m, t', k))
      && (forall k :: Cell(m', k) == Cell(m, k))
  {
  }

  lemma MoveTold(before: seq<Action>, s: State, t: Thread)
    requires Told(before, s)
    ensures Told(before + [Moves(t)], Move(s, t))
  {
    MoveThreadsTold(before, s, t, T0);
    MoveThreadsTold(before, s, t, T1);
    forall i: nat ensures StoreTold(before + [Moves(t)], Move(s, t).m, T0, X(i), i) {
      MoveStoresTold(before, s, t, T0, X(i), i);
    }
    forall i: nat ensures StoreTold(before + [Moves(t)], Move(s, t).m, T1, Y(i), i) {
      MoveStoresTold(before, s, t, T1, Y(i), i);
    }
  }

  /** Whoever has a store pending: it is the thread's own, for the location's slot. */
  lemma OnlyOwnStores(before: seq<Action>, s: State, t: Thread, l: Loc)
    requires Told(before, s) && Pending(s.m, t, l) != []
    ensures Drains(t, l) == Arrival(t, l.slot) && Pending(s.m, t, l) == [1]
  {
    assert StoreTold(before, s.m, T0, X(l.slot), l.slot);
    assert StoreTold(before, s.m, T1, Y(l.slot), l.slot);
    match l
    case X(i) =>
    case Y(i) =>
  }

  lemma DrainStoresTold(before: seq<Action>, s: State, t: Thread, l: Loc, u: Thread, k: Loc, slot: nat)
    requires Told(before, s) && Pending(s.m, t, l) != [] && k == (if u == T0 then X(slot) else Y(slot))
    ensures StoreTold(before + [Drains(t, l)], Drain(s.m, t, l), u, k, slot)
  {
    Grow(before, Drains(t, l));
    OnlyOwnStores(before, s, t, l);
    DrainEffect(s.m, t, l);
    assert StoreTold(before, s.m, u, k, slot);
  }

  lemma DrainTold(before: seq<Action>, s: State, t: Thread, l: Loc)
    requires Told(before, s) && Pending(s.m, t, l) != []
    ensures Told(before + [Drains(t, l)], s.(m := Drain(s.m, t, l)))
  {
    Grow(before, Drains(t, l));
    forall i: nat ensures StoreTold(before + [Drains(t, l)], Drain(s.m, t, l), T0, X(i), i) {
      DrainStoresTold(before, s, t, l, T0, X(i), i);
    }
    forall i: nat ensures StoreTold(before + [Drains(t, l)], Drain(s.m, t, l), T1, Y(i), i) {
      DrainStoresTold(before, s, t, l, T1, Y(i), i);
    }
  }

  /**
    In every mode and every run the schedule tells everything: register i of a thread is 1 exactly
    when the other thread's store for slot i arrived before the load, and each store is issued once,
    by its own thread's move for that slot.
   */
  lemma {:induction false} ScheduleTells(mode: Mode, n: nat, sched: seq<Action>)
    requires Run(mode, n, sched).Reached?
    ensures Told(sched, Run(mode, n, sched).s)
  {
    if sched != [] {
      var k := |sched| - 1;
      var s := Run(mode, n, sched[..k]).s;
      ScheduleTells(mode, n, sched[..k]);
      assert sched[..k] + [sched[k]] == sched;
      match sched[k]
      case Moves(t) => MoveTold(sched[..k], s, t);
      case Drains(t, l) => DrainTold(sched[..k], s, t, l);
    }
  }

  // ----- Every other outcome is possible

  /** Both threads are about to start slot k, and nothing has been stored from there on. */
  ghost predicate Level(s: State, k: nat) {
    && s.a.stage == Storing && s.b.stage == Storing && |s.a.regs| == k && |s.b.regs| == k
    && Drained(s.m, T0) && Drained(s.m, T1)
    && (forall i: nat :: i >= k ==> Cell(s.m, X(i)) == 0 && Cell(s.m, Y(i)) == 0)
  }

  lemma StoreThenDrain(m: Memory<Thread, Loc>, t: Thread, l: Loc)
    requires Drained(m, T0) && Drained(m, T1)
    ensures Pending(Store(m, t, l, 1), t, l) == [1]
    ensures var d := Drain(Store(m, t, l, 1), t, l);
      && Drained(d, T0) && Drained(d, T1)
      && (forall k :: Cell(d, k) == if k == l then 1 else Cell(m, k))
  {
    assert Pending(m, t, l) == [];
    StoreEffect(m, t, l, 1);
    DrainEffect(Store(m, t, l, 1), t, l);
  }

  /** A thread stores, and the store arrives at once. */
  lemma StoreArrives(mode: Mode, n: nat, sched: seq<Action>, t: Thread) returns (all: seq<Action>)
    requires Run(mode, n, sched).Reached?
    requires var s := Run(mode, n, sched).s;
      At(s, t).stage == Storing && |At(s, t).regs| < n && Drained(s.m, T0) && Drained(s.m, T1)
    ensures Run(mode, n, all).Reached?
    ensures var s, s' := Run(mode, n, sched).s, Run(mode, n, all).s;
      && At(s', t) == At(s, t).(stage := AtBarrier) && At(s', Other(t)) == At(s, Other(t))
      && Drained(s'.m, T0) && Drained(s'.m, T1)
      && (forall l :: Cell(s'.m, l) == if l == Mine(t, |At(s, t).regs|) then 1 else Cell(s.m, l))
  {
    var s := Run(mode, n, sched).s;
    var l := Mine(t, |At(s, t).regs|);
    StoreThenDrain(s.m, t, l);
    MoveThenDrain(mode, n, sched, t, l);
    all := sched + [Moves(t)] + [Drains(t, l)];
  }

  lemma MoveThenDrain(mode: Mode, n: nat, sched: seq<Action>, t: Thread, l: Loc)
    requires Run(mode, n, sched).Reached? && Enabled(mode, n, Run(mode, n, sched).s, Moves(t))
    requires var s := Run(mode, n, sched).s;
      At(s, t).stage == Storing && l == Mine(t, |At(s, t).regs|) && Pending(Store(s.m, t, l, 1), t, l) != []
    ensures var s := Run(mode, n, sched).s;
      Run(mode, n, sched + [Moves(t)] + [Drains(t, l)])
      == Reached(With(s.(m := Drain(Store(s.m, t, l, 1), t, l)), t, At(s, t).(stage := AtBarrier)))
  {
    Extend(mode, n, sched, Moves(t));
    Extend(mode, n, sched + [Moves(t)], Drains(t, l));
  }

  /** It passes its barrier and loads the cell. */
  lemma LoadFollows(mode: Mode, n: nat, sched: seq<Action>, t: Thread) returns (all: seq<Action>)
    requires Run(mode, n, sched).Reached?
    requires var s := Run(mode, n, sched).s;
      At(s, t).stage == AtBarrier && |At(s, t).regs| < n && Drained(s.m, T0) && Drained(s.m, T1)
    ensures Run(mode, n, all).Reached?
    ensures var s, s' := Run(mode, n, sched).s, Run(mode, n, all).s;
      && s'.m == s.m && At(s', Other(t)) == At(s, Other(t))
      && At(s', t) == Local(Storing, At(s, t).regs + [Cell(s.m, Mine(Other(t), |At(s, t).regs|))])
  {
    var s := Run(mode, n, sched).s;
    Extend(mode, n, sched, Moves(t));
    assert Pending(s.m, t, Mine(Other(t), |At(s, t).regs|)) == [];
    Extend(mode, n, sched + [Moves(t)], Moves(t));
    all := sched + [Moves(t)] + [Moves(t)];
  }

  function Bit(b: bool): int {
    if b then 1 else 0
  }

  /** One slot with any outcome but two zeros: who loads last sees a 1, and both do when both stores come first. */
  lemma SlotWithOutcome(mode: Mode, n: nat, sched: seq<Action>, k: nat, p: bool, q: bool) returns (all: seq<Action>)
    requires k < n && (p || q) && Run(mode, n, sched).Reached? && Level(Run(mode, n, sched).s, k)
    ensures Run(mode, n, all).Reached? && Level(Run(mode, n, all).s, k + 1)
    ensures Run(mode, n, all).s.a.regs == Run(mode, n, sched).s.a.regs + [Bit(p)]
    ensures Run(mode, n, all).s.b.regs == Run(mode, n, sched).s.b.regs + [Bit(q)]
  {
    var first, second := if q then T0 else T1, if q then T1 else T0;
    all := StoreArrives(mode, n, sched, first);
    if p && q {
      all := StoreArrives(mode, n, all, second);
      all := LoadFollows(mode, n, all, first);
      all := LoadFollows(mode, n, all, second);
    } else {
      all := LoadFollows(mode, n, all, first);
      all := StoreArrives(mode, n, all, second);
      all := LoadFollows(mode, n, all, second);
    }
  }

  ghost predicate HasOutcome(s: State, p: seq<bool>, q: seq<bool>)
    requires |p| == |q|
  {
    && |s.a.regs| == |p| && |s.b.regs| == |q|
    && forall i :: 0 <= i < |p| ==> s.a.regs[i] == Bit(p[i]) && s.b.regs[i] == Bit(q[i])
  }

  lemma StartIsLevel(mode: Mode, n: nat)
    ensures Run(mode, n, []) == Reached(Init()) && Level(Init(), 0)
  {
  }

  lemma OneMoreOutcome(s: State, s': State, p: seq<bool>, q: seq<bool>)
    requires |p| == |q| > 0 && HasOutcome(s, p[..|p| - 1], q[..|q| - 1])
    requires s'.a.regs == s.a.regs + [Bit(p[|p| - 1])] && s'.b.regs == s.b.regs + [Bit(q[|q| - 1])]
    ensures HasOutcome(s', p, q)
  {
  }

  /** In every mode, barrier or not, every pattern of outcomes without two zeros in a slot has a complete run. */
  lemma {:induction false} OtherOutcomesOccur(mode: Mode, n: nat, p: seq<bool>, q: seq<bool>)
    returns (sched: seq<Action>)
    requires |p| == |q| <= n && forall i :: 0 <= i < |p| ==> p[i] || q[i]
    ensures Run(mode, n, sched).Reached? && HasOutcome(Run(mode, n, sched).s, p, q)
    ensures Level(Run(mode, n, sched).s, |p|)
  {
    if p == [] {
      sched := [];
      StartIsLevel(mode, n);
    } else {
      var k := |p| - 1;
      var before := OtherOutcomesOccur(mode, n, p[..k], q[..k]);
      sched := SlotWithOutcome(mode, n, before, k, p[k], q[k]);
      OneMoreOutcome(Run(mode, n, before).s, Run(mode, n, sched).s, p, q);
    }
  }

  // ----- Counting the outcomes

  /** The registers of one repetition, after both threads have been joined. */
  datatype Round = Round(r0: seq<int>, r1: seq<int>)

  datatype Tally = Tally(n00: nat, n01: nat, n10: nat, n11: nat) {
    function Total(): nat { n00 + n01 + n10 + n11 }
    function Add(o: Tally): Tally { Tally(n00 + o.n00, n01 + o.n01, n10 + o.n10, n11 + o.n11) }
  }

  /** Slot i has r0 zero or not as p says, and r1 zero or not as q says. */
  predicate Shows(r: Round, i: nat, p: bool, q: bool)
    requires i < |r.r0| && i < |r.r1|
  {
    (r.r0[i] != 0) == p && (r.r1[i] != 0) == q
  }

  /** The slots among the first k that show an outcome. */
  ghost function Slots(r: Round, k: nat, p: bool, q: bool): set<nat>
    requires k <= |r.r0| && k <= |r.r1|
  {
    set i: nat | i < k && Shows(r, i, p, q)
  }

  ghost function Exact(r: Round, k: nat): Tally
    requires k <= |r.r0| && k <= |r.r1|
  {
    Tally(|Slots(r, k, false, false)|, |Slots(r, k, false, true)|,
          |Slots(r, k, true, false)|, |Slots(r, k, true, true)|)
  }

  lemma NextSlot(r: Round, k: nat, p: bool, q: bool)
    requires k < |r.r0| && k < |r.r1|
    ensures |Slots(r, k + 1, p, q)| == |Slots(r, k, p, q)| + (if Shows(r, k, p, q) then 1 else 0)
  {
    CountNext(Slots(r, k, p, q), Slots(r, k + 1, p, q), k, Shows(r, k, p, q));
  }

  lemma CountNext(before: set<nat>, after: set<nat>, k: nat, hit: bool)
    requires k !in before && forall i: nat :: i in after <==> i in before || (hit && i == k)
    ensures |after| == |before| + (if hit then 1 else 0)
  {
    assert after == if hit then before + {k} else before;
  }

  method CountRound(r: Round, before: Tally) returns (t: Tally)
    requires |r.r0| == |r.r1|
    ensures t == before.Add(Exact(r, |r.r0|))
    ensures t.Total() == before.Total() + |r.r0|
  {
    t := before;
    for i := 0 to |r.r0|
      invariant t == before.Add(Exact(r, i))
      invariant t.Total() == before.Total() + i
    {
      var p, q := r.r0[i], r.r1[i];
      if p == 0 && q == 0 {
        t := t.(n00 := t.n00 + 1);
      } else if p == 0 && q != 0 {
        t := t.(n01 := t.n01 + 1);
      } else if p != 0 && q == 0 {
        t := t.(n10 := t.n10 + 1);
      } else {
        t := t.(n11 := t.n11 + 1);
      }
      NextSlot(r, i, false, false);
      NextSlot(r, i, false, true);
      NextSlot(r, i, true, false);
      NextSlot(r, i, true, true);
    }
  }

  /** The rounds that repeated complete runs of the two threads can leave behind. */
  ghost predicate FromRun(mode: Mode, n: nat, r: Round) {
    exists sched :: Run(mode, n, sched).Reached? && Complete(n, Run(mode, n, sched).s)
      && r == Round(Run(mode, n, sched).s.a.regs, Run(mode, n, sched).s.b.regs)
  }

  /** There are such rounds, in every mode. */
  lemma RoundsExist(mode: Mode, n: nat) returns (r: Round)
    ensures FromRun(mode, n, r)
  {
    assert Run(mode, n, []) == Reached(Init());
    var sched := EveryRunCanFinish(mode, n, []);
    r := Round(Run(mode, n, sched).s.a.regs, Run(mode, n, sched).s.b.regs);
  }

  lemma RoundFacts(mode: Mode, n: nat, r: Round)
    requires FromRun(mode, n, r)
    ensures |r.r0| == |r.r1| == n
    ensures mode != Unordered ==> Slots(r, n, false, false) == {}
  {
    var sched :| Run(mode, n, sched).Reached? && Complete(n, Run(mode, n, sched).s)
      && r == Round(Run(mode, n, sched).s.a.regs, Run(mode, n, sched).s.b.regs);
    if mode != Unordered {
      RunsKeepInv(mode, n, sched);
    }
  }

  ghost function Grand(n: nat, rounds: seq<Round>): Tally
    requires forall r :: r in rounds ==> |r.r0| == |r.r1| == n
  {
    if rounds == [] then Tally(0, 0, 0, 0)
    else Grand(n, rounds[..|rounds| - 1]).Add(Exact(rounds[|rounds| - 1], n))
  }

  /** The counters of the whole program, over all its repetitions. */
  method CountAll(n: nat, rounds: seq<Round>) returns (t: Tally)
    requires forall r :: r in rounds ==> |r.r0| == |r.r1| == n
    ensures t == Grand(n, rounds)
    ensures t.Total() == |rounds| * n
  {
    t := Tally(0, 0, 0, 0);
    for k := 0 to |rounds|
      invariant t == Grand(n, rounds[..k])
      invariant t.Total() == k * n
    {
      assert rounds[..k + 1][..k] == rounds[..k];
      Distribute(k + 1, 1, n);
      t := CountRound(rounds[k], t);
    }
    assert rounds[..|rounds|] == rounds;
  }

  /** However often it is repeated, with a barrier the counter of the impossible outcome stays zero. */
  lemma {:induction false} OrderedExperimentCountsNoDoubleZero(mode: Mode, n: nat, rounds: seq<Round>)
    requires mode != Unordered
    requires forall r :: r in rounds ==> FromRun(mode, n, r)
    ensures forall r :: r in rounds ==> |r.r0| == |r.r1| == n
    ensures Grand(n, rounds).n00 == 0
  {
    forall r | r in rounds ensures |r.r0| == |r.r1| == n {
      RoundFacts(mode, n, r);
    }
    if rounds != [] {
      RoundFacts(mode, n, rounds[|rounds| - 1]);
      OrderedExperimentCountsNoDoubleZero(mode, n, rounds[..|rounds| - 1]);
    }
  }
}
