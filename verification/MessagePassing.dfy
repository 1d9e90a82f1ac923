/**
  The message-passing litmus test: a writer publishes 42 under a flag, a reader waits for the
  flag, reads the data and hands both back.  Every action below is one shared-memory access (or
  one barrier) of one thread, or one pending store reaching memory.
 */
module MessagePassing {
  import opened StoreBuffer

  datatype Mode = Relaxed | AcqRel | Dmb
  datatype Thread = Writer | Reader
  datatype Loc = Data | Flag

  datatype WriterPc = WSpin | WData | WFence | WFlag
  datatype ReaderPc = RSpin | RFence | RLoad | RClearData | RClearFlag

  /** History: a round is published when the flag is stored, observed when the data is read. */
  datatype Event = Publish | Observe(value: int)

  datatype State = State(
    m: Memory<Thread, Loc>,
    wpc: WriterPc, wi: nat,
    rpc: ReaderPc, ri: nat,
    observed: nat, violations: nat,
    log: seq<Event>)

  datatype Action = WriterMoves | ReaderMoves | Drains(t: Thread, l: Loc)

  function Init(): State {
    State(Blank(), WSpin, 0, RSpin, 0, 0, 0, [])
  }

  /** Whether an action can happen; a thread leaves its loop after `iters` rounds. */
  ghost predicate Enabled(mode: Mode, iters: nat, s: State, a: Action) {
    match a
    case Drains(t, l) => Pending(s.m, t, l) != []
    case WriterMoves =>
      (match s.wpc
       case WSpin => s.wi < iters
       case WData => true
       case WFence => mode == Dmb ==> Drained(s.m, Writer)
       case WFlag => mode == AcqRel ==> Drained(s.m, Writer))
    case ReaderMoves =>
      (match s.rpc
       case RSpin => s.ri < iters
       case RFence => mode == Dmb ==> Drained(s.m, Reader)
       case RLoad => true
       case RClearData => true
       case RClearFlag => Drained(s.m, Reader))
  }

  function WriterStep(s: State): State {
    match s.wpc
    case WSpin => if Load(s.m, Writer, Flag) != 0 then s else s.(wpc := WData)
    case WData => s.(m := Store(s.m, Writer, Data, 42), wpc := WFence)
    case WFence => s.(wpc := WFlag)
    case WFlag =>
      s.(m := Store(s.m, Writer, Flag, 1), wpc := WSpin, wi := s.wi + 1, log := s.log + [Publish])
  }

  function ReaderStep(s: State): State {
    match s.rpc
    case RSpin => if Load(s.m, Reader, Flag) == 0 then s else s.(rpc := RFence)
    case RFence => s.(rpc := RLoad)
    case RLoad =>
      var d := Load(s.m, Reader, Data);
      s.(rpc := RClearData, observed := s.observed + 1,
         violations := s.violations + (if d != 42 then 1 else 0), log := s.log + [Observe(d)])
    case RClearData => s.(m := Store(s.m, Reader, Data, 0), rpc := RClearFlag)
    case RClearFlag => s.(m := Store(s.m, Reader, Flag, 0), rpc := RSpin, ri := s.ri + 1)
  }

  ghost function Apply(mode: Mode, iters: nat, s: State, a: Action): State
    requires Enabled(mode, iters, s, a)
  {
    match a
    case WriterMoves => WriterStep(s)
    case ReaderMoves => ReaderStep(s)
    case Drains(t, l) => s.(m := Drain(s.m, t, l))
  }

  /** The state a schedule leads to, if each of its actions was enabled when its turn came. */
  datatype Outcome = Stuck | At(s: State)

  ghost function Run(mode: Mode, iters: nat, sched: seq<Action>): Outcome {
    if sched == [] then At(Init())
    else
      var before := Run(mode, iters, sched[..|sched| - 1]);
      var a := sched[|sched| - 1];
      if before.At? && Enabled(mode, iters, before.s, a) then At(Apply(mode, iters, before.s, a)) else Stuck
  }

  lemma Extend(mode: Mode, iters: nat, sched: seq<Action>, a: Action)
    requires Run(mode, iters, sched).At? && Enabled(mode, iters, Run(mode, iters, sched).s, a)
    ensures Run(mode, iters, sched + [a]) == At(Apply(mode, iters, Run(mode, iters, sched).s, a))
  {
    assert (sched + [a])[..|sched + [a]| - 1] == sched;
  }

  // ----- The invariant

  /** The flag is 0 and the writer may publish; or 1 is on its way; or it is 1; or 0 is on its way. */
  datatype Phase = WritersTurn | Publishing | ReadersTurn | Returning

  ghost predicate FlagIs(m: Memory<Thread, Loc>, cell: int, byWriter: seq<int>, byReader: seq<int>) {
    Cell(m, Flag) == cell && Pending(m, Writer, Flag) == byWriter && Pending(m, Reader, Flag) == byReader
  }

  ghost predicate InPhase(s: State, p: Phase) {
    match p
    case WritersTurn => FlagIs(s.m, 0, [], []) && s.rpc == RSpin && s.wi == s.ri && |s.log| == 2 * s.ri
    case Publishing =>
      FlagIs(s.m, 0, [1], []) && s.wpc == WSpin && s.rpc == RSpin && s.wi == s.ri + 1 && |s.log| == 2 * s.ri + 1
    case ReadersTurn =>
      && FlagIs(s.m, 1, [], []) && s.wpc == WSpin && s.wi == s.ri + 1
      && |s.log| == 2 * s.ri + (if s.rpc in {RClearData, RClearFlag} then 2 else 1)
    case Returning =>
      FlagIs(s.m, 1, [], [0]) && s.wpc == WSpin && s.rpc == RSpin && s.wi == s.ri && |s.log| == 2 * s.ri
  }

  /** What the history looks like: publications and observations take turns. */
  ghost predicate Alternates(log: seq<Event>) {
    forall k :: 0 <= k < |log| ==> (log[k].Publish? <==> k % 2 == 0)
  }

  ghost predicate Inv(iters: nat, s: State, p: Phase) {
    && InPhase(s, p)
    && s.wi <= iters && s.ri <= iters
    && (s.wpc != WSpin ==> s.wi < iters) && (s.rpc != RSpin ==> s.ri < iters)
    && Alternates(s.log) && s.observed == |s.log| / 2
    && (s.rpc != RClearFlag ==> Pending(s.m, Reader, Data) == [])
  }

  /** In the two ordered modes the data is in memory before the flag can be. */
  ghost predicate DataInv(mode: Mode, s: State, p: Phase) {
    && s.violations == 0
    && (forall k :: 0 <= k < |s.log| ==> s.log[k].Observe? ==> s.log[k].value == 42)
    && ((p == WritersTurn && s.wpc in {WSpin, WData}) || p == Returning ==> Pending(s.m, Writer, Data) == [])
    && (p == WritersTurn && s.wpc in {WFence, WFlag} ==>
          Pending(s.m, Writer, Data) == [42] || (Pending(s.m, Writer, Data) == [] && Cell(s.m, Data) == 42))
    && (p == WritersTurn && s.wpc == WFlag && mode == Dmb ==> Drained(s.m, Writer))
    && (p == Publishing || p == ReadersTurn ==> Pending(s.m, Writer, Data) == [])
    && (p == Publishing || (p == ReadersTurn && s.rpc in {RSpin, RFence, RLoad}) ==> Cell(s.m, Data) == 42)
  }

  lemma AllOf(m: Memory<Thread, Loc>, t: Thread)
    ensures Drained(m, t) <==> Pending(m, t, Data) == [] && Pending(m, t, Flag) == []
  {
    forall l | Pending(m, t, Data) == [] && Pending(m, t, Flag) == [] ensures Pending(m, t, l) == [] {
      match l case Data => case Flag =>
    }
  }

  /** One drain, spelled out for the two threads and two locations of this test. */
  lemma DrainHere(m: Memory<Thread, Loc>, t: Thread, l: Loc)
    requires Pending(m, t, l) != []
    ensures var d := Drain(m, t, l);
      && Cell(d, Data) == (if l == Data then Pending(m, t, l)[0] else Cell(m, Data))
      && Cell(d, Flag) == (if l == Flag then Pending(m, t, l)[0] else Cell(m, Flag))
      && Pending(d, Writer, Data)
         == (if t == Writer && l == Data then Pending(m, t, l)[1..] else Pending(m, Writer, Data))
      && Pending(d, Writer, Flag)
         == (if t == Writer && l == Flag then Pending(m, t, l)[1..] else Pending(m, Writer, Flag))
      && Pending(d, Reader, Data)
         == (if t == Reader && l == Data then Pending(m, t, l)[1..] else Pending(m, Reader, Data))
      && Pending(d, Reader, Flag)
         == (if t == Reader && l == Flag then Pending(m, t, l)[1..] else Pending(m, Reader, Flag))
  {
    match (t, l)
    case (Writer, Data) =>
    case (Writer, Flag) =>
    case (Reader, Data) =>
    case (Reader, Flag) =>
  }

  ghost function NextPhase(s: State, p: Phase, a: Action): Phase {
    if p == WritersTurn && a == WriterMoves && s.wpc == WFlag then Publishing
    else if p == Publishing && a == Drains(Writer, Flag) then ReadersTurn
    else if p == ReadersTurn && a == ReaderMoves && s.rpc == RClearFlag then Returning
    else if p == Returning && a == Drains(Reader, Flag) then WritersTurn
    else p
  }

  lemma WriterKeepsInv(mode: Mode, iters: nat, s: State, p: Phase)
    requires Inv(iters, s, p) && Enabled(mode, iters, s, WriterMoves)
    ensures Inv(iters, WriterStep(s), NextPhase(s, p, WriterMoves))
  {
    if s.wpc == WFlag {
      FirstStore(s.m, Writer, Flag, 1);
    }
  }

  lemma ReaderKeepsInv(mode: Mode, iters: nat, s: State, p: Phase)
    requires Inv(iters, s, p) && Enabled(mode, iters, s, ReaderMoves)
    ensures Inv(iters, ReaderStep(s), NextPhase(s, p, ReaderMoves))
  {
    AllOf(s.m, Reader);
    if s.rpc == RClearFlag {
      FirstStore(s.m, Reader, Flag, 0);
    }
  }

  lemma DrainKeepsInv(iters: nat, s: State, p: Phase, t: Thread, l: Loc)
    requires Inv(iters, s, p) && Pending(s.m, t, l) != []
    ensures Inv(iters, s.(m := Drain(s.m, t, l)), NextPhase(s, p, Drains(t, l)))
  {
    DrainHere(s.m, t, l);
  }

  lemma StepKeepsInv(mode: Mode, iters: nat, s: State, p: Phase, a: Action)
    requires Inv(iters, s, p) && Enabled(mode, iters, s, a)
    ensures Inv(iters, Apply(mode, iters, s, a), NextPhase(s, p, a))
  {
    match a
    case WriterMoves => WriterKeepsInv(mode, iters, s, p);
    case ReaderMoves => ReaderKeepsInv(mode, iters, s, p);
    case Drains(t, l) => DrainKeepsInv(iters, s, p, t, l);
  }

  lemma WriterKeepsDataInv(mode: Mode, iters: nat, s: State, p: Phase)
    requires Inv(iters, s, p) && Enabled(mode, iters, s, WriterMoves) && mode != Relaxed && DataInv(mode, s, p)
    ensures DataInv(mode, WriterStep(s), NextPhase(s, p, WriterMoves))
  {
    AllOf(s.m, Writer);
    AllOf(WriterStep(s).m, Writer);
    if s.wpc == WData {
      FirstStore(s.m, Writer, Data, 42);
    }
  }

  lemma ReaderKeepsDataInv(mode: Mode, iters: nat, s: State, p: Phase)
    requires Inv(iters, s, p) && Enabled(mode, iters, s, ReaderMoves) && mode != Relaxed && DataInv(mode, s, p)
    ensures DataInv(mode, ReaderStep(s), NextPhase(s, p, ReaderMoves))
  {
    AllOf(s.m, Writer);
    AllOf(s.m, Reader);
    AllOf(ReaderStep(s).m, Writer);
  }

  lemma DrainKeepsDataInv(mode: Mode, iters: nat, s: State, p: Phase, t: Thread, l: Loc)
    requires Inv(iters, s, p) && Pending(s.m, t, l) != [] && mode != Relaxed && DataInv(mode, s, p)
    ensures DataInv(mode, s.(m := Drain(s.m, t, l)), NextPhase(s, p, Drains(t, l)))
  {
    AllOf(s.m, Writer);
    AllOf(Drain(s.m, t, l), Writer);
    DrainHere(s.m, t, l);
  }

  lemma StepKeepsDataInv(mode: Mode, iters: nat, s: State, p: Phase, a: Action)
    requires Inv(iters, s, p) && Enabled(mode, iters, s, a) && mode != Relaxed && DataInv(mode, s, p)
    ensures DataInv(mode, Apply(mode, iters, s, a), NextPhase(s, p, a))
  {
    match a
    case WriterMoves => WriterKeepsDataInv(mode, iters, s, p);
    case ReaderMoves => ReaderKeepsDataInv(mode, iters, s, p);
    case Drains(t, l) => DrainKeepsDataInv(mode, iters, s, p, t, l);
  }

  lemma {:induction false} RunsKeepInv(mode: Mode, iters: nat, sched: seq<Action>) returns (p: Phase)
    requires Run(mode, iters, sched).At?
    ensures Inv(iters, Run(mode, iters, sched).s, p)
    ensures mode != Relaxed ==> DataInv(mode, Run(mode, iters, sched).s, p)
  {
    if sched == [] {
      p := WritersTurn;
    } else {
      var n := |sched| - 1;
      var s := Run(mode, iters, sched[..n]).s;
      var p0 := RunsKeepInv(mode, iters, sched[..n]);
      StepKeepsInv(mode, iters, s, p0, sched[n]);
      if mode != Relaxed {
        StepKeepsDataInv(mode, iters, s, p0, sched[n]);
      }
      p := NextPhase(s, p0, sched[n]);
    }
  }

  // ----- The theorems

  /**
    In every mode, and at every point of every run, publications and observations strictly take
    turns, starting with a publication: no round is lost and none is read twice.
   */
  lemma RoundsAlternate(mode: Mode, iters: nat, sched: seq<Action>)
    requires Run(mode, iters, sched).At?
    ensures var s := Run(mode, iters, sched).s;
      && Alternates(s.log)
      && s.wi == (|s.log| + 1) / 2 && s.observed == |s.log| / 2
      && s.ri <= s.observed <= s.wi <= s.observed + 1
  {
    var p := RunsKeepInv(mode, iters, sched);
  }

  /** How many of the observations found something else than what was published. */
  function StaleReads(log: seq<Event>): nat {
    if log == [] then 0
    else
      var e := log[|log| - 1];
      StaleReads(log[..|log| - 1]) + (if e.Observe? && e.value != 42 then 1 else 0)
  }

  /** The counter of violations is right in every mode: it is the number of stale reads. */
  lemma {:induction false} ViolationsAreStaleReads(mode: Mode, iters: nat, sched: seq<Action>)
    requires Run(mode, iters, sched).At?
    ensures Run(mode, iters, sched).s.violations == StaleReads(Run(mode, iters, sched).s.log)
  {
    if sched != [] {
      var n := |sched| - 1;
      ViolationsAreStaleReads(mode, iters, sched[..n]);
      var s, s' := Run(mode, iters, sched[..n]).s, Run(mode, iters, sched).s;
      assert |s'.log| == |s.log| + 1 ==> s'.log[..|s.log|] == s.log;
    }
  }

  ghost predicate NeverViolates(mode: Mode, iters: nat) {
    forall sched :: Run(mode, iters, sched).At? ==> Run(mode, iters, sched).s.violations == 0
  }

  /** The flag overtakes the data: eight actions to a stale read. */
  function OvertakingSchedule(): seq<Action> {
    [WriterMoves, WriterMoves, WriterMoves, WriterMoves, Drains(Writer, Flag), ReaderMoves, ReaderMoves, ReaderMoves]
  }

  /** The memory once the writer has stored both values and only the flag has drained. */
  function FlagFirst(): Memory<Thread, Loc> {
    Drain(Store(Store(Blank(), Writer, Data, 42), Writer, Flag, 1), Writer, Flag)
  }

  lemma Follow(iters: nat, sched: seq<Action>, s: State, a: Action, s': State)
    requires Run(Relaxed, iters, sched) == At(s) && Enabled(Relaxed, iters, s, a) && Apply(Relaxed, iters, s, a) == s'
    ensures Run(Relaxed, iters, sched + [a]) == At(s')
  {
    Extend(Relaxed, iters, sched, a);
  }

  /** The writer's state with both stores pending. */
  function BothPending(): State {
    State(Store(Store(Blank(), Writer, Data, 42), Writer, Flag, 1), WSpin, 1, RSpin, 0, 0, 0, [Publish])
  }

  lemma WriterPublishes(iters: nat)
    requires iters > 0
    ensures var w := WriterMoves; Run(Relaxed, iters, [] + [w] + [w] + [w] + [w]) == At(BothPending())
  {
    var w := WriterMoves;
    var s1 := Init().(wpc := WData);
    var s2 := s1.(m := Store(s1.m, Writer, Data, 42), wpc := WFence);
    var s3 := s2.(wpc := WFlag);
    Follow(iters, [], Init(), w, s1);
    Follow(iters, [] + [w], s1, w, s2);
    Follow(iters, [] + [w] + [w], s2, w, s3);
    Follow(iters, [] + [w] + [w] + [w], s3, w, BothPending());
  }

  lemma WriterPublishesFlagFirst(iters: nat)
    requires iters > 0
    ensures Run(Relaxed, iters, OvertakingSchedule()[..5])
            == At(State(FlagFirst(), WSpin, 1, RSpin, 0, 0, 0, [Publish]))
  {
    var w := WriterMoves;
    WriterPublishes(iters);
    Follow(iters, [] + [w] + [w] + [w] + [w], BothPending(), Drains(Writer, Flag), BothPending().(m := FlagFirst()));
    assert [] + [w] + [w] + [w] + [w] + [Drains(Writer, Flag)] == OvertakingSchedule()[..5];
  }

  lemma RelaxedViolates(iters: nat)
    requires iters > 0
    ensures Run(Relaxed, iters, OvertakingSchedule()).At?
    ensures Run(Relaxed, iters, OvertakingSchedule()).s.violations == 1
  {
    var done := OvertakingSchedule()[..5];
    var r := ReaderMoves;
    WriterPublishesFlagFirst(iters);
    assert Load(FlagFirst(), Reader, Flag) == 1 && Load(FlagFirst(), Reader, Data) == 0;
    Extend(Relaxed, iters, done, r);
    Extend(Relaxed, iters, done + [r], r);
    Extend(Relaxed, iters, done + [r] + [r], r);
    assert done + [r] + [r] + [r] == OvertakingSchedule();
  }

  /** No run of any length reads stale data exactly when the stores are ordered (or nothing runs). */
  lemma OrderedIffNeverViolates(mode: Mode, iters: nat)
    ensures NeverViolates(mode, iters) <==> mode != Relaxed || iters == 0
  {
    if mode == Relaxed && iters > 0 {
      RelaxedViolates(iters);
      assert !NeverViolates(mode, iters);
    } else {
      forall sched | Run(mode, iters, sched).At? ensures Run(mode, iters, sched).s.violations == 0 {
        var p := RunsKeepInv(mode, iters, sched);
        if iters == 0 {
          NothingObserved(mode, sched);
        }
      }
    }
  }

  lemma {:induction false} NothingObserved(mode: Mode, sched: seq<Action>)
    requires Run(mode, 0, sched).At?
    ensures Run(mode, 0, sched).s.violations == 0
  {
    if sched != [] {
      var n := |sched| - 1;
      var p := RunsKeepInv(mode, 0, sched[..n]);
      NothingObserved(mode, sched[..n]);
    }
  }

  // ----- Without order every round can go wrong

  /** Between rounds: nothing is pending, both cells are 0, and each of the k rounds so far was a violation. */
  ghost predicate AllStale(s: State, k: nat) {
    && DataIs(s.m, 0, [], []) && FlagIs(s.m, 0, [], [])
    && s.wpc == WSpin && s.rpc == RSpin && s.wi == s.ri == s.observed == s.violations == k
  }

  ghost predicate DataIs(m: Memory<Thread, Loc>, cell: int, byWriter: seq<int>, byReader: seq<int>) {
    Cell(m, Data) == cell && Pending(m, Writer, Data) == byWriter && Pending(m, Reader, Data) == byReader
  }

  /** Round k + 1 is published, its data still on the way, and the flag as given. */
  ghost predicate Underway(s: State, k: nat, flag: int, flags: seq<int>) {
    && DataIs(s.m, 0, [42], []) && FlagIs(s.m, flag, flags, [])
    && s.wpc == WSpin && s.rpc == RSpin && s.wi == k + 1 && s.ri == s.observed == s.violations == k
  }

  /** The reader has read too early and is about to hand the flag back. */
  ghost predicate ReadEarly(s: State, k: nat) {
    && DataIs(s.m, 0, [42], [0]) && FlagIs(s.m, 1, [], [])
    && s.wpc == WSpin && s.rpc == RClearFlag && s.wi == s.observed == s.violations == k + 1 && s.ri == k
  }

  lemma WriterGoesRound(iters: nat, sched: seq<Action>, k: nat) returns (all: seq<Action>)
    requires Run(Relaxed, iters, sched).At? && AllStale(Run(Relaxed, iters, sched).s, k) && k < iters
    ensures Run(Relaxed, iters, all).At? && Underway(Run(Relaxed, iters, all).s, k, 0, [1])
  {
    var s := Run(Relaxed, iters, sched).s;
    var s1 := s.(wpc := WData);
    var s2 := WriterStep(s1);
    var s3 := s2.(wpc := WFlag);
    var s4 := WriterStep(s3);
    FirstStore(s1.m, Writer, Data, 42);
    FirstStore(s3.m, Writer, Flag, 1);
    Follow(iters, sched, s, WriterMoves, s1);
    Follow(iters, sched + [WriterMoves], s1, WriterMoves, s2);
    all := sched + [WriterMoves] + [WriterMoves];
    Follow(iters, all, s2, WriterMoves, s3);
    Follow(iters, all + [WriterMoves], s3, WriterMoves, s4);
    all := all + [WriterMoves] + [WriterMoves];
  }

  lemma FlagArrives(iters: nat, sched: seq<Action>, k: nat)
    requires Run(Relaxed, iters, sched).At? && Underway(Run(Relaxed, iters, sched).s, k, 0, [1])
    ensures Run(Relaxed, iters, sched + [Drains(Writer, Flag)]).At?
    ensures Underway(Run(Relaxed, iters, sched + [Drains(Writer, Flag)]).s, k, 1, [])
  {
    DrainHere(Run(Relaxed, iters, sched).s.m, Writer, Flag);
    Extend(Relaxed, iters, sched, Drains(Writer, Flag));
  }

  lemma ReaderReadsStale(iters: nat, sched: seq<Action>, k: nat) returns (all: seq<Action>)
    requires Run(Relaxed, iters, sched).At? && k < iters && Underway(Run(Relaxed, iters, sched).s, k, 1, [])
    ensures Run(Relaxed, iters, all).At? && ReadEarly(Run(Relaxed, iters, all).s, k)
  {
    var s := Run(Relaxed, iters, sched).s;
    var s1 := s.(rpc := RFence);
    var s2 := s.(rpc := RLoad);
    var s3 := ReaderStep(s2);
    var s4 := ReaderStep(s3);
    FirstStore(s3.m, Reader, Data, 0);
    Follow(iters, sched, s, ReaderMoves, s1);
    Follow(iters, sched + [ReaderMoves], s1, ReaderMoves, s2);
    all := sched + [ReaderMoves] + [ReaderMoves];
    Follow(iters, all, s2, ReaderMoves, s3);
    Follow(iters, all + [ReaderMoves], s3, ReaderMoves, s4);
    all := all + [ReaderMoves] + [ReaderMoves];
  }

  /** The late store of the data is overtaken by nothing: the reader's 0 lands on top of it. */
  lemma ReaderGivesBack(iters: nat, sched: seq<Action>, k: nat) returns (all: seq<Action>)
    requires Run(Relaxed, iters, sched).At? && k < iters && ReadEarly(Run(Relaxed, iters, sched).s, k)
    ensures Run(Relaxed, iters, all).At? && AllStale(Run(Relaxed, iters, all).s, k + 1)
  {
    var s := Run(Relaxed, iters, sched).s;
    var s1 := s.(m := Drain(s.m, Writer, Data));
    DrainHere(s.m, Writer, Data);
    var s2 := s1.(m := Drain(s1.m, Reader, Data));
    DrainHere(s1.m, Reader, Data);
    AllOf(s2.m, Reader);
    var s3 := ReaderStep(s2);
    FirstStore(s2.m, Reader, Flag, 0);
    var s4 := s3.(m := Drain(s3.m, Reader, Flag));
    DrainHere(s3.m, Reader, Flag);
    Follow(iters, sched, s, Drains(Writer, Data), s1);
    Follow(iters, sched + [Drains(Writer, Data)], s1, Drains(Reader, Data), s2);
    all := sched + [Drains(Writer, Data)] + [Drains(Reader, Data)];
    Follow(iters, all, s2, ReaderMoves, s3);
    Follow(iters, all + [ReaderMoves], s3, Drains(Reader, Flag), s4);
    all := all + [ReaderMoves] + [Drains(Reader, Flag)];
  }

  lemma {:induction false} StaleRounds(iters: nat, k: nat) returns (sched: seq<Action>)
    requires k <= iters
    ensures Run(Relaxed, iters, sched).At? && AllStale(Run(Relaxed, iters, sched).s, k)
  {
    if k == 0 {
      sched := [];
    } else {
      sched := StaleRounds(iters, k - 1);
      sched := WriterGoesRound(iters, sched, k - 1);
      FlagArrives(iters, sched, k - 1);
      sched := sched + [Drains(Writer, Flag)];
      sched := ReaderReadsStale(iters, sched, k - 1);
      sched := ReaderGivesBack(iters, sched, k - 1);
    }
  }

  /** Without order a complete run exists in which every single round reads stale data. */
  lemma RelaxedViolatesEveryRound(iters: nat) returns (sched: seq<Action>)
    ensures Run(Relaxed, iters, sched).At?
    ensures var s := Run(Relaxed, iters, sched).s;
      Finished(iters, s) && s.observed == iters && s.violations == iters
  {
    sched := StaleRounds(iters, iters);
    AllOf(Run(Relaxed, iters, sched).s.m, Writer);
    AllOf(Run(Relaxed, iters, sched).s.m, Reader);
  }

  // ----- Progress

  ghost predicate Finished(iters: nat, s: State) {
    s.wi == iters && s.ri == iters && Drained(s.m, Writer) && Drained(s.m, Reader)
  }

  /** What is left to do: rounds, the place within a round, and pending stores. */
  ghost function Work(iters: nat, s: State): int {
    10 * (iters - s.wi) + (match s.wpc case WSpin => 9 case WData => 8 case WFence => 6 case WFlag => 5)
    + 10 * (iters - s.ri)
    + (match s.rpc case RSpin => 9 case RFence => 8 case RLoad => 7 case RClearData => 6 case RClearFlag => 4)
    + |Pending(s.m, Writer, Data)| + |Pending(s.m, Writer, Flag)|
    + |Pending(s.m, Reader, Data)| + |Pending(s.m, Reader, Flag)|
  }

  /** Every action except a fruitless poll of the flag brings the run nearer to its end. */
  lemma WorkDecreases(mode: Mode, iters: nat, s: State, p: Phase, a: Action)
    requires Inv(iters, s, p) && Enabled(mode, iters, s, a) && Apply(mode, iters, s, a) != s
    ensures Work(iters, Apply(mode, iters, s, a)) < Work(iters, s)
  {
    if a.Drains? {
      DrainHere(s.m, a.t, a.l);
    }
  }

  ghost function UsefulAction(s: State): Action {
    if Pending(s.m, Writer, Data) != [] then Drains(Writer, Data)
    else if Pending(s.m, Writer, Flag) != [] then Drains(Writer, Flag)
    else if Pending(s.m, Reader, Data) != [] then Drains(Reader, Data)
    else if Pending(s.m, Reader, Flag) != [] then Drains(Reader, Flag)
    else if Cell(s.m, Flag) == 0 then WriterMoves
    else ReaderMoves
  }

  lemma UsefulActionWorks(mode: Mode, iters: nat, s: State, p: Phase)
    requires Inv(iters, s, p) && !Finished(iters, s)
    ensures Enabled(mode, iters, s, UsefulAction(s))
    ensures Apply(mode, iters, s, UsefulAction(s)) != s
  {
    AllOf(s.m, Writer);
    AllOf(s.m, Reader);
    var a := UsefulAction(s);
    if a.Drains? {
      assert |Pending(Drain(s.m, a.t, a.l), a.t, a.l)| < |Pending(s.m, a.t, a.l)|;
    }
  }

  /**
    The handshake never locks up: in every mode every run can be continued until both threads
    have left their loops, and then all `iters` rounds have been published and observed.
   */
  lemma {:induction false} EveryRunCanFinish(mode: Mode, iters: nat, sched: seq<Action>) returns (all: seq<Action>)
    requires Run(mode, iters, sched).At?
    ensures sched <= all && Run(mode, iters, all).At?
    ensures var s := Run(mode, iters, all).s; Finished(iters, s) && s.observed == iters && |s.log| == 2 * iters
    decreases WorkLeft(mode, iters, sched)
  {
    if Finished(iters, Run(mode, iters, sched).s) {
      FinishedMeansAllObserved(mode, iters, sched);
      all := sched;
    } else {
      var a := OneMoreAction(mode, iters, sched);
      all := EveryRunCanFinish(mode, iters, sched + [a]);
    }
  }

  lemma FinishedMeansAllObserved(mode: Mode, iters: nat, sched: seq<Action>)
    requires Run(mode, iters, sched).At? && Finished(iters, Run(mode, iters, sched).s)
    ensures Run(mode, iters, sched).s.observed == iters && |Run(mode, iters, sched).s.log| == 2 * iters
  {
    var s := Run(mode, iters, sched).s;
    var p := RunsKeepInv(mode, iters, sched);
    AllOf(s.m, Writer);
    AllOf(s.m, Reader);
  }

  lemma OneMoreAction(mode: Mode, iters: nat, sched: seq<Action>) returns (a: Action)
    requires Run(mode, iters, sched).At? && !Finished(iters, Run(mode, iters, sched).s)
    ensures Run(mode, iters, sched + [a]).At?
    ensures WorkLeft(mode, iters, sched + [a]) < WorkLeft(mode, iters, sched)
  {
    var s := Run(mode, iters, sched).s;
    var p := RunsKeepInv(mode, iters, sched);
    a := UsefulAction(s);
    UsefulActionWorks(mode, iters, s, p);
    Extend(mode, iters, sched, a);
    WorkDecreases(mode, iters, s, p, a);
    WorkIsPositive(iters, s, p);
  }

  lemma WorkIsPositive(iters: nat, s: State, p: Phase)
    requires Inv(iters, s, p)
    ensures Work(iters, s) > 0
  {
  }

  ghost function WorkLeft(mode: Mode, iters: nat, sched: seq<Action>): nat {
    var o := Run(mode, iters, sched);
    if o.At? then var w := Work(iters, o.s); if w < 0 then 0 else w else 0
  }
}
