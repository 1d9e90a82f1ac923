/**
  The workqueue experiment: `nwork` callbacks are queued, each fills in its own record, goes
  through the high-water mark, stamps its end time, and the one that brings `remaining` to zero
  completes the waiter.  Queueing goes on while earlier callbacks already run.
 */
module WorkCompletion {
  import opened Arithmetic
  import HighWater

  datatype Rec = Rec(idx: int, pid: int, tStart: nat, tEnd: nat)

  datatype Stage = Unqueued | Ready | Running | Stamping | Counting | Signalling | Finished

  datatype State = State(
    h: HighWater.State,
    stages: seq<Stage>,
    recs: seq<Rec>,
    queued: nat,
    remaining: int,
    completions: nat,
    clock: nat)

  /** Queueing the next work item, time passing, a worker picking item i up, item i moving on. */
  datatype Action = Queue | Tick | Begin(i: nat, pid: int) | Step(i: nat)

  function Init(n: nat): State {
    State(HighWater.Init(n), seq(n, _ => Unqueued), seq(n, _ => Rec(0, 0, 0, 0)), 0, n, 0, 0)
  }

  predicate WellSized(n: nat, s: State) {
    |s.stages| == |s.recs| == |s.h.pcs| == n
  }

  predicate Enabled(n: nat, s: State, a: Action)
    requires WellSized(n, s)
  {
    match a
    case Queue => s.queued < n
    case Tick => true
    case Begin(i, _) => i < n && s.stages[i] == Ready
    case Step(i) =>
      && i < n
      && s.stages[i] in {Running, Stamping, Counting, Signalling}
      && (s.stages[i] == Running ==> HighWater.Enabled(s.h, i))
  }

  function Advance(n: nat, s: State, i: nat): State
    requires WellSized(n, s) && Enabled(n, s, Step(i))
  {
    match s.stages[i]
    case Running =>
      var h := HighWater.Step(s.h, i);
      s.(h := h, stages := s.stages[i := if h.pcs[i] == HighWater.Left then Stamping else Running])
    case Stamping => s.(recs := s.recs[i := s.recs[i].(tEnd := s.clock)], stages := s.stages[i := Counting])
    case Counting =>
      s.(remaining := s.remaining - 1, stages := s.stages[i := if s.remaining - 1 == 0 then Signalling else Finished])
    case Signalling => s.(completions := s.completions + 1, stages := s.stages[i := Finished])
  }

  function Apply(n: nat, s: State, a: Action): (s': State)
    requires WellSized(n, s) && Enabled(n, s, a)
    ensures WellSized(n, s')
  {
    match a
    case Queue =>
      s.(recs := s.recs[s.queued := Rec(s.queued, 0, 0, 0)], stages := s.stages[s.queued := Ready],
         queued := s.queued + 1)
    case Tick => s.(clock := s.clock + 1)
    case Begin(i, pid) =>
      s.(recs := s.recs[i := s.recs[i].(pid := pid, tStart := s.clock)], stages := s.stages[i := Running])
    case Step(i) => Advance(n, s, i)
  }

  datatype Outcome = Stuck | At(s: State)

  ghost function Run(n: nat, sched: seq<Action>): (o: Outcome)
    ensures o.At? ==> WellSized(n, o.s)
  {
    if sched == [] then At(Init(n))
    else
      var before := Run(n, sched[..|sched| - 1]);
      var a := sched[|sched| - 1];
      if before.At? && Enabled(n, before.s, a) then At(Apply(n, before.s, a)) else Stuck
  }

  /** The largest number of callbacks at work at once, over the whole run so far. */
  ghost function Peak(n: nat, sched: seq<Action>): int
    requires Run(n, sched).At?
  {
    var here := |HighWater.Active(Run(n, sched).s.h)|;
    if sched == [] then here else Max(Peak(n, sched[..|sched| - 1]), here)
  }

  // ----- The invariant

  predicate Uncounted(st: Stage) {
    st != Signalling && st != Finished
  }

  ghost function Outstanding(s: State): set<nat> {
    set i: nat | i < |s.stages| && Uncounted(s.stages[i])
  }

  ghost predicate StageFits(s: State, i: nat)
    requires i < |s.stages| == |s.recs| == |s.h.pcs|
  {
    && (s.stages[i] == Unqueued <==> i >= s.queued)
    && (s.stages[i] in {Unqueued, Ready} ==> s.h.pcs[i] == HighWater.Before)
    && (s.stages[i] == Running ==> s.h.pcs[i] != HighWater.Left)
    && (s.stages[i] in {Stamping, Counting, Signalling, Finished} ==> s.h.pcs[i] == HighWater.Left)
    && (s.stages[i] != Unqueued ==> s.recs[i].idx == i)
    && (s.stages[i] in {Running, Stamping} ==> s.recs[i].tStart <= s.clock)
    && (s.stages[i] in {Counting, Signalling, Finished} ==> s.recs[i].tStart <= s.recs[i].tEnd <= s.clock)
  }

  ghost predicate NobodySignals(s: State) {
    forall i :: 0 <= i < |s.stages| ==> s.stages[i] != Signalling
  }

  ghost predicate OneSignals(s: State) {
    exists i :: 0 <= i < |s.stages| && s.stages[i] == Signalling
      && forall j :: 0 <= j < |s.stages| && j != i ==> s.stages[j] != Signalling
  }

  ghost predicate SignalInv(n: nat, s: State) {
    && s.remaining == |Outstanding(s)|
    && (s.remaining > 0 || n == 0 ==> s.completions == 0 && NobodySignals(s))
    && (s.remaining == 0 && n > 0 ==> (s.completions == 0 && OneSignals(s)) || (s.completions == 1 && NobodySignals(s)))
  }

  ghost predicate Inv(n: nat, s: State, peak: int) {
    && WellSized(n, s) && s.queued <= n
    && HighWater.Inv(s.h, peak)
    && (forall i :: 0 <= i < n ==> StageFits(s, i))
    && SignalInv(n, s)
  }

  ghost function OthersOutstanding(s: State, i: nat): set<nat> {
    set j: nat | j < |s.stages| && j != i && Uncounted(s.stages[j])
  }

  lemma WithOne(s: State, i: nat)
    requires i < |s.stages|
    ensures |Outstanding(s)| == |OthersOutstanding(s, i)| + (if Uncounted(s.stages[i]) then 1 else 0)
  {
    var others := OthersOutstanding(s, i);
    assert i !in others;
    if Uncounted(s.stages[i]) {
      assert Outstanding(s) == others + {i};
    } else {
      assert Outstanding(s) == others;
    }
  }

  lemma OutstandingAfterUpdate(s: State, s': State, i: nat, st: Stage)
    requires i < |s.stages| && s'.stages == s.stages[i := st]
    ensures |Outstanding(s')|
      == |Outstanding(s)| + (if Uncounted(st) then 1 else 0) - (if Uncounted(s.stages[i]) then 1 else 0)
  {
    WithOne(s, i);
    WithOne(s', i);
    assert OthersOutstanding(s', i) == OthersOutstanding(s, i);
  }

  /** A callback moves on before its countdown. */
  lemma QuietMove(n: nat, s: State, s': State, i: nat, st: Stage)
    requires SignalInv(n, s) && |s.stages| == n && i < n && s'.stages == s.stages[i := st]
    requires Uncounted(s.stages[i]) && Uncounted(st) && s'.remaining == s.remaining && s'.completions == s.completions
    ensures SignalInv(n, s')
  {
    OutstandingAfterUpdate(s, s', i, st);
    assert i in Outstanding(s);
  }

  /** A callback counts down, and is the one to signal when it was the last. */
  lemma CountMove(n: nat, s: State, s': State, i: nat, st: Stage)
    requires SignalInv(n, s) && |s.stages| == n && i < n && s'.stages == s.stages[i := st]
    requires Uncounted(s.stages[i]) && st == (if s.remaining - 1 == 0 then Signalling else Finished)
    requires s'.remaining == s.remaining - 1 && s'.completions == s.completions
    ensures SignalInv(n, s')
  {
    OutstandingAfterUpdate(s, s', i, st);
    assert i in Outstanding(s);
    assert NobodySignals(s);
    assert s'.stages[i] == st;
  }

  /** The last one completes the waiter. */
  lemma SignalMove(n: nat, s: State, s': State, i: nat)
    requires SignalInv(n, s) && |s.stages| == n && i < n && s'.stages == s.stages[i := Finished]
    requires s.stages[i] == Signalling && s'.remaining == s.remaining && s'.completions == s.completions + 1
    ensures SignalInv(n, s')
  {
    OutstandingAfterUpdate(s, s', i, Finished);
    assert !NobodySignals(s);
    assert OneSignals(s);
    assert NobodySignals(s');
  }

  lemma StepKeepsSignalInv(n: nat, s: State, a: Action)
    requires WellSized(n, s) && s.queued <= n && Enabled(n, s, a) && SignalInv(n, s)
    requires forall i :: 0 <= i < n ==> StageFits(s, i)
    ensures SignalInv(n, Apply(n, s, a))
  {
    var s' := Apply(n, s, a);
    match a
    case Tick =>
      assert Outstanding(s') == Outstanding(s);
    case Queue =>
      assert StageFits(s, s.queued);
      QuietMove(n, s, s', s.queued, Ready);
    case Begin(i, _) => QuietMove(n, s, s', i, Running);
    case Step(i) =>
      var st := s'.stages[i];
      if s.stages[i] == Counting {
        CountMove(n, s, s', i, st);
      } else if s.stages[i] == Signalling {
        SignalMove(n, s, s', i);
      } else {
        QuietMove(n, s, s', i, st);
      }
  }

  lemma StepKeepsStages(n: nat, s: State, a: Action, i: nat)
    requires WellSized(n, s) && s.queued <= n && Enabled(n, s, a) && i < n && StageFits(s, i)
    ensures StageFits(Apply(n, s, a), i)
  {
  }

  lemma StepKeepsInv(n: nat, s: State, peak: int, a: Action)
    requires Inv(n, s, peak) && Enabled(n, s, a)
    ensures Inv(n, Apply(n, s, a), Max(peak, |HighWater.Active(Apply(n, s, a).h)|))
  {
    StepKeepsSignalInv(n, s, a);
    StepKeepsHighWater(n, s, peak, a);
    forall i | 0 <= i < n ensures StageFits(Apply(n, s, a), i) {
      StepKeepsStages(n, s, a, i);
    }
  }

  lemma StepKeepsHighWater(n: nat, s: State, peak: int, a: Action)
    requires WellSized(n, s) && Enabled(n, s, a) && HighWater.Inv(s.h, peak)
    ensures HighWater.Inv(Apply(n, s, a).h, Max(peak, |HighWater.Active(Apply(n, s, a).h)|))
  {
    if a.Step? && s.stages[a.i] == Running {
      HighWater.StepKeepsInv(s.h, peak, a.i);
    } else {
      assert Apply(n, s, a).h == s.h;
    }
  }

  lemma {:induction false} RunsKeepInv(n: nat, sched: seq<Action>)
    requires Run(n, sched).At?
    ensures Inv(n, Run(n, sched).s, Peak(n, sched))
  {
    if sched == [] {
      InitInv(n);
    } else {
      var k := |sched| - 1;
      RunsKeepInv(n, sched[..k]);
      StepKeepsInv(n, Run(n, sched[..k]).s, Peak(n, sched[..k]), sched[k]);
    }
  }

  lemma InitInv(n: nat)
    ensures Inv(n, Init(n), |HighWater.Active(HighWater.Init(n))|)
  {
    assert HighWater.Active(HighWater.Init(n)) == {};
    CountFirst(n);
    assert Outstanding(Init(n)) == FirstItems(n);
  }

  ghost function FirstItems(k: nat): set<nat> {
    if k == 0 then {} else FirstItems(k - 1) + {k - 1}
  }

  lemma {:induction false} CountFirst(k: nat)
    ensures forall i: nat :: i in FirstItems(k) <==> i < k
    ensures |FirstItems(k)| == k
  {
    if k > 0 {
      CountFirst(k - 1);
      assert k - 1 !in FirstItems(k - 1);
    }
  }

  // ----- The theorems

  ghost predicate AllFinished(s: State) {
    forall i :: 0 <= i < |s.stages| ==> s.stages[i] == Finished
  }

  /**
    `complete` happens at most once, and only after every callback has stamped its end time and
    left the concurrency count; by then the recorded maximum is the true peak.
   */
  lemma CompletionMeansAllDone(n: nat, sched: seq<Action>)
    requires Run(n, sched).At?
    ensures Run(n, sched).s.completions <= 1
    ensures Run(n, sched).s.completions == 1 ==>
      var s := Run(n, sched).s;
      && AllFinished(s)
      && s.h.cur == 0 && s.h.maxcur == Peak(n, sched)
      && forall i :: 0 <= i < n ==> s.recs[i].idx == i && s.recs[i].tStart <= s.recs[i].tEnd <= s.clock
  {
    RunsKeepInv(n, sched);
    var s := Run(n, sched).s;
    if s.completions == 1 {
      forall i | 0 <= i < n
        ensures s.stages[i] == Finished && s.h.pcs[i] == HighWater.Left
        ensures s.recs[i].idx == i && s.recs[i].tStart <= s.recs[i].tEnd <= s.clock
      {
        assert StageFits(s, i);
        assert i !in Outstanding(s);
      }
      assert HighWater.Active(s.h) == {};
    }
  }

  /** Once every callback has run to its end there has been exactly one completion, unless n = 0. */
  lemma FinishedMeansCompleted(n: nat, sched: seq<Action>)
    requires Run(n, sched).At? && AllFinished(Run(n, sched).s)
    ensures Run(n, sched).s.completions == if n == 0 then 0 else 1
  {
    RunsKeepInv(n, sched);
    assert Outstanding(Run(n, sched).s) == {};
  }

  /** What the woken waiter sees is final: no later action changes a record or the maximum. */
  lemma {:induction false} CompletionIsFinal(n: nat, sched: seq<Action>, later: seq<Action>)
    requires Run(n, sched).At? && Run(n, sched).s.completions == 1 && Run(n, sched + later).At?
    ensures Run(n, sched + later).s.recs == Run(n, sched).s.recs
    ensures Run(n, sched + later).s.h == Run(n, sched).s.h
    ensures Run(n, sched + later).s.completions == 1
  {
    if later == [] {
      assert sched + later == sched;
    } else {
      var k := |later| - 1;
      assert (sched + later)[..|sched + later| - 1] == sched + later[..k];
      CompletionIsFinal(n, sched, later[..k]);
      CompletionMeansAllDone(n, sched + later[..k]);
      RunsKeepInv(n, sched + later[..k]);
      var s := Run(n, sched + later[..k]).s;
      if n > 0 {
        assert StageFits(s, n - 1);
      }
      assert later[k] == Tick;
    }
  }

  // ----- What the records hold

  /** How much time has passed. */
  ghost function Ticks(sched: seq<Action>): nat {
    if sched == [] then 0
    else Ticks(sched[..|sched| - 1]) + (if sched[|sched| - 1] == Tick then 1 else 0)
  }

  ghost predicate BeginsAt(sched: seq<Action>, i: nat, b: nat) {
    b < |sched| && sched[b].Begin? && sched[b].i == i
  }

  /** Action e is callback i's first one after it has left the concurrency count. */
  ghost predicate StampsAt(n: nat, sched: seq<Action>, i: nat, e: nat)
    requires i < n
  {
    e < |sched| && sched[e] == Step(i) && Run(n, sched[..e]).At? && Run(n, sched[..e]).s.stages[i] == Stamping
  }

  ghost predicate BeginTold(sched: seq<Action>, i: nat, st: Stage, r: Rec) {
    && (st !in {Unqueued, Ready} <==> exists b: nat :: BeginsAt(sched, i, b))
    && (st == Ready ==> r == Rec(i, 0, 0, 0))
    && (forall b: nat :: BeginsAt(sched, i, b) ==>
          r.idx == i && r.pid == sched[b].pid && r.tStart == Ticks(sched[..b]))
  }

  ghost predicate StampTold(n: nat, sched: seq<Action>, i: nat, st: Stage, r: Rec)
    requires i < n
  {
    && (st in {Counting, Signalling, Finished} <==> exists e: nat :: StampsAt(n, sched, i, e))
    && (forall e: nat :: StampsAt(n, sched, i, e) ==> r.tEnd == Ticks(sched[..e]))
  }

  lemma {:induction false} ClockIsTicks(n: nat, sched: seq<Action>)
    requires Run(n, sched).At?
    ensures Run(n, sched).s.clock == Ticks(sched)
  {
    if sched != [] {
      ClockIsTicks(n, sched[..|sched| - 1]);
    }
  }

  lemma BeginsEarlier(sched: seq<Action>, i: nat, b: nat)
    requires sched != []
    ensures var k := |sched| - 1;
      BeginsAt(sched, i, b) <==> (BeginsAt(sched[..k], i, b) || (b == k && sched[k].Begin? && sched[k].i == i))
    ensures BeginsAt(sched[..|sched| - 1], i, b) ==> sched[..|sched| - 1][..b] == sched[..b]
  {
  }

  lemma StampsEarlier(n: nat, sched: seq<Action>, i: nat, e: nat)
    requires sched != [] && i < n && Run(n, sched[..|sched| - 1]).At?
    ensures StampsAt(n, sched, i, e)
      <==> (StampsAt(n, sched[..|sched| - 1], i, e)
            || (e == |sched| - 1 && sched[e] == Step(i) && Run(n, sched[..e]).s.stages[i] == Stamping))
    ensures StampsAt(n, sched[..|sched| - 1], i, e) ==> sched[..|sched| - 1][..e] == sched[..e]
  {
    if e < |sched| - 1 {
      assert sched[..|sched| - 1][..e] == sched[..e];
    }
  }

  /** What one action does to one record. */
  lemma RecordStep(n: nat, s: State, a: Action, i: nat)
    requires i < n && WellSized(n, s) && s.queued <= n && Enabled(n, s, a) && StageFits(s, i)
    ensures var s' := Apply(n, s, a); var st, st', r, r' := s.stages[i], s'.stages[i], s.recs[i], s'.recs[i];
      var begins, stamps := a.Begin? && a.i == i, a == Step(i) && st == Stamping;
      && (st' in {Unqueued, Ready} <==> st in {Unqueued, Ready} && !begins)
      && (begins ==> st == Ready && r' == r.(pid := a.pid, tStart := s.clock))
      && (st' == Ready && st == Unqueued ==> r' == Rec(i, 0, 0, 0))
      && (st' in {Counting, Signalling, Finished} <==> st in {Counting, Signalling, Finished} || stamps)
      && (stamps ==> r' == r.(tEnd := s.clock))
      && (!begins && !stamps && st != Unqueued ==> r' == r)
  {
  }

  lemma BeginToldStep(sched: seq<Action>, i: nat, st: Stage, r: Rec, st': Stage, r': Rec)
    requires sched != [] && BeginTold(sched[..|sched| - 1], i, st, r)
    requires var a := sched[|sched| - 1];
      var begins := a.Begin? && a.i == i;
      && (st' in {Unqueued, Ready} <==> st in {Unqueued, Ready} && !begins)
      && (begins ==> st == Ready && r' == r.(pid := a.pid, tStart := Ticks(sched[..|sched| - 1])))
      && (st' == Ready ==> r' == Rec(i, 0, 0, 0))
      && (!begins && st !in {Unqueued, Ready} ==> r'.(tEnd := r.tEnd) == r)
    ensures BeginTold(sched, i, st', r')
  {
    var k := |sched| - 1;
    forall b: nat
      ensures BeginsAt(sched, i, b) <==> (BeginsAt(sched[..k], i, b) || (b == k && sched[k].Begin? && sched[k].i == i))
    {
      BeginsEarlier(sched, i, b);
    }
    assert BeginsAt(sched, i, k) <==> sched[k].Begin? && sched[k].i == i;
    forall b: nat | BeginsAt(sched, i, b)
      ensures r'.idx == i && r'.pid == sched[b].pid && r'.tStart == Ticks(sched[..b])
    {
      BeginsEarlier(sched, i, b);
    }
  }

  lemma StampToldStep(n: nat, sched: seq<Action>, i: nat, st: Stage, r: Rec, st': Stage, r': Rec)
    requires sched != [] && i < n && Run(n, sched[..|sched| - 1]).At?
    requires st == Run(n, sched[..|sched| - 1]).s.stages[i] && StampTold(n, sched[..|sched| - 1], i, st, r)
    requires var stamps := sched[|sched| - 1] == Step(i) && st == Stamping;
      && (st' in {Counting, Signalling, Finished} <==> st in {Counting, Signalling, Finished} || stamps)
      && (stamps ==> r'.tEnd == Ticks(sched[..|sched| - 1]))
      && (!stamps && st in {Counting, Signalling, Finished} ==> r'.tEnd == r.tEnd)
    ensures StampTold(n, sched, i, st', r')
  {
    var k := |sched| - 1;
    forall e: nat
      ensures StampsAt(n, sched, i, e)
        <==> (StampsAt(n, sched[..k], i, e) || (e == k && sched[k] == Step(i) && st == Stamping))
    {
      StampsEarlier(n, sched, i, e);
    }
    assert StampsAt(n, sched, i, k) <==> sched[k] == Step(i) && st == Stamping;
    forall e: nat | StampsAt(n, sched, i, e) ensures r'.tEnd == Ticks(sched[..e]) {
      StampsEarlier(n, sched, i, e);
    }
  }

  lemma InitTold(n: nat, i: nat)
    requires i < n
    ensures BeginTold([], i, Unqueued, Rec(0, 0, 0, 0)) && StampTold(n, [], i, Unqueued, Rec(0, 0, 0, 0))
  {
  }

  /**
    The schedule determines each record: the worker and the start time are those of the action that
    picked callback i up, the end time that of its first action after leaving the count, and these
    have happened exactly when the callback is that far.
   */
  lemma {:induction false} RecordsTell(n: nat, sched: seq<Action>, i: nat)
    requires Run(n, sched).At? && i < n
    ensures var s := Run(n, sched).s;
      BeginTold(sched, i, s.stages[i], s.recs[i]) && StampTold(n, sched, i, s.stages[i], s.recs[i])
  {
    if sched == [] {
      InitTold(n, i);
    } else {
      var k := |sched| - 1;
      var s, s' := Run(n, sched[..k]).s, Run(n, sched).s;
      RecordsTell(n, sched[..k], i);
      RunsKeepInv(n, sched[..k]);
      ClockIsTicks(n, sched[..k]);
      assert StageFits(s, i);
      RecordStep(n, s, sched[k], i);
      BeginToldStep(sched, i, s.stages[i], s.recs[i], s'.stages[i], s'.recs[i]);
      StampToldStep(n, sched, i, s.stages[i], s.recs[i], s'.stages[i], s'.recs[i]);
    }
  }

  // ----- Every run can be brought to its end

  function StageWeight(st: Stage): nat {
    match st
    case Unqueued => 6
    case Ready => 5
    case Running => 4
    case Stamping => 3
    case Counting => 2
    case Signalling => 1
    case Finished => 0
  }

  function StageWeights(stages: seq<Stage>): nat {
    if stages == [] then 0 else StageWeights(stages[..|stages| - 1]) + StageWeight(stages[|stages| - 1])
  }

  lemma {:induction false} StageWeightsAfterUpdate(stages: seq<Stage>, i: nat, st: Stage)
    requires i < |stages|
    ensures StageWeights(stages[i := st]) == StageWeights(stages) - StageWeight(stages[i]) + StageWeight(st)
  {
    var k := |stages| - 1;
    if i == k {
      assert stages[i := st][..k] == stages[..k];
    } else {
      assert stages[i := st][..k] == stages[..k][i := st];
      StageWeightsAfterUpdate(stages[..k], i, st);
    }
  }

  lemma {:induction false} PeakIsBounded(n: nat, sched: seq<Action>)
    requires Run(n, sched).At?
    ensures Peak(n, sched) <= n
  {
    HighWater.ActiveIsBounded(Run(n, sched).s.h, n);
    if sched != [] {
      PeakIsBounded(n, sched[..|sched| - 1]);
    }
  }

  /** What is left to do: the stages of the callbacks, and the atomic operations inside the loop. */
  function Work(n: nat, s: State): int {
    StageWeights(s.stages) + HighWater.Potential(n, s.h)
  }

  function WorkAction(s: State, i: nat): Action
    requires i < |s.stages|
  {
    if s.stages[i] == Unqueued then Queue else if s.stages[i] == Ready then Begin(i, 0) else Step(i)
  }

  /** Queueing the next callback, or moving an unfinished one, is possible and lowers the work. */
  lemma WorkActionWorks(n: nat, s: State, peak: int, i: nat)
    requires Inv(n, s, peak) && i < n && s.stages[i] != Finished
    ensures Enabled(n, s, WorkAction(s, i))
    ensures Work(n, Apply(n, s, WorkAction(s, i))) < Work(n, s)
  {
    assert StageFits(s, i);
    var s' := Apply(n, s, WorkAction(s, i));
    if s.stages[i] == Unqueued {
      assert StageFits(s, s.queued);
      StageWeightsAfterUpdate(s.stages, s.queued, Ready);
    } else {
      StageWeightsAfterUpdate(s.stages, i, s'.stages[i]);
      assert s'.stages == s.stages[i := s'.stages[i]];
      if s.stages[i] == Running {
        HighWater.StepLowersPotential(n, s.h, peak, i);
      }
    }
  }

  lemma Extend(n: nat, sched: seq<Action>, a: Action)
    requires Run(n, sched).At? && Enabled(n, Run(n, sched).s, a)
    ensures Run(n, sched + [a]) == At(Apply(n, Run(n, sched).s, a))
  {
    assert (sched + [a])[..|sched|] == sched;
  }

  ghost function WorkLeft(n: nat, sched: seq<Action>): nat {
    var o := Run(n, sched);
    if o.At? && Work(n, o.s) >= 0 then Work(n, o.s) else 0
  }

  lemma OneMoreAction(n: nat, sched: seq<Action>, i: nat) returns (a: Action)
    requires Run(n, sched).At? && i < n && Run(n, sched).s.stages[i] != Finished
    ensures Run(n, sched + [a]).At? && WorkLeft(n, sched + [a]) < WorkLeft(n, sched)
  {
    var s := Run(n, sched).s;
    a := WorkAction(s, i);
    RunsKeepInv(n, sched);
    PeakIsBounded(n, sched);
    WorkActionWorks(n, s, Peak(n, sched), i);
    Extend(n, sched, a);
    HighWater.PotentialIsNat(n, s.h);
    StageWeightsAfterUpdate(s.stages, i, Finished);
  }

  /**
    The completion always comes: every run can be continued until all callbacks have ended, and
    then there has been exactly one completion (none for no callbacks).
   */
  lemma {:induction false} EveryRunCanComplete(n: nat, sched: seq<Action>) returns (all: seq<Action>)
    requires Run(n, sched).At?
    ensures sched <= all && Run(n, all).At? && AllFinished(Run(n, all).s)
    ensures Run(n, all).s.completions == if n == 0 then 0 else 1
    decreases WorkLeft(n, sched)
  {
    if AllFinished(Run(n, sched).s) {
      FinishedMeansCompleted(n, sched);
      all := sched;
    } else {
      var i :| 0 <= i < n && Run(n, sched).s.stages[i] != Finished;
      var a := OneMoreAction(n, sched, i);
      all := EveryRunCanComplete(n, sched + [a]);
    }
  }

  // ----- The report

  const MAXW := 32

  /** The workers that left a trace; a record nobody filled in has pid 0. */
  ghost function Workers(recs: seq<Rec>): set<int> {
    set i: nat | i < |recs| && recs[i].pid != 0 :: recs[i].pid
  }

  ghost function Pids(recs: seq<Rec>, k: nat): set<int>
    requires k <= |recs|
  {
    if k == 0 then {} else Pids(recs, k - 1) + (if recs[k - 1].pid != 0 then {recs[k - 1].pid} else {})
  }

  lemma {:induction false} PidsAreWorkers(recs: seq<Rec>, k: nat, x: int)
    requires k <= |recs|
    ensures x in Pids(recs, k) <==> exists i :: 0 <= i < k && recs[i].pid == x && x != 0
  {
    if k > 0 {
      PidsAreWorkers(recs, k - 1, x);
    }
  }

  ghost function Elements(s: seq<int>): set<int> {
    set x | x in s
  }

  method AlreadySeen(seen: array<int>, distinct: nat, pid: int) returns (dup: bool)
    requires distinct <= seen.Length
    ensures dup <==> pid in Elements(seen[..distinct])
  {
    dup := false;
    for j := 0 to distinct
      invariant dup <==> pid in seen[..j]
    {
      if seen[j] == pid {
        dup := true;
      }
      assert seen[..j + 1] == seen[..j] + [seen[j]];
    }
  }

  ghost predicate Noted(seen: seq<int>, recs: seq<Rec>, k: nat)
    requires k <= |recs|
  {
    |seen| == |Pids(recs, k)| && forall x :: x in seen <==> x in Pids(recs, k)
  }

  lemma NothingNoted(seen: seq<int>, recs: seq<Rec>)
    requires |seen| == 0
    ensures Noted(seen, recs, 0)
  {
    assert Elements(seen) == {};
  }

  lemma NotedStep(was: seq<int>, now: seq<int>, recs: seq<Rec>, k: nat)
    requires k < |recs| && Noted(was, recs, k)
    requires var pid := recs[k].pid;
      && Elements(now) == Elements(was) + (if pid != 0 then {pid} else {})
      && |now| == |was| + if pid != 0 && pid !in Elements(was) then 1 else 0
    ensures Noted(now, recs, k + 1)
  {
    var pid := recs[k].pid;
    assert forall x :: x in now <==> x in Elements(now);
    assert forall x :: x in was <==> x in Elements(was);
    if pid != 0 && pid in Elements(was) {
      assert Pids(recs, k) + {pid} == Pids(recs, k);
    }
  }

  /** Notes the worker of record k if it has not been seen before; pid 0 means none. */
  method Note(seen: array<int>, distinct: nat, recs: seq<Rec>, k: nat) returns (now: nat)
    requires distinct < seen.Length && k < |recs| && Noted(seen[..distinct], recs, k)
    modifies seen
    ensures now <= distinct + 1 && Noted(seen[..now], recs, k + 1)
  {
    ghost var was := seen[..distinct];
    var pid := recs[k].pid;
    now := distinct;
    var dup := AlreadySeen(seen, distinct, pid);
    if !dup && pid != 0 {
      seen[distinct] := pid;
      now := distinct + 1;
      assert seen[..now] == was + [pid];
    }
    NotedStep(was, seen[..now], recs, k);
  }

  /** The loop of the report. */
  method Tally(recs: seq<Rec>) returns (distinct: nat, last: nat)
    requires |recs| <= MAXW
    ensures distinct == |Pids(recs, |recs|)| && last == LastEnd(recs, |recs|)
  {
    var seen := new int[MAXW];
    distinct, last := 0, 0;
    NothingNoted(seen[..0], recs);
    for i := 0 to |recs|
      invariant distinct <= i
      invariant Noted(seen[..distinct], recs, i)
      invariant last == LastEnd(recs, i)
    {
      distinct := Note(seen, distinct, recs, i);
      if recs[i].tEnd > last {
        last := recs[i].tEnd;
      }
    }
    NotedCounts(seen[..distinct], recs);
  }

  lemma NotedCounts(seen: seq<int>, recs: seq<Rec>)
    requires Noted(seen, recs, |recs|)
    ensures |seen| == |Pids(recs, |recs|)|
  {
  }

  /** The number of distinct workers (pid 0 means none) and the time of the last end. */
  method Report(recs: seq<Rec>) returns (distinct: nat, last: nat)
    requires |recs| <= MAXW
    ensures distinct == |Workers(recs)|
    ensures forall i :: 0 <= i < |recs| ==> recs[i].tEnd <= last
    ensures last == 0 || exists i :: 0 <= i < |recs| && recs[i].tEnd == last
  {
    distinct, last := Tally(recs);
    LastEndIsLatest(recs, |recs|);
    AllPidsAreWorkers(recs);
  }

  lemma AllPidsAreWorkers(recs: seq<Rec>)
    ensures Pids(recs, |recs|) == Workers(recs)
  {
    forall x ensures x in Pids(recs, |recs|) <==> x in Workers(recs) {
      PidsAreWorkers(recs, |recs|, x);
    }
  }

  ghost function LastEnd(recs: seq<Rec>, k: nat): nat
    requires k <= |recs|
  {
    if k == 0 then 0 else Max(LastEnd(recs, k - 1), recs[k - 1].tEnd)
  }

  lemma {:induction false} LastEndIsLatest(recs: seq<Rec>, k: nat)
    requires k <= |recs|
    ensures forall i :: 0 <= i < k ==> recs[i].tEnd <= LastEnd(recs, k)
    ensures LastEnd(recs, k) == 0 || exists i :: 0 <= i < k && recs[i].tEnd == LastEnd(recs, k)
  {
    if k > 0 {
      LastEndIsLatest(recs, k - 1);
    }
  }
}
