/**
  The RCU example: one writer replaces the shared object and retires the old one with a callback,
  any number of readers dereference the shared pointer inside read-side sections, and the module
  exit tears everything down.

  The only thing taken on trust about RCU is its grace-period rule: a callback runs, and
  `synchronize_rcu` returns, only when every read-side section that was active at the call has
  ended.  Everything else is the example's own code, one shared access per action.
 */
module Rcu {

  datatype Ptr = Null | Obj(id: nat)

  datatype Section = Idle | Entered | Holds(p: nat, hasRead: bool) | SawNull | Gone

  datatype Reader = Reader(section: Section, left: nat, seen: seq<int>)

  datatype Writer =
    | WIdle(left: nat)
    | WAllocated(left: nat, newObj: nat)
    | WCopied(left: nat, newObj: nat, oldObj: nat)
    | WPublished(left: nat, oldObj: nat)
    | WGone

  /** The module's own thread: waiting, then the four steps of the clean-up. */
  datatype Main = MWait | MCleared(victim: nat) | MSync(victim: nat, waiting: set<nat>) | MFreed | MClosed

  datatype State = State(
    gptr: Ptr,
    next: nat,                     // objects allocated so far; the next one gets this number
    val: map<nat, int>,            // the field `a` of each object
    readers: map<nat, Reader>,
    writer: Writer,
    value: int,                    // the writer's local `value`
    publishes: nat,                // how often the writer has replaced the object
    pending: map<nat, set<nat>>,   // retired objects, each with the sections it still waits for
    freed: seq<nat>,
    nrFreed: int,
    main: Main)

  datatype Action =
    | Lock(r: nat) | Deref(r: nat) | Read(r: nat) | Unlock(r: nat) | ReaderStops(r: nat)
    | Alloc | AllocFails | Copy | Publish | Retire | WriterStops
    | Callback(p: nat)
    | Clear | StartSync | FreeLast | Barrier

  function Init(readers: set<nat>, rounds: nat): State {
    State(Obj(0), 1, map[0 := 0], map r | r in readers :: Reader(Idle, 2 * rounds, []),
          WIdle(rounds), 5, 0, map[], [], 0, MWait)
  }

  predicate Inside(x: Reader) {
    x.section != Idle && x.section != Gone
  }

  function ActiveReaders(s: State): set<nat> {
    set r | r in s.readers && Inside(s.readers[r])
  }

  predicate Enabled(s: State, a: Action) {
    match a
    case Lock(r) => r in s.readers && s.readers[r].section == Idle && s.readers[r].left > 0
    case Deref(r) => r in s.readers && s.readers[r].section == Entered
    case Read(r) =>
      && r in s.readers && s.readers[r].section.Holds? && !s.readers[r].section.hasRead
      && s.readers[r].section.p in s.val
    case Unlock(r) =>
      r in s.readers && Inside(s.readers[r]) && s.readers[r].section != Entered
      && (s.readers[r].section.Holds? ==> s.readers[r].section.hasRead)
    case ReaderStops(r) => r in s.readers && s.readers[r].section == Idle
    case Alloc => s.writer.WIdle? && s.writer.left > 0
    case AllocFails => s.writer.WIdle? && s.writer.left > 0
    case Copy => s.writer.WAllocated? && s.gptr.Obj?
    case Publish => s.writer.WCopied?
    case Retire => s.writer.WPublished?
    case WriterStops => s.writer.WIdle?
    case Callback(p) => p in s.pending && s.pending[p] == {}
    case Clear => s.main == MWait && s.writer == WGone && s.gptr.Obj?
    case StartSync => s.main.MCleared?
    case FreeLast => s.main.MSync? && s.main.waiting == {}
    case Barrier => s.main == MFreed && s.pending == map[]
  }

  function SetSection(s: State, r: nat, x: Section): State
    requires r in s.readers
  {
    s.(readers := s.readers[r := s.readers[r].(section := x)])
  }

  /** A section ends: nothing retired before now waits for it any longer. */
  function EndSection(s: State, r: nat): State
    requires r in s.readers
  {
    SetSection(s, r, Idle).(
      pending := map p | p in s.pending :: s.pending[p] - {r},
      main := if s.main.MSync? then s.main.(waiting := s.main.waiting - {r}) else s.main)
  }

  function ReaderApply(s: State, a: Action): State
    requires Enabled(s, a) && (a.Lock? || a.Deref? || a.Read? || a.Unlock? || a.ReaderStops?)
  {
    var me := s.readers[a.r];
    match a
    case Lock(r) => s.(readers := s.readers[r := me.(section := Entered, left := me.left - 1)])
    case Deref(r) => SetSection(s, r, if s.gptr.Obj? then Holds(s.gptr.id, false) else SawNull)
    case Read(r) =>
      s.(readers := s.readers[r := me.(section := Holds(me.section.p, true), seen := me.seen + [s.val[me.section.p]])])
    case Unlock(r) => EndSection(s, r)
    case ReaderStops(r) => SetSection(s, r, Gone)
  }

  function Apply(s: State, a: Action): State
    requires Enabled(s, a)
  {
    match a
    case Alloc => s.(writer := WAllocated(s.writer.left - 1, s.next), next := s.next + 1)
    case AllocFails => s.(writer := WGone)
    case Copy =>
      s.(writer := WCopied(s.writer.left, s.writer.newObj, s.gptr.id), val := s.val[s.writer.newObj := s.value])
    case Publish =>
      s.(gptr := Obj(s.writer.newObj), writer := WPublished(s.writer.left, s.writer.oldObj),
         publishes := s.publishes + 1)
    case Retire =>
      s.(pending := s.pending[s.writer.oldObj := ActiveReaders(s)], writer := WIdle(s.writer.left),
         value := s.value + 1)
    case WriterStops => s.(writer := WGone)
    case Callback(p) => s.(pending := s.pending - {p}, freed := s.freed + [p], nrFreed := s.nrFreed + 1)
    case Clear => s.(gptr := Null, main := MCleared(s.gptr.id))
    case StartSync => s.(main := MSync(s.main.victim, ActiveReaders(s)))
    case FreeLast => s.(freed := s.freed + [s.main.victim], main := MFreed)
    case Barrier => s.(main := MClosed)
    case _ => ReaderApply(s, a)
  }

  datatype Outcome = Stuck | At(s: State)

  ghost function Run(readers: set<nat>, rounds: nat, sched: seq<Action>): Outcome {
    if sched == [] then At(Init(readers, rounds))
    else
      var before := Run(readers, rounds, sched[..|sched| - 1]);
      var a := sched[|sched| - 1];
      if before.At? && Enabled(before.s, a) then At(Apply(before.s, a)) else Stuck
  }

  // ----- Who owns each object

  /** The value the writer gives to its k-th object. */
  function ValueOf(k: nat): int {
    if k == 0 then 0 else 4 + k
  }

  ghost predicate Torn(m: Main) {
    m == MFreed || m == MClosed
  }

  /** Objects that are neither pending nor freed, counted by who holds them. */
  function InHand(s: State): nat {
    (if s.gptr.Obj? then 1 else 0)
    + (if s.writer.WAllocated? || s.writer.WCopied? || s.writer.WPublished? then 1 else 0)
    + (if s.main.MCleared? || s.main.MSync? then 1 else 0)
  }

  ghost predicate BetweenHands(s: State, k: nat) {
    s.writer.WPublished? && s.writer.oldObj == k
  }

  ghost predicate Threads(s: State) {
    && s.next == 1 + s.publishes + (if s.writer.WAllocated? || s.writer.WCopied? then 1 else 0)
    && (s.writer.WAllocated? || s.writer.WCopied? ==> s.writer.newObj == s.publishes + 1)
    && (s.writer.WCopied? ==> s.writer.oldObj == s.publishes)
    && (s.writer.WPublished? ==> s.writer.oldObj + 1 == s.publishes)
    && s.value == s.publishes + (if s.writer.WPublished? then 4 else 5)
    && (s.main == MWait ==> s.gptr == Obj(s.publishes))
    && (s.main != MWait ==> s.gptr == Null && s.writer == WGone)
    && (s.main.MCleared? || s.main.MSync? ==> s.main.victim == s.publishes)
    && (s.main == MClosed ==> s.pending == map[])
    && (forall k: nat :: k <= s.publishes ==> k in s.val && s.val[k] == ValueOf(k))
    && (s.writer.WCopied? ==> s.writer.newObj in s.val && s.val[s.writer.newObj] == ValueOf(s.writer.newObj))
  }

  ghost predicate Heap(s: State) {
    && (forall k :: k in s.pending ==> k < s.publishes && !BetweenHands(s, k))
    && (forall k :: k in s.freed ==>
          (k < s.publishes && k !in s.pending && !BetweenHands(s, k)) || (k == s.publishes && Torn(s.main)))
    && (forall k: nat :: k < s.publishes ==> k in s.freed || k in s.pending || BetweenHands(s, k))
    && (Torn(s.main) ==> s.publishes in s.freed)
    && (forall i, j :: 0 <= i < j < |s.freed| ==> s.freed[i] != s.freed[j])
    && s.nrFreed + (if Torn(s.main) then 1 else 0) == |s.freed|
    && |s.freed| + |s.pending| + InHand(s) == s.next
  }

  /** Why the object a reader holds cannot be freed yet. */
  ghost predicate Protected(s: State, r: nat, p: nat) {
    || s.gptr == Obj(p)
    || BetweenHands(s, p)
    || (p in s.pending && r in s.pending[p])
    || (s.main.MCleared? && s.main.victim == p)
    || (s.main.MSync? && s.main.victim == p && r in s.main.waiting)
  }

  ghost predicate ReadersSafe(s: State) {
    && (forall r :: r in s.readers && s.readers[r].section.Holds? ==>
          s.readers[r].section.p <= s.publishes && Protected(s, r, s.readers[r].section.p))
    && (forall p, r :: p in s.pending && r in s.pending[p] ==> r in ActiveReaders(s))
    && (s.main.MSync? ==> s.main.waiting <= ActiveReaders(s))
  }

  ghost predicate Sorted(xs: seq<int>) {
    forall i, j :: 0 <= i < j < |xs| ==> xs[i] <= xs[j]
  }

  ghost predicate SeenFits(s: State, x: Reader) {
    && Sorted(x.seen)
    && (forall i :: 0 <= i < |x.seen| ==> x.seen[i] <= ValueOf(s.publishes))
    && (x.section.Holds? ==> forall i :: 0 <= i < |x.seen| ==> x.seen[i] <= ValueOf(x.section.p))
  }

  ghost predicate SeenInv(s: State) {
    forall r :: r in s.readers ==> SeenFits(s, s.readers[r])
  }

  ghost predicate Inv(s: State) {
    Threads(s) && Heap(s) && ReadersSafe(s) && SeenInv(s)
  }

  // ----- Every action keeps it

  predicate ByReader(a: Action) {
    a.Lock? || a.Deref? || a.Read? || a.Unlock? || a.ReaderStops?
  }

  /** What no reader changes. */
  lemma ReadersLeave(s: State, a: Action)
    requires Enabled(s, a) && ByReader(a)
    ensures var s' := ReaderApply(s, a);
      && Apply(s, a) == s'
      && s'.gptr == s.gptr && s'.next == s.next && s'.val == s.val && s'.writer == s.writer
      && s'.value == s.value && s'.publishes == s.publishes && s'.freed == s.freed && s'.nrFreed == s.nrFreed
      && s'.pending.Keys == s.pending.Keys
      && (s'.main == s.main
          || (a.Unlock? && s.main.MSync? && s'.main == MSync(s.main.victim, s.main.waiting - {a.r})))
  {
  }

  lemma ReadersKeepThreads(s: State, a: Action)
    requires Threads(s) && Enabled(s, a) && ByReader(a)
    ensures Threads(Apply(s, a))
  {
    ReadersLeave(s, a);
  }

  lemma OthersKeepThreads(s: State, a: Action)
    requires Threads(s) && Heap(s) && Enabled(s, a) && !ByReader(a)
    ensures Threads(Apply(s, a))
  {
  }

  lemma KeepsThreads(s: State, a: Action)
    requires Threads(s) && Heap(s) && Enabled(s, a)
    ensures Threads(Apply(s, a))
  {
    if ByReader(a) {
      ReadersKeepThreads(s, a);
    } else {
      OthersKeepThreads(s, a);
    }
  }

  lemma ReadersKeepHeap(s: State, a: Action)
    requires Heap(s) && Enabled(s, a) && ByReader(a)
    ensures Heap(Apply(s, a))
  {
    ReadersLeave(s, a);
    SameSize(s.pending, Apply(s, a).pending);
  }

  lemma SameSize(a: map<nat, set<nat>>, b: map<nat, set<nat>>)
    requires a.Keys == b.Keys
    ensures |a| == |b|
  {
    assert |a| == |a.Keys| && |b| == |b.Keys|;
  }

  lemma RetireKeepsHeap(s: State)
    requires Threads(s) && Heap(s) && Enabled(s, Retire)
    ensures Heap(Apply(s, Retire))
  {
    var s' := Apply(s, Retire);
    var p := s.writer.oldObj;
    assert p !in s.pending;
    assert |s.pending[p := ActiveReaders(s)]| == |s.pending| + 1;
    assert forall k :: k in s'.pending <==> k in s.pending || k == p;
  }

  lemma CallbackKeepsHeap(s: State, p: nat)
    requires Threads(s) && Heap(s) && Enabled(s, Callback(p))
    ensures Heap(Apply(s, Callback(p)))
  {
    var s' := Apply(s, Callback(p));
    assert s'.pending.Keys == s.pending.Keys - {p};
    assert |s'.pending| == |s.pending| - 1;
  }

  lemma WriterKeepsHeap(s: State, a: Action)
    requires Threads(s) && Heap(s) && Enabled(s, a)
    requires a.Alloc? || a.AllocFails? || a.Copy? || a.Publish? || a.WriterStops?
    ensures Heap(Apply(s, a))
  {
  }

  lemma MainKeepsHeap(s: State, a: Action)
    requires Threads(s) && Heap(s) && Enabled(s, a)
    requires a.Clear? || a.StartSync? || a.FreeLast? || a.Barrier?
    ensures Heap(Apply(s, a))
  {
    if a.FreeLast? {
      assert s.main.victim !in s.freed;
    }
  }

  lemma KeepsHeap(s: State, a: Action)
    requires Threads(s) && Heap(s) && Enabled(s, a)
    ensures Heap(Apply(s, a))
  {
    if ByReader(a) {
      ReadersKeepHeap(s, a);
    } else if a.Retire? {
      RetireKeepsHeap(s);
    } else if a.Callback? {
      CallbackKeepsHeap(s, a.p);
    } else if a.Clear? || a.StartSync? || a.FreeLast? || a.Barrier? {
      MainKeepsHeap(s, a);
    } else {
      WriterKeepsHeap(s, a);
    }
  }

  lemma UnlockKeepsSafe(s: State, r: nat)
    requires ReadersSafe(s) && Enabled(s, Unlock(r))
    ensures ReadersSafe(ReaderApply(s, Unlock(r)))
  {
    var s' := ReaderApply(s, Unlock(r));
    assert ActiveReaders(s') == ActiveReaders(s) - {r};
    forall q | q in s'.readers && s'.readers[q].section.Holds?
      ensures s'.readers[q].section.p <= s'.publishes && Protected(s', q, s'.readers[q].section.p)
    {
      assert q != r && Protected(s, q, s.readers[q].section.p);
    }
  }

  lemma ReadersKeepSafe(s: State, a: Action)
    requires Threads(s) && ReadersSafe(s) && Enabled(s, a) && ByReader(a) && !a.Unlock?
    ensures ReadersSafe(ReaderApply(s, a))
  {
    var s' := ReaderApply(s, a);
    assert ActiveReaders(s) <= ActiveReaders(s');
    forall r | r in s'.readers && s'.readers[r].section.Holds?
      ensures s'.readers[r].section.p <= s'.publishes && Protected(s', r, s'.readers[r].section.p)
    {
      if r != a.r || a.Read? {
        assert Protected(s, r, s.readers[r].section.p);
      }
    }
  }

  lemma OthersKeepSafe(s: State, a: Action)
    requires Threads(s) && Heap(s) && ReadersSafe(s) && Enabled(s, a) && !ByReader(a)
    ensures ReadersSafe(Apply(s, a))
  {
    var s' := Apply(s, a);
    assert s'.readers == s.readers;
    assert ActiveReaders(s') == ActiveReaders(s);
    forall r | r in s'.readers && s'.readers[r].section.Holds?
      ensures s'.readers[r].section.p <= s'.publishes && Protected(s', r, s'.readers[r].section.p)
    {
      assert r in ActiveReaders(s);
      assert Protected(s, r, s.readers[r].section.p);
    }
  }

  lemma KeepsReadersSafe(s: State, a: Action)
    requires Threads(s) && Heap(s) && ReadersSafe(s) && Enabled(s, a)
    ensures ReadersSafe(Apply(s, a))
  {
    if a.Unlock? {
      UnlockKeepsSafe(s, a.r);
    } else if ByReader(a) {
      ReadersKeepSafe(s, a);
    } else {
      OthersKeepSafe(s, a);
    }
  }

  /** A reader that takes the pointer takes the newest object, and reads what that object holds. */
  lemma ReaderKeepsSeen(s: State, a: Action)
    requires Threads(s) && ReadersSafe(s) && SeenInv(s) && Enabled(s, a) && ByReader(a)
    ensures SeenFits(s, ReaderApply(s, a).readers[a.r])
  {
    assert SeenFits(s, s.readers[a.r]);
  }

  lemma LaterSeenFits(s: State, s': State, x: Reader)
    requires SeenFits(s, x) && s.publishes <= s'.publishes
    ensures SeenFits(s', x)
  {
  }

  lemma KeepsSeen(s: State, a: Action)
    requires Threads(s) && ReadersSafe(s) && SeenInv(s) && Enabled(s, a)
    ensures SeenInv(Apply(s, a))
  {
    var s' := Apply(s, a);
    forall r | r in s'.readers ensures SeenFits(s', s'.readers[r]) {
      if ByReader(a) && r == a.r {
        ReaderKeepsSeen(s, a);
        LaterSeenFits(s, s', s'.readers[r]);
      } else {
        LaterSeenFits(s, s', s.readers[r]);
      }
    }
  }

  lemma {:induction false} RunsKeepInv(readers: set<nat>, rounds: nat, sched: seq<Action>)
    requires Run(readers, rounds, sched).At?
    ensures Inv(Run(readers, rounds, sched).s)
  {
    if sched != [] {
      var k := |sched| - 1;
      RunsKeepInv(readers, rounds, sched[..k]);
      var s := Run(readers, rounds, sched[..k]).s;
      KeepsThreads(s, sched[k]);
      KeepsHeap(s, sched[k]);
      KeepsReadersSafe(s, sched[k]);
      KeepsSeen(s, sched[k]);
    }
  }

  // ----- The theorems

  /** In every interleaving, what a reader holds inside its section has not been freed. */
  lemma NoUseAfterFree(readers: set<nat>, rounds: nat, sched: seq<Action>, r: nat)
    requires Run(readers, rounds, sched).At?
    requires var s := Run(readers, rounds, sched).s; r in s.readers && s.readers[r].section.Holds?
    ensures var s := Run(readers, rounds, sched).s; s.readers[r].section.p !in s.freed
    ensures var s := Run(readers, rounds, sched).s; s.readers[r].section.p in s.val
  {
    RunsKeepInv(readers, rounds, sched);
  }

  /** Every allocated object is pending, freed or in exactly one thread's hands; none is freed twice. */
  lemma ObjectsAreConserved(readers: set<nat>, rounds: nat, sched: seq<Action>)
    requires Run(readers, rounds, sched).At?
    ensures var s := Run(readers, rounds, sched).s;
      && s.next == |s.freed| + |s.pending| + InHand(s)
      && (forall i, j :: 0 <= i < j < |s.freed| ==> s.freed[i] != s.freed[j])
      && (forall k :: k in s.freed ==> k !in s.pending && s.gptr != Obj(k))
  {
    RunsKeepInv(readers, rounds, sched);
  }

  /** The values one reader sees never go backwards. */
  lemma ReadsNeverGoBack(readers: set<nat>, rounds: nat, sched: seq<Action>, r: nat)
    requires Run(readers, rounds, sched).At? && r in Run(readers, rounds, sched).s.readers
    ensures Sorted(Run(readers, rounds, sched).s.readers[r].seen)
  {
    RunsKeepInv(readers, rounds, sched);
    assert SeenFits(Run(readers, rounds, sched).s, Run(readers, rounds, sched).s.readers[r]);
  }

  /** After the clean-up every object has been freed, the writer's retired ones by callbacks. */
  lemma CleanupFreesEverything(readers: set<nat>, rounds: nat, sched: seq<Action>)
    requires Run(readers, rounds, sched).At? && Run(readers, rounds, sched).s.main == MClosed
    ensures var s := Run(readers, rounds, sched).s;
      && (forall k: nat :: k < s.next <==> k in s.freed)
      && |s.freed| == s.next
      && s.nrFreed == s.publishes
  {
    RunsKeepInv(readers, rounds, sched);
  }

  /** Grace periods end: with no reader inside a section, nothing has to wait. */
  lemma NobodyInsideNobodyWaits(readers: set<nat>, rounds: nat, sched: seq<Action>)
    requires Run(readers, rounds, sched).At? && ActiveReaders(Run(readers, rounds, sched).s) == {}
    ensures var s := Run(readers, rounds, sched).s;
      && (forall p :: p in s.pending ==> Enabled(s, Callback(p)))
      && (s.main.MSync? ==> Enabled(s, FreeLast))
      && (s.main == MFreed && s.pending == map[] ==> Enabled(s, Barrier))
  {
    RunsKeepInv(readers, rounds, sched);
    var s := Run(readers, rounds, sched).s;
    forall p | p in s.pending ensures s.pending[p] == {} {
      forall r ensures r !in s.pending[p] {
        assert r in s.pending[p] ==> r in ActiveReaders(s);
      }
    }
  }

  // ----- What every reader and the writer have done, told from the schedule alone

  function Count(sched: seq<Action>, a: Action): nat {
    if sched == [] then 0 else Count(sched[..|sched| - 1], a) + (if sched[|sched| - 1] == a then 1 else 0)
  }

  /** How often the writer had published when reader r last dereferenced the pointer. */
  function PublishesAtDeref(sched: seq<Action>, r: nat): nat {
    if sched == [] then 0
    else
      var before := sched[..|sched| - 1];
      if sched[|sched| - 1] == Deref(r) then Count(before, Publish) else PublishesAtDeref(before, r)
  }

  /** Where reader r is: inside a section it holds the newest object of its dereference, unless that came too late. */
  function SectionOf(sched: seq<Action>, r: nat): Section {
    if sched == [] then Idle
    else
      var before := sched[..|sched| - 1];
      var a := sched[|sched| - 1];
      if a == Lock(r) then Entered
      else if a == Deref(r) then if Clear in before then SawNull else Holds(Count(before, Publish), false)
      else if a == Read(r) then Holds(PublishesAtDeref(before, r), true)
      else if a == Unlock(r) then Idle
      else if a == ReaderStops(r) then Gone
      else SectionOf(before, r)
  }

  /** What reader r has printed: for every read, the value published last before its dereference. */
  function SeenOf(sched: seq<Action>, r: nat): seq<int> {
    if sched == [] then []
    else
      var before := sched[..|sched| - 1];
      if sched[|sched| - 1] == Read(r) then SeenOf(before, r) + [ValueOf(PublishesAtDeref(before, r))]
      else SeenOf(before, r)
  }

  ghost predicate ReaderTold(rounds: nat, sched: seq<Action>, s: State, r: nat) {
    && r in s.readers
    && s.readers[r].section == SectionOf(sched, r)
    && (s.readers[r].section.Holds? ==> s.readers[r].section.p == PublishesAtDeref(sched, r))
    && s.readers[r].seen == SeenOf(sched, r)
    && s.readers[r].left + Count(sched, Lock(r)) == 2 * rounds
  }

  ghost predicate WriterTold(rounds: nat, sched: seq<Action>, s: State) {
    && s.publishes == Count(sched, Publish)
    && s.gptr == (if Clear in sched then Null else Obj(Count(sched, Publish)))
    && Count(sched, Alloc) <= rounds
    && (s.writer != WGone ==> s.writer.left + Count(sched, Alloc) == rounds)
  }

  lemma WriterToldStep(rounds: nat, before: seq<Action>, s: State, a: Action)
    requires Inv(s) && Enabled(s, a) && WriterTold(rounds, before, s)
    ensures WriterTold(rounds, before + [a], Apply(s, a))
  {
    assert (before + [a])[..|before|] == before;
    if ByReader(a) {
      ReadersLeave(s, a);
    }
  }

  lemma ReaderToldStep(rounds: nat, before: seq<Action>, s: State, a: Action, r: nat)
    requires Inv(s) && Enabled(s, a) && WriterTold(rounds, before, s) && ReaderTold(rounds, before, s, r)
    ensures ReaderTold(rounds, before + [a], Apply(s, a), r)
  {
    assert (before + [a])[..|before|] == before;
    if ByReader(a) {
      ReadersLeave(s, a);
      if a.r == r {
        OwnStepTold(rounds, before, s, a);
      } else {
        assert ReaderApply(s, a).readers[r] == s.readers[r];
      }
    } else {
      assert Apply(s, a).readers == s.readers;
    }
  }

  lemma OwnStepTold(rounds: nat, before: seq<Action>, s: State, a: Action)
    requires Threads(s) && ReadersSafe(s) && Enabled(s, a) && ByReader(a)
    requires WriterTold(rounds, before, s) && ReaderTold(rounds, before, s, a.r)
    ensures ReaderTold(rounds, before + [a], ReaderApply(s, a), a.r)
  {
    if a.Read? {
      HeldValue(s, a.r);
      ReadTold(rounds, before, s, a.r);
    } else {
      assert (before + [a])[..|before|] == before;
    }
  }

  lemma ReadTold(rounds: nat, before: seq<Action>, s: State, r: nat)
    requires Enabled(s, Read(r)) && ReaderTold(rounds, before, s, r)
    requires s.val[s.readers[r].section.p] == ValueOf(s.readers[r].section.p)
    ensures ReaderTold(rounds, before + [Read(r)], ReaderApply(s, Read(r)), r)
  {
    assert (before + [Read(r)])[..|before|] == before;
  }

  lemma HeldValue(s: State, r: nat)
    requires Threads(s) && ReadersSafe(s) && r in s.readers && s.readers[r].section.Holds?
    ensures s.readers[r].section.p in s.val && s.val[s.readers[r].section.p] == ValueOf(s.readers[r].section.p)
  {
  }

  ghost predicate Told(readers: set<nat>, rounds: nat, sched: seq<Action>, s: State) {
    && s.readers.Keys == readers
    && (forall r :: r in readers ==> ReaderTold(rounds, sched, s, r))
    && WriterTold(rounds, sched, s)
  }

  lemma ToldStep(readers: set<nat>, rounds: nat, before: seq<Action>, s: State, a: Action)
    requires Inv(s) && Enabled(s, a) && Told(readers, rounds, before, s)
    ensures Told(readers, rounds, before + [a], Apply(s, a))
  {
    WriterToldStep(rounds, before, s, a);
    KeysStay(s, a);
    forall r | r in readers ensures ReaderTold(rounds, before + [a], Apply(s, a), r) {
      ReaderToldStep(rounds, before, s, a, r);
    }
  }

  lemma KeysStay(s: State, a: Action)
    requires Enabled(s, a)
    ensures Apply(s, a).readers.Keys == s.readers.Keys
  {
  }

  /**
    In every run: a dereference before the clean-up yields the object published last, every read
    yields the value of the object dereferenced, no reader starts more than twice `rounds` sections
    and the writer no more than `rounds` objects.
   */
  lemma {:induction false} ScheduleTells(readers: set<nat>, rounds: nat, sched: seq<Action>)
    requires Run(readers, rounds, sched).At?
    ensures Told(readers, rounds, sched, Run(readers, rounds, sched).s)
  {
    if sched != [] {
      var k := |sched| - 1;
      ScheduleTells(readers, rounds, sched[..k]);
      RunsKeepInv(readers, rounds, sched[..k]);
      assert sched[..k] + [sched[k]] == sched;
      ToldStep(readers, rounds, sched[..k], Run(readers, rounds, sched[..k]).s, sched[k]);
    }
  }

  lemma Extend(readers: set<nat>, rounds: nat, sched: seq<Action>, a: Action)
    requires Run(readers, rounds, sched).At? && Enabled(Run(readers, rounds, sched).s, a)
    ensures Run(readers, rounds, sched + [a]) == At(Apply(Run(readers, rounds, sched).s, a))
  {
    assert (sched + [a])[..|sched|] == sched;
  }

  lemma EnterSection(readers: set<nat>, rounds: nat, sched: seq<Action>, r: nat)
    requires Run(readers, rounds, sched).At? && r in readers
    requires var s := Run(readers, rounds, sched).s;
      s.main == MWait && SectionOf(sched, r) == Idle && Count(sched, Lock(r)) < 2 * rounds
    ensures Run(readers, rounds, sched + [Lock(r)] + [Deref(r)]).At?
    ensures var s := Run(readers, rounds, sched + [Lock(r)] + [Deref(r)]).s;
      r in s.readers && s.readers[r].section == Holds(Count(sched, Publish), false)
  {
    ScheduleTells(readers, rounds, sched);
    RunsKeepInv(readers, rounds, sched);
    assert ReaderTold(rounds, sched, Run(readers, rounds, sched).s, r);
    Extend(readers, rounds, sched, Lock(r));
    Extend(readers, rounds, sched + [Lock(r)], Deref(r));
  }

  /** Before the clean-up an idle reader with rounds left gets the newest object, and its value. */
  lemma ReaderCanRead(readers: set<nat>, rounds: nat, sched: seq<Action>, r: nat)
    requires Run(readers, rounds, sched).At? && r in readers
    requires var s := Run(readers, rounds, sched).s;
      s.main == MWait && SectionOf(sched, r) == Idle && Count(sched, Lock(r)) < 2 * rounds
    ensures var o := Run(readers, rounds, sched + [Lock(r)] + [Deref(r)] + [Read(r)]);
      && o.At? && r in o.s.readers && r in Run(readers, rounds, sched).s.readers
      && o.s.readers[r].seen == Run(readers, rounds, sched).s.readers[r].seen + [ValueOf(Count(sched, Publish))]
  {
    var entered := sched + [Lock(r)] + [Deref(r)];
    EnterSection(readers, rounds, sched, r);
    RunsKeepInv(readers, rounds, entered);
    Extend(readers, rounds, entered, Read(r));
    ScheduleTells(readers, rounds, sched);
    ScheduleTells(readers, rounds, entered + [Read(r)]);
    SeenAfterRead(sched, r);
    assert ReaderTold(rounds, sched, Run(readers, rounds, sched).s, r);
    assert ReaderTold(rounds, entered + [Read(r)], Run(readers, rounds, entered + [Read(r)]).s, r);
  }

  lemma SeenAfterRead(sched: seq<Action>, r: nat)
    ensures SeenOf(sched + [Lock(r)] + [Deref(r)] + [Read(r)], r) == SeenOf(sched, r) + [ValueOf(Count(sched, Publish))]
  {
    var locked := sched + [Lock(r)];
    var entered := locked + [Deref(r)];
    assert locked[..|sched|] == sched && entered[..|locked|] == locked;
    assert (entered + [Read(r)])[..|entered|] == entered;
    assert Count(locked, Publish) == Count(sched, Publish);
    assert PublishesAtDeref(entered, r) == Count(locked, Publish);
    assert SeenOf(locked, r) == SeenOf(sched, r);
    assert SeenOf(entered, r) == SeenOf(locked, r);
  }

  // ----- Every run can be brought to its end

  /** The readers that have not left their loops. */
  function Live(s: State): set<nat> {
    set r | r in s.readers && s.readers[r].section != Gone
  }

  function StepsLeft(x: Section): nat {
    match x
    case Entered => 4
    case Holds(_, hasRead) => if hasRead then 2 else 3
    case SawNull => 2
    case Idle => 1
    case Gone => 0
  }

  function ReaderAction(s: State, r: nat): Action
    requires r in s.readers
  {
    match s.readers[r].section
    case Entered => Deref(r)
    case Holds(_, hasRead) => if hasRead then Unlock(r) else Read(r)
    case SawNull => Unlock(r)
    case _ => ReaderStops(r)
  }

  lemma ReaderIsEnabled(s: State, r: nat)
    requires Threads(s) && ReadersSafe(s) && r in Live(s)
    ensures Enabled(s, ReaderAction(s, r))
  {
    assert s.readers[r].section.Holds? ==> s.readers[r].section.p in s.val;
  }

  lemma ReaderCanMove(s: State, r: nat)
    requires r in Live(s) && Enabled(s, ReaderAction(s, r))
    ensures var s' := ReaderApply(s, ReaderAction(s, r));
      && Apply(s, ReaderAction(s, r)) == s'
      && r in s'.readers && StepsLeft(s'.readers[r].section) < StepsLeft(s.readers[r].section)
      && Live(s') == if s.readers[r].section == Idle then Live(s) - {r} else Live(s)
  {
    var s' := ReaderApply(s, ReaderAction(s, r));
    assert s'.readers == s.readers[r := s'.readers[r]];
  }

  lemma {:induction false} ReaderGoes(readers: set<nat>, rounds: nat, sched: seq<Action>, r: nat)
    returns (all: seq<Action>)
    requires Run(readers, rounds, sched).At? && r in Live(Run(readers, rounds, sched).s)
    ensures sched <= all && Run(readers, rounds, all).At?
    ensures Live(Run(readers, rounds, all).s) == Live(Run(readers, rounds, sched).s) - {r}
    decreases StepsLeft(Run(readers, rounds, sched).s.readers[r].section)
  {
    var s := Run(readers, rounds, sched).s;
    var a := ReaderAction(s, r);
    RunsKeepInv(readers, rounds, sched);
    ReaderIsEnabled(s, r);
    ReaderCanMove(s, r);
    Extend(readers, rounds, sched, a);
    all := sched + [a];
    if s.readers[r].section != Idle {
      all := ReaderGoes(readers, rounds, all, r);
    }
  }

  lemma {:induction false} ReadersGo(readers: set<nat>, rounds: nat, sched: seq<Action>) returns (all: seq<Action>)
    requires Run(readers, rounds, sched).At?
    ensures sched <= all && Run(readers, rounds, all).At? && Live(Run(readers, rounds, all).s) == {}
    decreases |Live(Run(readers, rounds, sched).s)|
  {
    all := sched;
    var live := Live(Run(readers, rounds, sched).s);
    if live != {} {
      var r :| r in live;
      all := ReaderGoes(readers, rounds, sched, r);
      assert |live - {r}| < |live|;
      all := ReadersGo(readers, rounds, all);
    }
  }

  /** What the writer, or once it has left the module's own thread, has still to do. */
  function RestLeft(s: State): nat {
    match s.writer
    case WAllocated(_, _) => 7
    case WCopied(_, _, _) => 6
    case WPublished(_, _) => 5
    case WIdle(_) => 4
    case WGone =>
      if s.main == MWait then 3
      else if s.main.MCleared? then 2
      else if s.main.MSync? then 1
      else 0
  }

  function RestAction(s: State): Action {
    match s.writer
    case WAllocated(_, _) => Copy
    case WCopied(_, _, _) => Publish
    case WPublished(_, _) => Retire
    case WIdle(_) => WriterStops
    case WGone => if s.main == MWait then Clear else if s.main.MCleared? then StartSync else FreeLast
  }

  /** Nobody is in the way once the readers have left. */
  lemma RestCanMove(s: State)
    requires Inv(s) && Live(s) == {} && RestLeft(s) > 0
    ensures Enabled(s, RestAction(s))
    ensures var s' := Apply(s, RestAction(s)); Live(s') == {} && RestLeft(s') < RestLeft(s)
  {
    assert ActiveReaders(s) <= Live(s);
    assert Apply(s, RestAction(s)).readers == s.readers;
  }

  lemma {:induction false} RestGoes(readers: set<nat>, rounds: nat, sched: seq<Action>) returns (all: seq<Action>)
    requires Run(readers, rounds, sched).At? && Live(Run(readers, rounds, sched).s) == {}
    ensures sched <= all && Run(readers, rounds, all).At?
    ensures Live(Run(readers, rounds, all).s) == {} && RestLeft(Run(readers, rounds, all).s) == 0
    decreases RestLeft(Run(readers, rounds, sched).s)
  {
    all := sched;
    var s := Run(readers, rounds, sched).s;
    if RestLeft(s) > 0 {
      RunsKeepInv(readers, rounds, sched);
      RestCanMove(s);
      Extend(readers, rounds, sched, RestAction(s));
      all := RestGoes(readers, rounds, sched + [RestAction(s)]);
    }
  }

  lemma CallbackCanRun(s: State, p: nat)
    requires Inv(s) && Live(s) == {} && RestLeft(s) == 0 && p in s.pending
    ensures Enabled(s, Callback(p))
    ensures var s' := Apply(s, Callback(p)); Live(s') == {} && RestLeft(s') == 0 && |s'.pending| < |s.pending|
  {
    assert ActiveReaders(s) <= Live(s);
    assert s.pending[p] == {} by {
      forall r ensures r !in s.pending[p] {
        assert r in s.pending[p] ==> r in ActiveReaders(s);
      }
    }
    var s' := Apply(s, Callback(p));
    assert s'.pending.Keys == s.pending.Keys - {p};
    assert |s'.pending| == |s'.pending.Keys| && |s.pending| == |s.pending.Keys|;
  }

  ghost predicate Ended(s: State) {
    Live(s) == {} && s.writer == WGone && s.main == MClosed
  }

  lemma {:induction false} CallbacksRun(readers: set<nat>, rounds: nat, sched: seq<Action>) returns (all: seq<Action>)
    requires Run(readers, rounds, sched).At?
    requires Live(Run(readers, rounds, sched).s) == {} && RestLeft(Run(readers, rounds, sched).s) == 0
    ensures sched <= all && Run(readers, rounds, all).At? && Ended(Run(readers, rounds, all).s)
    decreases |Run(readers, rounds, sched).s.pending|
  {
    all := sched;
    var s := Run(readers, rounds, sched).s;
    RunsKeepInv(readers, rounds, sched);
    if s.pending != map[] {
      var p :| p in s.pending;
      CallbackCanRun(s, p);
      Extend(readers, rounds, sched, Callback(p));
      all := CallbacksRun(readers, rounds, sched + [Callback(p)]);
    } else if s.main == MFreed {
      Extend(readers, rounds, sched, Barrier);
      all := sched + [Barrier];
    }
  }

  /**
    The clean-up never blocks for good: every run can be continued until all threads have left and
    the clean-up is done, and then exactly the allocated objects have been freed.
   */
  lemma EveryRunCanClose(readers: set<nat>, rounds: nat, sched: seq<Action>) returns (all: seq<Action>)
    requires Run(readers, rounds, sched).At?
    ensures sched <= all && Run(readers, rounds, all).At? && Ended(Run(readers, rounds, all).s)
    ensures var s := Run(readers, rounds, all).s;
      (forall k: nat :: k < s.next <==> k in s.freed) && s.nrFreed == s.publishes
  {
    all := ReadersGo(readers, rounds, sched);
    all := RestGoes(readers, rounds, all);
    all := CallbacksRun(readers, rounds, all);
    CleanupFreesEverything(readers, rounds, all);
  }
}
