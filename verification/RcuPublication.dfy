/**
  What `rcu_assign_pointer` adds to a plain store: on the weakly ordered memory the writer fills in
  a new object and then stores its number to the shared pointer, while readers dereference the
  pointer and read the field.  Object 0 is in place before the threads start; nothing is freed here.
 */
module RcuPublication {
  import opened StoreBuffer
  import Rcu

  datatype Thread = Writer | Reader(r: nat)
  datatype Loc = Pointer | Field(id: int)

  /** Copying the old object, setting the field, assigning the pointer. */
  datatype WriterPc = Copying | Setting | Assigning

  datatype State = State(
    m: Memory<Thread, Loc>,
    wpc: WriterPc,
    published: nat,
    held: map<nat, int>,       // what each reader has loaded from the pointer
    found: seq<(int, int)>)    // every object read so far, and the value found in it

  datatype Action = WriterMoves | Dereferences(r: nat) | Reads(r: nat) | Drains(t: Thread, l: Loc)

  function Init(): State {
    State(Blank(), Copying, 0, map[], [])
  }

  /** A release store waits until the writer's earlier stores are in memory; a plain one does not. */
  ghost predicate Enabled(release: bool, rounds: nat, s: State, a: Action) {
    match a
    case WriterMoves => s.published < rounds && (release && s.wpc == Assigning ==> Drained(s.m, Writer))
    case Dereferences(_) => true
    case Reads(r) => r in s.held
    case Drains(t, l) => Pending(s.m, t, l) != []
  }

  function WriterStep(s: State): State {
    var mine := s.published + 1;
    match s.wpc
    case Copying =>
      var prev := Load(s.m, Writer, Pointer);
      s.(m := Store(s.m, Writer, Field(mine), Load(s.m, Writer, Field(prev))), wpc := Setting)
    case Setting => s.(m := Store(s.m, Writer, Field(mine), 5 + s.published), wpc := Assigning)
    case Assigning => s.(m := Store(s.m, Writer, Pointer, mine), wpc := Copying, published := mine)
  }

  ghost function Apply(release: bool, rounds: nat, s: State, a: Action): State
    requires Enabled(release, rounds, s, a)
  {
    match a
    case WriterMoves => WriterStep(s)
    case Dereferences(r) => s.(held := s.held[r := Load(s.m, Reader(r), Pointer)])
    case Reads(r) => s.(found := s.found + [(s.held[r], Load(s.m, Reader(r), Field(s.held[r])))])
    case Drains(t, l) => s.(m := Drain(s.m, t, l))
  }

  datatype Outcome = Stuck | Reached(s: State)

  ghost function Run(release: bool, rounds: nat, sched: seq<Action>): Outcome {
    if sched == [] then Reached(Init())
    else
      var before := Run(release, rounds, sched[..|sched| - 1]);
      var a := sched[|sched| - 1];
      if before.Reached? && Enabled(release, rounds, before.s, a) then Reached(Apply(release, rounds, before.s, a))
      else Stuck
  }

  /** The object holds the value the writer gave it. */
  predicate Right(id: int, value: int) {
    id >= 0 && value == Rcu.ValueOf(id)
  }

  ghost predicate AllRight(s: State) {
    forall i :: 0 <= i < |s.found| ==> Right(s.found[i].0, s.found[i].1)
  }

  // ----- Release publication

  predicate Published(s: State, p: int) {
    0 <= p <= s.published
  }

  /** The object is in memory as it was set, and nothing more is on its way to it. */
  ghost predicate InMemory(m: Memory<Thread, Loc>, p: int) {
    Right(p, Cell(m, Field(p))) && Pending(m, Writer, Field(p)) == []
  }

  ghost predicate PointerFits(s: State) {
    && Published(s, Cell(s.m, Pointer))
    && (forall k :: 0 <= k < |Pending(s.m, Writer, Pointer)| ==> Published(s, Pending(s.m, Writer, Pointer)[k]))
  }

  ghost predicate NoReaderStores(m: Memory<Thread, Loc>) {
    forall r, l :: Pending(m, Reader(r), l) == []
  }

  ghost predicate Inv(s: State) {
    && NoReaderStores(s.m)
    && (forall p :: Published(s, p) ==> InMemory(s.m, p))
    && PointerFits(s)
    && (forall r :: r in s.held ==> Published(s, s.held[r]))
    && (s.wpc == Assigning ==> Load(s.m, Writer, Field(s.published + 1)) == 5 + s.published)
    && AllRight(s)
  }

  lemma StoreEffect(m: Memory<Thread, Loc>, l: Loc, v: int)
    ensures var m' := Store(m, Writer, l, v);
      && Pending(m', Writer, l) == Pending(m, Writer, l) + [v]
      && (forall k :: k != l ==> Pending(m', Writer, k) == Pending(m, Writer, k))
      && (forall r, k :: Pending(m', Reader(r), k) == Pending(m, Reader(r), k))
      && (forall k :: Cell(m', k) == Cell(m, k))
  {
  }

  /** Filling in an object that is not published yet. */
  lemma FillingKeepsInv(s: State, v: int, wpc: WriterPc)
    requires Inv(s) && (wpc == Assigning ==> v == 5 + s.published)
    ensures Inv(s.(m := Store(s.m, Writer, Field(s.published + 1), v), wpc := wpc))
  {
    var s' := s.(m := Store(s.m, Writer, Field(s.published + 1), v), wpc := wpc);
    StoreEffect(s.m, Field(s.published + 1), v);
    forall p | Published(s', p) ensures InMemory(s'.m, p) {
      assert InMemory(s.m, p);
    }
  }

  /** Publishing an object whose field has reached memory. */
  lemma AssigningKeepsInv(s: State)
    requires Inv(s) && s.wpc == Assigning && Drained(s.m, Writer)
    ensures Inv(WriterStep(s))
  {
    var s' := WriterStep(s);
    var p' := s.published + 1;
    StoreEffect(s.m, Pointer, p');
    assert Pending(s.m, Writer, Field(p')) == [] && Pending(s.m, Writer, Pointer) == [];
    forall p | Published(s', p) ensures InMemory(s'.m, p) {
      assert p == p' || InMemory(s.m, p);
    }
  }

  lemma WriterKeepsInv(rounds: nat, s: State)
    requires Inv(s) && Enabled(true, rounds, s, WriterMoves)
    ensures Inv(WriterStep(s))
  {
    match s.wpc
    case Copying => FillingKeepsInv(s, Load(s.m, Writer, Field(Load(s.m, Writer, Pointer))), Setting);
    case Setting => FillingKeepsInv(s, 5 + s.published, Assigning);
    case Assigning => AssigningKeepsInv(s);
  }

  lemma ReaderKeepsInv(release: bool, rounds: nat, s: State, a: Action)
    requires Inv(s) && Enabled(release, rounds, s, a) && (a.Dereferences? || a.Reads?)
    ensures Inv(Apply(release, rounds, s, a))
  {
    if a.Reads? {
      assert Published(s, s.held[a.r]);
    }
  }

  lemma DrainKeepsInv(s: State, t: Thread, l: Loc)
    requires Inv(s) && Pending(s.m, t, l) != []
    ensures Inv(s.(m := Drain(s.m, t, l)))
  {
    assert t == Writer;
    var s' := s.(m := Drain(s.m, Writer, l));
    DrainEffect(s.m, Writer, l);
    OwnViewAfterDrain(s.m, l, Field(s.published + 1));
    forall p | Published(s', p) ensures InMemory(s'.m, p) {
      assert InMemory(s.m, p);
    }
    assert PointerFits(s') by {
      if l == Pointer {
        PointerDrains(s, s'.m);
      }
    }
  }

  lemma OwnViewAfterDrain(m: Memory<Thread, Loc>, l: Loc, k: Loc)
    requires Pending(m, Writer, l) != []
    ensures Load(Drain(m, Writer, l), Writer, k) == Load(m, Writer, k)
  {
    OwnViewIsSequential(m, Writer, l, 0);
  }

  lemma PointerDrains(s: State, d: Memory<Thread, Loc>)
    requires PointerFits(s) && Pending(s.m, Writer, Pointer) != [] && d == Drain(s.m, Writer, Pointer)
    ensures PointerFits(s.(m := d))
  {
    assert Cell(d, Pointer) == Pending(s.m, Writer, Pointer)[0];
    assert Pending(d, Writer, Pointer) == Pending(s.m, Writer, Pointer)[1..];
  }

  lemma {:induction false} RunsKeepInv(release: bool, rounds: nat, sched: seq<Action>)
    requires (release || rounds == 0) && Run(release, rounds, sched).Reached?
    ensures Inv(Run(release, rounds, sched).s)
  {
    if sched != [] {
      var k := |sched| - 1;
      RunsKeepInv(release, rounds, sched[..k]);
      var s := Run(release, rounds, sched[..k]).s;
      match sched[k]
      case WriterMoves => WriterKeepsInv(rounds, s);
      case Dereferences(r) => ReaderKeepsInv(release, rounds, s, sched[k]);
      case Reads(r) => ReaderKeepsInv(release, rounds, s, sched[k]);
      case Drains(t, l) => DrainKeepsInv(s, t, l);
    }
  }

  // ----- Plain publication

  lemma Follow(rounds: nat, sched: seq<Action>, s: State, a: Action, s': State)
    requires Run(false, rounds, sched) == Reached(s) && Enabled(false, rounds, s, a)
    requires Apply(false, rounds, s, a) == s'
    ensures Run(false, rounds, sched + [a]) == Reached(s')
  {
    assert (sched + [a])[..|sched|] == sched;
  }

  /** The writer's first round, with all three stores still pending. */
  function AllPending(): Memory<Thread, Loc> {
    Store(Store(Store(Blank(), Writer, Field(1), 0), Writer, Field(1), 5), Writer, Pointer, 1)
  }

  lemma WriterPublishes(rounds: nat)
    requires rounds > 0
    ensures var w := WriterMoves;
      Run(false, rounds, [] + [w] + [w] + [w]) == Reached(State(AllPending(), Copying, 1, map[], []))
  {
    var w := WriterMoves;
    var s1 := Init().(m := Store(Blank(), Writer, Field(1), 0), wpc := Setting);
    var s2 := s1.(m := Store(s1.m, Writer, Field(1), 5), wpc := Assigning);
    Follow(rounds, [], Init(), w, s1);
    Follow(rounds, [] + [w], s1, w, s2);
    Follow(rounds, [] + [w] + [w], s2, w, State(AllPending(), Copying, 1, map[], []));
  }

  /** The pointer overtakes the field: a reader finds the new object before its value. */
  lemma PlainShowsUnset(rounds: nat) returns (sched: seq<Action>)
    requires rounds > 0
    ensures Run(false, rounds, sched).Reached? && Run(false, rounds, sched).s.found == [(1, 0)]
  {
    var w := WriterMoves;
    WriterPublishes(rounds);
    var s0 := State(AllPending(), Copying, 1, map[], []);
    var s1 := s0.(m := Drain(AllPending(), Writer, Pointer));
    var s2 := s1.(held := map[0 := 1]);
    var s3 := s2.(found := [(1, 0)]);
    sched := [] + [w] + [w] + [w];
    Follow(rounds, sched, s0, Drains(Writer, Pointer), s1);
    sched := sched + [Drains(Writer, Pointer)];
    assert map[][0 := 1] == map[0 := 1];
    Follow(rounds, sched, s1, Dereferences(0), s2);
    sched := sched + [Dereferences(0)];
    Follow(rounds, sched, s2, Reads(0), s3);
    sched := sched + [Reads(0)];
  }

  // ----- The theorem

  ghost predicate ReadersSeeWholeObjects(release: bool, rounds: nat) {
    forall sched :: Run(release, rounds, sched).Reached? ==> AllRight(Run(release, rounds, sched).s)
  }

  /**
    In every run every reader finds the value that was set before the object was published, exactly
    when the publication is a release store (or nothing is published).
   */
  lemma ReleaseIffWholeObjects(release: bool, rounds: nat)
    ensures ReadersSeeWholeObjects(release, rounds) <==> release || rounds == 0
  {
    if release || rounds == 0 {
      forall sched | Run(release, rounds, sched).Reached? ensures AllRight(Run(release, rounds, sched).s) {
        RunsKeepInv(release, rounds, sched);
      }
    } else {
      var sched := PlainShowsUnset(rounds);
      assert Run(release, rounds, sched).s.found[0] == (1, 0);
      assert !AllRight(Run(release, rounds, sched).s);
    }
  }
}
