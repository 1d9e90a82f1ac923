/**
  A weakly ordered memory: shared cells plus, for every thread and every location, a FIFO of
  stores that the thread has issued and the cell has not yet received.

  This is an explicit abstraction of Armv8.  Stores of one thread to different locations may
  reach memory in any order, stores to one location keep their order, a thread sees its own
  newest store at once, and loads happen in program order.  A full barrier, a store-release and
  a sequentially consistent access are modelled by waiting until the thread's FIFOs are empty.
 */
module StoreBuffer {

  datatype Memory<T(==), L(==)> = Memory(cells: map<L, int>, buffers: map<(T, L), seq<int>>)

  function Blank<T(==), L(==)>(): Memory<T, L> {
    Memory(map[], map[])
  }

  /** The value held by the shared cell; every cell starts at zero. */
  function Cell<T(==), L(==)>(m: Memory<T, L>, l: L): int {
    if l in m.cells then m.cells[l] else 0
  }

  /** The stores of thread t to location l that memory has not yet received, oldest first. */
  function Pending<T(==), L(==)>(m: Memory<T, L>, t: T, l: L): seq<int> {
    if (t, l) in m.buffers then m.buffers[(t, l)] else []
  }

  function Load<T(==), L(==)>(m: Memory<T, L>, t: T, l: L): int {
    var q := Pending(m, t, l);
    if q == [] then Cell(m, l) else q[|q| - 1]
  }

  function Store<T(==), L(==)>(m: Memory<T, L>, t: T, l: L, v: int): Memory<T, L> {
    m.(buffers := m.buffers[(t, l) := Pending(m, t, l) + [v]])
  }

  /** The oldest pending store of t to l reaches the shared cell. */
  function Drain<T(==), L(==)>(m: Memory<T, L>, t: T, l: L): Memory<T, L>
    requires Pending(m, t, l) != []
  {
    var q := Pending(m, t, l);
    Memory(m.cells[l := q[0]], m.buffers[(t, l) := q[1..]])
  }

  ghost predicate Drained<T(!new), L(!new)>(m: Memory<T, L>, t: T) {
    forall l :: Pending(m, t, l) == []
  }

  lemma FirstStore<T, L>(m: Memory<T, L>, t: T, l: L, v: int)
    requires Pending(m, t, l) == []
    ensures Pending(Store(m, t, l, v), t, l) == [v]
  {
  }

  /** What one drain does: the oldest store moves to its cell, and nothing else moves. */
  lemma DrainEffect<T(!new), L(!new)>(m: Memory<T, L>, t: T, l: L)
    requires Pending(m, t, l) != []
    ensures var d := Drain(m, t, l);
      && [Cell(d, l)] + Pending(d, t, l) == Pending(m, t, l)
      && (|Pending(m, t, l)| == 1 ==> Pending(d, t, l) == [])
      && (forall l' :: l' != l ==> Cell(d, l') == Cell(m, l'))
      && (forall t', l' :: (t', l') != (t, l) ==> Pending(d, t', l') == Pending(m, t', l'))
  {
  }

  /**
    Draining is invisible to the thread that issued the store, and to everybody else it changes
    one location only.  A store, until it drains, is visible to its own thread alone.
   */
  lemma OwnViewIsSequential<T(!new), L(!new)>(m: Memory<T, L>, t: T, l: L, v: int)
    ensures Load(Store(m, t, l, v), t, l) == v
    ensures forall t', l' :: (t', l') != (t, l) ==> Load(Store(m, t, l, v), t', l') == Load(m, t', l')
    ensures Pending(m, t, l) != [] ==>
      && (forall l' :: Load(Drain(m, t, l), t, l') == Load(m, t, l'))
      && (forall t', l' :: l' != l ==> Load(Drain(m, t, l), t', l') == Load(m, t', l'))
  {
    var q := Pending(m, t, l);
    if q != [] {
      var d := Drain(m, t, l);
      forall l' ensures Load(d, t, l') == Load(m, t, l') {
        if l' == l {
          assert Pending(d, t, l) == q[1..];
        } else {
          assert Pending(d, t, l') == Pending(m, t, l');
        }
      }
      forall t', l' | l' != l ensures Load(d, t', l') == Load(m, t', l') {
        assert Pending(d, t', l') == Pending(m, t', l');
      }
    }
  }
}
