/**
  The software page-table walk: four levels of 512 descriptors (the VMSAv8-64 scheme with 4 KB
  granule and 48-bit addresses, Arm Architecture Reference Manual, chapter "The AArch64 Virtual
  Memory System Architecture"), with early exits at 1 GB and 2 MB blocks.

  Descriptors and addresses are natural numbers; a mask of bits hi..lo is a quotient and a
  remainder by powers of two, and an "or" of disjoint fields is a sum.
 */
module PageWalk {
  import opened Arithmetic
  import opened Options

  /** Table pages by physical address, each with its 512 descriptors. */
  type Tables = map<nat, seq<nat>>

  const PA_LIMIT := 0x1_0000_0000_0000
  const VA_HALF := 0x8000_0000_0000_0000

  /** The span of one descriptor of a level: 512 GB, 1 GB, 2 MB, 4 KB. */
  function Size(level: nat): nat {
    if level == 0 then 0x80_0000_0000
    else if level == 1 then 0x4000_0000
    else if level == 2 then 0x20_0000
    else 0x1000
  }

  function Index(va: nat, level: nat): (i: nat)
    ensures i < 512
  {
    va / Size(level) % 512
  }

  /** The output address of a leaf of this level: bits 47 down to the level's shift. */
  function Output(desc: nat, level: nat): nat {
    desc % PA_LIMIT / Size(level) * Size(level)
  }

  /** The next-level table: bits 47:12. */
  function NextTable(desc: nat): nat {
    Output(desc, 3)
  }

  predicate IsNone(desc: nat) { desc == 0 }

  predicate IsSect(desc: nat) { desc % 4 == 1 }

  /** Where a walk ends: an empty entry, or a leaf with the physical address it gives. */
  datatype Walked = Fault(level: nat) | Leaf(level: nat, desc: nat, pa: nat)

  // ----- Well-formed tables

  /** Every entry is zero or valid at its level, and table entries lead one level down. */
  ghost predicate EntryFits(m: Tables, level: map<nat, nat>, l: nat, e: nat) {
    || IsNone(e)
    || (l == 3 && e % 4 == 3)
    || (l in {1, 2} && IsSect(e))
    || (l < 3 && e % 4 == 3 && NextTable(e) in m && NextTable(e) in level && level[NextTable(e)] == l + 1)
  }

  ghost predicate TableFits(m: Tables, level: map<nat, nat>, t: nat) {
    && t in level && t in m && |m[t]| == 512 && level[t] <= 3
    && forall i :: 0 <= i < 512 ==> EntryFits(m, level, level[t], m[t][i])
  }

  ghost predicate WellFormed(m: Tables, level: map<nat, nat>) {
    forall t :: t in m ==> TableFits(m, level, t)
  }

  ghost predicate Root(m: Tables, level: map<nat, nat>, root: nat) {
    WellFormed(m, level) && root in m && level[root] == 0
  }

  // ----- The two walks, as written

  function Entry(m: Tables, table: nat, va: nat, level: nat): nat {
    if table in m && |m[table]| == 512 then m[table][Index(va, level)] else 0
  }

  /** The walk from a chosen root. */
  function WalkFrom(m: Tables, root: nat, va: nat): Walked {
    var l0 := Entry(m, root, va, 0);
    if IsNone(l0) then Fault(0)
    else
      var l1 := Entry(m, NextTable(l0), va, 1);
      if IsNone(l1) then Fault(1)
      else if IsSect(l1) then Leaf(1, l1, Output(l1, 1) + va % 0x4000_0000)
      else
        var l2 := Entry(m, NextTable(l1), va, 2);
        if IsNone(l2) then Fault(2)
        else if IsSect(l2) then Leaf(2, l2, Output(l2, 2) + va % 0x20_0000)
        else
          var l3 := Entry(m, NextTable(l2), va, 3);
          if IsNone(l3) then Fault(3) else Leaf(3, l3, Output(l3, 3) + va % 0x1000)
  }

  /** Bit 63 chooses between the process's tables, if it has any, and the kernel's. */
  function Walk(m: Tables, userRoot: Option<nat>, kernelRoot: nat, va: nat): Option<Walked> {
    if va / VA_HALF % 2 == 0 then
      if userRoot == None then None else Some(WalkFrom(m, userRoot.value, va))
    else Some(WalkFrom(m, kernelRoot, va))
  }

  /** The other module's walk keeps only the leaf descriptor; a zero address means "not given". */
  function SecProbeLeaf(m: Tables, kernelRoot: nat, stext: nat): Option<nat> {
    if stext == 0 then None
    else
      var l0 := Entry(m, kernelRoot, stext, 0);
      if IsNone(l0) then None
      else
        var l1 := Entry(m, NextTable(l0), stext, 1);
        if IsNone(l1) then None
        else if IsSect(l1) then Some(l1)
        else
          var l2 := Entry(m, NextTable(l1), stext, 2);
          if IsNone(l2) then None
          else if IsSect(l2) then Some(l2)
          else
            var l3 := Entry(m, NextTable(l2), stext, 3);
            if IsNone(l3) then None else Some(l3)
  }

  /** The non-global bit, bit 11. */
  function NonGlobal(desc: nat): bool {
    desc / 0x800 % 2 == 1
  }

  // ----- The reference: one level at a time

  function Translate(m: Tables, level: nat, table: nat, va: nat): Walked
    requires level <= 3
    decreases 3 - level
  {
    var e := Entry(m, table, va, level);
    if IsNone(e) then Fault(level)
    else if level == 3 || (level > 0 && IsSect(e)) then Leaf(level, e, Output(e, level) + va % Size(level))
    else Translate(m, level + 1, NextTable(e), va)
  }

  /** The unrolled walk is the level-by-level translation. */
  lemma WalkIsTranslation(m: Tables, userRoot: Option<nat>, kernelRoot: nat, va: nat)
    ensures Walk(m, userRoot, kernelRoot, va) ==
      if va / VA_HALF % 2 == 1 then Some(Translate(m, 0, kernelRoot, va))
      else if userRoot == None then None
      else Some(Translate(m, 0, userRoot.value, va))
  {
    forall root ensures WalkFrom(m, root, va) == Translate(m, 0, root, va) {
      UnrolledWalk(m, root, va);
    }
  }

  lemma UnrolledWalk(m: Tables, root: nat, va: nat)
    ensures WalkFrom(m, root, va) == Translate(m, 0, root, va)
  {
    var l0 := Entry(m, root, va, 0);
    if !IsNone(l0) {
      var l1 := Entry(m, NextTable(l0), va, 1);
      if !IsNone(l1) && !IsSect(l1) {
        var l2 := Entry(m, NextTable(l1), va, 2);
        assert Translate(m, 1, NextTable(l0), va) == Translate(m, 2, NextTable(l1), va);
        if !IsNone(l2) && !IsSect(l2) {
          assert Translate(m, 2, NextTable(l1), va) == Translate(m, 3, NextTable(l2), va);
        }
      }
    }
  }

  /** Where the level-by-level translation ends, for whoever wants the descriptor only. */
  function LeafOf(w: Walked): Option<nat> {
    match w
    case Fault(_) => None
    case Leaf(_, desc, _) => Some(desc)
  }

  /**
    The second walk stops at the leaf of the translation for every address but zero, so for kernel
    addresses both walks stop at the same descriptor and read the same non-global bit.
   */
  lemma SecProbeSameLeaf(m: Tables, userRoot: Option<nat>, kernelRoot: nat, stext: nat)
    ensures SecProbeLeaf(m, kernelRoot, stext)
      == if stext == 0 then None else LeafOf(Translate(m, 0, kernelRoot, stext))
    ensures stext / VA_HALF % 2 == 1 ==>
      Walk(m, userRoot, kernelRoot, stext).Some?
      && SecProbeLeaf(m, kernelRoot, stext) == LeafOf(Walk(m, userRoot, kernelRoot, stext).value)
  {
    UnrolledWalk(m, kernelRoot, stext);
  }

  // ----- The bits of addresses and descriptors

  /** An address put together from its parts: bits 63:48, the four indices and the page offset. */
  function Address(h: nat, i0: nat, i1: nat, i2: nat, i3: nat, off: nat): nat {
    h * 0x1_0000_0000_0000 + i0 * 0x80_0000_0000 + i1 * 0x4000_0000 + i2 * 0x20_0000 + i3 * 0x1000 + off
  }

  /** A descriptor put together from bits 63:48, its address field in units of `unit`, and what lies below. */
  function Descriptor(h: nat, o: nat, unit: nat, low: nat): nat {
    h * 0x1_0000_0000_0000 + o * unit + low
  }

  predicate AddressParts(i0: nat, i1: nat, i2: nat, i3: nat, off: nat) {
    i0 < 512 && i1 < 512 && i2 < 512 && i3 < 512 && off < 0x1000
  }

  lemma IndexAbove(high: nat, i: nat, low: nat, size: nat)
    requires size > 0 && i < 512 && low < size
    ensures (high * 512 + i) * size + low >= 0
    ensures ((high * 512 + i) * size + low) / size % 512 == i && ((high * 512 + i) * size + low) % size == low
  {
    var n := high * 512 + i;
    DivBy(n * size + low, n, low, size);
    DivBy(n, high, i, 512);
  }

  /** Each level's index is the nine bits the architecture gives it, and the rest below is the offset. */
  lemma IndicesOfAddress(h: nat, i0: nat, i1: nat, i2: nat, i3: nat, off: nat)
    requires AddressParts(i0, i1, i2, i3, off)
    ensures var va := Address(h, i0, i1, i2, i3, off);
      && Index(va, 0) == i0 && Index(va, 1) == i1 && Index(va, 2) == i2 && Index(va, 3) == i3
      && va % 0x4000_0000 == i2 * 0x20_0000 + i3 * 0x1000 + off
      && va % 0x20_0000 == i3 * 0x1000 + off
      && va % 0x1000 == off
  {
    var low2 := i3 * 0x1000 + off;
    var low1 := i2 * 0x20_0000 + low2;
    var low0 := i1 * 0x4000_0000 + low1;
    IndexAbove(h, i0, low0, 0x80_0000_0000);
    IndexAbove(h * 512 + i0, i1, low1, 0x4000_0000);
    IndexAbove((h * 512 + i0) * 512 + i1, i2, low2, 0x20_0000);
    IndexAbove(((h * 512 + i0) * 512 + i1) * 512 + i2, i3, off, 0x1000);
  }

  /** Bit 63 chooses the tables: it is the top bit of the sixteen above the indices. */
  lemma TopBitOfAddress(h: nat, i0: nat, i1: nat, i2: nat, i3: nat, off: nat)
    requires AddressParts(i0, i1, i2, i3, off)
    ensures Address(h, i0, i1, i2, i3, off) / VA_HALF % 2 == h / 0x8000 % 2
  {
    var low := Address(0, i0, i1, i2, i3, off);
    var q, r := h / 0x8000, h % 0x8000;
    assert low < 0x1_0000_0000_0000;
    assert h == q * 0x8000 + r;
    DivBy(Address(h, i0, i1, i2, i3, off), q, r * 0x1_0000_0000_0000 + low, VA_HALF);
  }

  /** Only bits 47 down to the level's shift of a descriptor make its output address. */
  lemma OutputOfDescriptor(h: nat, o: nat, low: nat, level: nat)
    requires 1 <= level <= 3 && low < Size(level) && (o + 1) * Size(level) <= 0x1_0000_0000_0000
    ensures Output(Descriptor(h, o, Size(level), low), level) == o * Size(level)
  {
    var d := Descriptor(h, o, Size(level), low);
    DivBy(d, h, o * Size(level) + low, PA_LIMIT);
    DivBy(o * Size(level) + low, o, low, Size(level));
  }

  lemma LowBitsOfDescriptor(h: nat, o: nat, unit: nat, low: nat)
    requires unit in {0x1000, 0x20_0000, 0x4000_0000}
    ensures Descriptor(h, o, unit, low) % 4 == low % 4
  {
    var rest := h * 0x4000_0000_0000 + o * (unit / 4);
    DivBy(Descriptor(h, o, unit, low), rest + low / 4, low % 4, 4);
  }

  /** Entry i of the table at page number p leads to the table at page number q. */
  ghost predicate LeadsTo(m: Tables, p: nat, i: nat, q: nat) {
    && p * 0x1000 in m && |m[p * 0x1000]| == 512 && i < 512 && q < 0x10_0000_0000
    && exists h: nat, low: nat :: low < 0x1000 && low % 4 == 3 && m[p * 0x1000][i] == Descriptor(h, q, 0x1000, low)
  }

  lemma TableEntryLeads(m: Tables, p: nat, i: nat, q: nat, va: nat, level: nat)
    requires LeadsTo(m, p, i, q) && Index(va, level) == i
    ensures var e := Entry(m, p * 0x1000, va, level); !IsNone(e) && !IsSect(e) && NextTable(e) == q * 0x1000
  {
    var h: nat, low: nat :|
      low < 0x1000 && low % 4 == 3 && m[p * 0x1000][i] == Descriptor(h, q, 0x1000, low);
    OutputOfDescriptor(h, q, low, 3);
    LowBitsOfDescriptor(h, q, 0x1000, low);
  }

  /** The entry of a level-3 table: the walk reads entries i0 to i3 and adds the offset to the page's address. */
  lemma WalkToPage(m: Tables, root: nat, t1: nat, t2: nat, t3: nat, h: nat,
                   i0: nat, i1: nat, i2: nat, i3: nat, off: nat, dh: nat, page: nat, low: nat)
    requires AddressParts(i0, i1, i2, i3, off)
    requires LeadsTo(m, root, i0, t1) && LeadsTo(m, t1, i1, t2) && LeadsTo(m, t2, i2, t3)
    requires t3 * 0x1000 in m && |m[t3 * 0x1000]| == 512
    requires page < 0x10_0000_0000 && 0 < low < 0x1000 && m[t3 * 0x1000][i3] == Descriptor(dh, page, 0x1000, low)
    ensures WalkFrom(m, root * 0x1000, Address(h, i0, i1, i2, i3, off))
      == Leaf(3, Descriptor(dh, page, 0x1000, low), page * 0x1000 + off)
  {
    var va := Address(h, i0, i1, i2, i3, off);
    IndicesOfAddress(h, i0, i1, i2, i3, off);
    TableEntryLeads(m, root, i0, t1, va, 0);
    TableEntryLeads(m, t1, i1, t2, va, 1);
    TableEntryLeads(m, t2, i2, t3, va, 2);
    OutputOfDescriptor(dh, page, low, 3);
  }

  /** A 2 MB block: the third index and the offset are added to its address. */
  lemma WalkToMegabytes(m: Tables, root: nat, t1: nat, t2: nat, h: nat, i0: nat, i1: nat, i2: nat, i3: nat, off: nat,
                        dh: nat, o: nat, low: nat)
    requires AddressParts(i0, i1, i2, i3, off)
    requires LeadsTo(m, root, i0, t1) && LeadsTo(m, t1, i1, t2)
    requires t2 * 0x1000 in m && |m[t2 * 0x1000]| == 512
    requires o < 0x800_0000 && low < 0x20_0000 && low % 4 == 1
    requires m[t2 * 0x1000][i2] == Descriptor(dh, o, 0x20_0000, low)
    ensures WalkFrom(m, root * 0x1000, Address(h, i0, i1, i2, i3, off))
      == Leaf(2, Descriptor(dh, o, 0x20_0000, low), o * 0x20_0000 + i3 * 0x1000 + off)
  {
    var va := Address(h, i0, i1, i2, i3, off);
    IndicesOfAddress(h, i0, i1, i2, i3, off);
    TableEntryLeads(m, root, i0, t1, va, 0);
    TableEntryLeads(m, t1, i1, t2, va, 1);
    OutputOfDescriptor(dh, o, low, 2);
    LowBitsOfDescriptor(dh, o, 0x20_0000, low);
  }

  /** A 1 GB block: the last two indices and the offset are added to its address. */
  lemma WalkToGigabyte(m: Tables, root: nat, t1: nat, h: nat, i0: nat, i1: nat, i2: nat, i3: nat, off: nat,
                       dh: nat, o: nat, low: nat)
    requires AddressParts(i0, i1, i2, i3, off)
    requires LeadsTo(m, root, i0, t1) && t1 * 0x1000 in m && |m[t1 * 0x1000]| == 512
    requires o < 0x4_0000 && low < 0x4000_0000 && low % 4 == 1
    requires m[t1 * 0x1000][i1] == Descriptor(dh, o, 0x4000_0000, low)
    ensures WalkFrom(m, root * 0x1000, Address(h, i0, i1, i2, i3, off))
      == Leaf(1, Descriptor(dh, o, 0x4000_0000, low), o * 0x4000_0000 + i2 * 0x20_0000 + i3 * 0x1000 + off)
  {
    var va := Address(h, i0, i1, i2, i3, off);
    IndicesOfAddress(h, i0, i1, i2, i3, off);
    TableEntryLeads(m, root, i0, t1, va, 0);
    OutputOfDescriptor(dh, o, low, 1);
    LowBitsOfDescriptor(dh, o, 0x4000_0000, low);
  }

  /** An empty entry on the way is where the walk faults. */
  lemma WalkToFault(m: Tables, root: nat, t1: nat, t2: nat, t3: nat, h: nat,
                    i0: nat, i1: nat, i2: nat, i3: nat, off: nat)
    requires AddressParts(i0, i1, i2, i3, off)
    requires forall t :: t in {root, t1, t2, t3} ==> t * 0x1000 in m && |m[t * 0x1000]| == 512
    ensures var w := WalkFrom(m, root * 0x1000, Address(h, i0, i1, i2, i3, off));
      && (m[root * 0x1000][i0] == 0 ==> w == Fault(0))
      && (LeadsTo(m, root, i0, t1) && m[t1 * 0x1000][i1] == 0 ==> w == Fault(1))
      && (LeadsTo(m, root, i0, t1) && LeadsTo(m, t1, i1, t2) && m[t2 * 0x1000][i2] == 0 ==> w == Fault(2))
      && (LeadsTo(m, root, i0, t1) && LeadsTo(m, t1, i1, t2) && LeadsTo(m, t2, i2, t3) && m[t3 * 0x1000][i3] == 0
          ==> w == Fault(3))
  {
    var va := Address(h, i0, i1, i2, i3, off);
    IndicesOfAddress(h, i0, i1, i2, i3, off);
    if LeadsTo(m, root, i0, t1) {
      TableEntryLeads(m, root, i0, t1, va, 0);
      if LeadsTo(m, t1, i1, t2) {
        TableEntryLeads(m, t1, i1, t2, va, 1);
        if LeadsTo(m, t2, i2, t3) {
          TableEntryLeads(m, t2, i2, t3, va, 2);
        }
      }
    }
  }

  // ----- What a leaf maps

  /** Addresses under one leaf: same quotients from the leaf's level up, offset by their distance. */
  lemma SameLeafIndex(va: nat, vb: nat, l: nat, j: nat)
    requires j <= l <= 3 && va / Size(l) == vb / Size(l)
    ensures Index(va, j) == Index(vb, j) && va / Size(j) == vb / Size(j)
  {
    QuotientFactor(va, l);
    QuotientFactor(vb, l);
  }

  lemma QuotientFactor(va: nat, l: nat)
    requires l <= 3
    ensures l >= 1 ==> va / Size(l - 1) == va / Size(l) / 512
    ensures l >= 2 ==> va / Size(l - 2) == va / Size(l) / 512 / 512
    ensures l >= 3 ==> va / Size(l - 3) == va / Size(l) / 512 / 512 / 512
  {
  }

  lemma {:induction false} LeafIsLinearFrom(m: Tables, level: nat, table: nat, va: nat, vb: nat)
    requires level <= 3
    requires var r := Translate(m, level, table, va); r.Leaf? && va / Size(r.level) == vb / Size(r.level)
    ensures var r := Translate(m, level, table, va);
      && level <= r.level <= 3
      && Translate(m, level, table, vb) == Leaf(r.level, r.desc, r.pa - va % Size(r.level) + vb % Size(r.level))
    decreases 3 - level
  {
    var r := Translate(m, level, table, va);
    LeafLevel(m, level, table, va);
    SameLeafIndex(va, vb, r.level, level);
    var e := Entry(m, table, va, level);
    assert Entry(m, table, vb, level) == e;
    if !(level == 3 || (level > 0 && IsSect(e))) {
      LeafIsLinearFrom(m, level + 1, NextTable(e), va, vb);
    }
  }

  lemma {:induction false} LeafLevel(m: Tables, level: nat, table: nat, va: nat)
    requires level <= 3 && Translate(m, level, table, va).Leaf?
    ensures var r := Translate(m, level, table, va);
      && level <= r.level <= 3 && r.level > 0
      && r.pa == Output(r.desc, r.level) + va % Size(r.level)
    decreases 3 - level
  {
    var e := Entry(m, table, va, level);
    if !(level == 3 || (level > 0 && IsSect(e))) {
      LeafLevel(m, level + 1, NextTable(e), va);
    }
  }

  /**
    A leaf maps its whole aligned span, and only by displacement: every address of the span ends
    at the same descriptor, and addresses keep their distance.
   */
  lemma LeafMapsItsSpan(m: Tables, root: nat, va: nat, vb: nat)
    requires var r := WalkFrom(m, root, va); r.Leaf? && va / Size(r.level) == vb / Size(r.level)
    ensures var r := WalkFrom(m, root, va); var q := WalkFrom(m, root, vb);
      q.Leaf? && q.level == r.level && q.desc == r.desc && q.pa - vb == r.pa - va
  {
    var r := WalkFrom(m, root, va);
    UnrolledWalk(m, root, va);
    UnrolledWalk(m, root, vb);
    LeafIsLinearFrom(m, 0, root, va, vb);
    assert va == va / Size(r.level) * Size(r.level) + va % Size(r.level);
    assert vb == vb / Size(r.level) * Size(r.level) + vb % Size(r.level);
  }

  // ----- Descriptor types

  datatype Kind = Invalid | Page | Table | Block

  function DecodeDesc(desc: nat, level: nat): Kind {
    if desc % 2 == 0 then Invalid
    else if desc % 4 == 3 then (if level == 3 then Page else Table)
    else Block
  }

  /** On well-formed tables the walk's leaf is what its printed type says, at the right level. */
  lemma {:induction false} LeafKind(m: Tables, level: map<nat, nat>, l: nat, table: nat, va: nat)
    requires WellFormed(m, level) && l <= 3 && table in m && level[table] == l
    ensures match Translate(m, l, table, va)
      case Fault(_) => true
      case Leaf(k, desc, _) => (k == 3 && DecodeDesc(desc, k) == Page) || (k in {1, 2} && DecodeDesc(desc, k) == Block)
    decreases 3 - l
  {
    assert TableFits(m, level, table);
    var e := Entry(m, table, va, l);
    assert EntryFits(m, level, l, e);
    if !IsNone(e) && e % 4 == 3 && l < 3 {
      LeafKind(m, level, l + 1, NextTable(e), va);
    }
  }

  // ----- Splitting a block

  /** Attributes live in bits 63:48 and 11:0. */
  function High(desc: nat): nat { desc / PA_LIMIT }

  function Low(desc: nat): nat { desc % 0x1000 }

  /** The k-th of the 512 descriptors that together replace a block of this level. */
  function Piece(block: nat, level: nat, k: nat): nat {
    High(block) * PA_LIMIT + Output(block, level) + k * Size(level + 1) + Low(block) + (if level + 1 == 3 then 2 else 0)
  }

  function PieceTable(block: nat, level: nat): seq<nat> {
    seq(512, k requires 0 <= k => Piece(block, level, k))
  }

  /** Entry i of table t, a block, becomes a table entry leading to a new page q of pieces. */
  function Split(m: Tables, level: nat, t: nat, i: nat, q: nat): Tables
    requires t in m && i < |m[t]|
  {
    m[q := PieceTable(m[t][i], level)][t := m[t][i := q + 3]]
  }

  ghost predicate CanSplit(m: Tables, level: map<nat, nat>, t: nat, i: nat, q: nat) {
    && WellFormed(m, level) && t in m && i < 512 && |m[t]| == 512
    && t in level && level[t] in {1, 2} && IsSect(m[t][i])
    && q !in m && 0 < q && q + 3 < PA_LIMIT && q % 0x1000 == 0
  }

  /** The fields of h * 2^48 + (o * 512 + k) * size + low, for a size that is a multiple of 2^12. */
  lemma Fields(h: nat, o: nat, k: nat, pages: nat, low: nat)
    requires pages >= 1 && low < 0x1000 && k < 512 && (o * 512 + k + 1) * (pages * 0x1000) <= PA_LIMIT
    ensures var d := h * PA_LIMIT + (o * 512 + k) * (pages * 0x1000) + low;
      && d / PA_LIMIT == h && d % 0x1000 == low
      && d % PA_LIMIT / (pages * 0x1000) == o * 512 + k
  {
    var size := pages * 0x1000;
    var n := o * 512 + k;
    var d := h * PA_LIMIT + n * size + low;
    assert (n + 1) * size == n * size + size;
    MulAtLeast(pages, 0x1000);
    DivBy(d, h, n * size + low, PA_LIMIT);
    DivBy(n * size + low, n, low, size);
    assert n * size == n * pages * 0x1000;
    DivBy(d, h * 0x10_0000_0000 + n * pages, low, 0x1000);
  }

  lemma LowOfBlock(block: nat)
    requires IsSect(block)
    ensures Low(block) % 4 == 1 && Low(block) + 2 < 0x1000
  {
    assert block == block / 0x1000 * 0x1000 + Low(block);
  }

  /** A piece gives the next part of the block's range and keeps the block's attributes. */
  lemma PieceFacts(block: nat, level: nat, k: nat)
    requires level in {1, 2} && IsSect(block) && k < 512
    ensures var p := Piece(block, level, k);
      && Output(p, level + 1) == Output(block, level) + k * Size(level + 1)
      && High(p) == High(block)
      && Low(p) == Low(block) + (if level == 2 then 2 else 0)
      && Low(p) / 4 == Low(block) / 4
      && p % 4 == (if level == 2 then 3 else 1)
      && NonGlobal(p) == NonGlobal(block)
  {
    var p := Piece(block, level, k);
    LowOfBlock(block);
    if level == 1 {
      GigabytePiece(block, k);
    } else {
      MegabytePiece(block, k);
    }
    LowModFour(p);
    NonGlobalOfLow(p, block);
  }

  lemma LowModFour(p: nat)
    ensures p % 4 == Low(p) % 4
  {
    var q, r := p / 0x1000, Low(p);
    assert p == q * 0x1000 + r;
    assert r == r / 4 * 4 + r % 4;
    DivBy(p, q * 0x400 + r / 4, r % 4, 4);
  }

  lemma GigabytePiece(block: nat, k: nat)
    requires IsSect(block) && k < 512
    ensures var p := Piece(block, 1, k);
      Output(p, 2) == Output(block, 1) + k * 0x20_0000 && High(p) == High(block) && Low(p) == Low(block)
  {
    var o := block % PA_LIMIT / 0x4000_0000;
    Fields(High(block), o, k, 0x200, Low(block));
    assert Piece(block, 1, k) == High(block) * PA_LIMIT + (o * 512 + k) * (0x200 * 0x1000) + Low(block);
  }

  lemma MegabytePiece(block: nat, k: nat)
    requires IsSect(block) && k < 512
    ensures var p := Piece(block, 2, k);
      Output(p, 3) == Output(block, 2) + k * 0x1000 && High(p) == High(block) && Low(p) == Low(block) + 2
  {
    var o := block % PA_LIMIT / 0x20_0000;
    LowOfBlock(block);
    Fields(High(block), o, k, 1, Low(block) + 2);
    assert Piece(block, 2, k) == High(block) * PA_LIMIT + (o * 512 + k) * (1 * 0x1000) + (Low(block) + 2);
  }

  /** Adding 2 to a low part that is 1 modulo 4 does not reach bit 11. */
  lemma NonGlobalOfLow(p: nat, block: nat)
    requires Low(block) % 4 == 1 && (Low(p) == Low(block) || Low(p) == Low(block) + 2)
    ensures NonGlobal(p) == NonGlobal(block)
  {
    NonGlobalIsLow(p);
    NonGlobalIsLow(block);
  }

  lemma NonGlobalIsLow(desc: nat)
    ensures NonGlobal(desc) <==> Low(desc) / 0x800 % 2 == 1
  {
  }

  lemma OffsetSplits(va: nat, level: nat)
    requires level in {1, 2}
    ensures va % Size(level) == Index(va, level + 1) * Size(level + 1) + va % Size(level + 1)
  {
    var w := va / Size(level + 1);
    assert va == w * Size(level + 1) + va % Size(level + 1);
    assert w == w / 512 * 512 + w % 512;
    if level == 1 {
      DivBy(va, w / 512, w % 512 * 0x20_0000 + va % 0x20_0000, 0x4000_0000);
    } else {
      DivBy(va, w / 512, w % 512 * 0x1000 + va % 0x1000, 0x20_0000);
    }
  }

  lemma TableEntryFacts(q: nat)
    requires 0 < q && q + 3 < PA_LIMIT && q % 0x1000 == 0
    ensures NextTable(q + 3) == q && (q + 3) % 4 == 3 && !IsNone(q + 3)
  {
    assert q == q / 0x1000 * 0x1000;
    DivBy(q + 3, 0, q + 3, PA_LIMIT);
    DivBy(q + 3, q / 0x1000, 3, 0x1000);
    LowModFour(q + 3);
  }

  /** Equal for the processor: same fault, or same address and same attributes apart from the type bit. */
  ghost predicate Equivalent(a: Walked, b: Walked) {
    match (a, b)
    case (Fault(k), Fault(l)) => k == l
    case (Leaf(_, d, pa), Leaf(_, e, pb)) =>
      pa == pb && High(d) == High(e) && Low(d) / 4 == Low(e) / 4 && NonGlobal(d) == NonGlobal(e)
    case _ => false
  }

  lemma SplitHere(m: Tables, level: map<nat, nat>, t: nat, i: nat, q: nat, va: nat)
    requires CanSplit(m, level, t, i, q) && Index(va, level[t]) == i
    ensures Equivalent(Translate(m, level[t], t, va), Translate(Split(m, level[t], t, i, q), level[t], t, va))
  {
    var l := level[t];
    var block := m[t][i];
    var m' := Split(m, l, t, i, q);
    var k := Index(va, l + 1);
    assert Translate(m, l, t, va) == Leaf(l, block, Output(block, l) + va % Size(l));
    TableEntryFacts(q);
    assert Entry(m', t, va, l) == q + 3;
    assert Entry(m', q, va, l + 1) == Piece(block, l, k);
    PieceFacts(block, l, k);
    OffsetSplits(va, l);
    assert Translate(m', l + 1, q, va)
      == Leaf(l + 1, Piece(block, l, k), Output(block, l) + k * Size(l + 1) + va % Size(l + 1));
  }

  lemma {:induction false} SplitFrom(m: Tables, level: map<nat, nat>, t: nat, i: nat, q: nat,
                                     l: nat, table: nat, va: nat)
    requires CanSplit(m, level, t, i, q) && l <= 3 && table in m && level[table] == l
    ensures Equivalent(Translate(m, l, table, va), Translate(Split(m, level[t], t, i, q), l, table, va))
    decreases 3 - l
  {
    var m' := Split(m, level[t], t, i, q);
    assert TableFits(m, level, table);
    var e := Entry(m, table, va, l);
    if table == t && Index(va, l) == i {
      SplitHere(m, level, t, i, q, va);
    } else {
      assert Entry(m', table, va, l) == e;
      assert EntryFits(m, level, l, e);
      if !IsNone(e) && e % 4 == 3 && l < 3 {
        SplitFrom(m, level, t, i, q, l + 1, NextTable(e), va);
      }
    }
  }

  /**
    Replacing any 1 GB or 2 MB block by a full next-level table of consecutive entries changes no
    translation: for every address, both walks fault at the same level or both give the same
    physical address and attributes, the non-global bit among them.
   */
  lemma SplittingPreservesTranslation(m: Tables, level: map<nat, nat>, t: nat, i: nat, q: nat, root: nat, va: nat)
    requires Root(m, level, root) && CanSplit(m, level, t, i, q)
    ensures Equivalent(WalkFrom(m, root, va), WalkFrom(Split(m, level[t], t, i, q), root, va))
  {
    SplitFrom(m, level, t, i, q, 0, root, va);
    UnrolledWalk(m, root, va);
    UnrolledWalk(Split(m, level[t], t, i, q), root, va);
  }

  /** The tables are well formed again, so blocks can be split one after another. */
  lemma SplittingKeepsWellFormed(m: Tables, level: map<nat, nat>, t: nat, i: nat, q: nat)
    requires CanSplit(m, level, t, i, q)
    ensures WellFormed(Split(m, level[t], t, i, q), level[q := level[t] + 1])
  {
    var l := level[t];
    var m' := Split(m, l, t, i, q);
    var level' := level[q := l + 1];
    TableEntryFacts(q);
    forall u | u in m' ensures TableFits(m', level', u) {
      if u == q {
        forall k | 0 <= k < 512 ensures EntryFits(m', level', l + 1, m'[q][k]) {
          PieceFacts(m[t][i], l, k);
        }
      } else {
        assert TableFits(m, level, u);
        forall k | 0 <= k < 512 ensures EntryFits(m', level', level'[u], m'[u][k]) {
          assert EntryFits(m, level, level[u], m[u][k]);
        }
      }
    }
  }
}
