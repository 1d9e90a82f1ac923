/**
  How boot memory enters the buddy allocator: a page range is cut into aligned power-of-two
  blocks, each as large as alignment, the order limit and the rest of the range allow.  Page
  frame numbers are unbounded here; the kernel's stay far below the width of its integers.
 */
module BuddyFeed {
  import opened Arithmetic

  const MAX_ORDER := 11

  /** The number of trailing zero bits. */
  function Ffs(x: nat): nat
    requires x > 0
  {
    if x % 2 == 1 then 0 else 1 + Ffs(x / 2)
  }

  /** x is a multiple of 2^k. */
  predicate Aligned(x: nat, k: nat) {
    k == 0 || (x % 2 == 0 && Aligned(x / 2, k - 1))
  }

  datatype Block = Block(start: nat, order: nat) {
    function End(): nat { start + Pow2(order) }
  }

  /** Lowers the order until the block fits. */
  function Lower(start: nat, end: nat, order: nat): (r: nat)
    requires start < end
    ensures r <= order && start + Pow2(r) <= end
  {
    if start + Pow2(order) > end && order > 0 then Lower(start, end, order - 1) else order
  }

  /** No order in between would have fitted. */
  lemma {:induction false} LowerIsLargest(start: nat, end: nat, order: nat, k: nat)
    requires start < end && Lower(start, end, order) < k <= order
    ensures start + Pow2(k) > end
  {
    if k < order {
      LowerIsLargest(start, end, order - 1, k);
    }
  }

  function FirstOrder(start: nat, end: nat): (r: nat)
    requires 0 < start < end
    ensures r < MAX_ORDER && start + Pow2(r) <= end
  {
    Lower(start, end, Min(MAX_ORDER - 1, Ffs(start)))
  }

  function Feed(start: nat, end: nat): seq<Block>
    requires start < end ==> start > 0
    decreases end - start
  {
    if start >= end then []
    else
      var b := Block(start, FirstOrder(start, end));
      [b] + Feed(b.End(), end)
  }

  /** The order of one block: the inner loop starts from what the alignment allows. */
  method BlockOrder(start: nat, end: nat) returns (order: nat)
    requires 0 < start < end
    ensures order == FirstOrder(start, end)
  {
    order := Min(MAX_ORDER - 1, Ffs(start));
    while start + Pow2(order) > end
      invariant Lower(start, end, order) == FirstOrder(start, end)
      decreases order
    {
      order := order - 1;
    }
  }

  method FreePagesMemory(start: nat, end: nat) returns (blocks: seq<Block>)
    requires start < end ==> start > 0
    ensures blocks == Feed(start, end)
  {
    blocks := [];
    var at := start;
    while at < end
      invariant start <= at
      invariant blocks + Feed(at, end) == Feed(start, end)
      decreases end - at
    {
      var order := BlockOrder(at, end);
      FeedStep(at, end, blocks);
      blocks := blocks + [Block(at, order)];
      at := at + Pow2(order);
    }
  }

  lemma FeedStep(at: nat, end: nat, blocks: seq<Block>)
    requires 0 < at < end
    ensures var b := Block(at, FirstOrder(at, end));
      blocks + Feed(at, end) == blocks + [b] + Feed(b.End(), end)
  {
    var b := Block(at, FirstOrder(at, end));
    assert blocks + ([b] + Feed(b.End(), end)) == blocks + [b] + Feed(b.End(), end);
  }

  // ----- Alignment

  lemma {:induction false} AlignedGivesQuotient(x: nat, k: nat) returns (q: nat)
    requires Aligned(x, k)
    ensures x == q * Pow2(k)
  {
    if k == 0 {
      q := x;
    } else {
      q := AlignedGivesQuotient(x / 2, k - 1);
      DoublePower(q, k);
    }
  }

  lemma {:induction false} MultipleIsAligned(x: nat, q: nat, k: nat)
    requires x == q * Pow2(k)
    ensures Aligned(x, k)
  {
    if k > 0 {
      DoublePower(q, k);
      MultipleIsAligned(x / 2, q, k - 1);
    }
  }

  lemma DoublePower(q: nat, k: nat)
    requires k > 0
    ensures q * Pow2(k) == 2 * (q * Pow2(k - 1))
  {
    DoubleProduct(Pow2(k - 1), q);
  }

  /** Alignment by halving is divisibility by the power of two. */
  lemma AlignedIsDivisible(x: nat, k: nat)
    ensures Aligned(x, k) <==> exists q: nat :: x == q * Pow2(k)
  {
    if Aligned(x, k) {
      var q := AlignedGivesQuotient(x, k);
    }
    if exists q: nat :: x == q * Pow2(k) {
      var q: nat :| x == q * Pow2(k);
      MultipleIsAligned(x, q, k);
    }
  }

  lemma {:induction false} FfsIsLargestAlignment(x: nat, k: nat)
    requires x > 0
    ensures Aligned(x, k) <==> k <= Ffs(x)
  {
    if k > 0 && x % 2 == 0 {
      FfsIsLargestAlignment(x / 2, k - 1);
    }
  }

  lemma {:induction false} AlignedDown(x: nat, k: nat, j: nat)
    requires Aligned(x, k) && j <= k
    ensures Aligned(x, j)
  {
    if j > 0 {
      AlignedDown(x / 2, k - 1, j - 1);
    }
  }

  lemma {:induction false} AlignedNext(x: nat, k: nat, j: nat)
    requires Aligned(x, j) && j <= k
    ensures Aligned(x + Pow2(k), j)
  {
    if j > 0 {
      AlignedNext(x / 2, k - 1, j - 1);
      assert (x + Pow2(k)) / 2 == x / 2 + Pow2(k - 1);
    }
  }

  /** Of two aligned points, the nearer is at least a block apart. */
  lemma {:induction false} AlignedApart(x: nat, y: nat, k: nat)
    requires Aligned(x, k) && Aligned(y, k) && x < y
    ensures x + Pow2(k) <= y
  {
    if k > 0 {
      AlignedApart(x / 2, y / 2, k - 1);
    }
  }

  /** Two aligned blocks are nested or apart. */
  lemma NestedOrApart(a: nat, k: nat, c: nat, l: nat)
    requires Aligned(a, k) && Aligned(c, l) && k <= l
    ensures a + Pow2(k) <= c || c + Pow2(l) <= a || (c <= a && a + Pow2(k) <= c + Pow2(l))
  {
    AlignedDown(c, l, k);
    AlignedNext(c, l, k);
    if a < c {
      AlignedApart(a, c, k);
    } else if a < c + Pow2(l) {
      AlignedApart(a, c + Pow2(l), k);
    }
  }

  // ----- The blocks

  ghost predicate Tiles(blocks: seq<Block>, start: nat, end: nat) {
    if blocks == [] then start == end
    else blocks[0].start == start && blocks[0].End() <= end && Tiles(blocks[1..], blocks[0].End(), end)
  }

  ghost predicate Legal(b: Block) {
    b.order < MAX_ORDER && Aligned(b.start, b.order)
  }

  ghost predicate Inside(b: Block, start: nat, end: nat) {
    start <= b.start && b.End() <= end
  }

  lemma FirstBlockLegal(start: nat, end: nat)
    requires 0 < start < end
    ensures Legal(Block(start, FirstOrder(start, end)))
  {
    FfsIsLargestAlignment(start, FirstOrder(start, end));
  }

  /** The emitted blocks are an exact partition of the range into legal blocks. */
  lemma {:induction false} FeedIsPartition(start: nat, end: nat)
    requires 0 < start <= end
    ensures Tiles(Feed(start, end), start, end)
    ensures forall i :: 0 <= i < |Feed(start, end)| ==> Legal(Feed(start, end)[i])
    decreases end - start
  {
    if start < end {
      var b := Block(start, FirstOrder(start, end));
      FirstBlockLegal(start, end);
      FeedIsPartition(b.End(), end);
    }
  }

  /** No legal block of the range sticks out of, or properly contains, the first block. */
  lemma FirstBlockMaximal(start: nat, end: nat, c: Block)
    requires 0 < start < end && Legal(c) && Inside(c, start, end)
    ensures var b := Block(start, FirstOrder(start, end)); c.End() <= b.End() || b.End() <= c.start
  {
    var b := Block(start, FirstOrder(start, end));
    FirstBlockLegal(start, end);
    if c.order <= b.order {
      NestedOrApart(c.start, c.order, b.start, b.order);
    } else {
      NestedOrApart(b.start, b.order, c.start, c.order);
      FfsIsLargestAlignment(start, c.order);
      if c.start == start {
        LowerIsLargest(start, end, Min(MAX_ORDER - 1, Ffs(start)), c.order);
      }
    }
  }

  /** Every legal block inside the range lies within a single emitted block. */
  lemma {:induction false} EveryBlockIsCovered(start: nat, end: nat, c: Block) returns (i: nat)
    requires 0 < start <= end && Legal(c) && Inside(c, start, end)
    ensures i < |Feed(start, end)| && Inside(c, Feed(start, end)[i].start, Feed(start, end)[i].End())
    decreases end - start
  {
    var b := Block(start, FirstOrder(start, end));
    FirstBlockMaximal(start, end, c);
    if c.End() <= b.End() {
      i := 0;
    } else {
      var j := EveryBlockIsCovered(b.End(), end, c);
      i := j + 1;
    }
  }

  /** Blocks i and j could be merged into one aligned block of the next order. */
  ghost predicate Mergeable(a: Block, b: Block) {
    a.order == b.order && a.order + 1 < MAX_ORDER && Aligned(a.start, a.order + 1) && b.start == a.End()
  }

  lemma {:induction false} TilesAreOrdered(blocks: seq<Block>, start: nat, end: nat, i: nat)
    requires Tiles(blocks, start, end) && i < |blocks|
    ensures Inside(blocks[i], start, end)
    ensures forall j :: i < j < |blocks| ==> blocks[i].End() <= blocks[j].start
    decreases |blocks|
  {
    if i > 0 {
      TilesAreOrdered(blocks[1..], blocks[0].End(), end, i - 1);
    } else {
      forall j | 0 < j < |blocks| ensures blocks[0].End() <= blocks[j].start {
        TilesAreOrdered(blocks[1..], blocks[0].End(), end, j - 1);
      }
    }
  }

  /** No two emitted blocks are buddies that could still be merged. */
  lemma NoMergeableBuddies(start: nat, end: nat, i: nat, j: nat)
    requires 0 < start <= end && i < |Feed(start, end)| && j < |Feed(start, end)|
    ensures !Mergeable(Feed(start, end)[i], Feed(start, end)[j])
  {
    var f := Feed(start, end);
    if Mergeable(f[i], f[j]) {
      FeedIsPartition(start, end);
      TilesAreOrdered(f, start, end, i);
      TilesAreOrdered(f, start, end, j);
      var both := Block(f[i].start, f[i].order + 1);
      var k := EveryBlockIsCovered(start, end, both);
      TilesAreOrdered(f, start, end, k);
      assert false;
    }
  }

  /** A tiling by legal blocks can be cut at the end of the first emitted block. */
  lemma {:induction false} CutTiling(p: seq<Block>, at: nat, start: nat, end: nat) returns (k: nat)
    requires 0 < start < end && Tiles(p, at, end)
    requires forall i :: 0 <= i < |p| ==> Legal(p[i])
    requires start <= at <= start + Pow2(FirstOrder(start, end))
    ensures k <= |p| && Tiles(p[k..], start + Pow2(FirstOrder(start, end)), end)
    ensures at < start + Pow2(FirstOrder(start, end)) ==> k >= 1
    decreases |p|
  {
    var mid := start + Pow2(FirstOrder(start, end));
    if at == mid {
      k := 0;
    } else {
      FirstBlockMaximal(start, end, p[0]);
      var j := CutTiling(p[1..], p[0].End(), start, end);
      k := j + 1;
      assert p[1..][j..] == p[k..];
    }
  }

  /** No partition of the range into legal blocks uses fewer blocks. */
  lemma {:induction false} FeedIsMinimal(start: nat, end: nat, p: seq<Block>)
    requires 0 < start <= end && Tiles(p, start, end)
    requires forall i :: 0 <= i < |p| ==> Legal(p[i])
    ensures |Feed(start, end)| <= |p|
    decreases end - start
  {
    if start < end {
      var k := CutTiling(p, start, start, end);
      FeedIsMinimal(start + Pow2(FirstOrder(start, end)), end, p[k..]);
    }
  }

  // ----- The only tiling without buddies

  ghost predicate AllLegal(p: seq<Block>) {
    forall i :: 0 <= i < |p| ==> Legal(p[i])
  }

  ghost predicate NoBuddies(p: seq<Block>) {
    forall i, j :: 0 <= i < |p| && 0 <= j < |p| ==> !Mergeable(p[i], p[j])
  }

  /** A tiling whose blocks do not straddle mid can be cut there. */
  lemma {:induction false} CutAt(p: seq<Block>, start: nat, mid: nat, end: nat) returns (k: nat)
    requires Tiles(p, start, end) && start <= mid <= end
    requires forall i :: 0 <= i < |p| ==> p[i].End() <= mid || mid <= p[i].start
    ensures k <= |p| && Tiles(p[..k], start, mid) && Tiles(p[k..], mid, end)
    decreases |p|
  {
    if start == mid {
      k := 0;
    } else {
      var j := CutAt(p[1..], p[0].End(), mid, end);
      k := j + 1;
      assert p[..k] == [p[0]] + p[1..][..j] && p[..k][1..] == p[1..][..j];
      assert p[1..][j..] == p[k..];
    }
  }

  /** A tiling by smaller blocks does not straddle the middle of an aligned block. */
  lemma SmallerStaysInHalf(a: nat, o: nat, c: Block)
    requires Aligned(a, o) && Legal(c) && c.order < o && Inside(c, a, a + Pow2(o))
    ensures c.End() <= a + Pow2(o - 1) || a + Pow2(o - 1) <= c.start
  {
    AlignedDown(a, o, o - 1);
    NestedOrApart(c.start, c.order, a, o - 1);
  }

  /** Tiles of the whole size: there is only the block itself. */
  lemma WholeBlock(p: seq<Block>, a: nat, o: nat, i: nat)
    requires Tiles(p, a, a + Pow2(o)) && i < |p| && p[i].order >= o
    ensures p == [Block(a, o)]
  {
    TilesAreOrdered(p, a, a + Pow2(o), i);
    if p[i].order > o {
      Pow2Grows(o, p[i].order);
      assert false;
    }
    TilesAreOrdered(p, a, a + Pow2(o), 0);
    if i == 0 {
      NothingAfterEnd(p[1..], a + Pow2(o));
      assert p == [p[0]] + p[1..];
    }
  }

  lemma NothingAfterEnd(p: seq<Block>, end: nat)
    requires Tiles(p, end, end)
    ensures p == []
  {
  }

  lemma CutInHalf(p: seq<Block>, a: nat, o: nat) returns (k: nat)
    requires Tiles(p, a, a + Pow2(o)) && AllLegal(p) && Aligned(a, o)
    requires forall i :: 0 <= i < |p| ==> p[i].order < o
    ensures o > 0 && k <= |p| && Aligned(a, o - 1) && Aligned(a + Pow2(o - 1), o - 1)
    ensures var mid := a + Pow2(o - 1); Tiles(p[..k], a, mid) && Tiles(p[k..], mid, mid + Pow2(o - 1))
    ensures AllLegal(p[..k]) && AllLegal(p[k..])
  {
    assert p != [] && p[0].order < o;
    var mid := a + Pow2(o - 1);
    forall i | 0 <= i < |p| ensures p[i].End() <= mid || mid <= p[i].start {
      TilesAreOrdered(p, a, a + Pow2(o), i);
      SmallerStaysInHalf(a, o, p[i]);
    }
    k := CutAt(p, a, mid, a + Pow2(o));
    AlignedDown(a, o, o - 1);
    AlignedNext(a, o - 1, o - 1);
  }

  lemma TwoWholeHalves(p: seq<Block>, k: nat, a: nat, o: nat)
    requires 0 < o < MAX_ORDER && Aligned(a, o) && k <= |p|
    requires p[..k] == [Block(a, o - 1)] && p[k..] == [Block(a + Pow2(o - 1), o - 1)]
    ensures k < |p| && Mergeable(p[0], p[k])
  {
    assert p[0] == p[..k][0] && p[k] == p[k..][0];
  }

  ghost predicate AllBelow(p: seq<Block>, o: int) {
    forall i :: 0 <= i < |p| ==> p[i].order < o
  }

  lemma WholeUnlessBelow(p: seq<Block>, a: nat, o: nat)
    requires Tiles(p, a, a + Pow2(o)) && !AllBelow(p, o)
    ensures p == [Block(a, o)]
  {
    var i :| 0 <= i < |p| && p[i].order >= o;
    WholeBlock(p, a, o, i);
  }

  /** Smaller blocks that tile an aligned block contain a mergeable pair: two whole halves, or a pair in one half. */
  lemma {:induction false} SmallerHaveBuddies(p: seq<Block>, a: nat, o: nat) returns (i: nat, j: nat)
    requires Tiles(p, a, a + Pow2(o)) && AllLegal(p) && Aligned(a, o) && o < MAX_ORDER && AllBelow(p, o)
    ensures i < |p| && j < |p| && Mergeable(p[i], p[j])
    decreases o
  {
    var k := CutInHalf(p, a, o);
    var mid := a + Pow2(o - 1);
    if AllBelow(p[..k], o - 1) {
      i, j := SmallerHaveBuddies(p[..k], a, o - 1);
    } else if AllBelow(p[k..], o - 1) {
      i, j := SmallerHaveBuddies(p[k..], mid, o - 1);
      i, j := i + k, j + k;
    } else {
      WholeUnlessBelow(p[..k], a, o - 1);
      WholeUnlessBelow(p[k..], mid, o - 1);
      TwoWholeHalves(p, k, a, o);
      i, j := 0, k;
    }
  }

  /** Without mergeable buddies an aligned block can only be tiled by itself. */
  lemma AlignedBlockIsWhole(p: seq<Block>, a: nat, o: nat)
    requires Tiles(p, a, a + Pow2(o)) && AllLegal(p) && Aligned(a, o) && o < MAX_ORDER
    ensures p == [Block(a, o)] || !NoBuddies(p)
  {
    if AllBelow(p, o) {
      var i, j := SmallerHaveBuddies(p, a, o);
    } else {
      WholeUnlessBelow(p, a, o);
    }
  }

  lemma FirstPartCovers(p: seq<Block>, start: nat, end: nat)
    requires 0 < start < end && Tiles(p, start, end) && AllLegal(p)
    ensures var mid := start + Pow2(FirstOrder(start, end));
      forall i :: 0 <= i < |p| ==> p[i].End() <= mid || mid <= p[i].start
  {
    forall i | 0 <= i < |p|
      ensures p[i].End() <= start + Pow2(FirstOrder(start, end)) || start + Pow2(FirstOrder(start, end)) <= p[i].start
    {
      TilesAreOrdered(p, start, end, i);
      FirstBlockMaximal(start, end, p[i]);
    }
  }

  lemma {:induction false} NoBuddiesIsFeed(start: nat, end: nat, p: seq<Block>)
    requires 0 < start <= end && Tiles(p, start, end) && AllLegal(p) && NoBuddies(p)
    ensures p == Feed(start, end)
    decreases end - start
  {
    if start == end {
      NothingAfterEnd(p, end);
    } else {
      var o := FirstOrder(start, end);
      var mid := start + Pow2(o);
      FirstBlockLegal(start, end);
      FirstPartCovers(p, start, end);
      var k := CutAt(p, start, mid, end);
      AlignedBlockIsWhole(p[..k], start, o);
      assert NoBuddies(p[..k]) && NoBuddies(p[k..]);
      NoBuddiesIsFeed(mid, end, p[k..]);
      assert p == p[..k] + p[k..];
    }
  }

  /** Of all partitions of a range into legal blocks, the emitted one alone has no buddies left to merge. */
  lemma FeedIsTheOnlyOne(start: nat, end: nat, p: seq<Block>)
    requires 0 < start <= end
    ensures Tiles(p, start, end) && AllLegal(p) && NoBuddies(p) <==> p == Feed(start, end)
  {
    if p == Feed(start, end) {
      FeedIsPartition(start, end);
      forall i, j | 0 <= i < |p| && 0 <= j < |p| ensures !Mergeable(p[i], p[j]) {
        NoMergeableBuddies(start, end, i, j);
      }
    }
    if Tiles(p, start, end) && AllLegal(p) && NoBuddies(p) {
      NoBuddiesIsFeed(start, end, p);
    }
  }

  // ----- Counting the free lists

  /** The number of blocks on each order's free list. */
  function NrFree(blocks: seq<Block>): (r: seq<nat>)
    requires forall i :: 0 <= i < |blocks| ==> blocks[i].order < MAX_ORDER
    ensures |r| == MAX_ORDER
  {
    if blocks == [] then seq(MAX_ORDER, _ => 0)
    else
      var rest := NrFree(blocks[1..]);
      rest[blocks[0].order := rest[blocks[0].order] + 1]
  }

  /** The blocks of order k that the lists from order `from` on can be split into. */
  function Splittable(nr: seq<nat>, k: nat, from: nat): nat
    requires k <= from <= |nr|
    decreases |nr| - from
  {
    if from == |nr| then 0 else nr[from] * Pow2(from - k) + Splittable(nr, k, from + 1)
  }

  /** One line per order: what that order could be given if every higher order were split. */
  method ProbeFragmentation(nr: seq<nat>) returns (suitable: seq<nat>)
    requires |nr| == MAX_ORDER
    ensures |suitable| == MAX_ORDER
    ensures forall k :: 0 <= k < MAX_ORDER ==> suitable[k] == Splittable(nr, k, k)
  {
    suitable := [];
    for order := 0 to MAX_ORDER
      invariant |suitable| == order
      invariant forall k :: 0 <= k < order ==> suitable[k] == Splittable(nr, k, k)
    {
      var sum := 0;
      for o := order to MAX_ORDER
        invariant sum + Splittable(nr, order, o) == Splittable(nr, order, order)
      {
        sum := sum + nr[o] * Pow2(o - order);
      }
      suitable := suitable + [sum];
    }
  }

  ghost function Pieces(blocks: seq<Block>, k: nat): nat {
    if blocks == [] then 0
    else (if blocks[0].order >= k then Pow2(blocks[0].order - k) else 0) + Pieces(blocks[1..], k)
  }

  lemma {:induction false} OneMoreBlock(nr: seq<nat>, k: nat, from: nat, o: nat)
    requires k <= from <= |nr| && o < |nr|
    ensures Splittable(nr[o := nr[o] + 1], k, from) == Splittable(nr, k, from) + (if o >= from then Pow2(o - k) else 0)
    decreases |nr| - from
  {
    if from < |nr| {
      OneMoreBlock(nr, k, from + 1, o);
      if o == from {
        assert (nr[o] + 1) * Pow2(from - k) == nr[o] * Pow2(from - k) + Pow2(from - k);
      }
    }
  }

  lemma {:induction false} NothingToSplit(k: nat, from: nat)
    requires k <= from <= MAX_ORDER
    ensures Splittable(seq(MAX_ORDER, _ => 0), k, from) == 0
    decreases MAX_ORDER - from
  {
    if from < MAX_ORDER {
      NothingToSplit(k, from + 1);
    }
  }

  lemma {:induction false} SplittableIsPieces(blocks: seq<Block>, k: nat)
    requires k <= MAX_ORDER && forall i :: 0 <= i < |blocks| ==> blocks[i].order < MAX_ORDER
    ensures Splittable(NrFree(blocks), k, k) == Pieces(blocks, k)
  {
    if blocks == [] {
      NothingToSplit(k, k);
    } else {
      SplittableIsPieces(blocks[1..], k);
      OneMoreBlock(NrFree(blocks[1..]), k, k, blocks[0].order);
    }
  }

  /** The starts of the aligned order-k blocks lying wholly inside a range. */
  ghost function AlignedBlocks(start: nat, end: nat, k: nat): set<nat> {
    set b: nat | start <= b < end && b + Pow2(k) <= end && Aligned(b, k)
  }

  lemma SplitRange(start: nat, mid: nat, end: nat, k: nat)
    requires start <= mid <= end && Aligned(mid, k)
    ensures |AlignedBlocks(start, end, k)| == |AlignedBlocks(start, mid, k)| + |AlignedBlocks(mid, end, k)|
  {
    var left, right := AlignedBlocks(start, mid, k), AlignedBlocks(mid, end, k);
    forall b | b in AlignedBlocks(start, end, k) ensures b in left + right {
      if b < mid {
        AlignedApart(b, mid, k);
      }
    }
    assert AlignedBlocks(start, end, k) == left + right;
    assert left !! right;
  }

  lemma {:induction false} BlockHoldsPowerOfTwo(start: nat, o: nat, k: nat)
    requires k <= o && Aligned(start, o)
    ensures |AlignedBlocks(start, start + Pow2(o), k)| == Pow2(o - k)
    decreases o
  {
    if k == o {
      assert AlignedBlocks(start, start + Pow2(o), k) == {start};
    } else {
      AlignedDown(start, o, o - 1);
      AlignedNext(start, o - 1, o - 1);
      BlockHoldsPowerOfTwo(start, o - 1, k);
      BlockHoldsPowerOfTwo(start + Pow2(o - 1), o - 1, k);
      AlignedDown(start + Pow2(o - 1), o - 1, k);
      SplitRange(start, start + Pow2(o - 1), start + Pow2(o), k);
    }
  }

  /** A first block of at least the order is made of aligned blocks, and the rest follows it. */
  lemma LargeBlockFirst(b: Block, end: nat, k: nat)
    requires Legal(b) && b.End() <= end && k <= b.order
    ensures |AlignedBlocks(b.start, end, k)| == Pow2(b.order - k) + |AlignedBlocks(b.End(), end, k)|
  {
    BlockHoldsPowerOfTwo(b.start, b.order, k);
    AlignedDown(b.start, b.order, k);
    AlignedNext(b.start, b.order, k);
    SplitRange(b.start, b.End(), end, k);
  }

  /** A first block below the order adds nothing. */
  lemma SmallBlockFirst(start: nat, end: nat, k: nat)
    requires 0 < start < end && FirstOrder(start, end) < k < MAX_ORDER
    ensures AlignedBlocks(start, end, k) == AlignedBlocks(start + Pow2(FirstOrder(start, end)), end, k)
  {
    var mid := start + Pow2(FirstOrder(start, end));
    forall x | x in AlignedBlocks(start, end, k) ensures x >= mid {
      FirstBlockMaximal(start, end, Block(x, k));
      Pow2Grows(FirstOrder(start, end), k);
    }
  }

  lemma CountStep(start: nat, end: nat, k: nat)
    requires 0 < start < end && k < MAX_ORDER
    ensures var b := Block(start, FirstOrder(start, end));
      |AlignedBlocks(start, end, k)|
      == (if b.order >= k then Pow2(b.order - k) else 0) + |AlignedBlocks(b.End(), end, k)|
  {
    var b := Block(start, FirstOrder(start, end));
    if b.order >= k {
      FirstBlockLegal(start, end);
      LargeBlockFirst(b, end, k);
    } else {
      SmallBlockFirst(start, end, k);
    }
  }

  lemma {:induction false} PiecesAreAlignedBlocks(start: nat, end: nat, k: nat)
    requires 0 < start <= end && k < MAX_ORDER
    ensures Pieces(Feed(start, end), k) == |AlignedBlocks(start, end, k)|
    decreases end - start
  {
    if start == end {
      assert AlignedBlocks(start, end, k) == {};
    } else {
      PiecesOfFeed(start, end, k);
      CountStep(start, end, k);
      PiecesAreAlignedBlocks(Block(start, FirstOrder(start, end)).End(), end, k);
    }
  }

  lemma PiecesOfFeed(start: nat, end: nat, k: nat)
    requires 0 < start < end
    ensures var b := Block(start, FirstOrder(start, end));
      Pieces(Feed(start, end), k) == (if b.order >= k then Pow2(b.order - k) else 0) + Pieces(Feed(b.End(), end), k)
  {
    var b := Block(start, FirstOrder(start, end));
    PiecesOfCons(b, Feed(b.End(), end), k);
  }

  lemma PiecesOfCons(b: Block, rest: seq<Block>, k: nat)
    ensures Pieces([b] + rest, k) == (if b.order >= k then Pow2(b.order - k) else 0) + Pieces(rest, k)
  {
    assert ([b] + rest)[1..] == rest;
  }

  lemma {:induction false} Pow2Grows(j: nat, k: nat)
    requires j < k
    ensures Pow2(j) < Pow2(k)
  {
    if j + 1 < k {
      Pow2Grows(j, k - 1);
    }
  }

  /**
    With the free lists holding exactly the emitted blocks, the probe's figure for order k is the
    number of aligned order-k blocks that lie wholly inside the range.
   */
  lemma SuitableCountsAlignedBlocks(start: nat, end: nat, k: nat)
    requires 0 < start <= end && k < MAX_ORDER
    ensures forall i :: 0 <= i < |Feed(start, end)| ==> Feed(start, end)[i].order < MAX_ORDER
    ensures Splittable(NrFree(Feed(start, end)), k, k) == |AlignedBlocks(start, end, k)|
  {
    FeedIsPartition(start, end);
    assert forall i :: 0 <= i < |Feed(start, end)| ==> Legal(Feed(start, end)[i]);
    SplittableIsPieces(Feed(start, end), k);
    PiecesAreAlignedBlocks(start, end, k);
  }

  lemma AlignedPages(start: nat, end: nat, b: nat)
    ensures b in AlignedBlocks(start, end, 0) <==> start <= b < end
  {
    assert Pow2(0) == 1;
    assert Aligned(b, 0);
  }

  /** At order 0 that is every page: nothing is lost and nothing is counted twice. */
  lemma {:induction false} AllPagesCounted(start: nat, end: nat)
    requires start <= end
    ensures |AlignedBlocks(start, end, 0)| == end - start
    decreases end - start
  {
    var pages := AlignedBlocks(start, end, 0);
    if start == end {
      assert pages == {};
    } else {
      AllPagesCounted(start + 1, end);
      var others := AlignedBlocks(start + 1, end, 0);
      forall b: nat ensures b in pages <==> b in others + {start} {
        AlignedPages(start, end, b);
        AlignedPages(start + 1, end, b);
      }
      assert pages == others + {start};
      assert start !in others;
    }
  }

  lemma EveryPageIsFedOnce(start: nat, end: nat)
    requires 0 < start <= end
    ensures forall i :: 0 <= i < |Feed(start, end)| ==> Feed(start, end)[i].order < MAX_ORDER
    ensures Splittable(NrFree(Feed(start, end)), 0, 0) == end - start
  {
    SuitableCountsAlignedBlocks(start, end, 0);
    AllPagesCounted(start, end);
  }

  // ----- The per-zone total

  /** Pages on the lists of one migrate type, from order `from` on. */
  function ListPages(lengths: seq<nat>, from: nat): nat
    requires from <= |lengths|
  {
    Splittable(lengths, 0, from)
  }

  function AllLists(lists: seq<seq<nat>>, upto: nat): nat
    requires upto <= |lists| && forall i :: 0 <= i < |lists| ==> |lists[i]| == MAX_ORDER
  {
    if upto == 0 then 0 else AllLists(lists, upto - 1) + ListPages(lists[upto - 1], 0)
  }

  /** The zone's free count per order is spread over the lists of the migrate types. */
  ghost predicate ListsFit(nr: seq<nat>, lists: seq<seq<nat>>) {
    && |nr| == MAX_ORDER
    && (forall i :: 0 <= i < |lists| ==> |lists[i]| == MAX_ORDER)
    && (forall o :: 0 <= o < MAX_ORDER ==> nr[o] == Column(lists, o, |lists|))
  }

  function Column(lists: seq<seq<nat>>, o: nat, upto: nat): nat
    requires upto <= |lists| && o < MAX_ORDER && forall i :: 0 <= i < |lists| ==> |lists[i]| == MAX_ORDER
  {
    if upto == 0 then 0 else Column(lists, o, upto - 1) + lists[upto - 1][o]
  }

  method FreeAreaTotal(nr: seq<nat>, lists: seq<seq<nat>>) returns (total: nat)
    requires ListsFit(nr, lists)
    ensures total == Splittable(nr, 0, 0)
  {
    total := 0;
    for mt := 0 to |lists|
      invariant total == AllLists(lists, mt)
    {
      var any := false;
      for order := 0 to MAX_ORDER
        invariant any <==> exists o :: 0 <= o < order && nr[o] > 0
      {
        if nr[order] > 0 {
          any := true;
          break;
        }
      }
      if !any && mt > 0 {
        EmptyZone(nr, lists, mt);
        continue;
      }
      for order := 0 to MAX_ORDER
        invariant total + ListPages(lists[mt], order) == AllLists(lists, mt) + ListPages(lists[mt], 0)
      {
        total := total + lists[mt][order] * Pow2(order);
      }
    }
    RowsAndColumns(nr, lists, 0);
  }

  lemma {:induction false} ColumnBounds(lists: seq<seq<nat>>, o: nat, mt: nat, upto: nat)
    requires mt < upto <= |lists| && o < MAX_ORDER && forall i :: 0 <= i < |lists| ==> |lists[i]| == MAX_ORDER
    ensures lists[mt][o] <= Column(lists, o, upto)
  {
    if mt < upto - 1 {
      ColumnBounds(lists, o, mt, upto - 1);
    }
  }

  lemma EmptyZone(nr: seq<nat>, lists: seq<seq<nat>>, mt: nat)
    requires ListsFit(nr, lists) && mt < |lists| && forall o :: 0 <= o < MAX_ORDER ==> nr[o] == 0
    ensures ListPages(lists[mt], 0) == 0
  {
    forall o | 0 <= o < MAX_ORDER ensures lists[mt][o] == 0 {
      ColumnBounds(lists, o, mt, |lists|);
    }
    assert lists[mt] == seq(MAX_ORDER, _ => 0);
    NothingToSplit(0, 0);
  }

  function RowTails(lists: seq<seq<nat>>, from: nat, upto: nat): nat
    requires upto <= |lists| && from <= MAX_ORDER && forall i :: 0 <= i < |lists| ==> |lists[i]| == MAX_ORDER
  {
    if upto == 0 then 0 else RowTails(lists, from, upto - 1) + ListPages(lists[upto - 1], from)
  }

  lemma {:induction false} PeelColumn(lists: seq<seq<nat>>, from: nat, upto: nat)
    requires upto <= |lists| && from < MAX_ORDER && forall i :: 0 <= i < |lists| ==> |lists[i]| == MAX_ORDER
    ensures RowTails(lists, from, upto) == Column(lists, from, upto) * Pow2(from) + RowTails(lists, from + 1, upto)
  {
    if upto > 0 {
      PeelColumn(lists, from, upto - 1);
      AddProducts(Column(lists, from, upto - 1), lists[upto - 1][from], Pow2(from));
    }
  }

  lemma AddProducts(c: nat, x: nat, w: nat)
    ensures (c + x) * w == c * w + x * w
  {
  }

  lemma {:induction false} LastColumn(lists: seq<seq<nat>>, upto: nat)
    requires upto <= |lists| && forall i :: 0 <= i < |lists| ==> |lists[i]| == MAX_ORDER
    ensures RowTails(lists, MAX_ORDER, upto) == 0 && RowTails(lists, 0, upto) == AllLists(lists, upto)
  {
    if upto > 0 {
      LastColumn(lists, upto - 1);
    }
  }

  lemma {:induction false} RowsAndColumns(nr: seq<nat>, lists: seq<seq<nat>>, from: nat)
    requires ListsFit(nr, lists) && from <= MAX_ORDER
    ensures RowTails(lists, from, |lists|) == Splittable(nr, 0, from)
    ensures AllLists(lists, |lists|) == RowTails(lists, 0, |lists|)
    decreases MAX_ORDER - from
  {
    LastColumn(lists, |lists|);
    if from < MAX_ORDER {
      RowsAndColumns(nr, lists, from + 1);
      PeelColumn(lists, from, |lists|);
    }
  }
}
