/** Watermarks, low-memory reserves and watermark boosting of the zones of one memory node. */
module ZoneMarks {
  import opened Arithmetic

  const PAGEBLOCK := 512

  datatype Marks = Marks(min: nat, low: nat, high: nat)

  /** x * n / d without forming the whole product. */
  function MultFrac(x: nat, n: nat, d: nat): nat
    requires d > 0
  {
    Product(x / d, n) + Product(x % d, n) / d
  }

  /** A product of naturals is a natural. */
  function Product(a: nat, b: nat): nat {
    a * b
  }

  lemma MultFracIsExact(x: nat, n: nat, d: nat)
    requires d > 0
    ensures MultFrac(x, n, d) == x * n / d
  {
    var q, r := x / d, x % d;
    var s, t := r * n / d, r * n % d;
    RegroupProduct(q, d, r, n, s, t);
    DivBy(x * n, q * n + s, t, d);
  }

  lemma RegroupProduct(q: nat, d: nat, r: nat, n: nat, s: nat, t: nat)
    requires r * n == s * d + t
    ensures (q * d + r) * n == (q * n + s) * d + t
  {
    assert (q * d + r) * n == q * d * n + r * n;
    assert q * d * n == q * n * d;
    assert (q * n + s) * d == q * n * d + s * d;
  }

  function Sum(s: seq<nat>): nat {
    if s == [] then 0 else Sum(s[..|s| - 1]) + s[|s| - 1]
  }

  /** A zone's part of the minimum, and the distance between its marks. */
  function Share(pagesMin: nat, managed: nat, lowmem: nat): nat
    requires lowmem > 0
  {
    pagesMin * managed / lowmem
  }

  function Gap(share: nat, managed: nat, scale: nat): nat {
    Max(share / 4, MultFrac(managed, scale, 10000))
  }

  function MarksOf(pagesMin: nat, managed: nat, lowmem: nat, scale: nat, boost: nat): Marks
    requires lowmem > 0
  {
    var share := Share(pagesMin, managed, lowmem);
    var step := boost + Gap(share, managed, scale);
    Marks(share, share + step, share + step + step)
  }

  /** The C type of a ratio. */
  type Int32 = x: int | -0x8000_0000 <= x < 0x8000_0000

  /** Dividing an unsigned 64-bit number by an int converts the int first. */
  function Divisor(ratio: Int32): nat {
    if ratio < 0 then ratio + 0x1_0000_0000_0000_0000 else ratio
  }

  /** Every zone that has another one above it has something to divide by. */
  predicate RatiosUsable(n: nat, ratio: seq<Int32>)
    requires |ratio| == n
  {
    forall i :: 0 <= i && i + 1 < n ==> ratio[i] != 0
  }

  /** The first zone from `from` on at which the setup has nothing more to do, or nothing to divide by. */
  function StopsAt(ratio: seq<Int32>, from: nat): (i: nat)
    requires from < |ratio|
    ensures from <= i < |ratio|
    decreases |ratio| - from
  {
    if from + 1 < |ratio| && ratio[from] != 0 then StopsAt(ratio, from + 1) else from
  }

  lemma {:induction false} StopFacts(ratio: seq<Int32>, from: nat)
    requires from < |ratio|
    ensures var stop := StopsAt(ratio, from);
      && (forall i :: from <= i < stop ==> ratio[i] != 0)
      && (stop + 1 < |ratio| ==> ratio[stop] == 0)
    decreases |ratio| - from
  {
    if from + 1 < |ratio| && ratio[from] != 0 {
      StopFacts(ratio, from + 1);
    }
  }

  /** Pages of the zones after i, up to and including j. */
  function Above(managed: seq<nat>, i: nat, j: nat): nat
    requires j < |managed|
  {
    if j <= i then 0 else Above(managed, i, j - 1) + managed[j]
  }

  /** These are all the pages of zones i + 1 to j. */
  lemma {:induction false} AboveIsSum(managed: seq<nat>, i: nat, j: nat)
    requires i <= j < |managed|
    ensures Above(managed, i, j) == Sum(managed[i + 1..j + 1])
  {
    if i < j {
      AboveIsSum(managed, i, j - 1);
      assert managed[i + 1..j + 1][..j - i - 1] == managed[i + 1..j];
    }
  }

  /** What zone i keeps back against zone j. */
  function Kept(managed: seq<nat>, i: nat, divisor: nat, j: nat): nat
    requires divisor > 0 && j < |managed|
  {
    Above(managed, i, j) / divisor
  }

  /** A zone's reserves against every higher zone; the others stay as they were. */
  function ReserveRow(managed: seq<nat>, i: nat, divisor: nat, was: seq<nat>): (row: seq<nat>)
    requires divisor > 0 && |was| == |managed|
    ensures |row| == |managed|
  {
    seq(|managed|, j requires 0 <= j < |managed| => if j > i then Kept(managed, i, divisor, j) else was[j])
  }

  ghost predicate Square(rows: seq<seq<nat>>, n: nat) {
    |rows| == n && forall i :: 0 <= i < n ==> |rows[i]| == n
  }

  /** All reserves after the setup: the rows of the zones before the one at which it stops. */
  function Reserves(managed: seq<nat>, ratio: seq<Int32>, was: seq<seq<nat>>): (rows: seq<seq<nat>>)
    requires Square(was, |managed|) && |ratio| == |managed|
    ensures Square(rows, |managed|)
  {
    seq(|managed|, i requires 0 <= i < |managed| =>
      StopFacts(ratio, 0);
      if i < StopsAt(ratio, 0) then ReserveRow(managed, i, Divisor(ratio[i]), was[i]) else was[i])
  }

  /** The row when the inner loop has dealt with the zones below j. */
  ghost function RowUpTo(managed: seq<nat>, i: nat, divisor: nat, was: seq<nat>, j: nat): seq<nat>
    requires divisor > 0 && |was| == |managed|
  {
    seq(|managed|, k requires 0 <= k < |managed| => if i < k < j then Kept(managed, i, divisor, k) else was[k])
  }

  lemma RowStep(managed: seq<nat>, i: nat, divisor: nat, was: seq<nat>, j: nat)
    requires divisor > 0 && |was| == |managed| && i < j < |managed|
    ensures RowUpTo(managed, i, divisor, was, j + 1)
      == RowUpTo(managed, i, divisor, was, j)[j := Kept(managed, i, divisor, j)]
  {
  }

  class Node {
    const managed: seq<nat>
    var marks: seq<Marks>
    var boost: seq<nat>
    var reserve: seq<seq<nat>>

    ghost predicate Valid()
      reads this
    {
      && |marks| == |boost| == |managed|
      && Square(reserve, |managed|)
    }

    constructor (managed: seq<nat>)
      ensures Valid() && this.managed == managed
      ensures forall i :: 0 <= i < |managed| ==> boost[i] == 0 && reserve[i] == seq(|managed|, _ => 0)
    {
      this.managed := managed;
      marks := seq(|managed|, _ => Marks(0, 0, 0));
      boost := seq(|managed|, _ => 0);
      reserve := seq(|managed|, _ => seq(|managed|, _ => 0));
    }

    /** Splits the minimum over the zones and places the other two marks above it. */
    method SetupWmarks(minFreeKbytes: nat, scale: nat)
      requires Valid() && Sum(managed) > 0
      modifies this`marks
      ensures Valid()
      ensures forall i :: 0 <= i < |managed| ==>
        marks[i] == MarksOf(minFreeKbytes / 4, managed[i], Sum(managed), scale, boost[i])
      ensures forall i :: 0 <= i < |managed| ==>
        && marks[i].low - marks[i].min == marks[i].high - marks[i].low
        && (marks[i].low - marks[i].min == Max(marks[i].min / 4, managed[i] * scale / 10000) <==> boost[i] == 0)
      ensures forall i :: 0 <= i < |managed| ==>
        var part := minFreeKbytes / 4 * managed[i];
        marks[i].min * Sum(managed) <= part < (marks[i].min + 1) * Sum(managed)
      ensures minFreeKbytes / 4 - |managed| < Sum(Mins(marks)) <= minFreeKbytes / 4
    {
      var pagesMin := minFreeKbytes / 4;
      var lowmem := Sum(managed);
      for i := 0 to |managed|
        invariant Valid()
        invariant forall k :: 0 <= k < i ==> marks[k] == MarksOf(pagesMin, managed[k], lowmem, scale, boost[k])
      {
        var tmp := Share(pagesMin, managed[i], lowmem);
        var min := tmp;
        tmp := Max(tmp / 4, MultFrac(managed[i], scale, 10000));
        var low := min + boost[i] + tmp;
        var high := low + boost[i] + tmp;
        marks := marks[i := Marks(min, low, high)];
      }
      forall i | 0 <= i < |managed|
        ensures marks[i].low - marks[i].min == marks[i].high - marks[i].low
        ensures marks[i].low - marks[i].min == Max(marks[i].min / 4, managed[i] * scale / 10000) <==> boost[i] == 0
      {
        MarksAreEquallySpaced(pagesMin, managed[i], lowmem, scale, boost[i]);
      }
      forall i | 0 <= i < |managed|
        ensures marks[i].min * lowmem <= pagesMin * managed[i] < (marks[i].min + 1) * lowmem
      {
        ShareOfMinimum(pagesMin, managed[i], lowmem);
      }
      assert Mins(marks) == Minimums(pagesMin, managed, lowmem);
      MinimumsSumToPagesMin(pagesMin, managed);
    }

    /**
      What each zone keeps back from requests that could have been served by a higher zone; false
      when a zone has a ratio of 0, and with it a division that C leaves undefined.
     */
    method SetupLowmemReserve(ratio: seq<Int32>) returns (ok: bool)
      requires Valid() && |ratio| == |managed|
      modifies this`reserve
      ensures Valid()
      ensures ok <==> RatiosUsable(|managed|, ratio)
      ensures reserve == Reserves(managed, ratio, old(reserve))
      ensures ok ==> forall i, j :: 0 <= i && i + 1 < |managed| && i < j < |managed| ==>
        var r: int := ratio[i];
        reserve[i][j] == Sum(managed[i + 1..j + 1]) / (if r > 0 then r else r + 0x1_0000_0000_0000_0000)
      ensures ok ==> forall i, j :: 0 <= j <= i < |managed| ==> reserve[i][j] == old(reserve)[i][j]
    {
      if managed == [] {
        return true;
      }
      StopFacts(ratio, 0);
      ghost var stop := StopsAt(ratio, 0);
      var i := 0;
      while i + 1 < |managed|
        invariant i <= stop && Valid()
        invariant StopsAt(ratio, i) == stop
        invariant forall p :: 0 <= p < i ==>
          ratio[p] != 0 && reserve[p] == ReserveRow(managed, p, Divisor(ratio[p]), old(reserve[p]))
        invariant forall p :: i <= p < |managed| ==> reserve[p] == old(reserve[p])
      {
        if ratio[i] == 0 {
          return false;
        }
        SetupZoneReserve(i, Divisor(ratio[i]));
        i := i + 1;
      }
      forall i, j | 0 <= i && i + 1 < |managed| && i < j < |managed|
        ensures reserve[i][j] == Sum(managed[i + 1..j + 1]) / Divisor(ratio[i])
      {
        AboveIsSum(managed, i, j);
      }
      return true;
    }

    /** The inner loop, for one zone. */
    method SetupZoneReserve(i: nat, divisor: nat)
      requires Valid() && i < |managed| && divisor > 0
      modifies this`reserve
      ensures Valid()
      ensures reserve == old(reserve)[i := ReserveRow(managed, i, divisor, old(reserve[i]))]
    {
      var pages := 0;
      var row := reserve[i];
      ghost var was := row;
      assert row == RowUpTo(managed, i, divisor, was, i + 1);
      for j := i + 1 to |managed|
        invariant reserve == old(reserve) && pages == Above(managed, i, j - 1)
        invariant row == RowUpTo(managed, i, divisor, was, j)
      {
        pages := pages + managed[j];
        RowStep(managed, i, divisor, was, j);
        row := row[j := pages / divisor];
      }
      assert row == ReserveRow(managed, i, divisor, was);
      reserve := reserve[i := row];
    }

    /** The amount test of `zone_watermark_ok`, in the code's own order of operations. */
    method ZoneWatermarkOk(zone: nat, order: nat, mark: nat, highest: nat, free: int) returns (ok: bool)
      requires Valid() && zone < |managed| && highest < |managed|
      ensures ok <==> Admits(free, order, mark, reserve[zone][highest])
      ensures ok <==> free - Pow2(order) - reserve[zone][highest] >= mark
    {
      var pages := free - (Pow2(order) - 1);
      if pages <= mark + reserve[zone][highest] {
        return false;
      }
      return true;
    }

    /** One fallback: the boost grows by a pageblock, up to a cap. */
    method BoostWatermark(zone: nat, factor: nat)
      requires Valid() && zone < |managed|
      modifies this`boost
      ensures Valid()
      ensures boost == old(boost)[zone := Boosted(old(boost)[zone], marks[zone].high, managed[zone], factor)]
      ensures boost[zone] ==
        if factor == 0 || managed[zone] < 2048 then old(boost)[zone]
        else Min(old(boost)[zone] + 512, Max(512, marks[zone].high * factor / 10000))
    {
      MultFracIsExact(marks[zone].high, factor, 10000);
      if factor == 0 {
        return;
      }
      if PAGEBLOCK * 4 > managed[zone] {
        return;
      }
      var maxBoost := MultFrac(marks[zone].high, factor, 10000);
      maxBoost := Max(PAGEBLOCK, maxBoost);
      boost := boost[zone := Min(boost[zone] + PAGEBLOCK, maxBoost)];
    }
  }

  // ----- Watermarks

  function Minimums(pagesMin: nat, managed: seq<nat>, lowmem: nat): seq<nat>
    requires lowmem > 0
  {
    seq(|managed|, i requires 0 <= i < |managed| => Share(pagesMin, managed[i], lowmem))
  }

  /** The minimums that the marks hold. */
  function Mins(marks: seq<Marks>): seq<nat> {
    seq(|marks|, i requires 0 <= i < |marks| => marks[i].min)
  }

  lemma ShareOfMinimum(pagesMin: nat, managed: nat, lowmem: nat)
    requires lowmem > 0
    ensures var share := Share(pagesMin, managed, lowmem);
      share * lowmem <= pagesMin * managed < (share + 1) * lowmem
  {
    var x: nat := pagesMin * managed;
    assert x == x / lowmem * lowmem + x % lowmem;
    Distribute(x / lowmem + 1, 1, lowmem);
  }

  lemma {:induction false} SharesAddUp(pagesMin: nat, managed: seq<nat>, lowmem: nat)
    requires lowmem > 0
    ensures var total := Sum(Minimums(pagesMin, managed, lowmem));
      && total * lowmem <= pagesMin * Sum(managed)
      && (managed != [] ==> pagesMin * Sum(managed) < (total + |managed|) * lowmem)
  {
    if managed != [] {
      var k := |managed| - 1;
      var rest := managed[..k];
      SharesAddUp(pagesMin, rest, lowmem);
      var before := Sum(Minimums(pagesMin, rest, lowmem));
      LastMinimum(pagesMin, managed, lowmem);
      AddShare(pagesMin, Sum(rest), managed[k], lowmem, before, k);
    }
  }

  lemma LastMinimum(pagesMin: nat, managed: seq<nat>, lowmem: nat)
    requires lowmem > 0 && managed != []
    ensures var k := |managed| - 1;
      Sum(Minimums(pagesMin, managed, lowmem))
      == Sum(Minimums(pagesMin, managed[..k], lowmem)) + Share(pagesMin, managed[k], lowmem)
  {
    var k := |managed| - 1;
    assert Minimums(pagesMin, managed, lowmem)[..k] == Minimums(pagesMin, managed[..k], lowmem);
  }

  lemma AddShare(pagesMin: nat, sum: nat, m: nat, lowmem: nat, before: nat, k: nat)
    requires lowmem > 0
    requires before * lowmem <= pagesMin * sum <= (before + k) * lowmem
    ensures (before + Share(pagesMin, m, lowmem)) * lowmem <= pagesMin * (sum + m)
    ensures pagesMin * (sum + m) < (before + Share(pagesMin, m, lowmem) + k + 1) * lowmem
  {
    var x := pagesMin * m;
    var s := Share(pagesMin, m, lowmem);
    assert s * lowmem <= x < s * lowmem + lowmem;
    assert pagesMin * (sum + m) == pagesMin * sum + x;
    assert (before + s) * lowmem == before * lowmem + s * lowmem;
    assert (before + s + k + 1) * lowmem == (before + k) * lowmem + s * lowmem + lowmem;
  }

  /** Splitting the minimum loses less than one page per zone and never invents one. */
  lemma MinimumsSumToPagesMin(pagesMin: nat, managed: seq<nat>)
    requires Sum(managed) > 0
    ensures var total := Sum(Minimums(pagesMin, managed, Sum(managed)));
      pagesMin - |managed| < total <= pagesMin
  {
    SharesOfTotal(pagesMin, managed, Sum(managed));
  }

  lemma SharesOfTotal(pagesMin: nat, managed: seq<nat>, lowmem: nat)
    requires lowmem > 0 && lowmem == Sum(managed)
    ensures pagesMin - |managed| < Sum(Minimums(pagesMin, managed, lowmem)) <= pagesMin
  {
    var total := Sum(Minimums(pagesMin, managed, lowmem));
    SharesAddUp(pagesMin, managed, lowmem);
    Cancel(total, pagesMin, lowmem);
    CancelStrict(pagesMin, total + |managed|, lowmem);
  }

  lemma Cancel(a: nat, b: nat, d: nat)
    requires d > 0
    ensures a * d <= b * d ==> a <= b
  {
    Distribute(a, b, d);
    MulAtLeast(a - b, d);
  }

  lemma CancelStrict(a: nat, b: nat, d: nat)
    requires d > 0
    ensures a * d < b * d ==> a < b
  {
    Distribute(b, a, d);
    MulAtLeast(b - a, d);
  }

  /**
    The three marks are equally spaced, by the larger of a quarter of the minimum and the scaled
    zone size; a boost still in force when the marks are set is added to the spacing, so the
    spacing is the documented one exactly when there is none.
   */
  lemma MarksAreEquallySpaced(pagesMin: nat, managed: nat, lowmem: nat, scale: nat, boost: nat)
    requires lowmem > 0
    ensures var m := MarksOf(pagesMin, managed, lowmem, scale, boost);
      && m.low - m.min == m.high - m.low
      && (m.low - m.min == Max(m.min / 4, managed * scale / 10000) <==> boost == 0)
  {
    MultFracIsExact(managed, scale, 10000);
  }

  // ----- Reserves

  lemma {:induction false} AboveMonotone(managed: seq<nat>, i: nat, j: nat, k: nat)
    requires j <= k < |managed|
    ensures Above(managed, i, j) <= Above(managed, i, k)
  {
    if j < k {
      AboveMonotone(managed, i, j, k - 1);
    }
  }

  lemma ZeroQuotient(x: nat, d: nat)
    requires d > 0
    ensures x / d == 0 <==> x < d
  {
    if x < d {
      DivBy(x, 0, x, d);
    }
  }

  /** The zone keeps nothing back from any higher one. */
  ghost predicate Cleared(row: seq<nat>, i: nat) {
    forall j :: i < j < |row| ==> row[j] == 0
  }

  /** A zone's reserves end up cleared exactly when all the zones above it together are smaller than the divisor. */
  lemma ClearedIffFewAbove(managed: seq<nat>, i: nat, divisor: nat, was: seq<nat>)
    requires divisor > 0 && i + 1 < |managed| && |was| == |managed|
    ensures Cleared(ReserveRow(managed, i, divisor, was), i) <==> Above(managed, i, |managed| - 1) < divisor
  {
    var row := ReserveRow(managed, i, divisor, was);
    var last := |managed| - 1;
    ZeroQuotient(Above(managed, i, last), divisor);
    assert row[last] == Above(managed, i, last) / divisor;
    forall j | i < j < |managed| && Above(managed, i, last) < divisor ensures row[j] == 0 {
      AboveMonotone(managed, i, j, last);
      ZeroQuotient(Above(managed, i, j), divisor);
    }
  }

  /** A ratio of 1 keeps back every page of the zones above. */
  lemma RatioOneReservesEverything(managed: seq<nat>, i: nat, was: seq<nat>, j: nat)
    requires i < j < |managed| && |was| == |managed|
    ensures ReserveRow(managed, i, Divisor(1), was)[j] == Above(managed, i, j)
  {
  }

  /** The setup gets past zone i and leaves it with no reserves. */
  ghost predicate SetupClears(managed: seq<nat>, ratio: seq<Int32>, was: seq<seq<nat>>, i: nat)
    requires Square(was, |managed|) && |ratio| == |managed| && i < |managed|
  {
    i < StopsAt(ratio, 0) && Cleared(Reserves(managed, ratio, was)[i], i)
  }

  lemma {:induction false} StopsAtFirstZero(ratio: seq<Int32>, from: nat, i: nat)
    requires from <= i && i + 1 < |ratio|
    ensures i < StopsAt(ratio, from) <==> forall k :: from <= k <= i ==> ratio[k] != 0
    decreases i - from
  {
    if ratio[from] != 0 && from < i {
      StopsAtFirstZero(ratio, from + 1, i);
    }
  }

  /**
    The setup clears the reserves of a zone that has another above it exactly when no ratio up to
    the zone's own is 0 and all pages above are fewer than the zone's divisor.
   */
  lemma SetupClearsIff(managed: seq<nat>, ratio: seq<Int32>, was: seq<seq<nat>>, i: nat)
    requires Square(was, |managed|) && |ratio| == |managed| && i + 1 < |managed|
    ensures SetupClears(managed, ratio, was, i)
      <==> (forall k :: 0 <= k <= i ==> ratio[k] != 0) && Above(managed, i, |managed| - 1) < Divisor(ratio[i])
  {
    StopFacts(ratio, 0);
    StopsAtFirstZero(ratio, 0, i);
    if ratio[i] != 0 {
      ClearedIffFewAbove(managed, i, Divisor(ratio[i]), was[i]);
    }
  }

  /**
    A ratio of 1 or less is documented to clear a zone's reserves.  It never does for 0, for 1
    only where there is no page above, and for negative ratios below the 64-bit value of the ratio.
   */
  lemma SmallRatioClears(managed: seq<nat>, ratio: seq<Int32>, was: seq<seq<nat>>, i: nat)
    requires Square(was, |managed|) && |ratio| == |managed| && i + 1 < |managed| && ratio[i] <= 1
    ensures var above := Above(managed, i, |managed| - 1);
      SetupClears(managed, ratio, was, i)
      <==> (forall k :: 0 <= k < i ==> ratio[k] != 0)
           && ((ratio[i] == 1 && above == 0) || (ratio[i] < 0 && above < Divisor(ratio[i])))
  {
    SetupClearsIff(managed, ratio, was, i);
  }

  /** A ratio of 0 at a zone that has another above it: the setup fails there and changes nothing from there on. */
  lemma RatioZeroStopsSetup(managed: seq<nat>, ratio: seq<Int32>, was: seq<seq<nat>>, i: nat, k: nat)
    requires Square(was, |managed|) && |ratio| == |managed| && i + 1 < |managed| && i <= k < |managed|
    requires ratio[i] == 0
    ensures !RatiosUsable(|managed|, ratio) && Reserves(managed, ratio, was)[k] == was[k]
  {
    StopFacts(ratio, 0);
  }

  /** The setup never looks at a zone's own size: an empty zone gets the reserves a full one would. */
  lemma OwnSizeIsIgnored(managed: seq<nat>, i: nat, own: nat, divisor: nat, was: seq<nat>)
    requires divisor > 0 && i < |managed| && |was| == |managed|
    ensures ReserveRow(managed[i := own], i, divisor, was) == ReserveRow(managed, i, divisor, was)
  {
    forall j | i < j < |managed| ensures Above(managed[i := own], i, j) == Above(managed, i, j) {
      OwnSizeNotAbove(managed, i, own, j);
    }
  }

  lemma {:induction false} OwnSizeNotAbove(managed: seq<nat>, i: nat, own: nat, j: nat)
    requires i < |managed| && j < |managed|
    ensures Above(managed[i := own], i, j) == Above(managed, i, j)
  {
    if j > i {
      OwnSizeNotAbove(managed, i, own, j - 1);
    }
  }

  /**
    The notes' own machine.  The first zone's reserves come out as listed there; the empty second
    zone is listed with none, but the loop gives it 4192 against the two above it.
   */
  lemma NotesMachine(managed: seq<nat>, ratio: seq<Int32>, zeros: seq<nat>)
    requires managed == [959006, 0, 1073373, 0] && ratio == [256, 256, 32, 0] && zeros == [0, 0, 0, 0]
    ensures Reserves(managed, ratio, [zeros, zeros, zeros, zeros])
      == [[0, 0, 4192, 4192], [0, 0, 4192, 4192], zeros, zeros]
  {
    var was := [zeros, zeros, zeros, zeros];
    StopFacts(ratio, 0);
    NotesRow(managed, 0, 256, zeros);
    NotesRow(managed, 1, 256, zeros);
    NotesRow(managed, 2, 32, zeros);
    assert StopsAt(ratio, 0) == 3;
  }

  lemma NotesRow(managed: seq<nat>, i: nat, divisor: nat, zeros: seq<nat>)
    requires managed == [959006, 0, 1073373, 0] && zeros == [0, 0, 0, 0] && i < 3
    requires divisor == if i < 2 then 256 else 32
    ensures ReserveRow(managed, i, divisor, zeros) == if i < 2 then [0, 0, 4192, 4192] else zeros
  {
    assert Above(managed, i, 0) == 0;
    assert Above(managed, i, 1) == 0;
    assert Above(managed, i, 2) == if i < 2 then 1073373 else 0;
    assert Above(managed, i, 3) == if i < 2 then 1073373 else 0;
  }

  predicate Admits(free: int, order: nat, mark: nat, reserve: nat) {
    free - (Pow2(order) - 1) > mark + reserve
  }

  /** A request that may fall back from a higher zone is never treated better than a lower one. */
  lemma AdmissionIsMonotone(managed: seq<nat>, divisor: nat, zone: nat, low: nat, high: nat,
                            free: int, order: nat, mark: nat)
    requires divisor > 0 && zone < |managed| && low <= high < |managed|
    requires Admits(free, order, mark, ReserveRow(managed, zone, divisor, seq(|managed|, _ => 0))[high])
    ensures Admits(free, order, mark, ReserveRow(managed, zone, divisor, seq(|managed|, _ => 0))[low])
  {
    if low > zone {
      AboveMonotone(managed, zone, low, high);
      DivMono(Above(managed, zone, low), Above(managed, zone, high), divisor);
    }
  }

  // ----- Boost

  function Cap(high: nat, factor: nat): nat {
    Max(PAGEBLOCK, MultFrac(high, factor, 10000))
  }

  function Boosted(boost: nat, high: nat, managed: nat, factor: nat): nat {
    if factor == 0 || PAGEBLOCK * 4 > managed then boost else Min(boost + PAGEBLOCK, Cap(high, factor))
  }

  type Positive = x: nat | x > 0 witness 1

  /** What happens to a zone: a fallback, the end of a kswapd round, and the marks being set up again. */
  datatype Event = Fallback | KswapdDone | MarksSet(pagesMin: nat, lowmem: Positive, scale: nat)

  /** The high mark in force, and the boost. */
  datatype Zone = Zone(high: nat, boost: nat)

  /** Setting up the marks takes the boost still in force into them. */
  function ZoneStep(z: Zone, managed: nat, factor: nat, e: Event): Zone {
    match e
    case Fallback => z.(boost := Boosted(z.boost, z.high, managed, factor))
    case KswapdDone => z.(boost := 0)
    case MarksSet(pagesMin, lowmem, scale) => z.(high := MarksOf(pagesMin, managed, lowmem, scale, z.boost).high)
  }

  function ZoneAfter(high: nat, managed: nat, factor: nat, events: seq<Event>): Zone {
    if events == [] then Zone(high, 0)
    else ZoneStep(ZoneAfter(high, managed, factor, events[..|events| - 1]), managed, factor, events[|events| - 1])
  }

  lemma OneMoreEvent(high: nat, managed: nat, factor: nat, events: seq<Event>, e: Event)
    ensures ZoneAfter(high, managed, factor, events + [e])
      == ZoneStep(ZoneAfter(high, managed, factor, events), managed, factor, e)
  {
    assert (events + [e])[..|events|] == events;
  }

  /** The caps in force at the fallbacks since the last kswapd round, oldest first. */
  function CapsMet(high: nat, managed: nat, factor: nat, events: seq<Event>): seq<nat> {
    if events == [] then []
    else
      var k := |events| - 1;
      var before := CapsMet(high, managed, factor, events[..k]);
      match events[k]
      case Fallback => before + [Cap(ZoneAfter(high, managed, factor, events[..k]).high, factor)]
      case KswapdDone => []
      case MarksSet(_, _, _) => before
  }

  /** One pageblock per fallback, or a cap once met and one pageblock for each fallback after it. */
  ghost predicate Allowed(caps: seq<nat>, x: nat) {
    x == |caps| * PAGEBLOCK || exists k :: 0 <= k < |caps| && x == caps[k] + (|caps| - 1 - k) * PAGEBLOCK
  }

  ghost predicate Least(caps: seq<nat>, x: nat) {
    && x <= |caps| * PAGEBLOCK
    && (forall k :: 0 <= k < |caps| ==> x <= caps[k] + (|caps| - 1 - k) * PAGEBLOCK)
    && Allowed(caps, x)
  }

  predicate Boostable(managed: nat, factor: nat) {
    factor != 0 && PAGEBLOCK * 4 <= managed
  }

  lemma LeastStep(caps: seq<nat>, x: nat, cap: nat)
    requires Least(caps, x)
    ensures Least(caps + [cap], Min(x + PAGEBLOCK, cap))
  {
    var more := caps + [cap];
    var y := Min(x + PAGEBLOCK, cap);
    assert more[|caps|] == cap;
    if y != cap && x != |caps| * PAGEBLOCK {
      var k :| 0 <= k < |caps| && x == caps[k] + (|caps| - 1 - k) * PAGEBLOCK;
      assert more[k] == caps[k];
      assert y == more[k] + (|more| - 1 - k) * PAGEBLOCK;
    }
  }

  /**
    Over any run of fallbacks, kswapd rounds and changes of the marks, the boost is the least of
    one pageblock per fallback since the last round and, for every cap met on the way, that cap and
    one pageblock for each later fallback.  It is zero where boosting is off or the zone too small.
   */
  lemma {:induction false} BoostIsLeast(high: nat, managed: nat, factor: nat, events: seq<Event>)
    ensures var boost := ZoneAfter(high, managed, factor, events).boost;
      if Boostable(managed, factor) then Least(CapsMet(high, managed, factor, events), boost) else boost == 0
  {
    if events == [] {
    } else {
      var before := events[..|events| - 1];
      BoostIsLeast(high, managed, factor, before);
      var z := ZoneAfter(high, managed, factor, before);
      if events[|events| - 1] == Fallback && Boostable(managed, factor) {
        LeastStep(CapsMet(high, managed, factor, before), z.boost, Cap(z.high, factor));
      }
    }
  }

  predicate WithinCap(z: Zone, factor: nat) {
    z.boost <= Cap(z.high, factor)
  }

  /** The cap can only be exceeded when the marks were set again after the last fallback and kswapd round. */
  lemma OnlyNewMarksExceedCap(high: nat, managed: nat, factor: nat, events: seq<Event>)
    requires events == [] || !events[|events| - 1].MarksSet?
    ensures WithinCap(ZoneAfter(high, managed, factor, events), factor)
  {
    BoostIsLeast(high, managed, factor, events);
    if events != [] {
      BoostIsLeast(high, managed, factor, events[..|events| - 1]);
    }
  }

  /** A high mark of at least twice the boost gives a cap that covers it, from a factor of 5000 on. */
  lemma CapCovers(high: nat, boost: nat, factor: nat)
    requires high >= 2 * boost && factor >= 5000
    ensures boost <= Cap(high, factor)
  {
    MultFracIsExact(high, factor, 10000);
    MulMono(2 * boost, high, factor);
    MulMono(5000, factor, 2 * boost);
    DivMono(boost * 10000, high * factor, 10000);
    DivBy(boost * 10000, boost, 0, 10000);
  }

  lemma {:induction false} LargeFactorStaysWithinCap(high: nat, managed: nat, factor: nat, events: seq<Event>)
    requires factor >= 5000
    ensures WithinCap(ZoneAfter(high, managed, factor, events), factor)
  {
    if events == [] || !events[|events| - 1].MarksSet? {
      OnlyNewMarksExceedCap(high, managed, factor, events);
    } else {
      var before := ZoneAfter(high, managed, factor, events[..|events| - 1]);
      CapCovers(ZoneAfter(high, managed, factor, events).high, before.boost, factor);
    }
  }

  /** The setup counts the zone's own pages among all, and its scale is 1 to 1000 parts in 10000. */
  ghost predicate Possible(managed: nat, events: seq<Event>) {
    forall i :: 0 <= i < |events| && events[i].MarksSet? ==> events[i].lowmem >= managed && 1 <= events[i].scale <= 1000
  }

  ghost predicate NeverPastCap(high: nat, managed: nat, factor: nat) {
    forall events :: Possible(managed, events) ==> WithinCap(ZoneAfter(high, managed, factor, events), factor)
  }

  function Fallbacks(n: nat): seq<Event> {
    seq(n, _ => Fallback)
  }

  lemma {:induction false} AfterFallbacks(high: nat, managed: nat, factor: nat, events: seq<Event>, n: nat)
    requires Boostable(managed, factor) && ZoneAfter(high, managed, factor, events).boost == 0
    ensures var z := ZoneAfter(high, managed, factor, events);
      ZoneAfter(high, managed, factor, events + Fallbacks(n)) == Zone(z.high, Min(n * PAGEBLOCK, Cap(z.high, factor)))
  {
    if n == 0 {
      assert events + Fallbacks(0) == events;
    } else {
      AfterFallbacks(high, managed, factor, events, n - 1);
      OneMoreEvent(high, managed, factor, events + Fallbacks(n - 1), Fallback);
      assert events + Fallbacks(n) == events + Fallbacks(n - 1) + [Fallback];
    }
  }

  /** Many fallbacks under a large minimum, which is then taken away before kswapd has run. */
  function LoweredRun(managed: Positive): seq<Event> {
    var n := 20 * (managed / 10000 + 1);
    [MarksSet(10000 * (n * PAGEBLOCK), managed, 1)] + Fallbacks(n) + [MarksSet(0, managed, 1)]
  }

  lemma HighOfMarks(pagesMin: nat, managed: Positive, scale: nat, boost: nat)
    ensures MarksOf(pagesMin, managed, managed, scale, boost).high
      == pagesMin + 2 * (boost + Max(pagesMin / 4, managed * scale / 10000))
  {
    MultFracIsExact(managed, scale, 10000);
    DivBy(pagesMin * managed, pagesMin, 0, managed);
  }

  /** From 10000 pages of high mark per page of boost on, any factor allows the boost. */
  lemma AnyFactorAllows(high: nat, boost: nat, factor: nat)
    requires factor >= 1 && high >= 10000 * boost
    ensures Cap(high, factor) >= boost
  {
    MultFracIsExact(high, factor, 10000);
    MulMono(1, factor, high);
    DivMono(boost * 10000, high * factor, 10000);
    DivBy(boost * 10000, boost, 0, 10000);
  }

  /** Below 5000 the cap of twice the boost and a little falls short of it. */
  lemma SmallFactorFallsShort(high: nat, boost: nat, gap: nat, factor: nat)
    requires factor < 5000 && high == 2 * (boost + gap) && boost > 512 && boost > 4999 * gap
    ensures Cap(high, factor) < boost
  {
    MultFracIsExact(high, factor, 10000);
    MulMono(factor, 4999, high);
    DivMono(high * factor, boost * 10000 - 1, 10000);
    DivBy(boost * 10000 - 1, boost - 1, 9999, 10000);
  }

  /** The large minimum lets every one of the fallbacks add a whole pageblock. */
  lemma BoostBeforeLowering(high: nat, managed: nat, factor: nat, n: nat)
    requires Boostable(managed, factor)
    ensures ZoneAfter(high, managed, factor, [MarksSet(10000 * (n * PAGEBLOCK), managed, 1)] + Fallbacks(n)).boost
      == n * PAGEBLOCK
  {
    var boost := n * PAGEBLOCK;
    var first := MarksSet(10000 * boost, managed, 1);
    OneMoreEvent(high, managed, factor, [], first);
    assert [] + [first] == [first];
    HighOfMarks(10000 * boost, managed, 1, 0);
    AnyFactorAllows(ZoneAfter(high, managed, factor, [first]).high, boost, factor);
    AfterFallbacks(high, managed, factor, [first], n);
  }

  lemma LoweredRunExceedsCap(high: nat, managed: nat, factor: nat)
    requires Boostable(managed, factor) && factor < 5000
    ensures Possible(managed, LoweredRun(managed))
    ensures !WithinCap(ZoneAfter(high, managed, factor, LoweredRun(managed)), factor)
  {
    var gap := managed / 10000;
    var n := 20 * (gap + 1);
    var before := [MarksSet(10000 * (n * PAGEBLOCK), managed, 1)] + Fallbacks(n);
    BoostBeforeLowering(high, managed, factor, n);
    OneMoreEvent(high, managed, factor, before, MarksSet(0, managed, 1));
    HighOfMarks(0, managed, 1, n * PAGEBLOCK);
    SmallFactorFallsShort(ZoneAfter(high, managed, factor, LoweredRun(managed)).high, n * PAGEBLOCK, gap, factor);
  }

  /**
    In every run the boost is within the cap of the marks in force exactly when boosting is off,
    the zone too small for it, or the factor at least 5000; at the default of 15000 it always is.
   */
  lemma BoostWithinCapIff(high: nat, managed: nat, factor: nat)
    ensures NeverPastCap(high, managed, factor) <==> !Boostable(managed, factor) || factor >= 5000
  {
    if !Boostable(managed, factor) {
      forall events ensures WithinCap(ZoneAfter(high, managed, factor, events), factor) {
        BoostIsLeast(high, managed, factor, events);
      }
    } else if factor >= 5000 {
      forall events ensures WithinCap(ZoneAfter(high, managed, factor, events), factor) {
        LargeFactorStaysWithinCap(high, managed, factor, events);
      }
    } else {
      LoweredRunExceedsCap(high, managed, factor);
      assert Possible(managed, LoweredRun(managed));
    }
  }

  /**
    An ordinary run past the cap, at a factor of 1000: a million pages, marks set up for a minimum
    of 20000, five fallbacks, and the marks set up again for a minimum of 0 before kswapd has run.
   */
  lemma LoweredMarksExceedCap(high: nat, events: seq<Event>)
    requires events == [MarksSet(20000, 1000000, 1)] + Fallbacks(5) + [MarksSet(0, 1000000, 1)]
    ensures Possible(1000000, events)
    ensures ZoneAfter(high, 1000000, 1000, events) == Zone(5320, 2560) && Cap(5320, 1000) == 532
  {
    var first := MarksSet(20000, 1000000, 1);
    OneMoreEvent(high, 1000000, 1000, [], first);
    assert [] + [first] == [first];
    HighOfMarks(20000, 1000000, 1, 0);
    AfterFallbacks(high, 1000000, 1000, [first], 5);
    OneMoreEvent(high, 1000000, 1000, [first] + Fallbacks(5), MarksSet(0, 1000000, 1));
    HighOfMarks(0, 1000000, 1, 2560);
  }

  ghost predicate NoMarksSet(events: seq<Event>) {
    forall i :: 0 <= i < |events| ==> !events[i].MarksSet?
  }

  /** While the marks stay as they are: one pageblock per fallback since the last round, cut off at the cap. */
  lemma {:induction false} BoostIsCapped(high: nat, managed: nat, factor: nat, events: seq<Event>)
    requires NoMarksSet(events)
    ensures ZoneAfter(high, managed, factor, events) == Zone(high,
      if Boostable(managed, factor) then Min(|CapsMet(high, managed, factor, events)| * PAGEBLOCK, Cap(high, factor))
      else 0)
  {
    if events != [] {
      BoostIsCapped(high, managed, factor, events[..|events| - 1]);
    }
  }
}
