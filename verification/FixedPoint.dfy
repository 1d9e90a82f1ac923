/** The scheduler's integer arithmetic: scaling a run time by a weight, and decaying a load. */
module FixedPoint {
  import opened Arithmetic

  const TWO31 := 0x8000_0000
  const TWO32 := 0x1_0000_0000
  const TWO63 := 0x8000_0000_0000_0000
  const TWO64 := 0x1_0000_0000_0000_0000

  /** v >> k. */
  function Shr(v: nat, k: nat): nat {
    if k == 0 then v else Shr(v, k - 1) / 2
  }

  lemma {:induction false} ShrBounds(v: nat, k: nat)
    ensures Shr(v, k) * Pow2(k) <= v < (Shr(v, k) + 1) * Pow2(k)
  {
    if k > 0 {
      ShrBounds(v, k - 1);
      var a, b, p := Shr(v, k - 1), Shr(v, k), Pow2(k - 1);
      HalfBounds(a, p);
      assert b * (2 * p) == a / 2 * (2 * p) && (b + 1) * (2 * p) == (a / 2 + 1) * (2 * p);
    }
  }

  lemma HalfBounds(a: nat, p: nat)
    ensures a / 2 * (2 * p) <= a * p && (a + 1) * p <= (a / 2 + 1) * (2 * p)
  {
    MulMono(a / 2 * 2, a, p);
    MulMono(a + 1, (a / 2 + 1) * 2, p);
    assert a / 2 * 2 * p == a / 2 * (2 * p);
    assert (a / 2 + 1) * 2 * p == (a / 2 + 1) * (2 * p);
  }

  lemma {:induction false} ShrMono(a: nat, b: nat, k: nat)
    requires a <= b
    ensures Shr(a, k) <= Shr(b, k)
  {
    if k > 0 {
      ShrMono(a, b, k - 1);
    }
  }

  lemma {:induction false} ShrAtMost(v: nat, k: nat)
    ensures Shr(v, k) <= v
  {
    if k > 0 {
      ShrAtMost(v, k - 1);
    }
  }

  // ----- Scaling by a weight

  /** How often a factor must be halved to fit into 32 bits, and what is left of it then. */
  function Halvings(f: nat): nat {
    if f < TWO32 then 0 else 1 + Halvings(f / 2)
  }

  function Scaled(f: nat): nat {
    if f < TWO32 then f else Scaled(f / 2)
  }

  /** weight * inv, with the weight cut to 32 bits first. */
  function Factor(weight: nat, inv: nat): nat {
    weight % TWO32 * inv
  }

  /** The upper half of a weight has no influence. */
  lemma FactorIsCut(low: nat, high: nat, inv: nat)
    requires low < TWO32
    ensures Factor(low + high * TWO32, inv) == low * inv
  {
    DivBy(low + high * TWO32, high, low, TWO32);
  }

  /** delta * factor / 2^32 in 64-bit arithmetic, with the factor halved until it fits. */
  function Delta(delta: nat, f: nat): nat
    requires f < TWO64
  {
    HalvingsFit(f);
    Shr(delta * Scaled(f) % TWO64, 32 - Halvings(f))
  }

  lemma HalvingsFit(f: nat)
    requires f < TWO64
    ensures Halvings(f) <= 32
  {
    Pow2At32();
    HalvingsBounded(f, 32);
  }

  method CalcDelta(delta: nat, weight: nat, inv: nat) returns (r: nat)
    requires delta < TWO64 && weight < TWO64 && inv < TWO32
    ensures Factor(weight, inv) < TWO64
    ensures r == Delta(delta, Factor(weight, inv))
  {
    FactorFits(weight, inv);
    ghost var f := Factor(weight, inv);
    var fact: nat := Factor(weight, inv);
    var shift := 32;
    HalvingsFit(f);
    while fact / TWO32 != 0
      invariant Scaled(fact) == Scaled(f)
      invariant 32 - shift + Halvings(fact) == Halvings(f)
      decreases fact
    {
      fact := fact / 2;
      shift := shift - 1;
    }
    r := Shr(delta * fact % TWO64, shift);
  }

  /** With E = delta * f / 2^32: at most E, and more than E - E / 2^31 - 1. */
  ghost predicate Accurate(delta: nat, f: nat, r: nat) {
    r * TWO32 <= delta * f && delta * f * (TWO31 - 1) < (r + 1) * TWO63
  }

  /** The result is accurate exactly when the product of run time and halved factor fits into 64 bits. */
  lemma DeltaIsAccurate(delta: nat, f: nat)
    requires delta < TWO64 && f < TWO64
    ensures Accurate(delta, f, Delta(delta, f)) <==> delta * Scaled(f) < TWO64
  {
    var product: nat := delta * Scaled(f);
    var r := Delta(delta, f);
    DeltaUnfolds(delta, f, product);
    AccurateIffFitting(delta, f, product, r);
  }

  lemma AccurateIffFitting(delta: nat, f: nat, product: nat, r: nat)
    requires Halvings(f) <= 32 && product == delta * Scaled(f)
    requires r == Shr(product % TWO64, 32 - Halvings(f))
    ensures Accurate(delta, f, r) <==> product < TWO64
  {
    if product < TWO64 {
      FittingIsAccurate(delta, f, product, r);
    } else {
      WrappedIsFarOff(delta, f, product, r);
    }
  }

  lemma DeltaUnfolds(delta: nat, f: nat, product: nat)
    requires f < TWO64 && product == delta * Scaled(f)
    ensures Halvings(f) <= 32 && Delta(delta, f) == Shr(product % TWO64, 32 - Halvings(f))
  {
    HalvingsFit(f);
  }

  lemma FittingIsAccurate(delta: nat, f: nat, product: nat, r: nat)
    requires Halvings(f) <= 32 && product == delta * Scaled(f) && product < TWO64
    requires r == Shr(product % TWO64, 32 - Halvings(f))
    ensures Accurate(delta, f, r)
  {
    SmallModulo(product);
    ErrorBound(delta, f, product);
  }

  /** That is always so for run times below 2^32. */
  lemma ShortRunsAreAccurate(delta: nat, f: nat)
    requires delta < TWO32 && f < TWO64
    ensures delta * Scaled(f) < TWO64 && Accurate(delta, f, Delta(delta, f))
  {
    ProductFits(delta, f);
    DeltaIsAccurate(delta, f);
  }

  /** A wrapped product loses at least 2^32 of the result, far more than the error bound allows. */
  lemma WrappedIsFarOff(delta: nat, f: nat, product: nat, r: nat)
    requires Halvings(f) <= 32 && product == delta * Scaled(f) && product >= TWO64
    requires r == Shr(product % TWO64, 32 - Halvings(f))
    ensures !Accurate(delta, f, r)
  {
    var k, s := Halvings(f), Scaled(f);
    var p, d := Pow2(k), Pow2(32 - k);
    ScaledFacts(f);
    Pow2Sum(k, 32 - k);
    Pow2At32();
    ShrBounds(product % TWO64, 32 - k);
    WrapLoses(product, product % TWO64);
    FactorAtMost32Bits(p, d);
    FarOff(delta, f, s, p, d, r, product);
  }

  lemma WrapLoses(x: nat, y: nat)
    requires x >= TWO64 && y == x % TWO64
    ensures y + TWO64 <= x
  {
  }

  lemma FactorAtMost32Bits(p: nat, d: nat)
    requires p * d == TWO32 && p > 0
    ensures d <= TWO32
  {
    MulMono(1, p, d);
  }

  lemma FarOff(delta: nat, f: nat, s: nat, p: nat, d: nat, r: nat, product: nat)
    requires product == delta * s && s * p <= f && p * d == TWO32 && p > 0 && d <= TWO32
    requires r * d + TWO64 <= product && r * d < TWO64
    ensures !Accurate(delta, f, r)
  {
    assert (r + 1) * d == r * d + d;
    assert (r + 1) * d * TWO31 <= product * (TWO31 - 1);
    MulMono((r + 1) * d * TWO31, product * (TWO31 - 1), p);
    MulMono(s * p, f, delta);
    FarOffScaled(delta, f, s, p, d, r, product);
  }

  lemma FarOffScaled(delta: nat, f: nat, s: nat, p: nat, d: nat, r: nat, product: nat)
    requires product == delta * s && p * d == TWO32 && s * p * delta <= f * delta
    requires (r + 1) * d * TWO31 * p <= product * (TWO31 - 1) * p
    ensures (r + 1) * TWO63 <= delta * f * (TWO31 - 1)
  {
    Regrouped(r + 1, p, d);
    assert product * (TWO31 - 1) * p == product * p * (TWO31 - 1);
    assert product * p == s * p * delta;
    assert f * delta == delta * f;
  }

  lemma Regrouped(x: nat, p: nat, d: nat)
    requires p * d == TWO32
    ensures x * d * TWO31 * p == x * TWO63
  {
    assert x * d * TWO31 * p == x * (p * d) * TWO31;
  }

  lemma ProductFits(delta: nat, f: nat)
    requires delta < TWO32
    ensures 0 <= delta * Scaled(f) < TWO64
  {
    ScaledFits(f);
    NoOverflow(delta, Scaled(f));
  }

  lemma {:induction false} ScaledFits(f: nat)
    ensures Scaled(f) < TWO32
  {
    if f >= TWO32 {
      ScaledFits(f / 2);
    }
  }

  lemma SmallModulo(x: nat)
    ensures x < TWO64 ==> x % TWO64 == x
  {
  }

  lemma ShrIsQuotient(v: nat)
    ensures Shr(v, 32) == v / TWO32
  {
    ShrBounds(v, 32);
    Pow2At32();
    var q := Shr(v, 32);
    DivBy(v, q, v - q * TWO32, TWO32);
  }

  /** With a factor below 2^32 only the final truncation loses anything, exactly when the product fits. */
  lemma DeltaExact(delta: nat, f: nat)
    requires delta < TWO64 && f < TWO32
    ensures Delta(delta, f) == delta * f / TWO32 <==> delta * f < TWO64
  {
    var product: nat := delta * f;
    ShrIsQuotient(product % TWO64);
    QuotientOfWrapped(product);
  }

  lemma QuotientOfWrapped(x: nat)
    ensures x % TWO64 / TWO32 == x / TWO32 <==> x < TWO64
  {
    if x < TWO64 {
      SmallModulo(x);
    } else {
      DivMono(TWO64, x, TWO32);
      var y := x % TWO64;
      WrapLoses(x, y);
      var q := y / TWO32;
      DivMono((q + TWO32) * TWO32, x, TWO32);
      DivBy((q + TWO32) * TWO32, q + TWO32, 0, TWO32);
    }
  }

  lemma FactorFits(weight: nat, inv: nat)
    requires inv < TWO32
    ensures Factor(weight, inv) < TWO64
  {
    NoOverflow(weight % TWO32, inv);
  }

  lemma NoOverflow(a: nat, b: nat)
    requires a < TWO32 && b < TWO32
    ensures a * b < TWO64
  {
    MulMono(a, TWO32 - 1, b);
    MulMono(b, TWO32 - 1, TWO32 - 1);
  }

  lemma {:induction false} HalvingsBounded(f: nat, k: nat)
    requires f < TWO32 * Pow2(k)
    ensures Halvings(f) <= k
  {
    if f >= TWO32 {
      assert k > 0;
      HalvingsBounded(f / 2, k - 1);
    }
  }

  lemma Pow2At32()
    ensures Pow2(32) == TWO32
  {
    assert Pow2(8) == 0x100;
    assert Pow2(16) == 0x1_0000;
    assert Pow2(24) == 0x100_0000;
  }

  /** The scaled factor is the truncated quotient, and keeps its top bit once anything was cut. */
  lemma {:induction false} ScaledFacts(f: nat)
    ensures var k := Halvings(f); var s := Scaled(f);
      && s < TWO32 && (k > 0 ==> s >= TWO31)
      && s * Pow2(k) <= f < (s + 1) * Pow2(k)
  {
    if f >= TWO32 {
      ScaledFacts(f / 2);
      var k, s := Halvings(f / 2), Scaled(f / 2);
      assert s * Pow2(k + 1) == 2 * (s * Pow2(k));
      assert (s + 1) * Pow2(k + 1) == 2 * ((s + 1) * Pow2(k));
    }
  }

  lemma {:induction false} Pow2Sum(a: nat, b: nat)
    ensures Pow2(a) * Pow2(b) == Pow2(a + b)
  {
    if a > 0 {
      Pow2Sum(a - 1, b);
      DoubleProduct(Pow2(a - 1), Pow2(b));
    }
  }

  /** Cutting k bits off a factor that keeps 32 of them loses less than one part in 2^31. */
  lemma CutLosesLittle(f: nat, s: nat, p: nat)
    requires p > 0 && s * p <= f < (s + 1) * p && (p == 1 || s >= TWO31)
    ensures f * (TWO31 - 1) <= s * p * TWO31
  {
    if p > 1 {
      MulMono(TWO31, s, p);
      assert (s + 1) * p == s * p + p;
    }
  }

  lemma ErrorBound(delta: nat, f: nat, product: nat)
    requires Halvings(f) <= 32 && product == delta * Scaled(f)
    ensures var r := Shr(product, 32 - Halvings(f));
      r * TWO32 <= delta * f && delta * f * (TWO31 - 1) < (r + 1) * TWO63
  {
    var k, s := Halvings(f), Scaled(f);
    var p, d := Pow2(k), Pow2(32 - k);
    ScaledFacts(f);
    Pow2Sum(k, 32 - k);
    Pow2At32();
    CutLosesLittle(f, s, p);
    ShrBounds(product, 32 - k);
    Upper(delta, f, s, p, d, Shr(product, 32 - k));
    Lower(delta, f, s, p, d, Shr(product, 32 - k));
  }

  lemma Upper(delta: nat, f: nat, s: nat, p: nat, d: nat, r: nat)
    requires r * d <= delta * s && s * p <= f && p * d == TWO32
    ensures r * TWO32 <= delta * f
  {
    MulMono(r * d, delta * s, p);
    MulMono(s * p, f, delta);
    assert r * TWO32 == r * d * p by { assert r * (p * d) == r * d * p; }
    assert delta * s * p == s * p * delta;
  }

  lemma Lower(delta: nat, f: nat, s: nat, p: nat, d: nat, r: nat)
    requires delta * s < (r + 1) * d && f * (TWO31 - 1) <= s * p * TWO31 && p * d == TWO32 && p > 0
    ensures delta * f * (TWO31 - 1) < (r + 1) * TWO63
  {
    MulMono(f * (TWO31 - 1), s * p * TWO31, delta);
    MulMono(delta * s + 1, (r + 1) * d, p);
    assert delta * f * (TWO31 - 1) == f * (TWO31 - 1) * delta;
    assert s * p * TWO31 * delta == (delta * s * p) * TWO31;
    assert (delta * s + 1) * p == delta * s * p + p;
    assert (r + 1) * d * p == (r + 1) * TWO32 by { assert (r + 1) * (p * d) == (r + 1) * d * p; }
  }

  /** weight and 2^32 / weight for nice -20 .. 19. */
  const PRIO_TO_WEIGHT: seq<nat> := [
    88761, 71755, 56483, 46273, 36291, 29154, 23254, 18705, 14949, 11916,
    9548, 7620, 6100, 4904, 3906, 3121, 2501, 1991, 1586, 1277,
    1024, 820, 655, 526, 423, 335, 272, 215, 172, 137,
    110, 87, 70, 56, 45, 36, 29, 23, 18, 15]

  const PRIO_TO_WMULT: seq<nat> := [
    48388, 59856, 76040, 92818, 118348, 147320, 184698, 229616, 287308, 360437,
    449829, 563644, 704093, 875809, 1099582, 1376151, 1717300, 2157191, 2708050, 3363326,
    4194304, 5237765, 6557202, 8165337, 10153587, 12820798, 15790321, 19976592, 24970740, 31350126,
    39045157, 49367440, 61356676, 76695844, 95443717, 119304647, 148102320, 186737708, 238609294, 286331153]

  /** The two tables are inverse to within 40 parts in 2^32. */
  lemma TablesAreInverse(i: nat)
    requires i < 40
    ensures |PRIO_TO_WEIGHT| == |PRIO_TO_WMULT| == 40
    ensures 0 < PRIO_TO_WMULT[i] < TWO32 && PRIO_TO_WEIGHT[i] > 0
    ensures TWO32 - 40 <= PRIO_TO_WMULT[i] * PRIO_TO_WEIGHT[i] <= TWO32 + 40
  {
  }

  /**
    The virtual run time at every nice level, against the exact delta * 1024 / weight: scaled by
    weight * 2^32, it is off by the 40 parts of the tables above, and by those, one part in 2^31
    and one unit below.  So it is for every run time below 2^32, and for every longer one whose
    product with the halved factor still fits into 64 bits.
   */
  method CalcDeltaFair(delta: nat, nice: int) returns (r: nat)
    requires delta < TWO64 && -20 <= nice < 20
    ensures delta < TWO32 ==> delta * Scaled(1024 * PRIO_TO_WMULT[nice + 20]) < TWO64
    ensures delta * Scaled(1024 * PRIO_TO_WMULT[nice + 20]) < TWO64 ==>
      && r * PRIO_TO_WEIGHT[nice + 20] * TWO32 <= delta * 1024 * (TWO32 + 40)
      && delta * 1024 * (TWO32 - 40) * (TWO31 - 1) <= (r + 1) * PRIO_TO_WEIGHT[nice + 20] * TWO63
  {
    var w, inv := PRIO_TO_WEIGHT[nice + 20], PRIO_TO_WMULT[nice + 20];
    TablesAreInverse(nice + 20);
    r := CalcDelta(delta, 1024, inv);
    FairIsAccurate(delta, w, inv, r);
  }

  lemma FairIsAccurate(delta: nat, w: nat, inv: nat, r: nat)
    requires delta < TWO64 && inv < TWO32 && TWO32 - 40 <= inv * w <= TWO32 + 40 && r == Delta(delta, 1024 * inv)
    ensures delta < TWO32 ==> delta * Scaled(1024 * inv) < TWO64
    ensures delta * Scaled(1024 * inv) < TWO64 ==>
      && r * w * TWO32 <= delta * 1024 * (TWO32 + 40)
      && delta * 1024 * (TWO32 - 40) * (TWO31 - 1) <= (r + 1) * w * TWO63
  {
    if delta < TWO32 {
      ProductFits(delta, 1024 * inv);
    }
    DeltaIsAccurate(delta, 1024 * inv);
    if delta * Scaled(1024 * inv) < TWO64 {
      FairBounds(delta, w, inv, r);
    }
  }

  lemma FairBounds(delta: nat, w: nat, inv: nat, r: nat)
    requires TWO32 - 40 <= inv * w <= TWO32 + 40
    requires r * TWO32 <= delta * (1024 * inv)
    requires delta * (1024 * inv) * (TWO31 - 1) < (r + 1) * TWO63
    ensures r * w * TWO32 <= delta * 1024 * (TWO32 + 40)
    ensures delta * 1024 * (TWO32 - 40) * (TWO31 - 1) <= (r + 1) * w * TWO63
  {
    var d := delta * 1024;
    assert delta * (1024 * inv) == d * inv;
    MulMono(r * TWO32, d * inv, w);
    MulMono(inv * w, TWO32 + 40, d);
    MulMono(TWO32 - 40, inv * w, d);
    MulMono(d * inv * (TWO31 - 1), (r + 1) * TWO63, w);
    assert d * inv * w == inv * w * d;
    assert r * TWO32 * w == r * w * TWO32;
    assert d * inv * (TWO31 - 1) * w == (inv * w * d) * (TWO31 - 1);
    assert (r + 1) * TWO63 * w == (r + 1) * w * TWO63;
  }

  // ----- Decay

  const LOAD_AVG_PERIOD := 32
  const LOAD_AVG_MAX := 47742

  const Y_INV: seq<nat> := [
    0xffffffff, 0xfa83b2da, 0xf5257d14, 0xefe4b99a, 0xeac0c6e6, 0xe5b906e6, 0xe0ccdeeb, 0xdbfbb796,
    0xd744fcc9, 0xd2a81d91, 0xce248c14, 0xc9b9bd85, 0xc5672a10, 0xc12c4cc9, 0xbd08a39e, 0xb8fbaf46,
    0xb504f333, 0xb123f581, 0xad583ee9, 0xa9a15ab4, 0xa5fed6a9, 0xa2704302, 0x9ef5325f, 0x9b8d39b9,
    0x9837f050, 0x94f4efa8, 0x91c3d373, 0x8ea4398a, 0x8b95c1e3, 0x88980e80, 0x85aac367, 0x82cd8698]

  /** All that decaying needs of its table: 32 factors that fall and stay within the last octave below 2^32. */
  ghost predicate Falling(y: seq<nat>) {
    && |y| == 32
    && (forall i :: 0 <= i < 32 ==> TWO31 <= y[i] < TWO32)
    && (forall i :: 0 < i < 32 ==> y[i] < y[i - 1])
  }

  lemma TableFalls()
    ensures Falling(Y_INV)
  {
  }

  /** (val * mul) >> 32 with a 96-bit product. */
  function MulShr32(val: nat, mul: nat): nat {
    val * mul / TWO32
  }

  function DecayBy(y: seq<nat>, val: nat, n: nat): nat
    requires |y| == 32
  {
    if n > LOAD_AVG_PERIOD * 63 then 0
    else
      var v := if n >= LOAD_AVG_PERIOD then Shr(val, n / LOAD_AVG_PERIOD) else val;
      MulShr32(v, y[n % LOAD_AVG_PERIOD])
  }

  function DecayLoad(val: nat, n: nat): nat {
    DecayBy(Y_INV, val, n)
  }

  /** Below one period the shift by zero makes no difference. */
  lemma DecayShape(y: seq<nat>, val: nat, n: nat)
    requires |y| == 32
    ensures DecayBy(y, val, n) == if n > 2016 then 0 else MulShr32(Shr(val, n / 32), y[n % 32])
  {
  }

  lemma MulShrMono(a: nat, b: nat, x: nat, y: nat)
    requires a <= b && x <= y
    ensures MulShr32(a, x) <= MulShr32(b, y)
  {
    MulMono(a, b, x);
    MulMono(x, y, b);
    DivMono(a * x, b * y, TWO32);
  }

  lemma MulShrAtMost(v: nat, y: nat)
    requires y < TWO32
    ensures MulShr32(v, y) <= v
  {
    MulMono(y, TWO32, v);
    DivMono(v * y, v * TWO32, TWO32);
    DivBy(v * TWO32, v, 0, TWO32);
  }

  lemma DecayByAtMostInput(y: seq<nat>, val: nat, n: nat)
    requires Falling(y)
    ensures DecayBy(y, val, n) <= val
  {
    DecayShape(y, val, n);
    ShrAtMost(val, n / 32);
    MulShrAtMost(Shr(val, n / 32), y[n % 32]);
  }

  /** Decaying never increases a load. */
  lemma DecayAtMostInput(val: nat, n: nat)
    ensures DecayLoad(val, n) <= val
  {
    TableFalls();
    DecayByAtMostInput(Y_INV, val, n);
  }

  lemma DecayByMonotone(y: seq<nat>, a: nat, b: nat, n: nat)
    requires |y| == 32 && a <= b
    ensures DecayBy(y, a, n) <= DecayBy(y, b, n)
  {
    DecayShape(y, a, n);
    DecayShape(y, b, n);
    ShrMono(a, b, n / 32);
    MulShrMono(Shr(a, n / 32), Shr(b, n / 32), y[n % 32], y[n % 32]);
  }

  /** It keeps the order of loads. */
  lemma DecayMonotone(a: nat, b: nat, n: nat)
    requires a <= b
    ensures DecayLoad(a, n) <= DecayLoad(b, n)
  {
    DecayByMonotone(Y_INV, a, b, n);
  }

  /** At a period boundary: half of v, hardly decayed, is no more than v decayed by the last entry. */
  lemma PeriodBoundary(v: nat, first: nat, last: nat)
    requires first < TWO32 && last >= TWO31
    ensures MulShr32(v / 2, first) <= MulShr32(v, last)
  {
    MulShrAtMost(v / 2, first);
    MulMono(TWO31, last, v);
    DivMono(v * TWO31, v * last, TWO32);
    DivBy(v * TWO31, v / 2, v % 2 * TWO31, TWO32);
  }

  lemma DecayOneMore(y: seq<nat>, val: nat, n: nat)
    requires Falling(y)
    ensures DecayBy(y, val, n + 1) <= DecayBy(y, val, n)
  {
    DecayShape(y, val, n);
    DecayShape(y, val, n + 1);
    var v := Shr(val, n / 32);
    if n < 2016 {
      if n % 32 == 31 {
        assert (n + 1) / 32 == n / 32 + 1 && (n + 1) % 32 == 0;
        PeriodBoundary(v, y[0], y[31]);
      } else {
        assert (n + 1) / 32 == n / 32 && (n + 1) % 32 == n % 32 + 1;
        MulShrMono(v, v, y[n % 32 + 1], y[n % 32]);
      }
    }
  }

  lemma {:induction false} DecayByNonIncreasing(y: seq<nat>, val: nat, n: nat, m: nat)
    requires Falling(y) && n <= m
    ensures DecayBy(y, val, m) <= DecayBy(y, val, n)
    decreases m
  {
    if n < m {
      DecayByNonIncreasing(y, val, n, m - 1);
      DecayOneMore(y, val, m - 1);
    }
  }

  /** Over more time a load never decays to more, across every period boundary and the cut-off. */
  lemma DecayNonIncreasing(val: nat, n: nat, m: nat)
    requires n <= m
    ensures DecayLoad(val, m) <= DecayLoad(val, n)
  {
    TableFalls();
    DecayByNonIncreasing(Y_INV, val, n, m);
  }

  lemma NearlyOne(h: nat)
    ensures MulShr32(h, TWO32 - 1) == h <==> h == 0
    ensures MulShr32(h, TWO32 - 1) + 1 == h <==> 1 <= h <= TWO32
  {
    assert h * (TWO32 - 1) == h * TWO32 - h;
    if h == 0 {
    } else if h <= TWO32 {
      DivBy(h * (TWO32 - 1), h - 1, TWO32 - h, TWO32);
    } else {
      DivMono(h * (TWO32 - 1), (h - 2) * TWO32 + (TWO32 - 1), TWO32);
      DivBy((h - 2) * TWO32 + (TWO32 - 1), h - 2, TWO32 - 1, TWO32);
    }
  }

  lemma AfterPeriods(y: seq<nat>, val: nat, k: nat)
    requires |y| == 32 && k <= 63
    ensures DecayBy(y, val, 32 * k) == MulShr32(Shr(val, k), y[0])
  {
    var n := 32 * k;
    DecayShape(y, val, n);
    assert n / 32 == k && n % 32 == 0;
  }

  lemma {:induction false} ShrIsDivision(v: nat, k: nat)
    ensures Shr(v, k) == v / Pow2(k)
  {
    ShrBounds(v, k);
    var q, p := Shr(v, k), Pow2(k);
    assert (q + 1) * p == q * p + p;
    DivBy(v, q, v - q * p, p);
  }

  /** k periods and i steps divide a load by 2^k and apply the table's i-th factor; past 63 periods nothing is left. */
  lemma PeriodsAndSteps(val: nat, k: nat, i: nat)
    requires i < 32
    ensures DecayLoad(val, 32 * k + i)
      == if k > 63 || (k == 63 && i > 0) then 0 else val / Pow2(k) * Y_INV[i] / TWO32
  {
    var n := 32 * k + i;
    assert n / 32 == k && n % 32 == i;
    DecayShape(Y_INV, val, n);
    ShrIsDivision(val, k);
  }

  /**
    k full periods are meant to halve a load k times.  The table's first entry is one short of
    2^32, so the result is that exactly when the halved load is 0, and one less exactly while it
    is between 1 and 2^32.  For k = 0 that says what no time at all takes from a load.
   */
  lemma WholePeriods(val: nat, k: nat)
    requires k <= 63
    ensures DecayLoad(val, 32 * k) == Shr(val, k) <==> Shr(val, k) == 0
    ensures DecayLoad(val, 32 * k) + 1 == Shr(val, k) <==> 1 <= Shr(val, k) <= TWO32
  {
    AfterPeriods(Y_INV, val, k);
    assert Y_INV[0] == TWO32 - 1;
    NearlyOne(Shr(val, k));
  }

  /** One period gives the half exactly for loads below 2, and one less exactly from 2 to 2^33 + 1. */
  lemma OnePeriodHalves(val: nat)
    ensures DecayLoad(val, 32) == val / 2 <==> val < 2
    ensures DecayLoad(val, 32) + 1 == val / 2 <==> 2 <= val <= 0x2_0000_0001
  {
    WholePeriods(val, 1);
    assert Shr(val, 1) == val / 2;
  }

  /** The factor of the next step: within a period the next entry, after its end half the first one. */
  ghost predicate Geometric(y: seq<nat>) {
    && Falling(y)
    && (forall i :: 0 <= i < 31 ==> y[i + 1] * TWO32 - 3 * TWO32 <= y[i] * y[1] <= y[i + 1] * TWO32)
    && y[0] * TWO31 - TWO32 <= y[31] * y[1] <= y[0] * TWO31
  }

  /** Every entry is the one before times the second one, to within three units; the last leads to half the first. */
  lemma TableIsGeometric()
    ensures Geometric(Y_INV)
  {
    TableFalls();
    GeometricFor(Y_INV, 0xfa83_b2da);
  }

  lemma GeometricFor(y: seq<nat>, y1: nat)
    requires y == Y_INV && y1 == 0xfa83_b2da
    ensures y[1] == y1
    ensures forall i :: 0 <= i < 31 ==> y[i + 1] * TWO32 - 3 * TWO32 <= y[i] * y1 <= y[i + 1] * TWO32
    ensures y[0] * TWO31 - TWO32 <= y[31] * y1 <= y[0] * TWO31
  {
  }

  /** a is v * y / 2^32, and y * y1 lies between two bounds: so a * y1 lies between theirs. */
  lemma Bracket(v: nat, y: nat, y1: nat, low: int, high: int)
    requires y1 < TWO32 && low <= y * y1 <= high
    ensures var a := MulShr32(v, y); a * y1 * TWO32 <= high * v && low * v <= (a * y1 + TWO32) * TWO32
  {
    var a := MulShr32(v, y);
    assert a * TWO32 <= v * y < a * TWO32 + TWO32;
    MulMono(low, y * y1, v);
    MulMono(y * y1, high, v);
    Slack(v * y, a, y1);
    assert v * y * y1 == y * y1 * v;
  }

  lemma Slack(x: nat, a: nat, y1: nat)
    requires a * TWO32 <= x < a * TWO32 + TWO32 && y1 < TWO32
    ensures a * y1 * TWO32 <= x * y1 <= (a * y1 + TWO32) * TWO32
  {
    MulMono(a * TWO32, x, y1);
    MulMono(x, a * TWO32 + TWO32, y1);
    assert a * TWO32 * y1 == a * y1 * TWO32;
    assert (a * TWO32 + TWO32) * y1 == a * y1 * TWO32 + y1 * TWO32;
  }

  lemma TimesLoad(z: nat, c: nat, d: nat, v: nat)
    ensures z * c * v == v * z * c
    ensures (z * c - d) * v == v * z * c - v * d
  {
    Distribute(z * c, d, v);
    assert z * c * v == v * z * c;
  }

  lemma StepWithin(v: nat, y: nat, y1: nat, z: nat)
    requires y1 < TWO32 && z * TWO32 - 3 * TWO32 <= y * y1 <= z * TWO32
    ensures MulShr32(v, y) * y1 <= MulShr32(v, z) * TWO32 + TWO32
    ensures MulShr32(v, z) * TWO32 <= MulShr32(v, y) * y1 + 3 * v + TWO32
  {
    Bracket(v, y, y1, z * TWO32 - 3 * TWO32, z * TWO32);
    TimesLoad(z, TWO32, 3 * TWO32, v);
    StepSums(MulShr32(v, y) * y1, v * z, MulShr32(v, z), v);
  }

  lemma StepSums(p: nat, w: nat, b: nat, v: nat)
    requires p * TWO32 <= w * TWO32 && w * TWO32 - v * (3 * TWO32) <= (p + TWO32) * TWO32
    requires b == w / TWO32
    ensures p <= b * TWO32 + TWO32 && b * TWO32 <= p + 3 * v + TWO32
  {
  }

  lemma BoundaryWithin(v: nat, y: nat, y1: nat, z: nat)
    requires y1 < TWO32 && z < TWO32 && z * TWO31 - TWO32 <= y * y1 <= z * TWO31
    ensures MulShr32(v, y) * y1 <= MulShr32(v / 2, z) * TWO32 + 2 * TWO32
    ensures MulShr32(v / 2, z) * TWO32 <= MulShr32(v, y) * y1 + v + TWO32
  {
    Bracket(v, y, y1, z * TWO31 - TWO32, z * TWO31);
    TimesLoad(z, TWO31, TWO32, v);
    HalfTimes(v, v / 2, z);
    BoundarySums(MulShr32(v, y) * y1, v * z, v / 2 * z, MulShr32(v / 2, z), v);
  }

  lemma BoundarySums(p: nat, w: nat, h: nat, b: nat, v: nat)
    requires p * TWO32 <= w * TWO31 && w * TWO31 - v * TWO32 <= (p + TWO32) * TWO32
    requires 2 * h <= w <= 2 * h + TWO32 && b == h / TWO32
    ensures p <= b * TWO32 + 2 * TWO32 && b * TWO32 <= p + v + TWO32
  {
  }

  lemma HalfTimes(v: nat, h: nat, z: nat)
    requires h == v / 2
    ensures 2 * (h * z) <= v * z <= 2 * (h * z) + z
  {
    MulMono(2 * h, v, z);
    MulMono(v, 2 * h + 1, z);
    DoubleProduct(h, z);
    assert (2 * h + 1) * z == 2 * h * z + z;
  }

  /**
    The decay is geometric: up to the cut-off every step multiplies a load by Y_INV[1] / 2^32, to
    within two units above and one unit and three parts in 2^32 of the shifted load below.
   */
  lemma DecayIsGeometric(val: nat, n: nat)
    requires n < 2016
    ensures DecayLoad(val, n) * Y_INV[1] <= DecayLoad(val, n + 1) * TWO32 + 2 * TWO32
    ensures DecayLoad(val, n + 1) * TWO32 <= DecayLoad(val, n) * Y_INV[1] + 3 * Shr(val, n / 32) + TWO32
  {
    TableIsGeometric();
    DecayByIsGeometric(Y_INV, val, n);
  }

  lemma DecayByIsGeometric(y: seq<nat>, val: nat, n: nat)
    requires |y| == 32 && n < 2016
    ensures Geometric(y) ==>
      && DecayBy(y, val, n) * y[1] <= DecayBy(y, val, n + 1) * TWO32 + 2 * TWO32
      && DecayBy(y, val, n + 1) * TWO32 <= DecayBy(y, val, n) * y[1] + 3 * Shr(val, n / 32) + TWO32
  {
    DecayShape(y, val, n);
    DecayShape(y, val, n + 1);
    var v := Shr(val, n / 32);
    if !Geometric(y) {
    } else if n % 32 == 31 {
      assert (n + 1) / 32 == n / 32 + 1 && (n + 1) % 32 == 0;
      BoundaryWithin(v, y[31], y[1], y[0]);
    } else {
      var i := n % 32;
      assert (n + 1) / 32 == n / 32 && (n + 1) % 32 == i + 1;
      StepWithin(v, y[i], y[1], y[i + 1]);
    }
  }

  /** The probe's own example: 1024 decays to 511 over one period, not to 512. */
  lemma DecayOf1024()
    ensures DecayLoad(1024, 32) == 511
  {
    OnePeriodHalves(1024);
  }

  // ----- The load sum

  function NextSum(s: nat): nat {
    MulShr32(s, Y_INV[1]) + 1024
  }

  function SumAfter(s: nat, n: nat): nat {
    if n == 0 then s else NextSum(SumAfter(s, n - 1))
  }

  /** 2^32 less the table's second entry. */
  const LOSS := 0x57c_4d26

  /** A step from s gains at least p exactly while the loss on s leaves p of the 1024 added. */
  lemma Gain(s: nat, p: int)
    requires s * LOSS <= (1024 - p) * TWO32
    ensures NextSum(s) >= s + p
  {
    assert Y_INV[1] == TWO32 - LOSS;
    assert s * Y_INV[1] == s * TWO32 - s * LOSS;
    if s - 1024 + p >= 0 {
      DivMono((s - 1024 + p) * TWO32, s * Y_INV[1], TWO32);
      DivBy((s - 1024 + p) * TWO32, s - 1024 + p, 0, TWO32);
    }
  }

  /** From anywhere in 0 .. 47742 a step never goes down, never leaves the range, and stops only at the top. */
  lemma SumStep(s: nat)
    requires s <= LOAD_AVG_MAX
    ensures s <= NextSum(s) <= LOAD_AVG_MAX
    ensures NextSum(s) == s <==> s == LOAD_AVG_MAX
  {
    if s < LOAD_AVG_MAX {
      Gain(s, 1);
    }
    MulShrMono(s, LOAD_AVG_MAX, Y_INV[1], Y_INV[1]);
    assert NextSum(LOAD_AVG_MAX) == LOAD_AVG_MAX;
  }

  lemma {:induction false} SumStaysInRange(s: nat, n: nat, m: nat)
    requires s <= LOAD_AVG_MAX && n <= m
    ensures SumAfter(s, n) <= SumAfter(s, m) <= LOAD_AVG_MAX
    decreases m
  {
    if m > 0 {
      SumStaysInRange(s, if n < m then n else m - 1, m - 1);
      SumStep(SumAfter(s, m - 1));
    }
  }

  /** While the sum is below a limit that guarantees a gain of p, n steps gain n * p. */
  lemma {:induction false} Climb(s: nat, limit: nat, p: nat, k: nat, n: nat)
    requires s <= LOAD_AVG_MAX && 0 < limit <= LOAD_AVG_MAX && (limit - 1) * LOSS <= (1024 - p) * TWO32
    ensures SumAfter(s, k + n) >= limit || SumAfter(s, k + n) >= SumAfter(s, k) + n * p
  {
    if n > 0 {
      Climb(s, limit, p, k, n - 1);
      SumStaysInRange(s, 0, k + n - 1);
      var x := SumAfter(s, k + n - 1);
      SumStep(x);
      if x < limit {
        Gain(x, p);
        Distribute(n, 1, p);
      }
    }
  }

  /** From any start in the range the sum has converged after 486 steps. */
  lemma SumConverges(s: nat, n: nat)
    requires s <= LOAD_AVG_MAX && n >= 486
    ensures SumAfter(s, n) == LOAD_AVG_MAX
  {
    Climb(s, 14974, 703, 0, 22);
    Climb(s, 31358, 352, 22, 47);
    Climb(s, 39550, 176, 69, 47);
    Climb(s, 43646, 88, 116, 47);
    Climb(s, 45694, 44, 163, 47);
    Climb(s, 46718, 22, 210, 47);
    Climb(s, 47230, 11, 257, 47);
    Climb(s, 47486, 6, 304, 43);
    Climb(s, 47614, 3, 347, 43);
    Climb(s, 47678, 2, 390, 32);
    Climb(s, 47742, 1, 422, 64);
    SumStaysInRange(s, 486, n);
  }

  /** The probe's loop arrives at LOAD_AVG_MAX well before its bound of 1000 steps. */
  method ConvergedSum() returns (sum: nat, n: nat)
    ensures sum == LOAD_AVG_MAX
    ensures n <= 486
  {
    sum := 1024;
    n := 0;
    while n < 1000
      invariant n <= 486
      invariant sum == SumAfter(1024, n) <= LOAD_AVG_MAX
      decreases 1000 - n
    {
      var next := MulShr32(sum, Y_INV[1]) + 1024;
      SumStep(sum);
      if next == sum {
        break;
      }
      if n == 486 {
        SumConverges(1024, 486);
      }
      sum := next;
      n := n + 1;
    }
  }
}
