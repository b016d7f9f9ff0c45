/**
 `SystemCoreClockUpdate`: the core clock from the RCC registers, in 32-bit unsigned arithmetic.
 Registers are numbers; a masked and shifted field is a quotient and a remainder by powers of two.
 */
module SystemClock {
  import opened Arithmetic

  const UINT32: nat := 0x1_0000_0000
  const HSI_VALUE: nat := 16000000
  const HSE_VALUE: nat := 25000000

  const AHB_PRESC_TABLE: seq<nat> := [0, 0, 0, 0, 0, 0, 0, 0, 1, 2, 3, 4, 6, 7, 8, 9]

  /** What the registers select: the clock source, and for the PLL its input, dividers and factor. */
  datatype Source = Hsi | Hse | Pll(fromHse: bool, m: nat, n: nat, p: nat)

  function Decode(cfgr: nat, pllcfgr: nat): (s: Source)
    ensures s.Pll? ==> s.m < 64 && s.n < 512 && s.p in {2, 4, 6, 8}
  {
    match cfgr / 4 % 4
    case 1 => Hse
    case 2 =>
      Pll(pllcfgr / 0x40_0000 % 2 == 1, pllcfgr % 64, pllcfgr / 64 % 512, 2 * (pllcfgr / 0x1_0000 % 4) + 2)
    case _ => Hsi
  }

  function Shift(cfgr: nat): (shift: nat)
    ensures shift <= 9
  {
    AHB_PRESC_TABLE[cfgr / 16 % 16]
  }

  /** A PLL register with the given settings in their fields and any values in the bits between. */
  function PllRegister(s: Source, bit15: nat, bits18: nat, bits23: nat): nat
    requires s.Pll? && s.p >= 2
  {
    var source := (if s.fromHse then 1 else 0) + 2 * bits23;
    s.m + 64 * (s.n + 512 * (bit15 + 2 * (s.p / 2 - 1 + 4 * (bits18 + 16 * source))))
  }

  /** Settings written into the registers are decoded, whatever the other bits hold. */
  lemma DecodeRegister(s: Source, cfgr: nat, bit15: nat, bits18: nat, bits23: nat)
    requires s.Pll? && s.m < 64 && s.n < 512 && s.p in {2, 4, 6, 8}
    requires cfgr / 4 % 4 == 2 && bit15 < 2 && bits18 < 16 && bits23 < 512
    ensures Decode(cfgr, PllRegister(s, bit15, bits18, bits23)) == s
  {
    var x, src := PllRegister(s, bit15, bits18, bits23), if s.fromHse then 1 else 0;
    var k5 := src + 2 * bits23;
    var k3 := s.p / 2 - 1 + 4 * (bits18 + 16 * k5);
    var k1 := s.n + 512 * (bit15 + 2 * k3);
    QuotientUnique(x, 64, k1, s.m);
    QuotientUnique(k1, 512, bit15 + 2 * k3, s.n);
    QuotientUnique(x, 0x1_0000, k3, s.m + 64 * s.n + 0x8000 * bit15);
    QuotientUnique(k3, 4, bits18 + 16 * k5, s.p / 2 - 1);
    QuotientUnique(x, 0x40_0000, k5, s.m + 64 * s.n + 0x8000 * bit15 + 0x1_0000 * (s.p / 2 - 1) + 0x4_0000 * bits18);
    QuotientUnique(k5, 2, bits23, src);
  }

  lemma QuotientUnique(x: nat, d: nat, q: nat, r: nat)
    requires d > 0 && x == d * q + r && r < d
    ensures x / d == q && x % d == r
  {
    var q' := x / d;
    if q' > q {
      MulMono(q + 1, q', d);
      Distribute(q, 1, d);
    } else if q' < q {
      MulMono(q' + 1, q, d);
      Distribute(q', 1, d);
    }
  }

  /** Masking a field in place and shifting it down is shifting first and masking the low bits. */
  lemma MaskThenShift(x: nat, low: nat, width: nat)
    requires low > 0 && width > 0
    ensures low * width > 0 && x % (low * width) / low == x / low % width
  {
    var y, t := x / low, x % low;
    var k, v := y / width, y % width;
    Euclid(x, low);
    Euclid(y, width);
    FieldParts(x, low, width, y, t, k, v);
    QuotientUnique(x, low * width, k, v * low + t);
    QuotientUnique(v * low + t, low, v, t);
  }

  lemma FieldParts(x: nat, low: nat, width: nat, y: nat, t: nat, k: nat, v: nat)
    requires x == y * low + t && t < low && y == k * width + v && v < width
    ensures x == low * width * k + (v * low + t) && 0 <= v * low + t < low * width
  {
    Distribute(k * width, v, low);
    Regroup(k, width, low);
    MulMono(v + 1, width, low);
    Distribute(v, 1, low);
  }

  function SourceHz(fromHse: bool): nat {
    if fromHse then HSE_VALUE else HSI_VALUE
  }

  /** The product inside the PLL computation fits in 32 bits. */
  predicate NoOverflow(f: nat, m: nat, n: nat)
    requires m > 0
  {
    f / m * n < UINT32
  }

  predicate Fits(source: Source)
    requires source.Pll? ==> source.m > 0
  {
    source.Pll? ==> NoOverflow(SourceHz(source.fromHse), source.m, source.n)
  }

  /** What the three truncating 32-bit steps leave of `f * n / (m * p * s)`. */
  function PllHz(f: nat, m: nat, n: nat, p: nat, s: nat): nat
    requires m > 0 && p > 0 && s > 0
  {
    f / m * n % UINT32 / p / s
  }

  /** Without rounding: the PLL product `x` divided by the input divider `m` and by the output dividers `d`. */
  function Divided(x: real, m: real, d: real): real
    requires m > 0.0 && d > 0.0
  {
    x / (d * m)
  }

  /** A clock `r` is at most `exact`, and below it by less than `ratio + 1`. */
  predicate Accurate(r: real, exact: real, ratio: real) {
    r <= exact && exact - r < ratio + 1.0
  }

  /** A clock of `r` Hz is what the source asks for after division by `s`, up to rounding down. */
  predicate Right(r: nat, source: Source, s: nat)
    requires s > 0 && (source.Pll? ==> source.m > 0 && source.p > 0)
  {
    match source
    case Hsi => Accurate(r as real, HSI_VALUE as real / s as real, 0.0)
    case Hse => Accurate(r as real, HSE_VALUE as real / s as real, 0.0)
    case Pll(fromHse, m, n, p) => PllRight(r, SourceHz(fromHse), m, n, p, s)
  }

  predicate PllRight(r: nat, f: nat, m: nat, n: nat, p: nat, s: nat)
    requires m > 0 && p > 0 && s > 0
  {
    Accurate(r as real,
             Divided(f as real * n as real, m as real, p as real * s as real),
             n as real / (p as real * s as real))
  }

  /** The clock computed for a source before the last division. */
  function CoreHz(source: Source): nat
    requires source.Pll? ==> source.m > 0 && source.p > 0
  {
    match source
    case Hsi => HSI_VALUE
    case Hse => HSE_VALUE
    case Pll(fromHse, m, n, p) => PllHz(SourceHz(fromHse), m, n, p, 1)
  }

  /** The clock computed for `source` and the last divider `s`, which is right exactly without overflow. */
  predicate IsClock(r: nat, source: Source, s: nat)
    requires s > 0 && (source.Pll? ==> source.m > 0 && source.p > 0)
  {
    r == CoreHz(source) / s && (Right(r, source, s) <==> Fits(source))
  }

  /** The divider between core and bus clock, by the prescaler field. */
  function BusDivider(hpre: nat): (d: nat)
    ensures d > 0
  {
    if hpre < 8 then 1
    else if hpre == 8 then 2
    else if hpre == 9 then 4
    else if hpre == 10 then 8
    else if hpre == 11 then 16
    else if hpre == 12 then 64
    else if hpre == 13 then 128
    else if hpre == 14 then 256
    else 512
  }

  lemma SmallPowers()
    ensures Pow2(0) == 1 && Pow2(1) == 2 && Pow2(2) == 4 && Pow2(3) == 8 && Pow2(4) == 16
    ensures Pow2(6) == 64 && Pow2(7) == 128 && Pow2(8) == 256 && Pow2(9) == 512
  {
    assert Pow2(1) == 2 && Pow2(2) == 4 && Pow2(3) == 8 && Pow2(4) == 16 && Pow2(5) == 32;
    assert Pow2(6) == 64 && Pow2(7) == 128 && Pow2(8) == 256;
  }

  /** The prescaler table holds the exponents of the dividers. */
  lemma ShiftIsDivider(cfgr: nat)
    ensures Pow2(Shift(cfgr)) == BusDivider(cfgr / 16 % 16)
  {
    SmallPowers();
  }

  /** The PLL clock in 32 bits, from a source of `f` Hz. */
  function PllFrom(f: nat, m: nat, n: nat, p: nat): nat
    requires m > 0 && p > 0
  {
    f / m * n % 0x1_0000_0000 / p
  }

  /** The stored clock, by the register fields alone. */
  predicate ByFields(cfgr: nat, pllcfgr: nat, clock: nat)
    requires cfgr / 4 % 4 == 2 ==> pllcfgr % 64 > 0
  {
    var sws, d := cfgr / 4 % 4, BusDivider(cfgr / 16 % 16);
    && (sws == 0 || sws == 3 ==> clock == 16000000 / d)
    && (sws == 1 ==> clock == 25000000 / d)
    && (sws == 2 && pllcfgr / 0x40_0000 % 2 == 1 ==>
          clock == PllFrom(25000000, pllcfgr % 64, pllcfgr / 64 % 512, 2 * (pllcfgr / 0x1_0000 % 4) + 2) / d)
    && (sws == 2 && pllcfgr / 0x40_0000 % 2 == 0 ==>
          clock == PllFrom(16000000, pllcfgr % 64, pllcfgr / 64 % 512, 2 * (pllcfgr / 0x1_0000 % 4) + 2) / d)
  }

  /** `hz / d` is what the fields say. */
  lemma CoreByFields(cfgr: nat, pllcfgr: nat)
    requires Decode(cfgr, pllcfgr).Pll? ==> Decode(cfgr, pllcfgr).m > 0
    ensures cfgr / 4 % 4 == 2 ==> pllcfgr % 64 > 0
    ensures ByFields(cfgr, pllcfgr, CoreHz(Decode(cfgr, pllcfgr)) / Pow2(Shift(cfgr)))
  {
    ShiftIsDivider(cfgr);
    if cfgr / 4 % 4 == 2 {
      var src, m, n, p := pllcfgr / 0x40_0000 % 2, pllcfgr % 64, pllcfgr / 64 % 512, 2 * (pllcfgr / 0x1_0000 % 4) + 2;
      assert Decode(cfgr, pllcfgr) == Pll(src == 1, m, n, p);
      OneStep(if src == 1 then 25000000 else 16000000, m, n, p);
    }
  }

  lemma OneStep(f: nat, m: nat, n: nat, p: nat)
    requires m > 0 && p > 0
    ensures PllHz(f, m, n, p, 1) == PllFrom(f, m, n, p)
  {
  }

  /** The board's settings: the PLL from the external source with M = 15, N = 144 and P = 2. */
  lemma BoardClock()
    ensures PllFrom(25000000, 15, 144, 2) == 119999952
  {
  }

  class Rcc {
    var CFGR: nat
    var PLLCFGR: nat
    var SystemCoreClock: nat

    /** The masks and shifts that read the PLL register. */
    method ReadPll() returns (pllsource: nat, pllm: nat, plln: nat, pllp: nat)
      ensures pllsource == PLLCFGR / 0x40_0000 % 2 && pllm == PLLCFGR % 64
      ensures plln == PLLCFGR / 64 % 512 && pllp == 2 * (PLLCFGR / 0x1_0000 % 4) + 2
    {
      MaskThenShift(PLLCFGR, 0x40_0000, 2);
      MaskThenShift(PLLCFGR, 64, 512);
      MaskThenShift(PLLCFGR, 0x1_0000, 4);
      pllsource := PLLCFGR % 0x80_0000 / 0x40_0000;
      pllm := PLLCFGR % 64;
      plln := PLLCFGR % 0x8000 / 64;
      pllp := (PLLCFGR % 0x4_0000 / 0x1_0000 + 1) * 2;
    }

    /** The core clock before the bus prescaler. */
    method CoreClock() returns (hz: nat)
      requires Decode(CFGR, PLLCFGR).Pll? ==> Decode(CFGR, PLLCFGR).m > 0
      ensures hz == CoreHz(Decode(CFGR, PLLCFGR))
    {
      MaskThenShift(CFGR, 4, 4);
      var tmp := CFGR % 16 / 4 * 4;
      if tmp == 0x00 {
        hz := HSI_VALUE;
      } else if tmp == 0x04 {
        hz := HSE_VALUE;
      } else if tmp == 0x08 {
        var pllsource, pllm, plln, pllp := ReadPll();
        var pllvco := if pllsource != 0 then HSE_VALUE / pllm * plln else HSI_VALUE / pllm * plln;
        hz := pllvco % UINT32 / pllp;
      } else {
        hz := HSI_VALUE;
      }
    }

    /**
     The clock is right exactly when the PLL, if it is the source, does not overflow. The input
     divider of zero is reserved; the source divides by it unchecked.
     */
    method SystemCoreClockUpdate()
      requires CFGR / 4 % 4 == 2 ==> PLLCFGR % 64 > 0
      modifies `SystemCoreClock
      ensures ByFields(CFGR, PLLCFGR, SystemCoreClock)
      ensures IsClock(SystemCoreClock, Decode(CFGR, PLLCFGR), Pow2(Shift(CFGR)))
    {
      var hz := CoreClock();
      SmallShift(Shift(CFGR));
      ClockIsRight(Decode(CFGR, PLLCFGR), Pow2(Shift(CFGR)));
      CoreByFields(CFGR, PLLCFGR);
      SystemCoreClock := Quotient(hz, Pow2(Shift(CFGR)));
    }
  }

  /** A right shift, as the division by a power of two that it is. */
  function Quotient(x: nat, d: nat): nat
    requires d > 0
  {
    x / d
  }

  lemma SmallShift(shift: nat)
    requires shift <= 9
    ensures Pow2(shift) <= 512
  {
    assert Pow2(9) == 512 by {
      assert Pow2(1) == 2 && Pow2(2) == 4 && Pow2(3) == 8 && Pow2(4) == 16 && Pow2(5) == 32;
      assert Pow2(6) == 64 && Pow2(7) == 128 && Pow2(8) == 256;
    }
    Pow2Mono(shift, 9);
  }

  lemma {:induction false} Pow2Mono(a: nat, b: nat)
    requires a <= b
    ensures Pow2(a) <= Pow2(b)
  {
    if a < b {
      Pow2Mono(a, b - 1);
    }
  }

  /** The last division, for every source: by the PLL's converse bound it is right only without overflow. */
  lemma ClockIsRight(source: Source, s: nat)
    requires 0 < s <= 512 && (source.Pll? ==> source.m > 0 && source.n < 512 && source.p in {2, 4, 6, 8})
    ensures IsClock(CoreHz(source) / s, source, s)
  {
    match source
    case Hsi => TruncatedOnce(HSI_VALUE, s);
    case Hse => TruncatedOnce(HSE_VALUE, s);
    case Pll(fromHse, m, n, p) =>
      MulMono(p, 8, s);
      assert PllHz(SourceHz(fromHse), m, n, p, s) == CoreHz(source) / s;
      ClockError(SourceHz(fromHse), m, n, p, s);
  }

  lemma TruncatedOnce(f: nat, s: nat)
    requires s > 0
    ensures Accurate((f / s) as real, f as real / s as real, 0.0)
  {
    var q := f / s;
    Euclid(f, s);
    Distribute(q, 1, s);
    ProductAsReal(q, s);
    ProductAsReal(q + 1, s);
    QuotientBounds(q as real, f as real, s as real);
    QuotientBounds(q as real + 1.0, f as real, s as real);
  }

  // ---- how far the three truncations can be off ----

  lemma Distribute(a: int, b: int, c: int)
    ensures (a + b) * c == a * c + b * c
  {
  }

  lemma Euclid(x: nat, d: nat)
    requires d > 0
    ensures x == x / d * d + x % d && 0 <= x % d < d && x / d >= 0
  {
  }

  lemma Regroup(a: int, b: int, c: int)
    ensures a * b * c == a * (b * c) == a * c * b
  {
  }

  /** Two truncating divisions are one division by the product. */
  lemma DivDivParts(x: nat, a: nat, b: nat, y: nat, q: nat, r: nat, t: nat)
    requires x == y * a + t && y == q * b + r && t < a && r < b
    ensures 0 <= r * a + t < a * b && x == q * (a * b) + (r * a + t)
  {
    Distribute(q * b, r, a);
    Regroup(q, b, a);
    MulMono(r + 1, b, a);
    Distribute(r, 1, a);
  }

  /** `f*N` lies between the multiples of `M*D` around the result `r`, widened by `N*M`. */
  lemma TruncationParts(f: nat, m: nat, n: nat, d: nat, q: nat, t: nat, r: nat, e: nat)
    requires f == q * m + t && t < m && q * n == r * d + e && e < d
    ensures r * (d * m) <= f * n < (r + 1) * (d * m) + n * m || n == 0
    ensures n == 0 ==> r == 0
  {
    Distribute(q * m, t, n);
    Regroup(q, m, n);
    Regroup(q, n, m);
    Distribute(r * d, e, m);
    Regroup(r, d, m);
    Distribute(r, 1, d * m);
    MulMono(e, d, m);
    if n > 0 {
      assert t * n < n * m;
    }
  }

  lemma {:induction false} ProductAsReal(a: nat, b: nat)
    ensures (a * b) as real == a as real * b as real
  {
    if a > 0 {
      ProductAsReal(a - 1, b);
      Distribute(a - 1, 1, b);
    }
  }

  lemma QuotientBounds(a: real, x: real, d: real)
    requires d > 0.0
    ensures a * d <= x ==> a <= x / d
    ensures x < a * d ==> x / d < a
  {
    var q := x / d;
    assert q * d == x;
    if a > q {
      assert a * d > q * d;
    } else {
      assert a * d <= q * d;
    }
  }

  lemma ScaledQuotient(n: real, d: real, m: real)
    requires d > 0.0
    ensures n / d * (d * m) == n * m
  {
    var q := n / d;
    assert q * d == n;
    assert q * (d * m) == q * d * m;
  }

  /** `r` is the truncation of `x / (m*d)`, up to an error of `n*m` in the numerator. */
  predicate Sandwiched(x: real, m: real, n: real, d: real, r: real) {
    || r * (d * m) <= x < (r + 1.0) * (d * m) + n * m
    || (n == 0.0 && x == 0.0 && r == 0.0)
  }

  lemma BoundInReals(x: real, m: real, n: real, d: real, r: real)
    requires m > 0.0 && d > 0.0 && n >= 0.0
    requires Sandwiched(x, m, n, d, r)
    ensures Accurate(r, Divided(x, m, d), n / d)
  {
    assert d * m > 0.0;
    if n == 0.0 && x == 0.0 && r == 0.0 {
    } else {
      ScaledQuotient(n, d, m);
      QuotientBounds(r, x, d * m);
      assert (r + 1.0 + n / d) * (d * m) == (r + 1.0) * (d * m) + n / d * (d * m);
      QuotientBounds(r + 1.0 + n / d, x, d * m);
    }
  }

  lemma SandwichInReals(f: nat, m: nat, n: nat, d: nat, r: nat)
    requires r * (d * m) <= f * n < (r + 1) * (d * m) + n * m || (n == 0 && r == 0)
    ensures Sandwiched(f as real * n as real, m as real, n as real, d as real, r as real)
  {
    var dm := d * m;
    ProductAsReal(f, n);
    ProductAsReal(d, m);
    ProductAsReal(n, m);
    ProductAsReal(r, dm);
    ProductAsReal(r + 1, dm);
    CastSandwich(r * dm, f * n, (r + 1) * dm, n * m);
  }

  lemma CastSandwich(low: nat, x: nat, high: nat, slack: nat)
    ensures low <= x < high + slack ==> low as real <= x as real < high as real + slack as real
  {
  }

  lemma AccurateParts(f: nat, m: nat, n: nat, d: nat, q: nat, t: nat, r: nat, e: nat)
    requires m > 0 && d > 0
    requires f == q * m + t && t < m && q * n == r * d + e && e < d
    ensures Accurate(r as real, Divided(f as real * n as real, m as real, d as real), n as real / d as real)
  {
    TruncationParts(f, m, n, d, q, t, r, e);
    SandwichInReals(f, m, n, d, r);
    BoundInReals(f as real * n as real, m as real, n as real, d as real, r as real);
  }

  lemma AccurateForDividers(f: nat, m: nat, n: nat, p: nat, s: nat, q: nat, t: nat, y: nat, t1: nat, r: nat, e1: nat)
    requires m > 0 && p > 0 && s > 0
    requires f == q * m + t && t < m && q * n == y * p + t1 && t1 < p && y == r * s + e1 && e1 < s
    ensures PllRight(r, f, m, n, p, s)
  {
    DivDivParts(q * n, p, s, y, r, e1, t1);
    ProductAsReal(p, s);
    assert p * s > 0;
    AccurateParts(f, m, n, p * s, q, t, r, e1 * p + t1);
    SameBound(r, f as real * n as real, m as real, n as real, (p * s) as real, p as real * s as real);
  }

  lemma SameBound(r: nat, x: real, m: real, n: real, d: real, d': real)
    requires m > 0.0 && d > 0.0 && d == d'
    ensures Accurate(r as real, Divided(x, m, d), n / d) <==> Accurate(r as real, Divided(x, m, d'), n / d')
  {
  }

  /** Without overflow the clock is at most `f*N/(M*P*s)`, and below it by less than `N/(P*s) + 1`. */
  lemma RightWithoutOverflow(f: nat, m: nat, n: nat, p: nat, s: nat)
    requires m > 0 && p > 0 && s > 0 && NoOverflow(f, m, n)
    ensures PllRight(PllHz(f, m, n, p, s), f, m, n, p, s)
  {
    var q := f / m;
    var y := q * n / p;
    Euclid(f, m);
    Euclid(q * n, p);
    Euclid(y, s);
    AccurateForDividers(f, m, n, p, s, q, f % m, y, q * n % p, y / s, y % s);
  }

  predicate Bounds(r: real, x: real, m: real, n: real, d: real)
    requires m > 0.0 && d > 0.0
  {
    r <= x / (d * m) && x / (d * m) < r + n / d + 1.0
  }

  lemma AccurateInFull(r: real, x: real, m: real, n: real, d: real)
    requires m > 0.0 && d > 0.0
    ensures Accurate(r, Divided(x, m, d), n / d) <==> Bounds(r, x, m, n, d)
  {
  }

  /** The bounds in full: at most the exact clock, and below it by less than `N/(P*s) + 1`. */
  lemma RightInFull(r: nat, f: nat, m: nat, n: nat, p: nat, s: nat)
    requires m > 0 && p > 0 && s > 0
    ensures var x, d := f as real * n as real, p as real * s as real;
            PllRight(r, f, m, n, p, s) <==> Bounds(r as real, x, m as real, n as real, d)
    ensures NoOverflow(f, m, n) <==> f / m * n < 4294967296
  {
    var x, d := f as real * n as real, p as real * s as real;
    AccurateInFull(r as real, x, m as real, n as real, d);
    assert PllRight(r, f, m, n, p, s) == Accurate(r as real, Divided(x, m as real, d), n as real / d);
    assert Accurate(r as real, Divided(x, m as real, d), n as real / d) ==
           Bounds(r as real, x, m as real, n as real, d);
  }

  // ---- and why an overflow is never hidden by the truncations ----

  lemma WrappedParts(f: nat, m: nat, n: nat, p: nat, s: nat, q: nat, t: nat, w: nat, y: nat, t1: nat, r: nat, e1: nat)
    requires m > 0 && p > 0 && s > 0 && n < 512 && p * s <= 4096
    requires f == q * m + t && w + UINT32 <= q * n
    requires w == y * p + t1 && t1 < p && y == r * s + e1 && e1 < s
    ensures (r * (p * s) + p * s + n) * m <= f * n
  {
    DivDivParts(w, p, s, y, r, e1, t1);
    MulMono(r * (p * s) + p * s + n, q * n, m);
    Distribute(q * m, t, n);
    Regroup(q, m, n);
    Regroup(q, n, m);
  }

  lemma FarBelow(x: real, m: real, n: real, d: real, r: real)
    requires m > 0.0 && d > 0.0 && (r * d + d + n) * m <= x
    ensures !Accurate(r, Divided(x, m, d), n / d)
  {
    assert d * m > 0.0;
    ScaledQuotient(n, d, m);
    assert (r + 1.0 + n / d) * (d * m) == (r + 1.0) * (d * m) + n / d * (d * m);
    assert (r * d + d + n) * m == (r + 1.0) * (d * m) + n * m;
    QuotientBounds(r + 1.0 + n / d, x, d * m);
  }

  lemma FarBelowInIntegers(f: nat, m: nat, n: nat, p: nat, s: nat, r: nat)
    requires m > 0 && p > 0 && s > 0 && (r * (p * s) + p * s + n) * m <= f * n
    ensures !PllRight(r, f, m, n, p, s)
  {
    var d := p * s;
    var low := r * d + d + n;
    ProductAsReal(p, s);
    ProductAsReal(r, d);
    ProductAsReal(f, n);
    ProductAsReal(low, m);
    assert d > 0;
    FarBelow(f as real * n as real, m as real, n as real, d as real, r as real);
    SameBound(r, f as real * n as real, m as real, n as real, d as real, p as real * s as real);
  }

  lemma WrongWithOverflow(f: nat, m: nat, n: nat, p: nat, s: nat)
    requires m > 0 && p > 0 && s > 0 && n < 512 && p * s <= 4096 && !NoOverflow(f, m, n)
    ensures !PllRight(PllHz(f, m, n, p, s), f, m, n, p, s)
  {
    var q := f / m;
    var w := q * n % UINT32;
    var y := w / p;
    Euclid(f, m);
    assert w + UINT32 <= q * n;
    Euclid(w, p);
    Euclid(y, s);
    WrappedParts(f, m, n, p, s, q, f % m, w, y, w % p, y / s, y % s);
    FarBelowInIntegers(f, m, n, p, s, y / s);
  }

  /**
   For every source frequency and all register values, the clock is at most `f*N/(M*P*s)` and below
   it by less than `N/(P*s) + 1` if and only if the PLL product fits in 32 bits.
   */
  lemma ClockError(f: nat, m: nat, n: nat, p: nat, s: nat)
    requires m > 0 && p > 0 && s > 0 && n < 512 && p * s <= 4096
    ensures PllRight(PllHz(f, m, n, p, s), f, m, n, p, s) <==> NoOverflow(f, m, n)
  {
    if NoOverflow(f, m, n) {
      RightWithoutOverflow(f, m, n, p, s);
    } else {
      WrongWithOverflow(f, m, n, p, s);
    }
  }

  /** The external source: the product fits exactly in these cases. */
  lemma HseOverflow(m: nat, n: nat)
    requires 0 < m < 64 && n < 512
    ensures NoOverflow(25000000, m, n) <==> m >= 3 || (m == 2 && n <= 343) || (m == 1 && n <= 171)
  {
    if m >= 3 {
      assert HSE_VALUE / m <= 8333333;
      MulMono(HSE_VALUE / m, 8333333, n);
    }
  }

  /** The internal source likewise. */
  lemma HsiOverflow(m: nat, n: nat)
    requires 0 < m < 64 && n < 512
    ensures NoOverflow(16000000, m, n) <==> m >= 2 || n <= 268
  {
    if m >= 2 {
      assert HSI_VALUE / m <= 8000000;
      MulMono(HSI_VALUE / m, 8000000, n);
    }
  }
}
