/** What the conversion from spectral pairs to filter coefficients computes: the coefficients of
    F1(z) (1 + z^-1) + F2(z) (1 - z^-1), halved, where F1 and F2 are the products of 1 - 2 q z^-1 + z^-2 over every
    second pair. The steps round; what five of them lose together is below a fifth of the last bit. */
module SpectralPolynomials {
  import opened FixedPoint
  import opened ExtendedPrecision
  import opened Synthesis

  // ---- the exact polynomials ----

  /** Coefficient p of the product of the first n factors, each scaled by 2^14. */
  function Coefficient(q: seq<int>, n: nat, p: int): int
    requires n <= |q|
    decreases n
  {
    if n == 0 then (if p == 0 then 1 else 0)
    else
      0x4000 * Coefficient(q, n - 1, p) - Times(q[n - 1], Coefficient(q, n - 1, p - 1))
      + 0x4000 * Coefficient(q, n - 1, p - 2)
  }

  function Scale(n: nat): (s: int)
    ensures s > 0
  {
    if n <= 1 then 1 else 0x4000 * Scale(n - 1)
  }

  lemma {:induction false} Outside(q: seq<int>, n: nat, p: int)
    requires n <= |q| && p < 0
    ensures Coefficient(q, n, p) == 0
  {
    hide Times;
    if n > 0 {
      ByZero(q[n - 1]);
      Outside(q, n - 1, p);
      Outside(q, n - 1, p - 1);
      Outside(q, n - 1, p - 2);
    }
  }

  lemma ByZero(a: int)
    ensures Times(a, 0) == 0
  {
  }

  lemma {:induction false} Leading(q: seq<int>, n: nat)
    requires n <= |q|
    ensures Coefficient(q, n, 0) == Scale(n + 1)
  {
    hide Times;
    if n > 0 {
      ByZero(q[n - 1]);
      Leading(q, n - 1);
      Outside(q, n - 1, -1);
      Outside(q, n - 1, -2);
    }
  }

  /** The products read the same from both ends. */
  lemma {:induction false} Palindrome(q: seq<int>, n: nat, p: int)
    requires n <= |q|
    ensures Coefficient(q, n, p) == Coefficient(q, n, 2 * n - p)
  {
    if n > 0 {
      Palindrome(q, n - 1, p);
      Palindrome(q, n - 1, p - 1);
      Palindrome(q, n - 1, p - 2);
    }
  }

  // ---- the conversion stays close to them ----

  /** How far the stored coefficients may be off, in units of 2^-24. */
  function Slack(n: nat): (b: int)
    ensures b >= 0
  {
    if n <= 1 then 0 else 4 * Slack(n - 1) + 4
  }

  const ROOM := 0x3fff_fc00

  /** No coefficient of any product reaches 64, so the 31-bit format holds it. */
  ghost predicate Tame(q: seq<int>) {
    |q| == 5 && forall n: nat, p: nat :: 1 <= n <= 5 && p <= n ==> Held(q, n, p)
  }

  ghost predicate Held(q: seq<int>, n: nat, p: int)
    requires n <= |q|
  {
    -ROOM * Scale(n) <= 0x400 * Coefficient(q, n, p) <= ROOM * Scale(n)
  }

  ghost predicate Near(f: int, q: seq<int>, n: nat, p: int)
    requires n <= |q|
  {
    -Slack(n) * Scale(n) <= f * Scale(n) - 0x400 * Coefficient(q, n, p) <= Slack(n) * Scale(n)
  }

  lemma SlackValues()
    ensures Slack(1) == 0 && Slack(2) == 4 && Slack(3) == 20 && Slack(4) == 84 && Slack(5) == 340
  {
    assert Slack(3) == 20;
  }

  lemma NearIsSmall(f: int, q: seq<int>, n: nat, p: int)
    requires 1 <= n <= 5 && n <= |q| && Near(f, q, n, p) && Held(q, n, p)
    ensures -ROOM - 340 <= f <= ROOM + 340
  {
    SlackValues();
    SmallByScale(f, Scale(n), 0x400 * Coefficient(q, n, p), Slack(n));
  }

  lemma SmallByScale(f: int, s: int, c: int, b: int)
    requires s > 0 && 0 <= b <= 340
    requires -ROOM * s <= c <= ROOM * s && -b * s <= f * s - c <= b * s
    ensures -ROOM - 340 <= f <= ROOM + 340
  {
    MulOrder(b, 340, s);
    if f > ROOM + 340 {
      MulOrder(ROOM + 341, f, s);
    }
    if f < -ROOM - 340 {
      MulOrder(f, -ROOM - 341, s);
    }
  }

  /** Doubling the mixed product of x and l gives x * l in Q14, up to four. */
  lemma DoubledMix(x: Word32, l: Word16)
    requires -ROOM - 340 <= x <= ROOM + 340
    ensures var (hi, lo) := LExtract(x);
            0 <= x * l - 0x4000 * LShl(MpyMix(hi, lo, l), 1) < 0x1_0000
  {
    hide Power, AddSh, LComp, LExtract, LShl;
    SplitIsExact(x);
    var hi, lo := x / 0x8000, x % 0x8000;
    var whole, part := hi * l, lo * l;
    ProductBound(hi, l, 0x8000, 0x8000);
    ProductBound(lo, l, 0x8000, 0x8000);
    Distribute(hi, lo, l);
    SmallPowers();
    AddShExact(whole, ExtractH(part), 1);
    var t := whole + 2 * (part / 0x1_0000);
    ProductBound(x, l, ROOM + 340, 0x8000);
    assert x * l == 0x8000 * whole + part;
    LShlExact(t, 1);
  }

  /** One multiplication by a factor, on scaled values. */
  lemma StepBound(w: int, f0: int, f2: int, x: int, l: int, g: int, e0: int, e1: int, e2: int, b: int)
    requires w > 0 && b >= 0 && -0x8000 <= l <= 0x7fff
    requires -b * w <= f0 * w - 0x400 * e0 <= b * w
    requires -b * w <= f2 * w - 0x400 * e2 <= b * w
    requires -b * w <= x * w - 0x400 * e1 <= b * w
    requires 0 <= 0x4000 * g - 0x4000 * (f0 + f2) + x * l < 0x1_0000
    ensures var c := 0x4000 * e0 - l * e1 + 0x4000 * e2;
            -(4 * b + 4) * (0x4000 * w) <= g * (0x4000 * w) - 0x400 * c <= (4 * b + 4) * (0x4000 * w)
  {
    var r := 0x4000 * g - 0x4000 * (f0 + f2) + x * l;
    ProductBound(x * w - 0x400 * e1, l, b * w, 0x8000);
    MulOrder(0, r, w);
    MulOrder(r, 0x1_0000, w);
    ScaledStep(w, f0, f2, x, l, g, r);
    ScaledProduct(w, x, l, e1);
    ScaledSlack(b, w);
  }

  lemma ScaledProduct(w: int, x: int, l: int, e1: int)
    ensures (x * l) * w == (x * w - 0x400 * e1) * l + 0x400 * (l * e1)
  {
    assert (x * l) * w == (x * w) * l;
    assert (x * w) * l == (x * w - 0x400 * e1) * l + (0x400 * e1) * l;
    assert (0x400 * e1) * l == 0x400 * (l * e1);
  }

  lemma ScaledSlack(b: int, w: int)
    ensures (b * w) * 0x8000 == 0x8000 * (b * w)
    ensures (4 * b + 4) * (0x4000 * w) == 0x1_0000 * (b * w) + 0x1_0000 * w
    ensures -(4 * b + 4) * (0x4000 * w) == -(0x1_0000 * (b * w) + 0x1_0000 * w)
  {
  }

  lemma ScaledStep(w: int, f0: int, f2: int, x: int, l: int, g: int, r: int)
    requires 0x4000 * g == 0x4000 * (f0 + f2) - x * l + r
    ensures g * (0x4000 * w) == 0x4000 * (f0 * w) + 0x4000 * (f2 * w) - (x * l) * w + r * w
  {
    assert g * (0x4000 * w) == (0x4000 * g) * w;
    assert (0x4000 * (f0 + f2) - x * l + r) * w == (0x4000 * (f0 + f2)) * w - (x * l) * w + r * w;
    assert (0x4000 * (f0 + f2)) * w == 0x4000 * (f0 * w) + 0x4000 * (f2 * w);
  }

  /** Every second pair, as `Get_Lsp_Pol` walks over them. */
  function EverySecond(lsp: seq<Word16>, from: nat): (q: seq<Word16>)
    requires |lsp| == ORDER && from <= 1
    ensures |q| == 5
  {
    [lsp[from], lsp[from + 2], lsp[from + 4], lsp[from + 6], lsp[from + 8]]
  }

  lemma PairAt(lsp: seq<Word16>, from: nat, n: nat)
    requires |lsp| == ORDER && from <= 1 && 1 <= n <= 5
    ensures EverySecond(lsp, from)[n - 1] == lsp[from + 2 * (n - 1)]
  {
  }

  ghost predicate AllNear(f: seq<Word32>, q: seq<int>, n: nat)
    requires n <= |q|
  {
    |f| == n + 1 && forall p: nat :: p <= n ==> Near(f[p], q, n, p)
  }

  /** The first polynomial is exact. */
  lemma FirstPolynomial(lsp: seq<Word16>, from: nat)
    requires |lsp| == ORDER && from <= 1
    ensures AllNear(GetLspPol(lsp, from, 1), EverySecond(lsp, from), 1)
  {
    hide Power;
    var q, f := EverySecond(lsp, from), GetLspPol(lsp, from, 1);
    SmallPowers();
    AddShExact(0, 4096, 12);
    AddShExact(0, lsp[from], 10);
    assert f == [0x100_0000, 0 - 0x400 * (lsp[from] as int)];
    FirstCoefficients(q);
    forall p: nat | p <= 1
      ensures Near(f[p], q, 1, p)
    {
    }
  }

  lemma FirstCoefficients(q: seq<int>)
    requires |q| == 5
    ensures Coefficient(q, 1, 0) == 0x4000 && Coefficient(q, 1, 1) == -q[0]
  {
    assert Coefficient(q, 0, 0) == 1 && Coefficient(q, 0, 1) == 0;
    assert Coefficient(q, 0, -1) == 0 && Coefficient(q, 0, -2) == 0;
    assert Times(q[0], 1) == q[0] && Times(q[0], 0) == 0;
  }

  /** One more factor keeps the coefficients near. */
  lemma NextPolynomial(f: seq<Word32>, q: seq<Word16>, n: nat, p: nat)
    requires 1 < n <= 5 && |q| == 5 && p <= n && Tame(q) && AllNear(f, q, n - 1)
    ensures Near(LspCoefficient(f, q[n - 1], p), q, n, p)
  {
    hide Coefficient, Scale, LExtract, MpyMix, LShl, SubSh, Times;
    var w, l := Scale(n - 1), q[n - 1];
    ScaleStep(n);
    CoefficientStep(q, n, p);
    assert Near(f[0], q, n - 1, 0) && Near(f[1], q, n - 1, 1);
    assert Held(q, n - 1, 0) && Held(q, n - 1, 1);
    NearIsSmall(f[0], q, n - 1, 0);
    NearIsSmall(f[1], q, n - 1, 1);
    if p == 0 {
      Outside(q, n - 1, -1);
      Outside(q, n - 1, -2);
      ByZero(l);
      StepBound(w, f[0], 0, 0, l, f[0], Coefficient(q, n - 1, 0), 0, 0, Slack(n - 1));
    } else if p == 1 {
      Outside(q, n - 1, -1);
      Leading(q, n - 1);
      SecondCoefficient(f[1], l, w, Coefficient(q, n - 1, 1), Slack(n - 1));
    } else {
      InnerCoefficient(f, q, n, p);
    }
  }

  lemma ScaleStep(n: nat)
    requires n > 1
    ensures Scale(n) == 0x4000 * Scale(n - 1) && Slack(n) == 4 * Slack(n - 1) + 4
  {
  }

  lemma CoefficientStep(q: seq<int>, n: nat, p: int)
    requires 1 <= n <= |q|
    ensures Coefficient(q, n, p)
            == 0x4000 * Coefficient(q, n - 1, p) - Times(q[n - 1], Coefficient(q, n - 1, p - 1))
               + 0x4000 * Coefficient(q, n - 1, p - 2)
  {
  }

  lemma SecondCoefficient(f1: Word32, l: Word16, w: int, e1: int, b: int)
    requires w > 0 && b >= 0 && -ROOM - 340 <= f1 <= ROOM + 340
    requires -b * w <= f1 * w - 0x400 * e1 <= b * w
    ensures var c := 0x4000 * e1 - Times(l, 0x4000 * w);
            -(4 * b + 4) * (0x4000 * w) <= SubSh(f1, l, 10) * (0x4000 * w) - 0x400 * c <= (4 * b + 4) * (0x4000 * w)
  {
    hide Power, SubSh;
    SmallPowers();
    AddShExact(f1, l, 10);
    var g: int := f1 - 0x400 * l;
    assert g * (0x4000 * w) == 0x4000 * (f1 * w) - 0x400 * (l * (0x4000 * w));
    MulOrder(0, b, w);
    assert (4 * b + 4) * (0x4000 * w) == 0x1_0000 * (b * w) + 0x1_0000 * w;
    assert -(4 * b + 4) * (0x4000 * w) == -(0x1_0000 * (b * w) + 0x1_0000 * w);
  }

  lemma InnerCoefficient(f: seq<Word32>, q: seq<Word16>, n: nat, p: nat)
    requires 1 < n <= 5 && |q| == 5 && 2 <= p <= n && Tame(q) && AllNear(f, q, n - 1)
    ensures Near(LspCoefficient(f, q[n - 1], p), q, n, p)
  {
    hide Coefficient, Scale, LExtract, MpyMix, LShl, LAdd, LSub, Times, Slack;
    SlackValues();
    var l := q[n - 1];
    var f0 := if p == |f| then f[p - 2] else f[p];
    if p == n {
      Palindrome(q, n - 1, n);
    }
    assert Near(f0, q, n - 1, p) by {
      assert Near(f[p - 2], q, n - 1, p - 2);
      if p < n {
        assert Near(f[p], q, n - 1, p);
      }
    }
    var x, f2 := f[p - 1], f[p - 2];
    assert Near(x, q, n - 1, p - 1) && Near(f2, q, n - 1, p - 2);
    assert Held(q, n - 1, p - 1) && Held(q, n - 1, p - 2) && Held(q, n, p);
    assert Held(q, n - 1, p) by {
      if p == n {
        assert Held(q, n - 1, n - 2);
      }
    }
    NearIsSmall(f0, q, n - 1, p);
    NearIsSmall(x, q, n - 1, p - 1);
    NearIsSmall(f2, q, n - 1, p - 2);
    ScaleStep(n);
    CoefficientStep(q, n, p);
    SlackPositive(n - 1);
    InnerStep(f0, f2, x, l, Scale(n - 1), Scale(n), Coefficient(q, n - 1, p), Coefficient(q, n - 1, p - 1),
              Coefficient(q, n - 1, p - 2), Slack(n - 1));
  }

  /** The inner loop's arithmetic, on scaled values. */
  lemma InnerStep(f0: Word32, f2: Word32, x: Word32, l: Word16, w: int, s: int, e0: int, e1: int, e2: int, b: int)
    requires -ROOM - 340 <= f0 <= ROOM + 340 && -ROOM - 340 <= f2 <= ROOM + 340 && -ROOM - 340 <= x <= ROOM + 340
    requires w > 0 && s == 0x4000 * w && 0 <= b <= 84
    requires -b * w <= f0 * w - 0x400 * e0 <= b * w
    requires -b * w <= f2 * w - 0x400 * e2 <= b * w
    requires -b * w <= x * w - 0x400 * e1 <= b * w
    requires var c := 0x4000 * e0 - Times(l, e1) + 0x4000 * e2;
             -ROOM * s <= 0x400 * c <= ROOM * s
    ensures var c := 0x4000 * e0 - Times(l, e1) + 0x4000 * e2;
            var (hi, lo) := LExtract(x);
            -(4 * b + 4) * s
            <= LSub(LAdd(f0, f2), LShl(MpyMix(hi, lo, l), 1)) * s - 0x400 * c <= (4 * b + 4) * s
  {
    hide LExtract, MpyMix, LShl;
    var (hi, lo) := LExtract(x);
    DoubledMix(x, l);
    var t0 := LShl(MpyMix(hi, lo, l), 1);
    var g := f0 + f2 - t0;
    StepBound(w, f0, f2, x, l, g, e0, e1, e2, b);
    SmallByScale(g, s, 0x400 * (0x4000 * e0 - l * e1 + 0x4000 * e2), 4 * b + 4);
  }

  lemma SlackPositive(n: nat)
    requires 1 <= n <= 4
    ensures 0 <= Slack(n) <= 84
  {
    SlackValues();
  }

  lemma {:induction false} PolynomialIs(lsp: seq<Word16>, from: nat, n: nat)
    requires |lsp| == ORDER && from <= 1 && 1 <= n <= 5 && Tame(EverySecond(lsp, from))
    ensures AllNear(GetLspPol(lsp, from, n), EverySecond(lsp, from), n)
  {
    hide Coefficient, Scale, LspCoefficient, Near, Tame;
    if n == 1 {
      FirstPolynomial(lsp, from);
    } else {
      PolynomialIs(lsp, from, n - 1);
      var q, f := EverySecond(lsp, from), GetLspPol(lsp, from, n - 1);
      PairAt(lsp, from, n);
      forall p: nat | p <= n
        ensures Near(GetLspPol(lsp, from, n)[p], q, n, p)
      {
        NextPolynomial(f, q, n, p);
      }
    }
  }

  // ---- the filter coefficients ----

  /** Twice coefficient i of the filter, exactly, scaled by 2^70. */
  function Exact(lsp: seq<Word16>, i: int): int
    requires |lsp| == ORDER
  {
    var q1, q2 := EverySecond(lsp, 0), EverySecond(lsp, 1);
    Coefficient(q1, 5, i) + Coefficient(q1, 5, i - 1) + Coefficient(q2, 5, i) - Coefficient(q2, 5, i - 1)
  }

  /** The filter is the exact one to within 0.67 of the last bit (1 / 4096), wherever that fits 16 bits, as long as no
      coefficient of a product on the way reaches 64. */
  ghost predicate LpcRight(lsp: seq<Word16>, a: Lpc)
    requires |lsp| == ORDER
  {
    && a[0] == 4096
    && (Tame(EverySecond(lsp, 0)) && Tame(EverySecond(lsp, 1)) ==> forall i :: 1 <= i <= ORDER ==> CloseTo(lsp, a[i], i))
  }

  ghost predicate CloseTo(lsp: seq<Word16>, c: int, i: int)
    requires |lsp| == ORDER
  {
    var e, w := 0x400 * Exact(lsp, i), 0x100_0000_0000_0000;
    -0x7ffe * 0x2000 * w <= e <= 0x7ffe * 0x2000 * w ==> -5456 * w <= 0x2000 * w * c - e <= 5456 * w
  }

  lemma FifthScale()
    ensures Scale(5) == 0x100_0000_0000_0000
  {
    assert Scale(3) == 0x1000_0000;
  }

  lemma CoefficientClose(lsp: seq<Word16>, f1: seq<Word32>, f2: seq<Word32>, i: int)
    requires |lsp| == ORDER && Tame(EverySecond(lsp, 0)) && Tame(EverySecond(lsp, 1))
    requires AllNear(f1, EverySecond(lsp, 0), 5) && AllNear(f2, EverySecond(lsp, 1), 5) && 1 <= i <= ORDER
    ensures CloseTo(lsp, LpcCoefficient(f1, f2, i), i)
  {
    hide Coefficient, LShrR, LAdd, LSub, ExtractL, EverySecond, Near, Held, Tame;
    var q1, q2 := EverySecond(lsp, 0), EverySecond(lsp, 1);
    var k := if i <= 5 then i else 11 - i;
    if i > 5 {
      Palindrome(q1, 5, i);
      Palindrome(q1, 5, i - 1);
      Palindrome(q2, 5, i);
      Palindrome(q2, 5, i - 1);
    }
    LastNear(f1, q1, k);
    LastNear(f1, q1, k - 1);
    LastNear(f2, q2, k);
    LastNear(f2, q2, k - 1);
    var e, w := 0x400 * Exact(lsp, i), 0x100_0000_0000_0000;
    if -0x7ffe * 0x2000 * w <= e <= 0x7ffe * 0x2000 * w {
      FinalRounding(f1[k], f1[k - 1], f2[k], f2[k - 1], i <= 5, e);
    }
  }

  lemma LastNear(f: seq<Word32>, q: seq<int>, p: nat)
    requires Tame(q) && AllNear(f, q, 5) && p <= 5
    ensures -ROOM - 340 <= f[p] <= ROOM + 340
    ensures var w := 0x100_0000_0000_0000; -340 * w <= f[p] * w - 0x400 * Coefficient(q, 5, p) <= 340 * w
  {
    hide Coefficient, Scale, Slack;
    FifthScale();
    SlackValues();
    assert Near(f[p], q, 5, p) && Held(q, 5, p);
    NearIsSmall(f[p], q, 5, p);
  }

  /** The last sums, the rounding shift and the truncation. */
  lemma FinalRounding(a: Word32, b: Word32, c: Word32, d: Word32, plus: bool, e: int)
    requires -ROOM - 340 <= a <= ROOM + 340 && -ROOM - 340 <= b <= ROOM + 340
    requires -ROOM - 340 <= c <= ROOM + 340 && -ROOM - 340 <= d <= ROOM + 340
    requires var w := 0x100_0000_0000_0000;
             var s := if plus then a + b + c - d else a + b - c + d;
             && -0x7ffe * 0x2000 * w <= e <= 0x7ffe * 0x2000 * w
             && -1360 * w <= s * w - e <= 1360 * w
    ensures var w := 0x100_0000_0000_0000;
            var s := if plus then LAdd(LAdd(a, b), LSub(c, d)) else LSub(LAdd(a, b), LSub(c, d));
            -5456 * w <= 0x2000 * w * ExtractL(LShrR(s, 13)) - e <= 5456 * w
  {
    hide Power, LShrR, ExtractL;
    var s: int := if plus then a + b + c - d else a + b - c + d;
    assert LAdd(a, b) == a + b && LSub(c, d) == c - d;
    assert -0x1000_0000 < s < 0x1000_0000;
    RoundedTo13(s);
  }

  lemma RoundedTo13(s: Word32)
    requires -0x7ffe * 0x2000 - 1360 <= s <= 0x7ffe * 0x2000 + 1360
    ensures -0x1000 <= s - 0x2000 * ExtractL(LShrR(s, 13)) < 0x1000
  {
    hide Power, LShrR, Truncate;
    SmallPowers();
    LShrRNearest(s, 13);
    TruncateFits(LShrR(s, 13));
  }

  lemma LspAzIs(lsp: seq<Word16>)
    requires |lsp| == ORDER
    ensures LpcRight(lsp, LspAz(lsp))
  {
    hide LpcCoefficient, GetLspPol, Tame, CloseTo, EverySecond, AllNear;
    if Tame(EverySecond(lsp, 0)) && Tame(EverySecond(lsp, 1)) {
      PolynomialIs(lsp, 0, 5);
      PolynomialIs(lsp, 1, 5);
      var f1, f2 := GetLspPol(lsp, 0, 5), GetLspPol(lsp, 1, 5);
      forall i | 1 <= i <= ORDER
        ensures CloseTo(lsp, LspAz(lsp)[i], i)
      {
        CoefficientClose(lsp, f1, f2, i);
      }
    }
  }

  // ---- the interpolation between frames ----

  /** The filter of subframe k: of the pairs (3 - k) : (k + 1) between the old and the new ones, rounded down. */
  ghost predicate InterpolatedRight(lspOld: seq<Word16>, lspNew: seq<Word16>, k: int, a: Lpc)
    requires |lspOld| == |lspNew| == ORDER
  {
    exists lsp: seq<Word16> ::
      && |lsp| == ORDER && LpcRight(lsp, a)
      && forall i :: 0 <= i < ORDER ==> lsp[i] == (Times(3 - k, lspOld[i]) + Times(k + 1, lspNew[i])) / 4
  }

  lemma MixedPair(o: Word16, n: Word16, k: int)
    requires 0 <= k < 3
    ensures ExtractH(LMac(LMult(o, 24576 - 8192 * k), n, 8192 + 8192 * k)) == (Times(3 - k, o) + Times(k + 1, n)) / 4
  {
    hide LMac, LMult;
    if k == 0 {
      WeightedSum(o, n, 24576, 8192);
    } else if k == 1 {
      WeightedSum(o, n, 16384, 16384);
    } else {
      WeightedSum(o, n, 8192, 24576);
    }
  }

  lemma WeightedSum(o: Word16, n: Word16, u: Word16, v: Word16)
    requires 0 <= u && 0 <= v && u + v == 0x8000
    ensures LMac(LMult(o, u), n, v) == 2 * (o * u) + 2 * (n * v)
  {
    ProductBound(o, u, 0x8000, u);
    ProductBound(n, v, 0x8000, v);
    MulOrder(o, 0x7fff, u);
    MulOrder(n, 0x7fff, v);
  }

  lemma IntLpc4Is(lspOld: seq<Word16>, lspNew: seq<Word16>, k: int)
    requires |lspOld| == |lspNew| == ORDER && 0 <= k < 4
    ensures InterpolatedRight(lspOld, lspNew, k, IntLpc4(lspOld, lspNew, k))
  {
    hide LspAz, LpcRight, ExtractH, LMac, LMult;
    if k == 3 {
      LspAzIs(lspNew);
      forall i | 0 <= i < ORDER
        ensures lspNew[i] == (Times(0, lspOld[i]) + Times(4, lspNew[i])) / 4
      {
      }
    } else {
      var lsp := MixedLsp(lspOld, lspNew, 24576 - 8192 * k, 8192 + 8192 * k);
      LspAzIs(lsp);
      forall i | 0 <= i < ORDER
        ensures lsp[i] == (Times(3 - k, lspOld[i]) + Times(k + 1, lspNew[i])) / 4
      {
        MixedPair(lspOld[i], lspNew[i], k);
      }
    }
  }
}
