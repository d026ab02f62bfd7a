/** Split vector quantisation of the ten line spectral pairs, in the encoder and in the decoder. */
module LspQuantizer {
  import opened FixedPoint

  const P := 10

  /** The three codebooks: 256 and 512 vectors of three, 512 vectors of four. Their contents are free. */
  datatype Books = Books(dico1: seq<Word16>, dico2: seq<Word16>, dico3: seq<Word16>) {
    predicate Valid() {
      |dico1| == 256 * 3 && |dico2| == 512 * 3 && |dico3| == 512 * 4
    }
  }

  const LSP_INIT: seq<Word16> := [30000, 26000, 21000, 15000, 8000, 0, -8000, -15000, -21000, -26000]

  // ---- specification ----

  datatype Indices = Indices(i1: Word16, i2: Word16, i3: Word16) {
    predicate Valid() {
      0 <= i1 < 256 && 0 <= i2 < 512 && 0 <= i3 < 512
    }
  }

  predicate Decreasing(lsp: seq<Word16>) {
    forall i :: 0 <= i < |lsp| - 1 ==> lsp[i] > lsp[i + 1]
  }

  /** Moves a neighbouring pair apart when it is closer than `gap`. */
  function Spread(lsp: seq<Word16>, at: nat, gap: Word16): (r: seq<Word16>)
    requires at + 1 < |lsp|
    ensures |r| == |lsp|
  {
    var temp := Add(Sub(gap, lsp[at]), lsp[at + 1]);
    if temp <= 0 then lsp
    else
      var t := Shr(temp, 1);
      lsp[..at] + [Add(lsp[at], t), Sub(lsp[at + 1], t)] + lsp[at + 2..]
  }

  function Looked(books: Books, ind: Indices): (lsp: seq<Word16>)
    requires books.Valid() && ind.Valid()
    ensures |lsp| == P
  {
    books.dico1[ind.i1 * 3..ind.i1 * 3 + 3] + books.dico2[ind.i2 * 3..ind.i2 * 3 + 3]
    + books.dico3[ind.i3 * 4..ind.i3 * 4 + 4]
  }

  function Separated(lsp: seq<Word16>): (r: seq<Word16>)
    requires |lsp| == P
    ensures |r| == P
  {
    Spread(Spread(lsp, 2, 917), 5, 1245)
  }

  // ---- what separating does, in plain integers ----

  /** How a neighbouring pair (a, b) comes out as (c, d): its sum is kept and a pair that is apart stays as it is. A
      closer one ends up `gap` apart, or one less when the distance is odd, if and only if the first is not too far
      below the second for 16 bits to hold their distance. */
  ghost predicate PairSpaced(a: int, b: int, c: int, d: int, gap: int) {
    && c + d == a + b
    && (a - b >= gap ==> c == a && d == b)
    && (a - b < gap && b - a <= 0x7fff - gap ==> gap - 1 <= c - d <= gap)
    && (c - d >= gap - 1 <==> b - a <= 0x7fff - gap)
  }

  const REACH := 31000

  /** The pairs (2, 3) and (5, 6), where the code vectors join, are spaced, and nothing else moves. */
  ghost predicate Spaced(q: seq<Word16>, r: seq<Word16>)
    requires |q| == |r| == P
  {
    (forall i :: 0 <= i < P ==> -REACH <= q[i] <= REACH) ==>
      && PairSpaced(q[2], q[3], r[2], r[3], 917) && PairSpaced(q[5], q[6], r[5], r[6], 1245)
      && forall i :: 0 <= i < P && i !in {2, 3, 5, 6} ==> r[i] == q[i]
  }

  lemma SpreadIs(lsp: seq<Word16>, at: nat, gap: Word16)
    requires at + 1 < |lsp| && 0 < gap <= 1245
    requires -REACH <= lsp[at] <= REACH && -REACH <= lsp[at + 1] <= REACH
    ensures PairSpaced(lsp[at], lsp[at + 1], Spread(lsp, at, gap)[at], Spread(lsp, at, gap)[at + 1], gap)
    ensures forall i :: 0 <= i < |lsp| && i != at && i != at + 1 ==> Spread(lsp, at, gap)[i] == lsp[i]
  {
    assert Power(1) == 2;
  }

  lemma SeparatedIs(q: seq<Word16>)
    requires |q| == P
    ensures Spaced(q, Separated(q))
  {
    hide Spread, PairSpaced;
    if forall i :: 0 <= i < P ==> -REACH <= q[i] <= REACH {
      SpreadIs(q, 2, 917);
      SpreadIs(Spread(q, 2, 917), 5, 1245);
    }
  }

  /** A frame's pairs: the spaced code vectors if those are in order, and else the previous frame's. */
  ghost predicate Accepted(q: seq<Word16>, previous: seq<Word16>, pairs: seq<Word16>)
    requires |q| == P
  {
    exists r: seq<Word16> ::
      |r| == P && Spaced(q, r) && pairs == if forall i :: 0 <= i < P - 1 ==> r[i] > r[i + 1] then r else previous
  }

  /** A join so far out of order that its distance saturates is still accepted when it comes out in order: this one
      is one unit apart. */
  lemma CrossedJoin()
    ensures var q: seq<Word16> := [30000, 20000, -16000, 16765, 0, -1000, -8000, -15000, -21000, -26000];
            var r := Separated(q);
            Decreasing(r) && r[2] - r[3] == 1
  {
    var q: seq<Word16> := [30000, 20000, -16000, 16765, 0, -1000, -8000, -15000, -21000, -26000];
    assert Power(1) == 2;
    assert Spread(q, 2, 917) == [30000, 20000, 383, 382, 0, -1000, -8000, -15000, -21000, -26000];
    assert Separated(q) == [30000, 20000, 383, 382, 0, -1000, -8000, -15000, -21000, -26000];
  }

  /** What both sides reconstruct: the separated code vectors, or the previous frame when those are not
      strictly decreasing. */
  function Quantised(books: Books, ind: Indices, previous: seq<Word16>): (lsp: seq<Word16>)
    requires books.Valid() && ind.Valid() && |previous| == P
    ensures |lsp| == P
  {
    var q := Separated(Looked(books, ind));
    if Decreasing(q) then q else previous
  }

  lemma QuantisedDecreasing(books: Books, ind: Indices, previous: seq<Word16>)
    requires books.Valid() && ind.Valid() && |previous| == P && Decreasing(previous)
    ensures Decreasing(Quantised(books, ind, previous))
    ensures forall i, j :: 0 <= i < j < P ==> Quantised(books, ind, previous)[i] > Quantised(books, ind, previous)[j]
  {
    hide Separated, Looked;
    var r := Quantised(books, ind, previous);
    forall i, j | 0 <= i < j < P
      ensures r[i] > r[j]
    {
      DecreasingFrom(r, i, j);
    }
  }

  lemma {:induction false} DecreasingFrom(r: seq<Word16>, i: nat, j: nat)
    requires Decreasing(r) && i < j < |r|
    ensures r[i] > r[j]
  {
    if i < j - 1 {
      DecreasingFrom(r, i, j - 1);
    }
  }

  function Square(a: Word16): (s: Word32)
    ensures 0 <= s
  {
    SquareNonNegative(a);
    LMult0(a, a)
  }

  /** Squared distance, saturating, of n parameters from `from` to the n book entries at p. */
  function Distance(lsp: seq<Word16>, from: nat, book: seq<Word16>, p: nat, n: nat): (d: Word32)
    requires from + n <= |lsp| && p + n <= |book|
    ensures 0 <= d
  {
    if n == 0 then 0
    else LAdd(Distance(lsp, from, book, p, n - 1), Square(Sub(lsp[from + n - 1], book[p + n - 1])))
  }

  /** The distances to every vector of a book, in order. */
  function Distances(lsp: seq<Word16>, from: nat, book: seq<Word16>, dim: nat, size: nat): (ds: seq<Word32>)
    requires from + dim <= |lsp| && dim * size <= |book|
    ensures |ds| == size
  {
    if size == 0 then []
    else
      PreviousVector(dim, size);
      Distances(lsp, from, book, dim, size - 1) + [Distance(lsp, from, book, dim * (size - 1), dim)]
  }

  lemma PreviousVector(dim: nat, size: nat)
    requires size > 0
    ensures 0 <= dim * (size - 1) && dim * (size - 1) + dim == dim * size
  {
  }

  /** The first position of the smallest value; the stale index when every value is saturated. */
  ghost predicate FirstMinimum(ds: seq<Word32>, ind: int, stale: int) {
    if forall k :: 0 <= k < |ds| ==> ds[k] == MAX_32 then ind == stale
    else
      && 0 <= ind < |ds|
      && (forall k :: 0 <= k < |ds| ==> ds[ind] <= ds[k])
      && (forall k :: 0 <= k < ind ==> ds[ind] < ds[k])
  }

  // ---- what is nearest, in plain integers ----

  function Vector(book: seq<Word16>, dim: nat, i: nat): (v: seq<Word16>)
    requires dim * i + dim <= |book|
    ensures |v| == dim
  {
    Offsets(dim, i);
    book[dim * i..dim * i + dim]
  }

  lemma Offsets(dim: nat, i: nat)
    ensures 0 <= dim * i
  {
  }

  /** The differences of a vector from the parameters it stands for. */
  function Differences(lsp: seq<Word16>, from: nat, v: seq<Word16>): (d: seq<int>)
    requires from + |v| <= |lsp|
    ensures |d| == |v|
  {
    seq(|v|, j requires 0 <= j < |v| => (lsp[from + j] as int) - v[j])
  }

  /** The squared distance, over the integers. */
  function SquaredError(lsp: seq<Word16>, from: nat, v: seq<Word16>): int
    requires from + |v| <= |lsp|
  {
    Dot(Differences(lsp, from, v), Differences(lsp, from, v))
  }

  ghost predicate Comparable(lsp: seq<Word16>, from: nat, v: seq<Word16>)
    requires from + |v| <= |lsp|
  {
    forall j :: 0 <= j < |v| ==> -0x7fff <= Differences(lsp, from, v)[j] <= 0x7fff
  }

  /** v is nearest: no vector of the book has a smaller squared distance, as long as all differences fit 16 bits and some
      squared distance fits 31. */
  ghost predicate NearestPart(lsp: seq<Word16>, from: nat, book: seq<Word16>, dim: nat, size: nat, v: seq<Word16>)
    requires |v| == dim && from + dim <= |lsp| && |book| == dim * size
  {
    (forall i: nat :: i < size ==> (VectorFits(dim, i, size); Comparable(lsp, from, Vector(book, dim, i))))
    && (exists i: nat :: i < size && (VectorFits(dim, i, size); SquaredError(lsp, from, Vector(book, dim, i)) < MAX_32))
    ==> forall i: nat :: i < size ==>
          (VectorFits(dim, i, size); SquaredError(lsp, from, v) <= SquaredError(lsp, from, Vector(book, dim, i)))
  }

  lemma VectorFits(dim: nat, i: nat, size: nat)
    requires i < size
    ensures 0 <= dim * i && dim * i + dim <= dim * size
  {
    NextVector(dim, i, size);
  }

  /** The saturating distance is the squared distance, or the largest 32-bit value when that does not fit. */
  lemma {:induction false} DistanceIs(lsp: seq<Word16>, from: nat, book: seq<Word16>, p: nat, n: nat, d: seq<int>)
    requires from + n <= |lsp| && p + n <= |book| && n <= |d|
    requires forall j :: 0 <= j < n ==> d[j] == (lsp[from + j] as int) - book[p + j] && -0x7fff <= d[j] <= 0x7fff
    ensures Distance(lsp, from, book, p, n) == if Dot(d[..n], d[..n]) <= MAX_32 then Dot(d[..n], d[..n]) else MAX_32
  {
    hide Dot;
    if n == 0 {
      EmptyDot(d, d);
    } else {
      DistanceIs(lsp, from, book, p, n - 1, d);
      NextDot(d, d, n - 1);
      var x := d[n - 1];
      SquareNonNegative(x);
      ProductBound(x, x, 0x7fff, 0x7fff);
      assert Square(Sub(lsp[from + n - 1], book[p + n - 1])) == x * x;
    }
  }

  lemma {:induction false} DistancesAt(lsp: seq<Word16>, from: nat, book: seq<Word16>, dim: nat, size: nat, i: nat)
    requires from + dim <= |lsp| && dim * size <= |book| && i < size
    ensures 0 <= dim * i && dim * i + dim <= |book|
    ensures Distances(lsp, from, book, dim, size)[i] == Distance(lsp, from, book, dim * i, dim)
  {
    VectorFits(dim, i, size);
    if i < size - 1 {
      PreviousVector(dim, size);
      DistancesAt(lsp, from, book, dim, size - 1, i);
    }
  }

  lemma MeasuredDistance(lsp: seq<Word16>, from: nat, book: seq<Word16>, dim: nat, size: nat, i: nat)
    requires from + dim <= |lsp| && dim * size == |book| && i < size
    requires 0 <= dim * i && dim * i + dim <= |book| && Comparable(lsp, from, Vector(book, dim, i))
    ensures var e := SquaredError(lsp, from, Vector(book, dim, i));
            Distances(lsp, from, book, dim, size)[i] == if e <= MAX_32 then e else MAX_32
  {
    var v := Vector(book, dim, i);
    var d := Differences(lsp, from, v);
    DistancesAt(lsp, from, book, dim, size, i);
    assert d[..dim] == d;
    forall j | 0 <= j < dim
      ensures d[j] == (lsp[from + j] as int) - book[dim * i + j] && -0x7fff <= d[j] <= 0x7fff
    {
      assert v[j] == book[dim * i + j];
    }
    DistanceIs(lsp, from, book, dim * i, dim, d);
  }

  lemma SearchFindsNearest(lsp: seq<Word16>, from: nat, book: seq<Word16>, dim: nat, size: nat, ind: int, stale: int)
    requires from + dim <= |lsp| && |book| == dim * size && 0 <= ind < size
    requires FirstMinimum(Distances(lsp, from, book, dim, size), ind, stale)
    ensures 0 <= dim * ind && dim * ind + dim <= |book|
    ensures NearestPart(lsp, from, book, dim, size, Vector(book, dim, ind))
  {
    hide Distances, SquaredError, Comparable, Vector;
    VectorFits(dim, ind, size);
    var ds := Distances(lsp, from, book, dim, size);
    if forall i: nat :: i < size ==> (VectorFits(dim, i, size); Comparable(lsp, from, Vector(book, dim, i))) {
      forall i: nat | i < size
        ensures 0 <= dim * i && dim * i + dim <= |book|
        ensures var e := SquaredError(lsp, from, Vector(book, dim, i)); ds[i] == if e <= MAX_32 then e else MAX_32
      {
        VectorFits(dim, i, size);
        MeasuredDistance(lsp, from, book, dim, size, i);
      }
    }
  }

  // ---- the search ----

  /** One codebook search of `Clsp_334`: the first vector at the smallest distance. When every distance
      saturates, the index left by the previous search stays. */
  method SearchBook(lsp: seq<Word16>, from: nat, book: seq<Word16>, dim: nat, size: nat, stale: Word16)
    returns (ind: Word16)
    requires 1 <= dim && from + dim <= |lsp| && |book| == dim * size && size <= 0x7fff
    ensures FirstMinimum(Distances(lsp, from, book, dim, size), ind, stale)
    ensures ind == stale || 0 <= ind < size
  {
    var min: Word32 := MAX_32;
    ind := stale;
    var p := 0;
    ghost var ds := [];
    for i := 0 to size
      invariant p == dim * i <= |book|
      invariant ds == Distances(lsp, from, book, dim, i)
      invariant FirstMinimum(ds, ind, stale)
      invariant min == if forall k :: 0 <= k < i ==> ds[k] == MAX_32 then MAX_32 else ds[ind]
      invariant ind == stale || 0 <= ind < size
    {
      NextVector(dim, i, size);
      var dist := DistanceLoop(lsp, from, book, p, dim);
      p := p + dim;
      MinimumStep(ds, dist, ind, stale, min);
      ds := ds + [dist];
      if LSub(dist, min) < 0 {
        min := dist;
        ind := i;
      }
    }
  }

  lemma NextVector(dim: nat, i: nat, size: nat)
    requires i < size
    ensures dim * i + dim == dim * (i + 1) <= dim * size
  {
    MulOrder(i + 1, size, dim);
  }

  lemma MinimumStep(ds: seq<Word32>, dist: Word32, ind: int, stale: int, min: Word32)
    requires FirstMinimum(ds, ind, stale) && 0 <= dist
    requires min == if forall k :: 0 <= k < |ds| ==> ds[k] == MAX_32 then MAX_32 else ds[ind]
    ensures var all := ds + [dist];
            var best := if dist < min then |ds| else ind;
            && FirstMinimum(all, best, stale)
            && (if dist < min then dist else min)
               == if forall k :: 0 <= k < |all| ==> all[k] == MAX_32 then MAX_32 else all[best]
  {
    var all := ds + [dist];
    assert all[|ds|] == dist;
    assert forall k :: 0 <= k < |ds| ==> all[k] == ds[k];
  }

  method DistanceLoop(lsp: seq<Word16>, from: nat, book: seq<Word16>, p: nat, dim: nat) returns (dist: Word32)
    requires 1 <= dim && from + dim <= |lsp| && p + dim <= |book|
    ensures dist == Distance(lsp, from, book, p, dim)
  {
    var temp := Sub(lsp[from], book[p]);
    dist := Square(temp);
    assert Distance(lsp, from, book, p, 0) == 0;
    for j := 1 to dim
      invariant dist == Distance(lsp, from, book, p, j)
    {
      temp := Sub(lsp[from + j], book[p + j]);
      dist := LAdd(dist, Square(temp));
    }
  }

  lemma LookedParts(books: Books, ind: Indices)
    requires books.Valid() && ind.Valid()
    ensures Looked(books, ind)[..3] == Vector(books.dico1, 3, ind.i1)
    ensures Looked(books, ind)[3..6] == Vector(books.dico2, 3, ind.i2)
    ensures Looked(books, ind)[6..] == Vector(books.dico3, 4, ind.i3)
  {
  }

  // ---- in-place reconstruction, shared text of both routines ----

  method SpreadInPlace(lsp: array<Word16>, at: nat, gap: Word16)
    requires at + 1 < lsp.Length
    modifies lsp
    ensures lsp[..] == Spread(old(lsp[..]), at, gap)
  {
    var temp := gap;
    temp := Sub(temp, lsp[at]);
    temp := Add(temp, lsp[at + 1]);
    if temp > 0 {
      temp := Shr(temp, 1);
      StorePair(lsp, at, Add(lsp[at], temp), Sub(lsp[at + 1], temp));
    }
  }

  method StorePair(lsp: array<Word16>, at: nat, a: Word16, b: Word16)
    requires at + 1 < lsp.Length
    modifies lsp
    ensures lsp[..] == old(lsp[..at]) + [a, b] + old(lsp[at + 2..])
  {
    lsp[at] := a;
    lsp[at + 1] := b;
  }

  /** Copies the three code vectors and separates the two joins. */
  method LookUp(books: Books, ind: Indices, lsp: array<Word16>)
    requires books.Valid() && ind.Valid() && lsp.Length == P
    modifies lsp
    ensures lsp[..] == Separated(Looked(books, ind))
  {
    var v := Looked(books, ind);
    for i := 0 to P
      invariant lsp[..i] == v[..i]
    {
      lsp[i] := v[i];
    }
    assert lsp[..] == v;
    SpreadInPlace(lsp, 2, 917);
    SpreadInPlace(lsp, 5, 1245);
  }

  method StillInOrder(lsp: array<Word16>) returns (ok: bool)
    requires lsp.Length == P
    ensures ok == Decreasing(lsp[..])
  {
    var temp := 0;
    for i := 0 to P - 1
      invariant temp == 0 <==> forall k :: 0 <= k < i ==> lsp[k] > lsp[k + 1]
    {
      if Sub(lsp[i], lsp[i + 1]) <= 0 {
        temp := 1;
      }
    }
    ok := temp == 0;
    assert ok ==> forall k :: 0 <= k < P - 1 ==> lsp[..][k] > lsp[..][k + 1];
    if !ok {
      var k :| 0 <= k < P - 1 && lsp[k] <= lsp[k + 1];
      assert lsp[..][k] <= lsp[..][k + 1];
    }
  }

  method CopyInto(from: array<Word16>, to: array<Word16>)
    requires from.Length == to.Length == P && from != to
    modifies to
    ensures to[..] == from[..]
  {
    for i := 0 to P
      invariant to[..i] == from[..i]
    {
      to[i] := from[i];
    }
    assert to[..] == to[..P] && from[..] == from[..P];
  }

  /** `Clsp_334`: quantises, and keeps `lsp_old` equal to what it returned. */
  method Clsp334(books: Books, lsp: seq<Word16>, lspQ: array<Word16>, lspOld: array<Word16>)
    returns (ind: Indices)
    requires books.Valid() && |lsp| == P && lspQ.Length == lspOld.Length == P && lspQ != lspOld
    modifies lspQ, lspOld
    ensures ind.Valid()
    ensures FirstMinimum(Distances(lsp, 0, books.dico1, 3, 256), ind.i1, 0)
    ensures FirstMinimum(Distances(lsp, 3, books.dico2, 3, 512), ind.i2, ind.i1)
    ensures FirstMinimum(Distances(lsp, 6, books.dico3, 4, 512), ind.i3, ind.i2)
    ensures lspQ[..] == lspOld[..] == Quantised(books, ind, old(lspOld[..]))
    ensures Accepted(Looked(books, ind), old(lspOld[..]), lspQ[..])
    ensures NearestPart(lsp, 0, books.dico1, 3, 256, Looked(books, ind)[..3])
    ensures NearestPart(lsp, 3, books.dico2, 3, 512, Looked(books, ind)[3..6])
    ensures NearestPart(lsp, 6, books.dico3, 4, 512, Looked(books, ind)[6..])
  {
    hide NearestPart, Looked, Separated, Spaced, Distances, FirstMinimum;
    var i1 := SearchBook(lsp, 0, books.dico1, 3, 256, 0);
    var i2 := SearchBook(lsp, 3, books.dico2, 3, 512, i1);
    var i3 := SearchBook(lsp, 6, books.dico3, 4, 512, i2);
    ind := Indices(i1, i2, i3);
    SearchFindsNearest(lsp, 0, books.dico1, 3, 256, i1, 0);
    SearchFindsNearest(lsp, 3, books.dico2, 3, 512, i2, i1);
    SearchFindsNearest(lsp, 6, books.dico3, 4, 512, i3, i2);
    LookedParts(books, ind);
    LookUp(books, ind, lspQ);
    SeparatedIs(Looked(books, ind));
    var ok := StillInOrder(lspQ);
    if !ok {
      CopyInto(lspOld, lspQ);
    } else {
      CopyInto(lspQ, lspOld);
    }
  }

  /** `D_Lsp334`: the decoder's side, with the previous frame handed in. */
  method DLsp334(books: Books, ind: Indices, lsp: array<Word16>, lspOld: array<Word16>)
    requires books.Valid() && ind.Valid() && lsp.Length == lspOld.Length == P && lsp != lspOld
    modifies lsp
    ensures lsp[..] == Quantised(books, ind, lspOld[..])
    ensures Accepted(Looked(books, ind), lspOld[..], lsp[..])
  {
    hide Looked, Separated, Spaced;
    LookUp(books, ind, lsp);
    SeparatedIs(Looked(books, ind));
    var ok := StillInOrder(lsp);
    if !ok {
      CopyInto(lspOld, lsp);
    }
  }
}
