/** Pixels as byte strings, colours as numbers, and packets of run-length encoded pixels. */
module Runs {

  type byte = x: int | 0 <= x < 256

  type Pixel = seq<byte>

  // ---------------------------------------------------------------- pixels of a buffer

  /** The bytes of `n` pixels. */
  function Bytes(bpp: nat, n: nat): nat { bpp * n }

  function Flat(ps: seq<Pixel>): seq<byte> {
    if ps == [] then [] else ps[0] + Flat(ps[1..])
  }

  /** The whole pixels of a buffer; bytes that do not fill a pixel are left over. */
  function Pixels(data: seq<byte>, bpp: nat): (ps: seq<Pixel>)
    requires bpp > 0
    ensures forall p <- ps :: |p| == bpp
    decreases |data|
  {
    if |data| < bpp then [] else [data[..bpp]] + Pixels(data[bpp..], bpp)
  }

  predicate AllSize(ps: seq<Pixel>, bpp: nat) { forall p <- ps :: |p| == bpp }

  lemma {:induction false} FlatAppend(a: seq<Pixel>, b: seq<Pixel>)
    ensures Flat(a + b) == Flat(a) + Flat(b)
  {
    if a == [] {
      assert a + b == b;
    } else {
      assert (a + b)[1..] == a[1..] + b;
      FlatAppend(a[1..], b);
    }
  }

  lemma {:induction false} FlatSize(ps: seq<Pixel>, bpp: nat)
    requires AllSize(ps, bpp)
    ensures |Flat(ps)| == bpp * |ps|
  {
    if ps != [] {
      FlatSize(ps[1..], bpp);
      MulNext(bpp, |ps| - 1);
    }
  }

  lemma MulNext(b: nat, n: nat)
    ensures b * (n + 1) == b * n + b
  {
  }

  lemma MulLess(b: nat, x: nat, y: nat)
    ensures x < y ==> b * x + b <= b * y
  {
    if x < y {
      assert b * y == b * x + b * (y - x);
      MulNext(b, y - x - 1);
    }
  }

  /** The pixels stand one behind the other in the buffer. */
  lemma {:induction false} PixelAt(data: seq<byte>, bpp: nat, i: nat)
    requires bpp > 0 && i < |Pixels(data, bpp)|
    ensures bpp * i + bpp <= |data|
    ensures Pixels(data, bpp)[i] == data[bpp * i..bpp * i + bpp]
  {
    if i > 0 {
      PixelAt(data[bpp..], bpp, i - 1);
      var m := bpp * (i - 1);
      MulNext(bpp, i - 1);
    }
  }

  lemma {:induction false} FlatPixels(data: seq<byte>, bpp: nat)
    requires bpp > 0
    ensures var n := bpp * |Pixels(data, bpp)|; |data| - bpp < n <= |data| && Flat(Pixels(data, bpp)) == data[..n]
    decreases |data|
  {
    if |data| >= bpp {
      var rest := Pixels(data[bpp..], bpp);
      FlatPixels(data[bpp..], bpp);
      MulNext(bpp, |rest|);
      FlatMore(data, bpp, rest, bpp * |rest|);
    }
  }

  lemma FlatMore(data: seq<byte>, bpp: nat, rest: seq<Pixel>, n: nat)
    requires bpp <= |data| && n <= |data| - bpp && Flat(rest) == data[bpp..][..n]
    ensures Flat([data[..bpp]] + rest) == data[..bpp + n]
  {
    assert ([data[..bpp]] + rest)[1..] == rest;
  }

  lemma SmallQuotient(a: nat, b: nat, q: nat)
    requires 1 <= b <= 4 && a - b < b * q <= a
    ensures q == a / b
  {
    if b == 1 {
    } else if b == 2 {
    } else if b == 3 {
    } else {
      assert b == 4;
    }
  }

  /** The number of whole pixels is what the division yields. */
  lemma PixelCount(data: seq<byte>, bpp: nat)
    requires 1 <= bpp <= 4
    ensures |Pixels(data, bpp)| == |data| / bpp
  {
    FlatPixels(data, bpp);
    SmallQuotient(|data|, bpp, |Pixels(data, bpp)|);
  }

  lemma SliceJoin(data: seq<byte>, i: nat, j: nat, k: nat)
    requires i <= j <= k <= |data|
    ensures data[i..j] + data[j..k] == data[i..k]
  {
  }

  lemma Within(data: seq<byte>, bpp: nat, i: nat, n: nat)
    requires bpp > 0 && i + n <= |Pixels(data, bpp)|
    ensures bpp * i <= bpp * (i + n) <= |data|
  {
    FlatPixels(data, bpp);
    MulLess(bpp, i, i + n);
    MulLess(bpp, i + n, |Pixels(data, bpp)|);
  }

  /** A stretch of pixels is a stretch of the buffer. */
  lemma {:induction false} FlatSlice(data: seq<byte>, bpp: nat, i: nat, n: nat)
    requires bpp > 0 && i + n <= |Pixels(data, bpp)|
    ensures bpp * i <= bpp * (i + n) <= |data|
    ensures Flat(Pixels(data, bpp)[i..i + n]) == data[bpp * i..bpp * (i + n)]
    decreases n
  {
    hide Pixels;
    Within(data, bpp, i, n);
    var px := Pixels(data, bpp);
    if n == 0 {
      assert px[i..i + n] == [];
    } else {
      PixelAt(data, bpp, i);
      MulNext(bpp, i);
      FlatSlice(data, bpp, i + 1, n - 1);
      assert (i + 1) + (n - 1) == i + n;
      assert px[i..i + n] == [px[i]] + px[i + 1..i + n];
      FlatOneMore(px[i], px[i + 1..i + n]);
      SliceJoin(data, bpp * i, bpp * i + bpp, bpp * (i + n));
    }
  }

  lemma FlatOneMore(p: Pixel, ps: seq<Pixel>)
    ensures Flat([p] + ps) == p + Flat(ps)
  {
    assert ([p] + ps)[1..] == ps;
  }

  lemma {:induction false} PixelsExact(data: seq<byte>, bpp: nat, n: nat)
    requires bpp > 0 && |data| == Bytes(bpp, n)
    ensures |Pixels(data, bpp)| == n
  {
    if n > 0 {
      MulNext(bpp, n - 1);
      PixelsExact(data[bpp..], bpp, n - 1);
    }
  }

  lemma {:induction false} PixelsAppend(a: seq<byte>, b: seq<byte>, bpp: nat, n: nat)
    requires bpp > 0 && |a| == Bytes(bpp, n)
    ensures Pixels(a + b, bpp) == Pixels(a, bpp) + Pixels(b, bpp)
  {
    if n == 0 {
      assert a + b == b;
    } else {
      MulNext(bpp, n - 1);
      assert (a + b)[..bpp] == a[..bpp] && (a + b)[bpp..] == a[bpp..] + b;
      PixelsAppend(a[bpp..], b, bpp, n - 1);
    }
  }

  // ---------------------------------------------------------------- colours

  /** Lowest byte first. */
  function Little(p: Pixel): nat { if p == [] then 0 else p[0] + 256 * Little(p[1..]) }

  function LittleBytes(c: nat, n: nat): (p: Pixel)
    ensures |p| == n
  {
    if n == 0 then [] else [c % 256] + LittleBytes(c / 256, n - 1)
  }

  lemma {:induction false} LittleBack(p: Pixel)
    ensures LittleBytes(Little(p), |p|) == p
  {
    if p != [] { LittleBack(p[1..]); }
  }

  /** Highest byte first. */
  function Big(p: Pixel): nat { if p == [] then 0 else 256 * Big(p[..|p| - 1]) + p[|p| - 1] }

  function BigBytes(c: nat, n: nat): (p: Pixel)
    ensures |p| == n
  {
    if n == 0 then [] else BigBytes(c / 256, n - 1) + [c % 256]
  }

  lemma {:induction false} BigBack(p: Pixel)
    ensures BigBytes(Big(p), |p|) == p
  {
    if p != [] { BigBack(p[..|p| - 1]); }
  }

  /** Pixels of one size are equal if their colours are. */
  lemma SameColour(p: Pixel, q: Pixel)
    requires |p| == |q|
    ensures Little(p) == Little(q) <==> p == q
    ensures Big(p) == Big(q) <==> p == q
  {
    LittleBack(p);
    LittleBack(q);
    BigBack(p);
    BigBack(q);
  }

  // ---------------------------------------------------------------- packets

  datatype Packet = Run(count: nat, p: Pixel) | Raw(ps: seq<Pixel>)

  function Repeat(p: Pixel, n: nat): (ps: seq<Pixel>)
    ensures |ps| == n && forall i | 0 <= i < n :: ps[i] == p
  {
    if n == 0 then [] else [p] + Repeat(p, n - 1)
  }

  function ExpandOne(k: Packet): seq<Pixel> {
    match k case Run(n, p) => Repeat(p, n) case Raw(ps) => ps
  }

  function Expand(ks: seq<Packet>): seq<Pixel> {
    if ks == [] then [] else ExpandOne(ks[0]) + Expand(ks[1..])
  }

  /** What both formats can say: packets of 1 to 128 pixels of one size. */
  predicate Valid(k: Packet, bpp: nat) {
    match k
    case Run(n, p) => 1 <= n <= 128 && |p| == bpp
    case Raw(ps) => 1 <= |ps| <= 128 && AllSize(ps, bpp)
  }

  lemma {:induction false} ExpandAppend(a: seq<Packet>, b: seq<Packet>)
    ensures Expand(a + b) == Expand(a) + Expand(b)
  {
    if a == [] {
      assert a + b == b;
    } else {
      assert (a + b)[1..] == a[1..] + b;
      ExpandAppend(a[1..], b);
    }
  }

  lemma ExpandSnoc(ks: seq<Packet>, k: Packet)
    ensures Expand(ks + [k]) == Expand(ks) + ExpandOne(k)
  {
    ExpandAppend(ks, [k]);
    assert [k][1..] == [];
    assert Expand([k]) == ExpandOne(k) + [];
  }

  // ---------------------------------------------------------------- writing

  method CopyOut(out: array<byte>, p: nat, s: seq<byte>)
    requires p + |s| <= out.Length
    modifies out
    ensures out[..p + |s|] == old(out[..p]) + s
  {
    var i := 0;
    while i < |s|
      invariant 0 <= i <= |s| && out[..p + i] == old(out[..p]) + s[..i]
    {
      out[p + i] := s[i];
      assert out[..p + i + 1] == out[..p + i] + [s[i]];
      i := i + 1;
    }
    assert s[..i] == s;
  }
}
