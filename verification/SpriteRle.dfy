/** The run-length encoding of sprite files: rows are packed one by one, and unpacked in one go. */
module SpriteRle {
  import opened Runs

  // ---------------------------------------------------------------- the format

  /** Runs have at least two pixels. */
  predicate Fine(k: Packet, bpp: nat) {
    Valid(k, bpp) && (k.Run? ==> k.count >= 2)
  }

  predicate AllFine(ks: seq<Packet>, bpp: nat) { forall k <- ks :: Fine(k, bpp) }

  /** A signed byte: one less than the number of pixels, negative for runs. */
  function Encoded(k: Packet, bpp: nat): (s: seq<byte>)
    requires Fine(k, bpp)
    ensures |s| > 0
  {
    match k
    case Run(n, p) => [256 - (n - 1)] + p
    case Raw(ps) => [|ps| - 1] + Flat(ps)
  }

  function Stream(ks: seq<Packet>, bpp: nat): seq<byte>
    requires AllFine(ks, bpp)
  {
    if ks == [] then [] else Encoded(ks[0], bpp) + Stream(ks[1..], bpp)
  }

  /** The byte -128, which the decoder reads as 0, never starts a packet. */
  lemma NeverMinus128(k: Packet, bpp: nat)
    requires Fine(k, bpp)
    ensures Encoded(k, bpp)[0] != 128
  {
  }

  lemma {:induction false} StreamAppend(a: seq<Packet>, b: seq<Packet>, bpp: nat)
    requires AllFine(a, bpp) && AllFine(b, bpp)
    ensures AllFine(a + b, bpp) && Stream(a + b, bpp) == Stream(a, bpp) + Stream(b, bpp)
  {
    hide Encoded, Fine;
    if a == [] {
      assert a + b == b;
    } else {
      assert (a + b)[1..] == a[1..] + b && (a + b)[0] == a[0];
      StreamAppend(a[1..], b, bpp);
    }
  }

  // ---------------------------------------------------------------- unpacking

  /** What unpacking comes to: the pixels and how many bytes they took; a packet with more pixels than are
      wanted; or a read behind the end of the input, which the decoder does not check. */
  datatype Unpacked = Unpacked(out: seq<byte>, used: nat) | Refused | Overread

  /** `n` pixels as they are, of which `size` are wanted. */
  function Grab(d: seq<byte>, bpp: nat, n: nat, size: nat): (u: Unpacked)
    ensures u.Unpacked? ==> u.used <= |d|
  {
    if n == 0 then Unpacked([], 0)
    else if size == 0 then Refused
    else if |d| < bpp then Overread
    else More(d[..bpp], bpp, Grab(d[bpp..], bpp, n - 1, size - 1))
  }

  function More(s: seq<byte>, k: nat, u: Unpacked): Unpacked {
    match u case Unpacked(out, used) => Unpacked(s + out, k + used) case _ => u
  }

  /** A run of `n` pixels, of which `size` are wanted. */
  function Spread(d: seq<byte>, bpp: nat, n: nat, size: nat): (u: Unpacked)
    ensures u.Unpacked? ==> u.used <= |d|
  {
    if |d| < bpp then Overread
    else if n > size then Refused
    else Unpacked(Flat(Repeat(d[..bpp], n)), bpp)
  }

  /** The number of pixels of a packet. */
  function PacketSize(c: byte): (n: nat)
    ensures 1 <= n <= 128
  {
    if c > 128 then 257 - c else if c == 128 then 1 else c + 1
  }

  function OnePacket(d: seq<byte>, bpp: nat, size: nat): (u: Unpacked)
    requires |d| > 0
    ensures u.Unpacked? ==> 0 < u.used <= |d|
  {
    if d[0] > 128 then More([], 1, Spread(d[1..], bpp, PacketSize(d[0]), size))
    else More([], 1, Grab(d[1..], bpp, PacketSize(d[0]), size))
  }

  /** The first `size` pixels of a packed image. */
  function Unpack(d: seq<byte>, bpp: nat, size: nat): Unpacked
    decreases |d|
  {
    if size == 0 then Unpacked([], 0)
    else if d == [] then Overread
    else
      match OnePacket(d, bpp, size)
      case Unpacked(out, used) =>
        var n := PacketSize(d[0]);
        if n > size then Refused else More(out, 1 + (used - 1), Unpack(d[used..], bpp, size - n))
      case u => u
  }

  lemma {:induction false} GrabAll(ps: seq<Pixel>, bpp: nat, size: nat, rest: seq<byte>)
    requires AllSize(ps, bpp) && |ps| <= size
    ensures Grab(Flat(ps) + rest, bpp, |ps|, size) == Unpacked(Flat(ps), |Flat(ps)|)
  {
    if ps != [] {
      var d := Flat(ps) + rest;
      assert d[..bpp] == ps[0] && d[bpp..] == Flat(ps[1..]) + rest;
      GrabAll(ps[1..], bpp, size - 1, rest);
    }
  }

  lemma Behind(c: byte, s: seq<byte>, rest: seq<byte>)
    ensures ([c] + s + rest)[1..] == s + rest && (s + rest)[..|s|] == s
  {
  }

  lemma PacketBack(k: Packet, bpp: nat, rest: seq<byte>, size: nat)
    requires Fine(k, bpp) && |ExpandOne(k)| <= size
    ensures PacketSize(Encoded(k, bpp)[0]) == |ExpandOne(k)|
    ensures OnePacket(Encoded(k, bpp) + rest, bpp, size) == Unpacked(Flat(ExpandOne(k)), |Encoded(k, bpp)|)
  {
    hide Flat, Repeat, Grab;
    match k
    case Run(n, p) => Behind(257 - n, p, rest);
    case Raw(ps) =>
      Behind(|ps| - 1, Flat(ps), rest);
      GrabAll(ps, bpp, size, rest);
  }

  lemma UnpackNext(s: seq<byte>, rest: seq<byte>, bpp: nat, size: nat, out: seq<byte>)
    requires |s| > 0 && OnePacket(s + rest, bpp, size) == Unpacked(out, |s|) && PacketSize(s[0]) <= size
    ensures Unpack(s + rest, bpp, size) == More(out, |s|, Unpack(rest, bpp, size - PacketSize(s[0])))
  {
    assert (s + rest)[|s|..] == rest;
  }

  /** Unpacking gives back the pixels of the packets, whatever follows them. */
  lemma {:induction false} UnpackStream(ks: seq<Packet>, bpp: nat, rest: seq<byte>)
    requires AllFine(ks, bpp)
    ensures Unpack(Stream(ks, bpp) + rest, bpp, |Expand(ks)|) == Unpacked(Flat(Expand(ks)), |Stream(ks, bpp)|)
  {
    hide OnePacket, Encoded, Unpack, ExpandOne, PacketSize, Fine;
    if ks == [] {
      UnpackNone(Stream(ks, bpp) + rest, bpp);
    } else {
      var tail := Stream(ks[1..], bpp) + rest;
      assert Fine(ks[0], bpp);
      assert Stream(ks, bpp) + rest == Encoded(ks[0], bpp) + tail;
      PacketBack(ks[0], bpp, tail, |Expand(ks)|);
      UnpackNext(Encoded(ks[0], bpp), tail, bpp, |Expand(ks)|, Flat(ExpandOne(ks[0])));
      UnpackStream(ks[1..], bpp, rest);
      FlatAppend(ExpandOne(ks[0]), Expand(ks[1..]));
    }
  }

  lemma UnpackNone(d: seq<byte>, bpp: nat)
    ensures Unpack(d, bpp, 0) == Unpacked([], 0)
  {
  }

  // ---------------------------------------------------------------- packing a row

  /** The last of the equal pixels from `j` on, at most `jmax`. */
  function SameEnd(px: seq<Pixel>, j: nat, jmax: nat): (e: nat)
    requires j <= jmax < |px|
    ensures j <= e <= jmax && forall i | j <= i <= e :: px[i] == px[j]
    decreases jmax - j
  {
    if j < jmax && px[j] == px[j + 1] then SameEnd(px, j + 1, jmax) else j
  }

  /** The first pixel from `j` on that equals the one behind it, at most `jmax`. */
  function DiffEnd(px: seq<Pixel>, j: nat, jmax: nat): (e: nat)
    requires j <= jmax < |px|
    ensures j <= e <= jmax
    decreases jmax - j
  {
    if j < jmax && px[j] != px[j + 1] then DiffEnd(px, j + 1, jmax) else j
  }

  function Jmax(size: nat, n: nat): nat
    requires n + 1 < size
  {
    if n + 127 >= size then size - 1 else n + 127
  }

  /** The packet for the pixels from `n` on. */
  function Next(px: seq<Pixel>, n: nat): (k: Packet)
    requires n < |px|
    ensures 1 <= |ExpandOne(k)| <= 128 && n + |ExpandOne(k)| <= |px|
    ensures ExpandOne(k) == px[n..n + |ExpandOne(k)|]
    ensures k.Run? ==> k.count >= 2
    ensures k.Raw? ==> |k.ps| >= 2 || n + 1 == |px|
  {
    if n == |px| - 1 then Raw([px[n]])
    else if px[n] == px[n + 1] then
      var c := SameEnd(px, n + 1, Jmax(|px|, n)) - n + 1;
      assert Repeat(px[n], c) == px[n..n + c];
      Run(c, px[n])
    else Raw(px[n..DiffEnd(px, n + 1, Jmax(|px|, n)) + 1])
  }

  function Pack(px: seq<Pixel>, n: nat): seq<Packet>
    requires n <= |px|
    decreases |px| - n
  {
    if n == |px| then [] else [Next(px, n)] + Pack(px, n + |ExpandOne(Next(px, n))|)
  }

  lemma NextFine(px: seq<Pixel>, bpp: nat, n: nat)
    requires n < |px| && AllSize(px, bpp)
    ensures Fine(Next(px, n), bpp)
  {
    var k := Next(px, n);
    forall p | p in ExpandOne(k) ensures |p| == bpp { assert p in px; }
    if k.Run? { assert ExpandOne(k)[0] == k.p; }
  }

  /** The packets hold the row. */
  lemma {:induction false} PackHolds(px: seq<Pixel>, bpp: nat, n: nat)
    requires n <= |px| && AllSize(px, bpp)
    ensures AllFine(Pack(px, n), bpp) && Expand(Pack(px, n)) == px[n..]
    decreases |px| - n
  {
    hide Next, Fine, ExpandOne;
    if n < |px| {
      NextFine(px, bpp, n);
      var m := n + |ExpandOne(Next(px, n))|;
      PackHolds(px, bpp, m);
      assert px[n..] == px[n..m] + px[m..];
    }
  }

  /** One byte in excess of the pixels for every two pixels, and one more for a single last one. */
  predicate Small(bpp: nat, size: nat, n: nat, extra: nat) {
    2 * (size - Bytes(bpp, n)) <= n + extra
  }

  lemma NextSmall(px: seq<Pixel>, bpp: nat, n: nat)
    requires n < |px| && AllSize(px, bpp) && bpp > 0
    ensures var k := Next(px, n);
            && Fine(k, bpp)
            && Small(bpp, |Encoded(k, bpp)|, |ExpandOne(k)|, if n + |ExpandOne(k)| == |px| then 1 else 0)
  {
    hide Next, Flat;
    NextFine(px, bpp, n);
    match Next(px, n)
    case Run(c, p) => MulLess(bpp, 1, c);
    case Raw(ps) => FlatSize(ps, bpp);
  }

  lemma SmallSum(bpp: nat, a: nat, m: nat, b: nat, n: nat, extra: nat)
    requires Small(bpp, a, m, 0) && Small(bpp, b, n, extra)
    ensures Small(bpp, a + b, m + n, extra)
  {
    assert bpp * (m + n) == bpp * m + bpp * n;
  }

  /** A packed row takes at most half a byte a pixel, rounded up, more than the pixels. */
  lemma {:induction false} PackSmall(px: seq<Pixel>, bpp: nat, n: nat)
    requires n <= |px| && AllSize(px, bpp) && bpp > 0
    ensures AllFine(Pack(px, n), bpp)
    ensures Small(bpp, |Stream(Pack(px, n), bpp)|, |px| - n, 1)
    decreases |px| - n
  {
    hide Small, Fine, Encoded, Next, ExpandOne, Expand;
    PackHolds(px, bpp, n);
    if n < |px| {
      var k := Next(px, n);
      var m := n + |ExpandOne(k)|;
      PackSmall(px, bpp, m);
      NextSmall(px, bpp, n);
      assert |Stream(Pack(px, n), bpp)| == |Encoded(k, bpp)| + |Stream(Pack(px, m), bpp)|;
      if m < |px| {
        SmallSum(bpp, |Encoded(k, bpp)|, m - n, |Stream(Pack(px, m), bpp)|, |px| - m, 1);
      } else {
        assert Pack(px, m) == [];
      }
    } else {
      SmallNothing(bpp);
    }
  }

  lemma SmallNothing(bpp: nat)
    ensures Small(bpp, 0, 0, 1)
  {
  }

  /** The colour of pixel `i` of a row, highest byte first. */
  method ReadPixel(row: seq<byte>, i: nat, bpp: nat) returns (col: nat)
    requires bpp > 0 && i < |Pixels(row, bpp)|
    ensures col == Big(Pixels(row, bpp)[i])
  {
    PixelAt(row, bpp, i);
    var at := bpp * i;
    col := Big(row[at..at + bpp]);
  }

  lemma NextLast(px: seq<Pixel>, bpp: nat, n: nat)
    requires n + 1 == |px| && AllSize(px, bpp)
    ensures var k := Next(px, n); Fine(k, bpp) && |ExpandOne(k)| == 1 && Encoded(k, bpp) == [0] + px[n]
  {
    NextFine(px, bpp, n);
    OnePixel(px[n]);
  }

  lemma NextRun(px: seq<Pixel>, bpp: nat, n: nat, j: nat)
    requires n + 1 < |px| && AllSize(px, bpp) && px[n] == px[n + 1] && j == SameEnd(px, n + 1, Jmax(|px|, n))
    ensures var k := Next(px, n);
            Fine(k, bpp) && n + |ExpandOne(k)| == j + 1 && Encoded(k, bpp) == [256 - (j - n)] + px[n]
  {
    NextFine(px, bpp, n);
  }

  lemma NextRaw(px: seq<Pixel>, bpp: nat, n: nat, j: nat)
    requires n + 1 < |px| && AllSize(px, bpp) && px[n] != px[n + 1] && j == DiffEnd(px, n + 1, Jmax(|px|, n))
    ensures var k := Next(px, n);
            && Fine(k, bpp) && n + |ExpandOne(k)| == j + 1
            && Encoded(k, bpp) == [j - n] + Flat(px[n..j + 1])
  {
    NextFine(px, bpp, n);
  }

  /** The packet for the pixels from `n` on, and where the next one starts. */
  method PutPacket(row: seq<byte>, size: nat, bpp: nat, n: nat) returns (s: seq<byte>, m: nat)
    requires bpp > 0 && size == |Pixels(row, bpp)| && n < size
    ensures Fine(Next(Pixels(row, bpp), n), bpp) && s == Encoded(Next(Pixels(row, bpp), n), bpp)
    ensures m == n + |ExpandOne(Next(Pixels(row, bpp), n))|
  {
    hide Pixels, Fine, Flat, Big, BigBytes, Next, Encoded, ExpandOne, SameEnd, DiffEnd;
    ghost var px := Pixels(row, bpp);
    var i, j, jmax := n, n + 1, n + 127;
    if jmax >= size { jmax := size - 1; }
    var a := ReadPixel(row, i, bpp);
    BigBack(px[n]);
    if i == size - 1 {
      NextLast(px, bpp, n);
      return [0] + BigBytes(a, bpp), n + 1;
    }
    var b := ReadPixel(row, j, bpp);
    SameColour(px[i], px[j]);
    if a == b {
      j := FindSame(row, bpp, size, j, jmax);
      NextRun(px, bpp, n, j);
      return [256 - (j - i)] + BigBytes(a, bpp), j + 1;
    }
    j := FindDiff(row, bpp, size, j, jmax);
    NextRaw(px, bpp, n, j);
    FlatSlice(row, bpp, i, j + 1 - i);
    s, m := [j - i] + row[bpp * i..bpp * (j + 1)], j + 1;
  }

  /** Packs one row. */
  method Packl(row: seq<byte>, size: nat, bpp: nat) returns (out: seq<byte>)
    requires bpp > 0 && size == |Pixels(row, bpp)|
    ensures AllFine(Pack(Pixels(row, bpp), 0), bpp) && out == Stream(Pack(Pixels(row, bpp), 0), bpp)
  {
    hide Pixels, Pack, Stream, Expand, Fine, Flat, Next, Encoded, ExpandOne;
    ghost var px := Pixels(row, bpp);
    PackHolds(px, bpp, 0);
    ghost var all := Stream(Pack(px, 0), bpp);
    out := [];
    var n := 0;
    while n < size
      invariant n <= size && AllFine(Pack(px, n), bpp) && out + Stream(Pack(px, n), bpp) == all
    {
      ghost var was := out;
      var s, m := PutPacket(row, size, bpp, n);
      PackStep(px, bpp, n, Next(px, n), m);
      out, n := out + s, m;
      assert (was + s) + Stream(Pack(px, m), bpp) == was + (s + Stream(Pack(px, m), bpp));
    }
    PackDone(px, bpp);
  }

  lemma OnePixel(p: Pixel)
    ensures Flat([p]) == p
  {
    assert [p][1..] == [];
  }

  lemma PackDone(px: seq<Pixel>, bpp: nat)
    ensures AllFine(Pack(px, |px|), bpp) && Stream(Pack(px, |px|), bpp) == []
  {
  }

  lemma PackStep(px: seq<Pixel>, bpp: nat, n: nat, k: Packet, m: nat)
    requires n < m <= |px| && AllSize(px, bpp) && k == Next(px, n) && m == n + |ExpandOne(k)|
    ensures Fine(k, bpp) && AllFine(Pack(px, n), bpp) && AllFine(Pack(px, m), bpp)
    ensures Stream(Pack(px, n), bpp) == Encoded(k, bpp) + Stream(Pack(px, m), bpp)
  {
    hide Next, Fine, Encoded, ExpandOne, Expand;
    NextFine(px, bpp, n);
    PackHolds(px, bpp, n);
    PackHolds(px, bpp, m);
  }

  method FindSame(row: seq<byte>, bpp: nat, size: nat, from: nat, jmax: nat) returns (j: nat)
    requires bpp > 0 && size == |Pixels(row, bpp)| && from <= jmax < size
    ensures j == SameEnd(Pixels(row, bpp), from, jmax)
  {
    j := from;
    while j < jmax
      invariant from <= j <= jmax && SameEnd(Pixels(row, bpp), j, jmax) == SameEnd(Pixels(row, bpp), from, jmax)
    {
      var a := ReadPixel(row, j, bpp);
      var b := ReadPixel(row, j + 1, bpp);
      SameColour(Pixels(row, bpp)[j], Pixels(row, bpp)[j + 1]);
      if a != b { return; }
      j := j + 1;
    }
  }

  method FindDiff(row: seq<byte>, bpp: nat, size: nat, from: nat, jmax: nat) returns (j: nat)
    requires bpp > 0 && size == |Pixels(row, bpp)| && from <= jmax < size
    ensures j == DiffEnd(Pixels(row, bpp), from, jmax)
  {
    j := from;
    while j < jmax
      invariant from <= j <= jmax && DiffEnd(Pixels(row, bpp), j, jmax) == DiffEnd(Pixels(row, bpp), from, jmax)
    {
      var a := ReadPixel(row, j, bpp);
      var b := ReadPixel(row, j + 1, bpp);
      SameColour(Pixels(row, bpp)[j], Pixels(row, bpp)[j + 1]);
      if a == b { return; }
      j := j + 1;
    }
  }

  // ---------------------------------------------------------------- whole images

  /** The bytes a packed row takes at most. */
  function RowLimit(bpp: nat, width: nat): nat { bpp * width + (width + 1) / 2 }

  lemma RowFits(row: seq<byte>, bpp: nat, width: nat)
    requires bpp > 0 && |row| == Bytes(bpp, width)
    ensures var px := Pixels(row, bpp);
            && |px| == width && AllSize(px, bpp) && AllFine(Pack(px, 0), bpp)
            && Expand(Pack(px, 0)) == px && |Stream(Pack(px, 0), bpp)| <= RowLimit(bpp, width)
  {
    hide Pixels, Pack, Stream, Expand;
    PixelsExact(row, bpp, width);
    PackHolds(Pixels(row, bpp), bpp, 0);
    PackSmall(Pixels(row, bpp), bpp, 0);
    assert Pixels(row, bpp)[0..] == Pixels(row, bpp);
  }

  function PackRow(row: seq<byte>, bpp: nat): seq<byte>
    requires bpp > 0
  {
    PackHolds(Pixels(row, bpp), bpp, 0);
    Stream(Pack(Pixels(row, bpp), 0), bpp)
  }

  /** The packed rows of an image, one behind the other. */
  function PackImage(data: seq<byte>, bpp: nat, width: nat, rows: nat): seq<byte>
    requires bpp > 0 && |data| == Bytes(bpp, Bytes(width, rows))
  {
    if rows == 0 then []
    else
      RowInside(bpp, width, rows - 1, rows);
      var p := Bytes(bpp, Bytes(width, rows - 1));
      PackImage(data[..p], bpp, width, rows - 1) + PackRow(data[p..], bpp)
  }

  lemma ImageRow(data: seq<byte>, row: seq<byte>, bpp: nat, width: nat, rows: nat)
    requires bpp > 0 && |data| == Bytes(bpp, Bytes(width, rows)) && |row| == Bytes(bpp, width)
    ensures |data + row| == Bytes(bpp, Bytes(width, rows + 1))
    ensures PackImage(data + row, bpp, width, rows + 1) == PackImage(data, bpp, width, rows) + PackRow(row, bpp)
  {
    hide Bytes, PackRow;
    RowInside(bpp, width, rows, rows + 1);
    assert (data + row)[..|data|] == data && (data + row)[|data|..] == row;
  }

  /** `out` is packets for the pixels of `data`, row by row. */
  ghost predicate Packed(data: seq<byte>, bpp: nat, width: nat, rows: nat, out: seq<byte>, ks: seq<Packet>) {
    && bpp > 0 && AllFine(ks, bpp) && out == Stream(ks, bpp)
    && Expand(ks) == Pixels(data, bpp) && |data| == Bytes(bpp, Bytes(width, rows))
    && |out| <= Bytes(RowLimit(bpp, width), rows)
  }

  lemma PackedNothing(bpp: nat, width: nat)
    requires bpp > 0
    ensures Packed([], bpp, width, 0, [], []) && Bytes(bpp, Bytes(width, 0)) == 0
  {
  }

  lemma PackedRow(data: seq<byte>, row: seq<byte>, bpp: nat, width: nat, rows: nat,
                  out: seq<byte>, ks: seq<Packet>, ls: seq<Packet>)
    requires Packed(data, bpp, width, rows, out, ks) && |row| == Bytes(bpp, width)
    requires ls == Pack(Pixels(row, bpp), 0)
    ensures AllFine(ls, bpp) && Packed(data + row, bpp, width, rows + 1, out + Stream(ls, bpp), ks + ls)
  {
    hide Pixels, Pack, Stream, Expand, RowLimit, Fine;
    RowFits(row, bpp, width);
    StreamAppend(ks, ls, bpp);
    ExpandAppend(ks, ls);
    PixelsAppend(data, row, bpp, Bytes(width, rows));
    MulNext(width, rows);
    MulNext(RowLimit(bpp, width), rows);
    SumBytes(bpp, Bytes(width, rows), width);
  }

  lemma SumBytes(b: nat, x: nat, y: nat)
    ensures Bytes(b, x + y) == Bytes(b, x) + Bytes(b, y)
  {
  }

  lemma PackedUnpacks(data: seq<byte>, bpp: nat, width: nat, rows: nat, out: seq<byte>, ks: seq<Packet>)
    requires Packed(data, bpp, width, rows, out, ks)
    ensures Unpack(out, bpp, Bytes(width, rows)) == Unpacked(data, |out|)
  {
    hide Pixels, Stream, Expand, Unpack, Flat;
    PixelsExact(data, bpp, Bytes(width, rows));
    FlatPixels(data, bpp);
    UnpackStream(ks, bpp, []);
    assert Stream(ks, bpp) + [] == Stream(ks, bpp);
    assert data[..|data|] == data;
  }

  /** Packs an image row by row. Unpacking the whole, which knows of no rows, gives the image back. */
  method AgsPack(data: seq<byte>, width: nat, height: nat, bpp: nat) returns (out: seq<byte>)
    requires bpp > 0 && |data| == Bytes(bpp, Bytes(width, height))
    ensures Unpack(out, bpp, Bytes(width, height)) == Unpacked(data, |out|)
    ensures out == PackImage(data, bpp, width, height) && |out| <= Bytes(RowLimit(bpp, width), height)
  {
    hide Packed, RowLimit, Unpack, Bytes, Pixels, Pack, Stream, Fine;
    out := [];
    ghost var ks: seq<Packet> := [];
    PackedNothing(bpp, width);
    var y, p, rowBytes := 0, 0, Bytes(width, bpp);
    while y < height
      invariant y <= height && p <= |data| && p == Bytes(bpp, Bytes(width, y))
      invariant Packed(data[..p], bpp, width, y, out, ks) && out == PackImage(data[..p], bpp, width, y)
    {
      RowInside(bpp, width, y, height);
      var row := data[p..p + rowBytes];
      PixelsExact(row, bpp, width);
      PackedRow(data[..p], row, bpp, width, y, out, ks, Pack(Pixels(row, bpp), 0));
      var s := Packl(row, width, bpp);
      assert data[..p + rowBytes] == data[..p] + row;
      ImageRow(data[..p], row, bpp, width, y);
      ks := ks + Pack(Pixels(row, bpp), 0);
      out, p, y := out + s, p + rowBytes, y + 1;
    }
    assert data[..p] == data;
    PackedUnpacks(data, bpp, width, height, out, ks);
    PackedSize(data, bpp, width, height, out, ks);
  }

  lemma PackedSize(data: seq<byte>, bpp: nat, width: nat, rows: nat, out: seq<byte>, ks: seq<Packet>)
    requires Packed(data, bpp, width, rows, out, ks)
    ensures |out| <= Bytes(RowLimit(bpp, width), rows)
  {
  }

  lemma RowInside(bpp: nat, width: nat, y: nat, height: nat)
    requires y < height
    ensures Bytes(bpp, Bytes(width, y)) + Bytes(width, bpp) == Bytes(bpp, Bytes(width, y + 1))
    ensures Bytes(bpp, Bytes(width, y + 1)) <= Bytes(bpp, Bytes(width, height))
    ensures Bytes(width, bpp) == Bytes(bpp, width)
  {
    MulNext(width, y);
    SumBytes(bpp, Bytes(width, y), width);
    SumBytes(width, y + 1, height - y - 1);
    SumBytes(bpp, Bytes(width, y + 1), Bytes(width, height - y - 1));
  }

  // ---------------------------------------------------------------- the bound is tight

  /** Pixels a, b, b, c, c, d, ...: no packet ever gets more than two of them. */
  function Stairs(width: nat, bpp: nat): (px: seq<Pixel>)
    ensures |px| == width && AllSize(px, bpp)
    ensures forall i | 0 <= i < width :: px[i] == LittleBytes((i + 1) / 2 % 256, bpp)
  {
    seq(width, i => LittleBytes((i + 1) / 2 % 256, bpp))
  }

  lemma NextPair(px: seq<Pixel>, n: nat)
    requires n + 1 < |px| && px[n] != px[n + 1] && (n + 2 < |px| ==> px[n + 1] == px[n + 2])
    ensures Next(px, n) == Raw(px[n..n + 2])
  {
    assert DiffEnd(px, n + 1, Jmax(|px|, n)) == n + 1;
  }

  lemma ColoursDiffer(a: byte, b: byte, bpp: nat)
    requires bpp > 0 && a != b
    ensures LittleBytes(a, bpp) != LittleBytes(b, bpp)
  {
    assert LittleBytes(a, bpp)[0] == a && LittleBytes(b, bpp)[0] == b;
  }

  lemma StairsNext(width: nat, bpp: nat, k: nat)
    requires 2 * k + 1 < width && bpp > 0
    ensures Next(Stairs(width, bpp), 2 * k) == Raw(Stairs(width, bpp)[2 * k..2 * k + 2])
  {
    hide Next, LittleBytes, Stairs;
    var px, n := Stairs(width, bpp), 2 * k;
    assert (n + 1) / 2 == k && (n + 2) / 2 == k + 1 && (n + 3) / 2 == k + 1;
    ColoursDiffer(k % 256, (k + 1) % 256, bpp);
    assert px[n] == LittleBytes(k % 256, bpp) && px[n + 1] == LittleBytes((k + 1) % 256, bpp);
    assert n + 2 < width ==> px[n + 2] == LittleBytes((k + 1) % 256, bpp);
    NextPair(px, n);
  }

  lemma LimitOfTwoMore(bpp: nat, n: nat)
    ensures RowLimit(bpp, n + 2) == 1 + 2 * bpp + RowLimit(bpp, n)
  {
    MulNext(bpp, n);
    MulNext(bpp, n + 1);
  }

  lemma PairIs(px: seq<Pixel>, n: nat)
    requires n + 2 <= |px|
    ensures |ExpandOne(Raw(px[n..n + 2]))| == 2
  {
  }

  lemma PairSize(ps: seq<Pixel>, bpp: nat)
    requires |ps| == 2 && Fine(Raw(ps), bpp)
    ensures |Encoded(Raw(ps), bpp)| == 1 + 2 * bpp
  {
    FlatSize(ps, bpp);
  }

  /** Every row width and pixel size has a row that takes the whole bound. */
  lemma {:induction false} BoundIsTight(width: nat, bpp: nat, k: nat)
    requires bpp > 0 && 2 * k <= width
    ensures AllFine(Pack(Stairs(width, bpp), 2 * k), bpp)
    ensures |Stream(Pack(Stairs(width, bpp), 2 * k), bpp)| == RowLimit(bpp, width - 2 * k)
    decreases width - 2 * k
  {
    hide Next, Fine, RowLimit, Stairs, Encoded, Stream, Pack, Expand, ExpandOne, LittleBytes;
    var px, n := Stairs(width, bpp), 2 * k;
    PackHolds(px, bpp, n);
    if n + 1 < width {
      StairsNext(width, bpp, k);
      BoundIsTight(width, bpp, k + 1);
      PairIs(px, n);
      PackStep(px, bpp, n, Next(px, n), n + 2);
      PairSize(px[n..n + 2], bpp);
      LimitOfTwoMore(bpp, width - n - 2);
    } else if n < width {
      NextLast(px, bpp, n);
      PackStep(px, bpp, n, Next(px, n), width);
      PackDone(px, bpp);
      LimitOfOne(bpp);
    } else {
      PackDone(px, bpp);
      LimitOfNone(bpp);
    }
  }

  lemma LimitOfOne(bpp: nat)
    ensures RowLimit(bpp, 1) == 1 + bpp
  {
  }

  lemma LimitOfNone(bpp: nat)
    ensures RowLimit(bpp, 0) == 0
  {
  }

  lemma {:induction false} PixelsOfFlat(px: seq<Pixel>, bpp: nat)
    requires bpp > 0 && AllSize(px, bpp)
    ensures Pixels(Flat(px), bpp) == px
  {
    if px != [] {
      assert Flat(px)[..bpp] == px[0] && Flat(px)[bpp..] == Flat(px[1..]);
      PixelsOfFlat(px[1..], bpp);
    }
  }

  /** An image of such rows. */
  function StairsImage(width: nat, bpp: nat, rows: nat): (data: seq<byte>)
    ensures |data| == Bytes(bpp, Bytes(width, rows))
  {
    if rows == 0 then []
    else
      RowInside(bpp, width, rows - 1, rows);
      FlatSize(Stairs(width, bpp), bpp);
      StairsImage(width, bpp, rows - 1) + Flat(Stairs(width, bpp))
  }

  lemma {:induction false} ImageIsTight(width: nat, bpp: nat, rows: nat)
    requires bpp > 0
    ensures |PackImage(StairsImage(width, bpp, rows), bpp, width, rows)| == Bytes(RowLimit(bpp, width), rows)
  {
    hide RowLimit, Pixels, Stairs, Flat, Stream, Pack;
    if rows > 0 {
      var px := Stairs(width, bpp);
      ImageIsTight(width, bpp, rows - 1);
      PixelsOfFlat(px, bpp);
      FlatSize(px, bpp);
      BoundIsTight(width, bpp, 0);
      ImageRow(StairsImage(width, bpp, rows - 1), Flat(px), bpp, width, rows - 1);
      MulNext(RowLimit(bpp, width), rows - 1);
    }
  }

  lemma {:induction false} ImageFits(data: seq<byte>, bpp: nat, width: nat, rows: nat)
    requires bpp > 0 && |data| == Bytes(bpp, Bytes(width, rows))
    ensures |PackImage(data, bpp, width, rows)| <= Bytes(RowLimit(bpp, width), rows)
  {
    hide RowLimit, Pixels, Stream, Pack;
    if rows > 0 {
      RowInside(bpp, width, rows - 1, rows);
      var p := Bytes(bpp, Bytes(width, rows - 1));
      ImageFits(data[..p], bpp, width, rows - 1);
      RowFits(data[p..], bpp, width);
      MulNext(RowLimit(bpp, width), rows - 1);
    }
  }

  // ---------------------------------------------------------------- the size that is allocated

  /** What the packer allocates for an image. */
  function Allocated(width: nat, height: nat, bpp: nat): int
    requires bpp > 0
  {
    var size := Bytes(bpp, Bytes(width, height));
    size + 1 + size / bpp / 3 + height * bpp
  }

  lemma BytesBack(bpp: nat, n: nat)
    requires bpp > 0
    ensures Bytes(bpp, n) / bpp == n
  {
    var q := Bytes(bpp, n) / bpp;
    MulLess(bpp, q, n);
    MulLess(bpp, n, q);
  }

  lemma AllocatedIs(width: nat, height: nat, bpp: nat)
    requires bpp > 0
    ensures Allocated(width, height, bpp) == Bytes(bpp, Bytes(width, height)) + 1 + width * height / 3 + height * bpp
  {
    BytesBack(bpp, Bytes(width, height));
  }

  lemma ImageLimit(width: nat, height: nat, bpp: nat)
    ensures Bytes(RowLimit(bpp, width), height) == Bytes(bpp, Bytes(width, height)) + height * ((width + 1) / 2)
  {
    var a, b := bpp * width, (width + 1) / 2;
    assert (a + b) * height == a * height + b * height;
    assert a * height == bpp * (width * height);
  }

  /** Every image fits what is allocated for its size exactly if a byte for every two pixels of a row, rounded up, is
      no more than the formula adds to the pixels. */
  lemma AllocationFits(width: nat, height: nat, bpp: nat)
    requires bpp > 0
    ensures (forall data: seq<byte> | |data| == Bytes(bpp, Bytes(width, height)) ::
               |PackImage(data, bpp, width, height)| <= Allocated(width, height, bpp))
       <==> height * ((width + 1) / 2) <= 1 + width * height / 3 + height * bpp
  {
    hide Allocated, RowLimit, Bytes, PackImage, StairsImage;
    AllocatedIs(width, height, bpp);
    ImageLimit(width, height, bpp);
    ImageIsTight(width, bpp, height);
    forall data: seq<byte> | |data| == Bytes(bpp, Bytes(width, height))
      ensures |PackImage(data, bpp, width, height)| <= Bytes(RowLimit(bpp, width), height)
    {
      ImageFits(data, bpp, width, height);
    }
  }

  /** One row of 14 one-byte pixels that takes 21 bytes, where 20 are allocated. */
  lemma FourteenPixels()
    ensures |PackImage(StairsImage(14, 1, 1), 1, 14, 1)| == 21 && Allocated(14, 1, 1) == 20
  {
    hide PackImage, StairsImage;
    ImageIsTight(14, 1, 1);
  }

  // ---------------------------------------------------------------- the decoder

  datatype Code = Okay | TooMany | TooFew

  /** What the decoder returns for what the input means. */
  predicate Tells(u: Unpacked, code: Code, used: nat, out: seq<byte>) {
    match u
    case Unpacked(o, k) => code == Okay && k == used && o == out
    case Refused => code == TooMany
    case Overread => code == TooFew
  }

  lemma RepeatNext(p: Pixel, i: nat, all: seq<byte>, front: seq<byte>)
    requires i > 0 && all == front + Flat(Repeat(p, i))
    ensures all == (front + p) + Flat(Repeat(p, i - 1))
  {
    assert Repeat(p, i)[1..] == Repeat(p, i - 1);
    assert Flat(Repeat(p, i)) == p + Flat(Repeat(p, i - 1));
  }

  /** A run of `count` pixels, of which `size` are wanted. */
  method PutRun(out: array<byte>, p: nat, bpp: nat, val: nat, count: nat, size: nat) returns (ok: bool, p': nat)
    requires p + Bytes(bpp, size) <= out.Length
    modifies out
    ensures ok <==> count <= size
    ensures ok ==> p' == p + Bytes(bpp, count) <= out.Length
    ensures ok ==> out[..p'] == old(out[..p]) + Flat(Repeat(BigBytes(val, bpp), count))
  {
    hide Flat, Repeat, BigBytes, Bytes;
    ghost var px := BigBytes(val, bpp);
    ghost var all := old(out[..p]) + Flat(Repeat(px, count));
    ok, p' := true, p;
    var i: nat, n: nat := count, 0;
    BytesStart(bpp);
    while i > 0
      invariant i + n == count && n <= size
      invariant p' == p + Bytes(bpp, n) <= out.Length && out[..p'] + Flat(Repeat(px, i)) == all
    {
      if n >= size { return false, p'; }
      BytesNext(bpp, n, size);
      RepeatNext(px, i, all, out[..p']);
      CopyOut(out, p', BigBytes(val, bpp));
      p', i, n := p' + bpp, i - 1, n + 1;
    }
    RepeatNone(px);
  }

  lemma RepeatNone(p: Pixel)
    ensures Flat(Repeat(p, 0)) == []
  {
  }

  lemma BytesStart(bpp: nat)
    ensures Bytes(bpp, 0) == 0
  {
  }

  lemma BytesNext(bpp: nat, n: nat, size: nat)
    ensures Bytes(bpp, n + 1) == Bytes(bpp, n) + bpp
    ensures n < size ==> Bytes(bpp, n + 1) <= Bytes(bpp, size)
  {
    MulNext(bpp, n);
    MulLess(bpp, n, size);
  }

  lemma GrabNext(d: seq<byte>, q: nat, bpp: nat, i: nat, size: nat)
    requires i > 0 && size > 0 && q + bpp <= |d|
    ensures Grab(d[q..], bpp, i, size) == More(d[q..q + bpp], bpp, Grab(d[q + bpp..], bpp, i - 1, size - 1))
  {
    assert d[q..][..bpp] == d[q..q + bpp] && d[q..][bpp..] == d[q + bpp..];
  }

  lemma MoreMore(a: seq<byte>, j: nat, b: seq<byte>, k: nat, u: Unpacked)
    ensures More(a, j, More(b, k, u)) == More(a + b, j + k, u)
  {
    if u.Unpacked? { assert a + (b + u.out) == (a + b) + u.out; }
  }

  /** `count` pixels as they are, of which `size` are wanted. */
  method PutRaw(d: seq<byte>, q: nat, bpp: nat, count: nat, size: nat, out: array<byte>, p: nat)
    returns (code: Code, q': nat, p': nat)
    requires q <= |d| && p + Bytes(bpp, size) <= out.Length
    modifies out
    ensures p <= p' <= out.Length && q <= q' <= |d|
    ensures code == Okay ==> count <= size && p' == p + Bytes(bpp, count)
    ensures Tells(More(old(out[..p]), 0, Grab(d[q..], bpp, count, size)), code, q' - q, out[..p'])
  {
    hide Bytes, More, Grab;
    ghost var u := More(old(out[..p]), 0, Grab(d[q..], bpp, count, size));
    code, q', p' := Okay, q, p;
    var i: nat, n: nat := count, 0;
    BytesStart(bpp);
    while i > 0
      invariant i + n == count && n <= size && q <= q' <= |d|
      invariant p' == p + Bytes(bpp, n) && p <= p' <= out.Length
      invariant More(out[..p'], q' - q, Grab(d[q'..], bpp, i, size - n)) == u
    {
      if n >= size {
        GrabFull(d[q'..], bpp, i, out[..p'], q' - q);
        return TooMany, q', p';
      }
      if |d| - q' < bpp {
        GrabShort(d[q'..], bpp, i, size - n, out[..p'], q' - q);
        return TooFew, q', p';
      }
      BytesNext(bpp, n, size);
      GrabNext(d, q', bpp, i, size - n);
      MoreMore(out[..p'], q' - q, d[q'..q' + bpp], bpp, Grab(d[q' + bpp..], bpp, i - 1, size - n - 1));
      CopyOut(out, p', d[q'..q' + bpp]);
      q', p', i, n := q' + bpp, p' + bpp, i - 1, n + 1;
    }
    GrabDone(d[q'..], bpp, size - n, out[..p'], q' - q);
  }

  lemma GrabFull(d: seq<byte>, bpp: nat, i: nat, s: seq<byte>, k: nat)
    requires i > 0
    ensures More(s, k, Grab(d, bpp, i, 0)) == Refused
  {
  }

  lemma GrabShort(d: seq<byte>, bpp: nat, i: nat, size: nat, s: seq<byte>, k: nat)
    requires i > 0 && size > 0 && |d| < bpp
    ensures More(s, k, Grab(d, bpp, i, size)) == Overread
  {
  }

  lemma GrabDone(d: seq<byte>, bpp: nat, size: nat, s: seq<byte>, k: nat)
    ensures More(s, k, Grab(d, bpp, 0, size)) == Unpacked(s, k)
  {
  }

  /** A packet: its pixels, or what is wrong with it. */
  method PutOne(d: seq<byte>, q: nat, bpp: nat, size: nat, out: array<byte>, p: nat)
    returns (code: Code, q': nat, p': nat, count: nat)
    requires bpp > 0 && q < |d| && p + Bytes(bpp, size) <= out.Length
    modifies out
    ensures p <= p' <= out.Length && q < q' <= |d| && count == PacketSize(d[q])
    ensures code == Okay ==> count <= size && p' == p + Bytes(bpp, count)
    ensures Tells(More(old(out[..p]), 0, OnePacket(d[q..], bpp, size)), code, q' - q, out[..p'])
  {
    hide Bytes, Grab, Big, BigBytes, Flat, Repeat;
    ghost var front, rest := out[..p], d[q + 1..];
    assert d[q..][1..] == rest;
    var c := d[q];
    q', p' := q + 1, p;
    if c == 128 { c := 0; }
    if c > 128 {
      count := 257 - c;
      if |d| - q' < bpp { return TooFew, q', p, count; }
      var val := Big(d[q'..q' + bpp]);
      assert rest[..bpp] == d[q'..q' + bpp];
      BigBack(d[q'..q' + bpp]);
      var ok;
      ok, p' := PutRun(out, p, bpp, val, count, size);
      if !ok { return TooMany, q', p, count; }
      return Okay, q' + bpp, p', count;
    }
    count := c + 1;
    code, q', p' := PutRaw(d, q', bpp, count, size, out, p);
  }

  /** Unpacks `size` pixels into a buffer for so many. */
  method Unpackl(out: array<byte>, d: seq<byte>, size: nat, bpp: nat) returns (code: Code, used: nat, p: nat)
    requires bpp > 0 && out.Length >= Bytes(bpp, size)
    modifies out
    ensures p <= out.Length && Tells(Unpack(d, bpp, size), code, used, out[..p])
  {
    hide Bytes, OnePacket, Unpack, More;
    ghost var u := Unpack(d, bpp, size);
    var n, q := 0, 0;
    p := 0;
    BytesStart(bpp);
    UnpackStart(d, bpp, size, out[..0]);
    while n < size
      invariant n <= size && q <= |d| && p == Bytes(bpp, n) <= out.Length
      invariant More(out[..p], q, Unpack(d[q..], bpp, size - n)) == u
      decreases size - n
    {
      if q >= |d| {
        UnpackShort(d[q..], bpp, size - n, out[..p], q);
        return TooFew, q, p;
      }
      ghost var was, at, left := out[..p], q, size - n;
      BytesSum(bpp, n, left);
      var count;
      code, q, p, count := PutOne(d, q, bpp, size - n, out, p);
      UnpackOne(d, at, q, bpp, left, was, out[..p], code);
      if code != Okay { return code, q, p; }
      BytesSum(bpp, n, count);
      n := n + count;
    }
    UnpackEnd(d[q..], bpp, out[..p], q);
    code, used := Okay, q;
  }

  lemma BytesSum(bpp: nat, m: nat, n: nat)
    ensures Bytes(bpp, m + n) == Bytes(bpp, m) + Bytes(bpp, n)
  {
    SumBytes(bpp, m, n);
  }

  lemma UnpackStart(d: seq<byte>, bpp: nat, size: nat, s: seq<byte>)
    requires s == []
    ensures More(s, 0, Unpack(d[0..], bpp, size)) == Unpack(d, bpp, size)
  {
    assert d[0..] == d;
    var u := Unpack(d, bpp, size);
    if u.Unpacked? { assert [] + u.out == u.out; }
  }

  lemma UnpackShort(d: seq<byte>, bpp: nat, size: nat, s: seq<byte>, k: nat)
    requires d == [] && size > 0
    ensures More(s, k, Unpack(d, bpp, size)) == Overread
  {
  }

  lemma UnpackEnd(d: seq<byte>, bpp: nat, s: seq<byte>, k: nat)
    ensures More(s, k, Unpack(d, bpp, 0)) == Unpacked(s, k)
  {
    assert s + [] == s;
  }

  /** One packet from `q` to `q2`, in front of what the rest unpacks to. */
  lemma UnpackOne(d: seq<byte>, q: nat, q2: nat, bpp: nat, size: nat, s: seq<byte>, s2: seq<byte>, code: Code)
    requires q < q2 <= |d| && size > 0
    requires Tells(More(s, 0, OnePacket(d[q..], bpp, size)), code, q2 - q, s2)
    requires code == Okay ==> PacketSize(d[q]) <= size
    ensures code != Okay ==> Tells(More(s, q, Unpack(d[q..], bpp, size)), code, q2, s2)
    ensures code == Okay ==>
              More(s, q, Unpack(d[q..], bpp, size)) == More(s2, q2, Unpack(d[q2..], bpp, size - PacketSize(d[q])))
  {
    hide OnePacket, PacketSize;
    var u := OnePacket(d[q..], bpp, size);
    if u.Unpacked? {
      var rest := Unpack(d[q2..], bpp, size - PacketSize(d[q]));
      assert d[q..][u.used..] == d[q2..];
      MoreMore(s, q, u.out, u.used, rest);
    }
  }
}
