/** The run-length encoding of Targa images: the encoder's state machine and the decoder. */
module TargaRle {
  import opened Runs

  // ---------------------------------------------------------------- the format

  /** A packet as bytes: a count byte with the top bit for runs, then one pixel or all of them. */
  function Encoded(k: Packet, bpp: nat): seq<byte>
    requires Valid(k, bpp)
  {
    match k
    case Run(n, p) => [127 + n] + p
    case Raw(ps) => [|ps| - 1] + Flat(ps)
  }

  predicate AllValid(ks: seq<Packet>, bpp: nat) { forall k <- ks :: Valid(k, bpp) }

  function Stream(ks: seq<Packet>, bpp: nat): seq<byte>
    requires AllValid(ks, bpp)
  {
    if ks == [] then [] else Encoded(ks[0], bpp) + Stream(ks[1..], bpp)
  }

  lemma {:induction false} StreamAppend(a: seq<Packet>, b: seq<Packet>, bpp: nat)
    requires AllValid(a, bpp) && AllValid(b, bpp)
    ensures AllValid(a + b, bpp) && Stream(a + b, bpp) == Stream(a, bpp) + Stream(b, bpp)
  {
    hide Encoded, Valid;
    if a == [] {
      assert a + b == b;
    } else {
      assert (a + b)[1..] == a[1..] + b && (a + b)[0] == a[0];
      StreamAppend(a[1..], b, bpp);
    }
  }

  lemma StreamSnoc(ks: seq<Packet>, k: Packet, bpp: nat)
    requires AllValid(ks, bpp) && Valid(k, bpp)
    ensures AllValid(ks + [k], bpp) && Stream(ks + [k], bpp) == Stream(ks, bpp) + Encoded(k, bpp)
  {
    assert AllValid([k], bpp) && [k][1..] == [];
    StreamAppend(ks, [k], bpp);
    assert Stream([k], bpp) == Encoded(k, bpp) + [];
  }

  // ---------------------------------------------------------------- decoding

  /** Up to `n` times a pixel, while there is room. */
  function Fill(p: Pixel, n: nat, room: nat): (r: seq<byte>)
    ensures |r| <= room
  {
    if n == 0 || room < |p| then [] else p + Fill(p, n - 1, room - |p|)
  }

  /** Up to `n` pixels of `d`, while there is room and there are enough bytes. */
  function Take(d: seq<byte>, bpp: nat, n: nat, room: nat): (r: seq<byte>)
    ensures |r| <= room && |r| <= |d|
  {
    if n == 0 || room < bpp || |d| < bpp then [] else d[..bpp] + Take(d[bpp..], bpp, n - 1, room - bpp)
  }

  /** The bytes a stream yields when there is room for so many. */
  function Decoded(d: seq<byte>, bpp: nat, room: nat): (r: seq<byte>)
    ensures |r| <= room
    decreases |d|
  {
    if |d| < 1 + bpp then []
    else
      var n := d[0] % 128 + 1;
      if d[0] >= 128 then
        var r := Fill(d[1..1 + bpp], n, room);
        r + Decoded(d[1 + bpp..], bpp, room - |r|)
      else
        var r := Take(d[1..], bpp, n, room);
        r + Decoded(d[1 + |r|..], bpp, room - |r|)
  }

  lemma {:induction false} FillAll(p: Pixel, n: nat, room: nat)
    requires |Flat(Repeat(p, n))| <= room
    ensures Fill(p, n, room) == Flat(Repeat(p, n))
  {
    if n > 0 {
      assert Repeat(p, n)[1..] == Repeat(p, n - 1);
      FillAll(p, n - 1, room - |p|);
    }
  }

  lemma {:induction false} TakeAll(ps: seq<Pixel>, bpp: nat, room: nat, rest: seq<byte>)
    requires AllSize(ps, bpp) && |Flat(ps)| <= room
    ensures Take(Flat(ps) + rest, bpp, |ps|, room) == Flat(ps)
  {
    if ps != [] {
      var d := Flat(ps) + rest;
      assert d[..bpp] == ps[0] && d[bpp..] == Flat(ps[1..]) + rest;
      TakeAll(ps[1..], bpp, room - bpp, rest);
    }
  }

  lemma OneRun(n: nat, p: Pixel, rest: seq<byte>, room: nat)
    requires |p| > 0 && 1 <= n <= 128 && |Flat(Repeat(p, n))| <= room
    ensures Decoded([127 + n] + p + rest, |p|, room)
         == Flat(Repeat(p, n)) + Decoded(rest, |p|, room - |Flat(Repeat(p, n))|)
  {
    hide Flat, Repeat, Fill;
    var d := [127 + n] + p + rest;
    assert d[1..1 + |p|] == p && d[1 + |p|..] == rest && d[0] % 128 + 1 == n;
    FillAll(p, n, room);
  }

  lemma OneRaw(ps: seq<Pixel>, bpp: nat, rest: seq<byte>, room: nat)
    requires bpp > 0 && 1 <= |ps| <= 128 && AllSize(ps, bpp) && |Flat(ps)| <= room
    ensures Decoded([|ps| - 1] + Flat(ps) + rest, bpp, room) == Flat(ps) + Decoded(rest, bpp, room - |Flat(ps)|)
  {
    hide Flat, Take, Decoded;
    var d := [|ps| - 1] + Flat(ps) + rest;
    NotEmpty(ps, bpp);
    assert d[1..] == Flat(ps) + rest && d[1 + |Flat(ps)|..] == rest && d[0] % 128 + 1 == |ps|;
    TakeAll(ps, bpp, room, rest);
    DecodedRaw(d, bpp, room);
  }

  lemma NotEmpty(ps: seq<Pixel>, bpp: nat)
    requires ps != [] && AllSize(ps, bpp)
    ensures |Flat(ps)| >= bpp
  {
  }

  lemma DecodedRaw(d: seq<byte>, bpp: nat, room: nat)
    requires |d| >= 1 + bpp && d[0] < 128
    ensures var r := Take(d[1..], bpp, d[0] % 128 + 1, room);
            Decoded(d, bpp, room) == r + Decoded(d[1 + |r|..], bpp, room - |r|)
  {
    hide Take;
  }

  lemma Distribute(b: nat, x: nat, y: nat)
    ensures b * (x + y) == b * x + b * y
  {
  }

  lemma OnePacket(k: Packet, bpp: nat, rest: seq<byte>, room: nat)
    requires bpp > 0 && Valid(k, bpp) && |Flat(ExpandOne(k))| <= room
    ensures Decoded(Encoded(k, bpp) + rest, bpp, room)
         == Flat(ExpandOne(k)) + Decoded(rest, bpp, room - |Flat(ExpandOne(k))|)
  {
    hide Decoded, Flat, Repeat;
    match k
    case Run(n, p) => OneRun(n, p, rest, room);
    case Raw(ps) => OneRaw(ps, bpp, rest, room);
  }

  lemma DecodedNothing(bpp: nat, room: nat)
    ensures Decoded([], bpp, room) == []
  {
  }

  /** Decoding a stream of packets yields their pixels. */
  lemma {:induction false} DecodeStream(ks: seq<Packet>, bpp: nat, room: nat)
    requires bpp > 0 && AllValid(ks, bpp) && |Flat(Expand(ks))| <= room
    ensures Decoded(Stream(ks, bpp), bpp, room) == Flat(Expand(ks))
  {
    hide Decoded, Encoded, ExpandOne, Valid;
    DecodedNothing(bpp, room);
    if ks != [] {
      assert Valid(ks[0], bpp);
      FlatAppend(ExpandOne(ks[0]), Expand(ks[1..]));
      OnePacket(ks[0], bpp, Stream(ks[1..], bpp), room);
      DecodeStream(ks[1..], bpp, room - |Flat(ExpandOne(ks[0]))|);
    }
  }

  // ---------------------------------------------------------------- the encoder's state

  /** What is written: the packets `ks`, in `size` bytes, hold the first `done` pixels. */
  ghost predicate Written(px: seq<Pixel>, bpp: nat, ks: seq<Packet>, size: nat, done: nat, owed: nat) {
    && bpp > 0 && AllSize(px, bpp) && done <= |px|
    && AllValid(ks, bpp) && Expand(ks) == px[..done] && size == |Stream(ks, bpp)|
    && Small(bpp, size, done, owed)
  }

  /** Three bytes more than the pixels cost at least three pixels; up to two of those may be owed. */
  predicate Small(bpp: nat, size: nat, done: nat, owed: nat) {
    3 * (size - bpp * done) <= done + owed
  }

  /** What is pending after `done` pixels: nothing (mode 0), a series (mode 1), or a repetition (mode 2), which
      will have at least two pixels. */
  ghost predicate Pending(px: seq<Pixel>, done: nat, count: nat, togo: nat, mode: nat, rep: nat) {
    && done + count + togo == |px|
    && mode <= 2 && (mode == 0 <==> count == 0) && count < 128
    && (mode == 2 ==>
         && (forall i | done <= i < done + count :: Little(px[i]) == rep)
         && (count == 1 ==> togo > 0 && Little(px[done + 1]) == rep))
  }

  /** A repetition owes the pixels of the series it cut short. */
  function Owed(mode: nat): nat { if mode == 2 then 2 else 0 }

  lemma SeriesSmall(bpp: nat, size: nat, done: nat, count: nat)
    requires Small(bpp, size, done, 0) && 1 <= count <= 128
    ensures Small(bpp, size + 1 + bpp * count, done + count, if count < 128 then 2 else 0)
  {
    Distribute(bpp, done, count);
  }

  lemma RepetitionSmall(bpp: nat, size: nat, done: nat, count: nat)
    requires bpp > 0 && Small(bpp, size, done, 2) && 2 <= count
    ensures Small(bpp, size + 1 + bpp, done + count, 0)
  {
    Distribute(bpp, done, count);
    Distribute(bpp, 2, count - 2);
  }

  lemma WriteSeries(px: seq<Pixel>, bpp: nat, ks: seq<Packet>, size: nat, done: nat, count: nat)
    requires Written(px, bpp, ks, size, done, 0) && 1 <= count <= 128 && done + count <= |px|
    ensures var k := Raw(px[done..done + count]);
            && Valid(k, bpp)
            && Written(px, bpp, ks + [k], size + |Encoded(k, bpp)|, done + count, if count < 128 then 2 else 0)
            && Stream(ks + [k], bpp) == Stream(ks, bpp) + Encoded(k, bpp)
  {
    hide Flat, Small, Expand, Stream, Bytes;
    var s := px[done..done + count];
    assert AllSize(s, bpp);
    FlatSize(s, bpp);
    SeriesSmall(bpp, size, done, count);
    ExpandSnoc(ks, Raw(s));
    StreamSnoc(ks, Raw(s), bpp);
    assert px[..done] + s == px[..done + count];
  }

  lemma WriteRepetition(px: seq<Pixel>, bpp: nat, ks: seq<Packet>, size: nat, done: nat, count: nat, rep: nat)
    requires Written(px, bpp, ks, size, done, 2) && 2 <= count <= 128 && done + count <= |px|
    requires forall i | done <= i < done + count :: Little(px[i]) == rep
    ensures var k := Run(count, px[done]);
            && Valid(k, bpp)
            && Written(px, bpp, ks + [k], size + |Encoded(k, bpp)|, done + count, 0)
            && Stream(ks + [k], bpp) == Stream(ks, bpp) + Encoded(k, bpp)
  {
    hide Flat, Small, Expand, Stream, Little;
    var s := px[done..done + count];
    RepetitionSmall(bpp, size, done, count);
    forall i | done <= i < done + count ensures px[i] == px[done] { SameColour(px[i], px[done]); }
    assert s == Repeat(px[done], count);
    ExpandSnoc(ks, Run(count, px[done]));
    StreamSnoc(ks, Run(count, px[done]), bpp);
    assert px[..done] + s == px[..done + count];
  }

  // ---------------------------------------------------------------- the encoder

  lemma Fits(bpp: nat, size: nat, done: nat, owed: nat, n: nat, total: nat)
    requires Small(bpp, size, done, owed) && owed <= 2 && done <= n && bpp * n <= total
    ensures size <= total + 1 + n / 3
  {
    Distribute(bpp, done, n - done);
  }

  /** The pixel that is `count` pixels behind the read pointer. */
  method ReadCol(data: seq<byte>, q: nat, bpp: nat, count: nat, ghost done: nat) returns (col: nat)
    requires bpp > 0 && q == Bytes(bpp, done) && done + count < |Pixels(data, bpp)|
    ensures col == Little(Pixels(data, bpp)[done + count])
  {
    PixelAt(data, bpp, done + count);
    Distribute(bpp, done, count);
    var at := q + Bytes(bpp, count);
    col := Little(data[at..at + bpp]);
  }

  lemma WrittenFits(px: seq<Pixel>, bpp: nat, ks: seq<Packet>, size: nat, done: nat, owed: nat, total: nat)
    requires Written(px, bpp, ks, size, done, owed) && owed <= 2 && Bytes(bpp, |px|) <= total
    ensures size <= total + 1 + |px| / 3
  {
    Fits(bpp, size, done, owed, |px|, total);
  }

  /** The pending pixels stand in the buffer from `q` to `end`. */
  lemma PendingBytes(data: seq<byte>, bpp: nat, q: nat, end: nat, done: nat, count: nat)
    requires bpp > 0 && q == Bytes(bpp, done) && end == q + Bytes(bpp, count) && done + count <= |Pixels(data, bpp)|
    ensures end == Bytes(bpp, done + count) && q <= end <= |data|
    ensures Flat(Pixels(data, bpp)[done..done + count]) == data[q..end]
  {
    hide Pixels, Flat;
    Distribute(bpp, done, count);
    FlatSlice(data, bpp, done, count);
  }

  method PutPacket(out: array<byte>, p: nat, head: byte, body: seq<byte>) returns (p': nat)
    requires p + 1 + |body| <= out.Length
    modifies out
    ensures p' == p + 1 + |body| && out[..p'] == old(out[..p]) + ([head] + body)
  {
    CopyOut(out, p, [head]);
    CopyOut(out, p + 1, body);
    p' := p + 1 + |body|;
  }

  lemma SeriesPacket(data: seq<byte>, bpp: nat, ks: seq<Packet>, p: nat, q: nat, end: nat, done: nat, count: nat)
    requires bpp > 0 && q == Bytes(bpp, done) && end == q + Bytes(bpp, count) && done + count <= |Pixels(data, bpp)|
    requires Written(Pixels(data, bpp), bpp, ks, p, done, 0) && 1 <= count <= 128
    ensures q <= end <= |data| && end == Bytes(bpp, done + count)
    ensures var px := Pixels(data, bpp);
            var ks' := ks + [Raw(px[done..done + count])];
            && Written(px, bpp, ks', p + 1 + (end - q), done + count, if count < 128 then 2 else 0)
            && p + 1 + (end - q) <= |data| + 1 + |px| / 3
            && Stream(ks', bpp) == Stream(ks, bpp) + ([count - 1] + data[q..end])
  {
    hide Pixels, Flat, Stream, Expand, Small;
    var px := Pixels(data, bpp);
    FlatPixels(data, bpp);
    PendingBytes(data, bpp, q, end, done, count);
    WriteSeries(px, bpp, ks, p, done, count);
    WrittenFits(px, bpp, ks + [Raw(px[done..done + count])], p + 1 + (end - q), done + count,
                if count < 128 then 2 else 0, |data|);
  }

  lemma RepetitionPacket(data: seq<byte>, bpp: nat, ks: seq<Packet>, p: nat, done: nat, count: nat, rep: nat)
    requires bpp > 0 && done + count <= |Pixels(data, bpp)|
    requires Written(Pixels(data, bpp), bpp, ks, p, done, 2) && 2 <= count <= 128
    requires forall i | done <= i < done + count :: Little(Pixels(data, bpp)[i]) == rep
    ensures var px := Pixels(data, bpp);
            var ks' := ks + [Run(count, px[done])];
            && Written(px, bpp, ks', p + 1 + bpp, done + count, 0)
            && p + 1 + bpp <= |data| + 1 + |px| / 3
            && Stream(ks', bpp) == Stream(ks, bpp) + ([128 + (count - 1)] + LittleBytes(rep, bpp))
  {
    hide Pixels, Flat, Stream, Expand, Small, Little;
    var px := Pixels(data, bpp);
    FlatPixels(data, bpp);
    WriteRepetition(px, bpp, ks, p, done, count, rep);
    LittleBack(px[done]);
    WrittenFits(px, bpp, ks + [Run(count, px[done])], p + 1 + bpp, done + count, 0, |data|);
  }

  /** Writes the pending pixels as one packet. */
  method WritePending(data: seq<byte>, bpp: nat, out: array<byte>, p: nat, q: nat, mode: nat, count: nat, rep: nat,
                      ghost ks: seq<Packet>, ghost done: nat)
    returns (p': nat, q': nat, ghost ks': seq<Packet>)
    requires bpp > 0 && Written(Pixels(data, bpp), bpp, ks, p, done, Owed(mode)) && q == Bytes(bpp, done)
    requires p <= out.Length == |data| + 1 + |Pixels(data, bpp)| / 3 && out[..p] == Stream(ks, bpp)
    requires 1 <= mode <= 2 && mode <= count <= 128 && done + count <= |Pixels(data, bpp)|
    requires mode == 2 ==> forall i | done <= i < done + count :: Little(Pixels(data, bpp)[i]) == rep
    modifies out
    ensures Written(Pixels(data, bpp), bpp, ks', p', done + count, if mode == 1 && count < 128 then 2 else 0)
    ensures p' <= out.Length && out[..p'] == Stream(ks', bpp) && q' == Bytes(bpp, done + count)
  {
    hide Pixels, Flat, Stream, Expand, Small, Little, LittleBytes, Bytes;
    q' := q + Bytes(bpp, count);
    PendingBytes(data, bpp, q, q', done, count);
    if mode == 1 {
      SeriesPacket(data, bpp, ks, p, q, q', done, count);
      ks' := ks + [Raw(Pixels(data, bpp)[done..done + count])];
      p' := PutPacket(out, p, count - 1, data[q..q']);
    } else {
      RepetitionPacket(data, bpp, ks, p, done, count, rep);
      ks' := ks + [Run(count, Pixels(data, bpp)[done])];
      p' := PutPacket(out, p, 128 + (count - 1), LittleBytes(rep, bpp));
    }
  }

  lemma MayOwe(px: seq<Pixel>, bpp: nat, ks: seq<Packet>, size: nat, done: nat)
    requires Written(px, bpp, ks, size, done, 0)
    ensures Written(px, bpp, ks, size, done, 2)
  {
  }

  /** Encodes a buffer. What is written fits the output buffer and decodes to the whole pixels of the input. */
  method Encode(data: seq<byte>, bpp: nat) returns (out: array<byte>, size: nat)
    requires 1 <= bpp <= 4
    ensures out.Length == |data| + 1 + |data| / bpp / 3 && size <= out.Length
    ensures Bytes(bpp, |data| / bpp) <= |data|
    ensures Decoded(out[..size], bpp, |data|) == data[..Bytes(bpp, |data| / bpp)]
    ensures |data| % bpp == 0 ==> Decoded(out[..size], bpp, |data|) == data
  {
    hide Small, Expand, Stream, Pixels, Flat, Decoded, Little, Bytes, Valid;
    ghost var px := Pixels(data, bpp);
    PixelCount(data, bpp);
    FlatPixels(data, bpp);
    out := new byte[|data| + 1 + |data| / bpp / 3](_ => 0);
    var p: nat, q: nat, count: nat, togo: nat, rep: nat, mode: nat := 0, 0, 0, |data| / bpp, 0, 0;
    ghost var ks: seq<Packet>, done: nat := [], 0;
    WrittenNothing(px, bpp);
    while true
      invariant Pending(px, done, count, togo, mode, rep) && q == Bytes(bpp, done)
      invariant Written(px, bpp, ks, p, done, Owed(mode)) && p <= out.Length && out[..p] == Stream(ks, bpp)
      decreases togo
    {
      if togo == 0 {
        if count > 0 {
          p, q, ks := WritePending(data, bpp, out, p, q, mode, count, rep, ks, done);
          done := done + count;
        }
        break;
      }
      var col1 := 0;
      var col0 := ReadCol(data, q, bpp, count, done);
      if togo > 1 && mode < 2 { col1 := ReadCol(data, q, bpp, count + 1, done); }
      var advance := false;
      if mode == 0 {
        if togo > 1 && col0 == col1 {
          MayOwe(px, bpp, ks, p, done);
          mode, rep := 2, col0;
        } else {
          mode := 1;
        }
        count := 1;
      } else if mode == 1 {
        if togo > 1 && col0 == col1 {
          p, q, ks := WritePending(data, bpp, out, p, q, mode, count, rep, ks, done);
          done := done + count;
          mode, rep, count := 2, col0, 1;
        } else {
          advance := true;
        }
      } else if col0 == rep {
        advance := true;
      } else {
        p, q, ks := WritePending(data, bpp, out, p, q, mode, count, rep, ks, done);
        done := done + count;
        mode, count := 1, 1;
      }
      if advance {
        count := count + 1;
        if count == 128 {
          p, q, ks := WritePending(data, bpp, out, p, q, mode, count, rep, ks, done);
          done := done + count;
          mode, count := 0, 0;
        }
      }
      togo := togo - 1;
    }
    size := p;
    NothingOver(|data|, bpp);
    WrittenAll(data, bpp, ks, p, done);
  }

  lemma NothingOver(n: nat, bpp: nat)
    requires 1 <= bpp <= 4
    ensures n % bpp == 0 ==> Bytes(bpp, n / bpp) == n
  {
    if bpp == 1 {
    } else if bpp == 2 {
    } else if bpp == 3 {
    } else {
      assert bpp == 4;
    }
  }

  lemma WrittenNothing(px: seq<Pixel>, bpp: nat)
    requires bpp > 0 && AllSize(px, bpp)
    ensures Written(px, bpp, [], 0, 0, 0) && Stream([], bpp) == [] && Bytes(bpp, 0) == 0
  {
  }

  lemma WrittenAll(data: seq<byte>, bpp: nat, ks: seq<Packet>, size: nat, done: nat)
    requires bpp > 0 && done == |Pixels(data, bpp)|
    requires Written(Pixels(data, bpp), bpp, ks, size, done, 2) || Written(Pixels(data, bpp), bpp, ks, size, done, 0)
    ensures AllValid(ks, bpp) && Bytes(bpp, |Pixels(data, bpp)|) <= |data|
    ensures Decoded(Stream(ks, bpp), bpp, |data|) == data[..Bytes(bpp, |Pixels(data, bpp)|)]
  {
    hide Pixels, Flat, Stream, Expand, Decoded, Small;
    FlatPixels(data, bpp);
    assert Pixels(data, bpp)[..done] == Pixels(data, bpp);
    DecodeStream(ks, bpp, |data|);
  }

  // ---------------------------------------------------------------- the decoder

  lemma FillNext(p: Pixel, n: nat, room: nat)
    requires n > 0 && |p| <= room
    ensures Fill(p, n, room) == p + Fill(p, n - 1, room - |p|)
  {
  }

  lemma Joined(a: seq<byte>, b: seq<byte>, c: seq<byte>)
    ensures (a + b) + c == a + (b + c)
  {
  }

  /** Up to `count` times a pixel, given as a colour, highest byte first. */
  method PutRun(result: array<byte>, p: nat, color: nat, bpp: nat, count: nat) returns (p': nat)
    requires p <= result.Length
    modifies result
    ensures p <= p' <= result.Length
    ensures result[..p'] == old(result[..p]) + Fill(BigBytes(color, bpp), count, result.Length - p)
  {
    hide Fill, BigBytes;
    ghost var px, all := BigBytes(color, bpp), old(result[..p]) + Fill(BigBytes(color, bpp), count, result.Length - p);
    var i := 0;
    p' := p;
    while i < count && p' + bpp <= result.Length
      invariant 0 <= i <= count && p <= p' <= result.Length
      invariant result[..p'] + Fill(px, count - i, result.Length - p') == all
    {
      FillNext(px, count - i, result.Length - p');
      Joined(result[..p'], px, Fill(px, count - i - 1, result.Length - p' - bpp));
      CopyOut(result, p', BigBytes(color, bpp));
      p', i := p' + bpp, i + 1;
    }
    FillEnd(px, count - i, result.Length - p');
  }

  lemma FillEnd(p: Pixel, n: nat, room: nat)
    requires n == 0 || room < |p|
    ensures Fill(p, n, room) == []
  {
  }

  lemma TakeNext(d: seq<byte>, bpp: nat, n: nat, room: nat)
    requires n > 0 && bpp <= room && bpp <= |d|
    ensures Take(d, bpp, n, room) == d[..bpp] + Take(d[bpp..], bpp, n - 1, room - bpp)
  {
  }

  lemma TakeEnd(d: seq<byte>, bpp: nat, n: nat, room: nat)
    requires n == 0 || room < bpp || |d| < bpp
    ensures Take(d, bpp, n, room) == []
  {
  }

  /** Up to `count` pixels of the stream as they are. */
  method PutRaw(result: array<byte>, p: nat, data: seq<byte>, q: nat, bpp: nat, count: nat) returns (p': nat, q': nat)
    requires p <= result.Length && q <= |data|
    modifies result
    ensures p <= p' <= result.Length && q <= q' <= |data|
    ensures var r := Take(data[q..], bpp, count, result.Length - p);
            q' == q + |r| && result[..p'] == old(result[..p]) + r
  {
    hide Take;
    ghost var r := Take(data[q..], bpp, count, result.Length - p);
    ghost var all := old(result[..p]) + r;
    var i := 0;
    p', q' := p, q;
    while i < count && p' + bpp <= result.Length && q' + bpp <= |data|
      invariant 0 <= i <= count && p <= p' <= result.Length && q <= q' <= |data|
      invariant result[..p'] + Take(data[q'..], bpp, count - i, result.Length - p') == all
      invariant q' - q == p' - p
    {
      TakeNext(data[q'..], bpp, count - i, result.Length - p');
      assert data[q'..][bpp..] == data[q' + bpp..] && data[q'..][..bpp] == data[q'..q' + bpp];
      Joined(result[..p'], data[q'..q' + bpp], Take(data[q' + bpp..], bpp, count - i - 1, result.Length - p' - bpp));
      CopyOut(result, p', data[q'..q' + bpp]);
      p', q', i := p' + bpp, q' + bpp, i + 1;
    }
    TakeEnd(data[q'..], bpp, count - i, result.Length - p');
    assert |result[..p']| == |all|;
  }

  /** Decodes a stream into a buffer of the size of the image. */
  method Decode(data: seq<byte>, bpp: nat, result: array<byte>) returns (p: nat)
    requires 1 <= bpp <= 4
    modifies result
    ensures p <= result.Length && result[..p] == Decoded(data, bpp, result.Length)
  {
    hide Decoded, Fill, Take, Big, BigBytes;
    p := 0;
    var q := 0;
    assert data[0..] == data;
    while q + 1 + bpp <= |data|
      invariant p <= result.Length && q <= |data|
      invariant result[..p] + Decoded(data[q..], bpp, result.Length - p) == Decoded(data, bpp, result.Length)
      decreases |data| - q
    {
      var count := data[q] % 128 + 1;
      ghost var at, room, before := q, result.Length - p, result[..p];
      if data[q] >= 128 {
        RunStep(data, q, bpp, room);
        var color := Big(data[q + 1..q + 1 + bpp]);
        BigBack(data[q + 1..q + 1 + bpp]);
        p := PutRun(result, p, color, bpp, count);
        q := q + 1 + bpp;
        Joined(before, Fill(data[at + 1..at + 1 + bpp], count, room), Decoded(data[q..], bpp, result.Length - p));
      } else {
        RawStep(data, q, bpp, room);
        p, q := PutRaw(result, p, data, q + 1, bpp, count);
        Joined(before, Take(data[at + 1..], bpp, count, room), Decoded(data[q..], bpp, result.Length - p));
      }
    }
    DecodedShort(data[q..], bpp, result.Length - p);
  }

  lemma DecodedRun(d: seq<byte>, bpp: nat, room: nat)
    requires |d| >= 1 + bpp && d[0] >= 128
    ensures var r := Fill(d[1..1 + bpp], d[0] % 128 + 1, room);
            Decoded(d, bpp, room) == r + Decoded(d[1 + bpp..], bpp, room - |r|)
  {
  }

  lemma RunStep(data: seq<byte>, q: nat, bpp: nat, room: nat)
    requires q + 1 + bpp <= |data| && data[q] >= 128
    ensures var r := Fill(data[q + 1..q + 1 + bpp], data[q] % 128 + 1, room);
            Decoded(data[q..], bpp, room) == r + Decoded(data[q + 1 + bpp..], bpp, room - |r|)
  {
    hide Decoded, Fill;
    var d := data[q..];
    DecodedRun(d, bpp, room);
    assert d[1..1 + bpp] == data[q + 1..q + 1 + bpp] && d[1 + bpp..] == data[q + 1 + bpp..];
  }

  lemma RawStep(data: seq<byte>, q: nat, bpp: nat, room: nat)
    requires q + 1 + bpp <= |data| && data[q] < 128
    ensures var r := Take(data[q + 1..], bpp, data[q] % 128 + 1, room);
            Decoded(data[q..], bpp, room) == r + Decoded(data[q + 1 + |r|..], bpp, room - |r|)
  {
    hide Decoded, Take;
    var d := data[q..];
    DecodedRaw(d, bpp, room);
    assert d[1..] == data[q + 1..];
    var r := Take(d[1..], bpp, data[q] % 128 + 1, room);
    assert d[1 + |r|..] == data[q + 1 + |r|..];
  }

  lemma DecodedShort(d: seq<byte>, bpp: nat, room: nat)
    requires |d| < 1 + bpp
    ensures Decoded(d, bpp, room) == []
  {
  }
}
