/** The decoder of compressed resources: literals and matches, with a ring of the last 4096 bytes. */
module Lzw {

  type byte = x: int | 0 <= x < 256

  const N: nat := 4096

  // ---------------------------------------------------------------- what a stream means

  /** The output after the bytes before it: first what the ring held at the start, then what was written. */
  type History = s: seq<byte> | |s| >= N witness seq(N, _ => 0)

  /** The end of decoding: the status the decoder returns, and all bytes. */
  datatype Result = Result(ok: bool, bytes: History)

  /** A match, byte by byte: each byte is the one `dist` before it, which may be one of the match itself. */
  function CopyMatch(h: History, dist: nat, len: nat): (r: History)
    requires 1 <= dist <= N
    ensures |r| == |h| + len && r[..|h|] == h
    decreases len
  {
    if len == 0 then h else CopyMatch(h + [h[|h| - dist]], dist, len - 1)
  }

  function Min(a: nat, b: nat): nat { if a <= b then a else b }

  function Word(lo: int, hi: int): int { lo + 256 * hi }

  function Distance(w: int): (d: nat)
    ensures 1 <= d <= N
  {
    w % 4096 + 1
  }

  function MatchLength(w: int): (n: nat)
    ensures 3 <= n <= 18
  {
    w / 4096 % 16 + 3
  }

  /** `n` items, told apart by the low bits of `bits`; then the next flag byte. `end` is the length of the history
      when the output is full. */
  function Items(d: seq<byte>, h: History, end: nat, bits: nat, n: nat): (r: Result)
    requires |h| <= end
    ensures |h| <= |r.bytes| <= end && r.bytes[..|h|] == h
    decreases |d|
  {
    if d == [] then Result(false, h)
    else if n == 0 then Items(d[1..], h, end, d[0], 8)
    else if bits % 2 == 1 then
      if |d| < 2 then Result(false, h)
      else
        var w := Word(d[0], d[1]);
        var r := CopyMatch(h, Distance(w), Min(MatchLength(w), end - |h|));
        if MatchLength(w) > end - |h| then Result(false, r)
        else if |r| == end then Result(true, r)
        else Items(d[2..], r, end, bits / 2, n - 1)
    else if |h| == end then Result(false, h)
    else if |h| + 1 == end then Result(true, h + [d[0]])
    else Items(d[1..], h + [d[0]], end, bits / 2, n - 1)
  }

  // ---------------------------------------------------------------- the ring

  /** The slot of the byte at position `p` of the history: the first byte of output goes to slot 4080. */
  function Slot(p: nat): (s: nat)
    ensures s < N
  {
    (p + 4080) % 4096
  }

  /** The ring holds the last 4096 bytes of the history. */
  ghost predicate Ring(buf: seq<byte>, h: History) {
    |buf| == N && forall p | |h| - N <= p < |h| :: buf[Slot(p)] == h[p]
  }

  /** What a ring holds at the start, from the slot of the first byte of output around to the one before it. */
  function Past(buf: seq<byte>): History
    requires |buf| == N
  {
    buf[4080..] + buf[..4080]
  }

  lemma RingWrites(buf: seq<byte>, h: History, b: byte)
    requires Ring(buf, h)
    ensures Ring(buf[Slot(|h|) := b], h + [b])
  {
    forall p | |h| + 1 - N <= p < |h| ensures Slot(p) != Slot(|h|) { OtherSlot(p, |h|); }
  }

  lemma OtherSlot(p: nat, q: nat)
    requires p < q < p + N
    ensures Slot(p) != Slot(q)
  {
  }

  /** The slot the decoder computes, with its subtraction masked to 12 bits. */
  lemma MatchSlot(t: nat, w: int)
    requires t >= N && 0 <= w < 65536
    ensures (Slot(t) - w - 1) % 4096 == Slot(t - Distance(w))
  {
  }

  lemma NextSlot(p: nat)
    ensures (Slot(p) + 1) % 4096 == Slot(p + 1)
  {
  }

  lemma CopyNext(h: History, dist: nat, len: nat)
    requires 1 <= dist <= N && len > 0
    ensures CopyMatch(h, dist, len) == CopyMatch(h + [h[|h| - dist]], dist, len - 1)
  {
  }

  // ---------------------------------------------------------------- the decoder

  class Decoder {
    const input: seq<byte>
    const out: array<byte>
    const buf: array<byte>
    /** What the ring held before the first byte. */
    ghost const past: History
    var pos: nat
    var size: nat
    var i: nat

    constructor (input: seq<byte>, out: array<byte>, buf: array<byte>)
      requires buf.Length == N && out != buf
      ensures this.input == input && this.out == out && this.buf == buf && past == Past(buf[..])
      ensures Valid() && pos == 0 && size == 0
    {
      this.input, this.out, this.buf, past := input, out, buf, Past(buf[..]);
      pos, size, i := 0, 0, 4080;
      new;
      assert past + out[..0] == past;
    }

    ghost function Bytes(): History
      reads this, out
      requires size <= out.Length
    {
      past + out[..size]
    }

    ghost predicate Valid()
      reads this, out, buf
    {
      && out != buf && buf.Length == N && |past| == N
      && pos <= |input| && size <= out.Length
      && Ring(buf[..], Bytes()) && i == Slot(|Bytes()|)
    }

    /** Puts a byte into the ring, and into the output if that is not full. The index goes on only then. */
    method Put(b: byte) returns (ok: bool)
      requires Valid()
      modifies this`size, this`i, out, buf
      ensures ok <==> old(size) < out.Length
      ensures ok ==> Valid() && size == old(size) + 1 && Bytes() == old(Bytes()) + [b]
      ensures !ok ==> size == old(size) && out[..] == old(out[..])
    {
      ghost var h, ring := Bytes(), buf[..];
      buf[i] := b;
      if size >= out.Length { return false; }
      out[size] := b;
      size := size + 1;
      i := (i + 1) % 4096;
      RingWrites(ring, h, b);
      NextSlot(|h|);
      assert out[..size] == old(out[..size]) + [b];
      assert Bytes() == h + [b];
      assert buf[..] == ring[Slot(|h|) := b];
      ok := true;
    }

    /** A match: as many bytes as it has, or as the output takes. */
    method Match(w: int) returns (ok: bool)
      requires Valid() && 0 <= w < 65536
      modifies this`size, this`i, out, buf
      ensures size <= out.Length
      ensures Bytes() == CopyMatch(old(Bytes()), Distance(w), Min(MatchLength(w), out.Length - old(size)))
      ensures ok <==> MatchLength(w) <= out.Length - old(size)
      ensures ok ==> Valid()
    {
      hide CopyMatch, Slot, Distance, Ring, MatchLength;
      var len := MatchLength(w);
      ghost var dist, all := Distance(w), CopyMatch(Bytes(), Distance(w), Min(len, out.Length - size));
      MatchSlot(|Bytes()|, w);
      var j := (i - w - 1) % 4096;
      while len > 0
        invariant Valid() && j == Slot(|Bytes()| - dist)
        invariant CopyMatch(Bytes(), dist, Min(len, out.Length - size)) == all
        invariant MatchLength(w) - len == size - old(size)
      {
        ghost var h := Bytes();
        RingReads(buf[..], h, dist);
        ok := Put(buf[j]);
        if !ok { return; }
        CopyNext(h, dist, Min(len, out.Length - size + 1));
        NextSlot(|h| - dist);
        j := (j + 1) % 4096;
        len := len - 1;
      }
      ok := true;
    }

    /** Decodes the input; the status is 1 when the output was filled. */
    method Decode() returns (ok: bool)
      requires Valid() && pos == 0 && size == 0
      modifies this`pos, this`size, this`i, out, buf
      ensures size <= out.Length
      ensures Result(ok, Bytes()) == Items(input, past, N + out.Length, 0, 0)
    {
      hide CopyMatch, Slot, Distance, Ring, MatchLength, Items;
      ghost var all := Items(input, past, N + out.Length, 0, 0);
      assert Bytes() == past && input[0..] == input;
      while true
        invariant Valid() && all == Items(input[pos..], Bytes(), N + out.Length, 0, 0)
        decreases |input| - pos
      {
        NoInput(input[pos..], Bytes(), N + out.Length, 0, 0);
        if pos >= |input| { return false; }
        var bits := input[pos];
        NextFlags(input, pos, Bytes(), N + out.Length, 0);
        pos := pos + 1;
        ghost var before := pos;
        var n := 8;
        while n > 0
          invariant Valid() && 0 <= n <= 8 && before <= pos && 0 <= bits < 256
          invariant all == Items(input[pos..], Bytes(), N + out.Length, bits, n)
        {
          var done;
          done, ok := Item(bits, n);
          if done { return; }
          bits, n := bits / 2, n - 1;
        }
        AnyBits(input[pos..], Bytes(), N + out.Length, bits);
      }
    }

    /** One item. `done` tells that decoding ends with it, in the status `ok`. */
    method Item(bits: nat, n: nat) returns (done: bool, ok: bool)
      requires Valid() && n > 0
      modifies this`pos, this`size, this`i, out, buf
      ensures size <= out.Length && pos >= old(pos)
      ensures var r := Items(old(input[pos..]), old(Bytes()), N + out.Length, bits, n);
              if done then Result(ok, Bytes()) == r
              else Valid() && r == Items(input[pos..], Bytes(), N + out.Length, bits / 2, n - 1)
    {
      hide CopyMatch, Slot, Distance, Ring, MatchLength, Items;
      NoInput(input[pos..], Bytes(), N + out.Length, bits, n);
      if bits % 2 == 1 {
        if pos + 2 > |input| {
          ShortMatch(input[pos..], Bytes(), N + out.Length, bits, n);
          return true, false;
        }
        MatchItem(input, pos, Bytes(), N + out.Length, bits, n);
        var w := Word(input[pos], input[pos + 1]);
        pos := pos + 2;
        ok := Match(w);
        done := !ok;
      } else {
        if pos >= |input| { return true, false; }
        LiteralItem(input, pos, Bytes(), N + out.Length, bits, n);
        pos := pos + 1;
        ok := Put(input[pos - 1]);
        done := !ok;
      }
      if !done && size == out.Length { return true, true; }
    }
  }

  lemma RingReads(buf: seq<byte>, h: History, dist: nat)
    requires Ring(buf, h) && 1 <= dist <= N
    ensures buf[Slot(|h| - dist)] == h[|h| - dist]
  {
  }

  // ---------------------------------------------------------------- one item of the stream

  lemma NoInput(d: seq<byte>, h: History, end: nat, bits: nat, n: nat)
    requires |h| <= end
    ensures d == [] ==> Items(d, h, end, bits, n) == Result(false, h)
  {
  }

  lemma NextFlags(input: seq<byte>, pos: nat, h: History, end: nat, bits: nat)
    requires pos < |input| && |h| <= end
    ensures Items(input[pos..], h, end, bits, 0) == Items(input[pos + 1..], h, end, input[pos], 8)
  {
    assert input[pos..][1..] == input[pos + 1..];
  }

  lemma AnyBits(d: seq<byte>, h: History, end: nat, bits: nat)
    requires |h| <= end
    ensures Items(d, h, end, bits, 0) == Items(d, h, end, 0, 0)
  {
  }

  lemma ShortMatch(d: seq<byte>, h: History, end: nat, bits: nat, n: nat)
    requires |h| <= end && n > 0 && bits % 2 == 1 && |d| < 2
    ensures Items(d, h, end, bits, n) == Result(false, h)
  {
  }

  /** What the match `w` comes to, with the input `d` behind it. */
  function AfterMatch(d: seq<byte>, h: History, end: nat, bits: nat, n: nat, w: int): Result
    requires |h| <= end && n > 0
  {
    var r := CopyMatch(h, Distance(w), Min(MatchLength(w), end - |h|));
    if MatchLength(w) > end - |h| then Result(false, r)
    else if |r| == end then Result(true, r)
    else Items(d, r, end, bits / 2, n - 1)
  }

  lemma MatchItem(input: seq<byte>, pos: nat, h: History, end: nat, bits: nat, n: nat)
    requires pos + 2 <= |input| && |h| <= end && n > 0 && bits % 2 == 1
    ensures Items(input[pos..], h, end, bits, n)
         == AfterMatch(input[pos + 2..], h, end, bits, n, Word(input[pos], input[pos + 1]))
  {
    assert input[pos..][2..] == input[pos + 2..];
  }

  lemma LiteralItem(input: seq<byte>, pos: nat, h: History, end: nat, bits: nat, n: nat)
    requires pos < |input| && |h| <= end && n > 0 && bits % 2 == 0
    ensures Items(input[pos..], h, end, bits, n)
         == if |h| == end then Result(false, h)
            else if |h| + 1 == end then Result(true, h + [input[pos]])
            else Items(input[pos + 1..], h + [input[pos]], end, bits / 2, n - 1)
  {
    assert input[pos..][1..] == input[pos + 1..];
  }

  // ---------------------------------------------------------------- streams for given items

  datatype Item = Literal(b: byte) | Match(dist: nat, len: nat)

  predicate Fits(t: Item) { t.Match? ==> 1 <= t.dist <= N && 3 <= t.len <= 18 }

  predicate AllFit(ts: seq<Item>) { forall t <- ts :: Fits(t) }

  /** What items add to the history. */
  function Expand(ts: seq<Item>, h: History): (r: History)
    requires AllFit(ts)
    ensures |r| >= |h| + |ts|
  {
    if ts == [] then h
    else
      assert Fits(ts[0]);
      match ts[0]
      case Literal(b) => Expand(ts[1..], h + [b])
      case Match(dist, len) => Expand(ts[1..], CopyMatch(h, dist, len))
  }

  function Coded(t: Item): seq<byte>
    requires Fits(t)
  {
    match t
    case Literal(b) => [b]
    case Match(dist, len) => [(dist - 1) % 256, (dist - 1) / 256 + 16 * (len - 3)]
  }

  function CodedAll(ts: seq<Item>): seq<byte>
    requires AllFit(ts)
  {
    if ts == [] then [] else Coded(ts[0]) + CodedAll(ts[1..])
  }

  /** The flags of up to eight items, the first in the lowest bit. */
  function FlagBits(ts: seq<Item>): nat {
    if ts == [] then 0 else (if ts[0].Match? then 1 else 0) + 2 * FlagBits(ts[1..])
  }

  function Power(n: nat): nat { if n == 0 then 1 else 2 * Power(n - 1) }

  lemma {:induction false} FlagByte(ts: seq<Item>)
    ensures FlagBits(ts) < Power(|ts|)
  {
    if ts != [] { FlagByte(ts[1..]); }
  }

  lemma {:induction false} SmallPower(n: nat)
    requires n <= 8
    ensures Power(n) <= 256
  {
    assert Power(8) == 256;
    if n < 8 { PowerGrows(n, 8); }
  }

  lemma {:induction false} PowerGrows(m: nat, n: nat)
    requires m <= n
    ensures Power(m) <= Power(n)
  {
    if m < n { PowerGrows(m, n - 1); }
  }

  /** Items in groups of eight, each behind its flag byte. */
  function Encode(ts: seq<Item>): seq<byte>
    requires AllFit(ts)
    decreases |ts|
  {
    if ts == [] then []
    else
      var n := Min(8, |ts|);
      FlagByte(ts[..n]);
      SmallPower(n);
      [FlagBits(ts[..n])] + CodedAll(ts[..n]) + Encode(ts[n..])
  }

  lemma CodedWord(dist: nat, len: nat)
    requires 1 <= dist <= N && 3 <= len <= 18
    ensures var w := Word((dist - 1) % 256, (dist - 1) / 256 + 16 * (len - 3));
            Distance(w) == dist && MatchLength(w) == len
  {
  }

  lemma ItemBehind(t: Item, more: seq<byte>, h: History, end: nat, bits: nat, n: nat)
    requires Fits(t) && n > 0 && |h| <= end && |Expand([t], h)| <= end
    ensures Items(Coded(t) + more, h, end, (if t.Match? then 1 else 0) + 2 * bits, n)
         == if |Expand([t], h)| == end then Result(true, Expand([t], h))
            else Items(more, Expand([t], h), end, bits, n - 1)
  {
    hide Items, CopyMatch, Distance, MatchLength, Word, Expand;
    ExpandOne(t, h);
    var d := Coded(t) + more;
    assert d[0..] == d;
    match t
    case Literal(b) =>
      assert d[1..] == more;
      LiteralItem(d, 0, h, end, 2 * bits, n);
    case Match(dist, len) =>
      assert d[2..] == more;
      CodedWord(dist, len);
      MatchItem(d, 0, h, end, 1 + 2 * bits, n);
  }

  lemma ExpandOne(t: Item, h: History)
    requires Fits(t)
    ensures Expand([t], h) == if t.Literal? then h + [t.b] else CopyMatch(h, t.dist, t.len)
  {
    assert [t][1..] == [];
  }

  lemma ExpandFirst(ts: seq<Item>, h: History)
    requires ts != [] && AllFit(ts)
    ensures Expand(ts, h) == Expand(ts[1..], Expand([ts[0]], h))
  {
    assert [ts[0]][1..] == [];
  }

  lemma {:induction false} GroupDecoded(ts: seq<Item>, more: seq<byte>, h: History, end: nat, n: nat)
    requires AllFit(ts) && |ts| <= n && |h| < end && |Expand(ts, h)| <= end
    ensures Items(CodedAll(ts) + more, h, end, FlagBits(ts), n)
         == if |Expand(ts, h)| == end then Result(true, Expand(ts, h))
            else Items(more, Expand(ts, h), end, 0, n - |ts|)
    decreases |ts|
  {
    hide Items, Coded, CopyMatch, Fits;
    if ts == [] {
      assert CodedAll(ts) + more == more;
    } else {
      var h1 := Expand([ts[0]], h);
      var tail := CodedAll(ts[1..]) + more;
      ExpandFirst(ts, h);
      assert CodedAll(ts) + more == Coded(ts[0]) + tail;
      ItemBehind(ts[0], tail, h, end, FlagBits(ts[1..]), n);
      if |h1| < end {
        GroupDecoded(ts[1..], more, h1, end, n - 1);
      } else {
        assert ts[1..] == [];
      }
    }
  }

  lemma {:induction false} ExpandAppend(a: seq<Item>, b: seq<Item>, h: History)
    requires AllFit(a) && AllFit(b)
    ensures AllFit(a + b) && Expand(a + b, h) == Expand(b, Expand(a, h))
    decreases |a|
  {
    if a == [] {
      assert a + b == b;
    } else {
      assert (a + b)[1..] == a[1..] + b && (a + b)[0] == a[0];
      ExpandAppend(a[1..], b, Expand([a[0]], h));
      ExpandFirst(a, h);
      ExpandFirst(a + b, h);
    }
  }

  /** The decoder undoes the encoding of any items, with the output buffer of the right size. */
  lemma {:induction false} DecodesItems(ts: seq<Item>, h: History, bits: nat)
    requires ts != [] && AllFit(ts)
    ensures Items(Encode(ts), h, |Expand(ts, h)|, bits, 0) == Result(true, Expand(ts, h))
    decreases |ts|
  {
    hide Items, CodedAll, FlagBits, Expand, Fits;
    var n := Min(8, |ts|);
    var g, rest := ts[..n], ts[n..];
    var end, d := |Expand(ts, h)|, Encode(ts);
    assert ts == g + rest;
    ExpandAppend(g, rest, h);
    assert d[0..] == d && d[1..] == CodedAll(g) + Encode(rest);
    NextFlags(d, 0, h, end, bits);
    GroupDecoded(g, Encode(rest), h, end, 8);
    if rest == [] {
      ExpandNone(Expand(g, h));
    } else {
      DecodesItems(rest, Expand(g, h), 0);
    }
  }

  lemma ExpandNone(h: History)
    ensures Expand([], h) == h
  {
  }
}
