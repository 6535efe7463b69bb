/** The Adler-32 checksum of section 8.2 of RFC 1950, and the inflater's loop that puts the reduction modulo
    65521 off to the end of each block of at most 5552 bytes. */
module Adler32 {
  import opened Bits

  const BASE: nat := 65521
  const BLOCK: nat := 5552
  const WORD: nat := 0x1_0000_0000

  datatype Sums = Sums(a: nat, b: nat)

  function Reduced(s: Sums): Sums { Sums(s.a % BASE, s.b % BASE) }

  /** One byte, as the RFC defines it: reduced at once. */
  function Step(s: Sums, c: byte): Sums {
    Sums((s.a + c) % BASE, (s.b + (s.a + c) % BASE) % BASE)
  }

  function Update(s: Sums, data: seq<byte>): Sums {
    if data == [] then s else Step(Update(s, data[..|data| - 1]), data[|data| - 1])
  }

  /** The checksum word of the RFC: the second sum above the first. */
  function Word(s: Sums): nat { s.b * 65536 + s.a }

  function OfWord(w: nat): Sums { Sums(w % 65536, w / 65536) }

  /** The sums without reduction. */
  function Raw(s: Sums, data: seq<byte>): Sums {
    if data == [] then s
    else
      var p := Raw(s, data[..|data| - 1]);
      Sums(p.a + data[|data| - 1], p.b + p.a + data[|data| - 1])
  }

  // ---------------------------------------------------------------- reduction commutes with summing

  lemma ModAdd(x: nat, y: nat)
    ensures (x % BASE + y) % BASE == (x + y) % BASE
  {
    var q := x / BASE;
    assert x + y == (x % BASE + y) + BASE * q;
  }

  lemma {:induction false} ReducedRaw(s: Sums, data: seq<byte>)
    requires data != []
    ensures Reduced(Raw(s, data)) == Update(s, data)
  {
    var c, front := data[|data| - 1], data[..|data| - 1];
    var p := Raw(s, front);
    if front == [] {
      StepReduces(s, c);
    } else {
      ReducedRaw(s, front);
      StepOfReduced(p, c);
      StepReduces(p, c);
    }
  }

  lemma StepReduces(p: Sums, c: byte)
    ensures Step(p, c) == Reduced(Sums(p.a + c, p.b + p.a + c))
  {
    ModAdd(p.a + c, p.b);
  }

  lemma StepOfReduced(p: Sums, c: byte)
    ensures Step(Reduced(p), c) == Step(p, c)
  {
    ModAdd(p.a, c);
    ModAdd(p.b, (p.a + c) % BASE);
  }

  /** Reducing the sums beforehand makes no difference to a non-empty update. */
  lemma {:induction false} UpdateReduced(s: Sums, data: seq<byte>)
    requires data != []
    ensures Update(Reduced(s), data) == Update(s, data)
  {
    var front := data[..|data| - 1];
    if front == [] {
      StepOfReduced(s, data[|data| - 1]);
    } else {
      UpdateReduced(s, front);
    }
  }

  /** Successive calls make up one call on the joined data. */
  lemma {:induction false} UpdateJoins(s: Sums, x: seq<byte>, y: seq<byte>)
    ensures Update(Update(s, x), y) == Update(s, x + y)
  {
    if y == [] {
      assert x + y == x;
    } else {
      UpdateJoins(s, x, y[..|y| - 1]);
      assert (x + y)[..|x + y| - 1] == x + y[..|y| - 1];
    }
  }

  // ---------------------------------------------------------------- no overflow within a block

  function Triangle(n: nat): nat { if n == 0 then 0 else Triangle(n - 1) + n }

  lemma {:induction false} TriangleClosed(n: nat)
    ensures 2 * Triangle(n) == n * n + n
  {
    if n > 0 {
      TriangleClosed(n - 1);
      assert n * n == (n - 1) * (n - 1) + 2 * n - 1;
    }
  }

  lemma {:induction false} RawBound(s: Sums, data: seq<byte>)
    requires s.a < 65536 && s.b < 65536
    ensures Raw(s, data).a <= 65535 + 255 * |data|
    ensures Raw(s, data).b <= 65535 + 65535 * |data| + 255 * Triangle(|data|)
  {
    if data != [] { RawBound(s, data[..|data| - 1]); }
  }

  /** The deferred sums of a block fit an unsigned 32-bit word. */
  lemma BlockFits(s: Sums, data: seq<byte>)
    requires s.a < 65536 && s.b < 65536 && |data| <= BLOCK
    ensures Raw(s, data).a < WORD && Raw(s, data).b < WORD
  {
    RawBound(s, data);
    TriangleClosed(BLOCK);
    TriangleMono(|data|, BLOCK);
  }

  lemma {:induction false} TriangleMono(m: nat, n: nat)
    requires m <= n
    ensures Triangle(m) <= Triangle(n)
  {
    if m < n { TriangleMono(m, n - 1); }
  }

  // ---------------------------------------------------------------- the loop

  lemma RawNext(s: Sums, data: seq<byte>, p: nat, i: nat)
    requires p + i < |data|
    ensures var r, r' := Raw(s, data[p..p + i]), Raw(s, data[p..p + i + 1]);
            r' == Sums(r.a + data[p + i], r.b + r.a + data[p + i])
  {
    assert data[p..p + i + 1][..i] == data[p..p + i];
  }

  /** One byte into unsigned 32-bit sums. */
  method AddByte(s1: nat, s2: nat, data: seq<byte>, p: nat, i: nat, ghost s: Sums) returns (t1: nat, t2: nat)
    requires s.a < 65536 && s.b < 65536 && i < BLOCK && p + i < |data| && Sums(s1, s2) == Raw(s, data[p..p + i])
    ensures Sums(t1, t2) == Raw(s, data[p..p + i + 1])
  {
    RawNext(s, data, p, i);
    BlockFits(s, data[p..p + i + 1]);
    t1 := (s1 + data[p + i]) % WORD;
    t2 := (s2 + t1) % WORD;
  }

  /** The eight-fold unrolled part of the loop. */
  method AddEight(s1: nat, s2: nat, data: seq<byte>, p: nat, i: nat, ghost s: Sums) returns (t1: nat, t2: nat)
    requires s.a < 65536 && s.b < 65536 && i + 7 < BLOCK && p + i + 7 < |data|
    requires Sums(s1, s2) == Raw(s, data[p..p + i])
    ensures Sums(t1, t2) == Raw(s, data[p..p + i + 8])
  {
    t1, t2 := AddByte(s1, s2, data, p, i, s);
    t1, t2 := AddByte(t1, t2, data, p, i + 1, s);
    t1, t2 := AddByte(t1, t2, data, p, i + 2, s);
    t1, t2 := AddByte(t1, t2, data, p, i + 3, s);
    t1, t2 := AddByte(t1, t2, data, p, i + 4, s);
    t1, t2 := AddByte(t1, t2, data, p, i + 5, s);
    t1, t2 := AddByte(t1, t2, data, p, i + 6, s);
    t1, t2 := AddByte(t1, t2, data, p, i + 7, s);
  }

  method AddBlock(start: Sums, data: seq<byte>, p: nat, n: nat) returns (s: Sums)
    requires start.a < 65536 && start.b < 65536 && n <= BLOCK && p + n <= |data|
    ensures s == Reduced(Raw(start, data[p..p + n])) && s.a < BASE && s.b < BASE
  {
    var s1: nat, s2: nat, i: nat := start.a, start.b, 0;
    while i + 7 < n
      invariant 0 <= i <= n && Sums(s1, s2) == Raw(start, data[p..p + i])
    {
      s1, s2 := AddEight(s1, s2, data, p, i, start);
      i := i + 8;
    }
    while i < n
      invariant 0 <= i <= n && Sums(s1, s2) == Raw(start, data[p..p + i])
    {
      s1, s2 := AddByte(s1, s2, data, p, i, start);
      i := i + 1;
    }
    s := Sums(s1 % BASE, s2 % BASE);
  }

  /** The sums after the first `p` bytes, possibly reduced once more than needed while `p` is 0. */
  ghost predicate SumsAt(start: Sums, data: seq<byte>, p: nat, s: Sums) {
    p <= |data| && if p == 0 then s == start || s == Reduced(start) else s == Update(start, data[..p])
  }

  lemma BlockStep(start: Sums, data: seq<byte>, p: nat, n: nat, s: Sums)
    requires SumsAt(start, data, p, s) && p + n <= |data|
    ensures n > 0 || p == 0 ==> SumsAt(start, data, p + n, Reduced(Raw(s, data[p..p + n])))
  {
    if n > 0 {
      var block := data[p..p + n];
      ReducedRaw(s, block);
      UpdateReduced(start, block);
      UpdateJoins(start, data[..p], block);
      assert data[..p] + block == data[..p + n];
    }
  }

  /** The checksum word after `data`, from the word before it. */
  method Checksum(check: nat, data: seq<byte>) returns (word: nat)
    requires check < WORD
    ensures word == Word(Update(OfWord(check), data)) < WORD
  {
    ghost var start := OfWord(check);
    var s := Sums(check % 65536, check / 65536);
    var p, bufLen, blockLen := 0, |data|, |data| % BLOCK;
    var blocks := |data| / BLOCK;
    while bufLen > 0
      invariant p + bufLen == |data| && s.a < 65536 && s.b < 65536 && SumsAt(start, data, p, s)
      invariant bufLen > 0 ==> bufLen == blockLen + BLOCK * blocks && blockLen <= BLOCK
      invariant p > 0 ==> blockLen == BLOCK
      invariant data == [] ==> s == start
      decreases bufLen, BLOCK - blockLen
    {
      BlockStep(start, data, p, blockLen, s);
      s := AddBlock(s, data, p, blockLen);
      p := p + blockLen;
      bufLen := bufLen - blockLen;
      blockLen := BLOCK;
      blocks := if bufLen > 0 then blocks - 1 else 0;
    }
    assert data != [] ==> data[..p] == data;
    word := s.b * 65536 + s.a;
  }

  /** Checksums of successive pieces, as the inflater takes them call by call, make the checksum of the whole. */
  lemma ChecksumsJoin(check: nat, x: seq<byte>, y: seq<byte>)
    requires check % 65536 < BASE && check / 65536 < BASE
    ensures var w := Word(Update(OfWord(check), x));
            Word(Update(OfWord(w), y)) == Word(Update(OfWord(check), x + y))
  {
    UpdateSmall(OfWord(check), x);
    UpdateJoins(OfWord(check), x, y);
  }

  lemma {:induction false} UpdateSmall(s: Sums, data: seq<byte>)
    requires s.a < BASE && s.b < BASE
    ensures Update(s, data).a < BASE && Update(s, data).b < BASE
    ensures OfWord(Word(Update(s, data))) == Update(s, data)
  {
  }
}
