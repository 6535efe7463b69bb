/** Block headers, dynamic code lengths, the block loop and the zlib wrapping around it. */
module InflateStream {
  import opened Bits
  import opened Huffman
  import opened HuffmanTable
  import opened HuffmanDecode
  import opened BitReader
  import opened InflateSpec
  import opened Inflate

  // ---------------------------------------------------------------- fixed codes

  lemma FixedSlices(c: seq<nat>)
    requires |c| == 288
    requires forall i | 0 <= i < 144 :: c[i] == 8
    requires forall i | 144 <= i < 256 :: c[i] == 9
    requires forall i | 256 <= i < 280 :: c[i] == 7
    requires forall i | 280 <= i < 288 :: c[i] == 8
    ensures c == FixedLit()
  {
    assert |FixedLit()| == 288;
  }

  /** The literal/length code lengths of a fixed block, written range by range. */
  method FillFixed(codeSize: array<nat>)
    requires codeSize.Length == 288
    modifies codeSize
    ensures codeSize[..] == FixedLit()
  {
    var i := 0;
    while i <= 143
      invariant 0 <= i <= 144
      invariant forall j | 0 <= j < i :: codeSize[j] == 8
    {
      codeSize[i] := 8;
      i := i + 1;
    }
    while i <= 255
      invariant 144 <= i <= 256
      invariant forall j | 0 <= j < 144 :: codeSize[j] == 8
      invariant forall j | 144 <= j < i :: codeSize[j] == 9
    {
      codeSize[i] := 9;
      i := i + 1;
    }
    while i <= 279
      invariant 256 <= i <= 280
      invariant forall j | 0 <= j < 144 :: codeSize[j] == 8
      invariant forall j | 144 <= j < 256 :: codeSize[j] == 9
      invariant forall j | 256 <= j < i :: codeSize[j] == 7
    {
      codeSize[i] := 7;
      i := i + 1;
    }
    while i <= 287
      invariant 280 <= i <= 288
      invariant forall j | 0 <= j < 144 :: codeSize[j] == 8
      invariant forall j | 144 <= j < 256 :: codeSize[j] == 9
      invariant forall j | 256 <= j < 280 :: codeSize[j] == 7
      invariant forall j | 280 <= j < i :: codeSize[j] == 8
    {
      codeSize[i] := 8;
      i := i + 1;
    }
    FixedSlices(codeSize[..]);
  }

  // ---------------------------------------------------------------- the tables of a block

  /** Builds the distance and the literal tables, in that order. */
  method BuildBoth(lit: seq<nat>, dst: seq<nat>, t: DecodeTables) returns (ok: bool)
    requires t.Valid() && ValidLens(lit) && ValidLens(dst) && |lit| <= 288 && |dst| <= 32
    modifies t.look0, t.tree0, t.look1, t.tree1
    ensures ok == (Accepted(dst) && Accepted(lit))
    ensures ok ==> t.Ready(lit, dst)
  {
    ok := BuildTable(dst, t.look1, t.tree1);
    if !ok { return; }
    ghost var lk, tr := t.look1[..], t.tree1[..];
    ok := BuildTable(lit, t.look0, t.tree0);
    assert t.look1[..] == lk && t.tree1[..] == tr;
  }

  // ---------------------------------------------------------------- dynamic code lengths

  ghost predicate AtCodeLengths(r: LensResult, w: seq<bool>, at: nat, i: nat, n: nat, acc: seq<nat>) {
    at <= |w| && i <= n <= 19 && |acc| == 19 && r == CodeLengthLens(w, at, i, n, acc)
  }

  lemma CodeLengthStep(r: LensResult, w: seq<bool>, at: nat, i: nat, n: nat, acc: seq<nat>)
    requires AtCodeLengths(r, w, at, i, n, acc) && i < n
    ensures at + 3 > |w| ==> r == LensStop(NoProgress)
    ensures at + 3 <= |w| ==> Field(w, at, 3) < 8
    ensures at + 3 <= |w| ==> AtCodeLengths(r, w, at + 3, i + 1, n, acc[Dezigzag(i) := Field(w, at, 3)])
  {
    if at + 3 <= |w| { ThreeBits(w, at); }
  }

  method SetLength(codeSize: array<nat>, i: nat, x: nat)
    requires i < codeSize.Length && x <= MAX_LEN && ValidLens(codeSize[..])
    modifies codeSize
    ensures codeSize[..] == old(codeSize[..])[i := x] && ValidLens(codeSize[..])
  {
    ghost var acc := codeSize[..];
    codeSize[i] := x;
    assert codeSize[..] == acc[i := x];
  }

  /** The lengths of the code-length code. */
  method ReadCodeLengthLens(rd: Reader, n: nat, ghost r: LensResult) returns (ok: bool, cl: seq<nat>)
    requires rd.Valid() && AtCodeLengths(r, StreamBits(rd.input), rd.At(), 0, n, Repeat(19, 0))
    modifies rd
    ensures rd.Valid() && rd.At() >= old(rd.At())
    ensures if ok then r == Lens(rd.At(), cl) else r == LensStop(NoProgress)
    ensures ok ==> |cl| == 19 && ValidLens(cl)
  {
    var codeSize := new nat[19](_ => 0);
    assert codeSize[..] == Repeat(19, 0);
    var counter := 0;
    cl := [];
    while counter < n
      invariant 0 <= counter <= n && rd.Valid() && rd.At() >= old(rd.At())
      invariant AtCodeLengths(r, StreamBits(rd.input), rd.At(), counter, n, codeSize[..])
      invariant ValidLens(codeSize[..])
    {
      CodeLengthStep(r, StreamBits(rd.input), rd.At(), counter, n, codeSize[..]);
      var s;
      ok, s := GetExtra(rd, 3);
      if !ok { return; }
      SetLength(codeSize, Dezigzag(counter), s);
      counter := counter + 1;
    }
    ok, cl := true, codeSize[..];
  }

  lemma ThreeBits(w: seq<bool>, at: nat)
    requires at + 3 <= |w|
    ensures Field(w, at, 3) < 8
  {
    FieldBound(w, at, 3);
  }

  /** The outcome `r` is what reading on yields with the lengths `acc` so far. */
  ghost predicate AtLens(r: LensResult, cl: seq<nat>, w: seq<bool>, at: nat, total: nat, acc: seq<nat>) {
    |cl| == 19 && at <= |w| && r == ReadLens(cl, w, at, total, acc)
  }

  ghost predicate AtRepeat(r: LensResult, cl: seq<nat>, w: seq<bool>, s: nat, at: nat, total: nat, acc: seq<nat>) {
    && |cl| == 19 && at <= |w|
    && r == if at + RepeatExtra(s) > |w| then LensStop(NoProgress)
            else ReadLens(cl, w, at + RepeatExtra(s), total,
                          acc + Repeat(RepeatBase(s) + Field(w, at, RepeatExtra(s)),
                                       if s == 16 && acc != [] then acc[|acc| - 1] else 0))
  }

  lemma LensStep(r: LensResult, cl: seq<nat>, w: seq<bool>, at: nat, total: nat, acc: seq<nat>, s: nat, end: nat)
    requires AtLens(r, cl, w, at, total, acc) && |acc| < total && Took(cl, w, at, s, end)
    ensures s < 19 && end <= |w|
    ensures s < 16 ==> AtLens(r, cl, w, end, total, acc + [s])
    ensures s == 16 && acc == [] ==> r == LensStop(Failed)
    ensures s >= 16 && !(s == 16 && acc == []) ==> AtRepeat(r, cl, w, s, end, total, acc)
  {
  }

  lemma LensWait(r: LensResult, cl: seq<nat>, w: seq<bool>, at: nat, total: nat, acc: seq<nat>)
    requires AtLens(r, cl, w, at, total, acc) && |acc| < total && Waits(cl, w, at)
    ensures r == LensStop(NoProgress)
  {
  }

  lemma RepeatRead(r: LensResult, cl: seq<nat>, w: seq<bool>, s: nat, at: nat, total: nat, acc: seq<nat>, n: nat,
                   x: nat, end: nat)
    requires AtRepeat(r, cl, w, s, at, total, acc) && end == at + RepeatExtra(s) <= |w|
    requires n == RepeatBase(s) + Field(w, at, RepeatExtra(s))
    requires x == if s == 16 && acc != [] then acc[|acc| - 1] else 0
    ensures AtLens(r, cl, w, end, total, acc + Repeat(n, x))
  {
  }

  lemma RepeatRange(w: seq<bool>, s: nat, at: nat)
    requires 16 <= s < 19 && at + RepeatExtra(s) <= |w|
    ensures RepeatBase(s) + Field(w, at, RepeatExtra(s)) <= 138
  {
    FieldBound(w, at, RepeatExtra(s));
    assert Shl(1, 2) == 4 && Shl(1, 3) == 8;
    assert Shl(1, 7) == 128;
  }

  /** `count` copies of `x` into the length buffer. */
  method FillLens(lenCodes: array<nat>, counter: nat, count: nat, x: nat)
    requires counter + count <= lenCodes.Length
    modifies lenCodes
    ensures lenCodes[..counter + count] == old(lenCodes[..counter]) + Repeat(count, x)
  {
    ghost var acc := lenCodes[..counter];
    var i := 0;
    while i < count
      invariant 0 <= i <= count && lenCodes[..counter] == acc
      invariant forall j | counter <= j < counter + i :: lenCodes[j] == x
    {
      lenCodes[counter + i] := x;
      i := i + 1;
    }
    assert lenCodes[..counter + count] == acc + Repeat(count, x);
  }

  lemma ValidLensMore(acc: seq<nat>, n: nat, x: nat)
    requires ValidLens(acc) && x <= MAX_LEN
    ensures ValidLens(acc + Repeat(n, x))
  {
  }

  /** A repeat symbol: its count, and the lengths it stands for. */
  method LengthRepeat(rd: Reader, dist: nat, lenCodes: array<nat>, counter: nat, total: nat,
                      ghost cl: seq<nat>, ghost r: LensResult) returns (ok: bool, next: nat)
    requires rd.Valid() && 16 <= dist < 19 && lenCodes.Length == 457 && counter < total <= 320
    requires dist == 16 ==> counter > 0
    requires AtRepeat(r, cl, StreamBits(rd.input), dist, rd.At(), total, lenCodes[..counter])
    requires ValidLens(lenCodes[..counter])
    modifies rd, lenCodes
    ensures rd.Valid() && rd.At() >= old(rd.At())
    ensures !ok ==> r == LensStop(NoProgress)
    ensures ok ==> counter < next <= 457 && ValidLens(lenCodes[..next])
    ensures ok ==> AtLens(r, cl, StreamBits(rd.input), rd.At(), total, lenCodes[..next])
  {
    ghost var w, at, acc := StreamBits(rd.input), rd.At(), lenCodes[..counter];
    next := counter;
    var s;
    ok, s := GetExtra(rd, RepeatExtra(dist));
    if !ok { return; }
    RepeatRange(w, dist, at);
    s := s + RepeatBase(dist);
    var x := if dist == 16 then lenCodes[counter - 1] else 0;
    RepeatRead(r, cl, w, dist, at, total, acc, s, x, rd.At());
    ValidLensMore(acc, s, x);
    FillLens(lenCodes, counter, s, x);
    next := counter + s;
  }

  method StoreLength(lenCodes: array<nat>, counter: nat, x: nat)
    requires counter < lenCodes.Length && x <= MAX_LEN && ValidLens(lenCodes[..counter])
    modifies lenCodes
    ensures lenCodes[..counter + 1] == old(lenCodes[..counter]) + [x] && ValidLens(lenCodes[..counter + 1])
  {
    ghost var acc := lenCodes[..counter];
    lenCodes[counter] := x;
    assert lenCodes[..counter + 1] == acc + [x];
  }

  /** One symbol of the code-length code and what it stands for. The buffer of 288 + 32 + 137 entries has
      room for the longest repeat from any incomplete position. */
  method LengthSymbol(rd: Reader, t: DecodeTables, lenCodes: array<nat>, counter: nat, total: nat,
                      ghost cl: seq<nat>, ghost r: LensResult)
    returns (halted: bool, status: Status, next: nat)
    requires rd.Valid() && t.Valid() && Accepted(cl) && Represents(cl, t.look2[..], t.tree2[..])
    requires lenCodes.Length == 457 && counter < total <= 320
    requires AtLens(r, cl, StreamBits(rd.input), rd.At(), total, lenCodes[..counter])
    requires ValidLens(lenCodes[..counter])
    modifies rd, lenCodes
    ensures rd.Valid() && rd.At() >= old(rd.At())
    ensures halted ==> r == LensStop(status)
    ensures !halted ==> counter < next <= 457 && ValidLens(lenCodes[..next])
    ensures !halted ==> AtLens(r, cl, StreamBits(rd.input), rd.At(), total, lenCodes[..next])
  {
    ghost var w, at, acc := StreamBits(rd.input), rd.At(), lenCodes[..counter];
    var ok, dist := rd.HuffDecode(t.look2, t.tree2, cl);
    if !ok {
      LensWait(r, cl, w, at, total, acc);
      return true, NoProgress, counter;
    }
    LensStep(r, cl, w, at, total, acc, dist, rd.At());
    if dist < 16 {
      StoreLength(lenCodes, counter, dist);
      return false, NoProgress, counter + 1;
    }
    if dist == 16 && counter == 0 { return true, Failed, counter; }
    ok, next := LengthRepeat(rd, dist, lenCodes, counter, total, cl, r);
    return !ok, NoProgress, next;
  }

  /** The code lengths of both codes, read as one list. */
  method ReadAllLens(rd: Reader, t: DecodeTables, total: nat, ghost cl: seq<nat>)
    returns (halted: bool, status: Status, lens: seq<nat>)
    requires rd.Valid() && t.Valid() && |cl| == 19 && Accepted(cl) && Represents(cl, t.look2[..], t.tree2[..])
    requires 0 < total <= 320
    modifies rd
    ensures rd.Valid() && rd.At() >= old(rd.At())
    ensures var r := ReadLens(cl, StreamBits(rd.input), old(rd.At()), total, []);
            if halted then r == LensStop(status) else r == Lens(rd.At(), lens)
    ensures !halted ==> |lens| == total && ValidLens(lens)
  {
    ghost var w := StreamBits(rd.input);
    ghost var r := ReadLens(cl, w, rd.At(), total, []);
    var lenCodes := new nat[457];
    var counter := 0;
    lens := [];
    assert lenCodes[..0] == [];
    while counter < total
      invariant rd.Valid() && rd.At() >= old(rd.At()) && 0 <= counter <= 457
      invariant AtLens(r, cl, w, rd.At(), total, lenCodes[..counter]) && ValidLens(lenCodes[..counter])
      decreases total - counter
    {
      halted, status, counter := LengthSymbol(rd, t, lenCodes, counter, total, cl, r);
      if halted { return; }
    }
    if counter != total { return true, Failed, []; }
    return false, Failed, lenCodes[..total];
  }

  // ---------------------------------------------------------------- blocks

  /** The three counts that open a dynamic block. */
  method ReadCounts(rd: Reader) returns (ok: bool, nLit: nat, nDst: nat, nCl: nat)
    requires rd.Valid()
    modifies rd
    ensures rd.Valid() && rd.At() >= old(rd.At())
    ensures ok <==> old(rd.At()) + 14 <= |StreamBits(rd.input)|
    ensures ok ==> rd.At() == old(rd.At()) + 14
    ensures ok ==> nLit == Field(StreamBits(rd.input), old(rd.At()), 5) + 257 <= 288
    ensures ok ==> nDst == Field(StreamBits(rd.input), old(rd.At()) + 5, 5) + 1 <= 32
    ensures ok ==> nCl == Field(StreamBits(rd.input), old(rd.At()) + 10, 4) + 4 <= 19
  {
    ghost var w, at := StreamBits(rd.input), rd.At();
    nLit, nDst, nCl := 0, 0, 0;
    ok, nLit := GetExtra(rd, 5);
    if !ok { return; }
    ok, nDst := GetExtra(rd, 5);
    if !ok { return; }
    ok, nCl := GetExtra(rd, 4);
    if !ok { return; }
    CountBounds(w, at);
    nLit, nDst, nCl := nLit + 257, nDst + 1, nCl + 4;
  }

  /** The outcome `r` is that of a dynamic block whose counts have been read and whose code-length code is `cl`. */
  ghost predicate AtDynamic(r: Outcome, cl: LensResult, w: seq<bool>, nLit: nat, nDst: nat, out: seq<byte>, cap: nat)
  {
    && |out| <= cap && nLit <= 288 && nDst <= 32
    && (cl.Lens? ==> cl.at <= |w| && |cl.lens| == 19)
    && r == WithCode(cl, w, nLit, nLit + nDst, out, cap)
  }

  /** The outcome `r` is that of a dynamic block whose code lengths are `lens`. */
  ghost predicate AtBothLens(r: Outcome, lens: LensResult, w: seq<bool>, nLit: nat, nDst: nat, out: seq<byte>, cap: nat)
  {
    && |out| <= cap && nLit <= 288 && nDst <= 32
    && (lens.Lens? ==> lens.at <= |w| && |lens.lens| == nLit + nDst)
    && r == WithLens(lens, w, nLit, nLit + nDst, out, cap)
  }

  lemma DynamicStart(w: seq<bool>, at: nat, out: seq<byte>, cap: nat, nLit: nat, nDst: nat, nCl: nat)
    requires at + 14 <= |w| && |out| <= cap && nCl <= 19
    requires nLit == Field(w, at, 5) + 257 && nDst == Field(w, at + 5, 5) + 1 && nCl == Field(w, at + 10, 4) + 4
    ensures AtDynamic(Dynamic(w, at, out, cap), CodeLengthLens(w, at + 14, 0, nCl, Repeat(19, 0)), w, nLit, nDst,
                      out, cap)
  {
    hide WithCode, CodeLengthLens, Repeat, Field;
    CountBounds(w, at);
  }

  lemma CodeRead(r: Outcome, at: nat, cl: seq<nat>, w: seq<bool>, nLit: nat, nDst: nat, out: seq<byte>, cap: nat)
    requires AtDynamic(r, Lens(at, cl), w, nLit, nDst, out, cap)
    ensures !Accepted(cl) ==> r == Stop(Failed, out)
    ensures Accepted(cl) ==> AtBothLens(r, ReadLens(cl, w, at, nLit + nDst, []), w, nLit, nDst, out, cap)
  {
    hide WithLens, ReadLens;
  }

  lemma LensRead(r: Outcome, at: nat, lens: seq<nat>, w: seq<bool>, nLit: nat, nDst: nat, out: seq<byte>, cap: nat)
    requires AtBothLens(r, Lens(at, lens), w, nLit, nDst, out, cap)
    ensures if !Accepted(lens[nLit..]) || !Accepted(lens[..nLit]) then r == Stop(Failed, out)
            else AtSymbols(r, lens[..nLit], lens[nLit..], w, at, out, cap)
  {
    hide Symbols;
  }

  lemma CountBounds(w: seq<bool>, at: nat)
    requires at + 14 <= |w|
    ensures Field(w, at, 5) < 32 && Field(w, at + 5, 5) < 32 && Field(w, at + 10, 4) < 16
  {
    FieldBound(w, at, 5);
    FieldBound(w, at + 5, 5);
    FieldBound(w, at + 10, 4);
  }

  lemma FixedStart(w: seq<bool>, at: nat, out: seq<byte>, cap: nat)
    requires at <= |w| && |w| % 8 == 0 && |out| <= cap
    ensures AtBothLens(Block(w, at, 1, out, cap), Lens(at, FixedLit() + FixedDist()), w, 288, 32, out, cap)
    ensures ValidLens(FixedLit() + FixedDist())
  {
    JoinLens(FixedLit(), FixedDist());
  }

  lemma JoinLens(a: seq<nat>, b: seq<nat>)
    requires ValidLens(a) && ValidLens(b)
    ensures (a + b)[..|a|] == a && (a + b)[|a|..] == b && ValidLens(a + b)
  {
  }

  /** Tables from a dynamic block's code lengths, then its symbols. */
  method DynamicSymbols(rd: Reader, outBuf: array<byte>, start: nat, t: DecodeTables, lens: seq<nat>, nLit: nat,
                        nDst: nat, ghost r: Outcome) returns (halt: Halt, cur: nat)
    requires rd.Valid() && start <= outBuf.Length && t.Valid() && |lens| == nLit + nDst && ValidLens(lens)
    requires AtBothLens(r, Lens(rd.At(), lens), StreamBits(rd.input), nLit, nDst, outBuf[..start], outBuf.Length)
    modifies rd, outBuf, t.look0, t.tree0, t.look1, t.tree1
    ensures rd.Valid() && start <= cur <= outBuf.Length && rd.At() >= old(rd.At())
    ensures Agrees(r, halt, rd.At(), outBuf[..cur])
  {
    hide WithLens;
    ghost var out := outBuf[..start];
    LensRead(r, rd.At(), lens, StreamBits(rd.input), nLit, nDst, out, outBuf.Length);
    var ok := BuildBoth(lens[..nLit], lens[nLit..], t);
    assert outBuf[..start] == out;
    if !ok { return Halted(Failed), start; }
    halt, cur := InflateBlock(rd, outBuf, start, t, lens[..nLit], lens[nLit..], r);
  }

  method DynamicBlock(rd: Reader, outBuf: array<byte>, start: nat, t: DecodeTables) returns (halt: Halt, cur: nat)
    requires rd.Valid() && start <= outBuf.Length && t.Valid()
    modifies rd, outBuf, t.look0, t.tree0, t.look1, t.tree1, t.look2, t.tree2
    ensures rd.Valid() && start <= cur <= outBuf.Length && rd.At() >= old(rd.At())
    ensures Agrees(Dynamic(StreamBits(rd.input), old(rd.At()), old(outBuf[..start]), outBuf.Length),
                   halt, rd.At(), outBuf[..cur])
  {
    ghost var w, at, out := StreamBits(rd.input), rd.At(), outBuf[..start];
    ghost var r := Dynamic(w, at, out, outBuf.Length);
    var ok, nLit, nDst, nCl := ReadCounts(rd);
    if !ok { return Halted(NoProgress), start; }
    DynamicStart(w, at, out, outBuf.Length, nLit, nDst, nCl);
    ghost var lr := CodeLengthLens(w, rd.At(), 0, nCl, Repeat(19, 0));
    var cl;
    ok, cl := ReadCodeLengthLens(rd, nCl, lr);
    if !ok { return Halted(NoProgress), start; }
    halt, cur := DynamicLens(rd, outBuf, start, t, cl, nLit, nDst, r);
  }

  method DynamicLens(rd: Reader, outBuf: array<byte>, start: nat, t: DecodeTables, cl: seq<nat>, nLit: nat, nDst: nat,
                     ghost r: Outcome) returns (halt: Halt, cur: nat)
    requires rd.Valid() && start <= outBuf.Length && t.Valid() && 257 <= nLit && |cl| == 19 && ValidLens(cl)
    requires AtDynamic(r, Lens(rd.At(), cl), StreamBits(rd.input), nLit, nDst, outBuf[..start], outBuf.Length)
    modifies rd, outBuf, t.look0, t.tree0, t.look1, t.tree1, t.look2, t.tree2
    ensures rd.Valid() && start <= cur <= outBuf.Length && rd.At() >= old(rd.At())
    ensures Agrees(r, halt, rd.At(), outBuf[..cur])
  {
    hide WithCode, ReadLens;
    ghost var out := outBuf[..start];
    CodeRead(r, rd.At(), cl, StreamBits(rd.input), nLit, nDst, out, outBuf.Length);
    var ok := BuildTable(cl, t.look2, t.tree2);
    if !ok { return Halted(Failed), start; }
    var halted, status, lens := ReadAllLens(rd, t, nLit + nDst, cl);
    assert outBuf[..start] == out;
    if halted { return Halted(status), start; }
    halt, cur := DynamicSymbols(rd, outBuf, start, t, lens, nLit, nDst, r);
  }

  method FixedBlock(rd: Reader, outBuf: array<byte>, start: nat, t: DecodeTables) returns (halt: Halt, cur: nat)
    requires rd.Valid() && start <= outBuf.Length && t.Valid()
    modifies rd, outBuf, t.look0, t.tree0, t.look1, t.tree1
    ensures rd.Valid() && start <= cur <= outBuf.Length && rd.At() >= old(rd.At())
    ensures Agrees(Block(StreamBits(rd.input), old(rd.At()), 1, old(outBuf[..start]), outBuf.Length),
                   halt, rd.At(), outBuf[..cur])
  {
    ghost var w, at, out := StreamBits(rd.input), rd.At(), outBuf[..start];
    FixedStart(w, at, out, outBuf.Length);
    var codeSize := new nat[288];
    FillFixed(codeSize);
    var both := codeSize[..] + seq(32, _ => 5);
    assert both == FixedLit() + FixedDist();
    assert outBuf[..start] == out;
    halt, cur := DynamicSymbols(rd, outBuf, start, t, both, 288, 32, Block(w, at, 1, out, outBuf.Length));
  }

  // ---------------------------------------------------------------- the stream

  method InflateOne(rd: Reader, outBuf: array<byte>, start: nat, t: DecodeTables, kind: nat)
    returns (halt: Halt, cur: nat)
    requires rd.Valid() && start <= outBuf.Length && t.Valid()
    modifies rd, outBuf, t.look0, t.tree0, t.look1, t.tree1, t.look2, t.tree2
    ensures rd.Valid() && start <= cur <= outBuf.Length && rd.At() >= old(rd.At())
    ensures Agrees(Block(StreamBits(rd.input), old(rd.At()), kind, old(outBuf[..start]), outBuf.Length),
                   halt, rd.At(), outBuf[..cur])
  {
    if kind == 0 {
      halt, cur := StoredBlock(rd, outBuf, start);
    } else if kind == 1 {
      halt, cur := FixedBlock(rd, outBuf, start, t);
    } else if kind == 2 {
      halt, cur := DynamicBlock(rd, outBuf, start, t);
    } else {
      halt, cur := Halted(Failed), start;
    }
  }

  /** The outcome `r` is what the blocks from bit `at` on yield. */
  ghost predicate AtBlocks(r: Outcome, w: seq<bool>, at: nat, out: seq<byte>, cap: nat) {
    at <= |w| && |w| % 8 == 0 && |out| <= cap && r == Blocks(w, at, out, cap)
  }

  lemma BlocksStep(r: Outcome, w: seq<bool>, at: nat, out: seq<byte>, cap: nat, halt: Halt, end: nat, out': seq<byte>)
    requires AtBlocks(r, w, at, out, cap) && at + 3 <= |w|
    requires Agrees(Block(w, at + 3, Field(w, at, 3) / 2, out, cap), halt, end, out')
    ensures halt.Halted? ==> r == Stop(halt.status, out')
    ensures halt.Ended? && Field(w, at, 3) % 2 == 1 ==> r == Done(AlignUp(end), out')
    ensures halt.Ended? && Field(w, at, 3) % 2 == 0 ==> AtBlocks(r, w, end, out', cap) && end > at
  {
  }

  /** One block with its three header bits. */
  method InflateNext(rd: Reader, outBuf: array<byte>, start: nat, t: DecodeTables, ghost r: Outcome)
    returns (final: bool, halt: Halt, cur: nat)
    requires rd.Valid() && start <= outBuf.Length && t.Valid()
    requires AtBlocks(r, StreamBits(rd.input), rd.At(), outBuf[..start], outBuf.Length)
    modifies rd, outBuf, t.look0, t.tree0, t.look1, t.tree1, t.look2, t.tree2
    ensures rd.Valid() && start <= cur <= outBuf.Length && rd.At() >= old(rd.At())
    ensures halt.Halted? ==> r == Stop(halt.status, outBuf[..cur])
    ensures halt.Ended? && final ==> r == Done(AlignUp(rd.At()), outBuf[..cur])
    ensures halt.Ended? && !final ==> rd.At() > old(rd.At())
    ensures halt.Ended? && !final ==> AtBlocks(r, StreamBits(rd.input), rd.At(), outBuf[..cur], outBuf.Length)
  {
    ghost var w, at, out := StreamBits(rd.input), rd.At(), outBuf[..start];
    var ok, head := GetExtra(rd, 3);
    if !ok { return false, Halted(NoProgress), start; }
    final := head % 2 == 1;
    halt, cur := InflateOne(rd, outBuf, start, t, head / 2);
    BlocksStep(r, w, at, out, outBuf.Length, halt, rd.At(), outBuf[..cur]);
  }

  /** Decodes blocks up to the final one, then gives the unused whole bytes back to the input. */
  method InflateRaw(rd: Reader, outBuf: array<byte>, start: nat, t: DecodeTables) returns (halt: Halt, cur: nat)
    requires rd.Valid() && start <= outBuf.Length && t.Valid()
    modifies rd, outBuf, t.look0, t.tree0, t.look1, t.tree1, t.look2, t.tree2
    ensures rd.Valid() && start <= cur <= outBuf.Length
    ensures Agrees(Blocks(StreamBits(rd.input), old(rd.At()), old(outBuf[..start]), outBuf.Length),
                   halt, rd.At(), outBuf[..cur])
    ensures halt.Ended? ==> rd.numBits == 0
  {
    ghost var r := Blocks(StreamBits(rd.input), rd.At(), outBuf[..start], outBuf.Length);
    cur := start;
    while true
      invariant rd.Valid() && start <= cur <= outBuf.Length
      invariant AtBlocks(r, StreamBits(rd.input), rd.At(), outBuf[..cur], outBuf.Length)
      decreases |StreamBits(rd.input)| - rd.At()
    {
      var final;
      final, halt, cur := InflateNext(rd, outBuf, cur, t, r);
      if halt.Halted? { return; }
      if final {
        Finish(rd);
        return;
      }
    }
  }

  /** To the next byte boundary, and back to the first unused byte. */
  method Finish(rd: Reader)
    requires rd.Valid()
    modifies rd
    ensures rd.Valid() && rd.At() == AlignUp(old(rd.At())) && rd.numBits == 0
  {
    ghost var k := AlignReader(rd);
    rd.PutBack();
    assert 8 * rd.pos - rd.numBits == 8 * k;
  }
}
