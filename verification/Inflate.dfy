/** The inflater: buffered input, table lookups, several bytes per copy step. Each method is proved to
    produce what `InflateSpec` says. The whole output goes to one non-wrapping buffer. */
module Inflate {
  import opened Bits
  import opened Huffman
  import opened HuffmanTable
  import opened HuffmanDecode
  import opened BitReader
  import opened InflateSpec

  datatype Halt = Ended | Halted(status: Status)

  /** The decoder stands where the specified outcome `r` ends. */
  ghost predicate Agrees(r: Outcome, halt: Halt, at: nat, out: seq<byte>) {
    && r.out == out
    && (if r.Done? then halt == Ended && r.at == at else halt == Halted(r.status))
  }

  // ---------------------------------------------------------------- back-references

  lemma {:induction false} CopyMatchNext(out: seq<byte>, dist: nat, n: nat)
    requires 1 <= dist <= |out|
    ensures var r := CopyMatch(out, dist, n); CopyMatch(out, dist, n + 1) == r + [r[|r| - dist]]
    decreases n
  {
    if n == 0 {
      assert CopyMatch(out + [out[|out| - dist]], dist, 0) == out + [out[|out| - dist]];
    } else {
      CopyMatchNext(out + [out[|out| - dist]], dist, n - 1);
    }
  }

  /** One byte of a copy. */
  method CopyByte(outBuf: array<byte>, cur: nat, dist: nat, ghost out: seq<byte>, ghost n: nat)
    requires 1 <= dist <= |out| && cur < outBuf.Length && outBuf[..cur] == CopyMatch(out, dist, n)
    modifies outBuf
    ensures outBuf[..cur + 1] == CopyMatch(out, dist, n + 1)
  {
    CopyMatchNext(out, dist, n);
    ghost var r := outBuf[..cur];
    outBuf[cur] := outBuf[cur - dist];
    assert outBuf[..cur + 1] == r + [r[cur - dist]];
  }

  /** Three bytes at a time, then the remaining one or two. */
  method CopyWhole(outBuf: array<byte>, start: nat, dist: nat, len: nat) returns (cur: nat)
    requires 1 <= dist <= start && start + len <= outBuf.Length
    modifies outBuf
    ensures cur == start + len && outBuf[..cur] == CopyMatch(old(outBuf[..start]), dist, len)
  {
    ghost var out := outBuf[..start];
    cur := start;
    var counter := len;
    while counter > 2
      invariant cur + counter == start + len && cur >= start
      invariant outBuf[..cur] == CopyMatch(out, dist, cur - start)
    {
      CopyByte(outBuf, cur, dist, out, cur - start);
      CopyByte(outBuf, cur + 1, dist, out, cur + 1 - start);
      CopyByte(outBuf, cur + 2, dist, out, cur + 2 - start);
      cur := cur + 3;
      counter := counter - 3;
    }
    CopyTail(outBuf, cur, dist, counter, out, cur - start);
    cur := cur + counter;
  }

  /** The last byte or two. */
  method CopyTail(outBuf: array<byte>, cur: nat, dist: nat, counter: nat, ghost out: seq<byte>, ghost n: nat)
    requires 1 <= dist <= |out| && counter <= 2 && cur + counter <= outBuf.Length
    requires outBuf[..cur] == CopyMatch(out, dist, n)
    modifies outBuf
    ensures outBuf[..cur + counter] == CopyMatch(out, dist, n + counter)
  {
    if counter > 0 {
      CopyByte(outBuf, cur, dist, out, n);
      if counter > 1 { CopyByte(outBuf, cur + 1, dist, out, n + 1); }
    }
  }

  /** A copy that does not fit: byte by byte until the buffer is full. */
  method CopyUntilFull(outBuf: array<byte>, start: nat, dist: nat, len: nat) returns (cur: nat)
    requires 1 <= dist <= start <= outBuf.Length < start + len
    modifies outBuf
    ensures cur == outBuf.Length && outBuf[..cur] == CopyMatch(old(outBuf[..start]), dist, outBuf.Length - start)
  {
    ghost var out := outBuf[..start];
    cur := start;
    var counter := len;
    while counter > 0 && cur < outBuf.Length
      invariant start <= cur <= outBuf.Length && cur + counter == start + len
      invariant outBuf[..cur] == CopyMatch(out, dist, cur - start)
    {
      CopyByte(outBuf, cur, dist, out, cur - start);
      cur := cur + 1;
      counter := counter - 1;
    }
  }

  // ---------------------------------------------------------------- compressed blocks

  /** The outcome `r` is what decoding on from here yields. */
  ghost predicate AtSymbols(r: Outcome, lit: seq<nat>, dst: seq<nat>, w: seq<bool>, at: nat, out: seq<byte>, cap: nat)
  {
    Tables(lit, dst) && at <= |w| && |out| <= cap && r == Symbols(lit, dst, w, at, out, cap)
  }

  /** The outcome `r` is what the step leads to. */
  ghost predicate Continues(r: Outcome, lit: seq<nat>, dst: seq<nat>, w: seq<bool>, step: Step, cap: nat) {
    match step
    case End(e) => r == e
    case Go(at, out) => AtSymbols(r, lit, dst, w, at, out, cap)
  }

  /** The outcome `r` is what follows once symbol `s` has been read. */
  ghost predicate AtSymbol(r: Outcome, lit: seq<nat>, dst: seq<nat>, w: seq<bool>, s: nat, at: nat, out: seq<byte>,
                           cap: nat)
  {
    && Tables(lit, dst) && at <= |w| && |out| <= cap && s < 288
    && Continues(r, lit, dst, w, SymbolStep(dst, w, s, at, out, cap), cap)
  }

  /** The outcome `r` is what follows once a match length has been read. */
  ghost predicate AtDistance(r: Outcome, lit: seq<nat>, dst: seq<nat>, w: seq<bool>, len: nat, at: nat,
                             out: seq<byte>, cap: nat)
  {
    && Tables(lit, dst) && at <= |w| && |out| <= cap
    && Continues(r, lit, dst, w, MatchStep(dst, w, len, at, out, cap), cap)
  }

  /** The outcome `r` is what follows once length and distance have been read. */
  ghost predicate AtCopy(r: Outcome, lit: seq<nat>, dst: seq<nat>, w: seq<bool>, dist: nat, len: nat, at: nat,
                         out: seq<byte>, cap: nat)
  {
    && Tables(lit, dst) && at <= |w| && |out| <= cap
    && Continues(r, lit, dst, w, CopyStep(dist, len, at, out, cap), cap)
  }

  lemma SymbolBounds(lit: seq<nat>, w: seq<bool>, at: nat, s: nat, end: nat)
    requires Accepted(lit) && |lit| <= 288 && Took(lit, w, at, s, end)
    ensures s < 288 && end <= |w| && (end == at ==> s == 0)
  {
  }

  lemma SymbolsStep(r: Outcome, lit: seq<nat>, dst: seq<nat>, w: seq<bool>, at: nat, out: seq<byte>, cap: nat, s: nat,
                    end: nat)
    requires AtSymbols(r, lit, dst, w, at, out, cap) && Took(lit, w, at, s, end)
    ensures AtSymbol(r, lit, dst, w, s, end, out, cap)
    ensures end == at ==> s == 0
  {
    SymbolBounds(lit, w, at, s, end);
    var step := SymbolStep(dst, w, s, end, out, cap);
    assert at + (end - at) == end;
    assert r == match step case End(e) => e case Go(at', out') => Symbols(lit, dst, w, at', out', cap);
  }

  lemma SymbolsWait(r: Outcome, lit: seq<nat>, dst: seq<nat>, w: seq<bool>, at: nat, out: seq<byte>, cap: nat)
    requires AtSymbols(r, lit, dst, w, at, out, cap) && Waits(lit, w, at)
    ensures r == Stop(NoProgress, out)
  {
  }

  lemma LiteralStep(r: Outcome, lit: seq<nat>, dst: seq<nat>, w: seq<bool>, s: nat, at: nat, out: seq<byte>, cap: nat)
    requires AtSymbol(r, lit, dst, w, s, at, out, cap) && s < 256
    ensures |out| >= cap ==> r == Stop(MoreOutput, out)
    ensures |out| < cap ==> AtSymbols(r, lit, dst, w, at, out + [s], cap)
  {
  }

  class DecodeTables {
    const look0: array<int>
    const tree0: array<int>
    const look1: array<int>
    const tree1: array<int>
    const look2: array<int>
    const tree2: array<int>

    ghost predicate Valid() {
      && look0.Length == look1.Length == look2.Length == FAST_SIZE
      && tree0.Length == 576 && tree1.Length == 64 && tree2.Length == 38
      && look0 != look1 && look0 != look2 && look1 != look2
      && look0 != tree0 && look0 != tree1 && look0 != tree2
      && look1 != tree0 && look1 != tree1 && look1 != tree2
      && look2 != tree0 && look2 != tree1 && look2 != tree2
      && tree0 != tree1 && tree0 != tree2 && tree1 != tree2
    }

    ghost predicate Ready(lit: seq<nat>, dst: seq<nat>)
      reads look0, tree0, look1, tree1
    {
      Tables(lit, dst) && Represents(lit, look0[..], tree0[..]) && Represents(dst, look1[..], tree1[..])
    }

    constructor ()
      ensures Valid() && fresh(look0) && fresh(tree0) && fresh(look1) && fresh(tree1) && fresh(look2) && fresh(tree2)
    {
      look0, tree0 := new int[FAST_SIZE](_ => 0), new int[576](_ => 0);
      look1, tree1 := new int[FAST_SIZE](_ => 0), new int[64](_ => 0);
      look2, tree2 := new int[FAST_SIZE](_ => 0), new int[38](_ => 0);
    }
  }

  /** Reads a symbol the careful way. */
  method SlowSymbol(rd: Reader, t: DecodeTables, ghost lit: seq<nat>, ghost dst: seq<nat>, ghost r: Outcome,
                    ghost out: seq<byte>, ghost cap: nat) returns (ok: bool, sym: nat)
    requires rd.Valid() && t.Valid() && t.Ready(lit, dst)
    requires AtSymbols(r, lit, dst, StreamBits(rd.input), rd.At(), out, cap)
    modifies rd
    ensures rd.Valid() && rd.At() >= old(rd.At())
    ensures !ok ==> r == Stop(NoProgress, out)
    ensures ok ==> AtSymbol(r, lit, dst, StreamBits(rd.input), sym, rd.At(), out, cap)
    ensures ok && rd.At() == old(rd.At()) ==> sym == 0
  {
    ghost var at := rd.At();
    ok, sym := rd.HuffDecode(t.look0, t.tree0, lit);
    if ok {
      SymbolsStep(r, lit, dst, StreamBits(rd.input), at, out, cap, sym, rd.At());
    } else {
      SymbolsWait(r, lit, dst, StreamBits(rd.input), at, out, cap);
    }
  }

  /** Reads a symbol when two further bytes are certain to be there. */
  method FastSymbol(rd: Reader, t: DecodeTables, ghost lit: seq<nat>, ghost dst: seq<nat>, ghost r: Outcome,
                    ghost out: seq<byte>, ghost cap: nat) returns (sym: nat)
    requires rd.Valid() && t.Valid() && t.Ready(lit, dst) && |rd.input| - rd.pos >= 2
    requires AtSymbols(r, lit, dst, StreamBits(rd.input), rd.At(), out, cap)
    modifies rd
    ensures rd.Valid() && rd.At() >= old(rd.At()) && rd.pos <= old(rd.pos) + 2
    ensures AtSymbol(r, lit, dst, StreamBits(rd.input), sym, rd.At(), out, cap)
    ensures rd.At() == old(rd.At()) ==> sym == 0
  {
    ghost var at := rd.At();
    if rd.numBits < 15 {
      rd.PullByte();
      rd.PullByte();
    }
    sym := rd.TakeCode(t.look0, t.tree0, lit);
    SymbolsStep(r, lit, dst, StreamBits(rd.input), at, out, cap, sym, rd.At());
  }

  method StoreLiteral(outBuf: array<byte>, cur: nat, sym: nat, ghost lit: seq<nat>, ghost dst: seq<nat>,
                      ghost r: Outcome, ghost w: seq<bool>, ghost at: nat)
    requires cur < outBuf.Length && sym < 256
    requires AtSymbol(r, lit, dst, w, sym, at, outBuf[..cur], outBuf.Length)
    modifies outBuf
    ensures AtSymbols(r, lit, dst, w, at, outBuf[..cur + 1], outBuf.Length)
  {
    LiteralStep(r, lit, dst, w, sym, at, outBuf[..cur], outBuf.Length);
    ghost var out := outBuf[..cur];
    outBuf[cur] := sym;
    assert outBuf[..cur + 1] == out + [sym];
  }

  /** Decodes and stores literals up to the next other symbol. With enough input and room it takes two
      symbols per round without further checks. */
  method LiteralRun(rd: Reader, outBuf: array<byte>, start: nat, t: DecodeTables, ghost lit: seq<nat>, ghost dst: seq<nat>,
                    ghost r: Outcome)
    returns (halted: bool, status: Status, sym: nat, cur: nat)
    requires rd.Valid() && start <= outBuf.Length && t.Valid() && t.Ready(lit, dst)
    requires AtSymbols(r, lit, dst, StreamBits(rd.input), rd.At(), outBuf[..start], outBuf.Length)
    modifies rd, outBuf
    ensures rd.Valid() && start <= cur <= outBuf.Length && rd.At() >= old(rd.At())
    ensures halted ==> r == Stop(status, outBuf[..cur])
    ensures !halted ==> sym >= 256 && rd.At() > old(rd.At())
    ensures !halted ==> AtSymbol(r, lit, dst, StreamBits(rd.input), sym, rd.At(), outBuf[..cur], outBuf.Length)
  {
    ghost var w, cap := StreamBits(rd.input), outBuf.Length;
    cur, status := start, NoProgress;
    while true
      invariant rd.Valid() && start <= cur <= outBuf.Length && rd.At() >= old(rd.At())
      invariant AtSymbols(r, lit, dst, w, rd.At(), outBuf[..cur], cap)
      decreases |w| - rd.At(), cap - cur
    {
      if |rd.input| - rd.pos < 4 || outBuf.Length - cur < 2 {
        var ok;
        ok, sym := SlowSymbol(rd, t, lit, dst, r, outBuf[..cur], cap);
        if !ok { return true, NoProgress, 0, cur; }
        if sym >= 256 { return false, status, sym, cur; }
        if cur >= outBuf.Length {
          LiteralStep(r, lit, dst, w, sym, rd.At(), outBuf[..cur], cap);
          return true, MoreOutput, 0, cur;
        }
        StoreLiteral(outBuf, cur, sym, lit, dst, r, w, rd.At());
        cur := cur + 1;
      } else {
        sym := FastSymbol(rd, t, lit, dst, r, outBuf[..cur], cap);
        if sym >= 256 { return false, status, sym, cur; }
        StoreLiteral(outBuf, cur, sym, lit, dst, r, w, rd.At());
        cur := cur + 1;
        sym := FastSymbol(rd, t, lit, dst, r, outBuf[..cur], cap);
        if sym >= 256 { return false, status, sym, cur; }
        StoreLiteral(outBuf, cur, sym, lit, dst, r, w, rd.At());
        cur := cur + 1;
      }
    }
  }

  /** The `n` extra bits of a code, none for most. */
  method GetExtra(rd: Reader, n: nat) returns (ok: bool, b: nat)
    requires rd.Valid() && n <= 16
    modifies rd
    ensures rd.Valid() && rd.At() == old(rd.At()) + if ok then n else 0
    ensures ok <==> old(rd.At()) + n <= |StreamBits(rd.input)|
    ensures ok ==> b == Field(StreamBits(rd.input), old(rd.At()), n)
  {
    if n != 0 {
      ok, b := rd.GetBits(n);
    } else {
      ok, b := true, 0;
      assert StreamBits(rd.input)[rd.At()..rd.At()] == [];
    }
  }

  /** The outcome `r` is what follows once the length symbol with these table entries has been read. */
  ghost predicate AtLength(r: Outcome, lit: seq<nat>, dst: seq<nat>, w: seq<bool>, base: nat, le: nat, at: nat,
                           out: seq<byte>, cap: nat)
  {
    && Tables(lit, dst) && at <= |w| && |out| <= cap
    && Continues(r, lit, dst, w, LengthStep(dst, w, base, le, at, out, cap), cap)
  }

  lemma LengthRead(r: Outcome, lit: seq<nat>, dst: seq<nat>, w: seq<bool>, base: nat, le: nat, at: nat,
                   out: seq<byte>, cap: nat, len: nat, end: nat)
    requires AtLength(r, lit, dst, w, base, le, at, out, cap)
    requires end == at + le <= |w| && len == base + Field(w, at, le)
    ensures AtDistance(r, lit, dst, w, len, end, out, cap)
  {
  }

  lemma LengthWait(r: Outcome, lit: seq<nat>, dst: seq<nat>, w: seq<bool>, base: nat, le: nat, at: nat,
                   out: seq<byte>, cap: nat)
    requires AtLength(r, lit, dst, w, base, le, at, out, cap) && at + le > |w|
    ensures r == Stop(NoProgress, out)
  {
  }

  lemma DistanceWait(r: Outcome, lit: seq<nat>, dst: seq<nat>, w: seq<bool>, len: nat, at: nat, out: seq<byte>,
                     cap: nat)
    requires AtDistance(r, lit, dst, w, len, at, out, cap) && Waits(dst, w, at)
    ensures r == Stop(NoProgress, out)
  {
  }

  ghost predicate AtDistanceBits(r: Outcome, lit: seq<nat>, dst: seq<nat>, w: seq<bool>, len: nat, base: nat, de: nat,
                                 at: nat, out: seq<byte>, cap: nat)
  {
    && Tables(lit, dst) && at <= |w| && |out| <= cap
    && Continues(r, lit, dst, w, DistanceStep(w, len, base, de, at, out, cap), cap)
  }

  lemma DistanceSymbol(r: Outcome, lit: seq<nat>, dst: seq<nat>, w: seq<bool>, len: nat, at: nat, out: seq<byte>,
                       cap: nat, d: nat, end: nat)
    requires AtDistance(r, lit, dst, w, len, at, out, cap) && Took(dst, w, at, d, end)
    ensures d < 32 && AtDistanceBits(r, lit, dst, w, len, DistBase(d), DistExtra(d), end, out, cap)
  {
  }

  lemma DistanceRead(r: Outcome, lit: seq<nat>, dst: seq<nat>, w: seq<bool>, len: nat, base: nat, de: nat, at: nat,
                     out: seq<byte>, cap: nat, dist: nat, end: nat)
    requires AtDistanceBits(r, lit, dst, w, len, base, de, at, out, cap)
    requires end == at + de <= |w| && dist == base + Field(w, at, de)
    ensures AtCopy(r, lit, dst, w, dist, len, end, out, cap)
  {
  }

  lemma DistanceShort(r: Outcome, lit: seq<nat>, dst: seq<nat>, w: seq<bool>, len: nat, base: nat, de: nat, at: nat,
                      out: seq<byte>, cap: nat)
    requires AtDistanceBits(r, lit, dst, w, len, base, de, at, out, cap) && at + de > |w|
    ensures r == Stop(NoProgress, out)
  {
  }

  lemma CopyStepCases(r: Outcome, lit: seq<nat>, dst: seq<nat>, w: seq<bool>, dist: nat, len: nat, at: nat,
                      out: seq<byte>, cap: nat)
    requires AtCopy(r, lit, dst, w, dist, len, at, out, cap)
    ensures if dist == 0 || dist > |out| then r == Stop(Failed, out)
            else if |out| + len > cap then r == Stop(MoreOutput, CopyMatch(out, dist, cap - |out|))
            else AtSymbols(r, lit, dst, w, at, CopyMatch(out, dist, len), cap)
  {
  }

  lemma EndStep(r: Outcome, lit: seq<nat>, dst: seq<nat>, w: seq<bool>, at: nat, out: seq<byte>, cap: nat)
    requires AtSymbol(r, lit, dst, w, 256, at, out, cap)
    ensures r == Done(at, out)
  {
  }

  /** The length of a match: the table entries of its symbol and the extra bits that follow. */
  method ReadLength(rd: Reader, base: nat, numExtra: nat, ghost lit: seq<nat>, ghost dst: seq<nat>, ghost r: Outcome,
                    ghost out: seq<byte>, ghost cap: nat) returns (ok: bool, len: nat)
    requires rd.Valid() && numExtra <= 16
    requires AtLength(r, lit, dst, StreamBits(rd.input), base, numExtra, rd.At(), out, cap)
    modifies rd
    ensures rd.Valid() && rd.At() >= old(rd.At())
    ensures !ok ==> r == Stop(NoProgress, out)
    ensures ok ==> AtDistance(r, lit, dst, StreamBits(rd.input), len, rd.At(), out, cap)
  {
    ghost var w, at := StreamBits(rd.input), rd.At();
    var extra;
    ok, extra := GetExtra(rd, numExtra);
    len := base + extra;
    if ok {
      LengthRead(r, lit, dst, w, base, numExtra, at, out, cap, len, rd.At());
    } else {
      LengthWait(r, lit, dst, w, base, numExtra, at, out, cap);
    }
  }

  method ReadDistanceBits(rd: Reader, len: nat, base: nat, numExtra: nat, ghost lit: seq<nat>, ghost dst: seq<nat>,
                          ghost r: Outcome, ghost out: seq<byte>, ghost cap: nat) returns (ok: bool, dist: nat)
    requires rd.Valid() && numExtra <= 16
    requires AtDistanceBits(r, lit, dst, StreamBits(rd.input), len, base, numExtra, rd.At(), out, cap)
    modifies rd
    ensures rd.Valid() && rd.At() >= old(rd.At())
    ensures !ok ==> r == Stop(NoProgress, out)
    ensures ok ==> AtCopy(r, lit, dst, StreamBits(rd.input), dist, len, rd.At(), out, cap)
  {
    ghost var w, at := StreamBits(rd.input), rd.At();
    var extra;
    ok, extra := GetExtra(rd, numExtra);
    dist := base + extra;
    if ok {
      DistanceRead(r, lit, dst, w, len, base, numExtra, at, out, cap, dist, rd.At());
    } else {
      DistanceShort(r, lit, dst, w, len, base, numExtra, at, out, cap);
    }
  }

  method ReadDistance(rd: Reader, t: DecodeTables, len: nat, ghost lit: seq<nat>, ghost dst: seq<nat>,
                      ghost r: Outcome, ghost out: seq<byte>, ghost cap: nat) returns (ok: bool, dist: nat)
    requires rd.Valid() && t.Valid() && t.Ready(lit, dst)
    requires AtDistance(r, lit, dst, StreamBits(rd.input), len, rd.At(), out, cap)
    modifies rd
    ensures rd.Valid() && rd.At() >= old(rd.At())
    ensures !ok ==> r == Stop(NoProgress, out)
    ensures ok ==> AtCopy(r, lit, dst, StreamBits(rd.input), dist, len, rd.At(), out, cap)
  {
    ghost var w, at := StreamBits(rd.input), rd.At();
    var d;
    ok, d := rd.HuffDecode(t.look1, t.tree1, dst);
    if !ok {
      DistanceWait(r, lit, dst, w, len, at, out, cap);
      return false, 0;
    }
    DistanceSymbol(r, lit, dst, w, len, at, out, cap, d, rd.At());
    ok, dist := ReadDistanceBits(rd, len, DistBase(d), DistExtra(d), lit, dst, r, out, cap);
  }

  method DoCopy(outBuf: array<byte>, start: nat, dist: nat, len: nat, ghost lit: seq<nat>, ghost dst: seq<nat>,
                ghost w: seq<bool>, ghost at: nat, ghost r: Outcome) returns (halted: bool, status: Status, cur: nat)
    requires start <= outBuf.Length && AtCopy(r, lit, dst, w, dist, len, at, outBuf[..start], outBuf.Length)
    modifies outBuf
    ensures start <= cur <= outBuf.Length
    ensures halted ==> r == Stop(status, outBuf[..cur])
    ensures !halted ==> AtSymbols(r, lit, dst, w, at, outBuf[..cur], outBuf.Length)
  {
    CopyStepCases(r, lit, dst, w, dist, len, at, outBuf[..start], outBuf.Length);
    cur := start;
    if dist == 0 || dist > start || start == 0 { return true, Failed, cur; }
    if start + len > outBuf.Length {
      cur := CopyUntilFull(outBuf, start, dist, len);
      return true, MoreOutput, cur;
    }
    cur := CopyWhole(outBuf, start, dist, len);
    return false, Failed, cur;
  }

  /** Decodes the symbols of a compressed block up to its end code. */
  method InflateBlock(rd: Reader, outBuf: array<byte>, start: nat, t: DecodeTables, ghost lit: seq<nat>, ghost dst: seq<nat>,
                      ghost r: Outcome)
    returns (halt: Halt, cur: nat)
    requires rd.Valid() && start <= outBuf.Length && t.Valid() && t.Ready(lit, dst)
    requires AtSymbols(r, lit, dst, StreamBits(rd.input), rd.At(), outBuf[..start], outBuf.Length)
    modifies rd, outBuf
    ensures rd.Valid() && start <= cur <= outBuf.Length && rd.At() >= old(rd.At())
    ensures Agrees(r, halt, rd.At(), outBuf[..cur])
  {
    ghost var w, cap := StreamBits(rd.input), outBuf.Length;
    cur := start;
    while true
      invariant rd.Valid() && start <= cur <= outBuf.Length && rd.At() >= old(rd.At())
      invariant AtSymbols(r, lit, dst, w, rd.At(), outBuf[..cur], cap)
      decreases |w| - rd.At()
    {
      var halted, status, sym, ok, len, dist;
      halted, status, sym, cur := LiteralRun(rd, outBuf, cur, t, lit, dst, r);
      if halted { return Halted(status), cur; }
      if sym == 256 {
        EndStep(r, lit, dst, w, rd.At(), outBuf[..cur], cap);
        return Ended, cur;
      }
      ok, len := ReadLength(rd, LengthBase(sym - 257), LengthExtra(sym - 257), lit, dst, r, outBuf[..cur], cap);
      if !ok { return Halted(NoProgress), cur; }
      ok, dist := ReadDistance(rd, t, len, lit, dst, r, outBuf[..cur], cap);
      if !ok { return Halted(NoProgress), cur; }
      halted, status, cur := DoCopy(outBuf, cur, dist, len, lit, dst, w, rd.At(), r);
      if halted { return Halted(status), cur; }
    }
  }

  // ---------------------------------------------------------------- stored blocks

  /** Byte `k` of the input when the reader stands there, from the buffer while it has any. */
  method AlignedByte(rd: Reader, ghost k: nat) returns (ok: bool, b: nat)
    requires rd.Valid() && rd.At() == 8 * k
    modifies rd
    ensures rd.Valid() && rd.At() == 8 * (if ok then k + 1 else k)
    ensures ok <==> k < |rd.input|
    ensures ok ==> b == Field(StreamBits(rd.input), 8 * k, 8) < 256
    ensures old(rd.numBits) == 0 ==> rd.numBits == 0
  {
    if rd.numBits != 0 {
      ok, b := rd.GetBits(8);
    } else {
      ok, b := rd.GetByte();
    }
    if ok { FieldByte(StreamBits(rd.input), 8 * k); }
  }

  lemma AlignDrop(pos: nat, numBits: nat)
    requires numBits <= 8 * pos
    ensures AlignUp(8 * pos - numBits) == 8 * (pos - numBits / 8) == 8 * pos - numBits + numBits % 8
  {
  }

  /** Drops the bits up to the next byte boundary. */
  method AlignReader(rd: Reader) returns (ghost k: nat)
    requires rd.Valid()
    modifies rd
    ensures rd.Valid() && rd.At() == 8 * k == AlignUp(old(rd.At())) && rd.pos == old(rd.pos)
  {
    AlignDrop(rd.pos, rd.numBits);
    k := rd.pos - rd.numBits / 8;
    rd.Drop(rd.numBits % 8);
  }

  /** The outcome `r` is what copying `n` more bytes of a stored block yields. */
  ghost predicate AtStored(r: Outcome, w: seq<bool>, at: nat, n: nat, out: seq<byte>, cap: nat) {
    at <= |w| && |out| <= cap && r == StoredBytes(w, at, n, out, cap)
  }

  lemma StoredStep(r: Outcome, w: seq<bool>, at: nat, n: nat, out: seq<byte>, cap: nat)
    requires AtStored(r, w, at, n, out, cap) && n > 0
    ensures |out| >= cap ==> r == Stop(MoreOutput, out)
    ensures |out| < cap && at + 8 > |w| ==> r == Stop(NoProgress, out)
    ensures |out| < cap && at + 8 <= |w| ==> Field(w, at, 8) < 256
    ensures |out| < cap && at + 8 <= |w| ==> AtStored(r, w, at + 8, n - 1, out + [Field(w, at, 8)], cap)
  {
    if at + 8 <= |w| { FieldByte(w, at); }
  }

  method StoreByte(outBuf: array<byte>, cur: nat, b: byte)
    requires cur < outBuf.Length
    modifies outBuf
    ensures outBuf[..cur + 1] == old(outBuf[..cur]) + [b]
  {
    ghost var out := outBuf[..cur];
    outBuf[cur] := b;
    assert outBuf[..cur + 1] == out + [b];
  }

  /** Stored bytes that are still in the bit buffer. */
  method StoredFromBuffer(rd: Reader, outBuf: array<byte>, start: nat, n: nat, ghost r: Outcome, ghost k: nat)
    returns (full: bool, counter: nat, cur: nat)
    requires rd.Valid() && rd.At() == 8 * k && start <= outBuf.Length
    requires AtStored(r, StreamBits(rd.input), rd.At(), n, outBuf[..start], outBuf.Length)
    modifies rd, outBuf
    ensures rd.Valid() && start <= cur <= outBuf.Length && rd.At() >= old(rd.At())
    ensures full ==> r == Stop(MoreOutput, outBuf[..cur])
    ensures !full ==> AtStored(r, StreamBits(rd.input), rd.At(), counter, outBuf[..cur], outBuf.Length)
    ensures !full && counter > 0 ==> rd.numBits == 0
  {
    ghost var w := StreamBits(rd.input);
    ghost var j := k;
    counter, cur := n, start;
    while counter > 0 && rd.numBits > 0
      invariant rd.Valid() && start <= cur <= outBuf.Length && rd.At() == 8 * j && j >= k
      invariant AtStored(r, w, rd.At(), counter, outBuf[..cur], outBuf.Length)
      decreases counter
    {
      StoredStep(r, w, rd.At(), counter, outBuf[..cur], outBuf.Length);
      var ok, b := AlignedByte(rd, j);
      j := j + 1;
      if cur >= outBuf.Length { return true, counter, cur; }
      StoreByte(outBuf, cur, b);
      cur := cur + 1;
      counter := counter - 1;
    }
    full := false;
  }

  lemma StoredNextByte(r: Outcome, w: seq<bool>, at: nat, n: nat, out: seq<byte>, cap: nat, b: byte, end: nat)
    requires AtStored(r, w, at, n, out, cap) && |out| < cap && n > 0
    requires end == at + 8 <= |w| && Field(w, at, 8) == b
    ensures AtStored(r, w, end, n - 1, out + [b], cap)
  {
  }

  lemma StoredNext(r: Outcome, d: seq<byte>, p: nat, n: nat, out: seq<byte>, cap: nat)
    requires AtStored(r, StreamBits(d), 8 * p, n, out, cap) && p < |d| && |out| < cap && n > 0
    ensures AtStored(r, StreamBits(d), 8 * (p + 1), n - 1, out + [d[p]], cap)
  {
    InputByte(d, p);
    StoredNextByte(r, StreamBits(d), 8 * p, n, out, cap, d[p], 8 * (p + 1));
  }

  /** A run of stored bytes straight from the input. */
  method StoredRun(rd: Reader, outBuf: array<byte>, start: nat, counter: nat, n: nat, ghost r: Outcome)
    requires rd.Valid() && rd.numBits == 0 && n <= counter
    requires start + n <= outBuf.Length && rd.pos + n <= |rd.input|
    requires AtStored(r, StreamBits(rd.input), 8 * rd.pos, counter, outBuf[..start], outBuf.Length)
    modifies rd`pos, outBuf
    ensures rd.Valid() && rd.pos == old(rd.pos) + n
    ensures AtStored(r, StreamBits(rd.input), 8 * rd.pos, counter - n, outBuf[..start + n], outBuf.Length)
  {
    hide AtStored, StreamBits;
    ghost var p := rd.pos;
    var i := 0;
    while i < n
      invariant 0 <= i <= n && rd.pos == p
      invariant AtStored(r, StreamBits(rd.input), 8 * (p + i), counter - i, outBuf[..start + i], outBuf.Length)
    {
      StoredNext(r, rd.input, p + i, counter - i, outBuf[..start + i], outBuf.Length);
      StoreByte(outBuf, start + i, rd.input[rd.pos + i]);
      i := i + 1;
    }
    rd.pos := rd.pos + n;
    assert rd.Buffered() == [];
  }

  method StoredFromInput(rd: Reader, outBuf: array<byte>, start: nat, n: nat, ghost r: Outcome)
    returns (halt: Halt, cur: nat)
    requires rd.Valid() && (n > 0 ==> rd.numBits == 0) && start <= outBuf.Length
    requires AtStored(r, StreamBits(rd.input), rd.At(), n, outBuf[..start], outBuf.Length)
    modifies rd, outBuf
    ensures rd.Valid() && start <= cur <= outBuf.Length && rd.At() >= old(rd.At())
    ensures Agrees(r, halt, rd.At(), outBuf[..cur])
  {
    var counter := n;
    cur := start;
    while counter > 0
      invariant rd.Valid() && (counter > 0 ==> rd.numBits == 0) && start <= cur <= outBuf.Length
      invariant rd.At() >= old(rd.At())
      invariant AtStored(r, StreamBits(rd.input), rd.At(), counter, outBuf[..cur], outBuf.Length)
      decreases counter
    {
      StoredStep(r, StreamBits(rd.input), rd.At(), counter, outBuf[..cur], outBuf.Length);
      if cur >= outBuf.Length { return Halted(MoreOutput), cur; }
      if rd.pos >= |rd.input| { return Halted(NoProgress), cur; }
      var m := Min(Min(outBuf.Length - cur, |rd.input| - rd.pos), counter);
      StoredRun(rd, outBuf, cur, counter, m, r);
      cur := cur + m;
      counter := counter - m;
    }
    halt := Ended;
  }

  function Min(a: nat, b: nat): nat { if a < b then a else b }

  lemma StoredShort(w: seq<bool>, at: nat, out: seq<byte>, cap: nat, k: nat)
    requires at <= |w| && |w| % 8 == 0 && |out| <= cap && AlignUp(at) == 8 * k && 8 * (k + 4) > |w|
    ensures Stored(w, at, out, cap) == Stop(NoProgress, out)
  {
  }

  lemma StoredHeader(w: seq<bool>, at: nat, out: seq<byte>, cap: nat, k: nat, len: nat, nlen: nat)
    requires at <= |w| && |w| % 8 == 0 && |out| <= cap && AlignUp(at) == 8 * k && 8 * (k + 4) <= |w|
    requires len == Field(w, 8 * k, 8) + 256 * Field(w, 8 * (k + 1), 8)
    requires nlen == Field(w, 8 * (k + 2), 8) + 256 * Field(w, 8 * (k + 3), 8)
    ensures if len + nlen != 0xFFFF then Stored(w, at, out, cap) == Stop(Failed, out)
            else AtStored(Stored(w, at, out, cap), w, 8 * (k + 4), len, out, cap)
  {
  }

  /** LEN and its complement NLEN. */
  method StoredLengths(rd: Reader, ghost k: nat) returns (ok: bool, len: nat, nlen: nat)
    requires rd.Valid() && rd.At() == 8 * k
    modifies rd
    ensures rd.Valid() && rd.At() >= old(rd.At())
    ensures ok <==> k + 4 <= |rd.input|
    ensures ok ==> rd.At() == 8 * (k + 4) && nlen <= 0xFFFF
    ensures ok ==> var w := StreamBits(rd.input);
              && len == Field(w, 8 * k, 8) + 256 * Field(w, 8 * (k + 1), 8)
              && nlen == Field(w, 8 * (k + 2), 8) + 256 * Field(w, 8 * (k + 3), 8)
  {
    len, nlen := 0, 0;
    var h0, h1, h2, h3;
    ok, h0 := AlignedByte(rd, k);
    if !ok { return; }
    ok, h1 := AlignedByte(rd, k + 1);
    if !ok { return; }
    ok, h2 := AlignedByte(rd, k + 2);
    if !ok { return; }
    ok, h3 := AlignedByte(rd, k + 3);
    if !ok { return; }
    len, nlen := h0 + 256 * h1, h2 + 256 * h3;
  }

  method StoredBlock(rd: Reader, outBuf: array<byte>, start: nat) returns (halt: Halt, cur: nat)
    requires rd.Valid() && start <= outBuf.Length
    modifies rd, outBuf
    ensures rd.Valid() && start <= cur <= outBuf.Length && rd.At() >= old(rd.At())
    ensures Agrees(Stored(StreamBits(rd.input), old(rd.At()), old(outBuf[..start]), outBuf.Length),
                   halt, rd.At(), outBuf[..cur])
  {
    ghost var w, at, out := StreamBits(rd.input), rd.At(), outBuf[..start];
    ghost var r := Stored(w, at, out, outBuf.Length);
    ghost var k := AlignReader(rd);
    var ok, counter, complement := StoredLengths(rd, k);
    if !ok {
      StoredShort(w, at, out, outBuf.Length, k);
      return Halted(NoProgress), start;
    }
    StoredHeader(w, at, out, outBuf.Length, k, counter, complement);
    // xor with 0xFFFF is the difference from 0xFFFF
    if counter != 0xFFFF - complement { return Halted(Failed), start; }
    var full;
    full, counter, cur := StoredFromBuffer(rd, outBuf, start, counter, r, k + 4);
    if full { return Halted(MoreOutput), cur; }
    halt, cur := StoredFromInput(rd, outBuf, cur, counter, r);
  }
}
