/** What a deflate stream (RFC 1951) and its zlib wrapping (RFC 1950) mean: a decoder over the bit string
    with no buffer, no tables and one byte at a time. `cap` is the room of the output buffer. */
module InflateSpec {
  import opened Bits
  import opened Huffman
  import opened HuffmanTable
  import opened HuffmanDecode

  datatype Status = Failed | NoProgress | MoreOutput

  /** The stream was decoded up to bit `at`, or decoding stopped; `out` is the output so far. */
  datatype Outcome = Done(at: nat, out: seq<byte>) | Stop(status: Status, out: seq<byte>)

  /** The shortest length of length symbol `257 + i`; the unused symbols 286 and 287 have length 0. */
  function LengthBase(i: nat): nat {
    match i case 0 => 3 case 1 => 4 case 2 => 5 case 3 => 6 case 4 => 7 case 5 => 8 case 6 => 9 case 7 => 10
    case 8 => 11 case 9 => 13 case 10 => 15 case 11 => 17 case 12 => 19 case 13 => 23 case 14 => 27
    case 15 => 31 case 16 => 35 case 17 => 43 case 18 => 51 case 19 => 59 case 20 => 67 case 21 => 83
    case 22 => 99 case 23 => 115 case 24 => 131 case 25 => 163 case 26 => 195 case 27 => 227 case 28 => 258
    case 29 => 0 case _ => 0
  }

  function LengthExtra(i: nat): (n: nat)
    ensures n <= 5
  {
    if i < 8 || i >= 28 then 0 else i / 4 - 1
  }

  /** The shortest distance of distance symbol `i`; the unused symbols 30 and 31 have distance 0. */
  function DistBase(i: nat): nat {
    match i case 0 => 1 case 1 => 2 case 2 => 3 case 3 => 4 case 4 => 5 case 5 => 7 case 6 => 9 case 7 => 13
    case 8 => 17 case 9 => 25 case 10 => 33 case 11 => 49 case 12 => 65 case 13 => 97 case 14 => 129
    case 15 => 193 case 16 => 257 case 17 => 385 case 18 => 513 case 19 => 769 case 20 => 1025
    case 21 => 1537 case 22 => 2049 case 23 => 3073 case 24 => 4097 case 25 => 6145 case 26 => 8193
    case 27 => 12289 case 28 => 16385 case 29 => 24577 case 30 => 0 case _ => 0
  }

  function DistExtra(i: nat): (n: nat)
    ensures n <= 13
  {
    if i < 4 || i >= 30 then 0 else i / 2 - 1
  }

  /** The code-length symbol whose length comes `i`-th. */
  function Dezigzag(i: nat): (s: nat)
    ensures s < 19
  {
    match i case 0 => 16 case 1 => 17 case 2 => 18 case 3 => 0 case 4 => 8 case 5 => 7 case 6 => 9
    case 7 => 6 case 8 => 10 case 9 => 5 case 10 => 11 case 11 => 4 case 12 => 12 case 13 => 3 case 14 => 13
    case 15 => 2 case 16 => 14 case 17 => 1 case _ => 15
  }

  /** The number in the `n` bits of `w` from `at` on. */
  function Field(w: seq<bool>, at: nat, n: nat): nat
    requires at + n <= |w|
  {
    Val(w[at..at + n])
  }

  // ---------------------------------------------------------------- back-references

  /** `n` bytes copied from `dist` back, one at a time, so that a copy may read what it has just written
      (section 3.2.3 of RFC 1951). */
  function CopyMatch(out: seq<byte>, dist: nat, n: nat): (r: seq<byte>)
    requires 1 <= dist <= |out|
    ensures |r| == |out| + n && out <= r
    ensures forall i | |out| <= i < |r| :: r[i] == r[i - dist]
    decreases n
  {
    if n == 0 then out else CopyMatch(out + [out[|out| - dist]], dist, n - 1)
  }

  // ---------------------------------------------------------------- symbols of a compressed block

  /** An outcome that stays within the stream and the output buffer. */
  ghost predicate Sane(r: Outcome, w: seq<bool>, at: nat, cap: nat) {
    |r.out| <= cap && (r.Done? ==> at <= r.at <= |w|)
  }

  datatype Step = Go(at: nat, out: seq<byte>) | End(outcome: Outcome)

  ghost predicate Tables(lit: seq<nat>, dst: seq<nat>) {
    Accepted(lit) && Accepted(dst) && |lit| <= 288 && |dst| <= 32
  }

  /** The effect of literal/length symbol `s`, whose code ends at bit `at`. */
  ghost function SymbolStep(dst: seq<nat>, w: seq<bool>, s: nat, at: nat, out: seq<byte>, cap: nat): (r: Step)
    requires |dst| <= 32 && s < 288 && at <= |w| && |out| <= cap
    ensures r.Go? ==> at <= r.at <= |w| && |out| <= |r.out| <= cap && (s < 256 ==> |r.out| == |out| + 1)
    ensures r.End? ==> Sane(r.outcome, w, at, cap)
  {
    if s < 256 then
      if |out| >= cap then End(Stop(MoreOutput, out)) else Go(at, out + [s])
    else if s == 256 then End(Done(at, out))
    else LengthStep(dst, w, LengthBase(s - 257), LengthExtra(s - 257), at, out, cap)
  }

  /** The `le` extra bits of a length. */
  ghost function LengthStep(dst: seq<nat>, w: seq<bool>, base: nat, le: nat, at: nat, out: seq<byte>, cap: nat)
    : (r: Step)
    requires |dst| <= 32 && at <= |w| && |out| <= cap
    ensures r.Go? ==> at <= r.at <= |w| && |out| <= |r.out| <= cap
    ensures r.End? ==> Sane(r.outcome, w, at, cap)
  {
    if at + le > |w| then End(Stop(NoProgress, out))
    else MatchStep(dst, w, base + Field(w, at, le), at + le, out, cap)
  }

  /** A back-reference of length `len` whose distance code starts at bit `at`. */
  ghost function MatchStep(dst: seq<nat>, w: seq<bool>, len: nat, at: nat, out: seq<byte>, cap: nat): (r: Step)
    requires |dst| <= 32 && at <= |w| && |out| <= cap
    ensures r.Go? ==> at <= r.at <= |w| && |out| <= |r.out| <= cap
    ensures r.End? ==> Sane(r.outcome, w, at, cap)
  {
    match Decode(dst, w[at..])
    case Starved => End(Stop(NoProgress, out))
    case Sym(d, k) => DistanceStep(w, len, DistBase(d), DistExtra(d), at + k, out, cap)
  }

  /** The `de` extra bits of a distance. */
  ghost function DistanceStep(w: seq<bool>, len: nat, base: nat, de: nat, at: nat, out: seq<byte>, cap: nat): (r: Step)
    requires at <= |w| && |out| <= cap
    ensures r.Go? ==> at <= r.at <= |w| && |out| <= |r.out| <= cap
    ensures r.End? ==> Sane(r.outcome, w, at, cap)
  {
    if at + de > |w| then End(Stop(NoProgress, out))
    else CopyStep(base + Field(w, at, de), len, at + de, out, cap)
  }

  ghost function CopyStep(dist: nat, len: nat, at: nat, out: seq<byte>, cap: nat): (r: Step)
    requires |out| <= cap
    ensures r.Go? ==> r.at == at && |out| <= |r.out| <= cap
    ensures r.End? ==> r.outcome.Stop? && |r.outcome.out| <= cap
  {
    if dist == 0 || dist > |out| then End(Stop(Failed, out))
    else if |out| + len > cap then End(Stop(MoreOutput, CopyMatch(out, dist, cap - |out|)))
    else Go(at, CopyMatch(out, dist, len))
  }

  /** The symbols of a compressed block from bit `at` on. */
  ghost function Symbols(lit: seq<nat>, dst: seq<nat>, w: seq<bool>, at: nat, out: seq<byte>, cap: nat): (r: Outcome)
    requires Tables(lit, dst) && at <= |w| && |out| <= cap
    ensures Sane(r, w, at, cap)
    decreases |w| - at, cap - |out|
  {
    match Decode(lit, w[at..])
    case Starved => Stop(NoProgress, out)
    case Sym(s, k) =>
      match SymbolStep(dst, w, s, at + k, out, cap)
      case End(r) => r
      case Go(at', out') => Symbols(lit, dst, w, at', out', cap)
  }

  // ---------------------------------------------------------------- stored blocks

  /** The next byte boundary. */
  function AlignUp(at: nat): (r: nat)
    ensures at <= r < at + 8
  {
    8 * ((at + 7) / 8)
  }

  lemma AlignUpBound(at: nat, n: nat)
    requires at <= n && n % 8 == 0
    ensures AlignUp(at) <= n
  {
  }

  /** `n` bytes of the stream from bit `at` on, moved to the output. */
  function StoredBytes(w: seq<bool>, at: nat, n: nat, out: seq<byte>, cap: nat): (r: Outcome)
    requires at <= |w| && |out| <= cap
    ensures Sane(r, w, at, cap)
    decreases n
  {
    if n == 0 then Done(at, out)
    else if |out| >= cap then Stop(MoreOutput, out)
    else if at + 8 > |w| then Stop(NoProgress, out)
    else
      FieldByte(w, at);
      StoredBytes(w, at + 8, n - 1, out + [Field(w, at, 8)], cap)
  }

  lemma FieldByte(w: seq<bool>, at: nat)
    requires at + 8 <= |w|
    ensures Field(w, at, 8) < 256
  {
    ValBound(w[at..at + 8]);
    PowersOfTwo();
  }

  function Stored(w: seq<bool>, at: nat, out: seq<byte>, cap: nat): (r: Outcome)
    requires at <= |w| && |w| % 8 == 0 && |out| <= cap
    ensures Sane(r, w, at, cap)
  {
    var a := AlignUp(at);
    if a + 32 > |w| then Stop(NoProgress, out)
    else
      var len := Field(w, a, 8) + 256 * Field(w, a + 8, 8);
      var nlen := Field(w, a + 16, 8) + 256 * Field(w, a + 24, 8);
      if len + nlen != 0xFFFF then Stop(Failed, out)
      else StoredBytes(w, a + 32, len, out, cap)
  }

  // ---------------------------------------------------------------- code lengths

  function Repeat(n: nat, x: nat): (r: seq<nat>)
    ensures |r| == n && forall i | 0 <= i < n :: r[i] == x
  {
    seq(n, _ => x)
  }

  function FixedLit(): (lens: seq<nat>)
    ensures |lens| == 288 && ValidLens(lens)
  {
    Repeat(144, 8) + Repeat(112, 9) + Repeat(24, 7) + Repeat(8, 8)
  }

  function FixedDist(): (lens: seq<nat>)
    ensures |lens| == 32 && ValidLens(lens)
  {
    Repeat(32, 5)
  }

  datatype LensResult = Lens(at: nat, lens: seq<nat>) | LensStop(status: Status)

  /** Three bits per code-length symbol, in the order of section 3.2.7 of RFC 1951. */
  function CodeLengthLens(w: seq<bool>, at: nat, i: nat, n: nat, acc: seq<nat>): (r: LensResult)
    requires at <= |w| && i <= n <= 19 && |acc| == 19
    ensures r.Lens? ==> at <= r.at <= |w| && |r.lens| == 19
    decreases n - i
  {
    if i == n then Lens(at, acc)
    else if at + 3 > |w| then LensStop(NoProgress)
    else CodeLengthLens(w, at + 3, i + 1, n, acc[Dezigzag(i) := Field(w, at, 3)])
  }

  /** `total` code lengths, written with the symbols 16 (repeat the last), 17 and 18 (repeat zero). */
  ghost function ReadLens(cl: seq<nat>, w: seq<bool>, at: nat, total: nat, acc: seq<nat>): (r: LensResult)
    requires |cl| == 19 && at <= |w|
    ensures r.Lens? ==> at <= r.at <= |w| && |r.lens| == total
    decreases total - |acc|
  {
    if |acc| == total then Lens(at, acc)
    else if |acc| > total then LensStop(Failed)
    else
      match Decode(cl, w[at..])
      case Starved => LensStop(NoProgress)
      case Sym(s, k) =>
        if s < 16 then ReadLens(cl, w, at + k, total, acc + [s])
        else if s == 16 && acc == [] then LensStop(Failed)
        else
          var eb := RepeatExtra(s);
          if at + k + eb > |w| then LensStop(NoProgress)
          else
            var n := RepeatBase(s) + Field(w, at + k, eb);
            ReadLens(cl, w, at + k + eb, total, acc + Repeat(n, if s == 16 then acc[|acc| - 1] else 0))
  }

  function RepeatExtra(s: nat): nat { if s == 16 then 2 else if s == 17 then 3 else 7 }

  function RepeatBase(s: nat): (r: nat) ensures r > 0 { if s == 18 then 11 else 3 }

  /** A block whose code lengths have been read, or what stopped the reading. */
  ghost function WithLens(r: LensResult, w: seq<bool>, nLit: nat, total: nat, out: seq<byte>, cap: nat): (o: Outcome)
    requires r.Lens? ==> r.at <= |w| && |r.lens| == total
    requires nLit <= total <= nLit + 32 && nLit <= 288 && |out| <= cap
    ensures o.Done? ==> r.Lens?
    ensures Sane(o, w, if r.Lens? then r.at else 0, cap)
  {
    match r
    case LensStop(status) => Stop(status, out)
    case Lens(at, lens) =>
      if !Accepted(lens[nLit..]) || !Accepted(lens[..nLit]) then Stop(Failed, out)
      else Symbols(lens[..nLit], lens[nLit..], w, at, out, cap)
  }

  /** A block whose code for code lengths has been read, or what stopped the reading. */
  ghost function WithCode(r: LensResult, w: seq<bool>, nLit: nat, total: nat, out: seq<byte>, cap: nat): (o: Outcome)
    requires r.Lens? ==> r.at <= |w| && |r.lens| == 19
    requires nLit <= total <= nLit + 32 && nLit <= 288 && |out| <= cap
    ensures o.Done? ==> r.Lens?
    ensures Sane(o, w, if r.Lens? then r.at else 0, cap)
  {
    match r
    case LensStop(status) => Stop(status, out)
    case Lens(at, cl) =>
      if !Accepted(cl) then Stop(Failed, out)
      else WithLens(ReadLens(cl, w, at, total, []), w, nLit, total, out, cap)
  }

  ghost function Dynamic(w: seq<bool>, at: nat, out: seq<byte>, cap: nat): (r: Outcome)
    requires at <= |w| && |out| <= cap
    ensures Sane(r, w, at, cap)
  {
    if at + 14 > |w| then Stop(NoProgress, out)
    else
      FieldBound(w, at, 5);
      FieldBound(w, at + 5, 5);
      FieldBound(w, at + 10, 4);
      var nLit, nDst, nCl := Field(w, at, 5) + 257, Field(w, at + 5, 5) + 1, Field(w, at + 10, 4) + 4;
      WithCode(CodeLengthLens(w, at + 14, 0, nCl, Repeat(19, 0)), w, nLit, nLit + nDst, out, cap)
  }

  lemma FieldBound(w: seq<bool>, at: nat, n: nat)
    requires at + n <= |w|
    ensures Field(w, at, n) < Shl(1, n)
    ensures Shl(1, 5) == 32 && Shl(1, 4) == 16
  {
    PowersOfTwo();
    ValBound(w[at..at + n]);
  }

  // ---------------------------------------------------------------- the stream

  /** One block: the type is the two bits after the final-block flag. */
  ghost function Block(w: seq<bool>, at: nat, kind: nat, out: seq<byte>, cap: nat): (r: Outcome)
    requires at <= |w| && |w| % 8 == 0 && |out| <= cap
    ensures Sane(r, w, at, cap)
  {
    if kind == 0 then Stored(w, at, out, cap)
    else if kind == 1 then
      if !Accepted(FixedDist()) || !Accepted(FixedLit()) then Stop(Failed, out)
      else Symbols(FixedLit(), FixedDist(), w, at, out, cap)
    else if kind == 2 then Dynamic(w, at, out, cap)
    else Stop(Failed, out)
  }

  /** Blocks up to and including the final one. */
  ghost function Blocks(w: seq<bool>, at: nat, out: seq<byte>, cap: nat): (r: Outcome)
    requires at <= |w| && |w| % 8 == 0 && |out| <= cap
    ensures Sane(r, w, at, cap)
    decreases |w| - at
  {
    if at + 3 > |w| then Stop(NoProgress, out)
    else
      var head := Field(w, at, 3);
      match Block(w, at + 3, head / 2, out, cap)
      case Stop(status, out') => Stop(status, out')
      case Done(at', out') =>
        if head % 2 == 1 then
          AlignUpBound(at', |w|);
          Done(AlignUp(at'), out')
        else Blocks(w, at', out', cap)
  }
}
