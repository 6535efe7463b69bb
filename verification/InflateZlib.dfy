/** The zlib wrapping of section 2.2 of RFC 1950: two header bytes, the deflate stream, the Adler-32 of the
    output in network order. */
module InflateZlib {
  import opened Bits
  import opened BitReader
  import opened InflateSpec
  import opened Inflate
  import opened InflateStream
  import Adler32

  /** The result of decoding a zlib stream. `used` counts the input bytes up to the end of the trailer. */
  datatype Result = Decoded(used: nat, out: seq<byte>) | Mismatch(used: nat, out: seq<byte>)
                  | Stopped(status: Status, out: seq<byte>)

  /** Header bytes the decoder refuses: wrong check bits, a preset dictionary, or another method than deflate. */
  predicate BadHeader(cmf: byte, flg: byte) {
    (cmf * 256 + flg) % 31 != 0 || flg / 32 % 2 == 1 || cmf % 16 != 8
  }

  function BigEndian(a: byte, b: byte, c: byte, d: byte): (n: nat)
    ensures n < 0x1_0000_0000
  {
    ((a * 256 + b) * 256 + c) * 256 + d
  }

  /** The Adler-32 of `out` from the initial word 1. */
  function ChecksumOf(out: seq<byte>): nat {
    Adler32.Word(Adler32.Update(Adler32.OfWord(1), out))
  }

  /** What a zlib stream means. */
  ghost function Zlib(d: seq<byte>, cap: nat): Result {
    if |d| < 2 then Stopped(NoProgress, [])
    else if BadHeader(d[0], d[1]) then Stopped(Failed, [])
    else
      match Blocks(StreamBits(d), 16, [], cap)
      case Stop(status, out) => Stopped(status, out)
      case Done(at, out) => Trailer(d, at / 8, out)
  }

  function Trailer(d: seq<byte>, k: nat, out: seq<byte>): Result {
    if k + 4 > |d| then Stopped(NoProgress, out)
    else if BigEndian(d[k], d[k + 1], d[k + 2], d[k + 3]) == ChecksumOf(out) then Decoded(k + 4, out)
    else Mismatch(k + 4, out)
  }

  // ---------------------------------------------------------------- the decoder

  /** A whole byte of the input, at byte `k`. */
  method ReadByte(rd: Reader, ghost k: nat) returns (ok: bool, b: nat)
    requires rd.Valid() && rd.At() == 8 * k
    modifies rd
    ensures rd.Valid() && rd.At() == 8 * (if ok then k + 1 else k)
    ensures ok <==> k < |rd.input|
    ensures ok ==> b == rd.input[k]
    ensures old(rd.numBits) == 0 ==> rd.numBits == 0
  {
    ok, b := AlignedByte(rd, k);
    if ok { InputByte(rd.input, k); }
  }

  method ReadFour(rd: Reader, ghost k: nat) returns (ok: bool, b0: nat, b1: nat, b2: nat, b3: nat)
    requires rd.Valid() && rd.At() == 8 * k
    modifies rd
    ensures rd.Valid() && (ok <==> k + 4 <= |rd.input|)
    ensures ok ==> rd.At() == 8 * (k + 4) && [b0, b1, b2, b3] == rd.input[k..k + 4]
    ensures old(rd.numBits) == 0 ==> rd.numBits == 0
  {
    b0, b1, b2, b3 := 0, 0, 0, 0;
    ok, b0 := ReadByte(rd, k);
    if !ok { return; }
    ok, b1 := ReadByte(rd, k + 1);
    if !ok { return; }
    ok, b2 := ReadByte(rd, k + 2);
    if !ok { return; }
    ok, b3 := ReadByte(rd, k + 3);
  }

  /** A byte shifted into an unsigned 32-bit word. */
  function ShiftIn(z: nat, b: nat): nat { (z * 256 + b) % 0x1_0000_0000 }

  /** Four bytes shift the word's initial 1 out. */
  lemma ShiftedOut(b0: byte, b1: byte, b2: byte, b3: byte)
    ensures ShiftIn(ShiftIn(ShiftIn(ShiftIn(1, b0), b1), b2), b3) == BigEndian(b0, b1, b2, b3)
  {
    var z := (256 + b0) * 256 + b1;
    assert ShiftIn(ShiftIn(1, b0), b1) == z;
    assert ShiftIn(z, b2) == z * 256 + b2;
  }

  method ReadTrailer(rd: Reader, ghost k: nat) returns (ok: bool, z: nat)
    requires rd.Valid() && rd.At() == 8 * k
    modifies rd
    ensures rd.Valid() && (ok <==> k + 4 <= |rd.input|)
    ensures ok ==> rd.At() == 8 * (k + 4)
    ensures old(rd.numBits) == 0 ==> rd.numBits == 0
    ensures ok ==> z == BigEndian(rd.input[k], rd.input[k + 1], rd.input[k + 2], rd.input[k + 3])
  {
    var b0, b1, b2, b3;
    z := 1;
    ok, b0, b1, b2, b3 := ReadFour(rd, k);
    if !ok { return; }
    FourBytes(rd.input, k, b0, b1, b2, b3);
    ShiftedOut(b0, b1, b2, b3);
    z := ShiftIn(ShiftIn(ShiftIn(ShiftIn(z, b0), b1), b2), b3);
  }

  lemma FourBytes(d: seq<byte>, k: nat, b0: nat, b1: nat, b2: nat, b3: nat)
    requires k + 4 <= |d| && [b0, b1, b2, b3] == d[k..k + 4]
    ensures b0 == d[k] && b1 == d[k + 1] && b2 == d[k + 2] && b3 == d[k + 3]
  {
    var q := d[k..k + 4];
    assert b0 == q[0] && b1 == q[1] && b2 == q[2] && b3 == q[3];
  }

  /** The checksum of the output against the trailer at byte `k`. */
  method CheckTrailer(rd: Reader, out: seq<byte>, ghost k: nat) returns (r: Result)
    requires rd.Valid() && rd.At() == 8 * k && rd.numBits == 0
    modifies rd
    ensures r == Trailer(rd.input, k, out) && r.out == out
  {
    var ok, z := ReadTrailer(rd, k);
    if !ok { return Stopped(NoProgress, out); }
    var check := Adler32.Checksum(1, out);
    if z == check {
      r := Decoded(rd.pos, out);
    } else {
      r := Mismatch(rd.pos, out);
    }
  }

  /** The deflate stream and the trailer, once the header is accepted. */
  method InflateBody(rd: Reader, outBuf: array<byte>) returns (r: Result, cur: nat)
    requires rd.Valid() && rd.At() == 16 && |rd.input| >= 2 && !BadHeader(rd.input[0], rd.input[1])
    modifies rd, outBuf
    ensures cur <= outBuf.Length && r.out == outBuf[..cur]
    ensures r == Zlib(rd.input, outBuf.Length)
  {
    hide Zlib, Trailer, Blocks, StreamBits, BadHeader;
    var t := new DecodeTables();
    var halt;
    assert outBuf[..0] == [];
    halt, cur := InflateRaw(rd, outBuf, 0, t);
    BodyOutcome(rd.input, outBuf.Length, halt, rd.At(), outBuf[..cur]);
    if halt.Halted? { return Stopped(halt.status, outBuf[..cur]), cur; }
    r := CheckTrailer(rd, outBuf[..cur], rd.pos);
  }

  lemma BodyOutcome(d: seq<byte>, cap: nat, halt: Halt, at: nat, out: seq<byte>)
    requires |d| >= 2 && !BadHeader(d[0], d[1])
    requires Agrees(Blocks(StreamBits(d), 16, [], cap), halt, at, out)
    ensures halt.Halted? ==> Zlib(d, cap) == Stopped(halt.status, out)
    ensures halt.Ended? ==> Zlib(d, cap) == Trailer(d, at / 8, out)
  {
  }

  /** Decodes a zlib stream into `outBuf`. The buffered, table-driven decoder yields what the stream means:
      the same bytes, the same stopping point and the same verdict on the checksum. */
  method InflateZlib(input: seq<byte>, outBuf: array<byte>) returns (r: Result, cur: nat)
    modifies outBuf
    ensures cur <= outBuf.Length && r.out == outBuf[..cur]
    ensures r == Zlib(input, outBuf.Length)
  {
    var rd := new Reader(input);
    var ok, cmf, flg;
    ok, cmf := ReadByte(rd, 0);
    if !ok { return Stopped(NoProgress, []), 0; }
    ok, flg := ReadByte(rd, 1);
    if !ok { return Stopped(NoProgress, []), 0; }
    if BadHeader(cmf, flg) { return Stopped(Failed, []), 0; }
    r, cur := InflateBody(rd, outBuf);
  }
}
