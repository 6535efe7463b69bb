/** The inflater's input: a byte sequence read least significant bit first through a 32-bit buffer that
    holds bits already fetched but not yet used (section 3.1.1 of RFC 1951). */
module BitReader {
  import opened Bits
  import opened Huffman
  import opened HuffmanTable
  import opened HuffmanDecode

  /** The bits of a byte sequence in stream order. */
  function StreamBits(d: seq<byte>): (w: seq<bool>)
    ensures |w| == 8 * |d|
  {
    seq(8 * |d|, i requires 0 <= i < 8 * |d| => ToBits(d[i / 8], 8)[i % 8])
  }

  lemma ByteBits(d: seq<byte>, p: nat)
    requires p < |d|
    ensures StreamBits(d)[8 * p..8 * p + 8] == ToBits(d[p], 8)
  {
    forall i | 0 <= i < 8
      ensures StreamBits(d)[8 * p + i] == ToBits(d[p], 8)[i]
    {
      assert (8 * p + i) / 8 == p && (8 * p + i) % 8 == i;
    }
  }

  lemma PullBits(d: seq<byte>, p: nat, n: nat)
    requires p < |d| && n <= 8 * p
    ensures var w := StreamBits(d);
            Val(w[8 * p - n..8 * p + 8]) == Or(Val(w[8 * p - n..8 * p]), Shl(d[p], n))
  {
    var w := StreamBits(d);
    var a := w[8 * p - n..8 * p];
    ByteBits(d, p);
    assert w[8 * p - n..8 * p + 8] == a + ToBits(d[p], 8);
    ByteVal(d[p]);
    AppendOr(a, ToBits(d[p], 8));
  }

  lemma ByteVal(c: byte)
    ensures Val(ToBits(c, 8)) == c
  {
    PowersOfTwo();
    ValToBits(c, 8);
  }

  lemma InputByte(d: seq<byte>, p: nat)
    requires p < |d|
    ensures Val(StreamBits(d)[8 * p..8 * p + 8]) == d[p]
  {
    ByteBits(d, p);
    ByteVal(d[p]);
  }

  /** Masking the buffer to fewer bits leaves the bits before the earlier byte. */
  lemma KeepBits(w: seq<bool>, pos0: nat, n0: nat, pos: nat, n: nat)
    requires n0 <= 8 * pos0 <= |w| && n <= n0 && n <= 8 * pos && 8 * pos - n == 8 * pos0 - n0
    ensures Low(Val(w[8 * pos0 - n0..8 * pos0]), n) == Val(w[8 * pos - n..8 * pos])
  {
    var v := w[8 * pos0 - n0..8 * pos0];
    ValSplit(v, n);
    assert v[..n] == w[8 * pos - n..8 * pos];
  }

  /** At every byte boundary from `from` up to `to`, the bits after `at` did not yet hold a whole code. */
  ghost predicate Needed(lens: seq<nat>, w: seq<bool>, at: nat, from: nat, to: nat) {
    forall p | from <= p < to :: at <= 8 * p <= |w| && Decode(lens, w[at..8 * p]) == Starved
  }

  /** Symbol `sym` is read from bit `at` on and its code ends at bit `end`. */
  ghost predicate Took(lens: seq<nat>, w: seq<bool>, at: nat, sym: nat, end: nat) {
    at <= end && at <= |w| && Decode(lens, w[at..]) == Sym(sym, end - at)
  }

  /** From bit `at` on there are too few bits to tell a symbol. */
  ghost predicate Waits(lens: seq<nat>, w: seq<bool>, at: nat) {
    at <= |w| && Decode(lens, w[at..]) == Starved
  }

  lemma NeededMore(lens: seq<nat>, w: seq<bool>, at: nat, from: nat, to: nat)
    requires Needed(lens, w, at, from, to) && at <= 8 * to <= |w| && Decode(lens, w[at..8 * to]) == Starved
    ensures Needed(lens, w, at, from, to + 1)
  {
  }

  class Reader {
    const input: seq<byte>
    var pos: nat
    var numBits: nat
    var bitBuf: nat

    ghost predicate InBounds()
      reads this
    {
      pos <= |input| && numBits <= 8 * pos && numBits <= 30
    }

    /** How many bits of the input have been used. */
    ghost function At(): nat
      reads this
      requires InBounds()
    {
      8 * pos - numBits
    }

    /** The bits fetched but not yet used. */
    ghost function Buffered(): (w: seq<bool>)
      reads this
      requires InBounds()
      ensures |w| == numBits
    {
      StreamBits(input)[At()..8 * pos]
    }

    /** The buffer holds exactly the last `numBits` bits before byte `pos`. */
    ghost predicate Valid()
      reads this
    {
      InBounds() && bitBuf == Val(Buffered())
    }

    /** The bits not yet used: what is left in the buffer, then the bytes not yet fetched. */
    ghost function Unread(): seq<bool>
      reads this
      requires InBounds()
    {
      StreamBits(input)[At()..]
    }

    constructor (input: seq<byte>)
      ensures Valid() && this.input == input && At() == 0 && pos == 0
    {
      this.input := input;
      pos, numBits, bitBuf := 0, 0, 0;
    }

    lemma BufferSplit(n: nat)
      requires Valid() && n <= numBits
      ensures Low(bitBuf, n) == Val(StreamBits(input)[At()..At() + n])
      ensures Shr(bitBuf, n) == Val(StreamBits(input)[At() + n..8 * pos])
    {
      var w := Buffered();
      ValSplit(w, n);
      assert w[..n] == StreamBits(input)[At()..At() + n];
      assert w[n..] == StreamBits(input)[At() + n..8 * pos];
    }

    /** The buffer never needs more than 32 bits: nothing is lost in an unsigned 32-bit variable. */
    lemma FitsWord()
      requires Valid()
      ensures bitBuf < 0x1_0000_0000
    {
      ValBound(Buffered());
      ShlGrows(1, numBits, 30);
      PowersOfTwo();
      assert Shl(1, 18) == 4 * Shl(1, 16);
      ShlShl(1, 16, 14);
      ShlMono(1, 65536, 14);
      assert Shl(65536, 14) < 0x1_0000_0000 by { assert Shl(65536, 7) == 65536 * 128; }
    }

    /** Fetches one byte into the buffer: no bit is used. */
    method PullByte()
      requires Valid() && pos < |input| && numBits <= 22
      modifies this`pos, this`numBits, this`bitBuf
      ensures Valid() && At() == old(At()) && numBits == old(numBits) + 8 && pos == old(pos) + 1
      ensures Unread() == old(Unread())
    {
      PullBits(input, pos, numBits);
      bitBuf := Or(bitBuf, Shl(input[pos], numBits));
      pos := pos + 1;
      numBits := numBits + 8;
    }

    /** Fetches bytes until `n` bits are there. */
    method NeedBits(n: nat) returns (ok: bool)
      requires Valid() && numBits < n <= 16
      modifies this`pos, this`numBits, this`bitBuf
      ensures Valid() && At() == old(At()) && Unread() == old(Unread())
      ensures ok <==> old(At()) + n <= 8 * |input|
      ensures ok ==> numBits >= n
    {
      while true
        invariant Valid() && At() == old(At()) && numBits < n
        decreases |input| - pos
      {
        if pos >= |input| { return false; }
        PullByte();
        if numBits >= n { return true; }
      }
    }

    /** Takes `n` bits out of a buffer that holds them. */
    method Drop(n: nat)
      requires Valid() && n <= numBits
      modifies this`numBits, this`bitBuf
      ensures Valid() && At() == old(At()) + n && Unread() == old(Unread())[n..] && numBits == old(numBits) - n
    {
      BufferSplit(n);
      bitBuf := Shr(bitBuf, n);
      numBits := numBits - n;
    }

    /** Takes an `n`-bit number out of a buffer that holds it. */
    method Take(n: nat) returns (b: nat)
      requires Valid() && n <= numBits
      modifies this`numBits, this`bitBuf
      ensures Valid() && At() == old(At()) + n && Unread() == old(Unread())[n..] && numBits == old(numBits) - n
      ensures b == Val(StreamBits(input)[old(At())..old(At()) + n])
    {
      BufferSplit(n);
      b := Low(bitBuf, n);
      Drop(n);
    }

    method SkipBits(n: nat) returns (ok: bool)
      requires Valid() && n <= 16
      modifies this`pos, this`numBits, this`bitBuf
      ensures Valid() && (ok <==> old(At()) + n <= 8 * |input|)
      ensures At() == old(At()) + if ok then n else 0
      ensures ok ==> Unread() == old(Unread())[n..]
    {
      if numBits < n {
        ok := NeedBits(n);
        if !ok { return; }
      }
      Drop(n);
      ok := true;
    }

    /** Reads an `n`-bit number: exactly those bits leave the stream, or none if there are fewer. */
    method GetBits(n: nat) returns (ok: bool, b: nat)
      requires Valid() && n <= 16
      modifies this`pos, this`numBits, this`bitBuf
      ensures Valid() && (ok <==> old(At()) + n <= 8 * |input|)
      ensures At() == old(At()) + if ok then n else 0
      ensures ok ==> b == Val(StreamBits(input)[old(At())..old(At()) + n]) && Unread() == old(Unread())[n..]
    {
      b := 0;
      if numBits < n {
        ok := NeedBits(n);
        if !ok { return; }
      }
      b := Take(n);
      ok := true;
    }

    /** Reads a whole byte past an empty buffer. */
    method GetByte() returns (ok: bool, b: nat)
      requires Valid() && numBits == 0
      modifies this`pos, this`bitBuf
      ensures Valid() && (ok <==> old(pos) < |input|)
      ensures At() == old(At()) + if ok then 8 else 0
      ensures ok ==> b == Val(StreamBits(input)[old(At())..old(At()) + 8]) && Unread() == old(Unread())[8..]
    {
      if pos >= |input| { return false, 0; }
      InputByte(input, pos);
      b := input[pos];
      pos := pos + 1;
      assert Buffered() == [];
      ok := true;
    }

    /** Gives whole bytes that were fetched but not used back to the input. */
    method PutBack()
      requires Valid()
      modifies this`pos, this`numBits, this`bitBuf
      ensures Valid() && At() == old(At()) && Unread() == old(Unread()) && numBits < 8
    {
      ghost var pos0, n0 := pos, numBits;
      while pos > 0 && numBits >= 8
        invariant pos <= pos0 && numBits <= n0 && 8 * pos - numBits == 8 * pos0 - n0 && bitBuf == old(bitBuf)
        decreases pos
      {
        pos := pos - 1;
        numBits := numBits - 8;
      }
      KeepBits(StreamBits(input), pos0, n0, pos, numBits);
      bitBuf := Low(bitBuf, numBits);
    }

    lemma UnreadSplit()
      requires Valid()
      ensures Unread() == Buffered() + StreamBits(input)[8 * pos..]
    {
    }

    /** Near the end of the input: fetches bytes one at a time, and only while the bits at hand do not
        already hold a whole code word. */
    method FillForCode(lookUp: array<int>, tree: array<int>, ghost lens: seq<nat>) returns (ok: bool)
      requires Valid() && numBits < MAX_LEN && Accepted(lens) && Represents(lens, lookUp[..], tree[..])
      modifies this`pos, this`numBits, this`bitBuf
      ensures Valid() && At() == old(At()) && Unread() == old(Unread()) && pos >= old(pos)
      ensures ok ==> Decode(lens, Buffered()).Sym?
      ensures Needed(lens, StreamBits(input), At(), old(pos), pos)
      ensures !ok ==> Decode(lens, Unread()) == Starved
    {
      AcceptedFits(lens);
      ghost var pairs :| Holds(lens, |lens|, lookUp[..], tree[..], pairs);
      while true
        invariant Valid() && At() == old(At()) && numBits < MAX_LEN && pos >= old(pos)
        invariant Needed(lens, StreamBits(input), At(), old(pos), pos)
        decreases |input| - pos
      {
        var found := HasCode(lookUp, tree, lens, pairs);
        if found { return true; }
        if pos >= |input| {
          assert Unread() == Buffered();
          return false;
        }
        NeededMore(lens, StreamBits(input), At(), old(pos), pos);
        PullByte();
        if numBits >= MAX_LEN { return true; }
      }
    }

    /** Whether the buffered bits, fewer than 15, already hold a whole code word. */
    method HasCode(lookUp: array<int>, tree: array<int>, ghost lens: seq<nat>, ghost pairs: seq<seq<bool>>)
      returns (found: bool)
      requires Valid() && numBits < MAX_LEN && Fits(lens) && ValidLens(lens)
      requires Holds(lens, |lens|, lookUp[..], tree[..], pairs)
      ensures found <==> Decode(lens, Buffered()).Sym?
    {
      ghost var w, lk, tr := Buffered(), lookUp[..], tree[..];
      assert |lk| == FAST_SIZE && bitBuf == Val(w) && |w| == numBits;
      IndexBound(bitBuf);
      var temp := lookUp[Low(bitBuf, FAST_BITS)];
      LookShort(lens, lk, tr, pairs, w, temp);
      if temp >= 0 {
        var codeLen := temp / 512;
        return codeLen != 0 && numBits >= codeLen;
      }
      if numBits <= FAST_BITS { return false; }
      found := WalkBuffered(lookUp, tree, temp, lens, pairs, w);
    }

    method WalkBuffered(lookUp: array<int>, tree: array<int>, from: int, ghost lens: seq<nat>,
                        ghost pairs: seq<seq<bool>>, ghost w: seq<bool>) returns (found: bool)
      requires |w| == numBits > FAST_BITS && bitBuf == Val(w) && Fits(lens) && ValidLens(lens)
      requires Holds(lens, |lens|, lookUp[..], tree[..], pairs)
      requires from < 0 && RefersTo(pairs, from, w[..FAST_BITS])
      ensures found <==> Decode(lens, w).Sym?
    {
      ghost var lk, tr := lookUp[..], tree[..];
      var temp, codeLen := from, FAST_BITS;
      while temp < 0 && numBits >= codeLen + 1
        invariant FAST_BITS <= codeLen <= numBits
        invariant temp < 0 ==> RefersTo(pairs, temp, w[..codeLen])
        invariant temp >= 0 ==> Decode(lens, w) == Sym(temp, codeLen)
        decreases numBits - codeLen
      {
        var i := -temp - 1 + Shr(bitBuf, codeLen) % 2;
        ValBit(w, codeLen);
        WalkStep(lens, lk, tr, pairs, w, codeLen, temp, i);
        temp := tree[i];
        codeLen := codeLen + 1;
      }
      if temp < 0 {
        assert w[..codeLen] == w;
        TreeStarved(lens, lk, tr, pairs, temp, w);
      }
      found := temp >= 0;
    }

    /** The buffer with zeros above its bits, as `bitBuf` holds it. */
    lemma PaddedBuffer(lens: seq<nat>) returns (z: seq<bool>)
      requires Valid() && Fits(lens) && ValidLens(lens) && Decode(lens, Buffered()).Sym?
      ensures |z| >= MAX_LEN && bitBuf == Val(z)
      ensures Decode(lens, z) == Decode(lens, Unread()) && Decode(lens, z).Sym? && Decode(lens, z).used <= numBits
    {
      var w, rest := Buffered(), StreamBits(input)[8 * pos..];
      assert Unread() == w + rest by { UnreadSplit(); }
      z := PaddedDecode(lens, w, rest);
    }

    /** Looks up the code word in the buffer and drops its bits. */
    method TakeCode(lookUp: array<int>, tree: array<int>, ghost lens: seq<nat>) returns (sym: nat)
      requires Valid() && Accepted(lens) && Represents(lens, lookUp[..], tree[..])
      requires Decode(lens, Buffered()).Sym?
      modifies this`numBits, this`bitBuf
      ensures Valid() && Took(lens, StreamBits(input), old(At()), sym, At())
    {
      AcceptedFits(lens);
      ghost var z := PaddedBuffer(lens);
      var codeLen;
      sym, codeLen := Lookup(lookUp, tree, bitBuf, lens, z);
      Drop(codeLen);
    }

    /** Decodes the next symbol, fetching no byte of the last two that the code word does not need. */
    method HuffDecode(lookUp: array<int>, tree: array<int>, ghost lens: seq<nat>) returns (ok: bool, sym: nat)
      requires Valid() && Accepted(lens) && Represents(lens, lookUp[..], tree[..])
      modifies this`pos, this`numBits, this`bitBuf
      ensures Valid()
      ensures !ok ==> Waits(lens, StreamBits(input), old(At())) && At() == old(At())
      ensures ok ==> Took(lens, StreamBits(input), old(At()), sym, At())
    {
      sym := 0;
      if numBits < MAX_LEN {
        if |input| - pos < 2 {
          ok := FillForCode(lookUp, tree, lens);
          if !ok { return; }
        } else {
          PullByte();
          PullByte();
        }
      }
      sym := TakeCode(lookUp, tree, lens);
      ok := true;
    }
  }
}
