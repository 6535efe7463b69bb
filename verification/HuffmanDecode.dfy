/** Decoding one symbol. `Decode` says it on bit strings and code words alone; the lookups through the
    table and the tree are shown to give the same answer. */
module HuffmanDecode {
  import opened Bits
  import opened Huffman
  import opened HuffmanTable

  datatype Decoded = Sym(sym: nat, used: nat) | Starved

  ghost predicate Matches(lens: seq<nat>, w: seq<bool>, s: nat) {
    Used(lens, s) && Word(lens, s) <= w
  }

  /** The first `d` bits leave the code below its ten-bit level: only an incomplete code has such strings. */
  ghost predicate DeadEnd(lens: seq<nat>, w: seq<bool>, d: nat) {
    0 < d <= |w| && Inner(lens, |lens|, w[..d - 1]) && !Extends(lens, |lens|, w[..d])
  }

  ghost function SomeMatch(lens: seq<nat>, w: seq<bool>): (s: nat)
    requires exists s: nat :: Matches(lens, w, s)
    ensures Matches(lens, w, s)
  {
    var s: nat :| Matches(lens, w, s); s
  }

  ghost function SomeDeadEnd(lens: seq<nat>, w: seq<bool>): (d: nat)
    requires exists d: nat :: DeadEnd(lens, w, d)
    ensures DeadEnd(lens, w, d)
  {
    var d: nat :| DeadEnd(lens, w, d); d
  }

  /** The symbol at the front of the bits `w` and how many bits it takes: the symbol whose code word starts
      `w`. Bits that no code word starts decode as symbol 0, consuming nothing or the bits up to where the
      tree has no entry; too few bits to tell leave the decoder waiting. */
  ghost function Decode(lens: seq<nat>, w: seq<bool>): (r: Decoded)
    ensures r.Sym? ==> r.used <= |w| && (r.sym == 0 || Used(lens, r.sym))
    ensures r.Sym? && r.used == 0 ==> r.sym == 0
  {
    if exists s: nat :: Matches(lens, w, s) then Sym(SomeMatch(lens, w), lens[SomeMatch(lens, w)])
    else if exists d: nat :: DeadEnd(lens, w, d) then Sym(0, SomeDeadEnd(lens, w))
    else if |w| >= MAX_LEN then Sym(0, 0)
    else Starved
  }

  // ---------------------------------------------------------------- Decode is well defined and stable

  lemma PrefixesNest(a: seq<bool>, b: seq<bool>, w: seq<bool>)
    requires a <= w && b <= w && |a| <= |b|
    ensures a <= b
  {
    assert a == w[..|a|] == b[..|a|];
  }

  lemma MatchUnique(lens: seq<nat>, w: seq<bool>, s: nat)
    requires Fits(lens) && ValidLens(lens) && Matches(lens, w, s)
    ensures Decode(lens, w) == Sym(s, lens[s])
  {
    var t := SomeMatch(lens, w);
    if lens[s] <= lens[t] {
      PrefixesNest(Word(lens, s), Word(lens, t), w);
      PrefixFree(lens, s, t);
    } else {
      PrefixesNest(Word(lens, t), Word(lens, s), w);
      PrefixFree(lens, t, s);
    }
  }

  lemma DeadEndNoMatch(lens: seq<nat>, w: seq<bool>, d: nat, s: nat)
    requires Fits(lens) && ValidLens(lens) && DeadEnd(lens, w, d)
    ensures !Matches(lens, w, s)
  {
    if Matches(lens, w, s) {
      var q := w[..d - 1];
      var t: nat :| t < |lens| && Used(lens, t) && q <= Word(lens, t) && |q| < lens[t];
      if lens[s] <= |q| {
        PrefixesNest(Word(lens, s), q, w);
        assert Word(lens, s) <= Word(lens, t);
        PrefixFree(lens, s, t);
        assert false;
      } else {
        PrefixesNest(w[..d], Word(lens, s), w);
        assert false;
      }
    }
  }

  lemma DeadEndUnique(lens: seq<nat>, w: seq<bool>, d: nat, e: nat)
    requires DeadEnd(lens, w, d) && DeadEnd(lens, w, e)
    ensures d == e
  {
    DeadEndOrder(lens, w, d, e);
    DeadEndOrder(lens, w, e, d);
  }

  lemma DeadEndOrder(lens: seq<nat>, w: seq<bool>, d: nat, e: nat)
    requires DeadEnd(lens, w, d) && DeadEnd(lens, w, e)
    ensures d >= e
  {
    if d < e { AboveDeadEnd(lens, w, e, d); }
  }

  lemma AboveDeadEnd(lens: seq<nat>, w: seq<bool>, e: nat, d: nat)
    requires DeadEnd(lens, w, e) && d < e
    ensures Extends(lens, |lens|, w[..d])
  {
    InnerExtends(lens, |lens|, w[..e - 1]);
    ExtendsLonger(lens, |lens|, w[..d], w[..e - 1]);
  }

  lemma DeadEndDecode(lens: seq<nat>, w: seq<bool>, d: nat)
    requires Fits(lens) && ValidLens(lens) && DeadEnd(lens, w, d)
    ensures Decode(lens, w) == Sym(0, d)
  {
    forall s: nat ensures !Matches(lens, w, s) { DeadEndNoMatch(lens, w, d, s); }
    DeadEndUnique(lens, w, d, SomeDeadEnd(lens, w));
  }

  /** Further bits do not change a symbol already decoded. */
  lemma DecodeStable(lens: seq<nat>, w: seq<bool>, z: seq<bool>)
    requires Fits(lens) && ValidLens(lens) && Decode(lens, w).Sym?
    ensures Decode(lens, w).used <= |w|
    ensures Decode(lens, w + z) == Decode(lens, w)
  {
    if exists s: nat :: Matches(lens, w, s) {
      var s: nat :| Matches(lens, w, s);
      MatchUnique(lens, w, s);
      assert Word(lens, s) <= w + z;
      MatchUnique(lens, w + z, s);
    } else if exists d: nat :: DeadEnd(lens, w, d) {
      var d: nat :| DeadEnd(lens, w, d);
      DeadEndDecode(lens, w, d);
      assert (w + z)[..d] == w[..d] && (w + z)[..d - 1] == w[..d - 1];
      assert DeadEnd(lens, w + z, d);
      DeadEndDecode(lens, w + z, d);
    } else {
      forall s: nat ensures !Matches(lens, w + z, s) {
        if Matches(lens, w + z, s) {
          assert Word(lens, s) == (w + z)[..lens[s]] == w[..lens[s]];
          assert Matches(lens, w, s);
        }
      }
      forall d: nat ensures !DeadEnd(lens, w + z, d) {
        if DeadEnd(lens, w + z, d) {
          assert (w + z)[..d] == w[..d] && (w + z)[..d - 1] == w[..d - 1];
          assert DeadEnd(lens, w, d);
        }
      }
    }
  }

  /** A complete code never meets a dead end and never waits once 15 bits are there. */
  lemma CompleteDecode(lens: seq<nat>, w: seq<bool>)
    requires Complete(lens) && ValidLens(lens) && |w| >= MAX_LEN
    ensures Decode(lens, w).Sym? && Matches(lens, w, Decode(lens, w).sym)
    ensures Decode(lens, w).used == lens[Decode(lens, w).sym] > 0
  {
    var s := WordExists(lens, w);
    CompleteFits(lens);
    assert Matches(lens, w, s);
    MatchUnique(lens, w, s);
  }

  // ---------------------------------------------------------------- the lookups

  function Zeros(n: nat): (w: seq<bool>)
    ensures |w| == n
  {
    seq(n, _ => false)
  }

  lemma ValZeros(w: seq<bool>, n: nat)
    ensures Val(w + Zeros(n)) == Val(w)
  {
    ValAppend(w, Zeros(n));
    ZerosVal(n);
    ShlZero(|w|);
  }

  lemma {:induction false} ZerosVal(n: nat)
    ensures Val(Zeros(n)) == 0
  {
    if n > 0 {
      ZerosVal(n - 1);
      assert Zeros(n)[1..] == Zeros(n - 1);
    }
  }

  /** Bits that hold a whole code decode the same padded with zeros as followed by the rest of the stream. */
  lemma PaddedDecode(lens: seq<nat>, w: seq<bool>, rest: seq<bool>) returns (z: seq<bool>)
    requires Fits(lens) && ValidLens(lens) && Decode(lens, w).Sym?
    ensures |z| >= MAX_LEN && Val(z) == Val(w)
    ensures Decode(lens, z) == Decode(lens, w + rest) && Decode(lens, z).Sym? && Decode(lens, z).used <= |w|
  {
    z := w + Zeros(MAX_LEN);
    ValZeros(w, MAX_LEN);
    DecodeStable(lens, w, Zeros(MAX_LEN));
    DecodeStable(lens, w, rest);
  }

  /** What the ten-bit table says about bits `w`. */
  lemma LookDecode(lens: seq<nat>, lk: seq<int>, tr: seq<int>, pairs: seq<seq<bool>>, w: seq<bool>)
    requires Fits(lens) && ValidLens(lens) && Holds(lens, |lens|, lk, tr, pairs) && |w| >= FAST_BITS
    ensures Low(Val(w), FAST_BITS) < |lk|
    ensures var v := lk[Low(Val(w), FAST_BITS)];
            && (v > 0 ==> Decode(lens, w) == Sym(v % 512, v / 512) && 0 < v / 512 <= FAST_BITS)
            && (v < 0 ==> RefersTo(pairs, v, w[..FAST_BITS]))
            && (v == 0 ==> Decode(lens, w) == if |w| >= MAX_LEN then Sym(0, 0) else Starved)
  {
    IndexBound(Val(w));
    ValSplit(w, FAST_BITS);
    ToBitsVal(w[..FAST_BITS]);
    var v := lk[Low(Val(w), FAST_BITS)];
    assert LookSlot(lens, |lens|, pairs, v, w[..FAST_BITS]);
    if v > 0 {
      ShortDecoded(lens, w, v);
    } else if v == 0 {
      NothingThere(lens, w);
    }
  }

  lemma ShortDecoded(lens: seq<nat>, w: seq<bool>, v: nat)
    requires Fits(lens) && ValidLens(lens) && |w| >= FAST_BITS && ShortHit(lens, |lens|, v, w[..FAST_BITS])
    ensures Decode(lens, w) == Sym(v % 512, v / 512) && 0 < v / 512 <= FAST_BITS
  {
    MatchUnique(lens, w, v % 512);
  }

  lemma MatchAround(lens: seq<nat>, w: seq<bool>, s: nat)
    requires |w| >= FAST_BITS && Matches(lens, w, s)
    ensures Word(lens, s) <= w[..FAST_BITS] || w[..FAST_BITS] <= Word(lens, s)
  {
    if lens[s] <= FAST_BITS {
      PrefixesNest(Word(lens, s), w[..FAST_BITS], w);
    } else {
      PrefixesNest(w[..FAST_BITS], Word(lens, s), w);
    }
  }

  lemma NothingThere(lens: seq<nat>, w: seq<bool>)
    requires |w| >= FAST_BITS && !Extends(lens, |lens|, w[..FAST_BITS])
    requires forall s: nat | s < |lens| && Used(lens, s) :: !(Word(lens, s) <= w[..FAST_BITS])
    ensures Decode(lens, w) == if |w| >= MAX_LEN then Sym(0, 0) else Starved
  {
    forall s: nat ensures !Matches(lens, w, s) {
      if Matches(lens, w, s) {
        MatchAround(lens, w, s);
        assert false;
      }
    }
    forall d: nat ensures !DeadEnd(lens, w, d) {
      if DeadEnd(lens, w, d) {
        AboveDeadEnd(lens, w, d, FAST_BITS);
        assert false;
      }
    }
  }

  /** What the tree entry below the prefix of length `n` says. */
  lemma TreeDecode(lens: seq<nat>, lk: seq<int>, tr: seq<int>, pairs: seq<seq<bool>>, w: seq<bool>, n: nat, v: int)
    requires Fits(lens) && ValidLens(lens) && Holds(lens, |lens|, lk, tr, pairs)
    requires n < |w| && v < 0 && RefersTo(pairs, v, w[..n])
    ensures 0 <= -v - 1 + Bit(w, n) < |tr|
    ensures var v' := tr[-v - 1 + Bit(w, n)];
            if v' < 0 then RefersTo(pairs, v', w[..n + 1]) else Decode(lens, w) == Sym(v', n + 1)
  {
    var k: nat :| k < |pairs| && v == PairRef(k) && pairs[k] == w[..n];
    assert -v - 1 + Bit(w, n) == Child(w, k, n);
    ChildDecode(lens, tr, pairs, w, n, k);
  }

  lemma ChildDecode(lens: seq<nat>, tr: seq<int>, pairs: seq<seq<bool>>, w: seq<bool>, n: nat, k: nat)
    requires Fits(lens) && ValidLens(lens) && TreeOk(lens, |lens|, tr, pairs) && PairsOk(lens, |lens|, pairs)
    requires n < |w| && k < |pairs| && pairs[k] == w[..n]
    ensures Child(w, k, n) < |tr|
    ensures var v' := tr[Child(w, k, n)];
            if v' < 0 then RefersTo(pairs, v', w[..n + 1]) else Decode(lens, w) == Sym(v', n + 1)
  {
    ChildSlot(lens, |lens|, tr, pairs, w, k, n);
    assert Inner(lens, |lens|, pairs[k]);
    var v' := tr[Child(w, k, n)];
    if v' >= 0 { LeafDecode(lens, pairs, w, n, v'); }
  }

  lemma LeafDecode(lens: seq<nat>, pairs: seq<seq<bool>>, w: seq<bool>, n: nat, v: nat)
    requires Fits(lens) && ValidLens(lens) && n < |w|
    requires Inner(lens, |lens|, w[..n]) && TreeSlot(lens, |lens|, pairs, v, w[..n + 1])
    ensures Decode(lens, w) == Sym(v, n + 1)
  {
    if IsWord(lens, |lens|, v, w[..n + 1]) {
      WordDecode(lens, w, w[..n + 1], v);
    } else {
      DeadEndDecode(lens, w, n + 1);
    }
  }

  lemma WordDecode(lens: seq<nat>, w: seq<bool>, q: seq<bool>, v: nat)
    requires Fits(lens) && ValidLens(lens) && q <= w && IsWord(lens, |lens|, v, q)
    ensures Decode(lens, w) == Sym(v, |q|)
  {
    MatchUnique(lens, w, v);
  }

  lemma PairDepth(lens: seq<nat>, lk: seq<int>, tr: seq<int>, pairs: seq<seq<bool>>, v: int, q: seq<bool>)
    requires ValidLens(lens) && Holds(lens, |lens|, lk, tr, pairs) && RefersTo(pairs, v, q)
    ensures FAST_BITS <= |q| < MAX_LEN
  {
    var k: nat :| k < |pairs| && v == PairRef(k) && pairs[k] == q;
    assert Inner(lens, |lens|, pairs[k]);
  }

  /** With too few bits to leave the tree, nothing is decoded yet. */
  lemma TreeStarved(lens: seq<nat>, lk: seq<int>, tr: seq<int>, pairs: seq<seq<bool>>, v: int, w: seq<bool>)
    requires Fits(lens) && ValidLens(lens) && Holds(lens, |lens|, lk, tr, pairs) && RefersTo(pairs, v, w)
    ensures Decode(lens, w) == Starved
  {
    PairDepth(lens, lk, tr, pairs, v, w);
    var k: nat :| k < |pairs| && v == PairRef(k) && pairs[k] == w;
    assert Inner(lens, |lens|, pairs[k]);
    var t: nat :| t < |lens| && Used(lens, t) && w <= Word(lens, t) && |w| < lens[t];
    PrefixStarved(lens, w, t);
  }

  lemma PrefixStarved(lens: seq<nat>, w: seq<bool>, t: nat)
    requires Fits(lens) && ValidLens(lens) && Used(lens, t) && w <= Word(lens, t) && |w| < lens[t]
    ensures Decode(lens, w) == Starved
  {
    forall s: nat ensures !Matches(lens, w, s) {
      if Matches(lens, w, s) {
        assert Word(lens, s) <= Word(lens, t);
        PrefixFree(lens, s, t);
        assert false;
      }
    }
    assert Extends(lens, |lens|, w);
    forall d: nat ensures !DeadEnd(lens, w, d) {
      if d <= |w| { ExtendsLonger(lens, |lens|, w[..d], w); }
    }
  }

  /** A symbol decoded from padded bits that uses only the real ones is decoded from those alone. */
  lemma DecodeBack(lens: seq<nat>, w: seq<bool>, z: seq<bool>)
    requires Fits(lens) && ValidLens(lens) && Decode(lens, w + z).Sym?
    requires 0 < Decode(lens, w + z).used <= |w|
    ensures Decode(lens, w) == Decode(lens, w + z)
  {
    if exists s: nat :: Matches(lens, w + z, s) {
      var s := SomeMatch(lens, w + z);
      PrefixesNest(Word(lens, s), w, w + z);
      MatchUnique(lens, w, s);
    } else {
      var d := SomeDeadEnd(lens, w + z);
      DeadEndBack(lens, w, z, d);
      DeadEndDecode(lens, w, d);
    }
  }

  lemma DeadEndBack(lens: seq<nat>, w: seq<bool>, z: seq<bool>, d: nat)
    requires d <= |w| && DeadEnd(lens, w + z, d)
    ensures DeadEnd(lens, w, d)
  {
    assert (w + z)[..d] == w[..d] && (w + z)[..d - 1] == w[..d - 1];
  }

  /** What the ten-bit table says when fewer than 15 real bits, padded with zeros, index it. */
  lemma LookShort(lens: seq<nat>, lk: seq<int>, tr: seq<int>, pairs: seq<seq<bool>>, w: seq<bool>, v: int)
    requires Fits(lens) && ValidLens(lens) && Holds(lens, |lens|, lk, tr, pairs) && |w| < MAX_LEN
    requires Low(Val(w), FAST_BITS) < FAST_SIZE && v == lk[Low(Val(w), FAST_BITS)]
    ensures v >= 0 ==> (Decode(lens, w).Sym? <==> 0 < v / 512 <= |w|)
    ensures v < 0 && |w| <= FAST_BITS ==> Decode(lens, w) == Starved
    ensures v < 0 && |w| > FAST_BITS ==> RefersTo(pairs, v, w[..FAST_BITS])
  {
    ValZeros(w, MAX_LEN);
    LookDecode(lens, lk, tr, pairs, w + Zeros(MAX_LEN));
    if v >= 0 {
      LookFound(lens, w, v);
    } else {
      LookPair(lens, pairs, v, w);
    }
  }

  lemma LookPair(lens: seq<nat>, pairs: seq<seq<bool>>, v: int, w: seq<bool>)
    requires Fits(lens) && ValidLens(lens) && PairsOk(lens, |lens|, pairs)
    requires RefersTo(pairs, v, (w + Zeros(MAX_LEN))[..FAST_BITS])
    ensures |w| <= FAST_BITS ==> Decode(lens, w) == Starved
    ensures |w| > FAST_BITS ==> RefersTo(pairs, v, w[..FAST_BITS])
  {
    var q := (w + Zeros(MAX_LEN))[..FAST_BITS];
    if |w| <= FAST_BITS {
      assert w <= q;
      LookInner(lens, pairs, v, w, q);
    } else {
      assert q == w[..FAST_BITS];
    }
  }

  lemma LookFound(lens: seq<nat>, w: seq<bool>, v: nat)
    requires Fits(lens) && ValidLens(lens) && |w| < MAX_LEN
    requires v == 0 ==> Decode(lens, w + Zeros(MAX_LEN)) == Sym(0, 0)
    requires v > 0 ==> Decode(lens, w + Zeros(MAX_LEN)) == Sym(v % 512, v / 512)
    ensures Decode(lens, w).Sym? <==> 0 < v / 512 <= |w|
  {
    ShortDecode(lens, w, Zeros(MAX_LEN), v / 512);
  }

  lemma ShortDecode(lens: seq<nat>, w: seq<bool>, z: seq<bool>, n: nat)
    requires Fits(lens) && ValidLens(lens) && |w| < MAX_LEN
    requires Decode(lens, w + z).Sym? && Decode(lens, w + z).used == n
    ensures Decode(lens, w).Sym? <==> 0 < n <= |w|
  {
    if Decode(lens, w).Sym? {
      DecodeStable(lens, w, z);
      DecodeUses(lens, w);
    }
    if 0 < n <= |w| { DecodeBack(lens, w, z); }
  }

  lemma DecodeUses(lens: seq<nat>, w: seq<bool>)
    requires |w| < MAX_LEN && Decode(lens, w).Sym?
    ensures Decode(lens, w).used > 0
  {
  }

  lemma LookInner(lens: seq<nat>, pairs: seq<seq<bool>>, v: int, w: seq<bool>, q: seq<bool>)
    requires Fits(lens) && ValidLens(lens) && PairsOk(lens, |lens|, pairs) && RefersTo(pairs, v, q) && w <= q
    ensures Decode(lens, w) == Starved
  {
    var k: nat :| k < |pairs| && v == PairRef(k) && pairs[k] == q;
    assert Inner(lens, |lens|, pairs[k]);
    var t: nat :| t < |lens| && Used(lens, t) && q <= Word(lens, t) && |q| < lens[t];
    assert w == q[..|w|] == Word(lens, t)[..|w|];
    PrefixStarved(lens, w, t);
  }

  lemma WalkStep(lens: seq<nat>, lk: seq<int>, tr: seq<int>, pairs: seq<seq<bool>>, w: seq<bool>, n: nat, v: int, i: int)
    requires Fits(lens) && ValidLens(lens) && Holds(lens, |lens|, lk, tr, pairs) && n < |w|
    requires v < 0 && RefersTo(pairs, v, w[..n]) && i == -v - 1 + Bit(w, n)
    ensures 0 <= i < |tr|
    ensures tr[i] < 0 ==> n + 1 < MAX_LEN && RefersTo(pairs, tr[i], w[..n + 1])
    ensures tr[i] >= 0 ==> Decode(lens, w) == Sym(tr[i], n + 1)
  {
    TreeDecode(lens, lk, tr, pairs, w, n, v);
    if tr[i] < 0 { PairDepth(lens, lk, tr, pairs, tr[i], w[..n + 1]); }
  }

  /** From a negative table entry down the tree to a symbol. */
  method WalkTree(lookUp: array<int>, tree: array<int>, bitBuf: nat, from: int,
                  ghost lens: seq<nat>, ghost w: seq<bool>, ghost pairs: seq<seq<bool>>)
    returns (sym: nat, codeLen: nat)
    requires Fits(lens) && ValidLens(lens) && Holds(lens, |lens|, lookUp[..], tree[..], pairs)
    requires |w| >= MAX_LEN && bitBuf == Val(w) && from < 0 && RefersTo(pairs, from, w[..FAST_BITS])
    ensures Decode(lens, w) == Sym(sym, codeLen)
  {
    ghost var lk, tr := lookUp[..], tree[..];
    var temp := from;
    codeLen := FAST_BITS;
    while temp < 0
      invariant codeLen <= MAX_LEN
      invariant temp < 0 ==> codeLen < MAX_LEN && RefersTo(pairs, temp, w[..codeLen])
      invariant temp >= 0 ==> Decode(lens, w) == Sym(temp, codeLen)
      invariant tree[..] == tr
      decreases MAX_LEN - codeLen
    {
      var i := -temp - 1 + Shr(bitBuf, codeLen) % 2;
      ValBit(w, codeLen);
      WalkStep(lens, lk, tr, pairs, w, codeLen, temp, i);
      temp := tree[i];
      codeLen := codeLen + 1;
    }
    sym := temp;
  }

  /** The decoder proper: the table, then the tree for codes of more than ten bits. */
  method Lookup(lookUp: array<int>, tree: array<int>, bitBuf: nat, ghost lens: seq<nat>, ghost w: seq<bool>)
    returns (sym: nat, codeLen: nat)
    requires Accepted(lens) && Represents(lens, lookUp[..], tree[..])
    requires |w| >= MAX_LEN && bitBuf == Val(w)
    ensures Decode(lens, w) == Sym(sym, codeLen)
  {
    AcceptedFits(lens);
    ghost var pairs :| Holds(lens, |lens|, lookUp[..], tree[..], pairs);
    LookDecode(lens, lookUp[..], tree[..], pairs, w);
    IndexBound(bitBuf);
    var temp := lookUp[Low(bitBuf, FAST_BITS)];
    if temp >= 0 {
      codeLen := temp / 512;
      sym := temp % 512;
    } else {
      sym, codeLen := WalkTree(lookUp, tree, bitBuf, temp, lens, w, pairs);
    }
  }
}
