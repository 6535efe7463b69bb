/** Canonical Huffman codes as section 3.2.2 of RFC 1951 defines them, and the two facts every decoder
    relies on: no code word is a prefix of another, and a complete code leaves no bit string undecoded. */
module Huffman {
  import opened Bits

  const MAX_LEN: nat := 15

  predicate ValidLens(lens: seq<nat>) {
    forall i | 0 <= i < |lens| :: lens[i] <= MAX_LEN
  }

  /** How many of the first `n` symbols have code length `len`. */
  function Count(lens: seq<nat>, n: nat, len: nat): nat
    requires n <= |lens|
  {
    if n == 0 then 0 else Count(lens, n - 1, len) + (if lens[n - 1] == len then 1 else 0)
  }

  /** The smallest code of length `len` (the `next_code` of the RFC); 0 for lengths 0 and 1. */
  function First(lens: seq<nat>, len: nat): nat {
    if len <= 1 then 0 else 2 * (First(lens, len - 1) + Count(lens, |lens|, len - 1))
  }

  predicate Used(lens: seq<nat>, s: nat) {
    s < |lens| && lens[s] > 0
  }

  /** Symbols with a code, counted by length up to `upTo`. */
  function UsedUpTo(lens: seq<nat>, upTo: nat): nat {
    if upTo == 0 then 0 else UsedUpTo(lens, upTo - 1) + Count(lens, |lens|, upTo)
  }

  /** The canonical code of symbol `s`, as a number of `lens[s]` bits. */
  function Code(lens: seq<nat>, s: nat): nat
    requires Used(lens, s)
  {
    First(lens, lens[s]) + Count(lens, s, lens[s])
  }

  /** `len` bits of `c`, most significant first: the order in which a code enters the stream. */
  function MsbFirst(c: nat, len: nat): (w: seq<bool>)
    ensures |w| == len
  {
    if len == 0 then [] else MsbFirst(c / 2, len - 1) + [c % 2 == 1]
  }

  function MsbVal(w: seq<bool>): nat {
    if w == [] then 0 else 2 * MsbVal(w[..|w| - 1]) + (if w[|w| - 1] then 1 else 0)
  }

  function Word(lens: seq<nat>, s: nat): (w: seq<bool>)
    requires Used(lens, s)
    ensures |w| == lens[s]
  {
    MsbFirst(Code(lens, s), lens[s])
  }

  /** The Kraft sum is exactly one: the test `total == 65536` of the table builder. */
  predicate Complete(lens: seq<nat>) {
    First(lens, MAX_LEN + 1) == 65536
  }

  /** What the table builder lets through. */
  predicate Accepted(lens: seq<nat>) {
    ValidLens(lens) && (Complete(lens) || UsedUpTo(lens, MAX_LEN) <= 1)
  }

  /** No length has more codes than numbers of that many bits are left. */
  ghost predicate Fits(lens: seq<nat>) {
    forall k | 1 <= k <= MAX_LEN :: First(lens, k) + Count(lens, |lens|, k) <= Shl(1, k)
  }

  // ---------------------------------------------------------------- words and their values

  lemma {:induction false} MsbValMsbFirst(c: nat, len: nat)
    requires c < Shl(1, len)
    ensures MsbVal(MsbFirst(c, len)) == c
  {
    if len > 0 {
      MsbValMsbFirst(c / 2, len - 1);
      var w := MsbFirst(c, len);
      assert w[..len - 1] == MsbFirst(c / 2, len - 1);
    }
  }

  lemma {:induction false} MsbFirstMsbVal(w: seq<bool>)
    ensures MsbFirst(MsbVal(w), |w|) == w
  {
    if w != [] {
      MsbFirstMsbVal(w[..|w| - 1]);
      assert w == w[..|w| - 1] + [w[|w| - 1]];
    }
  }

  lemma {:induction false} MsbValBound(w: seq<bool>)
    ensures MsbVal(w) < Shl(1, |w|)
  {
    if w != [] { MsbValBound(w[..|w| - 1]); }
  }

  /** Dropping the last bits of a word shifts its value. */
  lemma {:induction false} MsbValPrefix(w: seq<bool>, k: nat)
    requires k <= |w|
    ensures Shr(MsbVal(w), |w| - k) == MsbVal(w[..k])
  {
    if k == |w| {
      assert w[..k] == w;
    } else {
      MsbValPrefix(w[..|w| - 1], k);
      assert w[..|w| - 1][..k] == w[..k];
    }
  }

  // ---------------------------------------------------------------- counting

  lemma {:induction false} CountMono(lens: seq<nat>, m: nat, n: nat, len: nat)
    requires m <= n <= |lens|
    ensures Count(lens, m, len) <= Count(lens, n, len)
  {
    if m < n { CountMono(lens, m, n - 1, len); }
  }

  lemma CountBelow(lens: seq<nat>, s: nat, n: nat)
    requires s < n <= |lens|
    ensures Count(lens, s, lens[s]) < Count(lens, n, lens[s])
  {
    CountMono(lens, s + 1, n, lens[s]);
  }

  lemma {:induction false} SymbolOfRank(lens: seq<nat>, n: nat, len: nat, r: nat) returns (s: nat)
    requires n <= |lens| && r < Count(lens, n, len)
    ensures s < n && lens[s] == len && Count(lens, s, len) == r
  {
    if r == Count(lens, n - 1, len) {
      s := n - 1;
    } else {
      s := SymbolOfRank(lens, n - 1, len, r);
    }
  }

  lemma {:induction false} FirstGrows(lens: seq<nat>, k: nat, m: nat)
    requires 1 <= k < m
    ensures First(lens, m) >= Shl(First(lens, k) + Count(lens, |lens|, k), m - k)
  {
    if m > k + 1 { FirstGrows(lens, k, m - 1); }
  }

  // ---------------------------------------------------------------- prefix-freeness

  lemma CompleteFits(lens: seq<nat>)
    requires Complete(lens)
    ensures Fits(lens)
  {
    forall k | 1 <= k <= MAX_LEN
      ensures First(lens, k) + Count(lens, |lens|, k) <= Shl(1, k)
    {
      FirstGrows(lens, k, 16);
      ShlShl(1, k, 16 - k);
      PowersOfTwo();
      Unshift(First(lens, k) + Count(lens, |lens|, k), Shl(1, k), 16 - k);
    }
  }

  lemma Unshift(x: nat, y: nat, n: nat)
    requires Shl(x, n) <= Shl(y, n)
    ensures x <= y
  {
    if x > y {
      ShlMono(y, x, n);
      ShlGrows(1, n, n);
    }
  }

  lemma {:induction false} FewFit(lens: seq<nat>, k: nat)
    requires 1 <= k
    ensures First(lens, k) + Count(lens, |lens|, k) <= Shl(UsedUpTo(lens, k), k - 1)
  {
    if k == 1 {
      assert UsedUpTo(lens, 0) == 0;
    } else {
      FewFit(lens, k - 1);
      var c := Count(lens, |lens|, k);
      ShlAdd(UsedUpTo(lens, k - 1), c, k - 1);
      ShlGrows(c, 0, k - 1);
    }
  }

  lemma {:induction false} UsedUpToMono(lens: seq<nat>, a: nat, b: nat)
    requires a <= b
    ensures UsedUpTo(lens, a) <= UsedUpTo(lens, b)
  {
    if a < b { UsedUpToMono(lens, a, b - 1); }
  }

  lemma AcceptedFits(lens: seq<nat>)
    requires Accepted(lens)
    ensures Fits(lens)
  {
    if Complete(lens) {
      CompleteFits(lens);
    } else {
      forall k | 1 <= k <= MAX_LEN
        ensures First(lens, k) + Count(lens, |lens|, k) <= Shl(1, k)
      {
        FewFit(lens, k);
        UsedUpToMono(lens, k, MAX_LEN);
        ShlMono(UsedUpTo(lens, k), 1, k - 1);
      }
    }
  }

  lemma CodeBound(lens: seq<nat>, s: nat)
    requires Fits(lens) && ValidLens(lens) && Used(lens, s)
    ensures Code(lens, s) < First(lens, lens[s]) + Count(lens, |lens|, lens[s]) <= Shl(1, lens[s])
    ensures MsbVal(Word(lens, s)) == Code(lens, s)
  {
    CountBelow(lens, s, |lens|);
    MsbValMsbFirst(Code(lens, s), lens[s]);
  }

  /** No code word is a prefix of another symbol's. */
  lemma PrefixFree(lens: seq<nat>, s: nat, t: nat)
    requires Fits(lens) && ValidLens(lens) && Used(lens, s) && Used(lens, t)
    requires Word(lens, s) <= Word(lens, t)
    ensures s == t
  {
    PrefixCode(lens, s, t);
    if lens[s] < lens[t] {
      LongerCode(lens, s, t);
      assert false;
    }
    SameCode(lens, s, t);
  }

  lemma PrefixCode(lens: seq<nat>, s: nat, t: nat)
    requires Fits(lens) && ValidLens(lens) && Used(lens, s) && Used(lens, t)
    requires Word(lens, s) <= Word(lens, t)
    ensures lens[s] <= lens[t] && Shr(Code(lens, t), lens[t] - lens[s]) == Code(lens, s)
  {
    CodeBound(lens, s);
    CodeBound(lens, t);
    var v, w := Word(lens, s), Word(lens, t);
    assert w[..|v|] == v;
    MsbValPrefix(w, |v|);
  }

  lemma SameCode(lens: seq<nat>, s: nat, t: nat)
    requires Used(lens, s) && Used(lens, t) && lens[s] == lens[t] && Code(lens, s) == Code(lens, t)
    ensures s == t
  {
    if s < t { CountBelow(lens, s, t); } else if t < s { CountBelow(lens, t, s); }
  }

  /** The first bits of a longer code exceed every shorter code. */
  lemma LongerCode(lens: seq<nat>, s: nat, t: nat)
    requires Used(lens, s) && Used(lens, t) && lens[s] < lens[t]
    ensures Shr(Code(lens, t), lens[t] - lens[s]) > Code(lens, s)
  {
    CountBelow(lens, s, |lens|);
    FirstGrows(lens, lens[s], lens[t]);
    ShrLower(Code(lens, t), First(lens, lens[s]) + Count(lens, |lens|, lens[s]), lens[t] - lens[s]);
  }

  // ---------------------------------------------------------------- completeness

  /** A complete code decodes every 15 bits: exactly one word is a prefix of them. */
  lemma WordExists(lens: seq<nat>, w: seq<bool>) returns (s: nat)
    requires Complete(lens) && ValidLens(lens) && |w| >= MAX_LEN
    ensures Used(lens, s) && Word(lens, s) <= w
  {
    var k := 1;
    while MsbVal(w[..k]) >= First(lens, k) + Count(lens, |lens|, k)
      invariant 1 <= k <= MAX_LEN
      invariant MsbVal(w[..k]) >= First(lens, k)
      decreases MAX_LEN - k
    {
      if k == MAX_LEN {
        CompleteBound(lens, w);
        assert false;
      }
      assert w[..k + 1][..k] == w[..k];
      k := k + 1;
    }
    s := SymbolOfRank(lens, |lens|, k, MsbVal(w[..k]) - First(lens, k));
    MsbFirstMsbVal(w[..k]);
  }

  lemma CompleteBound(lens: seq<nat>, w: seq<bool>)
    requires Complete(lens) && |w| >= MAX_LEN
    ensures MsbVal(w[..MAX_LEN]) < First(lens, MAX_LEN) + Count(lens, |lens|, MAX_LEN)
  {
    PowersOfTwo();
    MsbValBound(w[..MAX_LEN]);
  }
}
