/** The fixed codes of section 3.2.6 of RFC 1951 are complete, so a block with fixed codes is never refused. */
module FixedCodes {
  import opened Bits
  import opened Huffman
  import opened InflateSpec

  /** Counting a stretch of equal lengths. */
  lemma {:induction false} CountStretch(lens: seq<nat>, lo: nat, hi: nat, v: nat, len: nat)
    requires lo <= hi <= |lens| && forall i | lo <= i < hi :: lens[i] == v
    ensures Count(lens, hi, len) == Count(lens, lo, len) + (if len == v then hi - lo else 0)
    decreases hi
  {
    if lo < hi { CountStretch(lens, lo, hi - 1, v, len); }
  }

  lemma LitCount(len: nat)
    ensures Count(FixedLit(), 288, len)
         == if len == 7 then 24 else if len == 8 then 152 else if len == 9 then 112 else 0
  {
    var lens := FixedLit();
    CountStretch(lens, 0, 144, 8, len);
    CountStretch(lens, 144, 256, 9, len);
    CountStretch(lens, 256, 280, 7, len);
    CountStretch(lens, 280, 288, 8, len);
  }

  lemma DistCount(len: nat)
    ensures Count(FixedDist(), 32, len) == if len == 5 then 32 else 0
  {
    CountStretch(FixedDist(), 0, 32, 5, len);
  }

  /** The smallest codes of each length of a code whose counts are known. */
  lemma {:induction false} FirstStep(lens: seq<nat>, len: nat, first: nat, count: nat)
    requires len >= 1 && First(lens, len) == first && Count(lens, |lens|, len) == count
    ensures First(lens, len + 1) == 2 * (first + count)
  {
  }

  lemma {:induction false} FirstZero(lens: seq<nat>, k: nat)
    requires forall len | 1 <= len < k :: Count(lens, |lens|, len) == 0
    ensures First(lens, k) == 0
  {
    if k > 1 { FirstZero(lens, k - 1); }
  }

  /** From a length on nothing more is used: the smallest codes double. */
  lemma {:induction false} FirstDoubles(lens: seq<nat>, k: nat, n: nat, first: nat, last: nat)
    requires k >= 1 && First(lens, k) == first && last == Times2(first, n)
    requires forall len | k <= len < k + n :: Count(lens, |lens|, len) == 0
    ensures First(lens, k + n) == last
    decreases n
  {
    if n > 0 {
      FirstStep(lens, k, first, 0);
      FirstDoubles(lens, k + 1, n - 1, 2 * first, last);
    }
  }

  function Times2(x: nat, n: nat): nat
    decreases n
  {
    if n == 0 then x else Times2(2 * x, n - 1)
  }

  /** Both fixed codes are complete. */
  lemma FixedComplete()
    ensures Complete(FixedLit()) && Accepted(FixedLit())
    ensures Complete(FixedDist()) && Accepted(FixedDist())
  {
    var lit, dist := FixedLit(), FixedDist();
    forall len: nat ensures Count(lit, 288, len) == (if len == 7 then 24 else if len == 8 then 152 else if len == 9 then 112 else 0)
    { LitCount(len); }
    forall len: nat ensures Count(dist, 32, len) == (if len == 5 then 32 else 0) { DistCount(len); }
    FirstZero(lit, 7);
    FirstStep(lit, 7, 0, 24);
    FirstStep(lit, 8, 48, 152);
    FirstStep(lit, 9, 400, 112);
    assert Times2(1024, 6) == 65536;
    FirstDoubles(lit, 10, 6, 1024, 65536);
    FirstZero(dist, 5);
    FirstStep(dist, 5, 0, 32);
    assert Times2(64, 10) == 65536;
    FirstDoubles(dist, 6, 10, 64, 65536);
  }

  /** A block of kind 1 is the symbols it holds; the refusal in `Block` never happens. */
  lemma FixedBlockAccepted(w: seq<bool>, at: nat, out: seq<byte>, cap: nat)
    requires at <= |w| && |w| % 8 == 0 && |out| <= cap
    ensures Tables(FixedLit(), FixedDist())
    ensures Block(w, at, 1, out, cap) == Symbols(FixedLit(), FixedDist(), w, at, out, cap)
  {
    hide Complete, FixedLit, FixedDist, Symbols;
    FixedComplete();
  }
}
