/** The two-level decoding table of the inflater: a 1024-entry table indexed by the next ten stream bits,
    and node pairs in a tree array for longer codes. A table entry is `len * 512 + symbol` for a short code
    and `-1 - 2k` for node pair `k`; a tree entry is a symbol or again a negated pair. */
module HuffmanTable {
  import opened Bits
  import opened Huffman

  const FAST_BITS: nat := 10
  const FAST_SIZE: nat := 1024
  const MAX_SYMS: nat := 288

  // ---------------------------------------------------------------- what the tables stand for

  /** Among the first `n` symbols some code word starts with `q`. */
  ghost predicate Extends(lens: seq<nat>, n: nat, q: seq<bool>) {
    exists s: nat :: s < n && Used(lens, s) && q <= Word(lens, s)
  }

  ghost predicate IsWord(lens: seq<nat>, n: nat, s: nat, q: seq<bool>) {
    s < n && Used(lens, s) && Word(lens, s) == q
  }

  /** The value of a tree or table entry that refers to node pair `k`. */
  function PairRef(k: nat): int { -1 - 2 * k }

  ghost predicate RefersTo(pairs: seq<seq<bool>>, v: int, q: seq<bool>) {
    exists k: nat :: k < |pairs| && v == PairRef(k) && pairs[k] == q
  }

  /** A tree entry for the prefix `q`. */
  ghost predicate TreeSlot(lens: seq<nat>, n: nat, pairs: seq<seq<bool>>, v: int, q: seq<bool>) {
    if v < 0 then RefersTo(pairs, v, q)
    else IsWord(lens, n, v, q) || (v == 0 && !Extends(lens, n, q))
  }

  /** A table entry for the ten bits `q`. */
  ghost predicate LookSlot(lens: seq<nat>, n: nat, pairs: seq<seq<bool>>, v: int, q: seq<bool>) {
    if v < 0 then RefersTo(pairs, v, q)
    else if v > 0 then ShortHit(lens, n, v, q)
    else !Extends(lens, n, q) && forall s: nat | s < n && Used(lens, s) :: !(Word(lens, s) <= q)
  }

  ghost predicate ShortHit(lens: seq<nat>, n: nat, v: nat, q: seq<bool>) {
    v % 512 < n && Used(lens, v % 512) && v / 512 == lens[v % 512] && Word(lens, v % 512) <= q
  }

  /** `q` is the proper prefix of a code word for which the tree needs a node pair. */
  ghost predicate Inner(lens: seq<nat>, n: nat, q: seq<bool>) {
    |q| >= FAST_BITS && exists s: nat :: s < n && Used(lens, s) && q <= Word(lens, s) && |q| < lens[s]
  }

  ghost predicate PairsOk(lens: seq<nat>, n: nat, pairs: seq<seq<bool>>) {
    && (forall k | 0 <= k < |pairs| :: Inner(lens, n, pairs[k]))
    && (forall j, k | 0 <= j < k < |pairs| :: pairs[j] != pairs[k])
  }

  ghost predicate LookOk(lens: seq<nat>, n: nat, lk: seq<int>, pairs: seq<seq<bool>>) {
    |lk| == FAST_SIZE && forall x | 0 <= x < FAST_SIZE :: LookSlot(lens, n, pairs, lk[x], ToBits(x, FAST_BITS))
  }

  /** Both entries of node pair `k`. */
  ghost predicate PairSlots(lens: seq<nat>, n: nat, tr: seq<int>, pairs: seq<seq<bool>>, k: nat)
    requires k < |pairs|
  {
    && 2 * k + 1 < |tr|
    && TreeSlot(lens, n, pairs, tr[2 * k], pairs[k] + [false])
    && TreeSlot(lens, n, pairs, tr[2 * k + 1], pairs[k] + [true])
  }

  ghost predicate TreeOk(lens: seq<nat>, n: nat, tr: seq<int>, pairs: seq<seq<bool>>) {
    && (forall k | 0 <= k < |pairs| :: PairSlots(lens, n, tr, pairs, k))
    && (forall j | 2 * |pairs| <= j < |tr| :: tr[j] == 0)
  }

  /** The arrays hold exactly the code words of the first `n` symbols. */
  ghost predicate Holds(lens: seq<nat>, n: nat, lk: seq<int>, tr: seq<int>, pairs: seq<seq<bool>>) {
    LookOk(lens, n, lk, pairs) && TreeOk(lens, n, tr, pairs) && PairsOk(lens, n, pairs)
  }

  ghost predicate Represents(lens: seq<nat>, lk: seq<int>, tr: seq<int>) {
    exists pairs :: Holds(lens, |lens|, lk, tr, pairs)
  }

  // ---------------------------------------------------------------- room in the tree array

  /** Pairwise different numbers below `n` are at most `n` many. */
  lemma {:induction false} Pigeonhole(xs: seq<nat>, n: nat)
    requires forall i | 0 <= i < |xs| :: xs[i] < n
    requires forall i, j | 0 <= i < j < |xs| :: xs[i] != xs[j]
    ensures |xs| <= n
  {
    assert xs != [] ==> xs[0] < n;
    if n == 0 {
    } else if exists i :: 0 <= i < |xs| && xs[i] == n - 1 {
      var i :| 0 <= i < |xs| && xs[i] == n - 1;
      Pigeonhole(xs[..i] + xs[i + 1..], n - 1);
    } else {
      Pigeonhole(xs, n - 1);
    }
  }

  function Ones(n: nat): (w: seq<bool>)
    ensures |w| == n && forall i | 0 <= i < n :: w[i]
  {
    seq(n, _ => true)
  }

  /** The word `v` is `q`, then a 0, then only 1s. */
  ghost predicate LastUnder(v: seq<bool>, q: seq<bool>) {
    q <= v && |q| < |v| && !v[|q|] && forall i | |q| < i < |v| :: v[i]
  }

  /** The symbol reached from inner prefix `q` by one 0 and then only 1s. */
  lemma LeafOf(lens: seq<nat>, q: seq<bool>) returns (s: nat)
    requires ValidLens(lens) && Complete(lens) && Inner(lens, |lens|, q)
    ensures Used(lens, s) && LastUnder(Word(lens, s), q)
  {
    var w := q + [false] + Ones(MAX_LEN);
    s := WordExists(lens, w);
    var t: nat :| t < |lens| && Used(lens, t) && q <= Word(lens, t) && |q| < lens[t];
    var v := Word(lens, s);
    assert v == w[..lens[s]];
    if lens[s] <= |q| {
      assert v == q[..lens[s]] == Word(lens, t)[..lens[s]];
      CompleteFits(lens);
      PrefixFree(lens, s, t);
      assert false;
    }
  }

  lemma LeavesDiffer(v: seq<bool>, p: seq<bool>, q: seq<bool>)
    requires LastUnder(v, p) && LastUnder(v, q)
    ensures p == q
  {
    assert p == v[..|p|] && q == v[..|q|];
  }

  /** A complete code needs at most one node pair per symbol. */
  lemma CompleteRoom(lens: seq<nat>, pairs: seq<seq<bool>>)
    requires ValidLens(lens) && Complete(lens) && PairsOk(lens, |lens|, pairs)
    ensures |pairs| <= |lens|
  {
    var xs: seq<nat> := [];
    while |xs| < |pairs|
      invariant |xs| <= |pairs|
      invariant forall i | 0 <= i < |xs| :: Used(lens, xs[i]) && LastUnder(Word(lens, xs[i]), pairs[i])
    {
      var s := LeafOf(lens, pairs[|xs|]);
      xs := xs + [s];
    }
    forall i, j | 0 <= i < j < |xs|
      ensures xs[i] != xs[j]
    {
      if xs[i] == xs[j] {
        LeavesDiffer(Word(lens, xs[i]), pairs[i], pairs[j]);
      }
    }
    Pigeonhole(xs, |lens|);
  }

  lemma {:induction false} UsedUpToPair(lens: seq<nat>, s: nat, t: nat, k: nat)
    requires Used(lens, s) && Used(lens, t) && s < t && lens[s] <= k && lens[t] <= k
    ensures UsedUpTo(lens, k) >= 2
  {
    CountBelow(lens, s, |lens|);
    CountBelow(lens, t, |lens|);
    if lens[s] == k && lens[t] == k {
      CountBelow(lens, s, t);
    } else if lens[s] < k && lens[t] < k {
      UsedUpToPair(lens, s, t, k - 1);
    } else if lens[s] < k {
      UsedUpToOne(lens, s, k - 1);
    } else {
      UsedUpToOne(lens, t, k - 1);
    }
  }

  lemma {:induction false} UsedUpToOne(lens: seq<nat>, s: nat, k: nat)
    requires Used(lens, s) && lens[s] <= k
    ensures UsedUpTo(lens, k) >= 1
  {
    CountBelow(lens, s, |lens|);
    if lens[s] < k { UsedUpToOne(lens, s, k - 1); }
  }

  lemma SingleRoom(lens: seq<nat>, pairs: seq<seq<bool>>)
    requires ValidLens(lens) && UsedUpTo(lens, MAX_LEN) <= 1 && PairsOk(lens, |lens|, pairs)
    ensures |pairs| <= 5
  {
    if pairs != [] {
      assert Inner(lens, |lens|, pairs[0]);
      var s: nat :| s < |lens| && Used(lens, s);
      forall i | 0 <= i < |pairs|
        ensures FAST_BITS <= |pairs[i]| < 15 && pairs[i] <= Word(lens, s)
      {
        assert Inner(lens, |lens|, pairs[i]);
        var t: nat :| t < |lens| && Used(lens, t) && pairs[i] <= Word(lens, t) && |pairs[i]| < lens[t];
        if s < t { UsedUpToPair(lens, s, t, MAX_LEN); } else if t < s { UsedUpToPair(lens, t, s, MAX_LEN); }
      }
      var xs: seq<nat> := seq(|pairs|, i requires 0 <= i < |pairs| => |pairs[i]| - 10);
      Pigeonhole(xs, 5);
    }
  }

  lemma Room(lens: seq<nat>, n: nat, pairs: seq<seq<bool>>)
    requires Accepted(lens) && n <= |lens| && PairsOk(lens, n, pairs)
    ensures |pairs| <= |lens| || |pairs| <= 5
  {
    forall k | 0 <= k < |pairs|
      ensures Inner(lens, |lens|, pairs[k])
    {
      assert Inner(lens, n, pairs[k]);
    }
    if Complete(lens) { CompleteRoom(lens, pairs); } else { SingleRoom(lens, pairs); }
  }

  // ---------------------------------------------------------------- short codes

  /** Enters `k` at every index whose low `size` bits are `rev`. */
  method FillShort(lookUp: array<int>, rev: nat, size: nat, k: int)
    requires lookUp.Length == FAST_SIZE && rev < Shl(1, size)
    modifies lookUp
    ensures forall x | 0 <= x < FAST_SIZE :: lookUp[x] == if Low(x, size) == rev then k else old(lookUp[x])
  {
    var x := rev;
    LowSmall(rev, size);
    forall y: nat | y < rev ensures Low(y, size) != rev { LowSmall(y, size); }
    ShlGrows(1, 0, size);
    while x < FAST_SIZE
      invariant Low(x, size) == rev
      invariant forall y | 0 <= y < x && y < FAST_SIZE :: lookUp[y] == if Low(y, size) == rev then k else old(lookUp[y])
      invariant forall y | x <= y < FAST_SIZE :: lookUp[y] == old(lookUp[y])
      decreases FAST_SIZE - x
    {
      lookUp[x] := k;
      LowStep(x, size);
      forall y: nat | x < y < x + Shl(1, size) ensures Low(y, size) != rev { LowGap(x, y, size); }
      x := x + Shl(1, size);
    }
  }

  lemma PrefixIndex(w: seq<bool>, x: nat)
    requires |w| <= FAST_BITS && x < FAST_SIZE
    ensures Low(x, |w|) == Val(w) <==> w <= ToBits(x, FAST_BITS)
  {
    var q := ToBits(x, FAST_BITS);
    IndexVal(x);
    ValSplit(q, |w|);
    if Val(q[..|w|]) == Val(w) { ValInjective(q[..|w|], w); }
    if w <= q { assert q[..|w|] == w; }
  }

  lemma IndexVal(x: nat)
    requires x < FAST_SIZE
    ensures Val(ToBits(x, FAST_BITS)) == x
  {
    PowersOfTwo();
    ValToBits(x, FAST_BITS);
  }

  lemma ShortLook(lens: seq<nat>, n: nat, lk: seq<int>, lk': seq<int>, pairs: seq<seq<bool>>)
    requires Used(lens, n) && n < 512 && lens[n] <= FAST_BITS && LookOk(lens, n, lk, pairs) && |lk'| == FAST_SIZE
    requires forall x | 0 <= x < FAST_SIZE ::
               lk'[x] == if Word(lens, n) <= ToBits(x, FAST_BITS) then lens[n] * 512 + n else lk[x]
    ensures LookOk(lens, n + 1, lk', pairs)
  {
    forall x | 0 <= x < FAST_SIZE
      ensures LookSlot(lens, n + 1, pairs, lk'[x], ToBits(x, FAST_BITS))
    {
      ShortLookAt(lens, n, lk[x], lk'[x], ToBits(x, FAST_BITS), pairs);
    }
  }

  lemma SameLengthPrefix(q: seq<bool>, w: seq<bool>)
    requires |w| <= |q|
    ensures q <= w ==> q == w
  {
  }

  lemma ShortLookAt(lens: seq<nat>, n: nat, v: int, v': int, q: seq<bool>, pairs: seq<seq<bool>>)
    requires Used(lens, n) && n < 512 && lens[n] <= FAST_BITS == |q| && LookSlot(lens, n, pairs, v, q)
    requires v' == if Word(lens, n) <= q then lens[n] * 512 + n else v
    ensures LookSlot(lens, n + 1, pairs, v', q)
  {
    if Word(lens, n) <= q {
      assert ShortHit(lens, n + 1, v', q);
    } else if v == 0 {
      SameLengthPrefix(q, Word(lens, n));
    }
  }

  lemma TreeSlotShort(lens: seq<nat>, n: nat, pairs: seq<seq<bool>>, v: int, q: seq<bool>)
    requires Used(lens, n) && lens[n] < |q| && TreeSlot(lens, n, pairs, v, q)
    ensures TreeSlot(lens, n + 1, pairs, v, q)
  {
  }

  lemma ShortStep(lens: seq<nat>, n: nat, lk: seq<int>, lk': seq<int>, tr: seq<int>, pairs: seq<seq<bool>>)
    requires Used(lens, n) && n < 512 && lens[n] <= FAST_BITS && Holds(lens, n, lk, tr, pairs) && |lk'| == FAST_SIZE
    requires forall x | 0 <= x < FAST_SIZE ::
               lk'[x] == if Word(lens, n) <= ToBits(x, FAST_BITS) then lens[n] * 512 + n else lk[x]
    ensures Holds(lens, n + 1, lk', tr, pairs)
  {
    ShortLook(lens, n, lk, lk', pairs);
    forall k | 0 <= k < |pairs|
      ensures Inner(lens, n + 1, pairs[k]) && PairSlots(lens, n + 1, tr, pairs, k)
    {
      assert Inner(lens, n, pairs[k]) && PairSlots(lens, n, tr, pairs, k);
      TreeSlotShort(lens, n, pairs, tr[2 * k], pairs[k] + [false]);
      TreeSlotShort(lens, n, pairs, tr[2 * k + 1], pairs[k] + [true]);
    }
  }

  // ---------------------------------------------------------------- long codes

  /** While the code word of symbol `n` is being entered: the nodes down to depth `d` are there, and every
      pair made so far serves an earlier symbol or lies on this path. */
  ghost predicate Transit(lens: seq<nat>, n: nat, lk: seq<int>, tr: seq<int>, pairs: seq<seq<bool>>, d: nat)
    requires Used(lens, n) && lens[n] > FAST_BITS
  {
    var w := Word(lens, n);
    && FAST_BITS <= d < lens[n]
    && LookOk(lens, n, lk, pairs) && TreeOk(lens, n, tr, pairs) && PairsOk(lens, n + 1, pairs)
    && (forall x | 0 <= x < FAST_SIZE && lk[x] == 0 :: ToBits(x, FAST_BITS) != w[..FAST_BITS])
    && (forall k | 0 <= k < |pairs| :: OnPath(tr, w, pairs[k], k, d))
    && (forall k | 0 <= k < |pairs| :: Inner(lens, n, pairs[k]) || (pairs[k] <= w && |pairs[k]| <= d))
  }

  /** Above depth `d` the path of `w` leaves pair `k` through a further pair. */
  ghost predicate OnPath(tr: seq<int>, w: seq<bool>, q: seq<bool>, k: nat, d: nat) {
    q <= w && |q| < d && |q| < |w| ==> 2 * k + 1 < |tr| && tr[2 * k + Bit(w, |q|)] < 0
  }

  lemma RefersToMore(pairs: seq<seq<bool>>, v: int, q: seq<bool>, p: seq<bool>)
    requires RefersTo(pairs, v, q)
    ensures RefersTo(pairs + [p], v, q)
  {
    var k: nat :| k < |pairs| && v == PairRef(k) && pairs[k] == q;
    assert (pairs + [p])[k] == q;
  }

  lemma TreeSlotMore(lens: seq<nat>, n: nat, pairs: seq<seq<bool>>, v: int, q: seq<bool>, p: seq<bool>)
    requires TreeSlot(lens, n, pairs, v, q)
    ensures TreeSlot(lens, n, pairs + [p], v, q)
  {
    if v < 0 { RefersToMore(pairs, v, q, p); }
  }

  lemma LookMore(lens: seq<nat>, n: nat, lk: seq<int>, pairs: seq<seq<bool>>, p: seq<bool>)
    requires LookOk(lens, n, lk, pairs)
    ensures LookOk(lens, n, lk, pairs + [p])
  {
    forall x | 0 <= x < FAST_SIZE
      ensures LookSlot(lens, n, pairs + [p], lk[x], ToBits(x, FAST_BITS))
    {
      assert LookSlot(lens, n, pairs, lk[x], ToBits(x, FAST_BITS));
      if lk[x] < 0 { RefersToMore(pairs, lk[x], ToBits(x, FAST_BITS), p); }
    }
  }

  /** A pair for a prefix no earlier symbol extends takes the next two, still empty, tree entries. */
  lemma TreeMore(lens: seq<nat>, n: nat, tr: seq<int>, pairs: seq<seq<bool>>, p: seq<bool>)
    requires n <= |lens| && TreeOk(lens, n, tr, pairs) && 2 * |pairs| + 2 <= |tr| && !Extends(lens, n, p)
    ensures TreeOk(lens, n, tr, pairs + [p])
  {
    var pairs' := pairs + [p];
    forall k | 0 <= k < |pairs'|
      ensures PairSlots(lens, n, tr, pairs', k)
    {
      if k < |pairs| {
        assert PairSlots(lens, n, tr, pairs, k);
        TreeSlotMore(lens, n, pairs, tr[2 * k], pairs[k] + [false], p);
        TreeSlotMore(lens, n, pairs, tr[2 * k + 1], pairs[k] + [true], p);
      } else {
        ExtendsLonger(lens, n, p, p + [false]);
        ExtendsLonger(lens, n, p, p + [true]);
      }
    }
  }

  lemma ExtendsLonger(lens: seq<nat>, n: nat, p: seq<bool>, q: seq<bool>)
    requires p <= q
    ensures Extends(lens, n, q) ==> Extends(lens, n, p)
  {
    if Extends(lens, n, q) {
      var s: nat :| s < n && Used(lens, s) && q <= Word(lens, s);
      assert p == q[..|p|] == Word(lens, s)[..|p|];
    }
  }

  lemma PairsMore(lens: seq<nat>, n: nat, pairs: seq<seq<bool>>, d: nat)
    requires Used(lens, n) && FAST_BITS <= d < lens[n] && PairsOk(lens, n + 1, pairs)
    requires forall k | 0 <= k < |pairs| :: Inner(lens, n, pairs[k]) || |pairs[k]| < d
    requires !Extends(lens, n, Word(lens, n)[..d])
    ensures PairsOk(lens, n + 1, pairs + [Word(lens, n)[..d]])
  {
    var q := Word(lens, n)[..d];
    assert Inner(lens, n + 1, q);
    InnerExtends(lens, n, q);
  }

  lemma InnerExtends(lens: seq<nat>, n: nat, q: seq<bool>)
    ensures Inner(lens, n, q) ==> Extends(lens, n, q)
  {
  }

  lemma PairsNext(lens: seq<nat>, n: nat, pairs: seq<seq<bool>>)
    requires PairsOk(lens, n, pairs)
    ensures PairsOk(lens, n + 1, pairs)
  {
    forall k | 0 <= k < |pairs|
      ensures Inner(lens, n + 1, pairs[k])
    {
      assert Inner(lens, n, pairs[k]);
    }
  }

  /** The symbols before `n` have no word that is a proper prefix of symbol `n`'s. */
  lemma NoShorterWord(lens: seq<nat>, n: nat, s: nat, q: seq<bool>)
    requires Fits(lens) && ValidLens(lens) && Used(lens, n) && s < n && Used(lens, s) && q <= Word(lens, n)
    ensures !(Word(lens, s) <= q)
  {
    if Word(lens, s) <= q {
      assert Word(lens, s) <= Word(lens, n);
      PrefixFree(lens, s, n);
      assert false;
    }
  }

  lemma IndexUnique(x: nat, y: nat)
    requires x < FAST_SIZE && y < FAST_SIZE
    ensures ToBits(x, FAST_BITS) == ToBits(y, FAST_BITS) ==> x == y
  {
    IndexVal(x);
    IndexVal(y);
  }

  lemma EnterRoot(lens: seq<nat>, n: nat, lk: seq<int>, tr: seq<int>, pairs: seq<seq<bool>>, x: nat)
    requires Fits(lens) && ValidLens(lens) && Used(lens, n) && lens[n] > FAST_BITS && Holds(lens, n, lk, tr, pairs)
    requires x < FAST_SIZE && ToBits(x, FAST_BITS) == Word(lens, n)[..FAST_BITS] && lk[x] != 0
    ensures Transit(lens, n, lk, tr, pairs, FAST_BITS) && RefersTo(pairs, lk[x], Word(lens, n)[..FAST_BITS])
  {
    var q := Word(lens, n)[..FAST_BITS];
    assert LookSlot(lens, n, pairs, lk[x], q);
    if lk[x] > 0 {
      NoShorterWord(lens, n, lk[x] % 512, q);
    }
    PairsNext(lens, n, pairs);
    forall y: nat | y < FAST_SIZE && lk[y] == 0 ensures ToBits(y, FAST_BITS) != q {
      IndexUnique(x, y);
    }
  }

  lemma AllocRoot(lens: seq<nat>, n: nat, lk: seq<int>, tr: seq<int>, pairs: seq<seq<bool>>, x: nat)
    requires Used(lens, n) && lens[n] > FAST_BITS && Holds(lens, n, lk, tr, pairs)
    requires x < FAST_SIZE && ToBits(x, FAST_BITS) == Word(lens, n)[..FAST_BITS] && lk[x] == 0
    requires 2 * |pairs| + 2 <= |tr|
    ensures Transit(lens, n, lk[x := PairRef(|pairs|)], tr, pairs + [Word(lens, n)[..FAST_BITS]], FAST_BITS)
  {
    var q := Word(lens, n)[..FAST_BITS];
    var lk', pairs' := lk[x := PairRef(|pairs|)], pairs + [q];
    assert LookSlot(lens, n, pairs, lk[x], q);
    PairsNext(lens, n, pairs);
    InnerExtends(lens, n, q);
    NewPairs(lens, n, pairs, q);
    LookMore(lens, n, lk, pairs, q);
    assert pairs'[|pairs|] == q && RefersTo(pairs', PairRef(|pairs|), q);
    TreeMore(lens, n, tr, pairs, q);
    forall y: nat | y < FAST_SIZE && lk'[y] == 0 ensures ToBits(y, FAST_BITS) != q {
      IndexUnique(x, y);
    }
  }

  lemma NewPairs(lens: seq<nat>, n: nat, pairs: seq<seq<bool>>, q: seq<bool>)
    requires PairsOk(lens, n, pairs) && Inner(lens, n + 1, q) && !Inner(lens, n, q)
    ensures PairsOk(lens, n + 1, pairs + [q])
  {
    PairsNext(lens, n, pairs);
  }

  /** The tree entry below pair `k` on the way to symbol `n`. */
  function Child(w: seq<bool>, k: nat, d: nat): nat
    requires d < |w|
  {
    2 * k + Bit(w, d)
  }

  lemma ChildSlot(lens: seq<nat>, n: nat, tr: seq<int>, pairs: seq<seq<bool>>, w: seq<bool>, k: nat, d: nat)
    requires TreeOk(lens, n, tr, pairs) && k < |pairs| && d < |w| && pairs[k] == w[..d]
    ensures Child(w, k, d) < 2 * |pairs| && Child(w, k, d) < |tr|
    ensures TreeSlot(lens, n, pairs, tr[Child(w, k, d)], w[..d + 1])
  {
    assert PairSlots(lens, n, tr, pairs, k);
    assert w[..d + 1] == w[..d] + [w[d]];
  }

  lemma ChildIsPair(lens: seq<nat>, n: nat, lk: seq<int>, tr: seq<int>, pairs: seq<seq<bool>>, k: nat, d: nat)
    requires Fits(lens) && ValidLens(lens) && Used(lens, n) && lens[n] > FAST_BITS
    requires Transit(lens, n, lk, tr, pairs, d) && d + 1 < lens[n] && k < |pairs| && pairs[k] == Word(lens, n)[..d]
    ensures var i := Child(Word(lens, n), k, d);
            && i < |tr|
            && if tr[i] == 0 then !Extends(lens, n, Word(lens, n)[..d + 1])
               else tr[i] < 0 && RefersTo(pairs, tr[i], Word(lens, n)[..d + 1])
  {
    var w := Word(lens, n);
    ChildSlot(lens, n, tr, pairs, w, k, d);
    var v := tr[Child(w, k, d)];
    if v >= 0 && IsWord(lens, n, v, w[..d + 1]) {
      NoShorterWord(lens, n, v, w[..d + 1]);
    }
  }

  lemma OnPathNext(tr: seq<int>, w: seq<bool>, pairs: seq<seq<bool>>, k: nat, d: nat)
    requires d < |w| && k < |pairs| && pairs[k] == w[..d] && Child(w, k, d) < |tr| && tr[Child(w, k, d)] < 0
    requires 2 * k + 1 < |tr| && forall j | 0 <= j < |pairs| :: OnPath(tr, w, pairs[j], j, d)
    requires forall i, j | 0 <= i < j < |pairs| :: pairs[i] != pairs[j]
    ensures forall j | 0 <= j < |pairs| :: OnPath(tr, w, pairs[j], j, d + 1)
  {
    forall j | 0 <= j < |pairs|
      ensures OnPath(tr, w, pairs[j], j, d + 1)
    {
      assert OnPath(tr, w, pairs[j], j, d);
      if pairs[j] <= w && |pairs[j]| == d {
        assert pairs[j] == w[..d];
      }
    }
  }

  lemma Descend(lens: seq<nat>, n: nat, lk: seq<int>, tr: seq<int>, pairs: seq<seq<bool>>, k: nat, d: nat)
    requires Used(lens, n) && lens[n] > FAST_BITS && d + 1 < lens[n]
    requires Transit(lens, n, lk, tr, pairs, d) && k < |pairs| && pairs[k] == Word(lens, n)[..d]
    requires Child(Word(lens, n), k, d) < |tr| && tr[Child(Word(lens, n), k, d)] < 0
    ensures Transit(lens, n, lk, tr, pairs, d + 1)
  {
    assert PairSlots(lens, n, tr, pairs, k);
    OnPathNext(tr, Word(lens, n), pairs, k, d);
  }

  lemma TreeUpdate(lens: seq<nat>, n: nat, tr: seq<int>, pairs: seq<seq<bool>>, w: seq<bool>, k: nat, d: nat, v: int)
    requires TreeOk(lens, n, tr, pairs) && k < |pairs| && d < |w| && pairs[k] == w[..d]
    requires Child(w, k, d) < |tr| && TreeSlot(lens, n, pairs, v, w[..d + 1])
    ensures TreeOk(lens, n, tr[Child(w, k, d) := v], pairs)
  {
    var tr' := tr[Child(w, k, d) := v];
    assert w[..d + 1] == w[..d] + [w[d]];
    forall j | 0 <= j < |pairs|
      ensures PairSlots(lens, n, tr', pairs, j)
    {
      assert PairSlots(lens, n, tr, pairs, j);
    }
  }

  lemma Alloc(lens: seq<nat>, n: nat, lk: seq<int>, tr: seq<int>, pairs: seq<seq<bool>>, k: nat, d: nat)
    requires Used(lens, n) && lens[n] > FAST_BITS && d + 1 < lens[n]
    requires Transit(lens, n, lk, tr, pairs, d) && k < |pairs| && pairs[k] == Word(lens, n)[..d]
    requires 2 * |pairs| + 2 <= |tr| && Child(Word(lens, n), k, d) < |tr| && !Extends(lens, n, Word(lens, n)[..d + 1])
    ensures Transit(lens, n, lk, tr[Child(Word(lens, n), k, d) := PairRef(|pairs|)],
                    pairs + [Word(lens, n)[..d + 1]], d + 1)
  {
    var w := Word(lens, n);
    var q, i := w[..d + 1], Child(w, k, d);
    var tr', pairs' := tr[i := PairRef(|pairs|)], pairs + [q];
    PairsMore(lens, n, pairs, d + 1);
    LookMore(lens, n, lk, pairs, q);
    TreeMore(lens, n, tr, pairs, q);
    assert pairs'[|pairs|] == q && RefersTo(pairs', PairRef(|pairs|), q);
    TreeUpdate(lens, n, tr, pairs', w, k, d, PairRef(|pairs|));
    forall j | 0 <= j < |pairs'|
      ensures OnPath(tr', w, pairs'[j], j, d)
      ensures Inner(lens, n, pairs'[j]) || (pairs'[j] <= w && |pairs'[j]| <= d + 1)
    {
      if j < |pairs| {
        assert OnPath(tr, w, pairs[j], j, d);
        assert Inner(lens, n, pairs[j]) || (pairs[j] <= w && |pairs[j]| <= d);
      }
    }
    assert PairSlots(lens, n, tr', pairs', k);
    OnPathNext(tr', w, pairs', k, d);
  }

  lemma LookFinish(lens: seq<nat>, n: nat, lk: seq<int>, tr: seq<int>, pairs: seq<seq<bool>>, d: nat)
    requires Used(lens, n) && lens[n] > FAST_BITS && Transit(lens, n, lk, tr, pairs, d)
    ensures LookOk(lens, n + 1, lk, pairs)
  {
    forall x | 0 <= x < FAST_SIZE
      ensures LookSlot(lens, n + 1, pairs, lk[x], ToBits(x, FAST_BITS))
    {
      assert LookSlot(lens, n, pairs, lk[x], ToBits(x, FAST_BITS));
    }
  }

  lemma SlotFinish(lens: seq<nat>, n: nat, tr: seq<int>, pairs: seq<seq<bool>>, j: nat, b: nat)
    requires Used(lens, n) && b <= 1 && j < |pairs| && 2 * j + b < |tr|
    requires TreeSlot(lens, n, pairs, tr[2 * j + b], pairs[j] + [b == 1])
    requires OnPath(tr, Word(lens, n), pairs[j], j, lens[n] - 1)
    requires pairs[j] + [b == 1] != Word(lens, n)
    ensures TreeSlot(lens, n + 1, pairs, tr[2 * j + b], pairs[j] + [b == 1])
  {
    var w, q := Word(lens, n), pairs[j] + [b == 1];
    if q <= w {
      assert pairs[j] == q[..|pairs[j]|] == w[..|pairs[j]|];
      assert w[|pairs[j]|] == q[|pairs[j]|];
      SameLengthPrefix(w, q);
    }
  }

  lemma SlotAfter(lens: seq<nat>, n: nat, tr: seq<int>, tr': seq<int>, pairs: seq<seq<bool>>, k: nat, j: nat, b: nat)
    requires Used(lens, n) && b <= 1 && j < |pairs| && k < |pairs| && PairSlots(lens, n, tr, pairs, j)
    requires j != k ==> pairs[j] != pairs[k]
    requires OnPath(tr, Word(lens, n), pairs[j], j, lens[n] - 1)
    requires pairs[k] == Word(lens, n)[..lens[n] - 1] && Child(Word(lens, n), k, lens[n] - 1) < |tr|
    requires tr' == tr[Child(Word(lens, n), k, lens[n] - 1) := n]
    ensures TreeSlot(lens, n + 1, pairs, tr'[2 * j + b], pairs[j] + [b == 1])
  {
    var w, q := Word(lens, n), pairs[j] + [b == 1];
    assert w == w[..lens[n] - 1] + [w[lens[n] - 1]];
    if q == w {
      assert pairs[j] == q[..lens[n] - 1] && q[lens[n] - 1] == (b == 1);
    } else {
      SlotFinish(lens, n, tr, pairs, j, b);
    }
  }

  lemma TreeFinish(lens: seq<nat>, n: nat, tr: seq<int>, tr': seq<int>, pairs: seq<seq<bool>>, k: nat)
    requires Used(lens, n) && lens[n] > FAST_BITS && TreeOk(lens, n, tr, pairs)
    requires forall x, y | 0 <= x < y < |pairs| :: pairs[x] != pairs[y]
    requires forall j | 0 <= j < |pairs| :: OnPath(tr, Word(lens, n), pairs[j], j, lens[n] - 1)
    requires k < |pairs| && pairs[k] == Word(lens, n)[..lens[n] - 1] && Child(Word(lens, n), k, lens[n] - 1) < |tr|
    requires tr' == tr[Child(Word(lens, n), k, lens[n] - 1) := n]
    ensures TreeOk(lens, n + 1, tr', pairs)
  {
    var m := n + 1;
    forall j | 0 <= j < |pairs|
      ensures PairSlots(lens, m, tr', pairs, j)
    {
      assert PairSlots(lens, n, tr, pairs, j) && OnPath(tr, Word(lens, n), pairs[j], j, lens[n] - 1);
      SlotAfter(lens, n, tr, tr', pairs, k, j, 0);
      SlotAfter(lens, n, tr, tr', pairs, k, j, 1);
    }
    assert PairSlots(lens, n, tr, pairs, k);
  }

  lemma Finish(lens: seq<nat>, n: nat, lk: seq<int>, tr: seq<int>, pairs: seq<seq<bool>>, k: nat)
    requires Used(lens, n) && lens[n] > FAST_BITS && Transit(lens, n, lk, tr, pairs, lens[n] - 1)
    requires k < |pairs| && pairs[k] == Word(lens, n)[..lens[n] - 1] && Child(Word(lens, n), k, lens[n] - 1) < |tr|
    ensures Holds(lens, n + 1, lk, tr[Child(Word(lens, n), k, lens[n] - 1) := n], pairs)
  {
    LookFinish(lens, n, lk, tr, pairs, lens[n] - 1);
    TreeFinish(lens, n, tr, tr[Child(Word(lens, n), k, lens[n] - 1) := n], pairs, k);
  }

  // ---------------------------------------------------------------- the builder

  /** Reverses the `len` bits of a code. */
  method ReverseCode(code: nat, len: nat) returns (rev: nat)
    ensures rev == Val(MsbFirst(code, len))
  {
    rev := 0;
    var cur, l := code, len;
    ghost var t: seq<bool> := [];
    while l > 0
      invariant 0 <= l <= len
      invariant MsbFirst(code, len) == MsbFirst(cur, l) + t
      invariant rev == Val(t)
    {
      t := [cur % 2 == 1] + t;
      OrLow(rev, cur % 2);
      rev := Or(rev * 2, cur % 2);
      cur := cur / 2;
      l := l - 1;
    }
    assert [] + t == t;
  }

  lemma IndexBound(x: nat)
    ensures Low(x, FAST_BITS) < FAST_SIZE
  {
    PowersOfTwo();
    LowBound(x, FAST_BITS);
  }

  lemma RevIndex(w: seq<bool>)
    requires |w| > FAST_BITS
    ensures Low(Val(w), FAST_BITS) < FAST_SIZE && ToBits(Low(Val(w), FAST_BITS), FAST_BITS) == w[..FAST_BITS]
    ensures Shr(Val(w), FAST_BITS - 1) == Val(w[FAST_BITS - 1..])
  {
    IndexBound(Val(w));
    ValSplit(w, FAST_BITS);
    ValSplit(w, FAST_BITS - 1);
    ToBitsVal(w[..FAST_BITS]);
  }

  /** Halving the value of a word's tail moves to its next bit. */
  lemma NextBit(w: seq<bool>, d: nat)
    requires 0 < d < |w|
    ensures Val(w[d - 1..]) / 2 == Val(w[d..]) && Val(w[d..]) % 2 == Bit(w, d)
  {
    assert w[d - 1..][1..] == w[d..];
    Parity(Bit(w, d - 1), Val(w[d..]));
    ValHead(w[d..]);
  }

  lemma RoomFor(lens: seq<nat>, n: nat, pairs: seq<seq<bool>>, d: nat, size: nat)
    requires Accepted(lens) && Used(lens, n) && FAST_BITS <= d < lens[n] && PairsOk(lens, n + 1, pairs)
    requires forall k | 0 <= k < |pairs| :: Inner(lens, n, pairs[k]) || |pairs[k]| < d
    requires !Extends(lens, n, Word(lens, n)[..d]) && size >= 2 * |lens| && size >= 10
    ensures 2 * |pairs| + 2 <= size
  {
    PairsMore(lens, n, pairs, d);
    Room(lens, n + 1, pairs + [Word(lens, n)[..d]]);
  }

  lemma TransitRoom(lens: seq<nat>, n: nat, lk: seq<int>, tr: seq<int>, pairs: seq<seq<bool>>, d: nat)
    requires Accepted(lens) && Used(lens, n) && lens[n] > FAST_BITS && d + 1 < lens[n]
    requires Transit(lens, n, lk, tr, pairs, d) && !Extends(lens, n, Word(lens, n)[..d + 1])
    requires |tr| >= 2 * |lens| && |tr| >= 10
    ensures 2 * |pairs| + 2 <= |tr|
  {
    RoomFor(lens, n, pairs, d + 1, |tr|);
  }

  /** The first node pair of a long code, made if the table has none for its first ten bits. */
  method RootPair(lens: seq<nat>, n: nat, lookUp: array<int>, tree: array<int>, x: nat, treeNext: int,
                  ghost pairs: seq<seq<bool>>) returns (cur: int, next: int, ghost pairs': seq<seq<bool>>)
    requires Accepted(lens) && Used(lens, n) && lens[n] > FAST_BITS
    requires lookUp.Length == FAST_SIZE && tree.Length >= 2 * |lens| && tree.Length >= 10 && lookUp != tree
    requires x < FAST_SIZE && ToBits(x, FAST_BITS) == Word(lens, n)[..FAST_BITS]
    requires Holds(lens, n, lookUp[..], tree[..], pairs) && treeNext == PairRef(|pairs|)
    modifies lookUp
    ensures Transit(lens, n, lookUp[..], tree[..], pairs', FAST_BITS)
    ensures cur < 0 && RefersTo(pairs', cur, Word(lens, n)[..FAST_BITS]) && next == PairRef(|pairs'|)
  {
    AcceptedFits(lens);
    ghost var lk0, q := lookUp[..], Word(lens, n)[..FAST_BITS];
    pairs', next := pairs, treeNext;
    cur := lookUp[x];
    if cur == 0 {
      assert LookSlot(lens, n, pairs, lk0[x], q);
      PairsNext(lens, n, pairs);
      RoomFor(lens, n, pairs, FAST_BITS, tree.Length);
      AllocRoot(lens, n, lk0, tree[..], pairs, x);
      lookUp[x] := next;
      assert lookUp[..] == lk0[x := next];
      cur := next;
      next := next - 2;
      pairs' := pairs + [q];
      assert pairs'[|pairs|] == q;
    } else {
      EnterRoot(lens, n, lk0, tree[..], pairs, x);
      assert LookSlot(lens, n, pairs, lk0[x], q);
    }
  }

  /** One level down: along the next bit `b` of the word, making a node pair where there is none. */
  method StepDown(lens: seq<nat>, n: nat, ghost lk: seq<int>, tree: array<int>, from: int, b: nat, treeNext: int,
                  ghost pairs: seq<seq<bool>>, ghost d: nat)
    returns (cur: int, next: int, ghost pairs': seq<seq<bool>>)
    requires Accepted(lens) && Used(lens, n) && lens[n] > FAST_BITS && d + 1 < lens[n]
    requires tree.Length >= 2 * |lens| && tree.Length >= 10
    requires Transit(lens, n, lk, tree[..], pairs, d) && treeNext == PairRef(|pairs|)
    requires from < 0 && RefersTo(pairs, from, Word(lens, n)[..d]) && b == Bit(Word(lens, n), d)
    modifies tree
    ensures Transit(lens, n, lk, tree[..], pairs', d + 1)
    ensures cur < 0 && RefersTo(pairs', cur, Word(lens, n)[..d + 1]) && next == PairRef(|pairs'|)
  {
    AcceptedFits(lens);
    ghost var tr0, q := tree[..], Word(lens, n)[..d + 1];
    ghost var k: nat :| k < |pairs| && from == PairRef(k) && pairs[k] == Word(lens, n)[..d];
    pairs', next := pairs, treeNext;
    ChildIsPair(lens, n, lk, tr0, pairs, k, d);
    cur := from - b;
    var i := -cur - 1;
    assert i == Child(Word(lens, n), k, d);
    if tree[i] == 0 {
      TransitRoom(lens, n, lk, tr0, pairs, d);
      Alloc(lens, n, lk, tr0, pairs, k, d);
      tree[i] := next;
      assert tree[..] == tr0[i := next];
      cur := next;
      next := next - 2;
      pairs' := pairs + [q];
      assert pairs'[|pairs|] == q;
    } else {
      Descend(lens, n, lk, tr0, pairs, k, d);
      cur := tree[i];
    }
  }

  method StoreLeaf(lens: seq<nat>, n: nat, ghost lk: seq<int>, tree: array<int>, from: int, b: nat,
                   ghost pairs: seq<seq<bool>>)
    requires Used(lens, n) && lens[n] > FAST_BITS && Transit(lens, n, lk, tree[..], pairs, lens[n] - 1)
    requires from < 0 && RefersTo(pairs, from, Word(lens, n)[..lens[n] - 1])
    requires b == Bit(Word(lens, n), lens[n] - 1)
    modifies tree
    ensures Holds(lens, n + 1, lk, tree[..], pairs)
  {
    ghost var tr0, d := tree[..], lens[n] - 1;
    ghost var k: nat :| k < |pairs| && from == PairRef(k) && pairs[k] == Word(lens, n)[..d];
    ChildSlot(lens, n, tr0, pairs, Word(lens, n), k, d);
    Finish(lens, n, lk, tr0, pairs, k);
    var cur := from - b;
    var i := -cur - 1;
    assert i == Child(Word(lens, n), k, d);
    tree[i] := n;
    assert tree[..] == tr0[i := n];
  }

  /** Enters a code of more than ten bits: walks or makes the node pairs along it and stores the symbol. */
  method InsertLong(lens: seq<nat>, n: nat, lookUp: array<int>, tree: array<int>, treeNext: int, rev: nat,
                    ghost pairs: seq<seq<bool>>) returns (next: int, ghost pairs': seq<seq<bool>>)
    requires Accepted(lens) && Used(lens, n) && lens[n] > FAST_BITS && rev == Val(Word(lens, n))
    requires lookUp.Length == FAST_SIZE && tree.Length >= 2 * |lens| && tree.Length >= 10 && lookUp != tree
    requires Holds(lens, n, lookUp[..], tree[..], pairs) && treeNext == PairRef(|pairs|)
    modifies lookUp, tree
    ensures Holds(lens, n + 1, lookUp[..], tree[..], pairs') && next == PairRef(|pairs'|)
  {
    ghost var w := Word(lens, n);
    RevIndex(w);
    var cur;
    cur, next, pairs' := RootPair(lens, n, lookUp, tree, Low(rev, FAST_BITS), treeNext, pairs);
    ghost var lk := lookUp[..];
    var r := Shr(rev, FAST_BITS - 1);
    var j := lens[n];
    ghost var d := FAST_BITS;
    while j > FAST_BITS + 1
      invariant FAST_BITS < j && d + j == FAST_BITS + lens[n]
      invariant next == PairRef(|pairs'|) && cur < 0 && lookUp[..] == lk
      invariant Transit(lens, n, lk, tree[..], pairs', d)
      invariant RefersTo(pairs', cur, w[..d])
      invariant r == Val(w[d - 1..])
    {
      NextBit(w, d);
      r := r / 2;
      cur, next, pairs' := StepDown(lens, n, lk, tree, cur, r % 2, next, pairs', d);
      j, d := j - 1, d + 1;
    }
    NextBit(w, d);
    r := r / 2;
    StoreLeaf(lens, n, lk, tree, cur, r % 2, pairs');
  }

  lemma NineUp(x: nat)
    ensures Shl(x, 9) == 512 * x
  {
    assert Shl(x, 1) == 2 * x;
    assert Shl(x, 3) == 8 * x;
    assert Shl(x, 5) == 32 * x;
    assert Shl(x, 7) == 128 * x;
  }

  lemma EntryValue(n: nat, len: nat)
    requires n < 512
    ensures Or(n, Shl(len, 9)) == len * 512 + n
  {
    NineUp(len);
    NineUp(1);
    OrDisjoint(n, len, 9);
  }

  /** Enters a code of at most ten bits. */
  method InsertShort(lens: seq<nat>, n: nat, lookUp: array<int>, tree: array<int>, rev: nat,
                     ghost pairs: seq<seq<bool>>)
    requires ValidLens(lens) && Used(lens, n) && n < 512 && lens[n] <= FAST_BITS && rev == Val(Word(lens, n))
    requires lookUp.Length == FAST_SIZE && lookUp != tree && Holds(lens, n, lookUp[..], tree[..], pairs)
    modifies lookUp
    ensures Holds(lens, n + 1, lookUp[..], tree[..], pairs)
  {
    ghost var lk0 := lookUp[..];
    EntryValue(n, lens[n]);
    ValBound(Word(lens, n));
    FillShort(lookUp, rev, lens[n], Or(n, Shl(lens[n], 9)));
    forall x | 0 <= x < FAST_SIZE
      ensures lookUp[x] == if Word(lens, n) <= ToBits(x, FAST_BITS) then lens[n] * 512 + n else lk0[x]
    {
      PrefixIndex(Word(lens, n), x);
    }
    ShortStep(lens, n, lk0, lookUp[..], tree[..], pairs);
  }

  lemma EmptyHolds(lens: seq<nat>, lk: seq<int>, tr: seq<int>)
    requires |lk| == FAST_SIZE
    requires (forall x | 0 <= x < |lk| :: lk[x] == 0) && forall x | 0 <= x < |tr| :: tr[x] == 0
    ensures Holds(lens, 0, lk, tr, [])
  {
  }

  lemma UnusedStep(lens: seq<nat>, n: nat, lk: seq<int>, tr: seq<int>, pairs: seq<seq<bool>>)
    requires n < |lens| && lens[n] == 0 && Holds(lens, n, lk, tr, pairs)
    ensures Holds(lens, n + 1, lk, tr, pairs)
  {
    PairsNext(lens, n, pairs);
    forall x | 0 <= x < FAST_SIZE
      ensures LookSlot(lens, n + 1, pairs, lk[x], ToBits(x, FAST_BITS))
    {
      assert LookSlot(lens, n, pairs, lk[x], ToBits(x, FAST_BITS));
    }
    var m := n + 1;
    forall k | 0 <= k < |pairs|
      ensures PairSlots(lens, m, tr, pairs, k)
    {
      assert PairSlots(lens, n, tr, pairs, k);
    }
  }

  method CountLengths(lens: seq<nat>) returns (totalSyms: array<nat>)
    requires ValidLens(lens)
    ensures fresh(totalSyms) && totalSyms.Length == 16
    ensures forall k | 0 <= k < 16 :: totalSyms[k] == Count(lens, |lens|, k)
  {
    totalSyms := new nat[16](_ => 0);
    for i := 0 to |lens|
      invariant forall k | 0 <= k < 16 :: totalSyms[k] == Count(lens, i, k)
    {
      totalSyms[lens[i]] := totalSyms[lens[i]] + 1;
    }
  }

  /** The first code of every length, the Kraft total and the number of used symbols. */
  method FirstCodes(lens: seq<nat>) returns (nextCode: array<nat>, total: nat, usedSyms: nat)
    requires ValidLens(lens)
    ensures fresh(nextCode) && nextCode.Length == 17
    ensures forall k | 1 <= k <= 16 :: nextCode[k] == First(lens, k)
    ensures total == First(lens, 16) && usedSyms == UsedUpTo(lens, MAX_LEN)
  {
    var totalSyms := CountLengths(lens);
    nextCode := new nat[17](_ => 0);
    usedSyms, total := 0, 0;
    ghost var firsts := seq(17, (k: nat) => First(lens, k));
    var i := 1;
    while i <= 15
      invariant 1 <= i <= 16
      invariant total == firsts[i] && usedSyms == UsedUpTo(lens, i - 1)
      invariant forall k | 0 <= k < 16 :: totalSyms[k] == Count(lens, |lens|, k)
      invariant forall k | 1 <= k <= i :: nextCode[k] == firsts[k]
    {
      usedSyms := usedSyms + totalSyms[i];
      FirstStep(lens, i);
      total := (total + totalSyms[i]) * 2;
      nextCode[i + 1] := total;
      i := i + 1;
    }
  }

  lemma FirstStep(lens: seq<nat>, i: nat)
    requires i >= 1
    ensures First(lens, i + 1) == 2 * (First(lens, i) + Count(lens, |lens|, i))
    ensures UsedUpTo(lens, i) == UsedUpTo(lens, i - 1) + Count(lens, |lens|, i)
  {
  }

  /** The code numbers still to be given out once the first `n` symbols have theirs. */
  ghost predicate NextCodes(lens: seq<nat>, n: nat, nextCode: seq<nat>)
    requires n <= |lens|
  {
    |nextCode| == 17 && forall k | 1 <= k <= MAX_LEN :: nextCode[k] == First(lens, k) + Count(lens, n, k)
  }

  method InsertSymbol(lens: seq<nat>, n: nat, lookUp: array<int>, tree: array<int>, nextCode: array<nat>,
                      treeNext: int, ghost pairs: seq<seq<bool>>) returns (next: int, ghost pairs': seq<seq<bool>>)
    requires Accepted(lens) && n < |lens| <= MAX_SYMS && lookUp != tree
    requires lookUp.Length == FAST_SIZE && tree.Length >= 2 * |lens| && tree.Length >= 10
    requires Holds(lens, n, lookUp[..], tree[..], pairs) && treeNext == PairRef(|pairs|)
    requires NextCodes(lens, n, nextCode[..])
    modifies lookUp, tree, nextCode
    ensures Holds(lens, n + 1, lookUp[..], tree[..], pairs') && next == PairRef(|pairs'|)
    ensures NextCodes(lens, n + 1, nextCode[..])
  {
    next, pairs' := treeNext, pairs;
    var codeSize := lens[n];
    if codeSize == 0 {
      UnusedStep(lens, n, lookUp[..], tree[..], pairs);
      return;
    }
    var curCode := nextCode[codeSize];
    var revCode := ReverseCode(curCode, codeSize);
    ghost var codes := nextCode[..];
    nextCode[codeSize] := curCode + 1;
    assert nextCode[..] == codes[codeSize := curCode + 1];
    ghost var nextCodes := nextCode[..];
    if codeSize <= FAST_BITS {
      InsertShort(lens, n, lookUp, tree, revCode, pairs);
    } else {
      next, pairs' := InsertLong(lens, n, lookUp, tree, treeNext, revCode, pairs);
    }
    assert nextCode[..] == nextCodes;
  }

  /** Builds the decoding tables for the code lengths, or reports that they do not make a code. */
  method BuildTable(lens: seq<nat>, lookUp: array<int>, tree: array<int>) returns (ok: bool)
    requires ValidLens(lens) && |lens| <= MAX_SYMS
    requires lookUp.Length == FAST_SIZE && tree.Length >= 2 * |lens| && tree.Length >= 10 && lookUp != tree
    modifies lookUp, tree
    ensures ok == Accepted(lens)
    ensures ok ==> Represents(lens, lookUp[..], tree[..])
  {
    forall x | 0 <= x < lookUp.Length { lookUp[x] := 0; }
    forall x | 0 <= x < tree.Length { tree[x] := 0; }
    EmptyHolds(lens, lookUp[..], tree[..]);
    ok := true;
    var nextCode, total, usedSyms := FirstCodes(lens);
    if total != 65536 && usedSyms > 1 { return false; }
    var treeNext := -1;
    ghost var pairs: seq<seq<bool>> := [];
    var symIndex := 0;
    while symIndex < |lens|
      invariant 0 <= symIndex <= |lens|
      invariant Holds(lens, symIndex, lookUp[..], tree[..], pairs) && treeNext == PairRef(|pairs|)
      invariant NextCodes(lens, symIndex, nextCode[..])
    {
      treeNext, pairs := InsertSymbol(lens, symIndex, lookUp, tree, nextCode, treeNext, pairs);
      symIndex := symIndex + 1;
    }
  }
}
