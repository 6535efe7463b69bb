/** Numbers as little-endian bit strings: the shifts and masks behind the inflate bit buffer. */
module Bits {

  type byte = x: int | 0 <= x < 256

  /** `x << n` without overflow. */
  function Shl(x: nat, n: nat): nat {
    if n == 0 then x else 2 * Shl(x, n - 1)
  }

  /** `x >> n`. */
  function Shr(x: nat, n: nat): nat {
    if n == 0 then x else Shr(x / 2, n - 1)
  }

  /** `x & ((1 << n) - 1)`. */
  function Low(x: nat, n: nat): nat {
    if n == 0 then 0 else x % 2 + 2 * Low(x / 2, n - 1)
  }

  /** `a | b`. */
  function Or(a: nat, b: nat): nat
    decreases a + b
  {
    if a == 0 then b
    else if b == 0 then a
    else (if a % 2 == 1 || b % 2 == 1 then 1 else 0) + 2 * Or(a / 2, b / 2)
  }

  function Bit(w: seq<bool>, i: nat): nat
    requires i < |w|
  {
    if w[i] then 1 else 0
  }

  /** The value of a bit string whose first bit is the least significant one. */
  function Val(w: seq<bool>): nat {
    if w == [] then 0 else Bit(w, 0) + 2 * Val(w[1..])
  }

  /** The `n` lowest bits of `x`, least significant first. */
  function ToBits(x: nat, n: nat): (w: seq<bool>)
    ensures |w| == n
  {
    if n == 0 then [] else [x % 2 == 1] + ToBits(x / 2, n - 1)
  }

  // ---------------------------------------------------------------- shifts

  lemma {:induction false} ShlAdd(a: nat, b: nat, n: nat)
    ensures Shl(a + b, n) == Shl(a, n) + Shl(b, n)
  {
    if n > 0 { ShlAdd(a, b, n - 1); }
  }

  lemma {:induction false} ShlShl(x: nat, m: nat, n: nat)
    ensures Shl(Shl(x, m), n) == Shl(x, m + n)
  {
    if n > 0 { ShlShl(x, m, n - 1); }
  }

  lemma {:induction false} ShlMono(a: nat, b: nat, n: nat)
    requires a <= b
    ensures Shl(a, n) <= Shl(b, n)
    ensures a < b ==> Shl(a, n) + Shl(1, n) <= Shl(b, n)
  {
    if n > 0 { ShlMono(a, b, n - 1); }
  }

  lemma {:induction false} ShlGrows(x: nat, m: nat, n: nat)
    requires m <= n
    ensures x <= Shl(x, m) <= Shl(x, n)
  {
    if m < n {
      ShlGrows(x, m, n - 1);
    } else if m > 0 {
      ShlGrows(x, m - 1, m - 1);
    }
  }

  lemma {:induction false} ShlDouble(x: nat, n: nat)
    ensures Shl(2 * x, n) == 2 * Shl(x, n)
  {
    if n > 0 { ShlDouble(x, n - 1); }
  }

  lemma {:induction false} ShlZero(n: nat)
    ensures Shl(0, n) == 0
  {
    if n > 0 { ShlZero(n - 1); }
  }

  /** A number of at least `q << n` stays at least `q` when shifted back. */
  lemma {:induction false} ShrLower(x: nat, q: nat, n: nat)
    requires x >= Shl(q, n)
    ensures Shr(x, n) >= q
  {
    if n > 0 { ShrLower(x / 2, q, n - 1); }
  }

  lemma PowersOfTwo()
    ensures Shl(1, 4) == 16 && Shl(1, 5) == 32 && Shl(1, 8) == 256 && Shl(1, 10) == 1024
    ensures Shl(1, 15) == 32768 && Shl(1, 16) == 65536
  {
    assert Shl(1, 3) == 8;
    assert Shl(1, 6) == 64;
    assert Shl(1, 12) == 4096;
  }

  // ---------------------------------------------------------------- masks

  lemma {:induction false} LowBound(x: nat, n: nat)
    ensures Low(x, n) < Shl(1, n)
  {
    if n > 0 { LowBound(x / 2, n - 1); }
  }

  lemma {:induction false} LowStep(x: nat, n: nat)
    ensures Low(x + Shl(1, n), n) == Low(x, n)
  {
    if n > 0 {
      LowStep(x / 2, n - 1);
      assert (x + 2 * Shl(1, n - 1)) / 2 == x / 2 + Shl(1, n - 1);
    }
  }

  /** The next number with the same low bits is `1 << n` away. */
  lemma {:induction false} LowGap(x: nat, y: nat, n: nat)
    requires x < y < x + Shl(1, n)
    ensures Low(x, n) != Low(y, n)
  {
    if n > 0 && x % 2 == y % 2 {
      assert x / 2 < y / 2 < x / 2 + Shl(1, n - 1);
      LowGap(x / 2, y / 2, n - 1);
    }
  }

  lemma {:induction false} LowSmall(x: nat, n: nat)
    requires x < Shl(1, n)
    ensures Low(x, n) == x
  {
    if n > 0 { LowSmall(x / 2, n - 1); }
  }

  // ---------------------------------------------------------------- bit strings

  lemma {:induction false} ValBound(w: seq<bool>)
    ensures Val(w) < Shl(1, |w|)
  {
    if w != [] { ValBound(w[1..]); }
  }

  lemma {:induction false} ValAppend(a: seq<bool>, b: seq<bool>)
    ensures Val(a + b) == Val(a) + Shl(Val(b), |a|)
  {
    if a == [] {
      assert a + b == b;
    } else {
      assert (a + b)[1..] == a[1..] + b;
      ValAppend(a[1..], b);
    }
  }

  /** Masking and shifting a bit string's value are taking and dropping its first bits. */
  lemma {:induction false} ValSplit(w: seq<bool>, k: nat)
    requires k <= |w|
    ensures Low(Val(w), k) == Val(w[..k])
    ensures Shr(Val(w), k) == Val(w[k..])
  {
    if k == 0 {
      assert w[k..] == w;
    } else {
      ValSplit(w[1..], k - 1);
      assert w[1..][..k - 1] == w[..k][1..] && w[1..][k - 1..] == w[k..];
    }
  }

  lemma {:induction false} ValInjective(a: seq<bool>, b: seq<bool>)
    requires |a| == |b| && Val(a) == Val(b)
    ensures a == b
  {
    if a != [] {
      ValInjective(a[1..], b[1..]);
      assert a == [a[0]] + a[1..] && b == [b[0]] + b[1..];
    }
  }

  lemma {:induction false} ValToBits(x: nat, n: nat)
    requires x < Shl(1, n)
    ensures Val(ToBits(x, n)) == x
  {
    if n != 0 {
      ValToBits(x / 2, n - 1);
      assert ToBits(x, n)[1..] == ToBits(x / 2, n - 1);
    }
  }

  lemma ToBitsVal(w: seq<bool>)
    ensures ToBits(Val(w), |w|) == w
  {
    ValBound(w);
    ValToBits(Val(w), |w|);
    ValInjective(ToBits(Val(w), |w|), w);
  }

  lemma {:induction false} ValHead(w: seq<bool>)
    requires w != []
    ensures Val(w) % 2 == Bit(w, 0)
  {
    Parity(Bit(w, 0), Val(w[1..]));
  }

  lemma Parity(b: nat, x: nat)
    requires b <= 1
    ensures (b + 2 * x) % 2 == b && (b + 2 * x) / 2 == x
  {
  }

  lemma ValBit(w: seq<bool>, n: nat)
    requires n < |w|
    ensures Shr(Val(w), n) % 2 == Bit(w, n)
  {
    ValSplit(w, n);
    ValHead(w[n..]);
  }

  /** Or-ing in a value shifted past all set bits is an addition. */
  lemma {:induction false} OrDisjoint(a: nat, c: nat, n: nat)
    requires a < Shl(1, n)
    ensures Or(a, Shl(c, n)) == a + Shl(c, n)
  {
    if n == 0 || a == 0 || Shl(c, n) == 0 {
    } else {
      OrDisjoint(a / 2, c, n - 1);
    }
  }

  lemma OrLow(r: nat, b: nat)
    requires b <= 1
    ensures Or(r * 2, b) == r * 2 + b
  {
    assert Or(r, 0) == r;
  }

  /** A bit buffer grows at its high end. */
  lemma AppendOr(a: seq<bool>, b: seq<bool>)
    ensures Val(a + b) == Or(Val(a), Shl(Val(b), |a|))
  {
    ValAppend(a, b);
    ValBound(a);
    OrDisjoint(Val(a), Val(b), |a|);
  }
}
