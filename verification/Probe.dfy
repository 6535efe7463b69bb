/** Triangular probing: on a table of 2^k slots the probes h, h + 1, h + 3, h + 6, ... visit every slot once. */
module Probe {
  import opened Bits

  /** The offset of probe `j`. */
  function Tri(j: nat): nat { if j == 0 then 0 else Tri(j - 1) + j }

  /** The slot of probe `j` for the hash `h` on 2^k slots. */
  function Path(h: nat, j: nat, k: nat): (s: nat)
    ensures s < Shl(1, k)
  {
    LowBound(h + Tri(j), k);
    Low(h + Tri(j), k)
  }

  /** The bits two numbers have in common, as `&` computes them. */
  function And(a: nat, b: nat): nat {
    if b == 0 then 0 else (if a % 2 == 1 && b % 2 == 1 then 1 else 0) + 2 * And(a / 2, b / 2)
  }

  /** The mask of a table of 2^k slots keeps the low k bits. */
  lemma {:induction false} AndMask(a: nat, k: nat)
    ensures Shl(1, k) > 0 && And(a, Shl(1, k) - 1) == Low(a, k)
  {
    if k > 0 {
      AndMask(a / 2, k - 1);
      ShlDouble(1, k - 1);
    }
  }

  // ---------------------------------------------------------------- arithmetic of the low bits

  lemma {:induction false} LowLow(x: nat, m: nat, n: nat)
    requires n <= m
    ensures Low(Low(x, m), n) == Low(x, n)
  {
    if n > 0 { LowLow(x / 2, m - 1, n - 1); }
  }

  /** A number is its low bits and a multiple of 2^n. */
  lemma {:induction false} LowRest(x: nat, n: nat)
    ensures x == Low(x, n) + Shl(Shr(x, n), n)
  {
    if n > 0 {
      LowRest(x / 2, n - 1);
      ShlDouble(Shr(x / 2, n - 1), n - 1);
    }
  }

  lemma {:induction false} LowMultiple(y: nat, q: nat, n: nat)
    ensures Low(y + Shl(q, n), n) == Low(y, n)
  {
    if q == 0 {
      ShlZero(n);
    } else {
      ShlAdd(q - 1, 1, n);
      LowStep(y + Shl(q - 1, n), n);
      LowMultiple(y, q - 1, n);
    }
  }

  /** Wrapping the running index to 64 bits does not change the slot. */
  lemma LowAdd(x: nat, y: nat, n: nat)
    ensures Low(Low(x, n) + y, n) == Low(x + y, n)
  {
    LowRest(x, n);
    LowMultiple(Low(x, n) + y, Shr(x, n), n);
  }

  // ---------------------------------------------------------------- no slot twice

  /** If an odd number times `y` is a multiple of 2^n, `y` is one. */
  lemma {:induction false} OddFactor(x: nat, y: nat, c: nat, n: nat) returns (d: nat)
    requires x % 2 == 1 && x * y == Shl(c, n)
    ensures y == Shl(d, n)
  {
    if n == 0 {
      d := y;
    } else {
      ShlDouble(c, n - 1);
      var half := EvenFactor(x, y, Shl(c, n - 1));
      d := OddFactor(x, half, c, n - 1);
      ShlDouble(d, n - 1);
    }
  }

  lemma OddProduct(p: nat, q: nat)
    ensures (2 * p + 1) * (2 * q + 1) == 2 * (2 * (p * q) + p + q) + 1
  {
  }

  lemma EvenFactor(x: nat, y: nat, z: nat) returns (half: nat)
    requires x % 2 == 1 && x * y == 2 * z
    ensures y == 2 * half && x * half == z
  {
    half := y / 2;
    assert x == 2 * (x / 2) + 1;
    OddProduct(x / 2, half);
    assert y == 2 * half;
    assert x * y == 2 * (x * half);
  }

  lemma {:induction false} TriDouble(j: nat)
    ensures 2 * Tri(j) == j * (j + 1)
  {
    if j > 0 { TriDouble(j - 1); }
  }

  /** Twice the distance of two offsets is a product of numbers of different parity. */
  lemma TriDistance(a: nat, b: nat)
    requires b < a
    ensures Tri(a) > Tri(b) && 2 * (Tri(a) - Tri(b)) == (a - b) * (a + b + 1)
  {
    TriDouble(a);
    TriDouble(b);
    assert a * (a + 1) - b * (b + 1) == (a - b) * (a + b + 1);
  }

  lemma SmallMultiple(y: nat, d: nat, n: nat)
    requires 0 < y < Shl(1, n)
    ensures y != Shl(d, n)
  {
    if d == 0 { ShlZero(n); } else { ShlMono(1, d, n); }
  }

  /** Equal low bits: the distance is a multiple of 2^n. */
  lemma LowDistance(x: nat, y: nat, n: nat) returns (c: nat)
    requires x >= y && Low(x, n) == Low(y, n)
    ensures x - y == Shl(c, n)
  {
    LowRest(x, n);
    LowRest(y, n);
    if Shr(x, n) < Shr(y, n) {
      ShlMono(Shr(x, n), Shr(y, n), n);
      c := 0;
      ShlZero(n);
    } else {
      c := Shr(x, n) - Shr(y, n);
      ShlAdd(c, Shr(y, n), n);
    }
  }

  lemma NoMultiple(u: nat, v: nat, c: nat, n: nat)
    requires u % 2 == 1 && 0 < v < Shl(1, n)
    ensures u * v != Shl(c, n)
  {
    if u * v == Shl(c, n) {
      var d := OddFactor(u, v, c, n);
      SmallMultiple(v, d, n);
    }
  }

  /** Two different probes of a round are at different slots. */
  lemma PathDistinct(h: nat, a: nat, b: nat, k: nat)
    requires b < a < Shl(1, k)
    ensures Path(h, a, k) != Path(h, b, k)
  {
    hide Tri, Shl, Low;
    TriDistance(a, b);
    if Low(h + Tri(a), k) == Low(h + Tri(b), k) {
      var c := LowDistance(h + Tri(a), h + Tri(b), k);
      NextPower(c, k);
      NextPower(1, k);
      var u, v := a - b, a + b + 1;
      assert u * v == Shl(c, k + 1) && v * u == u * v;
      if u % 2 == 1 { NoMultiple(u, v, c, k + 1); } else { NoMultiple(v, u, c, k + 1); }
    }
  }

  lemma NextPower(c: nat, k: nat)
    ensures Shl(c, k + 1) == 2 * Shl(c, k)
  {
  }

  // ---------------------------------------------------------------- every slot once

  function Visited(h: nat, n: nat, k: nat): (s: set<nat>)
    ensures forall x <- s :: x < Shl(1, k)
  {
    if n == 0 then {} else Visited(h, n - 1, k) + {Path(h, n - 1, k)}
  }

  lemma {:induction false} VisitedBy(h: nat, n: nat, k: nat, s: nat) returns (j: nat)
    requires s in Visited(h, n, k)
    ensures j < n && Path(h, j, k) == s
  {
    if s == Path(h, n - 1, k) { j := n - 1; } else { j := VisitedBy(h, n - 1, k, s); }
  }

  lemma {:induction false} VisitedCount(h: nat, n: nat, k: nat)
    requires n <= Shl(1, k)
    ensures |Visited(h, n, k)| == n
  {
    if n > 0 {
      VisitedCount(h, n - 1, k);
      if Path(h, n - 1, k) in Visited(h, n - 1, k) {
        var j := VisitedBy(h, n - 1, k, Path(h, n - 1, k));
        PathDistinct(h, n - 1, j, k);
      }
    }
  }

  function Below(n: nat): (s: set<nat>)
    ensures forall x :: x in s <==> 0 <= x < n
    ensures |s| == n
  {
    if n == 0 then {} else Below(n - 1) + {n - 1}
  }

  lemma FullSubset(a: set<nat>, b: set<nat>)
    requires a <= b && |a| == |b|
    ensures a == b
  {
    if a != b {
      var x :| x in b && x !in a;
      SubsetSize(a, b - {x});
    }
  }

  lemma {:induction false} SubsetSize(a: set<nat>, b: set<nat>)
    requires a <= b
    ensures |a| <= |b|
  {
    if a != {} {
      var x :| x in a;
      SubsetSize(a - {x}, b - {x});
    }
  }

  /** Every slot is visited within as many probes as there are slots. */
  lemma EverySlot(h: nat, k: nat, s: nat) returns (j: nat)
    requires s < Shl(1, k)
    ensures j < Shl(1, k) && Path(h, j, k) == s
  {
    var n := Shl(1, k);
    VisitedCount(h, n, k);
    FullSubset(Visited(h, n, k), Below(n));
    j := VisitedBy(h, n, k, s);
  }
}
