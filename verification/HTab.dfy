/** The hash table in place: an array of slots, its mask, and the counts of used and dead slots. */
module HTab {
  import opened Bits
  import opened Probe
  import opened HashTable

  const MINSIZE: nat := 8
  const MAXSIZE: nat := 0x8000_0000_0000_0000

  /** What `calloc` can be asked for: slots of 24 bytes, counted in 64 bits. */
  type Room = n: nat | n <= 0x0aaa_aaaa_aaaa_aaaa

  method HashOf(key: Key) returns (h: nat)
    ensures h == KeyHash(key)
  {
    h := 0;
    var p := 0;
    while p < |key|
      invariant 0 <= p <= |key| && h == KeyHash(key[..p])
    {
      assert key[..p + 1][..p] == key[..p];
      h := Word(31 * h + key[p]);
      p := p + 1;
    }
    assert key[..p] == key;
  }

  lemma {:induction false} LowZero(n: nat)
    ensures Low(0, n) == 0
  {
    if n > 0 { LowZero(n - 1); }
  }

  lemma WordOf(x: nat)
    ensures Word(Word(x)) == Word(x)
  {
    hide Shl, Low;
    LowBound(x, 64);
    LowSmall(Low(x, 64), 64);
  }

  /** The least power of two from `MINSIZE` on that is at least `nel`. */
  method NewSize(nel: nat) returns (size: nat, ghost k: nat)
    ensures size == Shl(1, k) && k >= 3 && size >= nel && size >= MINSIZE
    ensures size == MINSIZE || size < 2 * nel
  {
    size, k := MINSIZE, 3;
    assert Shl(1, 1) == 2 && Shl(1, 2) == 4;
    while size < nel
      invariant size == Shl(1, k) && k >= 3 && size >= MINSIZE
      invariant size == MINSIZE || size < 2 * nel
      decreases nel - size
    {
      assert Shl(1, k + 1) == 2 * Shl(1, k);
      size, k := 2 * size, k + 1;
    }
  }

  lemma {:induction false} SizeBits(k: nat)
    requires Shl(1, k) <= MAXSIZE
    ensures k <= 63
  {
    if k > 63 {
      ShlGrows(1, 64, k);
      Power64();
      assert false;
    }
  }

  lemma Power64()
    ensures Shl(1, 64) == 2 * MAXSIZE
  {
    PowersOfTwo();
    ShlShl(1, 16, 16);
    ShlTimes(65536, 16);
    ShlShl(1, 32, 16);
    ShlTimes(0x1_0000_0000, 16);
    ShlShl(1, 48, 16);
    ShlTimes(0x1_0000_0000_0000, 16);
  }

  lemma {:induction false} ShlTimes(x: nat, n: nat)
    ensures Shl(x, n) == x * Shl(1, n)
  {
    if n > 0 { ShlTimes(x, n - 1); }
  }

  /** The slot for the running index: `&` with the mask of 2^k slots. */
  lemma SlotOf(h: nat, n: nat, k: nat)
    requires k <= 64
    ensures Shl(1, k) > 0 && And(Word(h + Tri(n)), Shl(1, k) - 1) == Path(h, n, k)
  {
    AndMask(Word(h + Tri(n)), k);
    LowLow(h + Tri(n), 64, k);
  }

  lemma NextIndex(h: nat, n: nat)
    ensures Word(Word(h + Tri(n)) + n + 1) == Word(h + Tri(n + 1))
  {
    LowAdd(h + Tri(n), n + 1, 64);
  }

  lemma FirstIndex(key: Key)
    ensures KeyHash(key) == Word(KeyHash(key) + Tri(0))
  {
    hide Low, Shl;
    LowZero(64);
    if key != [] { WordOf(31 * KeyHash(key[..|key| - 1]) + key[|key| - 1]); }
  }

  class HTab<V> {
    var elems: array<Elem<V>>
    var mask: nat
    var used: nat
    var dead: nat
    /** The table has 2^k slots. */
    ghost var k: nat
    /** By how many probes each key was placed. */
    ghost var steps: map<Key, nat>

    /** The slots hold the keys of `steps`; how full the table is does not matter. */
    ghost predicate Shape()
      reads this, elems
    {
      && 3 <= k <= 63
      && elems.Length == Shl(1, k) == mask + 1
      && Holds(elems[..], k, steps)
      && used == UsedIn(elems[..]) == |steps|
    }

    ghost predicate Valid()
      reads this, elems
    {
      Shape() && dead == DeadIn(elems[..]) && used + dead <= mask - mask / 4 && mask >= 7
    }

    /** The map the table stands for. */
    ghost function Map(): map<Key, V>
      reads this, elems
      requires Shape()
    {
      Contents(elems[..], k, steps)
    }

    /** An empty table of `size` slots. */
    constructor (size: nat, ghost k: nat)
      requires size == Shl(1, k) && 3 <= k <= 63 && size >= MINSIZE
      ensures Valid() && Map() == map[] && mask == size - 1 && fresh(elems)
    {
      elems := new Elem<V>[size](_ => Elem(None, None, 0));
      mask, used, dead, this.k, steps := size - 1, 0, 0, k, map[];
      new;
      CountFresh(elems[..]);
    }

    /** Creates a table for `nel` keys, unless memory does not suffice. */
    static method Create(nel: nat, room: Room) returns (r: HTab?<V>)
      ensures r != null ==> fresh(r) && fresh(r.elems) && r.Valid() && r.Map() == map[]
      ensures r != null ==> r.mask + 1 >= nel
      ensures r == null ==> 2 * nel > room || room < MINSIZE
    {
      var size, k := NewSize(if nel > MAXSIZE then MAXSIZE else nel);
      if size > room { return null; }
      SizeBits(k);
      r := new HTab(size, k);
    }

    /** The slot where the search for a key stops. The search ends because some slot is empty. */
    method Lookup(key: Key, hash: nat, mark: nat) returns (e: nat, ghost n: nat)
      requires Shape() && hash == KeyHash(key) && UsedIn(elems[..]) + DeadIn(elems[..]) < elems.Length
      ensures StopsAt(elems[..], k, key, mark, n) && e == Place(key, n, k) && e < elems.Length
    {
      hide Low, Shl, Word, And, Holds, UsedIn, DeadIn, Tri, KeyHash;
      ghost var last := SearchEnds(elems[..], k, steps, key, mark);
      var i, j := hash, 1;
      n := 0;
      FirstIndex(key);
      SlotOf(hash, 0, k);
      e := And(i, mask);
      while !Stops(elems[e], key, hash, mark)
        invariant n <= last && j == n + 1 && i == Word(hash + Tri(n)) && e == Place(key, n, k)
        invariant forall m | 0 <= m < n :: !Stops(elems[..][Place(key, m, k)], key, hash, mark)
        decreases last - n
      {
        NextIndex(hash, n);
        SlotOf(hash, n + 1, k);
        i := Word(i + j);
        j, n := j + 1, n + 1;
        e := And(i, mask);
      }
    }

    /** The slot of a key. A deleted slot has no key to compare with: no key may have the mark as its hash. */
    method FindElem(key: Key) returns (e: nat, found: bool)
      requires Valid() && KeyHash(key) != TOMB
      ensures found <==> key in steps
      ensures found ==> e == Place(key, steps[key], k)
    {
      var hash := HashOf(key);
      ghost var n;
      e, n := Lookup(key, hash, 0);
      SearchFinds(elems[..], k, steps, key, n);
      found := elems[e].key.Some?;
    }

    method Find(key: Key) returns (r: Option<V>)
      requires Valid() && KeyHash(key) != TOMB
      ensures r == if key in Map() then Some(Map()[key]) else None
    {
      var e, found := FindElem(key);
      if !found { return None; }
      assert Reached(elems[..], k, key, steps[key]) && Settled(elems[..], k, steps, e);
      r := elems[e].data;
    }

    method Delete(key: Key) returns (ok: bool)
      requires Valid() && KeyHash(key) != TOMB
      modifies this, elems
      ensures Valid() && elems == old(elems)
      ensures ok <==> key in old(Map())
      ensures Map() == old(Map()) - {key}
    {
      var e, found := FindElem(key);
      if !found { return false; }
      DeleteHolds(elems[..], k, steps, key);
      CountUpdate(elems[..], e, DeadElem(elems[e]));
      ghost var was := elems[..];
      elems[e] := DeadElem(elems[e]);
      assert elems[..] == was[e := elems[e]];
      steps := steps - {key};
      used := used - 1;
      dead := dead + 1;
      ok := true;
    }

    /** Moves all keys to a new table for `nel` of them. Without memory the table stays as it is. */
    method Resize(nel: nat, room: Room) returns (ok: bool)
      requires Shape() && used < nel
      modifies this
      ensures Shape() && used == old(used)
      ensures !ok ==> elems == old(elems) && elems[..] == old(elems[..]) && mask == old(mask)
                      && dead == old(dead) && k == old(k) && steps == old(steps)
      ensures ok ==> fresh(elems) && DeadIn(elems[..]) == 0 && nel <= mask + 1 && mask >= 7
      ensures Map() == old(Map())
      ensures 2 * nel <= room && MINSIZE <= room ==> ok
    {
      hide Low, Shl, Holds, UsedIn, DeadIn, Contents;
      var size, m := NewSize(if nel > MAXSIZE then MAXSIZE else nel);
      if size > room { return false; }
      SizeBits(m);
      var table := new Elem<V>[size](_ => Elem(None, None, 0));
      ghost var moved := MoveAll(table, size - 1, m);
      elems, mask, k, steps := table, size - 1, m, moved;
      ok := true;
    }

    method MoveAll(table: array<Elem<V>>, newMask: nat, ghost m: nat) returns (ghost moved: map<Key, nat>)
      requires Shape() && used < table.Length && table != elems
      requires table.Length == Shl(1, m) == newMask + 1 && m <= 63
      requires forall i | 0 <= i < table.Length :: Empty(table[i])
      modifies table
      ensures Holds(table[..], m, moved) && |moved| == |steps|
      ensures Contents(table[..], m, moved) == Map()
      ensures UsedIn(table[..]) == used && DeadIn(table[..]) == 0
    {
      hide Low, Shl, Word, And, Holds, UsedIn, DeadIn, Tri, KeyHash, Contents;
      ghost var t := elems[..];
      moved := map[];
      MovedNone(t, k, steps, table[..], m);
      var e := 0;
      while e < elems.Length
        invariant 0 <= e <= elems.Length && elems[..] == t
        invariant Moved(t, k, steps, table[..], m, moved, e)
      {
        if elems[e].key.Some? {
          var key := elems[e].key.value;
          SettledAt(t, k, steps, e);
          UsedPrefix(t, e);
          ghost var n;
          var p;
          p, n := FreeSlot(table, newMask, elems[e].hash, key, m, moved);
          MovedOne(t, k, steps, table[..], m, moved, e, key, n);
          ghost var was := table[..];
          table[p] := elems[e];
          assert table[..] == was[p := elems[e]];
          moved := moved[key := n];
        } else {
          MovedSkip(t, k, steps, table[..], m, moved, e);
        }
        e := e + 1;
      }
      MovedAll(t, k, steps, table[..], m, moved);
    }

    /** The first free slot on the way of a key in the new table. */
    static method FreeSlot(table: array<Elem<V>>, mask: nat, hash: nat, ghost key: Key, ghost m: nat,
                           ghost moved: map<Key, nat>)
      returns (p: nat, ghost n: nat)
      requires table.Length == Shl(1, m) == mask + 1 && m <= 63 && hash == KeyHash(key)
      requires Holds(table[..], m, moved) && NoTombs(table[..]) && UsedIn(table[..]) < table.Length
      ensures n < table.Length && p == Place(key, n, m) && table[p].key.None?
      ensures forall i | 0 <= i < n :: table[Place(key, i, m)].key.Some?
    {
      hide Low, Shl, Word, And, Holds, UsedIn, DeadIn, Tri, KeyHash;
      NoTombsCount(table[..]);
      ghost var last := SearchEndsFree(table[..], m, moved, key);
      var i, j := hash, 1;
      n := 0;
      FirstIndex(key);
      SlotOf(hash, 0, m);
      p := And(i, mask);
      while table[p].key.Some?
        invariant n <= last && j == n + 1 && i == Word(hash + Tri(n)) && p == Place(key, n, m)
        invariant forall q | 0 <= q < n :: table[Place(key, q, m)].key.Some?
        decreases last - n
      {
        NextIndex(hash, n);
        SlotOf(hash, n + 1, m);
        i := Word(i + j);
        j, n := j + 1, n + 1;
        p := And(i, mask);
      }
    }

    lemma InMap()
      requires Shape()
      ensures forall q :: q in steps <==> q in Map()
    {
    }

    /** Fills the slot `e`, where the search for the key stopped. */
    method Put(e: nat, ghost n: nat, key: Key, value: V, hash: nat)
      requires Shape() && hash == KeyHash(key) && key !in steps
      requires StopsAt(elems[..], k, key, TOMB, n) && e == Place(key, n, k) && e < elems.Length
      requires elems[e].key.None?
      modifies this`used, this`steps, elems
      ensures Shape() && used == old(used) + 1 && Map() == old(Map())[key := value]
      ensures DeadIn(elems[..]) == old(DeadIn(elems[..])) - (if old(elems[e]).hash == TOMB then 1 else 0)
      ensures elems[..] == old(elems[..])[e := NewElem(key, value)]
    {
      hide Low, Shl, Holds, UsedIn, DeadIn, KeyHash, Place, StopsAt, Contents, Reached;
      ghost var before := elems[..];
      CountUpdate(before, e, NewElem(key, value));
      InsertHolds(before, k, steps, key, n, value);
      SettledAt(before, k, steps, e);
      elems[e] := Elem(Some(key), Some(value), hash);
      assert elems[..] == before[e := NewElem(key, value)];
      steps := steps[key := n];
      used := used + 1;
    }

    /** Adds a key. An existing one is not overwritten; a table that gets too full is replaced by a larger one. */
    method Insert(key: Key, value: V, room: Room) returns (ok: bool)
      requires Valid() && !Shadowed(elems[..], k, steps, key)
      modifies this, elems
      ensures Valid() && (elems == old(elems) || fresh(elems))
      ensures ok ==> key !in old(Map()) && Map() == old(Map())[key := value]
      ensures !ok ==> Map() == old(Map())
      ensures key !in old(Map()) && 4 * (old(used) + 1) <= room && MINSIZE <= room ==> ok
    {
      hide Low, Shl, Holds, UsedIn, DeadIn, KeyHash, Place, StopsAt, Shadowed, Contents, Reached, Settled;
      InMap();
      var hash := HashOf(key);
      ghost var n;
      var e;
      e, n := Lookup(key, hash, TOMB);
      SearchStopsEarly(elems[..], k, steps, key, n);
      if elems[e].key.Some? { return false; }
      var was := elems[e];
      Put(e, n, key, value, hash);
      if used + dead > mask - mask / 4 {
        var grown := Resize(2 * used, room);
        if !grown {
          used := used - 1;
          elems[e] := Elem(None, was.data, was.hash);
          steps := old(steps);
          assert elems[..] == old(elems[..]);
          return false;
        }
        dead := 0;
      } else if was.hash == TOMB {
        dead := dead - 1;
      }
      ok := true;
    }

    /** The next used slot from `start` on: its key and data, and where to go on; 0 at the end. */
    method Next(start: nat) returns (next: nat, key: Option<Key>, data: Option<V>)
      ensures next == NextIn(elems[..], start)
      ensures next > 0 ==> next <= elems.Length && key == elems[next - 1].key && data == elems[next - 1].data
    {
      var i := start;
      while i < elems.Length
        invariant NextIn(elems[..], start) == NextIn(elems[..], i)
        decreases elems.Length - i
      {
        if elems[i].key.Some? { return i + 1, elems[i].key, elems[i].data; }
        i := i + 1;
      }
      next, key, data := 0, None, None;
    }
  }

  lemma SettledAt<V>(t: seq<Elem<V>>, k: nat, steps: map<Key, nat>, i: nat)
    requires Holds(t, k, steps) && i < |t|
    ensures Settled(t, k, steps, i)
  {
  }

  lemma SearchEndsFree<V>(t: seq<Elem<V>>, m: nat, moved: map<Key, nat>, key: Key) returns (j: nat)
    requires Holds(t, m, moved) && UsedIn(t) + DeadIn(t) < |t|
    ensures j < |t| && t[Place(key, j, m)].key.None?
  {
    assert t[..|t|] == t;
    var s := SomeEmpty(t, m, moved, |t|);
    j := EverySlot(KeyHash(key), m, s);
  }

  // ---------------------------------------------------------------- walking over the table

  function NextIn<V>(t: seq<Elem<V>>, i: nat): (next: nat)
    ensures next > 0 ==> i < next <= |t| && t[next - 1].key.Some?
    decreases |t| - i
  {
    if i >= |t| then 0 else if t[i].key.Some? then i + 1 else NextIn(t, i + 1)
  }

  /** The keys a caller sees who goes on until 0 comes back. */
  function Walk<V>(t: seq<Elem<V>>, i: nat): seq<Key>
    decreases |t| - i
  {
    var next := NextIn(t, i);
    if next == 0 then [] else [t[next - 1].key.value] + Walk(t, next)
  }

  lemma {:induction false} NextMisses<V>(t: seq<Elem<V>>, i: nat, p: nat)
    requires i <= p < |t| && t[p].key.Some?
    ensures 0 < NextIn(t, i) <= p + 1
    decreases |t| - i
  {
    if i < p && t[i].key.None? { NextMisses(t, i + 1, p); }
  }

  lemma {:induction false} WalkSees<V>(t: seq<Elem<V>>, i: nat, p: nat)
    requires i <= p < |t| && t[p].key.Some?
    ensures t[p].key.value in Walk(t, i)
    decreases |t| - i
  {
    NextMisses(t, i, p);
    if NextIn(t, i) <= p { WalkSees(t, NextIn(t, i), p); }
  }

  lemma {:induction false} WalkFrom<V>(t: seq<Elem<V>>, k: nat, steps: map<Key, nat>, i: nat)
    requires Holds(t, k, steps)
    ensures forall q | q in Walk(t, i) :: q in steps && Place(q, steps[q], k) >= i
    ensures forall a, b | 0 <= a < b < |Walk(t, i)| :: Walk(t, i)[a] != Walk(t, i)[b]
    decreases |t| - i
  {
    var next := NextIn(t, i);
    if next > 0 {
      WalkFrom(t, k, steps, next);
      assert Settled(t, k, steps, next - 1);
    }
  }

  /** A walk over the table yields every key once. */
  lemma WalkYieldsEachKeyOnce<V>(t: seq<Elem<V>>, k: nat, steps: map<Key, nat>)
    requires Holds(t, k, steps)
    ensures forall q :: q in Walk(t, 0) <==> q in Contents(t, k, steps)
    ensures forall a, b | 0 <= a < b < |Walk(t, 0)| :: Walk(t, 0)[a] != Walk(t, 0)[b]
  {
    WalkFrom(t, k, steps, 0);
    forall q | q in steps ensures q in Walk(t, 0) {
      assert Reached(t, k, q, steps[q]);
      WalkSees(t, 0, Place(q, steps[q], k));
    }
  }

  // ---------------------------------------------------------------- an insert behind a deleted slot

  lemma TakenOut<K, V>(m: map<K, V>, a: K, x: V, b: K, y: V)
    requires a !in m && a != b
    ensures m[a := x][b := y] - {a} == m[b := y]
  {
  }

  /** Two keys that start at the same slot go in one after the other and the first one out again: then another insert
      of the second key takes the deleted slot before it. The key is in the table twice, and no map describes that. */
  lemma InsertTwice<V>(t: seq<Elem<V>>, k: nat, steps: map<Key, nat>, a: Key, b: Key, j: nat, x: V, y: V, z: V)
    requires Holds(t, k, steps) && a !in steps && b !in steps && a != b && Place(a, 0, k) == Place(b, 0, k)
    requires StopsAt(t, k, a, TOMB, 0)
    requires StopsAt(t[Place(a, 0, k) := NewElem(a, x)], k, b, TOMB, j)
    ensures var t2 := t[Place(a, 0, k) := NewElem(a, x)][Place(b, j, k) := NewElem(b, y)];
            var t3, steps3 := t2[Place(a, 0, k) := DeadElem(t2[Place(a, 0, k)])], steps[b := j];
            && Holds(t3, k, steps3) && Contents(t3, k, steps3) == Contents(t, k, steps)[b := y]
            && Shadowed(t3, k, steps3, b) && StopsAt(t3, k, b, TOMB, 0)
            && !IsTable(t3[Place(b, 0, k) := NewElem(b, z)], k)
  {
    hide Reached, Settled;
    var p := Place(a, 0, k);
    var t1, steps1 := t[p := NewElem(a, x)], steps[a := 0];
    InsertHolds(t, k, steps, a, 0, x);
    InsertHolds(t1, k, steps1, b, j, y);
    var t2, steps2 := t1[Place(b, j, k) := NewElem(b, y)], steps1[b := j];
    DeleteHolds(t2, k, steps2, a);
    var t3, steps3 := t2[p := DeadElem(t2[p])], steps[b := j];
    TakenOut(steps, a, 0, b, j);
    TakenOut(Contents(t, k, steps), a, x, b, y);
    assert j > 0 && Tomb(t3[Place(b, 0, k)]);
    InsertHoldsIff(t3, k, steps3, b, 0, z);
  }

  function NoElem(): Elem<int> { Elem(None, None, 0) }

  /** In a new table of 8 slots "a" and "i" are two such keys. */
  lemma TwoKeys()
    ensures var t := seq(8, _ => NoElem());
            var a, b := [97], [105];
            && Holds(t, 3, map[]) && StopsAt(t, 3, a, TOMB, 0) && Place(a, 0, 3) == Place(b, 0, 3)
            && StopsAt(t[Place(a, 0, 3) := NewElem(a, 1)], 3, b, TOMB, 1)
  {
    ShortHash(97);
    ShortHash(105);
    assert Shl(1, 3) == 8 && Tri(1) == 1;
    assert Low(97, 3) == 1 && Low(105, 3) == 1 && Low(106, 3) == 2;
  }

  lemma ShortHash(c: Char)
    ensures KeyHash([c]) == c
  {
    assert [c][..0] == [];
    assert KeyHash([c]) == Word(c);
    Small64(c);
  }

  lemma Small64(x: nat)
    requires x < 256
    ensures Word(x) == x
  {
    hide Low, Shl;
    Power64();
    LowSmall(x, 64);
  }
}
