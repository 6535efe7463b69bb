/** The open-addressing hash table as a value: slots, tombstones, and what it means that a table holds a map. */
module HashTable {
  import opened Bits
  import opened Probe

  datatype Option<+T> = None | Some(value: T)

  type Char = c: int | 0 < c < 256 witness 1

  /** A C string without its final zero. */
  type Key = seq<Char>

  /** The hash a deleted slot is marked with. */
  const TOMB: nat := 0xdeadc0de

  /** `size_t` arithmetic: the low 64 bits. */
  function Word(x: nat): nat { Low(x, 64) }

  function KeyHash(key: Key): nat {
    if key == [] then 0 else Word(31 * KeyHash(key[..|key| - 1]) + key[|key| - 1])
  }

  datatype Elem<V> = Elem(key: Option<Key>, data: Option<V>, hash: nat)

  predicate Empty<V>(e: Elem<V>) { e.key.None? && e.hash == 0 }

  predicate Tomb<V>(e: Elem<V>) { e.key.None? && e.hash == TOMB }

  /** Where the key `q` stands when it was placed by probe `j`. */
  function Place(q: Key, j: nat, k: nat): nat { Path(KeyHash(q), j, k) }

  /** The table of 2^k slots holds exactly the keys of `steps`, each placed by the probe number given there: no
      slot on the way to it is empty, so a search gets to it. */
  ghost predicate Holds<V>(t: seq<Elem<V>>, k: nat, steps: map<Key, nat>) {
    && |t| == Shl(1, k)
    && (forall q | q in steps :: Reached(t, k, q, steps[q]))
    && (forall i | 0 <= i < |t| :: Settled(t, k, steps, i))
  }

  ghost predicate IsTable<V>(t: seq<Elem<V>>, k: nat) {
    exists steps :: Holds(t, k, steps)
  }

  ghost predicate Reached<V>(t: seq<Elem<V>>, k: nat, q: Key, j: nat)
    requires |t| == Shl(1, k)
  {
    && j < |t|
    && t[Place(q, j, k)].key == Some(q)
    && forall i | 0 <= i < j :: !Empty(t[Place(q, i, k)])
  }

  ghost predicate Settled<V>(t: seq<Elem<V>>, k: nat, steps: map<Key, nat>, i: nat)
    requires |t| == Shl(1, k) && i < |t|
  {
    match t[i].key
    case None => t[i].hash == 0 || t[i].hash == TOMB
    case Some(q) => t[i].data.Some? && t[i].hash == KeyHash(q) && q in steps && Place(q, steps[q], k) == i
  }

  /** The map a table stands for. */
  ghost function Contents<V>(t: seq<Elem<V>>, k: nat, steps: map<Key, nat>): map<Key, V>
    requires Holds(t, k, steps)
  {
    map q | q in steps :: DataOf(t, k, q, steps)
  }

  ghost function DataOf<V>(t: seq<Elem<V>>, k: nat, q: Key, steps: map<Key, nat>): V
    requires Holds(t, k, steps) && q in steps
  {
    assert Reached(t, k, q, steps[q]);
    assert Settled(t, k, steps, Place(q, steps[q], k));
    t[Place(q, steps[q], k)].data.value
  }

  // ---------------------------------------------------------------- counting slots

  function UsedIn<V>(t: seq<Elem<V>>): nat {
    if t == [] then 0 else UsedIn(t[..|t| - 1]) + if t[|t| - 1].key.Some? then 1 else 0
  }

  function DeadIn<V>(t: seq<Elem<V>>): nat {
    if t == [] then 0 else DeadIn(t[..|t| - 1]) + if Tomb(t[|t| - 1]) then 1 else 0
  }

  lemma {:induction false} CountUpdate<V>(t: seq<Elem<V>>, i: nat, e: Elem<V>)
    requires i < |t|
    ensures UsedIn(t[i := e]) + (if t[i].key.Some? then 1 else 0) == UsedIn(t) + if e.key.Some? then 1 else 0
    ensures DeadIn(t[i := e]) + (if Tomb(t[i]) then 1 else 0) == DeadIn(t) + if Tomb(e) then 1 else 0
  {
    var n := |t| - 1;
    if i == n {
      assert t[i := e][..n] == t[..n];
    } else {
      assert t[i := e][..n] == t[..n][i := e];
      CountUpdate(t[..n], i, e);
    }
  }

  /** A table with fewer used and dead slots than slots has an empty one. */
  lemma {:induction false} SomeEmpty<V>(t: seq<Elem<V>>, k: nat, steps: map<Key, nat>, n: nat) returns (s: nat)
    requires Holds(t, k, steps) && n <= |t| && UsedIn(t[..n]) + DeadIn(t[..n]) < n
    ensures s < n && Empty(t[s])
  {
    var i := n - 1;
    assert t[..n][..i] == t[..i] && t[..n][i] == t[i];
    assert Settled(t, k, steps, i);
    if Empty(t[i]) { s := i; } else { s := SomeEmpty(t, k, steps, i); }
  }

  lemma {:induction false} CountFresh<V>(t: seq<Elem<V>>)
    requires forall i | 0 <= i < |t| :: Empty(t[i])
    ensures UsedIn(t) == DeadIn(t) == 0
  {
    if t != [] { CountFresh(t[..|t| - 1]); }
  }

  // ---------------------------------------------------------------- searching

  /** Where a search for a key stops: at an empty slot, at a slot with the mark `dead`, or at the key. */
  predicate Stops<V>(e: Elem<V>, key: Key, hash: nat, dead: nat) {
    (e.key.None? && (e.hash == 0 || e.hash == dead)) || (e.hash == hash && e.key == Some(key))
  }

  /** The search stops at probe `j` and not before. */
  ghost predicate StopsAt<V>(t: seq<Elem<V>>, k: nat, key: Key, dead: nat, j: nat) {
    && j < |t| == Shl(1, k)
    && Stops(t[Place(key, j, k)], key, KeyHash(key), dead)
    && forall i | 0 <= i < j :: !Stops(t[Place(key, i, k)], key, KeyHash(key), dead)
  }

  /** A search that does not stop at deleted slots finds the key exactly if it is in the table. */
  lemma SearchFinds<V>(t: seq<Elem<V>>, k: nat, steps: map<Key, nat>, key: Key, j: nat)
    requires Holds(t, k, steps) && StopsAt(t, k, key, 0, j)
    ensures t[Place(key, j, k)].key == (if key in steps then Some(key) else None)
    ensures key in steps ==> steps[key] == j
    ensures key !in steps ==> Empty(t[Place(key, j, k)])
  {
    assert Settled(t, k, steps, Place(key, j, k));
    if key in steps {
      assert Reached(t, k, key, steps[key]);
      assert Settled(t, k, steps, Place(key, steps[key], k));
      if steps[key] > j {
        assert !Empty(t[Place(key, j, k)]);
        SamePlace(key, steps[key], j, k);
      }
    }
  }

  lemma SamePlace(key: Key, a: nat, b: nat, k: nat)
    requires b < a < Shl(1, k)
    ensures Place(key, a, k) != Place(key, b, k)
  {
    PathDistinct(KeyHash(key), a, b, k);
  }

  /** Some deleted slot comes before the key on its way. */
  ghost predicate Shadowed<V>(t: seq<Elem<V>>, k: nat, steps: map<Key, nat>, key: Key)
    requires Holds(t, k, steps)
  {
    key in steps && exists i :: 0 <= i < steps[key] && Tomb(t[Place(key, i, k)])
  }

  /** A search that stops at deleted slots finds the key exactly if it is there and not behind one of them. */
  lemma SearchStopsEarly<V>(t: seq<Elem<V>>, k: nat, steps: map<Key, nat>, key: Key, j: nat)
    requires Holds(t, k, steps) && StopsAt(t, k, key, TOMB, j)
    ensures t[Place(key, j, k)].key == if key in steps && !Shadowed(t, k, steps, key) then Some(key) else None
  {
    assert Settled(t, k, steps, Place(key, j, k));
    if key in steps {
      assert Reached(t, k, key, steps[key]);
      assert Settled(t, k, steps, Place(key, steps[key], k));
      if steps[key] > j {
        SamePlace(key, steps[key], j, k);
        assert Tomb(t[Place(key, j, k)]);
      }
    }
  }

  /** Where there is an empty slot, a search comes to an end. */
  lemma SearchEnds<V>(t: seq<Elem<V>>, k: nat, steps: map<Key, nat>, key: Key, dead: nat) returns (j: nat)
    requires Holds(t, k, steps) && UsedIn(t) + DeadIn(t) < |t|
    ensures j < |t| && Stops(t[Place(key, j, k)], key, KeyHash(key), dead)
  {
    assert t[..|t|] == t;
    var s := SomeEmpty(t, k, steps, |t|);
    j := EverySlot(KeyHash(key), k, s);
  }

  // ---------------------------------------------------------------- changing slots

  function NewElem<V>(key: Key, v: V): Elem<V> { Elem(Some(key), Some(v), KeyHash(key)) }

  function DeadElem<V>(e: Elem<V>): Elem<V> { Elem(None, e.data, TOMB) }

  /** A key put into the slot where the search for it stopped. */
  lemma InsertHolds<V>(t: seq<Elem<V>>, k: nat, steps: map<Key, nat>, key: Key, j: nat, v: V)
    requires Holds(t, k, steps) && key !in steps && StopsAt(t, k, key, TOMB, j)
    ensures Holds(t[Place(key, j, k) := NewElem(key, v)], k, steps[key := j])
    ensures Contents(t[Place(key, j, k) := NewElem(key, v)], k, steps[key := j]) == Contents(t, k, steps)[key := v]
  {
    var p := Place(key, j, k);
    var t', steps' := t[p := NewElem(key, v)], steps[key := j];
    assert Settled(t, k, steps, p) && t[p].key == None;
    forall q | q in steps' ensures Reached(t', k, q, steps'[q]) {
      if q == key {
        PathTaken(t, k, key, j, v);
      } else {
        assert Reached(t, k, q, steps[q]);
      }
    }
    forall i | 0 <= i < |t'| ensures Settled(t', k, steps', i) {
      assert Settled(t, k, steps, i);
    }
    InsertContents(t, k, steps, key, j, v);
  }

  lemma PathTaken<V>(t: seq<Elem<V>>, k: nat, key: Key, j: nat, v: V)
    requires StopsAt(t, k, key, TOMB, j)
    ensures Reached(t[Place(key, j, k) := NewElem(key, v)], k, key, j)
  {
    forall i | 0 <= i < j ensures !Empty(t[Place(key, j, k) := NewElem(key, v)][Place(key, i, k)]) {
      assert !Stops(t[Place(key, i, k)], key, KeyHash(key), TOMB);
    }
  }

  lemma InsertContents<V>(t: seq<Elem<V>>, k: nat, steps: map<Key, nat>, key: Key, j: nat, v: V)
    requires Holds(t, k, steps) && key !in steps && StopsAt(t, k, key, TOMB, j)
    requires Holds(t[Place(key, j, k) := NewElem(key, v)], k, steps[key := j])
    requires t[Place(key, j, k)].key == None
    ensures Contents(t[Place(key, j, k) := NewElem(key, v)], k, steps[key := j]) == Contents(t, k, steps)[key := v]
  {
    hide Settled;
    var t', steps' := t[Place(key, j, k) := NewElem(key, v)], steps[key := j];
    forall q | q in steps ensures Contents(t', k, steps')[q] == Contents(t, k, steps)[q] {
      assert Reached(t, k, q, steps[q]);
    }
  }

  /** Inserting keeps the table a table exactly if the key was not there. */
  lemma InsertHoldsIff<V>(t: seq<Elem<V>>, k: nat, steps: map<Key, nat>, key: Key, j: nat, v: V)
    requires Holds(t, k, steps) && StopsAt(t, k, key, TOMB, j) && t[Place(key, j, k)].key == None
    ensures IsTable(t[Place(key, j, k) := NewElem(key, v)], k) <==> key !in steps
  {
    var p := Place(key, j, k);
    var t' := t[p := NewElem(key, v)];
    if key !in steps {
      InsertHolds(t, k, steps, key, j, v);
    } else {
      assert Reached(t, k, key, steps[key]);
      var s := Place(key, steps[key], k);
      assert s != p && t'[s].key == t'[p].key == Some(key);
      forall steps' ensures !Holds(t', k, steps') {
        assert Holds(t', k, steps') ==> Settled(t', k, steps', s) && Settled(t', k, steps', p);
      }
    }
  }

  /** A slot marked as deleted. The marked slot still is not empty, so all other keys are still reached. */
  lemma DeleteHolds<V>(t: seq<Elem<V>>, k: nat, steps: map<Key, nat>, key: Key)
    requires Holds(t, k, steps) && key in steps
    ensures Reached(t, k, key, steps[key])
    ensures var p := Place(key, steps[key], k);
            var t' := t[p := DeadElem(t[p])];
            Holds(t', k, steps - {key}) && Contents(t', k, steps - {key}) == Contents(t, k, steps) - {key}
  {
    var p := Place(key, steps[key], k);
    assert Reached(t, k, key, steps[key]);
    assert Settled(t, k, steps, p);
    var t', steps' := t[p := DeadElem(t[p])], steps - {key};
    forall q | q in steps' ensures Reached(t', k, q, steps'[q]) && Place(q, steps[q], k) != p {
      assert Reached(t, k, q, steps[q]);
    }
    forall i | 0 <= i < |t'| ensures Settled(t', k, steps', i) {
      assert Settled(t, k, steps, i);
    }
  }

  // ---------------------------------------------------------------- moving to another table

  lemma {:induction false} UsedPrefix<V>(t: seq<Elem<V>>, n: nat)
    requires n <= |t|
    ensures UsedIn(t[..n]) <= UsedIn(t)
    decreases |t| - n
  {
    if n == |t| {
      assert t[..n] == t;
    } else {
      UsedPrefix(t, n + 1);
      UsedNext(t, n);
    }
  }

  lemma UsedNext<V>(t: seq<Elem<V>>, n: nat)
    requires n < |t|
    ensures UsedIn(t[..n + 1]) == UsedIn(t[..n]) + if t[n].key.Some? then 1 else 0
  {
    assert t[..n + 1][..n] == t[..n];
  }

  /** The keys in the first `n` slots of `t` are in the new table `u`, and nothing else is. */
  ghost predicate Moved<V>(t: seq<Elem<V>>, k: nat, steps: map<Key, nat>,
                           u: seq<Elem<V>>, m: nat, moved: map<Key, nat>, n: nat) {
    && Holds(t, k, steps) && n <= |t|
    && Holds(u, m, moved) && NoTombs(u)
    && UsedIn(u) == UsedIn(t[..n])
    && (forall q :: q in moved <==> q in steps && Place(q, steps[q], k) < n)
    && (forall q | q in moved :: DataOf(u, m, q, moved) == DataOf(t, k, q, steps))
  }

  predicate NoTombs<V>(u: seq<Elem<V>>) { forall i | 0 <= i < |u| :: !Tomb(u[i]) }

  lemma {:induction false} NoTombsCount<V>(u: seq<Elem<V>>)
    requires NoTombs(u)
    ensures DeadIn(u) == 0
  {
    if u != [] { NoTombsCount(u[..|u| - 1]); }
  }

  lemma MovedNone<V>(t: seq<Elem<V>>, k: nat, steps: map<Key, nat>, u: seq<Elem<V>>, m: nat)
    requires Holds(t, k, steps) && |u| == Shl(1, m) && forall i | 0 <= i < |u| :: Empty(u[i])
    ensures Moved(t, k, steps, u, m, map[], 0)
  {
    CountFresh(u);
  }

  lemma MovedSkip<V>(t: seq<Elem<V>>, k: nat, steps: map<Key, nat>,
                     u: seq<Elem<V>>, m: nat, moved: map<Key, nat>, n: nat)
    requires Moved(t, k, steps, u, m, moved, n) && n < |t| && t[n].key.None?
    ensures Moved(t, k, steps, u, m, moved, n + 1)
  {
    UsedNext(t, n);
    forall q | q in steps ensures Place(q, steps[q], k) != n {
      assert Reached(t, k, q, steps[q]);
    }
  }

  /** The search for a free slot in the new table stops where the search for the key would. */
  lemma FreeStops<V>(t: seq<Elem<V>>, k: nat, steps: map<Key, nat>,
                     u: seq<Elem<V>>, m: nat, moved: map<Key, nat>, n: nat, q: Key, j: nat)
    requires Moved(t, k, steps, u, m, moved, n) && n < |t| && t[n].key == Some(q)
    requires j < |u| && u[Place(q, j, m)].key.None? && forall i | 0 <= i < j :: u[Place(q, i, m)].key.Some?
    ensures q in steps && Place(q, steps[q], k) == n && q !in moved && StopsAt(u, m, q, TOMB, j)
  {
    assert Settled(t, k, steps, n);
    assert Settled(u, m, moved, Place(q, j, m));
    forall i | 0 <= i < j ensures !Stops(u[Place(q, i, m)], q, KeyHash(q), TOMB) {
      assert Settled(u, m, moved, Place(q, i, m));
    }
  }

  lemma MovedOne<V>(t: seq<Elem<V>>, k: nat, steps: map<Key, nat>,
                    u: seq<Elem<V>>, m: nat, moved: map<Key, nat>, n: nat, q: Key, j: nat)
    requires Moved(t, k, steps, u, m, moved, n) && n < |t| && t[n].key == Some(q)
    requires j < |u| && u[Place(q, j, m)].key.None? && forall i | 0 <= i < j :: u[Place(q, i, m)].key.Some?
    ensures Moved(t, k, steps, u[Place(q, j, m) := t[n]], m, moved[q := j], n + 1)
  {
    FreeStops(t, k, steps, u, m, moved, n, q, j);
    assert Settled(t, k, steps, n);
    var v := t[n].data.value;
    assert t[n] == NewElem(q, v);
    assert DataOf(t, k, q, steps) == v;
    var p, u', moved' := Place(q, j, m), u[Place(q, j, m) := t[n]], moved[q := j];
    InsertHolds(u, m, moved, q, j, v);
    CountUpdate(u, p, t[n]);
    UsedNext(t, n);
    forall r | r in moved' ensures DataOf(u', m, r, moved') == DataOf(t, k, r, steps) {
      assert Contents(u', m, moved')[r] == Contents(u, m, moved)[q := v][r];
      if r != q { assert DataOf(u, m, r, moved) == DataOf(t, k, r, steps); }
    }
    forall r ensures r in moved' <==> r in steps && Place(r, steps[r], k) < n + 1 {
      if r in steps {
        assert Reached(t, k, r, steps[r]);
        assert Place(r, steps[r], k) == n ==> t[n].key == Some(r);
      }
    }
  }

  lemma MovedAll<V>(t: seq<Elem<V>>, k: nat, steps: map<Key, nat>, u: seq<Elem<V>>, m: nat, moved: map<Key, nat>)
    requires Moved(t, k, steps, u, m, moved, |t|)
    ensures Contents(u, m, moved) == Contents(t, k, steps) && |moved| == |steps|
    ensures UsedIn(u) == UsedIn(t) && DeadIn(u) == 0
  {
    assert t[..|t|] == t;
    forall q | q in steps ensures q in moved {
      assert Reached(t, k, q, steps[q]);
    }
    assert moved.Keys == steps.Keys;
    NoTombsCount(u);
  }
}
