/**
 * The key/value store contract of `src/store/mod.rs`: keys and values are
 * byte strings, keys are ordered byte-lexicographically, `get` answers
 * `None` for an absent key, `get_next`/`get_prev` find the nearest entry
 * strictly after/before a key, `put` overwrites and `delete` of an absent
 * key does nothing.
 *
 * The contract is stated on maps (`Lookup`, `NextEntry`, `PrevEntry`)
 * and carried out by `MapStore`, an in-memory store whose reads cannot
 * fail; `StoreRef` forwards every read and write through a reference to
 * the store it points at, as the `Deref`/`DerefMut` impls do.
 */
module KvStore {
  import opened Results
  import opened Bytes

  type Key = seq<byte>
  type Value = seq<byte>

  /** `KV`: a key with its value. */
  datatype Entry = Entry(key: Key, value: Value)

  // ---------------------------------------------------------------------
  // Least and greatest keys of a finite set

  ghost function Least(s: set<Key>): (m: Key)
    requires s != {}
    ensures m in s
    ensures forall k | k in s && k != m :: LexLess(m, k)
  {
    var x :| x in s;
    if s == {x} then
      assert forall k | k in s :: k == x;
      x
    else
      var y := Least(s - {x});
      LexLessTotal(x, y);
      var m := if LexLess(x, y) then x else y;
      forall k | k in s && k != m
        ensures LexLess(m, k)
      {
        if k != x && k != y {
          assert k in s - {x};
          if m == x { LexLessTransitive(x, y, k); }
        }
      }
      m
  }

  ghost function Greatest(s: set<Key>): (m: Key)
    requires s != {}
    ensures m in s
    ensures forall k | k in s && k != m :: LexLess(k, m)
  {
    var x :| x in s;
    if s == {x} then
      assert forall k | k in s :: k == x;
      x
    else
      var y := Greatest(s - {x});
      LexLessTotal(x, y);
      var m := if LexLess(y, x) then x else y;
      forall k | k in s && k != m
        ensures LexLess(k, m)
      {
        if k != x && k != y {
          assert k in s - {x};
          if m == x { LexLessTransitive(k, y, x); }
        }
      }
      m
  }

  // ---------------------------------------------------------------------
  // The contract on a map

  /** `Read::get`: the value stored under `key`, or `None` when there is none. */
  function Lookup(m: map<Key, Value>, key: Key): (r: Option<Value>)
    ensures r.Some? <==> key in m
    ensures r.Some? ==> r.value == m[key]
  {
    if key in m then Some(m[key]) else None
  }

  /** `Read::get_next`: the entry with the least key strictly after `key`. */
  ghost function NextEntry(m: map<Key, Value>, key: Key): (r: Option<Entry>)
    ensures r.None? <==> forall k | k in m :: !LexLess(key, k)
    ensures r.Some? ==> r.value.key in m && m[r.value.key] == r.value.value && LexLess(key, r.value.key)
    ensures r.Some? ==> forall k | k in m && LexLess(key, k) :: k == r.value.key || LexLess(r.value.key, k)
  {
    var after := set k | k in m && LexLess(key, k);
    assert forall k | k in m && LexLess(key, k) :: k in after;
    if after == {} then None
    else
      var k := Least(after);
      Some(Entry(k, m[k]))
  }

  /** `Read::get_prev`: the entry with the greatest key strictly before `key`. */
  ghost function PrevEntry(m: map<Key, Value>, key: Key): (r: Option<Entry>)
    ensures r.None? <==> forall k | k in m :: !LexLess(k, key)
    ensures r.Some? ==> r.value.key in m && m[r.value.key] == r.value.value && LexLess(r.value.key, key)
    ensures r.Some? ==> forall k | k in m && LexLess(k, key) :: k == r.value.key || LexLess(k, r.value.key)
  {
    var before := set k | k in m && LexLess(k, key);
    assert forall k | k in m && LexLess(k, key) :: k in before;
    if before == {} then None
    else
      var k := Greatest(before);
      Some(Entry(k, m[k]))
  }

  /** After `put(k, v)`, `get(k)` is `v` and every other key reads as before. */
  lemma PutOverwrites(m: map<Key, Value>, k: Key, v: Value, other: Key)
    ensures Lookup(m[k := v], k) == Some(v)
    ensures other != k ==> Lookup(m[k := v], other) == Lookup(m, other)
  {
  }

  /** After `delete(k)`, `get(k)` is `None`, other keys read as before, and deleting an absent key changes nothing. */
  lemma DeleteRemoves(m: map<Key, Value>, k: Key, other: Key)
    ensures Lookup(m - {k}, k) == None
    ensures other != k ==> Lookup(m - {k}, other) == Lookup(m, other)
    ensures k !in m ==> m - {k} == m
  {
  }

  /**
   * Stepping forward from `a` and then back lands on `a` itself when it is
   * stored, and otherwise on the entry before `a`: no entry lies strictly
   * between a key and the next one.
   */
  lemma NextThenPrev(m: map<Key, Value>, a: Key)
    requires NextEntry(m, a).Some?
    ensures PrevEntry(m, NextEntry(m, a).value.key) == (if a in m then Some(Entry(a, m[a])) else PrevEntry(m, a))
  {
    var b := NextEntry(m, a).value.key;
    var p := PrevEntry(m, b);
    if a in m {
      assert LexLess(a, b);
      assert p.Some?;
      var c := p.value.key;
      LexLessIrreflexive(c);
      if c != a {
        LexLessTotal(a, c);
        if LexLess(a, c) {
          LexLessAsymmetric(c, b);
        }
        LexLessAsymmetric(c, a);
      }
      assert c == a;
    } else {
      var q := PrevEntry(m, a);
      forall k | k in m
        ensures LexLess(k, b) <==> LexLess(k, a)
      {
        if LexLess(k, a) {
          LexLessTransitive(k, a, b);
        } else if LexLess(k, b) {
          LexLessTotal(k, a);
          LexLessAsymmetric(k, b);
        }
      }
      assert (set k | k in m && LexLess(k, b)) == (set k | k in m && LexLess(k, a));
    }
  }

  // ---------------------------------------------------------------------
  // An in-memory store

  class MapStore {
    var entries: map<Key, Value>

    constructor ()
      ensures entries == map[]
    {
      entries := map[];
    }

    function Get(key: Key): Option<Value>
      reads this
    {
      Lookup(entries, key)
    }

    ghost function GetNext(key: Key): Option<Entry>
      reads this
    {
      NextEntry(entries, key)
    }

    ghost function GetPrev(key: Key): Option<Entry>
      reads this
    {
      PrevEntry(entries, key)
    }

    /** `Write::put`: store `value` under `key`, replacing any value already there. */
    method Put(key: Key, value: Value) returns (r: Result<()>)
      modifies this
      ensures r == Ok(()) && entries == old(entries)[key := value]
    {
      entries := entries[key := value];
      r := Ok(());
    }

    /** `Write::delete`: remove `key` and its value, if any. */
    method Delete(key: Key) returns (r: Result<()>)
      modifies this
      ensures r == Ok(()) && entries == old(entries) - {key}
    {
      entries := entries - {key};
      r := Ok(());
    }
  }

  // ---------------------------------------------------------------------
  // Forwarding through a reference

  /** Anything that dereferences to a store: reads and writes reach `target`. */
  class StoreRef {
    const target: MapStore

    constructor (target0: MapStore)
      ensures target == target0
    {
      target := target0;
    }

    function Get(key: Key): (r: Option<Value>)
      reads this, target
      ensures r == target.Get(key)
    {
      target.Get(key)
    }

    ghost function GetNext(key: Key): (r: Option<Entry>)
      reads this, target
      ensures r == target.GetNext(key)
    {
      target.GetNext(key)
    }

    ghost function GetPrev(key: Key): (r: Option<Entry>)
      reads this, target
      ensures r == target.GetPrev(key)
    {
      target.GetPrev(key)
    }

    method Put(key: Key, value: Value) returns (r: Result<()>)
      modifies target
      ensures r == Ok(()) && target.entries == old(target.entries)[key := value]
    {
      r := target.Put(key, value);
    }

    method Delete(key: Key) returns (r: Result<()>)
      modifies target
      ensures r == Ok(()) && target.entries == old(target.entries) - {key}
    {
      r := target.Delete(key);
    }
  }
}
