/** A map with byte-string keys kept in key order, as `BTreeMap` does. */
module BTree {
  import opened Prelude
  import opened BencodeFormat
  import opened BencodeEncoder

  function Insert(entries: seq<Entry>, key: Bytes, value: Value): seq<Entry> {
    if entries == [] then [Entry(key, value)]
    else if entries[0].key == key then [Entry(key, value)] + entries[1..]
    else if LessEq(key, entries[0].key) then [Entry(key, value)] + entries
    else [entries[0]] + Insert(entries[1..], key, value)
  }

  function Find(entries: seq<Entry>, key: Bytes): Option<Value> {
    if entries == [] then None
    else if entries[0].key == key then Some(entries[0].value)
    else Find(entries[1..], key)
  }

  /** Lookup after insertion. */
  lemma {:induction false} FindInsert(entries: seq<Entry>, key: Bytes, value: Value, other: Bytes)
    ensures Find(Insert(entries, key, value), other) == if other == key then Some(value) else Find(entries, other)
  {
    hide LessEq;
    if entries != [] {
      FindInsert(entries[1..], key, value, other);
      var r := Insert(entries, key, value);
      if entries[0].key == key {
        assert r[1..] == entries[1..];
      } else if LessEq(key, entries[0].key) {
        assert r[1..] == entries;
      } else {
        assert r[1..] == Insert(entries[1..], key, value);
      }
    }
  }

  lemma {:induction false} LessEqTotal(a: Bytes, b: Bytes)
    ensures LessEq(a, b) || LessEq(b, a)
    ensures LessEq(a, b) && LessEq(b, a) ==> a == b
  {
    if a != [] && b != [] {
      LessEqTotal(a[1..], b[1..]);
      assert a == [a[0]] + a[1..];
      assert b == [b[0]] + b[1..];
    }
  }

  /** Insertion keeps the keys in strictly increasing order. */
  lemma {:induction false} InsertFits(entries: seq<Entry>, last: Option<Bytes>, depth: nat, key: Bytes, value: Value)
    requires FitsEntries(entries, last, depth) && Fits(value, depth + 1) && |key| <= MAX_STRING_LENGTH
    requires last.Some? ==> !LessEq(key, last.value)
    ensures FitsEntries(Insert(entries, key, value), last, depth)
  {
    hide LessEq, Fits;
    var r := Insert(entries, key, value);
    if entries == [] {
      assert r[1..] == [];
    } else {
      var first := entries[0];
      LessEqTotal(key, first.key);
      if first.key == key {
        assert r[1..] == entries[1..];
      } else if LessEq(key, first.key) {
        assert r[1..] == entries;
        assert !LessEq(first.key, key);
      } else {
        InsertFits(entries[1..], Some(first.key), depth, key, value);
        assert r[1..] == Insert(entries[1..], key, value);
      }
    }
  }

  /** The same for values of any size. */
  lemma {:induction false} InsertSorted(entries: seq<Entry>, last: Option<Bytes>, key: Bytes, value: Value)
    requires SortedEntries(entries, last) && Sorted(value) && (last.Some? ==> !LessEq(key, last.value))
    ensures SortedEntries(Insert(entries, key, value), last)
  {
    hide LessEq, Sorted;
    var r := Insert(entries, key, value);
    if entries == [] {
      assert r[1..] == [];
    } else {
      var first := entries[0];
      LessEqTotal(key, first.key);
      if first.key == key {
        assert r[1..] == entries[1..];
      } else if LessEq(key, first.key) {
        assert r[1..] == entries;
      } else {
        InsertSorted(entries[1..], Some(first.key), key, value);
        assert r[1..] == Insert(entries[1..], key, value);
      }
    }
  }
}
