/** Iteration of offset-keyed maps in key order, and sums over maps. */
module OrderedMap {
  import opened Prelude
  import opened Sequences

  function MinKey(m: map<nat, Bytes>): (k: nat)
    requires m != map[]
    ensures k in m && forall j :: j in m ==> k <= j
  {
    MinExists(m.Keys);
    var k :| k in m && forall j :: j in m ==> k <= j;
    k
  }

  lemma {:induction false} MinExists(keys: set<nat>)
    requires keys != {}
    ensures exists k :: k in keys && forall j :: j in keys ==> k <= j
    decreases keys
  {
    var x :| x in keys;
    var rest := keys - {x};
    assert keys == rest + {x};
    if rest != {} {
      MinExists(rest);
      var k :| k in rest && forall j :: j in rest ==> k <= j;
      var m := Min(k, x);
      assert m in keys && forall j :: j in keys ==> m <= j;
    }
  }

  /** The entries in the order a `BTreeMap` yields them. */
  function Entries(m: map<nat, Bytes>): (r: seq<(nat, Bytes)>)
    ensures |r| == |m|
    decreases |m|
  {
    if m == map[] then []
    else
      var k := MinKey(m);
      var rest := m - {k};
      assert m.Keys == rest.Keys + {k};
      [(k, m[k])] + Entries(rest)
  }

  lemma {:induction false} EntriesAre(m: map<nat, Bytes>)
    ensures forall e :: e in Entries(m) <==> e.0 in m && m[e.0] == e.1
    decreases |m|
  {
    if m != map[] {
      var k := MinKey(m);
      var rest := m - {k};
      assert m.Keys == rest.Keys + {k};
      EntriesAre(rest);
      assert Entries(m) == [(k, m[k])] + Entries(rest);
    }
  }

  ghost predicate StrictlySorted(s: seq<(nat, Bytes)>) {
    forall i, j :: 0 <= i < j < |s| ==> s[i].0 < s[j].0
  }

  lemma {:induction false} EntriesSorted(m: map<nat, Bytes>)
    ensures StrictlySorted(Entries(m))
    decreases |m|
  {
    if m != map[] {
      var k := MinKey(m);
      var rest := m - {k};
      assert m.Keys == rest.Keys + {k};
      EntriesSorted(rest);
      EntriesAre(rest);
      forall e | e in Entries(rest) ensures k < e.0 {
        assert e.0 in rest;
      }
    }
  }

  /** Two strictly sorted listings of the same pairs are equal. */
  lemma {:induction false} SortedUnique(a: seq<(nat, Bytes)>, b: seq<(nat, Bytes)>)
    requires StrictlySorted(a) && StrictlySorted(b)
    requires forall e :: e in a <==> e in b
    ensures a == b
  {
    assert b != [] ==> b[0] in b;
    if a != [] {
      assert a[0] in b;
      assert b[0] in a;
      assert a[0] == b[0];
      forall e ensures e in a[1..] <==> e in b[1..] {
        if e in a[1..] { assert e in b; }
        if e in b[1..] { assert e in a; }
      }
      SortedUnique(a[1..], b[1..]);
    }
  }

  function Join(entries: seq<(nat, Bytes)>): Bytes {
    if entries == [] then [] else entries[0].1 + Join(entries[1..])
  }

  lemma {:induction false} JoinAppend(a: seq<(nat, Bytes)>, b: seq<(nat, Bytes)>)
    ensures Join(a + b) == Join(a) + Join(b)
  {
    if a == [] {
      assert a + b == b;
    } else {
      JoinAppend(a[1..], b);
      assert (a + b)[1..] == a[1..] + b;
      Associates(a[0].1, Join(a[1..]), Join(b));
    }
  }

  lemma JoinOne(m: map<nat, Bytes>, k: nat)
    requires m.Keys == {k}
    ensures Join(Entries(m)) == m[k]
  {
  }

  // ------------------------------------------------------------------------ sums

  ghost function MapSum<K(!new), V(!new)>(m: map<K, V>, f: V -> nat): nat {
    if m == map[] then 0
    else
      var k :| k in m;
      f(m[k]) + MapSum(m - {k}, f)
  }

  lemma {:induction false} MapSumRemove<K(!new), V(!new)>(m: map<K, V>, f: V -> nat, x: K)
    requires x in m
    ensures MapSum(m, f) == f(m[x]) + MapSum(m - {x}, f)
    decreases |m|
  {
    var k :| k in m && MapSum(m, f) == f(m[k]) + MapSum(m - {k}, f);
    if k != x {
      MapSumRemove(m - {k}, f, x);
      MapSumRemove(m - {x}, f, k);
      assert m - {k} - {x} == m - {x} - {k};
    }
  }

  lemma MapSumUpdate<K(!new), V(!new)>(m: map<K, V>, f: V -> nat, x: K, v: V)
    ensures MapSum(m[x := v], f) == MapSum(m, f) + f(v) - if x in m then f(m[x]) else 0
  {
    MapSumRemove(m[x := v], f, x);
    if x in m {
      MapSumRemove(m, f, x);
      assert m[x := v] - {x} == m - {x};
    } else {
      assert m[x := v] - {x} == m;
    }
  }
}
