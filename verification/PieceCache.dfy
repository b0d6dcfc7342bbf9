/** The verified-piece cache: lists and counters updated in place. */
module PieceCache {
  import opened Prelude
  import opened Sequences
  import opened ArcPolicy

  class LruList {
    var order: seq<CacheKey>
    var data: map<CacheKey, CachedPiece>

    ghost function View(): Lru
      reads this
    {
      Lru(order, data)
    }

    constructor ()
      ensures View() == EMPTY_LRU
    {
      order, data := [], map[];
    }

    /** The number of entries, counted in the map as the source does. */
    method Len() returns (n: nat)
      requires View().Valid()
      ensures n == |order|
    {
      n := |data|;
      NoDupCardinality(order);
      assert (set k | k in order) == data.Keys;
    }

    method Insert(key: CacheKey, piece: CachedPiece) returns (newSize: nat, oldSize: nat)
      modifies this
      ensures View() == old(View()).Put(key, piece)
      ensures newSize == |piece.data| && oldSize == old(View()).SizeOf(key)
    {
      newSize := |piece.data|;
      if key in data {
        oldSize := |data[key].data|;
      } else {
        oldSize := 0;
        order := order + [key];
      }
      data := data[key := piece];
    }

    method Remove(key: CacheKey) returns (r: Option<(CachedPiece, nat)>)
      modifies this
      ensures View() == old(View()).Remove(key)
      ensures r == if key in old(data) then Some((old(data)[key], |old(data)[key].data|)) else None
    {
      if key in data {
        var piece := data[key];
        data := data - {key};
        order := Without(order, key);
        r := Some((piece, |piece.data|));
      } else {
        r := None;
      }
    }

    /**
     Skips keys of `order` without data. A valid list has none, so there this
     takes the least recently used entry.
     */
    method PopFront() returns (r: Option<(CacheKey, CachedPiece, nat)>)
      modifies this
      ensures r.None? ==> order == [] && data == old(data) && forall k :: k in old(order) ==> k !in old(data)
      ensures r.Some? ==> r.value.0 in old(order) && r.value.0 in old(data)
      ensures r.Some? ==> r.value.1 == old(data)[r.value.0] && r.value.2 == |r.value.1.data|
      ensures r.Some? ==> data == old(data) - {r.value.0}
      ensures old(View()).Valid() ==>
        View().Valid() && (r.None? <==> old(order) == [])
        && (r.Some? ==> View() == old(View()).Pop() && r.value.0 == old(order)[0])
    {
      ghost var n := 0;
      if View().Valid() && order != [] {
        PopValid(View());
        assert order[0] in data;
      }
      while order != []
        invariant 0 <= n <= |old(order)| && order == old(order)[n..] && data == old(data)
        invariant forall i :: 0 <= i < n ==> old(order)[i] !in data
        invariant old(View()).Valid() ==> n == 0
        decreases |order|
      {
        var key := order[0];
        order := order[1..];
        if key in data {
          var piece := data[key];
          data := data - {key};
          r := Some((key, piece, |piece.data|));
          return;
        }
        n := n + 1;
      }
      r := None;
    }

    method MoveToBack(key: CacheKey)
      modifies this
      ensures View() == old(View()).Touch(key)
    {
      if key in data {
        order := Without(order, key);
        order := order + [key];
      }
    }

    method Clear()
      modifies this
      ensures View() == EMPTY_LRU
    {
      data := map[];
      order := [];
    }
  }

  /** A first-in first-out list of keys whose bytes are gone. */
  class GhostList {
    var keys: seq<CacheKey>
    var members: set<CacheKey>

    ghost predicate Valid()
      reads this
    {
      NoDup(keys) && forall k :: k in keys <==> k in members
    }

    constructor ()
      ensures Valid() && keys == []
    {
      keys, members := [], {};
    }

    method Len() returns (n: nat)
      requires Valid()
      ensures n == |keys|
    {
      n := |members|;
      NoDupCardinality(keys);
      assert (set k | k in keys) == members;
    }

    method Insert(key: CacheKey)
      requires Valid()
      modifies this
      ensures Valid() && keys == GhostAdd(old(keys), key)
    {
      if key !in members {
        members := members + {key};
        keys := keys + [key];
      }
    }

    method Remove(key: CacheKey) returns (removed: bool)
      requires Valid()
      modifies this
      ensures Valid() && keys == Without(old(keys), key) && removed == (key in old(keys))
    {
      WithoutNoDup(keys, key);
      if key in members {
        members := members - {key};
        keys := Without(keys, key);
        removed := true;
      } else {
        WithoutAbsent(keys, key);
        removed := false;
      }
    }

    method PopFront() returns (r: Option<CacheKey>)
      requires Valid()
      modifies this
      ensures Valid() && keys == Tail(old(keys))
      ensures r == if old(keys) == [] then None else Some(old(keys)[0])
    {
      if keys == [] {
        return None;
      }
      var key := keys[0];
      assert forall k :: k in keys <==> k == key || k in keys[1..];
      keys := keys[1..];
      members := members - {key};
      r := Some(key);
    }

    method Clear()
      modifies this
      ensures Valid() && keys == []
    {
      keys, members := [], {};
    }
  }

  class PieceCache {
    const t1: LruList
    const t2: LruList
    const b1: GhostList
    const b2: GhostList
    const capacity: nat
    var p: int
    var memoryUsed: int

    ghost const Repr: set<object>

    ghost function View(): Arc
      reads this, Repr
      requires Valid()
    {
      Arc(t1.View(), t2.View(), b1.keys, b2.keys, p, capacity, memoryUsed)
    }

    ghost predicate Valid()
      reads this, Repr
    {
      Repr == {this, t1, t2, b1, b2} &&
      t1 != t2 && b1 != b2 && b1.Valid() && b2.Valid() && t1.View().Valid() && t2.View().Valid()
    }

    constructor (capacity: nat)
      ensures Valid() && View() == Empty(capacity) && fresh(Repr)
    {
      t1 := new LruList();
      t2 := new LruList();
      b1 := new GhostList();
      b2 := new GhostList();
      this.capacity := capacity;
      p, memoryUsed := 0, 0;
      Repr := {this, t1, t2, b1, b2};
    }

    method Get(key: CacheKey) returns (r: Option<Bytes>)
      requires Valid()
      modifies Repr
      ensures Valid() && View() == ArcPolicy.Get(old(View()), key)
      ensures r == old(View()).Lookup(key)
    {
      if key in t1.data {
        var data := t1.data[key].data;
        PromoteT1ToT2(key);
        return Some(data);
      }
      TouchValid(t2.View(), key);
      if key in t2.data {
        var data := t2.data[key].data;
        t2.MoveToBack(key);
        return Some(data);
      }
      return None;
    }

    method PromoteT1ToT2(key: CacheKey)
      requires Valid()
      modifies Repr
      ensures Valid() && View() == if key in old(t1.data) then ArcPolicy.Get(old(View()), key) else old(View())
    {
      RemoveValid(t1.View(), key);
      if key in t1.data {
        PutValid(t2.View(), key, t1.data[key]);
      } else {
        WithoutAbsent(t1.order, key);
      }
      var removed := t1.Remove(key);
      if removed.Some? {
        var _, _ := t2.Insert(key, removed.value.0);
      }
    }

    method Insert(key: CacheKey, data: Bytes, verified: bool)
      requires Valid()
      modifies Repr
      ensures Valid() && View() == ArcPolicy.Insert(old(View()), key, CachedPiece(data, verified))
    {
      var piece := CachedPiece(data, verified);
      if key in b1.members {
        var _ := b1.Remove(key);
        var delta := ComputeDeltaB1();
        AdaptTarget(delta);
        Replace(false);
        assert View() == GhostHit1(old(View()), key);
        PutIntoT2(key, piece);
        return;
      }
      if key in b2.members {
        var _ := b2.Remove(key);
        var delta := ComputeDeltaB2();
        AdaptTarget(-delta);
        Replace(true);
        assert View() == GhostHit2(old(View()), key);
        PutIntoT2(key, piece);
        return;
      }
      EvictForMiss();
      PutIntoT1(key, piece);
    }

    /** The part of `insert` that runs on a complete miss, before the put. */
    method EvictForMiss()
      requires Valid()
      modifies Repr
      ensures Valid() && View() == MakeRoom(old(View()))
    {
      var inT1 := t1.Len();
      var inGhost1 := b1.Len();
      if inT1 + inGhost1 >= capacity {
        if inT1 < capacity {
          var _ := b1.PopFront();
          Replace(false);
        } else {
          var popped := t1.PopFront();
          if popped.Some? {
            memoryUsed := memoryUsed - popped.value.2;
          }
        }
      } else {
        var inT2 := t2.Len();
        var inGhost2 := b2.Len();
        var total := inT1 + inGhost1 + inT2 + inGhost2;
        if total >= capacity {
          if total >= 2 * capacity {
            var _ := b2.PopFront();
          }
          Replace(false);
        }
      }
    }

    method Replace(inB2: bool)
      requires Valid()
      modifies Repr
      ensures Valid() && View() == ArcPolicy.Replace(old(View()), inB2)
    {
      var t1Len := t1.Len();
      var t2Len := t2.Len();
      var fromT1 := t1Len > 0 && ((inB2 && t1Len == p) || (!inB2 && t1Len > p) || t2Len == 0);
      if fromT1 {
        var evicted := t1.PopFront();
        if evicted.Some? {
          memoryUsed := memoryUsed - evicted.value.2;
          b1.Insert(evicted.value.0);
        }
      } else {
        var evicted := t2.PopFront();
        if evicted.Some? {
          memoryUsed := memoryUsed - evicted.value.2;
          b2.Insert(evicted.value.0);
        }
      }
    }

    method PutIntoT1(key: CacheKey, piece: CachedPiece)
      requires Valid()
      modifies this, t1
      ensures Valid() && View() == PutT1(old(View()), key, piece)
    {
      PutValid(t1.View(), key, piece);
      var newSize, oldSize := t1.Insert(key, piece);
      if newSize > oldSize {
        memoryUsed := memoryUsed + (newSize - oldSize);
      } else {
        memoryUsed := memoryUsed - (oldSize - newSize);
      }
    }

    method PutIntoT2(key: CacheKey, piece: CachedPiece)
      requires Valid()
      modifies this, t2
      ensures Valid() && View() == PutT2(old(View()), key, piece)
    {
      PutValid(t2.View(), key, piece);
      var newSize, oldSize := t2.Insert(key, piece);
      if newSize > oldSize {
        memoryUsed := memoryUsed + (newSize - oldSize);
      } else {
        memoryUsed := memoryUsed - (oldSize - newSize);
      }
    }

    method ComputeDeltaB1() returns (delta: int)
      requires Valid()
      ensures delta == DeltaB1(View())
    {
      var len1 := b1.Len();
      var len2 := b2.Len();
      delta := if len1 >= len2 then 1 else len2 / Max(len1, 1);
    }

    method ComputeDeltaB2() returns (delta: int)
      requires Valid()
      ensures delta == DeltaB2(View())
    {
      var len1 := b1.Len();
      var len2 := b2.Len();
      delta := if len2 >= len1 then 1 else len1 / Max(len2, 1);
    }

    method AdaptTarget(delta: int)
      requires Valid()
      modifies this
      ensures Valid() && View() == AdaptP(old(View()), delta)
    {
      p := Min(Max(p + delta, 0), capacity);
    }

    method Remove(key: CacheKey) returns (r: Option<Bytes>)
      requires Valid()
      modifies Repr
      ensures Valid() && View() == ArcPolicy.Remove(old(View()), key)
      ensures r == old(View()).Lookup(key)
    {
      RemoveValid(t1.View(), key);
      RemoveValid(t2.View(), key);
      var removed := t1.Remove(key);
      if removed.Some? {
        memoryUsed := memoryUsed - removed.value.1;
        return Some(removed.value.0.data);
      }
      removed := t2.Remove(key);
      if removed.Some? {
        memoryUsed := memoryUsed - removed.value.1;
        return Some(removed.value.0.data);
      }
      return None;
    }

    method Clear()
      requires Valid()
      modifies Repr
      ensures Valid() && View() == Empty(capacity)
    {
      t1.Clear();
      t2.Clear();
      b1.Clear();
      b2.Clear();
      p, memoryUsed := 0, 0;
    }
  }
}
