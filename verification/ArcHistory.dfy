/**
 What the piece cache remembers of its history: disjoint lists, exact memory
 accounting, recency order and freshness of the cached bytes.
 */
module ArcHistory {
  import opened Prelude
  import opened Sequences
  import opened ArcPolicy

  // ---------------------------------------------------------------- disjointness

  ghost predicate Absent(s: Arc, key: CacheKey) {
    !s.Contains(key) && key !in s.b1 && key !in s.b2
  }

  /** No key is in two of the four lists. */
  ghost predicate Disjoint(s: Arc) {
    && (forall k :: k in s.t1.data ==> k !in s.t2.data && k !in s.b1 && k !in s.b2)
    && (forall k :: k in s.t2.data ==> k !in s.b1 && k !in s.b2)
    && (forall k :: k in s.b1 ==> k !in s.b2)
  }

  ghost predicate Tidy(s: Arc) {
    ListsValid(s) && Disjoint(s)
  }

  /** `r` is `s` after evictions that keep the lists disjoint. */
  ghost predicate Evicted(s: Arc, r: Arc, key: CacheKey) {
    && Tidy(r)
    && (Absent(s, key) ==> Absent(r, key))
    && (key in s.t2.data ==> key in r.t2.data || key in r.b2)
  }

  lemma ReplaceEvicts(s: Arc, inB2: bool, key: CacheKey)
    requires Tidy(s)
    ensures Evicted(s, Replace(s, inB2), key)
  {
    ReplaceEvictsOne(s, inB2);
  }

  lemma DropGhostTidy(s: Arc, key: CacheKey)
    requires Tidy(s)
    ensures Tidy(s.(b1 := Tail(s.b1))) && Tidy(s.(b2 := Tail(s.b2)))
  {
  }

  lemma MakeRoomEvicts(s: Arc, key: CacheKey)
    requires Tidy(s)
    ensures Evicted(s, MakeRoom(s), key)
  {
    hide Replace;
    DropGhostTidy(s, key);
    if |s.t1.order| + |s.b1| >= s.capacity {
      if |s.t1.order| < s.capacity {
        ReplaceEvicts(s.(b1 := Tail(s.b1)), false, key);
      } else if s.t1.order != [] {
        PopValid(s.t1);
      }
    } else {
      ReplaceEvicts(s.(b2 := Tail(s.b2)), false, key);
      ReplaceEvicts(s, false, key);
    }
  }

  /** What a ghost hit leaves before the piece enters `t2`. */
  lemma GhostHitEvicts(s: Arc, key: CacheKey)
    requires Tidy(s)
    ensures key in s.b1 ==> Tidy(GhostHit1(s, key)) && Absent(GhostHit1(s, key), key)
    ensures key in s.b2 ==> Tidy(GhostHit2(s, key)) && Absent(GhostHit2(s, key), key)
  {
    hide Replace, DeltaB1, DeltaB2;
    WithoutNoDup(s.b1, key);
    WithoutNoDup(s.b2, key);
    var s1 := s.(b1 := Without(s.b1, key));
    ReplaceEvicts(AdaptP(s1, DeltaB1(s1)), false, key);
    var s2 := s.(b2 := Without(s.b2, key));
    ReplaceEvicts(AdaptP(s2, -DeltaB2(s2)), true, key);
  }

  /** An insertion of a key cached in `t1` that first moves that very key to `b1`. */
  ghost predicate GhostsOwnKey(s: Arc, key: CacheKey) {
    && s.t1.order != [] && s.t1.order[0] == key
    && |s.t1.order| < s.capacity
    && (|s.t1.order| + |s.b1| >= s.capacity || s.Len() + |s.b1| + |s.b2| >= s.capacity)
    && EvictsFromT1(s, false)
  }

  /** With the key in neither `t2` nor a ghost list, only one branch can ghost it. */
  lemma MakeRoomGhosts(s: Arc, key: CacheKey)
    requires Tidy(s) && key !in s.t2.data && key !in s.b1 && key !in s.b2
    ensures key !in MakeRoom(s).t2.data && key !in MakeRoom(s).b2
    ensures key in MakeRoom(s).b1 <==> GhostsOwnKey(s, key)
  {
    assert key !in Tail(s.b1) && key !in Tail(s.b2);
  }

  lemma PutDisjoint(s: Arc, key: CacheKey, piece: CachedPiece)
    requires Tidy(s)
    ensures Disjoint(PutT1(s, key, piece)) <==> key !in s.t2.data && key !in s.b1 && key !in s.b2
    ensures Absent(s, key) ==> Disjoint(PutT2(s, key, piece))
  {
  }

  lemma GhostHitDisjoint(s: Arc, key: CacheKey, piece: CachedPiece)
    requires Tidy(s) && (key in s.b1 || key in s.b2)
    ensures Disjoint(Insert(s, key, piece)) && key !in s.t2.data && !GhostsOwnKey(s, key)
  {
    GhostHitEvicts(s, key);
    PutDisjoint(if key in s.b1 then GhostHit1(s, key) else GhostHit2(s, key), key, piece);
  }

  /**
   `insert` never asks whether its key is cached. The lists stay disjoint exactly
   when the key is not in `t2` and is not the `t1` entry evicted to make room.
   */
  lemma InsertDisjointIff(s: Arc, key: CacheKey, piece: CachedPiece)
    requires Tidy(s)
    ensures Disjoint(Insert(s, key, piece)) <==> !(key in s.t2.data || GhostsOwnKey(s, key))
  {
    if key in s.b1 || key in s.b2 {
      GhostHitDisjoint(s, key, piece);
    } else {
      MakeRoomEvicts(s, key);
      PutDisjoint(MakeRoom(s), key, piece);
      if key !in s.t2.data {
        MakeRoomGhosts(s, key);
      }
    }
  }

  // ------------------------------------------------------------------ accounting

  /** The bytes held for the keys of `order`. */
  function Total(order: seq<CacheKey>, data: map<CacheKey, CachedPiece>): nat
    requires forall k :: k in order ==> k in data
  {
    if order == [] then 0 else |data[order[0]].data| + Total(order[1..], data)
  }

  ghost function Usage(l: Lru): nat
    requires l.Valid()
  {
    Total(l.order, l.data)
  }

  lemma {:induction false} TotalFrame(order: seq<CacheKey>, a: map<CacheKey, CachedPiece>,
                                      b: map<CacheKey, CachedPiece>)
    requires forall k :: k in order ==> k in a && k in b && a[k] == b[k]
    ensures Total(order, a) == Total(order, b)
  {
    if order != [] {
      TotalFrame(order[1..], a, b);
    }
  }

  lemma {:induction false} TotalAppend(order: seq<CacheKey>, key: CacheKey, data: map<CacheKey, CachedPiece>)
    requires key in data && forall k :: k in order ==> k in data
    ensures Total(order + [key], data) == Total(order, data) + |data[key].data|
  {
    if order == [] {
      assert order + [key] == [key];
    } else {
      TotalAppend(order[1..], key, data);
      assert (order + [key])[1..] == order[1..] + [key];
    }
  }

  lemma {:induction false} TotalWithout(order: seq<CacheKey>, key: CacheKey, data: map<CacheKey, CachedPiece>)
    requires NoDup(order) && key in order && forall k :: k in order ==> k in data
    ensures Total(Without(order, key), data) == Total(order, data) - |data[key].data|
  {
    if order[0] == key {
      assert key !in order[1..];
      WithoutAbsent(order[1..], key);
    } else {
      assert NoDup(order[1..]) && key in order[1..];
      TotalWithout(order[1..], key, data);
      var rest := Without(order[1..], key);
      assert Without(order, key) == [order[0]] + rest;
      assert ([order[0]] + rest)[1..] == rest;
    }
  }

  lemma PutUsage(l: Lru, key: CacheKey, piece: CachedPiece)
    requires l.Valid()
    ensures l.Put(key, piece).Valid()
    ensures Usage(l.Put(key, piece)) == Usage(l) - l.SizeOf(key) + |piece.data|
  {
    var l' := l.Put(key, piece);
    if key in l.data {
      TotalWithout(l.order, key, l.data);
      TotalWithout(l.order, key, l'.data);
      TotalFrame(Without(l.order, key), l.data, l'.data);
    } else {
      TotalAppend(l.order, key, l'.data);
      TotalFrame(l.order, l.data, l'.data);
    }
  }

  lemma RemoveUsage(l: Lru, key: CacheKey)
    requires l.Valid()
    ensures l.Remove(key).Valid() && Usage(l.Remove(key)) == Usage(l) - l.SizeOf(key)
  {
    RemoveValid(l, key);
    if key in l.data {
      TotalWithout(l.order, key, l.data);
      TotalFrame(l.Remove(key).order, l.data, l.Remove(key).data);
    }
  }

  lemma TouchUsage(l: Lru, key: CacheKey)
    requires l.Valid()
    ensures l.Touch(key).Valid() && Usage(l.Touch(key)) == Usage(l)
  {
    TouchValid(l, key);
    if key in l.data {
      TotalWithout(l.order, key, l.data);
      TotalAppend(Without(l.order, key), key, l.data);
    }
  }

  lemma PopUsage(l: Lru)
    requires l.Valid() && l.order != []
    ensures l.Pop().Valid() && Usage(l.Pop()) == Usage(l) - l.SizeOf(l.order[0])
  {
    PopValid(l);
    TotalFrame(l.order[1..], l.data, l.Pop().data);
  }

  // --------------------------------------------------------------------- history

  /** One more than the index of the last get or insertion of `key`; 0 if none. */
  function LastUse(ops: seq<Op>, key: CacheKey): nat {
    if ops == [] then 0
    else
      var op := ops[|ops| - 1];
      if (op.GetOp? || op.InsertOp?) && op.key == key then |ops|
      else LastUse(ops[..|ops| - 1], key)
  }

  lemma {:induction false} LastUseBound(ops: seq<Op>, key: CacheKey)
    ensures LastUse(ops, key) <= |ops|
  {
    if ops != [] {
      LastUseBound(ops[..|ops| - 1], key);
    }
  }

  function LastInserted(ops: seq<Op>, key: CacheKey): Option<CachedPiece> {
    if ops == [] then None
    else
      var op := ops[|ops| - 1];
      if op.InsertOp? && op.key == key then Some(op.piece)
      else LastInserted(ops[..|ops| - 1], key)
  }

  function UseRank(ops: seq<Op>): CacheKey -> int {
    k => LastUse(ops, k)
  }

  /** `l` is in order of last use and holds what was last inserted. */
  ghost predicate Remembers(l: Lru, ops: seq<Op>) {
    && l.Valid()
    && Increasing(l.order, UseRank(ops))
    && forall k :: k in l.data ==> LastInserted(ops, k) == Some(l.data[k])
  }

  ghost predicate Concerns(op: Op, key: CacheKey) {
    (op.GetOp? || op.InsertOp?) && op.key == key
  }

  lemma HistoryStep(ops: seq<Op>, op: Op, key: CacheKey)
    ensures LastUse(ops + [op], key) == if Concerns(op, key) then |ops| + 1 else LastUse(ops, key)
    ensures LastInserted(ops + [op], key) ==
            if op.InsertOp? && op.key == key then Some(op.piece) else LastInserted(ops, key)
  {
  }

  lemma OthersRemember(l: Lru, ops: seq<Op>, op: Op)
    requires Remembers(l, ops) && forall k :: k in l.data ==> !Concerns(op, k)
    ensures Remembers(l, ops + [op])
  {
    forall k | k in l.data
      ensures UseRank(ops + [op])(k) == UseRank(ops)(k) && LastInserted(ops + [op], k) == Some(l.data[k])
    {
      HistoryStep(ops, op, k);
    }
  }

  lemma PutRemembers(l: Lru, ops: seq<Op>, op: Op, key: CacheKey, piece: CachedPiece)
    requires Remembers(l, ops) && key !in l.data && Concerns(op, key)
    requires LastInserted(ops + [op], key) == Some(piece)
    ensures Remembers(l.Put(key, piece), ops + [op])
  {
    OthersRemember(l, ops, op);
    HistoryStep(ops, op, key);
    forall k | k in l.order
      ensures UseRank(ops + [op])(k) < UseRank(ops + [op])(key)
    {
      HistoryStep(ops, op, k);
      LastUseBound(ops, k);
    }
  }

  lemma RemoveRemembers(l: Lru, ops: seq<Op>, key: CacheKey)
    requires Remembers(l, ops)
    ensures Remembers(l.Remove(key), ops)
  {
    RemoveValid(l, key);
    WithoutIncreasing(l.order, key, UseRank(ops));
  }

  lemma TouchRemembers(l: Lru, ops: seq<Op>, key: CacheKey)
    requires Remembers(l, ops)
    ensures Remembers(l.Touch(key), ops + [GetOp(key)])
  {
    var op := GetOp(key);
    if key in l.data {
      RemoveRemembers(l, ops, key);
      HistoryStep(ops, op, key);
      PutRemembers(l.Remove(key), ops, op, key, l.data[key]);
      assert l.Touch(key) == l.Remove(key).Put(key, l.data[key]);
    } else {
      OthersRemember(l, ops, op);
    }
  }

  /** Everything the cache guarantees when only uncached keys are inserted. */
  ghost predicate HistoryInv(s: Arc, ops: seq<Op>) {
    && Tidy(s)
    && Remembers(s.t1, ops) && Remembers(s.t2, ops)
    && s.memory == Usage(s.t1) + Usage(s.t2)
  }

  /** `r` is `s` with its lists possibly short of their oldest entries. */
  ghost predicate Trimmed(s: Arc, r: Arc) {
    && (r.t1 == s.t1 || (s.t1.order != [] && r.t1 == s.t1.Pop()))
    && (r.t2 == s.t2 || (s.t2.order != [] && r.t2 == s.t2.Pop()))
    && ListsValid(s) && ListsValid(r)
    && s.memory - r.memory == Usage(s.t1) - Usage(r.t1) + Usage(s.t2) - Usage(r.t2)
  }

  lemma ReplaceTrims(s: Arc, inB2: bool)
    requires ListsValid(s)
    ensures Trimmed(s, Replace(s, inB2))
  {
    ReplaceEvictsOne(s, inB2);
    if s.t1.order != [] { PopUsage(s.t1); }
    if s.t2.order != [] { PopUsage(s.t2); }
  }

  lemma MakeRoomTrims(s: Arc)
    requires ListsValid(s)
    ensures Trimmed(s, MakeRoom(s))
  {
    if |s.t1.order| + |s.b1| >= s.capacity && |s.t1.order| < s.capacity {
      ReplaceTrims(s.(b1 := Tail(s.b1)), false);
    } else if |s.t1.order| + |s.b1| >= s.capacity && s.t1.order != [] {
      PopUsage(s.t1);
    } else {
      ReplaceTrims(s.(b2 := Tail(s.b2)), false);
      ReplaceTrims(s, false);
    }
  }

  lemma GhostHitTrims(s: Arc, key: CacheKey)
    requires ListsValid(s)
    ensures Trimmed(s, GhostHit1(s, key)) && Trimmed(s, GhostHit2(s, key))
  {
    WithoutNoDup(s.b1, key);
    WithoutNoDup(s.b2, key);
    var s1 := s.(b1 := Without(s.b1, key));
    ReplaceTrims(AdaptP(s1, DeltaB1(s1)), false);
    var s2 := s.(b2 := Without(s.b2, key));
    ReplaceTrims(AdaptP(s2, -DeltaB2(s2)), true);
  }

  lemma InsertValid(s: Arc, key: CacheKey, piece: CachedPiece)
    requires ListsValid(s)
    ensures ListsValid(Insert(s, key, piece))
  {
    if key in s.b1 || key in s.b2 {
      GhostHitTrims(s, key);
      PutValid((if key in s.b1 then GhostHit1(s, key) else GhostHit2(s, key)).t2, key, piece);
    } else {
      MakeRoomTrims(s);
      PutValid(MakeRoom(s).t1, key, piece);
    }
    hide GhostHit1, GhostHit2, MakeRoom;
  }

  lemma InsertUncachedTidy(s: Arc, key: CacheKey, piece: CachedPiece)
    requires Tidy(s) && !s.Contains(key)
    ensures Tidy(Insert(s, key, piece))
  {
    InsertDisjointIff(s, key, piece);
    InsertValid(s, key, piece);
  }

  lemma GetValid(s: Arc, key: CacheKey)
    requires ListsValid(s)
    ensures ListsValid(Get(s, key)) && (Tidy(s) ==> Tidy(Get(s, key)))
    ensures Get(s, key).Contains(key) == s.Contains(key)
  {
    RemoveValid(s.t1, key);
    TouchValid(s.t2, key);
    if key in s.t1.data {
      PutValid(s.t2, key, s.t1.data[key]);
    }
  }

  lemma TrimmedRemembers(s: Arc, r: Arc, ops: seq<Op>)
    requires Trimmed(s, r) && HistoryInv(s, ops)
    ensures Remembers(r.t1, ops) && Remembers(r.t2, ops) && r.memory == Usage(r.t1) + Usage(r.t2)
  {
  }

  /** Putting a key that is nowhere into either list of a trimmed state. */
  lemma PutKeepsHistory(r: Arc, ops: seq<Op>, key: CacheKey, piece: CachedPiece)
    requires HistoryInv(r, ops) && Absent(r, key)
    ensures HistoryInv(PutT1(r, key, piece), ops + [InsertOp(key, piece)])
    ensures HistoryInv(PutT2(r, key, piece), ops + [InsertOp(key, piece)])
  {
    var op := InsertOp(key, piece);
    HistoryStep(ops, op, key);
    PutDisjoint(r, key, piece);
    PutUsage(r.t1, key, piece);
    PutUsage(r.t2, key, piece);
    PutRemembers(r.t1, ops, op, key, piece);
    PutRemembers(r.t2, ops, op, key, piece);
    OthersRemember(r.t1, ops, op);
    OthersRemember(r.t2, ops, op);
  }

  lemma InsertKeepsHistory(s: Arc, ops: seq<Op>, key: CacheKey, piece: CachedPiece)
    requires HistoryInv(s, ops) && !s.Contains(key)
    ensures HistoryInv(Insert(s, key, piece), ops + [InsertOp(key, piece)])
  {
    if key in s.b1 {
      GhostHitEvicts(s, key);
      GhostHitTrims(s, key);
      TrimmedRemembers(s, GhostHit1(s, key), ops);
      PutKeepsHistory(GhostHit1(s, key), ops, key, piece);
    } else if key in s.b2 {
      GhostHitEvicts(s, key);
      GhostHitTrims(s, key);
      TrimmedRemembers(s, GhostHit2(s, key), ops);
      PutKeepsHistory(GhostHit2(s, key), ops, key, piece);
    } else {
      MakeRoomEvicts(s, key);
      MakeRoomTrims(s);
      TrimmedRemembers(s, MakeRoom(s), ops);
      PutKeepsHistory(MakeRoom(s), ops, key, piece);
    }
  }

  lemma GetKeepsHistory(s: Arc, ops: seq<Op>, key: CacheKey)
    requires HistoryInv(s, ops)
    ensures HistoryInv(Get(s, key), ops + [GetOp(key)])
  {
    var op := GetOp(key);
    if key in s.t1.data {
      HistoryStep(ops, op, key);
      RemoveUsage(s.t1, key);
      PutUsage(s.t2, key, s.t1.data[key]);
      RemoveRemembers(s.t1, ops, key);
      OthersRemember(s.t1.Remove(key), ops, op);
      PutRemembers(s.t2, ops, op, key, s.t1.data[key]);
    } else {
      TouchUsage(s.t2, key);
      TouchRemembers(s.t2, ops, key);
      OthersRemember(s.t1, ops, op);
    }
  }

  lemma RemoveKeepsHistory(s: Arc, ops: seq<Op>, key: CacheKey)
    requires HistoryInv(s, ops)
    ensures HistoryInv(Remove(s, key), ops + [RemoveOp(key)])
  {
    RemoveUsage(s.t1, key);
    RemoveUsage(s.t2, key);
    RemoveRemembers(s.t1, ops, key);
    RemoveRemembers(s.t2, ops, key);
    var r := Remove(s, key);
    OthersRemember(r.t1, ops, RemoveOp(key));
    OthersRemember(r.t2, ops, RemoveOp(key));
  }

  /**
   A promotion throws away the sizes `t2` reports, so the memory counter stays
   exact over a `get` unless the key has a non-empty copy in both lists.
   */
  lemma GetAccountsIff(s: Arc, key: CacheKey)
    requires ListsValid(s) && s.memory == Usage(s.t1) + Usage(s.t2)
    ensures var r := Get(s, key);
      ListsValid(r) &&
      (r.memory == Usage(r.t1) + Usage(r.t2) <==> !(key in s.t1.data && s.t2.SizeOf(key) > 0))
  {
    TouchUsage(s.t2, key);
    RemoveUsage(s.t1, key);
    if key in s.t1.data {
      PutUsage(s.t2, key, s.t1.data[key]);
    }
  }

  /** The memory counter covers what both lists hold. */
  ghost predicate Covered(s: Arc) {
    ListsValid(s) && s.memory >= Usage(s.t1) + Usage(s.t2)
  }

  lemma InsertCovers(s: Arc, key: CacheKey, piece: CachedPiece)
    requires Covered(s)
    ensures Covered(Insert(s, key, piece))
  {
    if key in s.b1 || key in s.b2 {
      GhostHitTrims(s, key);
      PutUsage((if key in s.b1 then GhostHit1(s, key) else GhostHit2(s, key)).t2, key, piece);
    } else {
      MakeRoomTrims(s);
      PutUsage(MakeRoom(s).t1, key, piece);
    }
    hide GhostHit1, GhostHit2, MakeRoom, Usage;
  }

  lemma OtherOpsCover(s: Arc, key: CacheKey)
    requires Covered(s)
    ensures Covered(Get(s, key)) && Covered(Remove(s, key))
  {
    TouchUsage(s.t2, key);
    RemoveUsage(s.t1, key);
    RemoveUsage(s.t2, key);
    if key in s.t1.data {
      PutUsage(s.t2, key, s.t1.data[key]);
    }
    hide Usage;
  }

  /**
   Over every run, overlapping lists included, the counter is at least what the lists
   hold: no eviction and no removal takes it below zero.
   */
  lemma {:induction false} RunCovers(capacity: nat, ops: seq<Op>)
    ensures Covered(Run(capacity, ops)) && Run(capacity, ops).memory >= 0
  {
    if ops != [] {
      var before := Run(capacity, ops[..|ops| - 1]);
      RunCovers(capacity, ops[..|ops| - 1]);
      hide Covered;
      match ops[|ops| - 1]
      case GetOp(key) => OtherOpsCover(before, key);
      case InsertOp(key, piece) => InsertCovers(before, key, piece);
      case RemoveOp(key) => OtherOpsCover(before, key);
      case ClearOp =>
    }
  }

  lemma RunMore(capacity: nat, ops: seq<Op>, op: Op)
    ensures Run(capacity, ops + [op]) == Step(Run(capacity, ops), op)
  {
    assert (ops + [op])[..|ops|] == ops;
  }

  ghost function Single(key: CacheKey, piece: CachedPiece): Lru {
    Lru([key], map[key := piece])
  }

  lemma SingleSteps(key: CacheKey, piece: CachedPiece)
    ensures var one, n := Single(key, piece), |piece.data|;
      && Insert(Empty(2), key, piece) == Arc(one, EMPTY_LRU, [], [], 0, 2, n)
      && Get(Arc(one, EMPTY_LRU, [], [], 0, 2, n), key) == Arc(EMPTY_LRU, one, [], [], 0, 2, n)
      && Insert(Arc(EMPTY_LRU, one, [], [], 0, 2, n), key, piece) == Arc(one, one, [], [], 0, 2, 2 * n)
      && Get(Arc(one, one, [], [], 0, 2, 2 * n), key) == Arc(EMPTY_LRU, one, [], [], 0, 2, 2 * n)
  {
    assert [key][1..] == [];
  }

  lemma OverlapRuns(key: CacheKey, piece: CachedPiece)
    ensures var one, n := Single(key, piece), |piece.data|;
      var insert, get := InsertOp(key, piece), GetOp(key);
      && Run(2, [insert, get, insert]) == Arc(one, one, [], [], 0, 2, 2 * n)
      && Run(2, [insert, get, insert, get]) == Arc(EMPTY_LRU, one, [], [], 0, 2, 2 * n)
  {
    var insert, get := InsertOp(key, piece), GetOp(key);
    SingleSteps(key, piece);
    hide Insert, Get;
    RunMore(2, [], insert);
    RunMore(2, [insert], get);
    RunMore(2, [insert, get], insert);
    RunMore(2, [insert, get, insert], get);
    assert [] + [insert] == [insert] && [insert] + [get] == [insert, get];
    assert [insert, get] + [insert] == [insert, get, insert];
    assert [insert, get, insert] + [get] == [insert, get, insert, get];
    assert Run(2, []) == Empty(2);
  }

  lemma SingleUsage(key: CacheKey, piece: CachedPiece)
    ensures Single(key, piece).Valid() && Usage(Single(key, piece)) == |piece.data|
    ensures EMPTY_LRU.Valid() && Usage(EMPTY_LRU) == 0
  {
    TotalAppend([], key, Single(key, piece).data);
    assert [] + [key] == [key];
  }

  /**
   Inserting a piece, reading it and inserting it again leaves it in both lists; the
   next read promotes one copy over the other and goes on counting its bytes.
   */
  lemma InsertAgainOverlaps(key: CacheKey, piece: CachedPiece)
    requires |piece.data| > 0
    ensures !Disjoint(Run(2, [InsertOp(key, piece), GetOp(key), InsertOp(key, piece)]))
    ensures var read := Run(2, [InsertOp(key, piece), GetOp(key), InsertOp(key, piece), GetOp(key)]);
      ListsValid(read) && read.memory == Usage(read.t1) + Usage(read.t2) + |piece.data|
  {
    OverlapRuns(key, piece);
    SingleUsage(key, piece);
    hide Run, Usage;
    assert key in Single(key, piece).data;
  }

  /** A run in which every insertion is of a key not cached at that moment. */
  ghost predicate FreshRun(capacity: nat, ops: seq<Op>) {
    ops == [] ||
    (FreshRun(capacity, ops[..|ops| - 1]) &&
     (ops[|ops| - 1].InsertOp? ==> !Run(capacity, ops[..|ops| - 1]).Contains(ops[|ops| - 1].key)))
  }

  lemma {:induction false} FreshRunKeepsHistory(capacity: nat, ops: seq<Op>)
    requires FreshRun(capacity, ops)
    ensures HistoryInv(Run(capacity, ops), ops)
  {
    if ops != [] {
      var prefix, op := ops[..|ops| - 1], ops[|ops| - 1];
      var before := Run(capacity, prefix);
      FreshRunKeepsHistory(capacity, prefix);
      assert ops == prefix + [op];
      match op
      case GetOp(key) => GetKeepsHistory(before, prefix, key);
      case InsertOp(key, piece) => InsertKeepsHistory(before, prefix, key, piece);
      case RemoveOp(key) => RemoveKeepsHistory(before, prefix, key);
      case ClearOp =>
    }
  }

  /** A hit returns the bytes of the last insertion of its key. */
  lemma GetReturnsLastInserted(capacity: nat, ops: seq<Op>, key: CacheKey)
    requires FreshRun(capacity, ops) && Run(capacity, ops).Lookup(key).Some?
    ensures LastInserted(ops, key).Some?
    ensures Run(capacity, ops).Lookup(key).value == LastInserted(ops, key).value.data
  {
    FreshRunKeepsHistory(capacity, ops);
  }

  /** Every key that left the list was used before those that stayed; only `key` may be new. */
  ghost predicate LosesOldest(l: Lru, after: Lru, ops: seq<Op>, key: CacheKey) {
    && (forall gone, kept :: gone in l.data && gone !in after.data && kept in l.data && kept in after.data
          ==> LastUse(ops, gone) < LastUse(ops, kept))
    && forall k :: k in after.data && k !in l.data ==> k == key
  }

  lemma KeysLoseOldest(l: Lru, r: Lru, first: CacheKey, ops: seq<Op>, key: CacheKey, piece: CachedPiece)
    requires r.data.Keys == l.data.Keys ||
      (r.data.Keys == l.data.Keys - {first} &&
       forall k :: k in l.data && k != first ==> LastUse(ops, first) < LastUse(ops, k))
    ensures LosesOldest(l, r, ops, key) && LosesOldest(l, r.Put(key, piece), ops, key)
  {
    hide LastUse;
    assert forall k :: k in r.Put(key, piece).data <==> k in r.data.Keys || k == key;
    assert forall k :: k in r.data <==> k in r.data.Keys;
    assert forall k :: k in l.data <==> k in l.data.Keys;
  }

  lemma ListLosesOldest(l: Lru, r: Lru, ops: seq<Op>, key: CacheKey, piece: CachedPiece)
    requires Remembers(l, ops) && (r == l || (l.order != [] && r == l.Pop()))
    ensures LosesOldest(l, r, ops, key) && LosesOldest(l, r.Put(key, piece), ops, key)
  {
    hide Remembers, LosesOldest;
    if r == l {
      KeysLoseOldest(l, r, key, ops, key, piece);
    } else {
      OldestFirst(l, ops);
      KeysLoseOldest(l, r, l.order[0], ops, key, piece);
    }
  }

  /**
   Whatever an insertion evicts, by `replace` after a ghost hit or a complete miss or
   from a full `t1` directly, was used before every key that stays in its list.
   */
  lemma InsertEvictsLeastRecent(capacity: nat, ops: seq<Op>, key: CacheKey, piece: CachedPiece)
    requires FreshRun(capacity, ops)
    ensures var s := Run(capacity, ops); var r := Insert(s, key, piece);
      LosesOldest(s.t1, r.t1, ops, key) && LosesOldest(s.t2, r.t2, ops, key)
  {
    var s := Run(capacity, ops);
    FreshRunKeepsHistory(capacity, ops);
    var r := if key in s.b1 then GhostHit1(s, key) else if key in s.b2 then GhostHit2(s, key) else MakeRoom(s);
    MakeRoomTrims(s);
    GhostHitTrims(s, key);
    ListLosesOldest(s.t1, r.t1, ops, key, piece);
    ListLosesOldest(s.t2, r.t2, ops, key, piece);
    hide GhostHit1, GhostHit2, MakeRoom, Run, Usage, FreshRun, LosesOldest;
  }

  lemma OldestFirst(l: Lru, ops: seq<Op>)
    requires Remembers(l, ops)
    ensures l.order != [] ==> forall k :: k in l.data && k != l.order[0] ==> LastUse(ops, l.order[0]) < LastUse(ops, k)
  {
  }
}
