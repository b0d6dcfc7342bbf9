/**
 What an insertion evicts, list by list: from which list the victim comes, where it
 is remembered, and when nothing has to go.
 */
module ArcEviction {
  import opened Prelude
  import opened Sequences
  import opened ArcPolicy
  import opened ArcHistory

  /** The four lists, oldest key first. */
  ghost predicate Lists(s: Arc, t1: seq<CacheKey>, t2: seq<CacheKey>, b1: seq<CacheKey>, b2: seq<CacheKey>) {
    s.t1.order == t1 && s.t2.order == t2 && s.b1 == b1 && s.b2 == b2
  }

  /** `t1` gives a victim: it is longer than its target, or there is no other. */
  lemma ReplaceOnMissOrB1(s: Arc)
    requires Tidy(s)
    ensures var r, t1, t2 := Replace(s, false), s.t1.order, s.t2.order;
      if t1 != [] && (t2 == [] || |t1| > s.p) then Lists(r, t1[1..], t2, s.b1 + [t1[0]], s.b2)
      else if t2 != [] then Lists(r, t1, t2[1..], s.b1, s.b2 + [t2[0]])
      else r == s
  {
  }

  /** After a hit in `b2` the victim is taken from `t1` at its target size exactly. */
  lemma ReplaceOnB2(s: Arc)
    requires Tidy(s)
    ensures var r, t1, t2 := Replace(s, true), s.t1.order, s.t2.order;
      if t1 != [] && (t2 == [] || |t1| == s.p) then Lists(r, t1[1..], t2, s.b1 + [t1[0]], s.b2)
      else if t2 != [] then Lists(r, t1, t2[1..], s.b1, s.b2 + [t2[0]])
      else r == s
  {
  }

  lemma TargetAfterB1(s: Arc)
    requires 0 <= s.p <= s.capacity
    ensures var step := if |s.b1| >= |s.b2| then 1 else if |s.b1| == 0 then |s.b2| else |s.b2| / |s.b1|;
      AdaptP(s, DeltaB1(s)) == s.(p := if s.p + step > s.capacity then s.capacity else s.p + step)
  {
  }

  lemma TargetAfterB2(s: Arc)
    requires 0 <= s.p <= s.capacity
    ensures var step := if |s.b2| >= |s.b1| then 1 else if |s.b2| == 0 then |s.b1| else |s.b1| / |s.b2|;
      AdaptP(s, -DeltaB2(s)) == s.(p := if s.p < step then 0 else s.p - step)
  {
  }

  lemma ReplaceKeepsTarget(s: Arc, inB2: bool)
    ensures Replace(s, inB2).p == s.p
  {
  }

  /**
   A piece remembered in `b1`: the target of `t1` grows by one, or by how many times
   `b2` is longer, up to the capacity. One entry makes room, from `t1` if it is longer
   than that target.
   */
  lemma InsertOnB1Hit(s: Arc, key: CacheKey, piece: CachedPiece)
    requires Tidy(s) && Bounded(s) && key in s.b1
    ensures var r, t1, t2, b1 := Insert(s, key, piece), s.t1.order, s.t2.order, Without(s.b1, key);
      var step := if |b1| >= |s.b2| then 1 else if |b1| == 0 then |s.b2| else |s.b2| / |b1|;
      && r.p == (if s.p + step > s.capacity then s.capacity else s.p + step)
      && if t1 != [] && (t2 == [] || |t1| > r.p) then Lists(r, t1[1..], t2 + [key], b1 + [t1[0]], s.b2)
         else if t2 != [] then Lists(r, t1, t2[1..] + [key], b1, s.b2 + [t2[0]])
         else Lists(r, [], [key], b1, s.b2)
  {
    WithoutNoDup(s.b1, key);
    var s1 := s.(b1 := Without(s.b1, key));
    GhostHitEvicts(s, key);
    TargetAfterB1(s1);
    ReplaceOnMissOrB1(AdaptP(s1, DeltaB1(s1)));
    ReplaceKeepsTarget(AdaptP(s1, DeltaB1(s1)), false);
    hide Replace, AdaptP, DeltaB1, DeltaB2, Without;
  }

  /** A piece remembered in `b2`: the target of `t1` shrinks likewise, down to nothing. */
  lemma InsertOnB2Hit(s: Arc, key: CacheKey, piece: CachedPiece)
    requires Tidy(s) && Bounded(s) && key in s.b2
    ensures var r, t1, t2, b2 := Insert(s, key, piece), s.t1.order, s.t2.order, Without(s.b2, key);
      var step := if |b2| >= |s.b1| then 1 else if |b2| == 0 then |s.b1| else |s.b1| / |b2|;
      && r.p == (if s.p < step then 0 else s.p - step)
      && if t1 != [] && (t2 == [] || |t1| == r.p) then Lists(r, t1[1..], t2 + [key], s.b1 + [t1[0]], b2)
         else if t2 != [] then Lists(r, t1, t2[1..] + [key], s.b1, b2 + [t2[0]])
         else Lists(r, [], [key], s.b1, b2)
  {
    WithoutNoDup(s.b2, key);
    var s2 := s.(b2 := Without(s.b2, key));
    GhostHitEvicts(s, key);
    TargetAfterB2(s2);
    ReplaceOnB2(AdaptP(s2, -DeltaB2(s2)));
    ReplaceKeepsTarget(AdaptP(s2, -DeltaB2(s2)), true);
    hide Replace, AdaptP, DeltaB1, DeltaB2, Without;
  }

  /** A piece neither cached nor remembered: the target stays, and what goes depends on how full the lists are. */
  lemma InsertOnMiss(s: Arc, key: CacheKey, piece: CachedPiece)
    requires Tidy(s) && Bounded(s) && s.capacity >= 1 && Absent(s, key)
    ensures var r, t1, t2 := Insert(s, key, piece), s.t1.order, s.t2.order;
      var recent, all := |t1| + |s.b1|, |t1| + |t2| + |s.b1| + |s.b2|;
      var b1 := if recent >= s.capacity && s.b1 != [] then s.b1[1..] else s.b1;
      var b2 := if recent < s.capacity && all >= 2 * s.capacity && s.b2 != [] then s.b2[1..] else s.b2;
      && r.p == s.p
      && if all < s.capacity then Lists(r, t1 + [key], t2, s.b1, s.b2)
         else if |t1| >= s.capacity then Lists(r, t1[1..] + [key], t2, s.b1, s.b2)
         else if t1 != [] && (t2 == [] || |t1| > s.p) then Lists(r, t1[1..] + [key], t2, b1 + [t1[0]], b2)
         else if t2 != [] then Lists(r, t1 + [key], t2[1..], b1, b2 + [t2[0]])
         else Lists(r, [key], [], b1, b2)
  {
    DropGhostTidy(s, key);
    MakeRoomEvicts(s, key);
    ReplaceOnMissOrB1(s);
    ReplaceOnMissOrB1(s.(b1 := Tail(s.b1)));
    ReplaceOnMissOrB1(s.(b2 := Tail(s.b2)));
    hide Replace, Tidy;
  }

  /** Nothing that was cached is gone. */
  ghost predicate NothingEvicted(s: Arc, r: Arc) {
    (forall k :: k in s.t1.data ==> k in r.t1.data) && forall k :: k in s.t2.data ==> k in r.t2.data
  }

  /**
   The exact condition, for a key that is not cached: nothing is evicted if and only if
   nothing is cached, or the key is not remembered either and the four lists together
   are shorter than the capacity. A remembered key evicts a piece however much room there is.
   */
  lemma NothingEvictedIff(s: Arc, key: CacheKey, piece: CachedPiece)
    requires Tidy(s) && Bounded(s) && s.capacity >= 1 && !s.Contains(key)
    ensures NothingEvicted(s, Insert(s, key, piece)) <==>
            (s.t1.order == [] && s.t2.order == []) ||
            (key !in s.b1 && key !in s.b2 && |s.t1.order| + |s.t2.order| + |s.b1| + |s.b2| < s.capacity)
  {
    var r := Insert(s, key, piece);
    InsertDisjointIff(s, key, piece);
    InsertValid(s, key, piece);
    if key in s.b1 {
      InsertOnB1Hit(s, key, piece);
    } else if key in s.b2 {
      InsertOnB2Hit(s, key, piece);
    } else {
      InsertOnMiss(s, key, piece);
    }
    hide Insert, Disjoint;
    ListsKeep(s.t1, r.t1, key);
    ListsKeep(s.t2, r.t2, key);
  }

  /** A list that lost its oldest entry has lost a key; one that did not has lost none. */
  lemma ListsKeep(l: Lru, r: Lru, key: CacheKey)
    requires l.Valid() && r.Valid() && key !in l.data
    ensures r.order == l.order || r.order == l.order + [key] ==> forall k :: k in l.data ==> k in r.data
    ensures l.order != [] && (r.order == l.order[1..] || r.order == l.order[1..] + [key]) ==>
      l.order[0] in l.data && l.order[0] !in r.data
  {
  }

  const A: CacheKey := ("", 0)
  const B: CacheKey := ("", 1)
  const C: CacheKey := ("", 2)
  const D: CacheKey := ("", 3)
  const EMPTY_PIECE := CachedPiece([], true)

  /** A cache of three pieces whose target is still zero and whose last list is empty. */
  ghost predicate Three(s: Arc, t1: seq<CacheKey>, t2: seq<CacheKey>, b1: seq<CacheKey>) {
    Tidy(s) && Bounded(s) && s.capacity == 3 && s.p == 0 && Lists(s, t1, t2, b1, [])
  }

  lemma StepMiss(s: Arc, t1: seq<CacheKey>, t2: seq<CacheKey>, key: CacheKey)
    requires Three(s, t1, t2, []) && key !in t1 && key !in t2 && |t1| + |t2| <= 3 && t2 == [A]
    ensures var r := Step(s, InsertOp(key, EMPTY_PIECE));
      if |t1| < 2 then Three(r, t1 + [key], t2, []) else Three(r, t1[1..] + [key], t2, [t1[0]])
  {
    InsertOnMiss(s, key, EMPTY_PIECE);
    InsertKeepsSizes(s, key, EMPTY_PIECE);
    InsertUncachedTidy(s, key, EMPTY_PIECE);
    hide Insert, Disjoint;
  }

  lemma StepFirst()
    ensures Three(Step(Step(Empty(3), InsertOp(A, EMPTY_PIECE)), GetOp(A)), [], [A], [])
  {
    assert Without([A], A) == [];
  }

  lemma StepRemove(s: Arc, t1: seq<CacheKey>, t2: seq<CacheKey>, b1: seq<CacheKey>, key: CacheKey)
    requires Three(s, t1, t2, b1) && key in t1
    ensures Three(Step(s, RemoveOp(key)), Without(t1, key), t2, b1)
  {
    RemoveValid(s.t1, key);
    OtherOpsKeepSizes(s, key);
  }

  /** With one piece cached and one key remembered in a cache of three, inserting that key evicts the piece. */
  lemma RememberedKeyEvicts() returns (ops: seq<Op>)
    ensures Three(Run(3, ops), [], [A], [B])
    ensures !Insert(Run(3, ops), B, EMPTY_PIECE).Contains(A)
  {
    ops := [InsertOp(A, EMPTY_PIECE), GetOp(A), InsertOp(B, EMPTY_PIECE), InsertOp(C, EMPTY_PIECE),
            InsertOp(D, EMPTY_PIECE), RemoveOp(C), RemoveOp(D)];
    RunSeven(3, ops);
    StepFirst();
    var s2 := Step(Step(Empty(3), ops[0]), ops[1]);
    hide Step, Three, Run, Insert, Without;
    FillThree(s2);
    RemoveTwo(Step(Step(Step(s2, ops[2]), ops[3]), ops[4]));
    LastEvicts(Run(3, ops));
  }

  lemma FillThree(s: Arc)
    requires Three(s, [], [A], [])
    ensures Three(Step(Step(Step(s, InsertOp(B, EMPTY_PIECE)), InsertOp(C, EMPTY_PIECE)), InsertOp(D, EMPTY_PIECE)),
                  [C, D], [A], [B])
  {
    hide Step, Three;
    StepMiss(s, [], [A], B);
    var s1 := Step(s, InsertOp(B, EMPTY_PIECE));
    assert [] + [B] == [B] && [B] + [C] == [B, C] && [B, C][1..] + [D] == [C, D];
    StepMiss(s1, [B], [A], C);
    StepMiss(Step(s1, InsertOp(C, EMPTY_PIECE)), [B, C], [A], D);
  }

  lemma RemoveTwo(s: Arc)
    requires Three(s, [C, D], [A], [B])
    ensures Three(Step(Step(s, RemoveOp(C)), RemoveOp(D)), [], [A], [B])
  {
    assert [C, D][1..] == [D] && [D][1..] == [] && Without([], D) == Without([], C) == [];
    assert Without([D], C) == [D] + Without([], C) && Without([D], D) == [];
    assert Without([C, D], C) == Without([D], C);
    hide Step, Three, Without;
    StepRemove(s, [C, D], [A], [B], C);
    StepRemove(Step(s, RemoveOp(C)), [D], [A], [B], D);
  }

  lemma RunSeven(capacity: nat, ops: seq<Op>)
    requires |ops| == 7
    ensures Run(capacity, ops) == Step(Step(Step(Step(Step(Step(Step(Empty(capacity),
                                    ops[0]), ops[1]), ops[2]), ops[3]), ops[4]), ops[5]), ops[6])
  {
    hide Step;
    assert forall i :: 0 <= i < 7 ==> ops[..i + 1] == ops[..i] + [ops[i]];
    assert ops == ops[..7] && ops[..0] == [];
    assert Run(capacity, []) == Empty(capacity);
    hide Run;
    RunMore(capacity, ops[..0], ops[0]);
    RunMore(capacity, ops[..1], ops[1]);
    RunMore(capacity, ops[..2], ops[2]);
    RunMore(capacity, ops[..3], ops[3]);
    RunMore(capacity, ops[..4], ops[4]);
    RunMore(capacity, ops[..5], ops[5]);
    RunMore(capacity, ops[..6], ops[6]);
  }

  lemma LastEvicts(s: Arc)
    requires Three(s, [], [A], [B])
    ensures !Insert(s, B, EMPTY_PIECE).Contains(A)
  {
    InsertOnB1Hit(s, B, EMPTY_PIECE);
    InsertUncachedTidy(s, B, EMPTY_PIECE);
    assert Without([B], B) == [] && [A][1..] + [B] == [B];
    hide Insert, Disjoint;
  }
}
