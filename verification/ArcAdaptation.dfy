/**
 What the two lists of the piece cache mean, and which way ghost hits move the
 target: the policy seen from outside its code.
 */
module ArcAdaptation {
  import opened Prelude
  import opened Sequences
  import opened ArcPolicy
  import opened ArcHistory

  /** The most recently used key of a list. */
  ghost predicate Newest(l: Lru, key: CacheKey) {
    l.order != [] && l.order[|l.order| - 1] == key && key in l.data
  }

  lemma DivideLarger(a: nat, b: nat)
    requires b < a
    ensures a / Max(b, 1) >= 1
  {
  }

  lemma ReplaceKeepsTarget(s: Arc, inB2: bool)
    ensures Replace(s, inB2).p == s.p && Replace(s, inB2).capacity == s.capacity
  {
  }

  /**
   Regret moves the target: missing a piece that `t1` gave up enlarges the share of
   `t1`, missing one that `t2` gave up shrinks it, until the share is all or nothing.
   Any other insertion leaves it alone.
   */
  lemma GhostHitAdapts(s: Arc, key: CacheKey, piece: CachedPiece)
    requires SizeInv(s)
    ensures var p := Insert(s, key, piece).p;
      && (key in s.b1 ==> p > s.p || p == s.capacity)
      && (key !in s.b1 && key in s.b2 ==> p < s.p || p == 0)
      && (key !in s.b1 && key !in s.b2 ==> p == s.p)
      && 0 <= p <= s.capacity
  {
    if key in s.b1 {
      var s1 := s.(b1 := Without(s.b1, key));
      if |s1.b1| < |s1.b2| {
        DivideLarger(|s1.b2|, |s1.b1|);
      }
      ReplaceKeepsTarget(AdaptP(s1, DeltaB1(s1)), false);
    } else if key in s.b2 {
      var s1 := s.(b2 := Without(s.b2, key));
      if |s1.b2| < |s1.b1| {
        DivideLarger(|s1.b1|, |s1.b2|);
      }
      ReplaceKeepsTarget(AdaptP(s1, -DeltaB2(s1)), true);
    }
  }

  lemma PutIsNewest(l: Lru, key: CacheKey, piece: CachedPiece)
    requires l.Valid()
    ensures key !in l.data ==> Newest(l.Put(key, piece), key)
    ensures l.Put(key, piece).data[key] == piece
  {
  }

  /** A hit makes its piece the most recent of `t2`, and costs or changes no cached bytes. */
  lemma HitPromotes(s: Arc, key: CacheKey, other: CacheKey)
    requires Tidy(s) && s.Contains(key)
    ensures var r := Get(s, key);
      && Newest(r.t2, key) && key !in r.t1.data
      && r.Lookup(other) == s.Lookup(other) && r.b1 == s.b1 && r.b2 == s.b2 && r.p == s.p
  {
  }

  /**
   A removal takes the copy that a hit would return and frees its bytes; the piece stays
   cached only if it has a second copy. Nothing else changes.
   */
  lemma RemoveForgets(s: Arc, key: CacheKey, other: CacheKey)
    requires ListsValid(s)
    ensures var r := Remove(s, key);
      && (r.Contains(key) <==> key in s.t1.data && key in s.t2.data)
      && (other != key ==> r.Lookup(other) == s.Lookup(other)) && r.b1 == s.b1 && r.b2 == s.b2 && r.p == s.p
      && r.memory == s.memory - match s.Lookup(key) case Some(bytes) => |bytes| case None => 0
  {
  }

  /** Clearing forgets pieces, ghosts and the target, and keeps the capacity. */
  lemma ClearForgets(s: Arc)
    ensures var r := Step(s, ClearOp);
      && (forall k :: !r.Contains(k)) && r.b1 == [] && r.b2 == [] && r.p == 0 && r.memory == 0
      && r.capacity == s.capacity && r.t1.order == [] && r.t2.order == []
  {
  }

  /** An uncached piece enters `t2` if a ghost remembers it and `t1` if none does, as the most recent. */
  lemma InsertedIsNewest(s: Arc, key: CacheKey, piece: CachedPiece)
    requires Tidy(s) && !s.Contains(key)
    ensures var r := Insert(s, key, piece);
      && r.Lookup(key) == Some(piece.data)
      && (if key in s.b1 || key in s.b2 then Newest(r.t2, key) && key !in r.t1.data
          else Newest(r.t1, key) && key !in r.t2.data)
  {
    hide Replace, AdaptP;
    if key in s.b1 {
      GhostHitEvicts(s, key);
      PutIsNewest(GhostHit1(s, key).t2, key, piece);
    } else if key in s.b2 {
      GhostHitEvicts(s, key);
      PutIsNewest(GhostHit2(s, key).t2, key, piece);
    } else {
      MakeRoomEvicts(s, key);
      PutIsNewest(MakeRoom(s).t1, key, piece);
    }
  }

  /** The last use of the key was an insertion. */
  ghost predicate UnreadSinceInsert(ops: seq<Op>, key: CacheKey) {
    LastUse(ops, key) > 0 && LastUse(ops, key) <= |ops| && ops[LastUse(ops, key) - 1].InsertOp?
  }

  lemma UnreadStep(ops: seq<Op>, op: Op, key: CacheKey)
    ensures Concerns(op, key) && op.InsertOp? ==> UnreadSinceInsert(ops + [op], key)
    ensures !Concerns(op, key) && UnreadSinceInsert(ops, key) ==> UnreadSinceInsert(ops + [op], key)
  {
  }

  /** Only the inserted key is new in `t1`. */
  lemma InsertedT1(s: Arc, key: CacheKey, piece: CachedPiece, k: CacheKey)
    requires ListsValid(s) && k in Insert(s, key, piece).t1.data
    ensures k == key || k in s.t1.data
  {
    MakeRoomTrims(s);
    GhostHitTrims(s, key);
  }

  /**
   `t1` holds only pieces that were not read since they were inserted: whatever is
   read at least once, or comes back after its eviction, is in `t2`.
   */
  lemma {:induction false} T1IsUnread(capacity: nat, ops: seq<Op>, k: CacheKey)
    requires FreshRun(capacity, ops) && k in Run(capacity, ops).t1.data
    ensures UnreadSinceInsert(ops, k)
  {
    hide UnreadSinceInsert, Insert;
    if ops != [] {
      var prefix, op := ops[..|ops| - 1], ops[|ops| - 1];
      var before := Run(capacity, prefix);
      assert ops == prefix + [op];
      FreshRunKeepsHistory(capacity, prefix);
      UnreadStep(prefix, op, k);
      match op
      case GetOp(key) =>
        T1IsUnread(capacity, prefix, k);
      case InsertOp(key, piece) =>
        InsertedT1(before, key, piece, k);
        if k != key {
          T1IsUnread(capacity, prefix, k);
        }
      case RemoveOp(key) =>
        T1IsUnread(capacity, prefix, k);
      case ClearOp =>
    }
  }
}
