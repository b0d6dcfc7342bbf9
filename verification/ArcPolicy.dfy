/**
 The adaptive replacement policy of the piece cache, as a function on values.
 `t1` holds pieces seen once, `t2` pieces seen again, `b1` and `b2` the keys
 recently evicted from each, and `p` the adaptive target size of `t1`.
 */
module ArcPolicy {
  import opened Prelude
  import opened Sequences

  datatype CachedPiece = CachedPiece(data: Bytes, verified: bool)

  /** An LRU list: `order` runs from the least to the most recently used key. */
  datatype Lru = Lru(order: seq<CacheKey>, data: map<CacheKey, CachedPiece>) {

    /** `order` is a duplicate-free ordering of the keys of `data`. */
    ghost predicate Valid() {
      NoDup(order) && forall k :: k in order <==> k in data
    }

    function Put(key: CacheKey, piece: CachedPiece): Lru {
      Lru(if key in data then order else order + [key], data[key := piece])
    }

    function Remove(key: CacheKey): Lru {
      if key in data then Lru(Without(order, key), data - {key}) else this
    }

    function Touch(key: CacheKey): Lru {
      if key in data then Lru(Without(order, key) + [key], data) else this
    }

    /** The list without its least recently used entry. */
    function Pop(): Lru
      requires order != []
    {
      Lru(order[1..], data - {order[0]})
    }

    function SizeOf(key: CacheKey): nat {
      if key in data then |data[key].data| else 0
    }
  }

  const EMPTY_LRU := Lru([], map[])

  datatype Arc = Arc(t1: Lru, t2: Lru, b1: seq<CacheKey>, b2: seq<CacheKey>,
                     p: int, capacity: nat, memory: int) {

    predicate Contains(key: CacheKey) {
      key in t1.data || key in t2.data
    }

    function Lookup(key: CacheKey): Option<Bytes> {
      if key in t1.data then Some(t1.data[key].data)
      else if key in t2.data then Some(t2.data[key].data)
      else None
    }

    function Len(): nat { |t1.order| + |t2.order| }
  }

  function Empty(capacity: nat): Arc {
    Arc(EMPTY_LRU, EMPTY_LRU, [], [], 0, capacity, 0)
  }

  function GhostAdd(ghosts: seq<CacheKey>, key: CacheKey): seq<CacheKey> {
    if key in ghosts then ghosts else ghosts + [key]
  }

  // -------------------------------------------------------------- operations

  function Get(s: Arc, key: CacheKey): Arc {
    if key in s.t1.data then
      s.(t1 := s.t1.Remove(key), t2 := s.t2.Put(key, s.t1.data[key]))
    else
      s.(t2 := s.t2.Touch(key))
  }

  function Remove(s: Arc, key: CacheKey): Arc {
    if key in s.t1.data then
      s.(t1 := s.t1.Remove(key), memory := s.memory - s.t1.SizeOf(key))
    else if key in s.t2.data then
      s.(t2 := s.t2.Remove(key), memory := s.memory - s.t2.SizeOf(key))
    else s
  }

  function DeltaB1(s: Arc): int {
    if |s.b1| >= |s.b2| then 1 else |s.b2| / Max(|s.b1|, 1)
  }

  function DeltaB2(s: Arc): int {
    if |s.b2| >= |s.b1| then 1 else |s.b1| / Max(|s.b2|, 1)
  }

  function AdaptP(s: Arc, delta: int): Arc {
    s.(p := Min(Max(s.p + delta, 0), s.capacity))
  }

  predicate EvictsFromT1(s: Arc, inB2: bool) {
    |s.t1.order| > 0 &&
    ((inB2 && |s.t1.order| == s.p) || (!inB2 && |s.t1.order| > s.p) || |s.t2.order| == 0)
  }

  function Replace(s: Arc, inB2: bool): Arc {
    if EvictsFromT1(s, inB2) then
      var victim := s.t1.order[0];
      s.(t1 := s.t1.Pop(), b1 := GhostAdd(s.b1, victim), memory := s.memory - s.t1.SizeOf(victim))
    else if s.t2.order != [] then
      var victim := s.t2.order[0];
      s.(t2 := s.t2.Pop(), b2 := GhostAdd(s.b2, victim), memory := s.memory - s.t2.SizeOf(victim))
    else s
  }

  function Tail<T>(s: seq<T>): seq<T> {
    if s == [] then [] else s[1..]
  }

  /** What a complete miss evicts before the new piece enters `t1`. */
  function MakeRoom(s: Arc): Arc {
    var inT1, inGhost1 := |s.t1.order|, |s.b1|;
    if inT1 + inGhost1 >= s.capacity then
      if inT1 < s.capacity then
        Replace(s.(b1 := Tail(s.b1)), false)
      else if s.t1.order != [] then
        s.(t1 := s.t1.Pop(), memory := s.memory - s.t1.SizeOf(s.t1.order[0]))
      else s
    else
      var total := inT1 + inGhost1 + |s.t2.order| + |s.b2|;
      if total >= s.capacity then
        Replace(if total >= 2 * s.capacity then s.(b2 := Tail(s.b2)) else s, false)
      else s
  }

  function PutT1(s: Arc, key: CacheKey, piece: CachedPiece): Arc {
    s.(t1 := s.t1.Put(key, piece), memory := s.memory + |piece.data| - s.t1.SizeOf(key))
  }

  function PutT2(s: Arc, key: CacheKey, piece: CachedPiece): Arc {
    s.(t2 := s.t2.Put(key, piece), memory := s.memory + |piece.data| - s.t2.SizeOf(key))
  }

  function GhostHit1(s: Arc, key: CacheKey): Arc {
    var s1 := s.(b1 := Without(s.b1, key));
    Replace(AdaptP(s1, DeltaB1(s1)), false)
  }

  function GhostHit2(s: Arc, key: CacheKey): Arc {
    var s1 := s.(b2 := Without(s.b2, key));
    Replace(AdaptP(s1, -DeltaB2(s1)), true)
  }

  function Insert(s: Arc, key: CacheKey, piece: CachedPiece): Arc {
    if key in s.b1 then PutT2(GhostHit1(s, key), key, piece)
    else if key in s.b2 then PutT2(GhostHit2(s, key), key, piece)
    else PutT1(MakeRoom(s), key, piece)
  }

  // --------------------------------------------------------------- size bounds

  ghost predicate ListsValid(s: Arc) {
    s.t1.Valid() && s.t2.Valid() && NoDup(s.b1) && NoDup(s.b2)
  }

  /** The four bounds; none of them is inductive on its own. */
  ghost predicate Bounded(s: Arc) {
    && |s.t1.order| + |s.t2.order| <= s.capacity
    && |s.t1.order| + |s.b1| <= s.capacity
    && |s.t1.order| + |s.t2.order| + |s.b1| + |s.b2| <= 2 * s.capacity
    && 0 <= s.p <= s.capacity
  }

  ghost predicate SizeInv(s: Arc) {
    ListsValid(s) && Bounded(s)
  }

  lemma PutValid(l: Lru, key: CacheKey, piece: CachedPiece)
    requires l.Valid()
    ensures l.Put(key, piece).Valid()
  {
  }

  lemma RemoveValid(l: Lru, key: CacheKey)
    requires l.Valid()
    ensures l.Remove(key).Valid()
    ensures |l.Remove(key).order| == if key in l.data then |l.order| - 1 else |l.order|
  {
    WithoutNoDup(l.order, key);
  }

  lemma TouchValid(l: Lru, key: CacheKey)
    requires l.Valid()
    ensures l.Touch(key).Valid()
    ensures |l.Touch(key).order| == |l.order|
  {
    WithoutNoDup(l.order, key);
  }

  lemma PopValid(l: Lru)
    requires l.Valid() && l.order != []
    ensures l.Pop().Valid()
  {
  }

  /**
   `replace` evicts exactly one entry whenever any entry is cached, and what it
   evicts becomes a ghost of the list it came from.
   */
  lemma ReplaceEvictsOne(s: Arc, inB2: bool)
    requires ListsValid(s)
    ensures var r := Replace(s, inB2);
      && ListsValid(r)
      && r.Len() == (if s.Len() > 0 then s.Len() - 1 else 0)
      && (|r.t1.order| == |s.t1.order| || (|r.t1.order| + 1 == |s.t1.order| && r.t2 == s.t2 && r.b2 == s.b2))
      && (|r.t2.order| == |s.t2.order| || (|r.t2.order| + 1 == |s.t2.order| && r.t1 == s.t1 && r.b1 == s.b1))
      && r.Len() + |r.b1| + |r.b2| <= s.Len() + |s.b1| + |s.b2|
      && |r.t1.order| + |r.b1| <= |s.t1.order| + |s.b1|
  {
  }

  lemma MakeRoomSizes(s: Arc)
    requires SizeInv(s) && s.capacity >= 1
    ensures var r := MakeRoom(s);
      && SizeInv(r) && r.capacity == s.capacity
      && r.Len() < s.capacity
      && |r.t1.order| + |r.b1| < s.capacity
      && r.Len() + |r.b1| + |r.b2| < 2 * s.capacity
  {
    var total := s.Len() + |s.b1| + |s.b2|;
    if |s.t1.order| + |s.b1| >= s.capacity {
      if |s.t1.order| < s.capacity {
        ReplaceEvictsOne(s.(b1 := Tail(s.b1)), false);
      } else {
        PopValid(s.t1);
      }
    } else if total >= 2 * s.capacity {
      ReplaceEvictsOne(s.(b2 := Tail(s.b2)), false);
    } else if total >= s.capacity {
      ReplaceEvictsOne(s, false);
    }
  }

  lemma GhostHitSizes(s: Arc, delta: int, inB2: bool)
    requires SizeInv(s) && s.capacity >= 1
    requires s.Len() + |s.b1| + |s.b2| < 2 * s.capacity
    ensures RoomForT2(Replace(AdaptP(s, delta), inB2), s.capacity)
  {
    ReplaceEvictsOne(AdaptP(s, delta), inB2);
  }

  ghost predicate RoomForT2(s: Arc, capacity: nat) {
    SizeInv(s) && s.capacity == capacity && s.Len() < capacity && s.Len() + |s.b1| + |s.b2| < 2 * capacity
  }

  lemma PutT2KeepsSizes(s: Arc, key: CacheKey, piece: CachedPiece)
    requires RoomForT2(s, s.capacity)
    ensures SizeInv(PutT2(s, key, piece))
  {
  }

  lemma GhostHit1Sizes(s: Arc, key: CacheKey)
    requires SizeInv(s) && s.capacity >= 1 && key in s.b1
    ensures RoomForT2(GhostHit1(s, key), s.capacity)
  {
    WithoutNoDup(s.b1, key);
    var s1 := s.(b1 := Without(s.b1, key));
    GhostHitSizes(s1, DeltaB1(s1), false);
  }

  lemma GhostHit2Sizes(s: Arc, key: CacheKey)
    requires SizeInv(s) && s.capacity >= 1 && key in s.b2
    ensures RoomForT2(GhostHit2(s, key), s.capacity)
  {
    WithoutNoDup(s.b2, key);
    var s1 := s.(b2 := Without(s.b2, key));
    GhostHitSizes(s1, -DeltaB2(s1), true);
  }

  lemma InsertKeepsSizes(s: Arc, key: CacheKey, piece: CachedPiece)
    requires SizeInv(s) && s.capacity >= 1
    ensures SizeInv(Insert(s, key, piece)) && Insert(s, key, piece).capacity == s.capacity
  {
    if key in s.b1 {
      GhostHit1Sizes(s, key);
      var room := GhostHit1(s, key);
      PutT2KeepsSizes(room, key, piece);
      assert Insert(s, key, piece) == PutT2(room, key, piece);
    } else if key in s.b2 {
      GhostHit2Sizes(s, key);
      var room := GhostHit2(s, key);
      PutT2KeepsSizes(room, key, piece);
      assert Insert(s, key, piece) == PutT2(room, key, piece);
    } else {
      MakeRoomSizes(s);
      var room := MakeRoom(s);
      PutValid(room.t1, key, piece);
    }
  }

  lemma OtherOpsKeepSizes(s: Arc, key: CacheKey)
    requires SizeInv(s)
    ensures SizeInv(Get(s, key)) && Get(s, key).capacity == s.capacity
    ensures SizeInv(Remove(s, key)) && Remove(s, key).capacity == s.capacity
  {
    RemoveValid(s.t1, key);
    RemoveValid(s.t2, key);
    TouchValid(s.t2, key);
    if key in s.t1.data {
      PutValid(s.t2, key, s.t1.data[key]);
    }
  }

  // ---------------------------------------------------------------------- runs

  datatype Op =
    | GetOp(key: CacheKey)
    | InsertOp(key: CacheKey, piece: CachedPiece)
    | RemoveOp(key: CacheKey)
    | ClearOp

  function Step(s: Arc, op: Op): Arc {
    match op
    case GetOp(key) => Get(s, key)
    case InsertOp(key, piece) => Insert(s, key, piece)
    case RemoveOp(key) => Remove(s, key)
    case ClearOp => Empty(s.capacity)
  }

  function Run(capacity: nat, ops: seq<Op>): Arc {
    if ops == [] then Empty(capacity)
    else Step(Run(capacity, ops[..|ops| - 1]), ops[|ops| - 1])
  }

  lemma {:induction false} RunKeepsSizes(capacity: nat, ops: seq<Op>)
    requires capacity >= 1
    ensures SizeInv(Run(capacity, ops)) && Run(capacity, ops).capacity == capacity
  {
    if ops != [] {
      var before := Run(capacity, ops[..|ops| - 1]);
      RunKeepsSizes(capacity, ops[..|ops| - 1]);
      match ops[|ops| - 1]
      case GetOp(key) => OtherOpsKeepSizes(before, key);
      case InsertOp(key, piece) => InsertKeepsSizes(before, key, piece);
      case RemoveOp(key) => OtherOpsKeepSizes(before, key);
      case ClearOp =>
    }
  }

  /**
   The bounds hold over every run exactly when the capacity is at least one: a
   cache built with capacity zero still takes its first piece.
   */
  lemma BoundsHoldIffCapacityPositive(capacity: nat)
    ensures (forall ops :: Bounded(Run(capacity, ops))) <==> capacity >= 1
  {
    if capacity >= 1 {
      forall ops ensures Bounded(Run(capacity, ops)) {
        RunKeepsSizes(capacity, ops);
      }
    } else {
      var op := InsertOp(("", 0), CachedPiece([], true));
      assert [op][..0] == [];
      assert Run(0, [op]) == Step(Run(0, []), op);
      assert !Bounded(Run(0, [op]));
    }
  }
}
