/** Kademlia node ids: the XOR metric and the bucket an id falls into. */
module NodeId {

  const ID_LENGTH := 20
  const NUM_BUCKETS := 160

  /** 160-bit ids, as bytes that bit operations apply to. */
  type NodeId = id: seq<bv8> | |id| == ID_LENGTH witness seq(20, _ => 0)

  function Distance(a: NodeId, b: NodeId): (d: NodeId)
    ensures forall i :: 0 <= i < ID_LENGTH ==> d[i] == a[i] ^ b[i]
  {
    seq(ID_LENGTH, i requires 0 <= i < ID_LENGTH => a[i] ^ b[i])
  }

  /** The array comparison of distances: lexicographic, most significant byte first. */
  predicate Closer(a: seq<bv8>, b: seq<bv8>) {
    a != [] && b != [] && (a[0] < b[0] || (a[0] == b[0] && Closer(a[1..], b[1..])))
  }

  /** `u8::leading_zeros`. */
  function LeadingZeros(x: bv8): (n: nat)
    ensures n <= 8 && (n == 8 <==> x == 0)
  {
    if x >= 0x80 then 0 else if x >= 0x40 then 1 else if x >= 0x20 then 2 else if x >= 0x10 then 3
    else if x >= 0x08 then 4 else if x >= 0x04 then 5 else if x >= 0x02 then 6 else if x >= 0x01 then 7 else 8
  }

  /** The position of the first byte of `d` that is not zero; 20 if there is none. */
  function FirstNonZero(d: seq<bv8>): (n: nat)
    ensures n <= |d| && (n < |d| ==> d[n] != 0)
    ensures forall i :: 0 <= i < n ==> d[i] == 0
  {
    if d == [] || d[0] != 0 then 0 else 1 + FirstNonZero(d[1..])
  }

  function BucketIndex(a: NodeId, b: NodeId): (n: nat)
    ensures n < NUM_BUCKETS
  {
    var d := Distance(a, b);
    var i := FirstNonZero(d);
    if i < ID_LENGTH then i * 8 + LeadingZeros(d[i]) else 159
  }

  /** The loop of `bucket_index`. */
  method ComputeBucketIndex(a: NodeId, b: NodeId) returns (n: nat)
    ensures n == BucketIndex(a, b)
  {
    var dist := Distance(a, b);
    for i := 0 to ID_LENGTH
      invariant FirstNonZero(dist) >= i
    {
      if dist[i] != 0 {
        return i * 8 + LeadingZeros(dist[i]);
      }
    }
    return 159;
  }

  // ------------------------------------------------------- the common bit prefix

  /** Bit `k` of a byte, counted from the most significant. */
  function ByteBit(x: bv8, k: nat): bool
    requires k < 8
  {
    (x >> (7 - k)) & 1 == 1
  }

  function Bit(id: NodeId, k: nat): bool
    requires k < NUM_BUCKETS
  {
    ByteBit(id[k / 8], k % 8)
  }

  /** Two bytes agree on exactly the bits before their XOR's first set bit. */
  lemma ByteBitsAgree(x: bv8, y: bv8, k: nat)
    requires k < 8
    ensures k < LeadingZeros(x ^ y) ==> ByteBit(x, k) == ByteBit(y, k)
    ensures k == LeadingZeros(x ^ y) ==> ByteBit(x, k) != ByteBit(y, k)
  {
  }

  /**
   The bucket index of two different ids is the length of their common bit prefix.
   */
  lemma BucketIndexIsCommonPrefix(a: NodeId, b: NodeId)
    requires a != b
    ensures var n := BucketIndex(a, b);
      (forall k :: 0 <= k < n ==> Bit(a, k) == Bit(b, k)) && Bit(a, n) != Bit(b, n)
  {
    hide LeadingZeros, ByteBit;
    var d, n := Distance(a, b), BucketIndex(a, b);
    var i := FirstNonZero(d);
    DifferentIds(a, b);
    forall k | 0 <= k < n ensures Bit(a, k) == Bit(b, k) {
      if k / 8 < i {
        XorZero(a[k / 8], b[k / 8]);
      } else {
        ByteBitsAgree(a[i], b[i], k % 8);
      }
    }
    ByteBitsAgree(a[i], b[i], n % 8);
  }

  lemma XorZero(x: bv8, y: bv8)
    ensures x ^ y == 0 <==> x == y
  {
  }

  lemma DifferentIds(a: NodeId, b: NodeId)
    ensures a != b <==> FirstNonZero(Distance(a, b)) < ID_LENGTH
  {
  }

  // ------------------------------------------------------------------ the metric

  lemma CloserAt(a: seq<bv8>, b: seq<bv8>, i: nat)
    requires i < |a| && |a| == |b| && a[i] < b[i]
    requires forall j :: 0 <= j < i ==> a[j] == b[j]
    ensures Closer(a, b)
  {
    if i > 0 {
      CloserAt(a[1..], b[1..], i - 1);
    }
  }

  lemma LeadingZerosOrder(x: bv8, y: bv8)
    requires LeadingZeros(x) < LeadingZeros(y)
    ensures y < x
  {
  }

  /** Any id in a higher-numbered bucket is strictly closer than any in a lower one. */
  lemma HigherBucketIsCloser(us: NodeId, near: NodeId, far: NodeId)
    requires us != near && us != far && BucketIndex(us, far) < BucketIndex(us, near)
    ensures Closer(Distance(us, near), Distance(us, far))
  {
    DifferentIds(us, near);
    DifferentIds(us, far);
    var dn, df := Distance(us, near), Distance(us, far);
    var i := FirstNonZero(df);
    assert i <= FirstNonZero(dn);
    if i < FirstNonZero(dn) {
      assert dn[i] == 0 && df[i] > 0;
    } else {
      LeadingZerosOrder(df[i], dn[i]);
    }
    CloserAt(dn, df, i);
  }

  lemma {:induction false} CloserTrichotomy(a: seq<bv8>, b: seq<bv8>)
    requires |a| == |b|
    ensures a == b || Closer(a, b) || Closer(b, a)
    ensures !(Closer(a, b) && Closer(b, a)) && (a == b ==> !Closer(a, b))
  {
    if a != [] {
      CloserTrichotomy(a[1..], b[1..]);
      assert a == [a[0]] + a[1..] && b == [b[0]] + b[1..];
    }
  }

  lemma {:induction false} CloserTransitive(a: seq<bv8>, b: seq<bv8>, c: seq<bv8>)
    requires Closer(a, b) && Closer(b, c)
    ensures Closer(a, c)
  {
    if a[0] == b[0] && b[0] == c[0] {
      CloserTransitive(a[1..], b[1..], c[1..]);
    }
  }

  /** Different ids are at different distances from every target. */
  lemma DistanceInjective(target: NodeId, a: NodeId, b: NodeId)
    ensures Distance(a, target) == Distance(b, target) ==> a == b
  {
    if Distance(a, target) == Distance(b, target) {
      forall i | 0 <= i < ID_LENGTH ensures a[i] == b[i] {
        assert Distance(a, target)[i] == Distance(b, target)[i];
        XorInjective(a[i], b[i], target[i]);
      }
    }
  }

  lemma XorInjective(x: bv8, y: bv8, t: bv8)
    ensures x ^ t == y ^ t ==> x == y
  {
  }

  // -------------------------------------------------------- random ids in a bucket

  /** Flips bit `bit` (from the least significant) and randomizes the bits below it. */
  function FlipAndFill(x: bv8, bit: nat, random: bv8): bv8
    requires bit < 8
  {
    var one: bv8 := 1;
    var flipped := x ^ (one << bit);
    if bit > 0 then
      var randomMask := (one << bit) - 1;
      (flipped & !randomMask) | (random & randomMask)
    else flipped
  }

  lemma FlipAndFillZeros(x: bv8, bit: nat, random: bv8)
    requires bit < 8
    ensures LeadingZeros(x ^ FlipAndFill(x, bit, random)) == 7 - bit
  {
  }

  /**
   `generate_id_for_bucket`: whatever the random bytes, the id differs from ours
   and falls into the bucket asked for.
   */
  method GenerateIdForBucket(us: NodeId, bucket: nat, random: NodeId) returns (id: NodeId)
    ensures bucket < NUM_BUCKETS ==> id != us && BucketIndex(us, id) == bucket
    ensures bucket >= NUM_BUCKETS ==> id == random
  {
    hide LeadingZeros, BucketIndex;
    if bucket >= NUM_BUCKETS {
      return random;
    }
    var bytes := new bv8[ID_LENGTH](i requires 0 <= i < ID_LENGTH => us[i]);
    var byteIdx, bitIdx := bucket / 8, 7 - bucket % 8;
    var one: bv8 := 1;
    bytes[byteIdx] := bytes[byteIdx] ^ (one << bitIdx);
    if bitIdx > 0 {
      var randomMask := (one << bitIdx) - 1;
      bytes[byteIdx] := (bytes[byteIdx] & !randomMask) | (random[byteIdx] & randomMask);
    }
    assert bytes[byteIdx] == FlipAndFill(us[byteIdx], bitIdx, random[byteIdx]);
    for i := byteIdx + 1 to ID_LENGTH
      invariant forall j :: 0 <= j < byteIdx ==> bytes[j] == us[j]
      invariant bytes[byteIdx] == FlipAndFill(us[byteIdx], bitIdx, random[byteIdx])
    {
      bytes[i] := random[i];
    }
    id := bytes[..];
    FlippedBucket(us, id, byteIdx, bitIdx, random[byteIdx]);
  }

  lemma FlippedBucket(us: NodeId, id: NodeId, byteIdx: nat, bitIdx: nat, random: bv8)
    requires byteIdx < ID_LENGTH && bitIdx < 8
    requires forall j :: 0 <= j < byteIdx ==> id[j] == us[j]
    requires id[byteIdx] == FlipAndFill(us[byteIdx], bitIdx, random)
    ensures id != us && BucketIndex(us, id) == byteIdx * 8 + (7 - bitIdx)
  {
    hide LeadingZeros, FlipAndFill;
    FlipAndFillZeros(us[byteIdx], bitIdx, random);
    forall j | 0 <= j < byteIdx ensures Distance(us, id)[j] == 0 {
      XorZero(us[j], id[j]);
    }
    DifferentIds(us, id);
    assert FirstNonZero(Distance(us, id)) == byteIdx;
  }
}
