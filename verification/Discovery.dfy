/** The XOR metric on 256-bit hashes, in bytes as the table computes it. */
module XorMetric {

  /** Big-endian bytes. */
  type Bytes = seq<bv8>

  function Pow256(n: nat): nat {
    if n == 0 then 1 else 256 * Pow256(n - 1)
  }

  function Value(s: Bytes): nat {
    if s == [] then 0 else Nat(s[0]) * Pow256(|s| - 1) + Value(s[1..])
  }

  function Xor(a: Bytes, b: Bytes): Bytes
    requires |a| == |b|
  {
    seq(|a|, i requires 0 <= i < |a| => a[i] ^ b[i])
  }

  /** The comparison of byte arrays: the first difference decides. */
  predicate Less(a: Bytes, b: Bytes)
    requires |a| == |b|
  {
    a != [] && (a[0] < b[0] || (a[0] == b[0] && Less(a[1..], b[1..])))
  }

  function ByteZeros(b: bv8): nat {
    if b >= 128 then 0 else if b >= 64 then 1 else if b >= 32 then 2 else if b >= 16 then 3
    else if b >= 8 then 4 else if b >= 4 then 5 else if b >= 2 then 6 else if b >= 1 then 7 else 8
  }

  function Zeros(s: Bytes): nat {
    if s == [] then 0 else if s[0] == 0 then 8 + Zeros(s[1..]) else ByteZeros(s[0])
  }

  method XorDistance(a: Bytes, b: Bytes) returns (dist: Bytes)
    requires |a| == |b|
    ensures dist == Xor(a, b) && |dist| == |a| && forall i :: 0 <= i < |a| ==> dist[i] == a[i] ^ b[i]
  {
    dist := [];
    for i := 0 to |a|
      invariant dist == Xor(a, b)[..i]
    {
      dist := dist + [a[i] ^ b[i]];
    }
  }

  method LeadingZeros(s: Bytes) returns (count: nat)
    ensures count == Zeros(s)
  {
    count := 0;
    for i := 0 to |s|
      invariant Zeros(s) == count + Zeros(s[i..])
    {
      assert s[i..][1..] == s[i + 1..];
      if s[i] == 0 {
        count := count + 8;
      } else {
        count := count + ByteZeros(s[i]);
        return;
      }
    }
  }

  lemma {:induction false} ValueBound(s: Bytes)
    ensures Value(s) < Pow256(|s|)
  {
    if s != [] {
      ValueBound(s[1..]);
      assert Nat(s[0]) <= 255;
      Mul(Nat(s[0]), 255, Pow256(|s| - 1));
    }
  }

  lemma Mul(a: nat, b: nat, p: nat)
    requires a <= b
    ensures a * p <= b * p
  { }

  lemma HeadDecides(x: nat, y: nat, p: nat, u: nat, v: nat)
    requires u < p && v < p
    ensures x * p + u < y * p + v <==> x < y || (x == y && u < v)
  {
    if x < y {
      Mul(x + 1, y, p);
      assert (x + 1) * p == x * p + p;
    } else if y < x {
      Mul(y + 1, x, p);
      assert (y + 1) * p == y * p + p;
    }
  }

  lemma ByteLess(a: bv8, b: bv8)
    ensures a < b <==> Nat(a) < Nat(b)
    ensures a == b <==> Nat(a) == Nat(b)
  { }

  lemma ValueHead(s: Bytes)
    requires s != []
    ensures Value(s) == Nat(s[0]) * Pow256(|s| - 1) + Value(s[1..])
  { }

  /** Comparing the bytes is comparing the numbers. */
  lemma {:induction false} LessIsNumeric(a: Bytes, b: Bytes)
    requires |a| == |b|
    ensures Less(a, b) <==> Value(a) < Value(b)
  {
    if a != [] {
      var a', b' := a[1..], b[1..];
      LessIsNumeric(a', b');
      ValueBound(a');
      ValueBound(b');
      ByteLess(a[0], b[0]);
      ValueHead(a);
      ValueHead(b);
      assert Less(a, b) <==> a[0] < b[0] || (a[0] == b[0] && Less(a', b'));
      hide *;
      HeadDecides(Nat(a[0]), Nat(b[0]), Pow256(|a| - 1), Value(a'), Value(b'));
    }
  }

  function Flip(a: bv8, b: bv8): bv8 {
    a ^ b
  }

  function Nat(a: bv8): nat {
    a as nat
  }

  function ByteDistance(a: bv8, b: bv8): nat {
    Nat(Flip(a, b))
  }

  lemma ByteTriangle(a: bv8, b: bv8, c: bv8)
    ensures ByteDistance(a, c) <= ByteDistance(a, b) + ByteDistance(b, c)
  {
    hide Flip, Nat;
    FlipTwice(a, b, c);
    FlipIsBelowSum(Flip(a, b), Flip(b, c));
  }

  lemma FlipTwice(a: bv8, b: bv8, c: bv8)
    ensures Flip(Flip(a, b), Flip(b, c)) == Flip(a, c)
  { }

  lemma FlipIsBelowSum(x: bv8, y: bv8)
    ensures Nat(Flip(x, y)) <= Nat(x) + Nat(y)
  {
    XorIsBelowSum(x, y);
  }

  lemma XorIsBelowSum(x: bv8, y: bv8)
    ensures (x ^ y) as nat <= x as nat + y as nat
  { }

  lemma HeadsAdd(x: nat, y: nat, z: nat, p: nat, u: nat, v: nat, w: nat)
    requires x <= y + z && u <= v + w
    ensures x * p + u <= (y * p + v) + (z * p + w)
  {
    Mul(x, y + z, p);
    assert (y + z) * p == y * p + z * p;
  }

  /** The triangle inequality. */
  lemma {:induction false} Triangle(a: Bytes, b: Bytes, c: Bytes)
    requires |a| == |b| == |c|
    ensures Value(Xor(a, c)) <= Value(Xor(a, b)) + Value(Xor(b, c))
  {
    hide *;
    if a == [] {
      Empty(a, c);
    } else {
      var a', b', c' := a[1..], b[1..], c[1..];
      Heads(a, b);
      Heads(a, c);
      Heads(b, c);
      Triangle(a', b', c');
      ByteTriangle(a[0], b[0], c[0]);
      HeadsAdd(ByteDistance(a[0], c[0]), ByteDistance(a[0], b[0]), ByteDistance(b[0], c[0]), Pow256(|a| - 1),
               Value(Xor(a', c')), Value(Xor(a', b')), Value(Xor(b', c')));
    }
  }

  lemma Empty(a: Bytes, c: Bytes)
    requires |a| == |c| == 0
    ensures Value(Xor(a, c)) == 0
  { }

  lemma Heads(a: Bytes, b: Bytes)
    requires |a| == |b| > 0
    ensures Value(Xor(a, b)) == ByteDistance(a[0], b[0]) * Pow256(|a| - 1) + Value(Xor(a[1..], b[1..]))
  {
    Tails(a, b);
  }

  lemma Tails(a: Bytes, b: Bytes)
    requires |a| == |b| > 0
    ensures Xor(a, b)[1..] == Xor(a[1..], b[1..]) && Xor(a, b)[0] == a[0] ^ b[0]
  { }

  lemma {:induction false} ZerosBound(s: Bytes)
    ensures Zeros(s) <= 8 * |s|
  {
    if s != [] { ZerosBound(s[1..]); }
  }

  lemma ByteOrder(a: bv8, b: bv8)
    ensures ByteZeros(a) < ByteZeros(b) ==> b < a
    ensures ByteZeros(a) == ByteZeros(b) < 8 ==> (a ^ b) < a && (a ^ b) < b
    ensures ByteZeros(a) == 8 <==> a == 0
  { }

  /** Fewer leading zeros, farther away. */
  lemma {:induction false} FewerZerosIsFarther(d: Bytes, e: Bytes)
    requires |d| == |e| && Zeros(d) < Zeros(e)
    ensures Less(e, d)
  {
    ByteOrder(d[0], e[0]);
    if d[0] == 0 { FewerZerosIsFarther(d[1..], e[1..]); }
  }

  /** Two distances with the same first bit: their difference is below both. */
  lemma {:induction false} SameZerosIsClose(d: Bytes, e: Bytes)
    requires |d| == |e| && Zeros(d) == Zeros(e) < 8 * |d|
    ensures Less(Xor(d, e), d) && Less(Xor(d, e), e)
  {
    Tails(d, e);
    ByteOrder(d[0], e[0]);
    if d[0] == 0 {
      if e[0] == 0 { SameZerosIsClose(d[1..], e[1..]); }
    }
  }

  lemma XorCancels(l: Bytes, x: Bytes, y: Bytes)
    requires |l| == |x| == |y|
    ensures Xor(Xor(l, x), Xor(l, y)) == Xor(x, y)
  {
    forall i | 0 <= i < |l| ensures (l[i] ^ x[i]) ^ (l[i] ^ y[i]) == x[i] ^ y[i] {
      ByteCancels(l[i], x[i], y[i]);
    }
  }

  lemma ByteCancels(l: bv8, x: bv8, y: bv8)
    ensures (l ^ x) ^ (l ^ y) == x ^ y
  { }
}

/** The Kademlia-style table of discovered nodes. */
module Discovery {
  import opened XorMetric

  const K := 20
  const BUCKETS := 256
  const HASH_BYTES := 32

  type Hash = h: Bytes | |h| == HASH_BYTES witness seq(HASH_BYTES, i => 0)
  datatype NodeInfo = NodeInfo(nodeId: string, addr: string)

  /** Buckets are numbered by the leading zeros of the distance; equal hashes share the last one. */
  function BucketOf(local: Hash, h: Hash): (r: nat)
    ensures r < BUCKETS
  {
    var z := Zeros(Xor(local, h));
    if z >= BUCKETS then BUCKETS - 1 else z
  }

  /** A lower bucket lies strictly farther from the local node. */
  lemma LowerBucketIsFarther(local: Hash, x: Hash, y: Hash)
    requires BucketOf(local, x) < BucketOf(local, y)
    ensures Value(Xor(local, y)) < Value(Xor(local, x))
  {
    FewerZerosIsFarther(Xor(local, x), Xor(local, y));
    LessIsNumeric(Xor(local, y), Xor(local, x));
  }

  lemma {:induction false} AllZeros(s: Bytes)
    requires Zeros(s) == 8 * |s|
    ensures forall i :: 0 <= i < |s| ==> s[i] == 0
  {
    if s != [] {
      ZerosBound(s[1..]);
      ByteOrder(s[0], 0);
      AllZeros(s[1..]);
      assert forall i :: 0 < i < |s| ==> s[i] == s[1..][i - 1];
    }
  }

  lemma NotLocal(local: Hash, x: Hash)
    requires x != local
    ensures Zeros(Xor(local, x)) < BUCKETS
  {
    var d := Xor(local, x);
    ZerosBound(d);
    if Zeros(d) == BUCKETS {
      AllZeros(d);
      forall i | 0 <= i < HASH_BYTES ensures local[i] == x[i] {
        assert d[i] == local[i] ^ x[i];
        SameByte(local[i], x[i]);
      }
    }
  }

  lemma SameByte(a: bv8, b: bv8)
    ensures a ^ b == 0 ==> a == b
  { }

  /** Two nodes of one bucket are strictly closer to each other than either is to the local node. */
  lemma BucketMatesAreClose(local: Hash, x: Hash, y: Hash)
    requires BucketOf(local, x) == BucketOf(local, y) && x != local && y != local
    ensures Value(Xor(x, y)) < Value(Xor(local, x)) && Value(Xor(x, y)) < Value(Xor(local, y))
  {
    NotLocal(local, x);
    NotLocal(local, y);
    var d, e := Xor(local, x), Xor(local, y);
    SameZerosIsClose(d, e);
    XorCancels(local, x, y);
    LessIsNumeric(Xor(d, e), d);
    LessIsNumeric(Xor(d, e), e);
  }

  function Position(b: seq<NodeInfo>, id: string): (r: int)
    ensures r == -1 ==> forall n :: n in b ==> n.nodeId != id
    ensures r != -1 ==> 0 <= r < |b| && b[r].nodeId == id
  {
    if b == [] then -1 else if b[0].nodeId == id then 0 else
      var p := Position(b[1..], id);
      if p == -1 then -1 else p + 1
  }

  function Retain(b: seq<NodeInfo>, id: string): seq<NodeInfo> {
    if b == [] then [] else Retain(b[..|b| - 1], id) + if b[|b| - 1].nodeId == id then [] else [b[|b| - 1]]
  }

  /** The rest of the bucket in its order, and the node at p last. */
  function MovedToEnd(b: seq<NodeInfo>, p: nat): seq<NodeInfo>
    requires p < |b|
  {
    b[..p] + b[p + 1..] + [b[p]]
  }

  /** What an update makes of the bucket of `id`. */
  function Updated(b: seq<NodeInfo>, id: string, addr: string): seq<NodeInfo> {
    var p := Position(b, id);
    if p != -1 then MovedToEnd(b, p) else if |b| < K then b + [NodeInfo(id, addr)] else b
  }

  predicate Accepted(b: seq<NodeInfo>, id: string) {
    Position(b, id) != -1 || |b| < K
  }

  lemma AcceptedWhen(b: seq<NodeInfo>, id: string)
    ensures Accepted(b, id) <==> Position(b, id) != -1 || |b| < K
  { }

  /** Who a table belongs to. */
  datatype Owner = Owner(hash: string -> Hash, id: string) {
    function Bucket(id: string): nat {
      BucketOf(hash(this.id), hash(id))
    }
  }

  /** Bucket i is small, holds only its own nodes and not the owner, and lists them by time of last accepted update. */
  ghost predicate BucketOk(o: Owner, i: int, b: seq<NodeInfo>, seen: map<string, nat>, clock: nat) {
    && |b| <= K
    && (forall n :: n in b ==> Listed(o, i, n, seen, clock))
    && (forall j, k :: 0 <= j < k < |b| ==> Before(seen, b[j], b[k]))
  }

  ghost predicate Listed(o: Owner, i: int, n: NodeInfo, seen: map<string, nat>, clock: nat) {
    n.nodeId != o.id && o.Bucket(n.nodeId) == i && n.nodeId in seen && seen[n.nodeId] <= clock
  }

  ghost predicate Before(seen: map<string, nat>, m: NodeInfo, n: NodeInfo) {
    m.nodeId in seen && n.nodeId in seen && seen[m.nodeId] < seen[n.nodeId]
  }

  lemma OthersKept(o: Owner, i: int, b: seq<NodeInfo>, seen: map<string, nat>, clock: nat, id: string)
    requires BucketOk(o, i, b, seen, clock) && forall n :: n in b ==> n.nodeId != id
    ensures BucketOk(o, i, b, seen[id := clock + 1], clock + 1)
  {
    var seen' := seen[id := clock + 1];
    forall n | n in b ensures Listed(o, i, n, seen', clock + 1) { assert Listed(o, i, n, seen, clock); }
    forall j, k | 0 <= j < k < |b| ensures Before(seen', b[j], b[k]) {
      assert Before(seen, b[j], b[k]) && b[j] in b && b[k] in b;
    }
  }

  lemma Appended(o: Owner, i: int, b: seq<NodeInfo>, seen: map<string, nat>, clock: nat, n: NodeInfo)
    requires BucketOk(o, i, b, seen, clock) && (forall m :: m in b ==> m.nodeId != n.nodeId)
    requires |b| < K && n.nodeId != o.id && o.Bucket(n.nodeId) == i
    ensures BucketOk(o, i, b + [n], seen[n.nodeId := clock + 1], clock + 1)
  {
    var seen', b' := seen[n.nodeId := clock + 1], b + [n];
    OthersKept(o, i, b, seen, clock, n.nodeId);
    forall j, k | 0 <= j < k < |b'| ensures Before(seen', b'[j], b'[k]) {
      assert b[j] in b;
      assert Listed(o, i, b[j], seen, clock) && Listed(o, i, b[j], seen', clock + 1);
      if k < |b| { assert Before(seen', b[j], b[k]); }
    }
  }

  lemma CutOut(o: Owner, i: int, b: seq<NodeInfo>, seen: map<string, nat>, clock: nat, p: nat)
    requires BucketOk(o, i, b, seen, clock) && p < |b|
    ensures BucketOk(o, i, b[..p] + b[p + 1..], seen, clock)
    ensures forall m :: m in b[..p] + b[p + 1..] ==> m.nodeId != b[p].nodeId
  {
    var c := b[..p] + b[p + 1..];
    assert forall j :: 0 <= j < |c| ==> c[j] == b[if j < p then j else j + 1];
    forall j, k | 0 <= j < k < |c| ensures Before(seen, c[j], c[k]) {
      assert Before(seen, b[if j < p then j else j + 1], b[if k < p then k else k + 1]);
    }
    forall m | m in c ensures m.nodeId != b[p].nodeId {
      var j :| 0 <= j < |c| && c[j] == m;
      var j' := if j < p then j else j + 1;
      assert if j' < p then Before(seen, b[j'], b[p]) else Before(seen, b[p], b[j']);
    }
  }

  lemma UpdatedOk(o: Owner, b: seq<NodeInfo>, seen: map<string, nat>, clock: nat, id: string, addr: string)
    requires BucketOk(o, o.Bucket(id), b, seen, clock) && id != o.id && Accepted(b, id)
    ensures BucketOk(o, o.Bucket(id), Updated(b, id, addr), seen[id := clock + 1], clock + 1)
  {
    var p := Position(b, id);
    if p != -1 {
      CutOut(o, o.Bucket(id), b, seen, clock, p);
      Appended(o, o.Bucket(id), b[..p] + b[p + 1..], seen, clock, b[p]);
    } else {
      Appended(o, o.Bucket(id), b, seen, clock, NodeInfo(id, addr));
    }
  }

  /**
   * What an update makes of a bucket: a listed node goes to the end as it is and the others close up, a new one comes
   * last with its address while there are fewer than 20, and a full bucket stays as it is.
   */
  lemma UpdatedIs(b: seq<NodeInfo>, id: string, addr: string)
    ensures (exists n :: n in b && n.nodeId == id) ==>
      exists p :: 0 <= p < |b| && b[p].nodeId == id && Updated(b, id, addr) == b[..p] + b[p + 1..] + [b[p]]
    ensures (forall n :: n in b ==> n.nodeId != id) ==>
      Updated(b, id, addr) == if |b| < 20 then b + [NodeInfo(id, addr)] else b
  {
    var p := Position(b, id);
    if p != -1 {
      assert b[p] in b;
      assert Updated(b, id, addr) == b[..p] + b[p + 1..] + [b[p]];
    }
  }

  /** Removing closes the gap. */
  lemma {:induction false} RetainCloses(b: seq<NodeInfo>, id: string, p: nat)
    requires p < |b| && b[p].nodeId == id && forall j :: 0 <= j < |b| && j != p ==> b[j].nodeId != id
    ensures Retain(b, id) == b[..p] + b[p + 1..]
    decreases |b|
  {
    var n := |b| - 1;
    if p == n {
      RetainAll(b[..n], id);
      assert b[..p] + b[p + 1..] == b[..n];
    } else {
      RetainCloses(b[..n], id, p);
      assert b[..n][..p] == b[..p] && b[..n][p + 1..] + [b[n]] == b[p + 1..];
    }
  }

  lemma {:induction false} RetainAll(b: seq<NodeInfo>, id: string)
    requires forall j :: 0 <= j < |b| ==> b[j].nodeId != id
    ensures Retain(b, id) == b
  {
    if b != [] {
      RetainAll(b[..|b| - 1], id);
      assert b == b[..|b| - 1] + [b[|b| - 1]];
    }
  }

  /** Removing keeps the order of the rest and takes out exactly the node with that id. */
  lemma {:induction false} RetainOk(o: Owner, i: int, b: seq<NodeInfo>, seen: map<string, nat>, clock: nat, id: string)
    requires BucketOk(o, i, b, seen, clock)
    ensures BucketOk(o, i, Retain(b, id), seen, clock)
    ensures forall n :: n in Retain(b, id) <==> n in b && n.nodeId != id
  {
    if b != [] {
      var init, last := b[..|b| - 1], b[|b| - 1];
      assert b == init + [last];
      assert BucketOk(o, i, init, seen, clock) by {
        forall j, k | 0 <= j < k < |init| ensures Before(seen, init[j], init[k]) { assert Before(seen, b[j], b[k]); }
      }
      RetainOk(o, i, init, seen, clock, id);
      if last.nodeId != id {
        var r := Retain(init, id);
        assert |r| <= |init| by { RetainShrinks(init, id); }
        forall j, k | 0 <= j < k < |r + [last]| ensures Before(seen, (r + [last])[j], (r + [last])[k]) {
          if k == |r| {
            assert r[j] in r;
            var l :| 0 <= l < |init| && init[l] == r[j];
            assert Before(seen, b[l], b[|b| - 1]);
          } else {
            assert Before(seen, r[j], r[k]);
          }
        }
      }
    }
  }

  lemma {:induction false} RetainShrinks(b: seq<NodeInfo>, id: string)
    ensures |Retain(b, id)| <= |b|
  {
    if b != [] { RetainShrinks(b[..|b| - 1], id); }
  }

  lemma {:induction false} ZeroIsSame(a: Bytes, b: Bytes)
    requires |a| == |b|
    ensures Value(Xor(a, b)) == 0 <==> a == b
  {
    hide Value, Xor, Pow256, ByteDistance;
    if a != [] {
      Heads(a, b);
      ZeroIsSame(a[1..], b[1..]);
      PowIsPositive(|a| - 1);
      FirstByte(a[0], b[0]);
      NoProduct(ByteDistance(a[0], b[0]), Pow256(|a| - 1));
      assert a == [a[0]] + a[1..] && b == [b[0]] + b[1..];
    } else {
      Empty(a, b);
    }
  }

  lemma NoProduct(x: nat, y: nat)
    requires y > 0
    ensures x * y == 0 <==> x == 0
  { }

  lemma {:induction false} PowIsPositive(n: nat)
    ensures Pow256(n) > 0
  {
    if n > 0 { PowIsPositive(n - 1); }
  }

  lemma FirstByte(a: bv8, b: bv8)
    ensures ByteDistance(a, b) == 0 <==> a == b
  {
    SameByte(a, b);
  }

  function Distance(hash: string -> Hash, target: Hash, n: NodeInfo): nat {
    Value(Xor(target, hash(n.nodeId)))
  }

  ghost predicate Ascending(hash: string -> Hash, target: Hash, s: seq<NodeInfo>) {
    forall i, j :: 0 <= i < j < |s| ==> Distance(hash, target, s[i]) <= Distance(hash, target, s[j])
  }

  /** Where a node goes in an ascending list: after all that are not farther. */
  method Insert(hash: string -> Hash, target: Hash, s: seq<NodeInfo>, n: NodeInfo) returns (r: seq<NodeInfo>)
    requires Ascending(hash, target, s)
    ensures Ascending(hash, target, r) && multiset(r) == multiset(s) + multiset{n}
  {
    hide Distance, Ascending;
    var i := |s|;
    while i > 0 && Distance(hash, target, n) < Distance(hash, target, s[i - 1])
      invariant 0 <= i <= |s|
      invariant forall j :: i <= j < |s| ==> Distance(hash, target, n) < Distance(hash, target, s[j])
    {
      i := i - 1;
    }
    r := s[..i] + [n] + s[i..];
    assert s == s[..i] + s[i..];
    InsertAscends(hash, target, s, n, i);
  }

  lemma InsertAscends(hash: string -> Hash, target: Hash, s: seq<NodeInfo>, n: NodeInfo, i: nat)
    requires Ascending(hash, target, s) && i <= |s|
    requires i > 0 ==> Distance(hash, target, s[i - 1]) <= Distance(hash, target, n)
    requires forall j :: i <= j < |s| ==> Distance(hash, target, n) < Distance(hash, target, s[j])
    ensures Ascending(hash, target, s[..i] + [n] + s[i..])
  {
    hide Distance;
    var r := s[..i] + [n] + s[i..];
    assert forall j :: 0 <= j < i ==> Distance(hash, target, s[j]) <= Distance(hash, target, n);
    assert forall j :: 0 <= j < |r| ==> r[j] == if j < i then s[j] else if j == i then n else s[j - 1];
  }

  class RoutingTable {
    const owner: Owner
    var buckets: seq<seq<NodeInfo>>
    /** When each listed node was last accepted. */
    ghost var clock: nat
    ghost var seen: map<string, nat>

    ghost predicate Valid()
      reads this
    {
      && |buckets| == BUCKETS
      && forall i :: 0 <= i < BUCKETS ==> BucketOk(owner, i, buckets[i], seen, clock)
    }

    constructor (hash: string -> Hash, id: string)
      ensures Valid() && owner == Owner(hash, id)
      ensures forall i :: 0 <= i < BUCKETS ==> buckets[i] == []
    {
      owner := Owner(hash, id);
      buckets := seq(BUCKETS, i => []);
      clock, seen := 0, map[];
    }

    /** No id is listed twice anywhere in the table, and the owner's is not listed. */
    lemma IdsAreUnique(i: nat, j: nat, k: nat, l: nat)
      requires Valid() && i < BUCKETS && k < BUCKETS && j < |buckets[i]| && l < |buckets[k]|
      ensures buckets[i][j].nodeId == buckets[k][l].nodeId ==> i == k && j == l
      ensures buckets[i][j].nodeId != owner.id
    {
      var m, n := buckets[i][j], buckets[k][l];
      assert m in buckets[i] && n in buckets[k];
      assert Listed(owner, i, m, seen, clock) && Listed(owner, k, n, seen, clock);
      if i == k && j < l { assert Before(seen, m, n); }
      if i == k && l < j { assert Before(seen, n, m); }
    }

    method IndexOf(id: string) returns (i: nat)
      ensures i == owner.Bucket(id) && i < BUCKETS
    {
      var dist := XorDistance(owner.hash(owner.id), owner.hash(id));
      var z := LeadingZeros(dist);
      i := if z >= BUCKETS then BUCKETS - 1 else z;
    }

    /**
     * A known node moves to the end of its bucket, with the address it had; a new one is added while there is room;
     * a full bucket and all other buckets stay as they are.
     */
    method Update(id: string, addr: string)
      requires Valid()
      modifies this
      ensures Valid()
      ensures buckets == if id == owner.id then old(buckets) else
        old(buckets)[owner.Bucket(id) := Updated(old(buckets)[owner.Bucket(id)], id, addr)]
      ensures id != owner.id && Accepted(old(buckets)[owner.Bucket(id)], id) ==>
          id in seen && seen[id] == clock > old(clock)
    {
      hide BucketOk, Position, Accepted;
      if id == owner.id {
        return;
      }
      var i := IndexOf(id);
      var b := buckets[i];
      ghost var was, seen0, at := buckets, seen, clock;
      assert BucketOk(owner, i, b, seen, clock);
      AcceptedWhen(b, id);
      var pos := Position(b, id);
      if pos != -1 {
        buckets := buckets[i := b[..pos] + b[pos + 1..] + [b[pos]]];
      } else if |b| < K {
        buckets := buckets[i := b + [NodeInfo(id, addr)]];
      } else {
        assert buckets[i := b] == buckets;
        return;
      }
      clock, seen := clock + 1, seen[id := clock + 1];
      UpdatedOk(owner, b, seen0, at, id, addr);
      OtherBuckets(was, seen0, at, id, i);
    }

    lemma OtherBuckets(was: seq<seq<NodeInfo>>, seen0: map<string, nat>, at: nat, id: string, i: nat)
      requires i == owner.Bucket(id) && |was| == BUCKETS && forall j :: 0 <= j < BUCKETS ==>
          BucketOk(owner, j, was[j], seen0, at)
      ensures forall j :: 0 <= j < BUCKETS && j != i ==> BucketOk(owner, j, was[j], seen0[id := at + 1], at + 1)
    {
      forall j | 0 <= j < BUCKETS && j != i ensures BucketOk(owner, j, was[j], seen0[id := at + 1], at + 1) {
        forall n | n in was[j] ensures n.nodeId != id { assert Listed(owner, j, n, seen0, at); }
        OthersKept(owner, j, was[j], seen0, at, id);
      }
    }

    method Remove(id: string)
      requires Valid()
      modifies this`buckets
      ensures Valid()
      ensures buckets == old(buckets)[owner.Bucket(id) := Retain(old(buckets)[owner.Bucket(id)], id)]
      ensures forall j, n :: 0 <= j < BUCKETS ==> (n in buckets[j] <==> n in old(buckets[j]) && n.nodeId != id)
    {
      var i := IndexOf(id);
      RetainOk(owner, i, buckets[i], seen, clock, id);
      forall j, n | 0 <= j < BUCKETS && j != i && n in buckets[j] ensures n.nodeId != id {
        assert BucketOk(owner, j, buckets[j], seen, clock);
        assert Listed(owner, j, n, seen, clock);
      }
      buckets := buckets[i := Retain(buckets[i], id)];
    }

    ghost function Contents(n: nat): multiset<NodeInfo>
      requires n <= |buckets|
      reads this
    {
      if n == 0 then multiset{} else Contents(n - 1) + multiset(buckets[n - 1])
    }

    /** All listed nodes, nearest to the target first. */
    method Candidates(t: Hash) returns (sorted: seq<NodeInfo>)
      requires |buckets| == BUCKETS
      ensures Ascending(owner.hash, t, sorted) && multiset(sorted) == Contents(BUCKETS)
    {
      sorted := [];
      for i := 0 to BUCKETS
        invariant Ascending(owner.hash, t, sorted) && multiset(sorted) == Contents(i)
      {
        hide Ascending;
        for j := 0 to |buckets[i]|
          invariant Ascending(owner.hash, t, sorted) && multiset(sorted) == Contents(i) + multiset(buckets[i][..j])
        {
          assert buckets[i][..j + 1] == buckets[i][..j] + [buckets[i][j]];
          sorted := Insert(owner.hash, t, sorted, buckets[i][j]);
        }
        assert buckets[i][..|buckets[i]|] == buckets[i];
      }
    }

    /** The closest known nodes, nearest first: as many as asked for, and none left out is strictly closer. */
    method FindClosestNodes(target: string, count: nat) returns (r: seq<NodeInfo>, ghost rest: seq<NodeInfo>)
      requires Valid()
      ensures multiset(r) + multiset(rest) == Contents(BUCKETS)
      ensures |r| == if count < |Contents(BUCKETS)| then count else |Contents(BUCKETS)|
      ensures forall i, j :: 0 <= i < j < |r| ==>
        var m, n := r[i], r[j];
        Value(Xor(owner.hash(target), owner.hash(m.nodeId))) <= Value(Xor(owner.hash(target), owner.hash(n.nodeId)))
      ensures forall m, n :: m in r && n in rest ==>
        Value(Xor(owner.hash(target), owner.hash(m.nodeId))) <= Value(Xor(owner.hash(target), owner.hash(n.nodeId)))
      ensures count > 0 && (exists i, n :: Holds(i, n) && owner.hash(n.nodeId) == owner.hash(target)) ==>
        |r| > 0 && owner.hash(r[0].nodeId) == owner.hash(target)
    {
      hide BucketOk, Contents, Value, Xor;
      var sorted := Candidates(owner.hash(target));
      assert |sorted| == |multiset(sorted)|;
      var k := if count < |sorted| then count else |sorted|;
      assert sorted == sorted[..k] + sorted[k..];
      r, rest := sorted[..k], sorted[k..];
      if count > 0 && exists i, n :: Holds(i, n) && owner.hash(n.nodeId) == owner.hash(target) {
        ghost var i, n :| Holds(i, n) && owner.hash(n.nodeId) == owner.hash(target);
        TargetComesFirst(owner.hash(target), sorted, i, n);
      }
    }

    /** n is listed in bucket i. */
    ghost predicate Holds(i: int, n: NodeInfo)
      reads this
    {
      0 <= i < |buckets| && n in buckets[i]
    }

    lemma {:induction false} ListedIsContained(i: nat, n: NodeInfo, k: nat)
      requires i < k <= |buckets| && n in buckets[i]
      ensures n in Contents(k)
      decreases k
    {
      if i < k - 1 { ListedIsContained(i, n, k - 1); }
    }

    lemma TargetComesFirst(t: Hash, sorted: seq<NodeInfo>, i: nat, n: NodeInfo)
      requires |buckets| == BUCKETS && Holds(i, n) && owner.hash(n.nodeId) == t
      requires Ascending(owner.hash, t, sorted) && multiset(sorted) == Contents(BUCKETS)
      ensures |sorted| > 0 && owner.hash(sorted[0].nodeId) == t
    {
      ListedIsContained(i, n, BUCKETS);
      assert n in multiset(sorted);
      hide Contents, Value, Xor;
      var j :| 0 <= j < |sorted| && sorted[j] == n;
      ZeroIsSame(t, owner.hash(n.nodeId));
      ZeroIsSame(t, owner.hash(sorted[0].nodeId));
      assert Distance(owner.hash, t, sorted[0]) <= Distance(owner.hash, t, n);
    }
  }
}
