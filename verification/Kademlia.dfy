/** The routing table: buckets of nodes by log-distance, each with a queue of replacements. */
module Kademlia {
  import opened Bytes
  import opened Wrappers
  import opened Distance

  const BUCKET_SIZE: nat := 16
  const REPLACEMENTS_SIZE: nat := 16
  const ADDRESS_BITS: nat := 256

  type NodeId = PeerId

  datatype Endpoint = Endpoint(address: nat, ipv6: bool, udpPort: nat, tcpPort: nat)
  datatype Node = Node(id: NodeId, endpoint: Endpoint)

  datatype Bucket = Bucket(nodes: seq<Node>, replacements: seq<Node>)

  /** The position of the first node with an id. */
  function Find(nodes: seq<Node>, id: NodeId): (p: Option<nat>)
    ensures p.Some? <==> exists i :: 0 <= i < |nodes| && nodes[i].id == id
    ensures p.Some? ==> p.value < |nodes| && nodes[p.value].id == id
    ensures p.Some? ==> forall i :: 0 <= i < p.value ==> nodes[i].id != id
  {
    if nodes == [] then None
    else if nodes[0].id == id then Some(0)
    else
      assert forall i :: 1 <= i < |nodes| ==> nodes[1..][i - 1] == nodes[i];
      match Find(nodes[1..], id)
      case None => None
      case Some(p) => Some(p + 1)
  }

  function Without(nodes: seq<Node>, p: nat): (r: seq<Node>)
    requires p < |nodes|
    ensures |r| == |nodes| - 1
  {
    nodes[..p] + nodes[p + 1..]
  }

  /** `push_replacement`: appended while there is room, with no check for duplicates. */
  function Queued(b: Bucket, n: Node): Bucket {
    if |b.replacements| < REPLACEMENTS_SIZE then b.(replacements := b.replacements + [n]) else b
  }

  /** `add_verified` on the node's bucket: to the front, or to the replacements of a full bucket. */
  function Verified(b: Bucket, n: Node): Bucket {
    var p := Find(b.nodes, n.id);
    var rest := if p.Some? then Without(b.nodes, p.value) else b.nodes;
    if |rest| < BUCKET_SIZE then b.(nodes := [n] + rest) else Queued(b.(nodes := rest), n)
  }

  /** `add_seen` on the node's bucket: to the back, unless it is there already. */
  function Seen(b: Bucket, n: Node): Bucket {
    if Find(b.nodes, n.id).Some? then b
    else if |b.nodes| < BUCKET_SIZE then b.(nodes := b.nodes + [n])
    else Queued(b, n)
  }

  /** `remove` on the node's bucket: its first occurrence gives way to the oldest replacement. */
  function Evicted(b: Bucket, id: NodeId): Bucket {
    var p := Find(b.nodes, id);
    if b.replacements == [] || p.None? then b
    else Bucket(Without(b.nodes, p.value) + [b.replacements[0]], b.replacements[1..])
  }

  /** A table under a hash function; its local node is known by its hash. */
  datatype Table = Table(hash: NodeId -> H256, idHash: H256, buckets: seq<Bucket>) {
    function Index(id: NodeId): Option<nat> {
      BucketIndex(idHash, hash(id))
    }

    ghost predicate Belongs(i: nat, n: Node) {
      Index(n.id) == Some(i) && !n.endpoint.ipv6
    }

    ghost predicate GoodBucket(i: nat)
      requires i < |buckets|
    {
      var b := buckets[i];
      && |b.nodes| <= BUCKET_SIZE && |b.replacements| <= REPLACEMENTS_SIZE
      && (forall n :: n in b.nodes || n in b.replacements ==> Belongs(i, n))
    }

    /** Every node and replacement sits in the bucket of its log-distance, is not local, and has an IPv4 address. */
    ghost predicate Valid() {
      |buckets| == ADDRESS_BITS && forall i: nat :: i < ADDRESS_BITS ==> GoodBucket(i)
    }

    function Put(i: nat, b: Bucket): Table
      requires i < |buckets|
    {
      this.(buckets := buckets[i := b])
    }
  }

  datatype Operation = AddVerified(n: Node) | AddSeen(n: Node) | Remove(id: NodeId)

  function Apply(t: Table, op: Operation): Table
    requires |t.buckets| == ADDRESS_BITS
  {
    match op
    case AddVerified(n) =>
      var i := t.Index(n.id);
      if n.endpoint.ipv6 || i.None? then t else t.Put(i.value, Verified(t.buckets[i.value], n))
    case AddSeen(n) =>
      var i := t.Index(n.id);
      if n.endpoint.ipv6 || i.None? then t else t.Put(i.value, Seen(t.buckets[i.value], n))
    case Remove(id) =>
      var i := t.Index(id);
      if i.None? then t else t.Put(i.value, Evicted(t.buckets[i.value], id))
  }

  function Run(t: Table, ops: seq<Operation>): (t': Table)
    requires |t.buckets| == ADDRESS_BITS
    ensures |t'.buckets| == ADDRESS_BITS
    decreases |ops|
  {
    if ops == [] then t else Run(Apply(t, ops[0]), ops[1..])
  }

  function Empty(hash: NodeId -> H256, id: NodeId): Table {
    Table(hash, hash(id), seq(ADDRESS_BITS, _ => Bucket([], [])))
  }

  /** What one operation does to its bucket: sizes stay in bounds, length does not drop, nothing foreign enters. */
  ghost predicate Grows(b: Bucket, b': Bucket, n: Option<Node>) {
    && |b.nodes| <= |b'.nodes| <= BUCKET_SIZE
    && |b'.replacements| <= REPLACEMENTS_SIZE
    && forall m :: m in b'.nodes || m in b'.replacements ==> m in b.nodes || m in b.replacements || Some(m) == n
  }

  lemma BucketSteps(b: Bucket, n: Node)
    requires |b.nodes| <= BUCKET_SIZE && |b.replacements| <= REPLACEMENTS_SIZE
    ensures Grows(b, Verified(b, n), Some(n))
    ensures Grows(b, Seen(b, n), Some(n))
  {
  }

  lemma EvictStep(b: Bucket, id: NodeId)
    requires |b.nodes| <= BUCKET_SIZE && |b.replacements| <= REPLACEMENTS_SIZE
    ensures Grows(b, Evicted(b, id), None)
  {
  }

  lemma PutKeepsValid(t: Table, i: nat, b: Bucket, n: Option<Node>)
    requires t.Valid() && i < ADDRESS_BITS && Grows(t.buckets[i], b, n)
    requires n.Some? ==> t.Belongs(i, n.value)
    ensures t.Put(i, b).Valid()
  {
    var t' := t.Put(i, b);
    assert t.GoodBucket(i);
    forall k: nat | k < ADDRESS_BITS ensures t'.GoodBucket(k) {
      assert t.GoodBucket(k);
      forall m | m in t'.buckets[k].nodes || m in t'.buckets[k].replacements ensures t'.Belongs(k, m) {
        assert t.Belongs(k, m);
      }
    }
  }

  /** No operation shortens any bucket. */
  ghost predicate NoShorter(t: Table, t': Table) {
    |t'.buckets| == |t.buckets| && forall i: nat :: i < |t.buckets| ==> |t.buckets[i].nodes| <= |t'.buckets[i].nodes|
  }

  lemma ApplyKeeps(t: Table, op: Operation)
    requires t.Valid()
    ensures Apply(t, op).Valid() && NoShorter(t, Apply(t, op))
    ensures Apply(t, op).hash == t.hash && Apply(t, op).idHash == t.idHash
  {
    hide Verified, Seen, Evicted, BucketIndex;
    match op
    case AddVerified(n) => if !n.endpoint.ipv6 && t.Index(n.id).Some? { AddKeeps(t, n); }
    case AddSeen(n) => if !n.endpoint.ipv6 && t.Index(n.id).Some? { AddKeeps(t, n); }
    case Remove(id) =>
      var i := t.Index(id);
      if i.Some? {
        assert t.GoodBucket(i.value);
        EvictStep(t.buckets[i.value], id);
        PutKeepsValid(t, i.value, Evicted(t.buckets[i.value], id), None);
      }
  }

  lemma AddKeeps(t: Table, n: Node)
    requires t.Valid() && !n.endpoint.ipv6 && t.Index(n.id).Some?
    ensures
      var i := t.Index(n.id).value;
      var b := t.buckets[i];
      && t.Put(i, Verified(b, n)).Valid() && |b.nodes| <= |Verified(b, n).nodes|
      && t.Put(i, Seen(b, n)).Valid() && |b.nodes| <= |Seen(b, n).nodes|
  {
    hide Verified, Seen, BucketIndex;
    var i := t.Index(n.id).value;
    assert t.GoodBucket(i);
    BucketSteps(t.buckets[i], n);
    PutKeepsValid(t, i, Verified(t.buckets[i], n), Some(n));
    PutKeepsValid(t, i, Seen(t.buckets[i], n), Some(n));
  }

  lemma {:induction false} RunKeeps(t: Table, ops: seq<Operation>)
    requires t.Valid()
    ensures Run(t, ops).Valid() && NoShorter(t, Run(t, ops))
    decreases |ops|
  {
    hide Apply;
    if ops != [] {
      ApplyKeeps(t, ops[0]);
      RunKeeps(Apply(t, ops[0]), ops[1..]);
    }
  }

  function Total(buckets: seq<Bucket>): nat {
    if buckets == [] then 0 else Total(buckets[..|buckets| - 1]) + |buckets[|buckets| - 1].nodes|
  }

  lemma {:induction false} TotalMonotone(a: seq<Bucket>, b: seq<Bucket>)
    requires |a| == |b| && forall i: nat :: i < |a| ==> |a[i].nodes| <= |b[i].nodes|
    ensures Total(a) <= Total(b)
  {
    if a != [] {
      TotalMonotone(a[..|a| - 1], b[..|b| - 1]);
    }
  }

  lemma {:induction false} TotalBound(a: seq<Bucket>)
    requires forall i: nat :: i < |a| ==> |a[i].nodes| <= BUCKET_SIZE
    ensures Total(a) <= BUCKET_SIZE * |a|
  {
    if a != [] {
      TotalBound(a[..|a| - 1]);
    }
  }

  /**
   * Over every sequence of operations from the empty table: placement, queue bounds and absence of the local and
   * of IPv6 nodes hold, no bucket ever gets shorter, and the number of nodes never decreases nor exceeds 4096.
   */
  lemma EveryTableIsValid(hash: NodeId -> H256, id: NodeId, before: seq<Operation>, more: seq<Operation>)
    ensures
      var t := Run(Empty(hash, id), before);
      var t' := Run(t, more);
      && t.Valid() && t'.Valid()
      && NoShorter(t, t') && Total(t.buckets) <= Total(t'.buckets) <= 4096
  {
    var t := Run(Empty(hash, id), before);
    RunKeeps(Empty(hash, id), before);
    RunKeeps(t, more);
    var t' := Run(t, more);
    TotalMonotone(t.buckets, t'.buckets);
    forall i: nat | i < |t'.buckets| ensures |t'.buckets[i].nodes| <= BUCKET_SIZE { assert t'.GoodBucket(i); }
    TotalBound(t'.buckets);
  }

  /** All nodes of the first `k` buckets, in table order. */
  function Scan(buckets: seq<Bucket>): seq<Node> {
    if buckets == [] then [] else Scan(buckets[..|buckets| - 1]) + buckets[|buckets| - 1].nodes
  }

  lemma FindFirst(nodes: seq<Node>, id: NodeId, p: nat)
    requires p < |nodes| && nodes[p].id == id && forall i :: 0 <= i < p ==> nodes[i].id != id
    ensures Find(nodes, id) == Some(p)
  {
    hide Find;
  }

  lemma {:induction false} FindInConcat(a: seq<Node>, b: seq<Node>, id: NodeId)
    ensures Find(a + b, id) ==
      match Find(a, id) case Some(p) => Some(p) case None =>
      match Find(b, id) case Some(p) => Some(|a| + p) case None => None
  {
    hide Find;
    if Find(a, id).Some? {
      FindFirst(a + b, id, Find(a, id).value);
    } else if Find(b, id).Some? {
      FindFirst(a + b, id, |a| + Find(b, id).value);
    }
  }

  /** The node found under an id: the first one. */
  function Known(nodes: seq<Node>, id: NodeId): Option<Node> {
    match Find(nodes, id)
    case None => None
    case Some(p) => Some(nodes[p])
  }

  lemma KnownFound(nodes: seq<Node>, id: NodeId)
    ensures Known(nodes, id).Some? <==> Find(nodes, id).Some?
  {
  }

  lemma KnownInConcat(a: seq<Node>, b: seq<Node>, id: NodeId)
    ensures Known(a + b, id) == if Known(a, id).Some? then Known(a, id) else Known(b, id)
  {
    FindInConcat(a, b, id);
  }

  lemma KnownWithout(nodes: seq<Node>, p: nat, id: NodeId)
    requires p < |nodes| && nodes[p].id != id
    ensures Known(Without(nodes, p), id) == Known(nodes, id)
  {
    hide Known, Find;
    var head, n, tail := nodes[..p], nodes[p], nodes[p + 1..];
    assert nodes == head + ([n] + tail);
    KnownOne(n, id);
    KnownInConcat(head, tail, id);
    KnownInConcat([n], tail, id);
    KnownInConcat(head, [n] + tail, id);
  }

  /** A verified node replaces what was known of its id, unless it is new to a full bucket; no other id changes. */
  lemma VerifiedIsKnown(b: Bucket, n: Node, id: NodeId)
    requires |b.nodes| <= BUCKET_SIZE
    ensures Known(Verified(b, n).nodes, id) ==
      if id == n.id && (|b.nodes| < BUCKET_SIZE || Known(b.nodes, id).Some?) then Some(n) else Known(b.nodes, id)
  {
    var p := Find(b.nodes, n.id);
    var rest := if p.Some? then Without(b.nodes, p.value) else b.nodes;
    KnownInConcat([n], rest, id);
    if p.Some? && id != n.id { KnownWithout(b.nodes, p.value, id); }
  }

  /** A node merely seen never replaces what is known of its id, nor changes any other id. */
  lemma SeenIsKnown(b: Bucket, n: Node, id: NodeId)
    requires |b.nodes| <= BUCKET_SIZE
    ensures Known(Seen(b, n).nodes, id) ==
      if id == n.id && Known(b.nodes, id).None? && |b.nodes| < BUCKET_SIZE then Some(n) else Known(b.nodes, id)
  {
    KnownInConcat(b.nodes, [n], id);
  }

  /**
   * What every id resolves to after an eviction. Without a replacement nothing changes. Otherwise the evicted id
   * resolves to its next entry, any other id to what it did, and an id left with none to the oldest replacement if
   * that has it.
   */
  lemma EvictedIsReplaced(b: Bucket, gone: NodeId, id: NodeId)
    ensures Known(Evicted(b, gone).nodes, id) ==
      var p := Find(b.nodes, gone);
      if p.None? || b.replacements == [] then Known(b.nodes, id)
      else
        var left := if id == gone then Known(b.nodes[p.value + 1..], id) else Known(b.nodes, id);
        if left.Some? then left
        else if b.replacements[0].id == id then Some(b.replacements[0]) else None
  {
    hide Known, Find;
    var p := Find(b.nodes, gone);
    if b.replacements != [] && p.Some? {
      KnownInConcat(Without(b.nodes, p.value), [b.replacements[0]], id);
      KnownOne(b.replacements[0], id);
      if id != gone {
        KnownWithout(b.nodes, p.value, id);
      } else {
        KnownInConcat(b.nodes[..p.value], b.nodes[p.value + 1..], id);
        KnownFound(b.nodes[..p.value], id);
      }
    }
  }

  lemma KnownOne(n: Node, id: NodeId)
    ensures Known([n], id) == if n.id == id then Some(n) else None
  {
  }

  /** When an evicted id still resolves: nothing replaced it, it was there twice, or it replaced itself. */
  lemma EvictedStillKnown(b: Bucket, gone: NodeId)
    ensures Known(Evicted(b, gone).nodes, gone).Some? <==>
      var p := Find(b.nodes, gone);
      && p.Some?
      && (b.replacements == [] || Known(b.nodes[p.value + 1..], gone).Some? || b.replacements[0].id == gone)
  {
    EvictedIsReplaced(b, gone, gone);
    KnownFound(b.nodes, gone);
  }

  /** A verified node that is stored goes to the front; the others keep their order, less its old entry. */
  lemma VerifiedGoesFirst(b: Bucket, n: Node) returns (before: seq<Node>, mid: seq<Node>, after: seq<Node>)
    requires |b.nodes| < BUCKET_SIZE || (|b.nodes| == BUCKET_SIZE && Known(b.nodes, n.id).Some?)
    ensures b.nodes == before + mid + after && Known(before, n.id).None?
    ensures if Known(b.nodes, n.id).Some? then mid == [Known(b.nodes, n.id).value] else mid == [] && after == []
    ensures Verified(b, n) == b.(nodes := [n] + before + after)
  {
    hide Find;
    var p := Find(b.nodes, n.id);
    if p.Some? {
      before, mid, after := b.nodes[..p.value], [b.nodes[p.value]], b.nodes[p.value + 1..];
      assert [n] + (before + after) == [n] + before + after;
    } else {
      before, mid, after := b.nodes, [], [];
      assert [n] + b.nodes == [n] + before + after;
    }
  }

  /** A node that is added, as verified or merely as seen. */
  datatype Add = Add(n: Node, verified: bool)

  /** A run of additions, and a run of evictions, on one bucket. */
  function AddAll(b: Bucket, adds: seq<Add>): Bucket {
    if adds == [] then b
    else
      var last := adds[|adds| - 1];
      var init := AddAll(b, adds[..|adds| - 1]);
      if last.verified then Verified(init, last.n) else Seen(init, last.n)
  }

  function EvictAll(b: Bucket, gone: seq<NodeId>): Bucket {
    if gone == [] then b else Evicted(EvictAll(b, gone[..|gone| - 1]), gone[|gone| - 1])
  }

  function NodesOf(adds: seq<Add>): (ns: seq<Node>)
    ensures |ns| == |adds|
  {
    seq(|adds|, i requires 0 <= i < |adds| => adds[i].n)
  }

  /** A new node that meets a full bucket is queued, verified or not, if there is room. */
  lemma FullBucketQueuesOne(b: Bucket, n: Node)
    requires |b.nodes| == BUCKET_SIZE && Known(b.nodes, n.id).None?
    ensures
      var queued := if |b.replacements| < REPLACEMENTS_SIZE then b.replacements + [n] else b.replacements;
      Verified(b, n) == b.(replacements := queued) == Seen(b, n)
  {
  }

  /**
   * New nodes queue up behind a full bucket in order of arrival, in any mixture of verified and seen; those beyond
   * the limit are dropped.
   */
  lemma {:induction false} FullBucketQueues(b: Bucket, adds: seq<Add>)
    requires |b.nodes| == BUCKET_SIZE && |b.replacements| <= REPLACEMENTS_SIZE
    requires forall i :: 0 <= i < |adds| ==> Known(b.nodes, adds[i].n.id).None?
    ensures
      var room := REPLACEMENTS_SIZE - |b.replacements|;
      var ns := NodesOf(adds);
      AddAll(b, adds) == b.(replacements := b.replacements + if |ns| <= room then ns else ns[..room])
  {
    hide Known, Verified, Seen;
    var ns := NodesOf(adds);
    if adds != [] {
      var last := |adds| - 1;
      FullBucketQueues(b, adds[..last]);
      assert NodesOf(adds[..last]) == ns[..last];
      assert ns == ns[..last] + [adds[last].n];
      FullBucketQueuesOne(AddAll(b, adds[..last]), adds[last].n);
    } else {
      assert b.replacements + [] == b.replacements;
    }
  }

  /** An eviction from the front part leaves the back part alone and extends it by the oldest replacement. */
  lemma EvictedFromFront(front: seq<Node>, back: seq<Node>, replacements: seq<Node>, id: NodeId)
    requires Find(front, id).Some? && replacements != []
    ensures Evicted(Bucket(front + back, replacements), id)
         == Bucket(Without(front, Find(front, id).value) + (back + [replacements[0]]), replacements[1..])
  {
    FindInConcat(front, back, id);
    hide Find;
    var p := Find(front, id).value;
    assert Without(front + back, p) == Without(front, p) + back;
    assert Without(front, p) + back + [replacements[0]] == Without(front, p) + (back + [replacements[0]]);
  }

  /** Evicting known nodes one after the other promotes the replacements in order of arrival and spares the rest. */
  lemma {:induction false} PromotedInOrder(b: Bucket, gone: seq<NodeId>) returns (kept: seq<Node>)
    requires |gone| <= |b.replacements|
    requires forall i, j :: 0 <= i < j < |gone| ==> gone[i] != gone[j]
    requires forall id :: id in gone ==> Known(b.nodes, id).Some?
    ensures EvictAll(b, gone) == Bucket(kept + b.replacements[..|gone|], b.replacements[|gone|..])
    ensures |kept| + |gone| == |b.nodes|
    ensures forall id :: id !in gone ==> Known(kept, id) == Known(b.nodes, id)
  {
    hide Find, Evicted, Known, Without;
    if gone == [] {
      assert b.replacements[..0] == [] && b.replacements[0..] == b.replacements;
      assert b.nodes + [] == b.nodes;
      return b.nodes;
    }
    var last := |gone| - 1;
    var id := gone[last];
    assert id in gone;
    var before := PromotedInOrder(b, gone[..last]);
    assert Known(before, id) == Known(b.nodes, id);
    KnownFound(before, id);
    var p := Find(before, id).value;
    EvictedFromFront(before, b.replacements[..last], b.replacements[last..], id);
    kept := Without(before, p);
    assert b.replacements[..last] + [b.replacements[last]] == b.replacements[..last + 1];
    assert b.replacements[last..][1..] == b.replacements[last + 1..];
    forall other | other !in gone ensures Known(kept, other) == Known(b.nodes, other) {
      assert gone == gone[..last] + [id];
      KnownWithout(before, p, other);
    }
  }

  /** Over the first `k` buckets, an id is known exactly as in its own bucket. */
  lemma {:induction false} ScanKnows(t: Table, id: NodeId, k: nat)
    requires t.Valid() && k <= ADDRESS_BITS
    ensures
      var i := t.Index(id);
      Known(Scan(t.buckets[..k]), id) ==
        if i.Some? && i.value < k then Known(t.buckets[i.value].nodes, id) else None
  {
    hide BucketIndex, Find;
    if k > 0 {
      ScanKnows(t, id, k - 1);
      assert t.buckets[..k][..k - 1] == t.buckets[..k - 1];
      KnownInConcat(Scan(t.buckets[..k - 1]), t.buckets[k - 1].nodes, id);
      assert t.GoodBucket(k - 1);
      var found := Find(t.buckets[k - 1].nodes, id);
      if found.Some? {
        assert t.Belongs(k - 1, t.buckets[k - 1].nodes[found.value]);
      }
    }
  }

  /** Looking into one bucket finds what scanning the whole table finds. */
  lemma GetAgreesWithScan(t: Table, id: NodeId)
    requires t.Valid()
    ensures
      var i := t.Index(id);
      Known(Scan(t.buckets), id) == if i.Some? then Known(t.buckets[i.value].nodes, id) else None
  {
    ScanKnows(t, id, ADDRESS_BITS);
    assert t.buckets[..ADDRESS_BITS] == t.buckets;
  }

  // ----- What the table resolves -----

  /** What an id resolves to in the whole table. */
  function Resolve(t: Table, id: NodeId): Option<Node> {
    Known(Scan(t.buckets), id)
  }

  /** What the bucket of an id has room for; the local id has none. */
  predicate Room(t: Table, id: NodeId)
    requires |t.buckets| == ADDRESS_BITS
  {
    t.Index(id).Some? && |t.buckets[t.Index(id).value].nodes| < BUCKET_SIZE
  }

  lemma ResolveInBucket(t: Table, i: nat, b: Bucket, id: NodeId)
    requires t.Valid() && i < ADDRESS_BITS && t.Put(i, b).Valid()
    ensures Resolve(t.Put(i, b), id) == if t.Index(id) == Some(i) then Known(b.nodes, id) else Resolve(t, id)
  {
    hide Known, Scan, BucketIndex;
    GetAgreesWithScan(t, id);
    GetAgreesWithScan(t.Put(i, b), id);
  }

  /** After an addition of an IPv4 node that is not the local one, its id resolves to it as its bucket has it; no other id changes. */
  lemma AdditionResolves(t: Table, n: Node, id: NodeId)
    requires t.Valid()
    ensures Resolve(Apply(t, AddVerified(n)), id) ==
      if id == n.id && !n.endpoint.ipv6 && t.hash(n.id) != t.idHash && (Room(t, id) || Resolve(t, id).Some?) then Some(n)
      else Resolve(t, id)
    ensures Resolve(Apply(t, AddSeen(n)), id) ==
      if id == n.id && !n.endpoint.ipv6 && Room(t, id) && Resolve(t, id).None? then Some(n)
      else Resolve(t, id)
  {
    var i := t.Index(n.id);
    if !n.endpoint.ipv6 && i.Some? {
      var b := t.buckets[i.value];
      assert t.GoodBucket(i.value);
      VerifiedIsKnown(b, n, id);
      SeenIsKnown(b, n, id);
      GetAgreesWithScan(t, id);
      AddKeeps(t, n);
      hide Known, Verified, Seen, Scan, BucketIndex;
      ResolveInBucket(t, i.value, Verified(b, n), id);
      ResolveInBucket(t, i.value, Seen(b, n), id);
    }
  }

  /** After a removal the ids of that bucket resolve as the eviction leaves them; no other id changes. */
  lemma RemovalResolves(t: Table, gone: NodeId, id: NodeId)
    requires t.Valid()
    ensures Resolve(Apply(t, Remove(gone)), id) ==
      var i := t.Index(gone);
      if i.Some? && t.Index(id) == i then Known(Evicted(t.buckets[i.value], gone).nodes, id) else Resolve(t, id)
  {
    hide Known, Evicted, Scan, BucketIndex;
    ApplyKeeps(t, Remove(gone));
    var i := t.Index(gone);
    if i.Some? {
      ResolveInBucket(t, i.value, Evicted(t.buckets[i.value], gone), id);
    }
  }

  /** The count of nodes is the length of a scan. */
  lemma {:induction false} TotalIsScan(buckets: seq<Bucket>)
    ensures Total(buckets) == |Scan(buckets)|
  {
    if buckets != [] {
      TotalIsScan(buckets[..|buckets| - 1]);
    }
  }

  /** The nodes with another id, in their order. */
  function Others(nodes: seq<Node>, id: NodeId): (r: seq<Node>)
    ensures |r| <= |nodes|
  {
    if nodes == [] then []
    else
      var last := nodes[|nodes| - 1];
      Others(nodes[..|nodes| - 1], id) + if last.id != id then [last] else []
  }

  lemma OthersNext(nodes: seq<Node>, n: Node, id: NodeId)
    ensures Others(nodes + [n], id) == if n.id == id then Others(nodes, id) else Others(nodes, id) + [n]
  {
    assert (nodes + [n])[..|nodes|] == nodes;
  }

  lemma OthersOfNone(id: NodeId)
    ensures Others([], id) == []
  {
  }

  /** It is a filter: of two lists one behind the other, and of one node. */
  lemma {:induction false} OthersFilters(a: seq<Node>, b: seq<Node>, id: NodeId)
    ensures Others(a + b, id) == Others(a, id) + Others(b, id)
    ensures |b| == 1 ==> Others(b, id) == if b[0].id == id then [] else b
    decreases |b|
  {
    hide Others;
    OthersOfNone(id);
    if b == [] {
      assert a + b == a && Others(a, id) + [] == Others(a, id);
    } else {
      var k := |b| - 1;
      OthersFilters(a, b[..k], id);
      assert a + b == a + b[..k] + [b[k]] && b == b[..k] + [b[k]];
      OthersNext(a + b[..k], b[k], id);
      OthersNext(b[..k], b[k], id);
    }
  }

  ghost predicate LastAt(hash: NodeId -> H256, target: NodeId, nodes: seq<Node>, i: nat, d: nat) {
    && i < |nodes| && Between(hash(nodes[i].id), hash(target)) == d
    && forall j :: i < j < |nodes| ==> Between(hash(nodes[j].id), hash(target)) != d
  }

  /** Nodes under their distance to a target, as collecting into an ordered map leaves them. */
  function ByDistance(hash: NodeId -> H256, target: NodeId, nodes: seq<Node>): (m: map<nat, Node>)
  {
    if nodes == [] then map[]
    else
      var last := nodes[|nodes| - 1];
      ByDistance(hash, target, nodes[..|nodes| - 1])[Between(hash(last.id), hash(target)) := last]
  }

  /** Every node's distance is a key, and under each key is the last node at that distance. */
  lemma {:induction false} ByDistanceExact(hash: NodeId -> H256, target: NodeId, nodes: seq<Node>, d: nat)
    ensures forall n :: n in nodes ==> Between(hash(n.id), hash(target)) in ByDistance(hash, target, nodes)
    ensures d in ByDistance(hash, target, nodes) ==>
      exists i: nat :: LastAt(hash, target, nodes, i, d) && ByDistance(hash, target, nodes)[d] == nodes[i]
  {
    hide Between;
    if nodes != [] {
      var n := |nodes| - 1;
      var init := nodes[..n];
      ByDistanceExact(hash, target, init, d);
      assert nodes == init + [nodes[n]];
      if Between(hash(nodes[n].id), hash(target)) == d {
        assert LastAt(hash, target, nodes, n, d);
      } else if d in ByDistance(hash, target, nodes) {
        var i: nat :| LastAt(hash, target, init, i, d) && ByDistance(hash, target, init)[d] == init[i];
        assert LastAt(hash, target, nodes, i, d);
      }
    }
  }

  method OthersOf(nodes: seq<Node>, id: NodeId) returns (r: seq<Node>)
    ensures r == Others(nodes, id)
  {
    r := [];
    for k := 0 to |nodes|
      invariant r == Others(nodes[..k], id)
    {
      assert nodes[..k + 1][..k] == nodes[..k];
      if nodes[k].id != id { r := r + [nodes[k]]; }
    }
    assert nodes[..|nodes|] == nodes;
  }

  lemma ByDistanceNext(hash: NodeId -> H256, target: NodeId, nodes: seq<Node>, n: Node)
    ensures ByDistance(hash, target, nodes + [n])
         == ByDistance(hash, target, nodes)[Between(hash(n.id), hash(target)) := n]
  {
    assert (nodes + [n])[..|nodes|] == nodes;
  }

  /** Collecting the nodes of one more bucket. */
  method Collect(hash: NodeId -> H256, target: NodeId, m: map<nat, Node>, ghost before: seq<Node>, nodes: seq<Node>)
    returns (m': map<nat, Node>)
    requires m == ByDistance(hash, target, before)
    ensures m' == ByDistance(hash, target, before + nodes)
  {
    hide ByDistance, Between;
    m' := m;
    assert before + nodes[..0] == before;
    for i := 0 to |nodes|
      invariant m' == ByDistance(hash, target, before + nodes[..i])
    {
      assert before + nodes[..i + 1] == before + nodes[..i] + [nodes[i]];
      ByDistanceNext(hash, target, before + nodes[..i], nodes[i]);
      m' := m'[Between(hash(nodes[i].id), hash(target)) := nodes[i]];
    }
    assert nodes[..|nodes|] == nodes;
  }

  /** The table as an object over a fixed array of buckets. */
  class RoutingTable {
    const hash: NodeId -> H256
    const idHash: H256
    const kbuckets: array<Bucket>

    ghost function View(): Table
      reads this, kbuckets
    {
      Table(hash, idHash, kbuckets[..])
    }

    ghost predicate Valid()
      reads this, kbuckets
    {
      kbuckets.Length == ADDRESS_BITS && View().Valid()
    }

    constructor (hash: NodeId -> H256, id: NodeId)
      ensures Valid() && fresh(kbuckets) && View() == Empty(hash, id)
    {
      this.hash := hash;
      idHash := hash(id);
      var buckets := new Bucket[ADDRESS_BITS](_ => Bucket([], []));
      kbuckets := buckets;
      new;
      assert kbuckets[..] == Empty(hash, id).buckets;
    }

    method FindPeerPos(b: Bucket, id: NodeId) returns (p: Option<nat>)
      ensures p == Find(b.nodes, id)
    {
      for i := 0 to |b.nodes|
        invariant forall j :: 0 <= j < i ==> b.nodes[j].id != id
      {
        if b.nodes[i].id == id { return Some(i); }
      }
      return None;
    }

    method AddVerifiedNode(n: Node)
      requires Valid()
      modifies kbuckets
      ensures Valid() && View() == Apply(old(View()), AddVerified(n))
    {
      ApplyKeeps(View(), AddVerified(n));
      if n.endpoint.ipv6 { return; }
      var i := LogDistance(idHash, hash(n.id));
      if i.None? { return; }
      var b := kbuckets[i.value];
      var p := FindPeerPos(b, n.id);
      if p.Some? { b := b.(nodes := Without(b.nodes, p.value)); }
      if |b.nodes| < BUCKET_SIZE {
        b := b.(nodes := [n] + b.nodes);
      } else {
        b := Queued(b, n);
      }
      kbuckets[i.value] := b;
    }

    method AddSeenNode(n: Node)
      requires Valid()
      modifies kbuckets
      ensures Valid() && View() == Apply(old(View()), AddSeen(n))
    {
      ApplyKeeps(View(), AddSeen(n));
      if n.endpoint.ipv6 { return; }
      var i := LogDistance(idHash, hash(n.id));
      if i.None? { return; }
      var b := kbuckets[i.value];
      var p := FindPeerPos(b, n.id);
      if p.Some? {
        assert kbuckets[..] == old(kbuckets[..])[i.value := b];
        return;
      }
      if |b.nodes| < BUCKET_SIZE {
        b := b.(nodes := b.nodes + [n]);
      } else {
        b := Queued(b, n);
      }
      kbuckets[i.value] := b;
    }

    method RemoveNode(id: NodeId)
      requires Valid()
      modifies kbuckets
      ensures Valid() && View() == Apply(old(View()), Remove(id))
    {
      ApplyKeeps(View(), Remove(id));
      var i := LogDistance(idHash, hash(id));
      if i.None? { return; }
      var b := kbuckets[i.value];
      assert kbuckets[..] == old(kbuckets[..])[i.value := b];
      if b.replacements == [] { return; }
      for k := 0 to |b.nodes|
        invariant forall j :: 0 <= j < k ==> b.nodes[j].id != id
        invariant kbuckets[..] == old(kbuckets[..])
      {
        if b.nodes[k].id == id {
          kbuckets[i.value] := Bucket(Without(b.nodes, k) + [b.replacements[0]], b.replacements[1..]);
          return;
        }
      }
    }

    /** Agrees with a scan of the whole table. */
    method Get(id: NodeId) returns (e: Option<Endpoint>)
      requires Valid()
      ensures e == match Known(Scan(kbuckets[..]), id) case Some(n) => Some(n.endpoint) case None => None
    {
      GetAgreesWithScan(View(), id);
      var i := LogDistance(idHash, hash(id));
      if i.None? { return None; }
      var nodes := kbuckets[i.value].nodes;
      for k := 0 to |nodes|
        invariant forall j :: 0 <= j < k ==> nodes[j].id != id
      {
        if nodes[k].id == id { return Some(nodes[k].endpoint); }
      }
      return None;
    }

    /** The other nodes of the id's bucket, in order; they fit the fixed-size result. */
    method Neighbours(id: NodeId) returns (r: Option<seq<Node>>)
      requires Valid()
      ensures r.Some? <==> hash(id) != idHash
      ensures r.Some? ==> |r.value| <= BUCKET_SIZE && r.value == Others(kbuckets[View().Index(id).value].nodes, id)
    {
      hide Others;
      var i := LogDistance(idHash, hash(id));
      if i.None? { return None; }
      assert View().GoodBucket(i.value);
      var nodes := kbuckets[i.value].nodes;
      var out := OthersOf(nodes, id);
      return Some(out);
    }

    method Len() returns (n: nat)
      requires Valid()
      ensures n == Total(kbuckets[..]) <= 4096
    {
      n := 0;
      for k := 0 to kbuckets.Length
        invariant n == Total(kbuckets[..k])
      {
        assert kbuckets[..k + 1][..k] == kbuckets[..k];
        n := n + |kbuckets[k].nodes|;
      }
      assert kbuckets[..kbuckets.Length] == kbuckets[..];
      forall i: nat | i < ADDRESS_BITS ensures |kbuckets[..][i].nodes| <= BUCKET_SIZE { assert View().GoodBucket(i); }
      TotalBound(kbuckets[..]);
    }

    /** The nodes of the whole table by their distance to the target. */
    method NearestNodeEntries(target: NodeId) returns (m: map<nat, Node>)
      requires Valid()
      ensures m == ByDistance(hash, target, Scan(kbuckets[..]))
    {
      m := map[];
      for k := 0 to kbuckets.Length
        invariant m == ByDistance(hash, target, Scan(kbuckets[..k]))
      {
        hide ByDistance, Between;
        assert kbuckets[..k + 1][..k] == kbuckets[..k];
        m := Collect(hash, target, m, Scan(kbuckets[..k]), kbuckets[k].nodes);
      }
      assert kbuckets[..kbuckets.Length] == kbuckets[..];
    }
  }
}
