/** When a bucket holds an id twice: the exact promotion that brings it about, and a run that does. */
module RepeatedIds {
  import opened Bytes
  import opened Wrappers
  import opened Distance
  import opened Kademlia

  /** No id occurs twice. */
  ghost predicate DistinctIds(nodes: seq<Node>) {
    forall i, j :: 0 <= i < j < |nodes| ==> nodes[i].id != nodes[j].id
  }

  lemma WithoutDistinct(nodes: seq<Node>, p: nat)
    requires DistinctIds(nodes) && p < |nodes|
    ensures DistinctIds(Without(nodes, p))
    ensures Find(Without(nodes, p), nodes[p].id).None?
  {
    hide Find;
    var rest := Without(nodes, p);
    forall i | 0 <= i < |rest| ensures rest[i].id != nodes[p].id && rest[i] == nodes[if i < p then i else i + 1] {}
  }

  /** Neither adding operation brings a second entry for an id. */
  lemma AddingKeepsDistinct(b: Bucket, n: Node)
    requires DistinctIds(b.nodes)
    ensures DistinctIds(Verified(b, n).nodes) && DistinctIds(Seen(b, n).nodes)
  {
    hide Find;
    var p := Find(b.nodes, n.id);
    if p.Some? { WithoutDistinct(b.nodes, p.value); }
  }

  /** The guard of the promotion that repeats an id: the oldest replacement is another node that is still there. */
  predicate Repeats(b: Bucket, gone: NodeId) {
    && b.replacements != [] && Find(b.nodes, gone).Some?
    && b.replacements[0].id != gone && Find(b.nodes, b.replacements[0].id).Some?
  }

  /** An eviction keeps ids distinct exactly when it does not promote a node that is still there. */
  lemma EvictionKeepsDistinctIff(b: Bucket, gone: NodeId)
    requires DistinctIds(b.nodes)
    ensures DistinctIds(Evicted(b, gone).nodes) <==> !Repeats(b, gone)
  {
    hide Find;
    var p := Find(b.nodes, gone);
    if b.replacements != [] && p.Some? {
      var rest, n := Without(b.nodes, p.value), b.replacements[0];
      WithoutDistinct(b.nodes, p.value);
      DistinctSnocIff(rest, n);
      FoundWithout(b.nodes, p.value, n.id);
    }
  }

  lemma DistinctSnocIff(nodes: seq<Node>, n: Node)
    requires DistinctIds(nodes)
    ensures DistinctIds(nodes + [n]) <==> Find(nodes, n.id).None?
  {
    hide Find;
    var all := nodes + [n];
    if Find(nodes, n.id).Some? {
      var q := Find(nodes, n.id).value;
      assert all[q].id == all[|nodes|].id;
    }
  }

  lemma FoundWithout(nodes: seq<Node>, p: nat, id: NodeId)
    requires DistinctIds(nodes) && p < |nodes|
    ensures Find(Without(nodes, p), id).Some? <==> Find(nodes, id).Some? && nodes[p].id != id
  {
    hide Find, Known;
    if nodes[p].id == id {
      WithoutDistinct(nodes, p);
    } else {
      KnownWithout(nodes, p, id);
      KnownFound(nodes, id);
      KnownFound(Without(nodes, p), id);
    }
  }

  ghost predicate DistinctTable(t: Table) {
    forall i: nat :: i < |t.buckets| ==> DistinctIds(t.buckets[i].nodes)
  }

  /** The guard in terms of the table: a removal that promotes a node its bucket still holds. */
  predicate RepeatsIn(t: Table, op: Operation)
    requires |t.buckets| == ADDRESS_BITS
  {
    op.Remove? && t.Index(op.id).Some? && Repeats(t.buckets[t.Index(op.id).value], op.id)
  }

  lemma ApplyKeepsDistinctIff(t: Table, op: Operation)
    requires |t.buckets| == ADDRESS_BITS && DistinctTable(t)
    ensures DistinctTable(Apply(t, op)) <==> !RepeatsIn(t, op)
  {
    hide Verified, Seen, Evicted, BucketIndex, Repeats, DistinctIds;
    var i := t.Index(if op.Remove? then op.id else op.n.id);
    if i.Some? {
      var b := t.buckets[i.value];
      assert DistinctIds(b.nodes);
      match op
      case AddVerified(n) => AddingKeepsDistinct(b, n);
      case AddSeen(n) => AddingKeepsDistinct(b, n);
      case Remove(id) =>
        EvictionKeepsDistinctIff(b, id);
        assert Apply(t, op).buckets[i.value] == Evicted(b, id);
    }
  }

  /** Ids are distinct in every bucket before, between and after the operations. */
  ghost predicate AlwaysDistinct(t: Table, ops: seq<Operation>)
    requires |t.buckets| == ADDRESS_BITS
    decreases |ops|
  {
    DistinctTable(t) && (ops != [] ==> AlwaysDistinct(Apply(t, ops[0]), ops[1..]))
  }

  /** None of the operations meets the guard when its turn comes. */
  predicate NeverRepeats(t: Table, ops: seq<Operation>)
    requires |t.buckets| == ADDRESS_BITS
    decreases |ops|
  {
    ops != [] ==> !RepeatsIn(t, ops[0]) && NeverRepeats(Apply(t, ops[0]), ops[1..])
  }

  lemma {:induction false} RunKeepsDistinctIff(t: Table, ops: seq<Operation>)
    requires |t.buckets| == ADDRESS_BITS && DistinctTable(t)
    ensures AlwaysDistinct(t, ops) <==> NeverRepeats(t, ops)
    decreases |ops|
  {
    hide RepeatsIn, DistinctTable, BucketIndex, Verified, Seen, Evicted;
    if ops != [] {
      ApplyKeepsDistinctIff(t, ops[0]);
      if !RepeatsIn(t, ops[0]) {
        RunKeepsDistinctIff(Apply(t, ops[0]), ops[1..]);
      }
    }
  }

  /** Over every sequence of operations, ids stay distinct exactly when no removal promotes a node still there. */
  lemma IdsStayDistinctIff(hash: NodeId -> H256, id: NodeId, ops: seq<Operation>)
    ensures AlwaysDistinct(Empty(hash, id), ops) <==> NeverRepeats(Empty(hash, id), ops)
  {
    RunKeepsDistinctIff(Empty(hash, id), ops);
  }

  // A run that repeats an id

  function AddOps(adds: seq<Add>): seq<Operation> {
    seq(|adds|, i requires 0 <= i < |adds| => AddOp(adds[i]))
  }

  function Seens(ns: seq<Node>): seq<Add> {
    seq(|ns|, i requires 0 <= i < |ns| => Add(ns[i], false))
  }

  function RemoveOps(ids: seq<NodeId>): seq<Operation> {
    seq(|ids|, i requires 0 <= i < |ids| => Remove(ids[i]))
  }

  lemma {:induction false} RunJoins(t: Table, a: seq<Operation>, b: seq<Operation>)
    requires |t.buckets| == ADDRESS_BITS
    ensures Run(t, a + b) == Run(Run(t, a), b)
    decreases |a|
  {
    if a == [] {
      assert a + b == b;
    } else {
      assert (a + b)[1..] == a[1..] + b;
      RunJoins(Apply(t, a[0]), a[1..], b);
    }
  }

  lemma RunNext(t: Table, ops: seq<Operation>, op: Operation)
    requires |t.buckets| == ADDRESS_BITS
    ensures Run(t, ops + [op]) == Apply(Run(t, ops), op)
  {
    RunJoins(t, ops, [op]);
    var mid := Run(t, ops);
    assert Run(mid, [op]) == Run(Apply(mid, op), [op][1..]) == Apply(mid, op);
  }

  function AddOp(add: Add): Operation {
    if add.verified then AddVerified(add.n) else AddSeen(add.n)
  }

  lemma ApplyAdd(t: Table, i: nat, add: Add)
    requires |t.buckets| == ADDRESS_BITS && i < ADDRESS_BITS && t.Belongs(i, add.n)
    ensures Apply(t, AddOp(add)) ==
      t.Put(i, if add.verified then Verified(t.buckets[i], add.n) else Seen(t.buckets[i], add.n))
  {
    hide Seen, Verified, BucketIndex;
  }

  /** A run of additions to one bucket is that run on the bucket. */
  lemma {:induction false} RunAdds(t: Table, i: nat, adds: seq<Add>)
    requires |t.buckets| == ADDRESS_BITS && i < ADDRESS_BITS
    requires forall k :: 0 <= k < |adds| ==> t.Belongs(i, adds[k].n)
    ensures Run(t, AddOps(adds)) == t.Put(i, AddAll(t.buckets[i], adds))
  {
    hide Seen, Verified, BucketIndex, Apply, AddOp;
    if adds == [] {
      assert t.buckets[i := t.buckets[i]] == t.buckets;
    } else {
      var k := |adds| - 1;
      RunAdds(t, i, adds[..k]);
      assert AddOps(adds) == AddOps(adds[..k]) + [AddOp(adds[k])];
      RunNext(t, AddOps(adds[..k]), AddOp(adds[k]));
      ApplyAdd(t.Put(i, AddAll(t.buckets[i], adds[..k])), i, adds[k]);
    }
  }

  lemma {:induction false} RunRemoves(t: Table, i: nat, ids: seq<NodeId>)
    requires |t.buckets| == ADDRESS_BITS && i < ADDRESS_BITS
    requires forall id :: id in ids ==> t.Index(id) == Some(i)
    ensures Run(t, RemoveOps(ids)) == t.Put(i, EvictAll(t.buckets[i], ids))
  {
    hide Evicted, BucketIndex;
    if ids == [] {
      assert t.buckets[i := t.buckets[i]] == t.buckets;
    } else {
      var init, last := ids[..|ids| - 1], ids[|ids| - 1];
      RunRemoves(t, i, init);
      assert RemoveOps(ids) == RemoveOps(init) + [Remove(last)];
      RunNext(t, RemoveOps(init), Remove(last));
      assert last in ids;
    }
  }

  lemma {:induction false} EmptyBucketFills(ns: seq<Node>)
    requires |ns| <= BUCKET_SIZE && DistinctIds(ns)
    ensures AddAll(Bucket([], []), Seens(ns)) == Bucket(ns, [])
  {
    hide Find;
    if ns != [] {
      var k := |ns| - 1;
      EmptyBucketFills(ns[..k]);
      assert Seens(ns)[..k] == Seens(ns[..k]);
      assert Find(ns[..k], ns[k].id).None?;
      assert ns == ns[..k] + [ns[k]];
    }
  }

  /** Fill a bucket, let one more node be seen twice, remove two others: both copies of it are promoted. */
  function RepeatingRun(full: seq<Node>, x: Node): seq<Operation>
    requires |full| == BUCKET_SIZE
  {
    AddOps(Seens(full)) + AddOps(Seens([x, x])) + RemoveOps([full[0].id, full[1].id])
  }

  /** A full bucket with the seventeenth node queued twice. */
  lemma SeenTwiceQueuesTwice(hash: NodeId -> H256, id: NodeId, i: nat, full: seq<Node>, x: Node)
    requires |full| == BUCKET_SIZE && DistinctIds(full) && Known(full, x.id).None? && i < ADDRESS_BITS
    requires forall n :: n in full ==> Empty(hash, id).Belongs(i, n)
    requires Empty(hash, id).Belongs(i, x)
    ensures Run(Empty(hash, id), AddOps(Seens(full)) + AddOps(Seens([x, x])))
         == Empty(hash, id).Put(i, Bucket(full, [x, x]))
  {
    hide Run, AddAll, BucketIndex, DistinctIds, AddOps, Known;
    var t := Empty(hash, id);
    RunJoins(t, AddOps(Seens(full)), AddOps(Seens([x, x])));
    RunAdds(t, i, Seens(full));
    EmptyBucketFills(full);
    var t1 := t.Put(i, Bucket(full, []));
    RunAdds(t1, i, Seens([x, x]));
    FullBucketQueues(Bucket(full, []), Seens([x, x]));
    assert NodesOf(Seens([x, x])) == [x, x];
    assert Bucket(full, []).(replacements := [] + [x, x]) == Bucket(full, [x, x]);
    assert t1.buckets[i := Bucket(full, [x, x])] == t.buckets[i := Bucket(full, [x, x])];
  }

  /** Whatever the hash function, any sixteen nodes of one bucket and a seventeenth end with an id repeated. */
  lemma {:induction false} SeenTwicePromotedTwice(hash: NodeId -> H256, id: NodeId, i: nat, full: seq<Node>, x: Node)
    requires |full| == BUCKET_SIZE && DistinctIds(full) && Known(full, x.id).None? && i < ADDRESS_BITS
    requires forall n :: n in full ==> Empty(hash, id).Belongs(i, n)
    requires Empty(hash, id).Belongs(i, x)
    ensures Run(Empty(hash, id), RepeatingRun(full, x)).buckets[i].nodes == full[2..] + [x, x]
  {
    hide Run, EvictAll, BucketIndex, DistinctIds, AddOps, Seens, RemoveOps, Known;
    var t := Empty(hash, id);
    var two := [full[0].id, full[1].id];
    assert full[0] in full && full[1] in full;
    RunJoins(t, AddOps(Seens(full)) + AddOps(Seens([x, x])), RemoveOps(two));
    SeenTwiceQueuesTwice(hash, id, i, full, x);
    RunRemoves(t.Put(i, Bucket(full, [x, x])), i, two);
    TwoEvicted(full, x);
  }

  lemma TwoEvicted(full: seq<Node>, x: Node)
    requires |full| == BUCKET_SIZE && DistinctIds(full)
    ensures EvictAll(Bucket(full, [x, x]), [full[0].id, full[1].id]).nodes == full[2..] + [x, x]
  {
    var a, c := full[0].id, full[1].id;
    var b := Bucket(full, [x, x]);
    FindFirst(full, a, 0);
    var b1 := Evicted(b, a);
    assert b1 == Bucket(full[1..] + [x], [x]);
    FindFirst(full[1..] + [x], c, 0);
    var b2 := Evicted(b1, c);
    assert b2.nodes == full[2..] + [x] + [x];
    assert [a, c][..1] == [a] && [a][..0] == [];
    assert EvictAll(b, [a]) == b1;
    assert full[2..] + [x] + [x] == full[2..] + [x, x];
  }

  function Numbered(k: nat): Node
    requires k < 256
  {
    Node([128, k as byte] + Zeros(62), Endpoint(k, false, 30303, 30303))
  }

  lemma NumberedBelongs(hash: NodeId -> H256, k: nat)
    requires k < 256 && hash(Zeros(64)) == Zeros(32) && hash(Numbered(k).id) == Numbered(k).id[..32]
    ensures Empty(hash, Zeros(64)).Belongs(255, Numbered(k))
  {
    var there: H256 := Numbered(k).id[..32];
    assert there[0] == 128;
    HighBucket(there);
  }

  lemma HighBucket(there: H256)
    requires there[0] == 128
    ensures BucketIndex(Zeros(32), there) == Some(255)
  {
    var x := Xor(Zeros(32), there);
    XorByteLaws(128, 128);
    hide XorByte, BigEndian;
    assert x[0] == XorByte(0, 128) == XorByte(XorByte(128, 128), 128) == 128;
    LogFromFirstByte(x, 0);
    XorZero(Zeros(32), there);
    LogUnique(Between(Zeros(32), there), 255, BucketIndex(Zeros(32), there).value);
  }

  function Sixteen(): (full: seq<Node>)
    ensures |full| == BUCKET_SIZE
  {
    seq(16, k requires 0 <= k < 16 => Numbered(k))
  }

  lemma SixteenDistinct()
    ensures DistinctIds(Sixteen()) && Known(Sixteen(), Numbered(16).id).None?
  {
    hide Find;
    var full := Sixteen();
    assert forall k :: 0 <= k < 16 ==> full[k].id[1] == k as byte;
    assert Numbered(16).id[1] == 16;
  }

  lemma SixteenBelong(hash: NodeId -> H256, n: Node)
    requires forall id :: hash(id) == id[..32]
    requires n in Sixteen() || n == Numbered(16)
    ensures Empty(hash, Zeros(64)).Belongs(255, n)
  {
    var k :| 0 <= k < 17 && n == Numbered(k);
    assert Zeros(64)[..32] == Zeros(32);
    NumberedBelongs(hash, k);
  }

  /** So ids do not stay distinct in every run. */
  lemma SomeRunRepeatsAnId() returns (hash: NodeId -> H256, id: NodeId, ops: seq<Operation>)
    ensures !DistinctTable(Run(Empty(hash, id), ops))
  {
    hide Run, RepeatingRun, Known, DistinctIds, Numbered, Sixteen, BucketIndex;
    hash, id := (n: NodeId) => n[..32], Zeros(64);
    var full, x := Sixteen(), Numbered(16);
    SixteenDistinct();
    forall n | n in full || n == x ensures Empty(hash, id).Belongs(255, n) {
      SixteenBelong(hash, n);
    }
    ops := RepeatingRun(full, x);
    SeenTwicePromotedTwice(hash, id, 255, full, x);
    RepeatedAtEnd(full[2..], x);
  }

  lemma RepeatedAtEnd(nodes: seq<Node>, x: Node)
    ensures !DistinctIds(nodes + [x, x])
  {
    var all := nodes + [x, x];
    assert all[|nodes|].id == all[|nodes| + 1].id;
  }

  /**
   * A verified node that found its bucket full is not lost: when a node of that bucket is removed, it takes that
   * node's place, if no other was waiting.
   */
  lemma VerifiedWaitsForAPlace(t: Table, x: Node, gone: NodeId)
    requires t.Valid() && !x.endpoint.ipv6 && t.Index(x.id).Some? && t.Index(gone) == t.Index(x.id)
    requires
      var b := t.buckets[t.Index(x.id).value];
      |b.nodes| == BUCKET_SIZE && b.replacements == [] && Known(b.nodes, x.id).None? && Known(b.nodes, gone).Some?
    ensures Resolve(Run(t, [AddVerified(x), Remove(gone)]), x.id) == Some(x)
    ensures Resolve(Run(t, [AddVerified(x)]), x.id) == None
  {
    var i := t.Index(x.id).value;
    var b := t.buckets[i];
    RunNext(t, [], AddVerified(x));
    RunNext(t, [AddVerified(x)], Remove(gone));
    assert [] + [AddVerified(x)] == [AddVerified(x)];
    assert [AddVerified(x)] + [Remove(gone)] == [AddVerified(x), Remove(gone)];
    var t1 := Apply(t, AddVerified(x));
    hide Run, Known, Find, BucketIndex, Verified, Evicted, Scan;
    ApplyKeeps(t, AddVerified(x));
    FullBucketQueuesOne(b, x);
    assert t1.buckets[i] == b.(replacements := [x]);
    RemovalResolves(t1, gone, x.id);
    EvictedIsReplaced(t1.buckets[i], gone, x.id);
    KnownFound(b.nodes, gone);
    AdditionResolves(t, x, x.id);
    GetAgreesWithScan(t, x.id);
  }
}
