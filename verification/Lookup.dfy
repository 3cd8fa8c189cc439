/** The iterative lookup: rounds of queries to the closest known nodes, whatever they answer. */
module Lookup {
  import opened Bytes
  import opened Wrappers
  import opened Distance
  import opened Kademlia

  const ALPHA: nat := 3

  datatype QueryNode = QueryNode(record: Node, queried: bool, responded: bool)

  /** Known nodes by their distance to the target: an ordered map in the source. */
  type Nearest = map<nat, QueryNode>

  /** A query: its round and the distance of the node asked. */
  datatype Query = Query(round: nat, distance: nat)

  /** What a queried node answers: nothing, or neighbours messages. The lookup holds for every such function. */
  type Answer = Option<seq<seq<Node>>>
  type Network = Query -> Answer

  ghost predicate Increasing(s: seq<nat>) {
    forall i, j :: 0 <= i < j < |s| ==> s[i] < s[j]
  }

  /** The first keys of an ordered map: increasing, at most `k`, and below all that are left out. */
  ghost predicate FirstKeys(keys: set<nat>, k: nat, s: seq<nat>) {
    && Increasing(s)
    && (forall d :: d in s ==> d in keys)
    && |s| <= k
    && (forall d, e :: d in keys && d !in s && e in s ==> e < d)
    && (|s| < k ==> forall d :: d in keys ==> d in s)
  }

  method SmallestKeys(keys: set<nat>, k: nat) returns (s: seq<nat>)
    ensures FirstKeys(keys, k, s)
    ensures k >= |keys| ==> forall d :: d in keys ==> d in s
  {
    s := [];
    var rest := keys;
    while |s| < k && rest != {}
      invariant |s| + |rest| == |keys|
      invariant Increasing(s) && |s| <= k
      invariant forall d :: d in keys <==> d in s || d in rest
      invariant forall d, e :: d in rest && e in s ==> e < d
      decreases k - |s|
    {
      var least := Minimum(rest);
      forall i | 0 <= i < |s| ensures s[i] < least { assert s[i] in s; }
      s := s + [least];
      rest := rest - {least};
    }
  }

  method Minimum(s: set<nat>) returns (m: nat)
    requires s != {}
    ensures m in s && forall x :: x in s ==> m <= x
  {
    m :| m in s;
    var rest := s - {m};
    while rest != {}
      invariant m in s && rest <= s
      invariant forall x :: x in s && x !in rest ==> m <= x
      decreases rest
    {
      var x :| x in rest;
      if x < m { m := x; }
      rest := rest - {x};
    }
  }

  /** Every key is the distance of its record. */
  ghost predicate Keyed(hash: NodeId -> H256, target: NodeId, known: Nearest) {
    forall d :: d in known ==> d == Between(hash(target), hash(known[d].record.id))
  }

  ghost predicate Asked(asked: seq<Query>, d: nat) {
    exists q :: q in asked && q.distance == d
  }

  ghost predicate Answered(net: Network, asked: seq<Query>, d: nat) {
    exists q :: q in asked && q.distance == d && net(q).Some?
  }

  /** The nodes of an answer, and of the answers to several queries, in the order they are taken in. */
  function Flat(messages: seq<seq<Node>>): seq<Node> {
    if messages == [] then [] else Flat(messages[..|messages| - 1]) + messages[|messages| - 1]
  }

  function NodesIn(answer: Answer): seq<Node> {
    if answer.None? then [] else Flat(answer.value)
  }

  function Stream(net: Network, asked: seq<Query>): seq<Node> {
    if asked == [] then [] else Stream(net, asked[..|asked| - 1]) + NodesIn(net(asked[|asked| - 1]))
  }

  /** The first node at a distance. */
  function FirstAt(hash: NodeId -> H256, target: NodeId, nodes: seq<Node>, d: nat): Option<Node> {
    if nodes == [] then None
    else
      var before := FirstAt(hash, target, nodes[..|nodes| - 1], d);
      var last := nodes[|nodes| - 1];
      if before.Some? then before
      else if Between(hash(target), hash(last.id)) == d then Some(last)
      else None
  }

  lemma FirstAtNext(hash: NodeId -> H256, target: NodeId, nodes: seq<Node>, n: Node, d: nat)
    ensures FirstAt(hash, target, nodes + [n], d) ==
      var before := FirstAt(hash, target, nodes, d);
      if before.Some? then before else if Between(hash(target), hash(n.id)) == d then Some(n) else None
  {
    assert (nodes + [n])[..|nodes|] == nodes;
  }

  lemma FirstAtNone(hash: NodeId -> H256, target: NodeId, d: nat)
    ensures FirstAt(hash, target, [], d) == None
  {
  }

  lemma {:induction false} FirstAtJoins(hash: NodeId -> H256, target: NodeId, a: seq<Node>, b: seq<Node>, d: nat)
    ensures FirstAt(hash, target, a + b, d) ==
      if FirstAt(hash, target, a, d).Some? then FirstAt(hash, target, a, d) else FirstAt(hash, target, b, d)
    decreases |b|
  {
    hide FirstAt, Between;
    if b == [] {
      FirstAtNone(hash, target, d);
      assert a + b == a;
    } else {
      var k := |b| - 1;
      FirstAtJoins(hash, target, a, b[..k], d);
      FirstAtNext(hash, target, a + b[..k], b[k], d);
      FirstAtNext(hash, target, b[..k], b[k], d);
      assert a + b == a + b[..k] + [b[k]] && b == b[..k] + [b[k]];
    }
  }

  /** Some node of an answer is at a distance. */
  ghost predicate Tells(hash: NodeId -> H256, target: NodeId, nodes: seq<Node>, d: nat) {
    exists n :: n in nodes && Between(hash(target), hash(n.id)) == d
  }

  lemma {:induction false} FirstAtTells(hash: NodeId -> H256, target: NodeId, nodes: seq<Node>, d: nat)
    ensures FirstAt(hash, target, nodes, d).Some? <==> Tells(hash, target, nodes, d)
    ensures
      var first := FirstAt(hash, target, nodes, d);
      first.Some? ==> first.value in nodes && Between(hash(target), hash(first.value.id)) == d
  {
    hide Between;
    if nodes != [] {
      var k := |nodes| - 1;
      FirstAtTells(hash, target, nodes[..k], d);
      assert nodes == nodes[..k] + [nodes[k]];
    }
  }

  /** No distance is asked twice. */
  ghost predicate Once(asked: seq<Query>) {
    forall i, j :: 0 <= i < j < |asked| ==> asked[i].distance != asked[j].distance
  }

  /** The `queried` flags say which distances were asked. */
  ghost predicate Marked(known: Nearest, asked: seq<Query>) {
    && (forall q :: q in asked ==> q.distance in known)
    && (forall d :: d in known ==> (known[d].queried <==> Asked(asked, d)))
  }

  /** The `responded` flags say which queries were answered. */
  ghost predicate Heard(net: Network, known: Nearest, asked: seq<Query>) {
    forall d :: d in known ==> (known[d].responded <==> Answered(net, asked, d))
  }

  /** Known nodes are those the lookup started from and, at other distances, the first it was told of. */
  ghost predicate Gathered(hash: NodeId -> H256, target: NodeId, net: Network, start: map<nat, Node>, known: Nearest,
                           asked: seq<Query>)
  {
    forall d :: GatheredAt(hash, target, start, known, Stream(net, asked), d)
  }

  ghost predicate GatheredAt(hash: NodeId -> H256, target: NodeId, start: map<nat, Node>, known: Nearest,
                             stream: seq<Node>, d: nat)
  {
    var record := if d in known then Some(known[d].record) else None;
    record == if d in start then Some(start[d]) else FirstAt(hash, target, stream, d)
  }

  function QueriesOf(round: nat, picked: seq<nat>): seq<Query> {
    seq(|picked|, i requires 0 <= i < |picked| => Query(round, picked[i]))
  }

  /** Two maps of known nodes that differ in flags and additions only. */
  ghost predicate Extends(known: Nearest, known': Nearest) {
    forall d :: d in known ==> d in known' && known'[d].record == known[d].record && known'[d].queried == known[d].queried
  }

  method Mark(known: Nearest, picked: seq<nat>) returns (known': Nearest)
    requires forall d :: d in picked ==> d in known
    ensures known'.Keys == known.Keys
    ensures forall d :: d in known ==> known'[d] == known[d].(queried := known[d].queried || d in picked)
  {
    known' := known;
    for i := 0 to |picked|
      invariant known'.Keys == known.Keys
      invariant forall d :: d in known ==> known'[d] == known[d].(queried := known[d].queried || d in picked[..i])
    {
      assert picked[..i + 1] == picked[..i] + [picked[i]];
      known' := known'[picked[i] := known'[picked[i]].(queried := true)];
    }
    assert picked[..|picked|] == picked;
  }

  /** The map after taking in some nodes: at each new distance the first of them, neither queried nor responding. */
  ghost predicate Learned(hash: NodeId -> H256, target: NodeId, known: Nearest, nodes: seq<Node>, known': Nearest) {
    forall d :: LearnedAt(hash, target, known, nodes, known', d)
  }

  ghost predicate LearnedAt(hash: NodeId -> H256, target: NodeId, known: Nearest, nodes: seq<Node>, known': Nearest, d: nat) {
    if d in known then d in known' && known'[d] == known[d]
    else
      var first := FirstAt(hash, target, nodes, d);
      if first.Some? then d in known' && known'[d] == QueryNode(first.value, false, false) else d !in known'
  }

  lemma LearnedNone(hash: NodeId -> H256, target: NodeId, known: Nearest)
    ensures Learned(hash, target, known, [], known)
  {
    forall d ensures LearnedAt(hash, target, known, [], known, d) {
      FirstAtNone(hash, target, d);
    }
  }

  lemma LearnedJoins(hash: NodeId -> H256, target: NodeId, known: Nearest, a: seq<Node>, mid: Nearest, b: seq<Node>,
                     known': Nearest)
    requires Learned(hash, target, known, a, mid) && Learned(hash, target, mid, b, known')
    ensures Learned(hash, target, known, a + b, known')
  {
    hide FirstAt;
    forall d ensures LearnedAt(hash, target, known, a + b, known', d) {
      assert LearnedAt(hash, target, known, a, mid, d) && LearnedAt(hash, target, mid, b, known', d);
      FirstAtJoins(hash, target, a, b, d);
    }
  }

  /** One node: added if its distance is new. */
  lemma LearnedOne(hash: NodeId -> H256, target: NodeId, known: Nearest, n: Node, known': Nearest)
    requires
      var d := Between(hash(target), hash(n.id));
      known' == if d in known then known else known[d := QueryNode(n, false, false)]
    ensures Learned(hash, target, known, [n], known')
  {
    hide Between, FirstAt;
    forall d ensures LearnedAt(hash, target, known, [n], known', d) {
      FirstAtNone(hash, target, d);
      FirstAtNext(hash, target, [], n, d);
      assert [] + [n] == [n];
    }
  }

  lemma LearnedKeyed(hash: NodeId -> H256, target: NodeId, known: Nearest, nodes: seq<Node>, known': Nearest)
    requires Keyed(hash, target, known) && Learned(hash, target, known, nodes, known')
    ensures Keyed(hash, target, known')
  {
    hide Between, FirstAt;
    forall d | d in known' ensures d == Between(hash(target), hash(known'[d].record.id)) {
      assert LearnedAt(hash, target, known, nodes, known', d);
      FirstAtTells(hash, target, nodes, d);
    }
  }

  /** The nodes of one message: unseen ones are added. */
  method Learn(hash: NodeId -> H256, target: NodeId, known: Nearest, message: seq<Node>) returns (known': Nearest)
    ensures Learned(hash, target, known, message, known')
  {
    hide Learned, Between;
    known' := known;
    LearnedNone(hash, target, known);
    for i := 0 to |message|
      invariant Learned(hash, target, known, message[..i], known')
    {
      ghost var before := known';
      var d := Between(hash(target), hash(message[i].id));
      if d !in known' {
        known' := known'[d := QueryNode(message[i], false, false)];
      }
      LearnedOne(hash, target, before, message[i], known');
      LearnedJoins(hash, target, known, message[..i], before, [message[i]], known');
      assert message[..i + 1] == message[..i] + [message[i]];
    }
    assert message[..|message|] == message;
  }

  /** All messages of one answer. */
  method LearnAll(hash: NodeId -> H256, target: NodeId, known: Nearest, messages: seq<seq<Node>>) returns (known': Nearest)
    ensures Learned(hash, target, known, Flat(messages), known')
  {
    known' := known;
    LearnedNone(hash, target, known);
    hide Learned;
    for i := 0 to |messages|
      invariant Learned(hash, target, known, Flat(messages[..i]), known')
    {
      ghost var before := known';
      known' := Learn(hash, target, known', messages[i]);
      LearnedJoins(hash, target, known, Flat(messages[..i]), before, messages[i], known');
      assert messages[..i + 1][..i] == messages[..i];
    }
    assert messages[..|messages|] == messages;
  }

  lemma QueriesAsked(round: nat, picked: seq<nat>, d: nat)
    ensures Asked(QueriesOf(round, picked), d) <==> d in picked
  {
    if d in picked {
      var i :| 0 <= i < |picked| && picked[i] == d;
      assert QueriesOf(round, picked)[i].distance == d;
    }
  }

  lemma AskedConcat(net: Network, a: seq<Query>, b: seq<Query>, d: nat)
    ensures Asked(a + b, d) <==> Asked(a, d) || Asked(b, d)
    ensures Answered(net, a + b, d) <==> Answered(net, a, d) || Answered(net, b, d)
  {
    assert forall q :: q in a + b <==> q in a || q in b;
  }

  /** The map with one node marked as responding. */
  function Responding(known: Nearest, d: nat): Nearest
    requires d in known
  {
    known[d := known[d].(responded := true)]
  }

  /** What processing one answer makes of the known nodes. */
  ghost predicate Processed(hash: NodeId -> H256, target: NodeId, answer: Answer, d: nat, known: Nearest, known': Nearest)
    requires d in known
  {
    if answer.None? then known' == known
    else Learned(hash, target, Responding(known, d), NodesIn(answer), known')
  }

  method Process(hash: NodeId -> H256, target: NodeId, answer: Answer, d: nat, known: Nearest) returns (known': Nearest)
    requires Keyed(hash, target, known) && d in known
    ensures Keyed(hash, target, known') && Processed(hash, target, answer, d, known, known')
  {
    hide Learned, Between;
    known' := known;
    if answer.Some? {
      ghost var marked := Responding(known, d);
      known' := known'[d := known'[d].(responded := true)];
      known' := LearnAll(hash, target, known', answer.value);
      LearnedKeyed(hash, target, marked, NodesIn(answer), known');
    }
  }

  /** The flags after processing: the asked node responds if it answered, new nodes have no flag. */
  lemma ProcessedFlags(hash: NodeId -> H256, target: NodeId, answer: Answer, d: nat, known: Nearest, known': Nearest)
    requires d in known && Processed(hash, target, answer, d, known, known')
    ensures forall e :: e in known ==>
      && e in known' && known'[e].record == known[e].record && known'[e].queried == known[e].queried
      && (known'[e].responded <==> known[e].responded || (e == d && answer.Some?))
    ensures forall e :: e in known' && e !in known ==> !known'[e].queried && !known'[e].responded
  {
    hide FirstAt, NodesIn;
    if answer.Some? {
      var marked := Responding(known, d);
      forall e | e in known
        ensures e in known' && known'[e] == marked[e]
      {
        assert LearnedAt(hash, target, marked, NodesIn(answer), known', e);
      }
      forall e | e in known' && e !in known ensures !known'[e].queried && !known'[e].responded {
        assert LearnedAt(hash, target, marked, NodesIn(answer), known', e);
      }
    }
  }

  ghost predicate AskedKnown(known: Nearest, asked: seq<Query>) {
    forall q :: q in asked ==> q.distance in known
  }

  lemma HeardStep(hash: NodeId -> H256, target: NodeId, net: Network, known: Nearest, asked: seq<Query>, q: Query,
                  known': Nearest)
    requires Heard(net, known, asked) && AskedKnown(known, asked) && q.distance in known
    requires Processed(hash, target, net(q), q.distance, known, known')
    ensures Heard(net, known', asked + [q]) && AskedKnown(known', asked + [q])
  {
    ProcessedFlags(hash, target, net(q), q.distance, known, known');
    hide Processed;
    forall d | d in known' ensures known'[d].responded <==> Answered(net, asked + [q], d) {
      AskedConcat(net, asked, [q], d);
      assert Answered(net, [q], d) <==> q.distance == d && net(q).Some? by { assert q in [q]; }
    }
  }

  lemma GatheredStep(hash: NodeId -> H256, target: NodeId, net: Network, start: map<nat, Node>, known: Nearest,
                     asked: seq<Query>, q: Query, known': Nearest)
    requires Gathered(hash, target, net, start, known, asked) && q.distance in known
    requires Processed(hash, target, net(q), q.distance, known, known')
    ensures Gathered(hash, target, net, start, known', asked + [q])
  {
    hide FirstAt, NodesIn;
    var a, b := Stream(net, asked), NodesIn(net(q));
    assert (asked + [q])[..|asked|] == asked;
    assert Stream(net, asked + [q]) == a + b;
    forall d ensures GatheredAt(hash, target, start, known', a + b, d) {
      assert GatheredAt(hash, target, start, known, a, d);
      FirstAtJoins(hash, target, a, b, d);
      if net(q).Some? {
        assert LearnedAt(hash, target, Responding(known, q.distance), b, known', d);
      } else {
        NoNodes(hash, target, net(q), d);
      }
    }
  }

  lemma NoNodes(hash: NodeId -> H256, target: NodeId, answer: Answer, d: nat)
    requires answer.None?
    ensures FirstAt(hash, target, NodesIn(answer), d) == None
  {
    FirstAtNone(hash, target, d);
  }

  lemma ExtendsHas(known: Nearest, known': Nearest, d: nat)
    requires Extends(known, known') && d in known
    ensures d in known'
  {
  }

  lemma ProcessedKeeps(hash: NodeId -> H256, target: NodeId, answer: Answer, d: nat, base: Nearest, known: Nearest,
                       known': Nearest)
    requires d in known && Processed(hash, target, answer, d, known, known') && Extends(base, known)
    requires forall e :: e in known && e !in base ==> !known[e].queried
    ensures Extends(base, known') && forall e :: e in known' && e !in base ==> !known'[e].queried
  {
    ProcessedFlags(hash, target, answer, d, known, known');
    hide Processed;
  }

  /** The answers of one round, in the order of the queries. */
  method ProcessRound(hash: NodeId -> H256, target: NodeId, net: Network, ghost start: map<nat, Node>, known: Nearest,
                      ghost asked: seq<Query>, round: nat, picked: seq<nat>)
    returns (known': Nearest)
    requires Keyed(hash, target, known) && Heard(net, known, asked) && AskedKnown(known, asked)
    requires Gathered(hash, target, net, start, known, asked)
    requires forall d :: d in picked ==> d in known
    ensures Keyed(hash, target, known') && Extends(known, known')
    ensures forall d :: d in known' && d !in known ==> !known'[d].queried
    ensures
      var asked' := asked + QueriesOf(round, picked);
      && Heard(net, known', asked') && AskedKnown(known', asked')
      && Gathered(hash, target, net, start, known', asked')
  {
    hide Heard, AskedKnown, Gathered, Keyed;
    known' := known;
    assert asked + QueriesOf(round, picked[..0]) == asked;
    for i := 0 to |picked|
      invariant Keyed(hash, target, known') && Extends(known, known')
      invariant forall d :: d in known' && d !in known ==> !known'[d].queried
      invariant Heard(net, known', asked + QueriesOf(round, picked[..i]))
      invariant AskedKnown(known', asked + QueriesOf(round, picked[..i]))
      invariant Gathered(hash, target, net, start, known', asked + QueriesOf(round, picked[..i]))
    {
      hide Processed, Extends;
      var d := picked[i];
      assert d in picked;
      ExtendsHas(known, known', d);
      var q := Query(round, d);
      ghost var before, sofar := known', asked + QueriesOf(round, picked[..i]);
      known' := Process(hash, target, net(q), d, known');
      ProcessedKeeps(hash, target, net(q), d, known, before, known');
      HeardStep(hash, target, net, before, sofar, q, known');
      GatheredStep(hash, target, net, start, before, sofar, q, known');
      assert asked + QueriesOf(round, picked[..i + 1]) == sofar + [q];
    }
    assert picked[..|picked|] == picked;
  }

  ghost function QueriedKeys(known: Nearest): set<nat> {
    set d | d in known && known[d].queried
  }

  lemma {:induction false} BoundedSet(s: set<nat>, n: nat)
    requires forall x :: x in s ==> x < n
    ensures |s| <= n
    decreases n
  {
    if n == 0 {
      assert s == {};
    } else {
      BoundedSet(s - {n - 1}, n - 1);
    }
  }

  /** There are finitely many distances, so finitely many can be asked. */
  lemma QueriedBounded(hash: NodeId -> H256, target: NodeId, known: Nearest)
    requires Keyed(hash, target, known)
    ensures |QueriedKeys(known)| <= SPACE
  {
    forall d | d in QueriedKeys(known) ensures d < SPACE {
      BetweenBound(hash(target), hash(known[d].record.id));
    }
    BoundedSet(QueriedKeys(known), SPACE);
  }

  /** A round leaves strictly more distances queried. */
  lemma RoundProgress(known: Nearest, marked: Nearest, known': Nearest, picked: seq<nat>)
    requires picked != [] && forall d :: d in picked ==> d in known && !known[d].queried
    requires marked.Keys == known.Keys
    requires forall d :: d in known ==> marked[d] == known[d].(queried := known[d].queried || d in picked)
    requires Extends(marked, known')
    ensures |QueriedKeys(known)| < |QueriedKeys(known')|
  {
    var d := picked[0];
    assert d in picked;
    assert QueriedKeys(known) <= QueriedKeys(known') - {d};
    assert d in QueriedKeys(known');
    SubsetSize(QueriedKeys(known), QueriedKeys(known') - {d});
  }

  lemma SubsetSize(a: set<nat>, b: set<nat>)
    requires a <= b
    ensures |a| <= |b|
  {
    assert b == a + (b - a);
  }

  lemma OnceStep(known: Nearest, asked: seq<Query>, round: nat, picked: seq<nat>)
    requires Once(asked) && Marked(known, asked) && Increasing(picked)
    requires forall d :: d in picked ==> d in known && !known[d].queried
    ensures Once(asked + QueriesOf(round, picked))
  {
    var fresh' := QueriesOf(round, picked);
    forall i, j | 0 <= i < |asked| && 0 <= j < |fresh'| ensures asked[i].distance != fresh'[j].distance {
      assert asked[i] in asked && picked[j] in picked;
      assert Asked(asked, asked[i].distance);
    }
  }

  lemma MarkedStep(net: Network, known: Nearest, asked: seq<Query>, marked: Nearest, known': Nearest, round: nat, picked: seq<nat>)
    requires Marked(known, asked) && AskedKnown(known', asked + QueriesOf(round, picked))
    requires marked.Keys == known.Keys
    requires forall d :: d in known ==> marked[d] == known[d].(queried := known[d].queried || d in picked)
    requires forall d :: d in picked ==> d in known
    requires Extends(marked, known') && forall d :: d in known' && d !in marked ==> !known'[d].queried
    ensures Marked(known', asked + QueriesOf(round, picked))
  {
    forall d | d in known' ensures known'[d].queried <==> Asked(asked + QueriesOf(round, picked), d) {
      AskedConcat(net, asked, QueriesOf(round, picked), d);
      QueriesAsked(round, picked, d);
      assert d !in known ==> !Asked(asked, d);
    }
  }

  /** The unqueried nodes among the closest, nearest first. */
  method Pick(known: Nearest) returns (closest: seq<nat>, picked: seq<nat>)
    ensures FirstKeys(known.Keys, ALPHA, closest)
    ensures Increasing(picked)
    ensures forall d :: d in picked <==> d in closest && !known[d].queried
  {
    closest := SmallestKeys(known.Keys, ALPHA);
    picked := [];
    for i := 0 to |closest|
      invariant forall d :: d in picked <==> d in closest[..i] && !known[d].queried
      invariant Increasing(picked)
    {
      assert closest[i] in closest;
      assert closest[..i + 1] == closest[..i] + [closest[i]];
      forall j | 0 <= j < |picked| ensures picked[j] < closest[i] { assert picked[j] in picked; }
      if !known[closest[i]].queried { picked := picked + [closest[i]]; }
    }
    assert closest[..|closest|] == closest;
  }

  /** The responding nodes, nearest first, and their distances. */
  method Responders(known: Nearest) returns (found: seq<Node>, distances: seq<nat>)
    ensures Increasing(distances) && |found| == |distances|
    ensures forall d :: d in distances <==> d in known && known[d].responded
    ensures forall i :: 0 <= i < |found| ==> found[i] == known[distances[i]].record
  {
    var order := SmallestKeys(known.Keys, |known|);
    found, distances := [], [];
    for i := 0 to |order|
      invariant Increasing(distances) && |found| == |distances|
      invariant forall d :: d in distances <==> d in order[..i] && known[d].responded
      invariant forall j :: 0 <= j < |found| ==> distances[j] in known && found[j] == known[distances[j]].record
    {
      assert order[i] in order;
      assert order[..i + 1] == order[..i] + [order[i]];
      forall j | 0 <= j < |distances| ensures distances[j] < order[i] { assert distances[j] in distances; }
      if known[order[i]].responded {
        found, distances := found + [known[order[i]].record], distances + [order[i]];
      }
    }
    assert order[..|order|] == order;
  }

  /** The nodes a lookup starts from. */
  ghost function Start(table: map<nat, Node>, first: seq<nat>): map<nat, Node>
    requires forall d :: d in first ==> d in table
  {
    map d | d in first :: table[d]
  }

  /** Everything that holds between the rounds of a lookup. */
  ghost predicate Sound(hash: NodeId -> H256, target: NodeId, net: Network, start: map<nat, Node>, known: Nearest,
                        asked: seq<Query>)
  {
    && Keyed(hash, target, known)
    && Once(asked) && Marked(known, asked) && Heard(net, known, asked)
    && Gathered(hash, target, net, start, known, asked)
  }

  lemma SoundAtStart(hash: NodeId -> H256, target: NodeId, net: Network, table: map<nat, Node>, first: seq<nat>,
                     known: Nearest)
    requires forall d :: d in table ==> d == Between(hash(table[d].id), hash(target))
    requires forall d :: d in first ==> d in table
    requires known == map d | d in first :: QueryNode(table[d], false, false)
    ensures Sound(hash, target, net, Start(table, first), known, [])
  {
    hide FirstAt;
    forall d | d in known ensures d == Between(hash(target), hash(known[d].record.id)) {
      BetweenSymmetric(hash(table[d].id), hash(target));
    }
    forall d ensures GatheredAt(hash, target, Start(table, first), known, [], d) {
      FirstAtNone(hash, target, d);
    }
  }

  /** Marking changes no record and no response. */
  lemma MarkKeeps(hash: NodeId -> H256, target: NodeId, net: Network, start: map<nat, Node>, known: Nearest,
                  asked: seq<Query>, marked: Nearest)
    requires Sound(hash, target, net, start, known, asked) && marked.Keys == known.Keys
    requires forall d :: d in known ==>
      marked[d].record == known[d].record && marked[d].responded == known[d].responded
    ensures Keyed(hash, target, marked) && Heard(net, marked, asked) && AskedKnown(marked, asked)
    ensures Gathered(hash, target, net, start, marked, asked)
  {
    hide Between, Answered, Asked, FirstAt, Stream;
    forall d ensures GatheredAt(hash, target, start, marked, Stream(net, asked), d) {
      assert GatheredAt(hash, target, start, known, Stream(net, asked), d);
    }
  }

  // ----- Whom the lookup asks -----

  /** A lookup: where it starts and what it would be told. */
  datatype Search = Search(hash: NodeId -> H256, target: NodeId, net: Network, start: map<nat, Node>) {
    /** A distance is known at a round: from the start, or from the answer to a query of an earlier round. */
    ghost predicate KnownAt(asked: seq<Query>, round: nat, d: nat) {
      d in start || exists q :: q in asked && q.round < round && Tells(hash, target, NodesIn(net(q)), d)
    }

    /** The known distances below one. */
    ghost function Closer(asked: seq<Query>, round: nat, d: nat): set<nat> {
      set e: nat | e < d && KnownAt(asked, round, e)
    }

    /** A distance is due at a round: known, among the ALPHA closest known, and not asked before. */
    ghost predicate Due(asked: seq<Query>, round: nat, d: nat) {
      && KnownAt(asked, round, d)
      && |Closer(asked, round, d)| < ALPHA
      && forall q :: q in asked && q.round < round ==> q.distance != d
    }

    /** The queries of every round are exactly those due. */
    ghost predicate AsksExactly(asked: seq<Query>, rounds: nat) {
      && (forall q :: q in asked ==> q.round < rounds)
      && forall round: nat, d: nat :: round < rounds ==> (Query(round, d) in asked <==> Due(asked, round, d))
    }

    ghost predicate Holds(known: Nearest, asked: seq<Query>) {
      Sound(hash, target, net, start, known, asked)
    }
  }

  /** Round after round, and nearest first within a round. */
  ghost predicate InOrder(asked: seq<Query>) {
    forall i, j :: 0 <= i < j < |asked| ==>
      asked[i].round < asked[j].round || (asked[i].round == asked[j].round && asked[i].distance < asked[j].distance)
  }

  lemma {:induction false} StreamTells(hash: NodeId -> H256, target: NodeId, net: Network, asked: seq<Query>, d: nat)
    ensures Tells(hash, target, Stream(net, asked), d) <==> exists q :: q in asked && Tells(hash, target, NodesIn(net(q)), d)
  {
    hide NodesIn, Between;
    if asked != [] {
      var k := |asked| - 1;
      StreamTells(hash, target, net, asked[..k], d);
      TellsJoins(hash, target, Stream(net, asked[..k]), NodesIn(net(asked[k])), d);
      assert forall q :: q in asked <==> q in asked[..k] || q == asked[k];
    }
  }

  lemma TellsJoins(hash: NodeId -> H256, target: NodeId, a: seq<Node>, b: seq<Node>, d: nat)
    ensures Tells(hash, target, a + b, d) <==> Tells(hash, target, a, d) || Tells(hash, target, b, d)
  {
    hide Between;
    assert forall n :: n in a + b <==> n in a || n in b;
  }

  /** Between rounds the keys of the map are the known distances. */
  lemma KeysAreKnown(s: Search, known: Nearest, asked: seq<Query>, round: nat, d: nat)
    requires Gathered(s.hash, s.target, s.net, s.start, known, asked)
    requires forall q :: q in asked ==> q.round < round
    ensures d in known <==> s.KnownAt(asked, round, d)
  {
    hide FirstAt, Tells, NodesIn, Stream;
    assert GatheredAt(s.hash, s.target, s.start, known, Stream(s.net, asked), d);
    FirstAtTells(s.hash, s.target, Stream(s.net, asked), d);
    StreamTells(s.hash, s.target, s.net, asked, d);
  }

  ghost function Below(keys: set<nat>, d: nat): set<nat> {
    set e | e in keys && e < d
  }

  lemma {:induction false} IncreasingSize(s: seq<nat>, elements: set<nat>)
    requires Increasing(s) && forall e :: e in elements <==> e in s
    ensures |elements| == |s|
  {
    if s == [] {
      assert elements == {};
    } else {
      var k := |s| - 1;
      forall e ensures e in elements - {s[k]} <==> e in s[..k] {
        if e in s[..k] {
          var i :| 0 <= i < k && s[i] == e;
        }
      }
      IncreasingSize(s[..k], elements - {s[k]});
    }
  }

  /** The first keys are those with fewer than that many below them. */
  lemma FirstKeysCount(keys: set<nat>, k: nat, s: seq<nat>, d: nat)
    requires FirstKeys(keys, k, s) && d in keys
    ensures d in s <==> |Below(keys, d)| < k
  {
    if d in s {
      var i :| 0 <= i < |s| && s[i] == d;
      forall e ensures e in Below(keys, d) <==> e in s[..i] {
        if e in Below(keys, d) {
          var j :| 0 <= j < |s| && s[j] == e;
          assert j < i;
        }
        if e in s[..i] {
          var j :| 0 <= j < i && s[j] == e;
          assert s[j] in s;
        }
      }
      IncreasingSize(s[..i], Below(keys, d));
    } else {
      var all := set e | e in s;
      IncreasingSize(s, all);
      assert all <= Below(keys, d);
      SubsetSize(all, Below(keys, d));
    }
  }

  /** What is picked is what is due. */
  lemma PickedIsDue(s: Search, known: Nearest, asked: seq<Query>, round: nat, closest: seq<nat>, picked: seq<nat>, d: nat)
    requires s.Holds(known, asked) && FirstKeys(known.Keys, ALPHA, closest)
    requires forall q :: q in asked ==> q.round < round
    requires forall e :: e in picked <==> e in closest && !known[e].queried
    ensures d in picked <==> s.Due(asked, round, d)
  {
    hide Keyed, Heard, Once, FirstKeys, Gathered, Search.KnownAt;
    KeysAreKnown(s, known, asked, round, d);
    forall e ensures e in Below(known.Keys, d) <==> e in s.Closer(asked, round, d) {
      KeysAreKnown(s, known, asked, round, e);
    }
    assert Below(known.Keys, d) == s.Closer(asked, round, d);
    FirstKeysIn(known.Keys, closest);
    if d in known {
      FirstKeysCount(known.Keys, ALPHA, closest, d);
      assert known[d].queried <==> Asked(asked, d);
    }
  }

  lemma FirstKeysIn(keys: set<nat>, s: seq<nat>)
    requires FirstKeys(keys, ALPHA, s)
    ensures forall d :: d in s ==> d in keys
  {
  }

  /** What is known and due at a round does not depend on queries of that round or later ones. */
  lemma LaterQueries(s: Search, asked: seq<Query>, more: seq<Query>, round: nat, d: nat)
    requires forall q :: q in more ==> q.round >= round
    ensures s.Due(asked + more, round, d) <==> s.Due(asked, round, d)
  {
    hide Tells, NodesIn;
    assert forall q :: q in asked + more <==> q in asked || q in more;
    forall e ensures s.KnownAt(asked + more, round, e) <==> s.KnownAt(asked, round, e) {}
    assert s.Closer(asked + more, round, d) == s.Closer(asked, round, d);
  }

  lemma AsksExactlyStep(s: Search, asked: seq<Query>, round: nat, picked: seq<nat>)
    requires s.AsksExactly(asked, round)
    requires forall d :: d in picked <==> s.Due(asked, round, d)
    ensures s.AsksExactly(asked + QueriesOf(round, picked), round + 1)
  {
    hide Search.Due;
    var more := QueriesOf(round, picked);
    forall q ensures q in more <==> q.round == round && q.distance in picked {
      if q.round == round && q.distance in picked {
        var i :| 0 <= i < |picked| && picked[i] == q.distance;
        assert more[i] == q;
      }
    }
    forall r: nat, d: nat | r < round + 1 ensures Query(r, d) in asked + more <==> s.Due(asked + more, r, d) {
      LaterQueries(s, asked, more, r, d);
      assert Query(r, d) in asked + more <==> Query(r, d) in asked || Query(r, d) in more;
    }
  }

  lemma InOrderStep(asked: seq<Query>, round: nat, picked: seq<nat>)
    requires InOrder(asked) && Increasing(picked) && forall q :: q in asked ==> q.round < round
    ensures InOrder(asked + QueriesOf(round, picked))
  {
    forall i | 0 <= i < |asked| ensures asked[i].round < round { assert asked[i] in asked; }
  }

  /** One round: ask the picked nodes, then take in their answers. */
  method OneRound(hash: NodeId -> H256, target: NodeId, net: Network, ghost start: map<nat, Node>, known: Nearest,
                  ghost asked: seq<Query>, round: nat, picked: seq<nat>)
    returns (known': Nearest)
    requires Sound(hash, target, net, start, known, asked)
    requires picked != [] && Increasing(picked) && forall d :: d in picked ==> d in known && !known[d].queried
    ensures Sound(hash, target, net, start, known', asked + QueriesOf(round, picked))
    ensures |QueriedKeys(known)| < |QueriedKeys(known')| <= SPACE
  {
    var marked := Mark(known, picked);
    MarkKeeps(hash, target, net, start, known, asked, marked);
    hide Keyed, Heard, Gathered, Once, Marked, Extends;
    known' := ProcessRound(hash, target, net, start, marked, asked, round, picked);
    RoundProgress(known, marked, known', picked);
    QueriedBounded(hash, target, known');
    OnceStep(known, asked, round, picked);
    MarkedStep(net, known, asked, marked, known', round, picked);
  }

  /**
   * How a lookup ends: its queries are exactly those due in each of its rounds, in order, and none is due any more;
   * the map and its flags are what the answers make them; the result is exactly the responders by increasing distance.
   */
  ghost predicate Finished(s: Search, known: Nearest, asked: seq<Query>, rounds: nat, found: seq<Node>, distances: seq<nat>) {
    && s.Holds(known, asked)
    && s.AsksExactly(asked, rounds) && InOrder(asked) && (forall d: nat :: !s.Due(asked, rounds, d))
    && Increasing(distances) && |found| == |distances|
    && (forall d :: d in distances <==> d in known && Answered(s.net, asked, d))
    && (forall i :: 0 <= i < |found| ==>
          && distances[i] in known && found[i] == known[distances[i]].record
          && distances[i] == Between(s.hash(s.target), s.hash(found[i].id)))
  }

  /**
   * The rounds of `lookup_inner` over the entries of a table, for every network. They end, since each round asks
   * new distances and there are finitely many.
   */
  method Rounds(hash: NodeId -> H256, target: NodeId, table: map<nat, Node>, net: Network)
    returns (found: seq<Node>, distances: seq<nat>, first: seq<nat>, known: Nearest, asked: seq<Query>, round: nat)
    requires forall d :: d in table ==> d == Between(hash(table[d].id), hash(target))
    ensures FirstKeys(table.Keys, ALPHA, first)
    ensures Finished(Search(hash, target, net, Start(table, first)), known, asked, round, found, distances)
  {
    hide Sound, Search.Due, InOrder, FirstKeys, Between, QueriedKeys;
    first := SmallestKeys(table.Keys, ALPHA);
    FirstKeysIn(table.Keys, first);
    known := map d | d in first :: QueryNode(table[d], false, false);
    ghost var s := Search(hash, target, net, Start(table, first));
    asked := [];
    SoundAtStart(hash, target, net, table, first, known);
    round := 0;
    var closest: seq<nat>, picked: seq<nat>;
    closest, picked := Pick(known);
    SoundBounded(s, known, asked);
    NothingAsked(s);
    FirstKeysIn(known.Keys, closest);
    while picked != []
      invariant s.Holds(known, asked) && s.AsksExactly(asked, round) && InOrder(asked)
      invariant |QueriedKeys(known)| <= SPACE
      invariant FirstKeys(known.Keys, ALPHA, closest) && Increasing(picked)
      invariant forall d :: d in closest ==> d in known
      invariant forall d :: d in picked <==> d in closest && !known[d].queried
      decreases SPACE - |QueriedKeys(known)|
    {
      forall d ensures d in picked <==> s.Due(asked, round, d) {
        PickedIsDue(s, known, asked, round, closest, picked, d);
      }
      AsksExactlyStep(s, asked, round, picked);
      InOrderStep(asked, round, picked);
      known := OneRound(hash, target, net, s.start, known, asked, round, picked);
      asked := asked + QueriesOf(round, picked);
      round := round + 1;
      closest, picked := Pick(known);
      FirstKeysIn(known.Keys, closest);
    }
    found, distances := Responders(known);
    forall i | 0 <= i < |found| ensures distances[i] in known { assert distances[i] in distances; }
    FinishedAtEnd(s, known, asked, round, closest, found, distances);
  }

  lemma SoundBounded(s: Search, known: Nearest, asked: seq<Query>)
    requires s.Holds(known, asked)
    ensures |QueriedKeys(known)| <= SPACE
  {
    QueriedBounded(s.hash, s.target, known);
  }

  lemma NothingAsked(s: Search)
    ensures s.AsksExactly([], 0) && InOrder([])
  {
  }

  lemma FinishedAtEnd(s: Search, known: Nearest, asked: seq<Query>, round: nat, closest: seq<nat>, found: seq<Node>,
                      distances: seq<nat>)
    requires s.Holds(known, asked) && s.AsksExactly(asked, round) && InOrder(asked)
    requires FirstKeys(known.Keys, ALPHA, closest) && forall d :: d in closest ==> known[d].queried
    requires Increasing(distances) && |found| == |distances|
    requires forall d :: d in distances <==> d in known && known[d].responded
    requires forall i :: 0 <= i < |found| ==> distances[i] in known && found[i] == known[distances[i]].record
    ensures Finished(s, known, asked, round, found, distances)
  {
    hide Search.Due, InOrder, Between, Gathered;
    forall d: nat ensures !s.Due(asked, round, d) {
      PickedIsDue(s, known, asked, round, closest, [], d);
    }
  }

  /** The first keys of the table's entries are the distances of its closest nodes. */
  lemma FirstAreClosest(t: RoutingTable, target: NodeId, first: seq<nat>, n: Node)
    requires FirstKeys(ByDistance(t.hash, target, Scan(t.kbuckets[..])).Keys, ALPHA, first)
    requires n in Scan(t.kbuckets[..])
    ensures
      var d := Between(t.hash(n.id), t.hash(target));
      d in first || (|first| == ALPHA && forall e :: e in first ==> e < d)
  {
    hide Between;
    ByDistanceExact(t.hash, target, Scan(t.kbuckets[..]), 0);
  }

  /**
   * `lookup_inner` on a routing table: it starts from the closest nodes of the whole table, and ends as its rounds
   * do.
   */
  method LookupInner(t: RoutingTable, target: NodeId, net: Network)
    returns (found: seq<Node>, distances: seq<nat>, first: seq<nat>, known: Nearest, asked: seq<Query>, round: nat)
    requires t.Valid()
    ensures FirstKeys(ByDistance(t.hash, target, Scan(t.kbuckets[..])).Keys, ALPHA, first)
    ensures forall n :: n in Scan(t.kbuckets[..]) ==>
      var d := Between(t.hash(n.id), t.hash(target));
      d in first || (|first| == ALPHA && forall e :: e in first ==> e < d)
    ensures
      var start := Start(ByDistance(t.hash, target, Scan(t.kbuckets[..])), first);
      Finished(Search(t.hash, target, net, start), known, asked, round, found, distances)
  {
    hide Between, ByDistance, Scan, Finished;
    var table := t.NearestNodeEntries(target);
    forall d | d in table ensures d == Between(t.hash(table[d].id), t.hash(target)) {
      ByDistanceExact(t.hash, target, Scan(t.kbuckets[..]), d);
    }
    found, distances, first, known, asked, round := Rounds(t.hash, target, table, net);
    forall n | n in Scan(t.kbuckets[..])
      ensures
        var d := Between(t.hash(n.id), t.hash(target));
        d in first || (|first| == ALPHA && forall e :: e in first ==> e < d)
    {
      FirstAreClosest(t, target, first, n);
    }
  }
}
