/** Outstanding find-node requests: senders by node and request id, each owned by one guard. */
module Inflight {
  import opened Wrappers

  type NodeKey = nat
  type RequestId = n: nat | n < 0x1_0000_0000_0000_0000 witness 0
  type Sender = nat

  datatype Guard = Guard(node: NodeKey, request: RequestId)

  type Inner = map<NodeKey, map<RequestId, Sender>>

  predicate Stored(inner: Inner, g: Guard) {
    g.node in inner && g.request in inner[g.node]
  }

  /** The stored pairs are exactly those of live guards, and no inner map is empty. */
  ghost predicate Matches(inner: Inner, live: map<Guard, Sender>) {
    && (forall node :: node in inner ==> |inner[node]| > 0)
    && (forall g :: g in live <==> Stored(inner, g))
    && (forall g :: g in live ==> inner[g.node][g.request] == live[g])
  }

  function Put(inner: Inner, g: Guard, sender: Sender): Inner {
    var requests := if g.node in inner then inner[g.node] else map[];
    inner[g.node := requests[g.request := sender]]
  }

  function Remove(inner: Inner, g: Guard): Inner
    requires Stored(inner, g)
  {
    var requests := inner[g.node] - {g.request};
    if |requests| == 0 then inner - {g.node} else inner[g.node := requests]
  }

  lemma PutMatches(inner: Inner, live: map<Guard, Sender>, g: Guard, sender: Sender)
    requires Matches(inner, live) && !Stored(inner, g)
    ensures Matches(Put(inner, g, sender), live[g := sender])
  {
    var next := Put(inner, g, sender);
    forall h ensures h in live[g := sender] <==> Stored(next, h) {
      assert h == Guard(h.node, h.request);
    }
    assert g.request in next[g.node];
  }

  lemma RemoveMatches(inner: Inner, live: map<Guard, Sender>, g: Guard)
    requires Matches(inner, live) && g in live
    ensures Matches(Remove(inner, g), live - {g})
  {
    var next := Remove(inner, g);
    var requests := inner[g.node] - {g.request};
    forall h ensures h in live - {g} <==> Stored(next, h) {
      assert h == Guard(h.node, h.request) && g == Guard(g.node, g.request);
      if h.node == g.node && h != g {
        assert h.request in inner[g.node] <==> h.request in requests;
      }
    }
  }

  /** The senders are those of the node's live guards, one for each. */
  ghost predicate OneEach(live: map<Guard, Sender>, node: NodeKey, guards: seq<Guard>, senders: seq<Sender>) {
    && |senders| == |guards| && (forall i, j :: 0 <= i < j < |guards| ==> guards[i] != guards[j])
    && (forall g :: g in guards <==> g in live && g.node == node)
    && (forall i :: 0 <= i < |senders| ==> guards[i] in live && senders[i] == live[guards[i]])
  }

  lemma EnumeratedIsOneEach(inner: Inner, live: map<Guard, Sender>, node: NodeKey, guards: seq<Guard>, senders: seq<Sender>)
    requires Matches(inner, live) && node in inner
    requires |senders| == |guards| && forall i, j :: 0 <= i < j < |guards| ==> guards[i] != guards[j]
    requires forall i :: 0 <= i < |guards| ==>
      && guards[i].node == node && guards[i].request in inner[node] && senders[i] == inner[node][guards[i].request]
    requires forall r :: r in inner[node] ==> Guard(node, r) in guards
    ensures OneEach(live, node, guards, senders)
  {
    forall g ensures g in guards <==> g in live && g.node == node {
      assert g == Guard(g.node, g.request);
      assert g in live <==> Stored(inner, g);
    }
    forall i | 0 <= i < |senders| ensures guards[i] in live && senders[i] == live[guards[i]] {
      assert Stored(inner, guards[i]);
    }
  }

  class InflightFindNode {
    var inner: Inner
    /** The guards handed out and not yet dropped, with the sender each stands for. */
    ghost var live: map<Guard, Sender>

    ghost predicate Valid()
      reads this
    {
      Matches(inner, live)
    }

    constructor ()
      ensures Valid() && live == map[]
    {
      inner, live := map[], map[];
    }

    /**
     * One turn of `add`'s loop, which holds the lock for that turn only: the drawn id is taken if it
     * is vacant. A clash leaves everything as it was, including the entry `or_default` may create.
     */
    method TryAdd(node: NodeKey, sender: Sender, drawn: RequestId) returns (guard: Option<Guard>)
      requires Valid()
      modifies this
      ensures Valid()
      ensures guard.None? <==> Guard(node, drawn) in old(live)
      ensures guard.None? ==> inner == old(inner) && live == old(live)
      ensures guard.Some? ==> guard.value == Guard(node, drawn) && live == old(live)[guard.value := sender]
    {
      var g := Guard(node, drawn);
      var requests := if node in inner then inner[node] else map[];
      if drawn in requests {
        assert Stored(inner, g);
        return None;
      }
      assert !Stored(inner, g);
      PutMatches(inner, live, g, sender);
      inner := inner[node := requests[drawn := sender]];
      live := live[g := sender];
      return Some(g);
    }

    /** `drop` of a live guard: its `assert!` and `unreachable!` cannot fire. */
    method Drop(g: Guard)
      requires Valid() && g in live
      modifies this
      ensures Valid() && live == old(live) - {g}
    {
      assert Stored(inner, g);
      RemoveMatches(inner, live, g);
      if g.node in inner {
        var requests := inner[g.node];
        assert g.request in requests;
        requests := requests - {g.request};
        inner := if |requests| == 0 then inner - {g.node} else inner[g.node := requests];
        live := live - {g};
      } else {
        assert false;
      }
    }

    /** One sender for each live guard of the node. */
    method Get(node: NodeKey) returns (senders: seq<Sender>)
      requires Valid()
      ensures exists guards :: OneEach(live, node, guards, senders)
    {
      senders := [];
      ghost var guards: seq<Guard> := [];
      if node !in inner {
        assert OneEach(live, node, guards, senders);
        return;
      }
      var requests := inner[node];
      var todo := requests.Keys;
      while todo != {}
        invariant todo <= requests.Keys
        invariant |senders| == |guards| && forall i, j :: 0 <= i < j < |guards| ==> guards[i] != guards[j]
        invariant forall i :: 0 <= i < |guards| ==>
          && guards[i].node == node && guards[i].request in requests && guards[i].request !in todo
          && senders[i] == requests[guards[i].request]
        invariant forall r :: r in requests && r !in todo ==> Guard(node, r) in guards
        decreases todo
      {
        var request :| request in todo;
        senders, guards := senders + [requests[request]], guards + [Guard(node, request)];
        todo := todo - {request};
      }
      EnumeratedIsOneEach(inner, live, node, guards, senders);
    }
  }
}
