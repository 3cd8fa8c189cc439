/** Peer messages over an encrypted session: the stream's frames are the messages the transport seals. */
module EndToEnd {
  import opened Bytes
  import opened Wrappers
  import opened Capabilities
  import opened Multiplexing
  import opened PeerStream
  import Session

  /** A table as negotiation leaves it, all of whose wire ids are 64-bit numbers. */
  ghost predicate GoodTable(shared: seq<Info>) {
    StrictlySorted(shared) && BASE + Offset(shared, |shared|) < WORD
  }

  /** What a caller can check before sending: that the peer will read the message as it is. */
  ghost predicate Deliverable(w: Payloads, s: Stream, m: PeerMessage) {
    match m
    case Disconnect(_) => false
    case Ping => true
    case Pong => true
    case Subprotocol(name, id, data) =>
      exists j: nat :: j < |s.shared| && DeliverableAs(w, s, j, m)
  }

  ghost predicate DeliverableAs(w: Payloads, s: Stream, j: nat, m: PeerMessage)
    requires m.Subprotocol? && j < |s.shared|
  {
    && s.shared[j].name == m.name && m.id < s.shared[j].length
    && BASE + Offset(s.shared, j) + m.id < 0x80
    && Fits(w, s.snappy, m.data) && Survives(s.shared, j, m.id)
  }

  /** Where a message with a frame goes in the table. */
  lemma Placed(s: Stream, m: PeerMessage) returns (j: nat)
    requires m.Subprotocol? && Outgoing(s, m).Some?
    ensures j < |s.shared| && s.shared[j].name == m.name && m.id < s.shared[j].length
  {
    j :| FirstNamed(s.shared, m.name, j) && m.id < s.shared[j].length;
  }

  lemma {:induction false} OffsetWithin(caps: seq<Info>, j: nat)
    requires j < |caps|
    ensures Offset(caps, j) + caps[j].length <= Offset(caps, |caps|)
    decreases |caps|
  {
    if j > 0 { OffsetWithin(caps[1..], j - 1); }
  }

  /** A message is sent and read back exactly when it is deliverable. */
  lemma ArrivesExactly(w: Payloads, s: Stream, m: PeerMessage)
    requires w.Lawful() && !s.disconnected && GoodTable(s.shared)
    ensures Arrives(w, s, m) <==> Deliverable(w, s, m)
  {
    match m
    case Disconnect(reason) => DisconnectArrivesMalformed(w, s, reason);
    case Ping => PingPongRoundTrip(w, s);
    case Pong => PingPongRoundTrip(w, s);
    case Subprotocol(_, _, _) => SubprotocolArrivesExactly(w, s, m);
  }

  lemma SubprotocolArrivesExactly(w: Payloads, s: Stream, m: PeerMessage)
    requires w.Lawful() && !s.disconnected && GoodTable(s.shared) && m.Subprotocol?
    ensures Arrives(w, s, m) <==> Deliverable(w, s, m)
  {
    hide Fits, Survives, Payloads.Lawful, Poll, Offset, StrictlySorted;
    forall j: nat | j < |s.shared| && s.shared[j].name == m.name && m.id < s.shared[j].length
      ensures Arrives(w, s, m) <==> DeliverableAs(w, s, j, m)
    {
      hide Arrives;
      OffsetWithin(s.shared, j);
      SubprotocolRoundTrip(w, s, j, m.id, m.data);
    }
    if Arrives(w, s, m) {
      var j := Placed(s, m);
      assert DeliverableAs(w, s, j, m);
    }
  }

  // Runs of the two streams

  function Sends(ms: seq<PeerMessage>): seq<Call> {
    seq(|ms|, i requires 0 <= i < |ms| => Send(ms[i]))
  }

  function Delivers(frames: seq<Buffer>): seq<Call> {
    seq(|frames|, i requires 0 <= i < |frames| => Deliver(Arrived(frames[i])))
  }

  function Fines(ms: seq<PeerMessage>): seq<Outcome<PeerMessage>> {
    seq(|ms|, i requires 0 <= i < |ms| => Fine(ms[i]))
  }

  /** The frames of deliverable messages. */
  ghost predicate FramesOf(w: Payloads, s: Stream, ms: seq<PeerMessage>, frames: seq<Buffer>) {
    && |frames| == |ms|
    && forall i :: 0 <= i < |ms| ==> Sent(w, s, ms[i]) == Fine(Some(frames[i])) && Reads(w, s, frames[i], ms[i])
  }

  ghost predicate Reads(w: Payloads, s: Stream, frame: Buffer, m: PeerMessage) {
    Poll(w, s, frame) == (false, Fine(m))
  }

  lemma {:induction false} SendsWrite(w: Payloads, t: Trace, ms: seq<PeerMessage>) returns (frames: seq<Buffer>)
    requires !t.stream.disconnected
    requires forall i :: 0 <= i < |ms| ==> !ms[i].Disconnect? && Arrives(w, t.stream, ms[i])
    ensures FramesOf(w, t.stream, ms, frames)
    ensures Run(w, t, Sends(ms)) == t.(written := t.written + frames)
    decreases |ms|
  {
    hide Sent, Poll;
    if ms == [] {
      assert t.written + [] == t.written;
      return [];
    }
    var frame := Sent(w, t.stream, ms[0]).value.value;
    var next := t.(written := t.written + [frame]);
    assert t.stream.(disconnected := false) == t.stream;
    assert Sends(ms)[1..] == Sends(ms[1..]);
    assert Run(w, t, Sends(ms)) == Run(w, next, Sends(ms[1..]));
    var rest := SendsWrite(w, next, ms[1..]);
    frames := [frame] + rest;
    assert t.written + [frame] + rest == t.written + frames;
    forall i | 0 <= i < |ms| ensures Sent(w, t.stream, ms[i]) == Fine(Some(frames[i])) && Reads(w, t.stream, frames[i], ms[i]) {
      if i > 0 { assert ms[i] == ms[1..][i - 1] && frames[i] == rest[i - 1]; }
    }
  }

  lemma {:induction false} DeliversYield(w: Payloads, t: Trace, ms: seq<PeerMessage>, frames: seq<Buffer>)
    requires !t.stream.disconnected && |frames| == |ms|
    requires forall i :: 0 <= i < |ms| ==> Reads(w, t.stream, frames[i], ms[i])
    ensures Run(w, t, Delivers(frames)) == t.(yielded := t.yielded + Fines(ms))
    decreases |ms|
  {
    hide Poll;
    if ms == [] {
      assert t.yielded + [] == t.yielded;
      return;
    }
    assert Reads(w, t.stream, frames[0], ms[0]);
    var next := t.(yielded := t.yielded + [Fine(ms[0])]);
    assert t.stream.(disconnected := false) == t.stream;
    assert Delivers(frames)[1..] == Delivers(frames[1..]);
    assert Run(w, t, Delivers(frames)) == Run(w, next, Delivers(frames[1..]));
    DeliversYield(w, next, ms[1..], frames[1..]);
    assert t.yielded + [Fine(ms[0])] + Fines(ms[1..]) == t.yielded + Fines(ms);
  }

  /** What a stream writes for a run of messages, and what it yields for a run of frames. */
  ghost function Written(w: Payloads, s: Stream, ms: seq<PeerMessage>): seq<Buffer> {
    Run(w, Trace(s, [], []), Sends(ms)).written
  }

  ghost function Yielded(w: Payloads, s: Stream, frames: seq<Buffer>): seq<Outcome<PeerMessage>> {
    Run(w, Trace(s, [], []), Delivers(frames)).yielded
  }

  /** Any prefix of the frames of deliverable messages yields the same prefix of the messages. */
  lemma PrefixYields(w: Payloads, s: Stream, ms: seq<PeerMessage>, k: nat)
    requires w.Lawful() && !s.disconnected && GoodTable(s.shared) && k <= |ms|
    requires forall i :: 0 <= i < |ms| ==> Deliverable(w, s, ms[i])
    ensures |Written(w, s, ms)| == |ms|
    ensures Yielded(w, s, Written(w, s, ms)[..k]) == Fines(ms[..k])
  {
    hide Arrives, Payloads.Lawful, GoodTable, Sent, Poll;
    forall i | 0 <= i < |ms| ensures !ms[i].Disconnect? && Arrives(w, s, ms[i]) {
      ArrivesExactly(w, s, ms[i]);
    }
    var t := Trace(s, [], []);
    var frames := SendsWrite(w, t, ms);
    assert [] + frames == frames;
    DeliversYield(w, t, ms[..k], frames[..k]);
    assert [] + Fines(ms[..k]) == Fines(ms[..k]);
  }

  /** The frames were sent after whatever the peer streams' own handshake sent before. */
  ghost predicate SentAfter(before: seq<Buffer>, frames: seq<Buffer>, sent: seq<Buffer>) {
    sent == before + frames
  }

  /** What has been received after the first `before` messages. */
  function Received(got: seq<Buffer>, before: nat): seq<Buffer> {
    if before <= |got| then got[before..] else []
  }

  /** A stream fed from a prefix of what was sent yields a prefix of the messages, and all of them from all of it. */
  lemma ReceivedYields(w: Payloads, t: Stream, before: seq<Buffer>, ms: seq<PeerMessage>, sent: seq<Buffer>,
                       got: seq<Buffer>)
    requires w.Lawful() && !t.disconnected && GoodTable(t.shared)
    requires forall i :: 0 <= i < |ms| ==> Deliverable(w, t, ms[i])
    requires SentAfter(before, Written(w, t, ms), sent) && got <= sent
    ensures
      var received := Received(got, |before|);
      |received| <= |ms| && Yielded(w, t, received) == Fines(ms[..|received|])
    ensures got == sent ==> Yielded(w, t, Received(got, |before|)) == Fines(ms)
  {
    hide Deliverable, Payloads.Lawful, GoodTable, Written, Yielded, Fines;
    var k := if |before| <= |got| then |got| - |before| else 0;
    PrefixYields(w, t, ms, 0);
    PrefixYields(w, t, ms, k);
    assert Received(got, |before|) == Written(w, t, ms)[..k];
    assert k == |ms| ==> ms[..k] == ms;
  }

  /** A run of the session, seen from one receiving side. */
  lemma RunDelivers(s: Session.Setup, actions: seq<Session.Action>, side: Session.Side)
    requires s.Valid()
    ensures s.Initial().Ok?
    ensures
      var n := Session.Run(s, s.Initial().value, actions);
      && Session.At(n, side).got <= Session.Peer(n, side).sent
      && (Quiet(n, side) ==> Session.At(Drained(s, n, side), side).got == Session.Peer(n, side).sent)
  {
    hide Session.Run, Session.Polling;
    Session.EveryRunIsSafe(s, actions);
    Session.EveryRunDelivers(s, actions, side);
  }

  /** Both sides are established and every byte on the way to one of them has arrived. */
  ghost predicate Quiet(n: Session.Net, side: Session.Side) {
    n.client.phase == Session.Established && n.server.phase == Session.Established && Session.Incoming(n, side) == []
  }

  ghost function Drained(s: Session.Setup, n: Session.Net, side: Session.Side): Session.Net
    requires s.Valid()
  {
    Session.Run(s, n, Session.Polling(side, |Session.Peer(n, side).sent|))
  }

  /**
   * In every run of the session, for any deliverable messages one stream sends, what the other stream yields from
   * the frames received so far is the same messages up to there; and once every byte has arrived and is polled for,
   * it is all of them.
   */
  lemma MessagesArrive(s: Session.Setup, actions: seq<Session.Action>, side: Session.Side, w: Payloads, t: Stream,
                       before: seq<Buffer>, ms: seq<PeerMessage>)
    requires s.Valid() && w.Lawful() && !t.disconnected && GoodTable(t.shared)
    requires forall i :: 0 <= i < |ms| ==> Deliverable(w, t, ms[i])
    ensures s.Initial().Ok?
    ensures
      var n := Session.Run(s, s.Initial().value, actions);
      var received := Received(Session.At(n, side).got, |before|);
      SentAfter(before, Written(w, t, ms), Session.Peer(n, side).sent) ==>
        && |received| <= |ms| && Yielded(w, t, received) == Fines(ms[..|received|])
        && (Quiet(n, side) ==>
              Yielded(w, t, Received(Session.At(Drained(s, n, side), side).got, |before|)) == Fines(ms))
  {
    RunDelivers(s, actions, side);
    var n := Session.Run(s, s.Initial().value, actions);
    hide Session.Run, Session.Setup.Initial, Session.At, Session.Peer, Deliverable, Payloads.Lawful, GoodTable, Written;
    hide Yielded, Fines, Quiet, Drained, SentAfter, Received;
    var sent := Session.Peer(n, side).sent;
    if SentAfter(before, Written(w, t, ms), sent) {
      ReceivedYields(w, t, before, ms, sent, Session.At(n, side).got);
      ReceivedYields(w, t, before, ms, sent, sent);
    }
  }
}
