/** What the steps of a pair bring about: sending puts sealed bytes on the wire, and no run is ever stuck. */
module SessionProgress {
  import opened Bytes
  import opened Wrappers
  import opened Crypto
  import opened Framing
  import opened Handshake
  import opened Codec
  import opened Session

  function Other(side: Side): Side {
    if side == ClientSide then ServerSide else ClientSide
  }

  /** A send of an established side: the message is recorded, its frame is on the wire, nothing else changes. */
  lemma SendIsSealed(s: Setup, n: Net, side: Side, m: Message)
    requires s.Valid() && At(n, side).phase == Established && At(n, side).codec.ecies.egress.Some?
    ensures
      var n' := Next(s, n, Send(side, m));
      var a := At(n, side);
      var frame := SealFrame(s.p, a.codec.ecies.egress.value, m);
      && At(n', side) == a.(sent := a.sent + [m], codec := a.codec.(ecies := a.codec.ecies.(egress := Some(frame.half))))
      && Incoming(n', Other(side)) == Incoming(n, Other(side)) + frame.bytes
      && At(n', Other(side)) == At(n, Other(side)) && Incoming(n', side) == Incoming(n, side)
  {
    hide SealFrame;
  }

  /** In every run an established side has its cipher, so a send is always sealed. */
  lemma EveryRunCanSend(s: Setup, actions: seq<Action>, side: Side, m: Message)
    requires s.Valid()
    ensures s.Initial().Ok?
    ensures
      var n := Run(s, s.Initial().value, actions);
      var n' := Next(s, n, Send(side, m));
      At(n, side).phase == Established ==>
        && At(n', side).sent == At(n, side).sent + [m]
        && Incoming(n, Other(side)) < Incoming(n', Other(side))
  {
    InvInitial(s);
    InvRun(s, s.Initial().value, actions);
    var n := Run(s, s.Initial().value, actions);
    hide Run, InFlight, SealFrame, Next;
    if At(n, side).phase == Established {
      SendIsSealed(s, n, side, m);
      FrameIsLong(s.p, At(n, side).codec.ecies.egress.value, m);
    }
  }

  lemma FrameIsLong(p: Primitives, h: Half, m: Message)
    ensures |SealFrame(p, h, m).bytes| > 0
  {
  }

  /** Every byte on the way to a side arrives. */
  function Flush(n: Net, side: Side): Action {
    Arrive(side, |Incoming(n, side)|)
  }

  lemma FlushArrives(s: Setup, n: Net, side: Side)
    requires s.Valid()
    ensures
      var n' := Next(s, n, Flush(n, side));
      && Incoming(n', side) == [] && At(n', side) == At(n, side).(inbox := At(n, side).inbox + Incoming(n, side))
      && At(n', Other(side)) == At(n, Other(side)) && Incoming(n', Other(side)) == Incoming(n, Other(side))
  {
  }

  lemma {:induction false} RunJoins(s: Setup, n: Net, a: seq<Action>, b: seq<Action>)
    requires s.Valid()
    ensures Run(s, n, a + b) == Run(s, Run(s, n, a), b)
    decreases |a|
  {
    hide Next;
    if a == [] {
      assert a + b == b;
    } else {
      assert (a + b)[1..] == a[1..] + b;
      RunJoins(s, Next(s, n, a[0]), a[1..], b);
    }
  }

  lemma RunOne(s: Setup, n: Net, a: Action)
    requires s.Valid()
    ensures Run(s, n, [a]) == Next(s, n, a)
  {
    hide Next;
    assert [a][1..] == [];
  }

  lemma RunTwo(s: Setup, n: Net, a: Action, b: Action)
    requires s.Valid()
    ensures Run(s, n, [a, b]) == Next(s, Next(s, n, a), b)
  {
    hide Next, Run;
    RunJoins(s, n, [a], [b]);
    RunOne(s, n, a);
    RunOne(s, Next(s, n, a), b);
    assert [a] + [b] == [a, b];
  }

  /** How many moves of the handshake are still to come. */
  function Left(n: Net): nat {
    if n.client.phase == Idle then 4
    else if n.server.phase == AwaitAuth then 3
    else if n.server.phase == SendingAck then 2
    else if n.client.phase == AwaitAck then 1
    else 0
  }

  /** The next move of the handshake, and the actions that make it. */
  function Move(n: Net): seq<Action> {
    if n.client.phase == Idle then [Connect]
    else if n.server.phase == AwaitAuth then [Flush(n, ServerSide), Poll(ServerSide)]
    else if n.server.phase == SendingAck then [SendAck]
    else [Flush(n, ClientSide), Poll(ClientSide)]
  }

  lemma InvMove(s: Setup, n: Net)
    requires s.Valid() && Inv(s, n)
    ensures Inv(s, Run(s, n, Move(n)))
  {
    hide Inv, Move;
    InvRun(s, n, Move(n));
  }

  lemma ConnectMoves(s: Setup, n: Net)
    requires s.Valid() && Inv(s, n) && n.client.phase == Idle
    ensures Next(s, n, Connect).client.phase == AwaitAck
  {
    hide WriteAuth, ReadAuth, WriteAck, ReadAck, InFlight, SealAll;
    s.Facts();
  }

  lemma SendAckMoves(s: Setup, n: Net)
    requires s.Valid() && Inv(s, n) && n.server.phase == SendingAck
    ensures Next(s, n, SendAck).server.phase == Established && Next(s, n, SendAck).client == n.client
  {
    hide WriteAuth, ReadAuth, WriteAck, ReadAck, InFlight, SealAll;
    s.Facts();
  }

  /** Which part of the invariant holds while a side waits. */
  lemma WaitingParts(s: Setup, n: Net)
    requires s.Valid() && Inv(s, n) && n.client.phase == AwaitAck
    ensures s.Client().Ok? && s.AuthStep().result.Ok? && s.AckStep().result.Ok?
    ensures n.server.phase == AwaitAuth ==> BeforeAck(s, n)
    ensures n.server.phase == Established ==> AckUnread(s, n)
  {
    hide WriteAuth, ReadAuth, WriteAck, ReadAck, InFlight, SealAll;
  }

  lemma PollKeepsRest(s: Setup, n: Net, side: Side)
    requires s.Valid()
    ensures At(Next(s, n, Poll(side)), Other(side)) == At(n, Other(side))
    ensures At(Next(s, n, Poll(side)), side).sent == At(n, side).sent
  {
    hide Decode;
  }

  lemma ReadAuthMoves(s: Setup, n: Net)
    requires s.Valid() && Inv(s, n) && n.client.phase == AwaitAck && n.server.phase == AwaitAuth
    ensures
      var n' := Next(s, Next(s, n, Flush(n, ServerSide)), Poll(ServerSide));
      n'.server.phase == SendingAck && n'.client == n.client
  {
    hide Inv, Next, BeforeAck, AckUnread;
    var mid := Next(s, n, Flush(n, ServerSide));
    InvArrive(s, n, ServerSide, |n.toServer|);
    FlushArrives(s, n, ServerSide);
    WaitingParts(s, mid);
    PollAuth(s, mid);
    PollKeepsRest(s, mid, ServerSide);
  }

  lemma ReadAckMoves(s: Setup, n: Net)
    requires s.Valid() && Inv(s, n) && n.client.phase == AwaitAck && n.server.phase == Established
    ensures
      var n' := Next(s, Next(s, n, Flush(n, ClientSide)), Poll(ClientSide));
      n'.client.phase == Established && n'.server == n.server
  {
    hide Inv, Next, BeforeAck, AckUnread;
    var mid := Next(s, n, Flush(n, ClientSide));
    InvArrive(s, n, ClientSide, |n.toClient|);
    FlushArrives(s, n, ClientSide);
    WaitingParts(s, mid);
    PollAck(s, mid);
    PollKeepsRest(s, mid, ClientSide);
  }

  lemma Phases(s: Setup, n: Net)
    requires s.Valid() && Inv(s, n)
    ensures Left(n) == 4 ==> n.server.phase == AwaitAuth
    ensures Left(n) in {1, 2, 3} ==> n.client.phase == AwaitAck
    ensures Left(n) == 1 ==> n.server.phase == Established
    ensures Left(n) == 0 <==> n.client.phase == Established && n.server.phase == Established
    ensures Left(n) == 0 ==> BothReady(s, n)
  {
    hide WriteAuth, ReadAuth, WriteAck, ReadAck, InFlight, SealAll;
  }

  /** Each move of the handshake is one fewer to come. */
  lemma MoveMoves(s: Setup, n: Net)
    requires s.Valid() && Inv(s, n) && Left(n) > 0
    ensures Left(Run(s, n, Move(n))) < Left(n)
  {
    hide Inv, Run, Next;
    Phases(s, n);
    if n.client.phase == Idle {
      RunOne(s, n, Connect);
      ConnectMoves(s, n);
    } else if n.server.phase == AwaitAuth {
      RunTwo(s, n, Flush(n, ServerSide), Poll(ServerSide));
      ReadAuthMoves(s, n);
    } else if n.server.phase == SendingAck {
      RunOne(s, n, SendAck);
      SendAckMoves(s, n);
    } else {
      RunTwo(s, n, Flush(n, ClientSide), Poll(ClientSide));
      ReadAckMoves(s, n);
    }
  }

  lemma {:induction false} CanEstablish(s: Setup, n: Net) returns (more: seq<Action>)
    requires s.Valid() && Inv(s, n)
    ensures Inv(s, Run(s, n, more)) && BothReady(s, Run(s, n, more))
    decreases Left(n)
  {
    hide Inv, BothReady, Move, Next;
    Phases(s, n);
    if Left(n) == 0 {
      return [];
    }
    InvMove(s, n);
    MoveMoves(s, n);
    var n' := Run(s, n, Move(n));
    var rest := CanEstablish(s, n');
    more := Move(n) + rest;
    RunJoins(s, n, Move(n), rest);
  }

  /** An established pair can take in everything sent to one side, the other keeping what it has. */
  lemma CanDeliver(s: Setup, n: Net, side: Side) returns (more: seq<Action>)
    requires s.Valid() && Inv(s, n) && BothReady(s, n)
    ensures Inv(s, Run(s, n, more)) && BothReady(s, Run(s, n, more))
    ensures At(Run(s, n, more), side).got == Peer(n, side).sent
    ensures Peer(Run(s, n, more), side) == Peer(n, side)
    ensures At(Run(s, n, more), side).sent == At(n, side).sent
  {
    hide Inv, BothReady, Next, Run;
    var flush := Flush(n, side);
    var n1 := Next(s, n, flush);
    RunOne(s, n, flush);
    InvRun(s, n, [flush]);
    FlushArrives(s, n, side);
    ReadyFacts(s, n, side);
    Phases(s, n1);
    var polls := Polling(side, |Peer(n1, side).sent|);
    PollsDeliverAll(s, n1, side, |Peer(n1, side).sent|);
    PollsKeep(s, n1, side, |Peer(n1, side).sent|);
    InvRun(s, n1, polls);
    more := [flush] + polls;
    RunJoins(s, n, [flush], polls);
  }

  lemma {:induction false} PollsKeep(s: Setup, n: Net, side: Side, polls: nat)
    requires s.Valid() && BothReady(s, n)
    ensures
      var n' := Run(s, n, Polling(side, polls));
      BothReady(s, n') && Peer(n', side) == Peer(n, side) && At(n', side).sent == At(n, side).sent
    decreases polls
  {
    hide BothReady, Next;
    if polls != 0 {
      PollStep(s, n, side);
      PollKeepsRest(s, n, side);
      PollsKeep(s, Next(s, n, Poll(side)), side, polls - 1);
    }
  }

  /**
   * No run is ever stuck: whatever has happened, the pair can go on to be established with everything that was
   * sent received on both sides.
   */
  lemma EveryRunCanFinish(s: Setup, actions: seq<Action>) returns (more: seq<Action>)
    requires s.Valid()
    ensures s.Initial().Ok?
    ensures
      var n := Run(s, s.Initial().value, actions + more);
      && n.client.phase == Established && n.server.phase == Established
      && n.server.got == n.client.sent && n.client.got == n.server.sent
  {
    hide Inv, BothReady, Next, Run;
    InvInitial(s);
    var n0 := s.Initial().value;
    InvRun(s, n0, actions);
    var n := Run(s, n0, actions);
    var a := CanEstablish(s, n);
    var n1 := Run(s, n, a);
    var b := CanDeliver(s, n1, ServerSide);
    var n2 := Run(s, n1, b);
    var c := CanDeliver(s, n2, ClientSide);
    ReadyFacts(s, Run(s, n2, c), ClientSide);
    more := a + (b + c);
    RunJoins(s, n0, actions, more);
    RunJoins(s, n, a, b + c);
    RunJoins(s, n1, b, c);
  }
}
