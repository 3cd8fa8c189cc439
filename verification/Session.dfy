/** Two endpoints over two byte pipes: every run from the first byte of the handshake on. */
module Session {
  import opened Bytes
  import opened Wrappers
  import opened Crypto
  import opened Framing
  import opened Handshake
  import opened Codec

  // One direction

  /** The undelivered bytes are exactly the sealed pending messages, the receiver perhaps past a header. */
  ghost predicate InFlight(p: Primitives, c: Codec, bytes: Buffer, pending: seq<Message>, egress: Half) {
    && c.ecies.ingress.Some?
    && var ingress := c.ecies.ingress.value;
    match c.state
    case Header => c.ecies.bodySize == None && SealAll(p, ingress, pending) == Sealed(egress, bytes)
    case Body =>
      && pending != []
      && c.ecies.bodySize == Some(|pending[0]|)
      && var body := SealBody(p, ingress, pending[0]);
      var rest := SealAll(p, body.half, pending[1..]);
      rest.half == egress && body.bytes + rest.bytes == bytes
    case _ => false
  }

  lemma SendExtends(p: Primitives, c: Codec, bytes: Buffer, pending: seq<Message>, egress: Half, m: Message)
    requires InFlight(p, c, bytes, pending, egress)
    ensures
      var frame := SealFrame(p, egress, m);
      InFlight(p, c, bytes + frame.bytes, pending + [m], frame.half)
  {
    hide SealFrame, SealBody, SealAll;
    var frame := SealFrame(p, egress, m);
    if c.state == Header {
      SealAllLast(p, c.ecies.ingress.value, pending, m);
    } else {
      var body := SealBody(p, c.ecies.ingress.value, pending[0]);
      var rest := SealAll(p, body.half, pending[1..]);
      SealAllLast(p, body.half, pending[1..], m);
      assert (pending + [m])[1..] == pending[1..] + [m];
      assert bytes + frame.bytes == body.bytes + (rest.bytes + frame.bytes);
    }
  }

  /** Sending does not touch the receiving direction of the sender. */
  lemma SendKeepsIngress(p: Primitives, c: Codec, egress': Option<Half>, bytes: Buffer, pending: seq<Message>, egress: Half)
    ensures InFlight(p, c, bytes, pending, egress)
       <==> InFlight(p, c.(ecies := c.ecies.(egress := egress')), bytes, pending, egress)
  {
  }

  /** What decoding may change: the ingress half and the declared size. */
  ghost predicate SameSession(a: Codec, b: Codec) {
    a.ecies.(ingress := b.ecies.ingress, bodySize := b.ecies.bodySize) == b.ecies
  }

  /** One call of `decode`, on an arrived prefix of the bytes in flight. */
  ghost predicate Progress(p: Primitives, c: Codec, arrived: Buffer, wire: Buffer, pending: seq<Message>, egress: Half,
                           d: Decoded)
  {
    && d.item.Ok?
    && SameSession(c, d.codec)
    && match d.item.value
       case None =>
         && InFlight(p, d.codec, d.rest + wire, pending, egress)
         && (wire == [] ==> pending == [])
       case Some(item) =>
         && pending != []
         && item == MessageReceive(pending[0])
         && InFlight(p, d.codec, d.rest + wire, pending[1..], egress)
  }

  lemma BodyProgress(p: Primitives, c: Codec, arrived: Buffer, wire: Buffer, pending: seq<Message>, egress: Half)
    requires c.state == Body && InFlight(p, c, arrived + wire, pending, egress)
    ensures Progress(p, c, arrived, wire, pending, egress, DecodeBody(p, c, arrived))
  {
    var ingress := c.ecies.ingress.value;
    var body := SealBody(p, ingress, pending[0]);
    var rest := SealAll(p, body.half, pending[1..]);
    var len := |body.bytes|;
    assert (arrived + wire)[..len] == body.bytes && (arrived + wire)[len..] == rest.bytes;
    if len <= |arrived| {
      assert arrived[..len] == body.bytes;
      assert arrived[len..] + wire == rest.bytes;
      BodyRoundTrip(p, ingress, pending[0]);
    }
  }

  /** The first frame of what is in flight. */
  lemma FirstInFlight(p: Primitives, ingress: Half, pending: seq<Message>, egress: Half, bytes: Buffer)
    requires pending != [] && SealAll(p, ingress, pending) == Sealed(egress, bytes)
    ensures
      var header := SealHeader(p, ingress, |pending[0]|);
      var body := SealBody(p, header.half, pending[0]);
      var rest := SealAll(p, body.half, pending[1..]);
      && rest.half == egress
      && |bytes| >= HEADER_LEN && bytes[..HEADER_LEN] == header.bytes && bytes[HEADER_LEN..] == body.bytes + rest.bytes
  {
    hide SealHeader, SealBody, SealAll;
    SealAllFirst(p, ingress, pending);
    var header := SealHeader(p, ingress, |pending[0]|);
    var body := SealBody(p, header.half, pending[0]);
    var rest := SealAll(p, body.half, pending[1..]);
    assert bytes == header.bytes + (body.bytes + rest.bytes);
  }

  lemma HeaderProgress(p: Primitives, c: Codec, arrived: Buffer, wire: Buffer, pending: seq<Message>, egress: Half)
    requires c.state == Header && InFlight(p, c, arrived + wire, pending, egress)
    ensures Progress(p, c, arrived, wire, pending, egress, DecodeHeader(p, c, arrived))
  {
    hide SealHeader, SealBody, OpenHeader, DecodeBody;
    if pending != [] {
      var ingress := c.ecies.ingress.value;
      FirstInFlight(p, ingress, pending, egress, arrived + wire);
      if HEADER_LEN <= |arrived| {
        assert arrived[..HEADER_LEN] == (arrived + wire)[..HEADER_LEN];
        assert arrived[HEADER_LEN..] + wire == (arrived + wire)[HEADER_LEN..];
        HeaderRoundTrip(p, ingress, |pending[0]|);
        var s := ReadHeader(p, c.ecies, arrived[..HEADER_LEN]);
        BodyProgress(p, Codec(s.endpoint, Body), arrived[HEADER_LEN..], wire, pending, egress);
      }
    }
  }

  lemma DecodeProgress(p: Primitives, c: Codec, arrived: Buffer, wire: Buffer, pending: seq<Message>, egress: Half)
    requires InFlight(p, c, arrived + wire, pending, egress)
    ensures Progress(p, c, arrived, wire, pending, egress, Decode(p, c, arrived))
  {
    if c.state == Header {
      HeaderProgress(p, c, arrived, wire, pending, egress);
    } else {
      BodyProgress(p, c, arrived, wire, pending, egress);
    }
  }

  // The two parties

  datatype Phase = Idle | AwaitAck | AwaitAuth | SendingAck | Established | Broken(error: Error)

  /** `inbox` holds bytes read from the socket and not yet decoded; `sent` and `got` are histories. */
  datatype Party = Party(phase: Phase, codec: Codec, inbox: Buffer, sent: seq<Message>, got: seq<Buffer>,
                         peer: Option<PeerId>)

  datatype Net = Net(client: Party, server: Party, toServer: Buffer, toClient: Buffer)

  /** Keys, and everything the handshake draws at random. */
  datatype Setup = Setup(p: Primitives, keys: Keys, auth: Random, padding: nat, ack: Random) {
    ghost predicate Valid() {
      p.Lawful() && 100 <= padding <= 300
    }

    function Client(): Result<Endpoint> {
      keys.Client(p)
    }

    ghost function AuthStep(): Step<Buffer>
      requires Client().Ok? && 100 <= padding <= 300
    {
      WriteAuth(p, Client().value, auth, padding)
    }

    ghost function AckStep(): Step<Buffer>
      requires Client().Ok? && 100 <= padding <= 300 && AuthStep().result.Ok?
    {
      WriteAck(p, Welcomed(AuthStep().result.value), ack)
    }

    /** The server once it has read the auth. */
    ghost function Welcomed(auth: Buffer): Endpoint {
      keys.Server().(
        remoteInitMsg := Some(auth),
        remoteId := Some(p.IdOf(PublicKey(keys.client))),
        remotePublicKey := Some(PublicKey(keys.client)),
        remoteNonce := Some(keys.clientNonce),
        remoteEphemeral := Some(PublicKey(keys.clientEphemeral)),
        ephemeralShared := Some(p.dh(keys.clientEphemeral, keys.serverEphemeral)))
    }

    lemma Facts()
      requires Valid()
      ensures Client().Ok? && AuthStep().result.Ok? && AckStep().result.Ok?
      ensures
        var auth := AuthStep().result.value;
        && 2 <= |auth| < 0x1_0002 && auth[..2] == U16(|auth| - 2)
        && AuthStep().endpoint == Client().value.(initMsg := Some(auth))
        && ReadAuth(p, keys.Server(), auth) == Step(Welcomed(auth), Ok(p.IdOf(PublicKey(keys.client))))
      ensures
        var ack := AckStep().result.value;
        && 2 <= |ack| < 0x1_0002 && ack[..2] == U16(|ack| - 2)
        && var done := ReadAck(p, AuthStep().endpoint, ack);
        && done.result.Ok?
        && InStep(done.endpoint, AckStep().endpoint)
        && done.endpoint.bodySize == AckStep().endpoint.bodySize == None
    {
      hide WriteAuth, ReadAuth, WriteAck, ReadAck;
      ServerReadsAuth(p, keys, auth, padding);
      ClientReadsAck(p, keys, auth, padding, ack);
    }

    function Initial(): Result<Net> {
      match Client()
      case Err(e) => Err(e)
      case Ok(client) =>
        Ok(Net(
          Party(Idle, Codec(client, Auth), [], [], [], client.remoteId),
          Party(AwaitAuth, Codec(keys.Server(), Auth), [], [], [], None),
          [], []))
    }
  }

  datatype Side = ClientSide | ServerSide

  /** Sends of either side, arrival of any number of bytes, and single calls of `decode`. */
  datatype Action = Connect | SendAck | Send(side: Side, m: Message) | Arrive(at: Side, n: nat) | Poll(at: Side)

  /** `encode` an item onto a pipe, as `connect`, `incoming` and `start_send` do. */
  function Emit(p: Primitives, a: Party, item: Egress, next: Phase): (Party, Buffer)
    requires item.EgressAuth? ==> 100 <= item.padding <= 300
  {
    var (codec, out) := Encode(p, a.codec, item);
    match out
    case Err(e) => (a.(codec := codec, phase := Broken(e)), [])
    case Ok(bytes) => (a.(codec := codec, phase := next), bytes)
  }

  /** One poll: what the phase expects is accepted, anything else breaks the connection. */
  function PollParty(p: Primitives, a: Party): Party {
    var d := Decode(p, a.codec, a.inbox);
    var b := a.(codec := d.codec, inbox := d.rest);
    match d.item
    case Err(e) => b.(phase := Broken(e))
    case Ok(None) => b
    case Ok(Some(item)) =>
      match (a.phase, item)
      case (AwaitAuth, AuthReceive(id)) => b.(phase := SendingAck, peer := Some(id))
      case (AwaitAck, AckReceive) => b.(phase := Established)
      case (Established, MessageReceive(m)) => b.(got := a.got + [m])
      case _ => b.(phase := Broken(BadRlp))
  }

  predicate Polls(phase: Phase) {
    phase == AwaitAuth || phase == AwaitAck || phase == Established
  }

  /** One step of the pair; an action whose guard fails leaves it as it is. */
  function Next(s: Setup, n: Net, a: Action): Net
    requires 100 <= s.padding <= 300
  {
    match a
    case Connect =>
      if n.client.phase != Idle then n
      else var (c, out) := Emit(s.p, n.client, EgressAuth(s.auth, s.padding), AwaitAck);
        n.(client := c, toServer := n.toServer + out)
    case SendAck =>
      if n.server.phase != SendingAck then n
      else var (c, out) := Emit(s.p, n.server, EgressAck(s.ack), Established);
        n.(server := c, toClient := n.toClient + out)
    case Send(ClientSide, m) =>
      if n.client.phase != Established then n
      else var (c, out) := Emit(s.p, n.client.(sent := n.client.sent + [m]), EgressMessage(m), Established);
        n.(client := c, toServer := n.toServer + out)
    case Send(ServerSide, m) =>
      if n.server.phase != Established then n
      else var (c, out) := Emit(s.p, n.server.(sent := n.server.sent + [m]), EgressMessage(m), Established);
        n.(server := c, toClient := n.toClient + out)
    case Arrive(ServerSide, k) =>
      if |n.toServer| < k then n
      else n.(server := n.server.(inbox := n.server.inbox + n.toServer[..k]), toServer := n.toServer[k..])
    case Arrive(ClientSide, k) =>
      if |n.toClient| < k then n
      else n.(client := n.client.(inbox := n.client.inbox + n.toClient[..k]), toClient := n.toClient[k..])
    case Poll(ServerSide) => if Polls(n.server.phase) then n.(server := PollParty(s.p, n.server)) else n
    case Poll(ClientSide) => if Polls(n.client.phase) then n.(client := PollParty(s.p, n.client)) else n
  }

  function Run(s: Setup, n: Net, actions: seq<Action>): Net
    requires 100 <= s.padding <= 300
    decreases |actions|
  {
    if actions == [] then n else Run(s, Next(s, n, actions[0]), actions[1..])
  }

  // The invariant

  /** Everything received is what was sent, in order, and the rest is in flight. */
  ghost predicate Flows(p: Primitives, to: Party, wire: Buffer, from: Party) {
    && from.codec.ecies.egress.Some?
    && to.got <= from.sent
    && InFlight(p, to.codec, to.inbox + wire, from.sent[|to.got|..], from.codec.ecies.egress.value)
  }

  ghost predicate Fresh(a: Party) {
    a.sent == [] && a.got == []
  }

  /** Nothing on the way to a party, and nothing waiting. */
  ghost predicate Silent(a: Party, wire: Buffer) {
    a.inbox == [] && wire == []
  }

  ghost predicate BeforeAck(s: Setup, n: Net)
    requires s.Valid() && s.Client().Ok? && s.AuthStep().result.Ok?
  {
    && Fresh(n.client) && Fresh(n.server)
    && Silent(n.client, n.toClient)
    && match (n.client.phase, n.server.phase)
       case (Idle, AwaitAuth) =>
         && n.client.codec == Codec(s.Client().value, Auth)
         && n.server.codec == Codec(s.keys.Server(), Auth)
         && Silent(n.server, n.toServer)
       case (AwaitAck, AwaitAuth) =>
         && n.client.codec == Codec(s.AuthStep().endpoint, Ack)
         && n.server.codec == Codec(s.keys.Server(), Auth)
         && n.server.inbox + n.toServer == s.AuthStep().result.value
       case (AwaitAck, SendingAck) =>
         && n.client.codec == Codec(s.AuthStep().endpoint, Ack)
         && n.server.codec == Codec(s.Welcomed(s.AuthStep().result.value), Header)
         && Silent(n.server, n.toServer)
       case _ => false
  }

  /** The server has sent its ack and perhaps messages; the client has not read the ack yet. */
  ghost predicate AckUnread(s: Setup, n: Net)
    requires s.Valid() && s.Client().Ok? && s.AuthStep().result.Ok? && s.AckStep().result.Ok?
  {
    var ready := s.AckStep().endpoint;
    && n.client.phase == AwaitAck && n.server.phase == Established
    && n.client.codec == Codec(s.AuthStep().endpoint, Ack)
    && n.client.sent == [] && n.client.got == [] && n.server.got == []
    && Silent(n.server, n.toServer)
    && ready.egress.Some?
    && var frames := SealAll(s.p, ready.egress.value, n.server.sent);
    && n.client.inbox + n.toClient == s.AckStep().result.value + frames.bytes
    && n.server.codec == Codec(ready.(egress := Some(frames.half)), Header)
  }

  ghost predicate BothReady(s: Setup, n: Net) {
    && n.client.phase == Established && n.server.phase == Established
    && Flows(s.p, n.server, n.toServer, n.client)
    && Flows(s.p, n.client, n.toClient, n.server)
    && n.client.codec.ecies.ephemeralShared == n.server.codec.ecies.ephemeralShared
  }

  ghost predicate Inv(s: Setup, n: Net) {
    && s.Valid() && s.Client().Ok? && s.AuthStep().result.Ok? && s.AckStep().result.Ok?
    && (BeforeAck(s, n) || AckUnread(s, n) || BothReady(s, n))
    && (n.server.phase != AwaitAuth ==> n.server.peer == Some(s.p.IdOf(PublicKey(s.keys.client))))
  }

  lemma InvInitial(s: Setup)
    requires s.Valid()
    ensures s.Initial().Ok? && Inv(s, s.Initial().value)
  {
    hide WriteAuth, ReadAuth, WriteAck, ReadAck, InFlight, SealAll;
    s.Facts();
  }

  lemma InvArrive(s: Setup, n: Net, at: Side, k: nat)
    requires s.Valid() && Inv(s, n)
    ensures Inv(s, Next(s, n, Arrive(at, k)))
  {
    hide WriteAuth, ReadAuth, WriteAck, ReadAck, InFlight, SealAll;
    if at == ServerSide && k <= |n.toServer| {
      assert n.server.inbox + n.toServer[..k] + n.toServer[k..] == n.server.inbox + n.toServer;
    } else if at == ClientSide && k <= |n.toClient| {
      assert n.client.inbox + n.toClient[..k] + n.toClient[k..] == n.client.inbox + n.toClient;
    }
  }

  lemma InvConnect(s: Setup, n: Net)
    requires s.Valid() && Inv(s, n)
    ensures Inv(s, Next(s, n, Connect))
  {
    hide WriteAuth, ReadAuth, WriteAck, ReadAck, SealFrame, InFlight, SealAll;
    s.Facts();
  }

  lemma InvSendAck(s: Setup, n: Net)
    requires s.Valid() && Inv(s, n)
    ensures Inv(s, Next(s, n, SendAck))
  {
    hide WriteAuth, ReadAuth, WriteAck, ReadAck, SealFrame, InFlight;
    s.Facts();
    if n.server.phase == SendingAck {
      var n' := Next(s, n, SendAck);
      assert AckUnread(s, n');
    }
  }

  lemma FlowsSend(p: Primitives, to: Party, wire: Buffer, from: Party, m: Message)
    requires Flows(p, to, wire, from)
    ensures
      var (from', out) := Emit(p, from.(sent := from.sent + [m]), EgressMessage(m), Established);
      && Flows(p, to, wire + out, from')
      && from'.phase == Established && from'.inbox == from.inbox && from'.got == from.got && from'.peer == from.peer
      && from'.codec == from.codec.(ecies := from.codec.ecies.(egress := from'.codec.ecies.egress))
  {
    hide SealFrame, InFlight;
    var pending := from.sent[|to.got|..];
    var egress := from.codec.ecies.egress.value;
    SendExtends(p, to.codec, to.inbox + wire, pending, egress, m);
    assert (from.sent + [m])[|to.got|..] == pending + [m];
    assert to.inbox + wire + SealFrame(p, egress, m).bytes == to.inbox + (wire + SealFrame(p, egress, m).bytes);
  }

  lemma InvSend(s: Setup, n: Net, side: Side, m: Message)
    requires s.Valid() && Inv(s, n)
    ensures Inv(s, Next(s, n, Send(side, m)))
  {
    hide WriteAuth, ReadAuth, WriteAck, ReadAck, SealFrame, InFlight, SealAll;
    s.Facts();
    var n' := Next(s, n, Send(side, m));
    if BothReady(s, n) {
      if side == ServerSide {
        FlowsSend(s.p, n.client, n.toClient, n.server, m);
        SendKeepsIngress(s.p, n.server.codec, n'.server.codec.ecies.egress, n.server.inbox + n.toServer,
                         n.client.sent[|n.server.got|..], n.client.codec.ecies.egress.value);
      } else {
        FlowsSend(s.p, n.server, n.toServer, n.client, m);
        SendKeepsIngress(s.p, n.client.codec, n'.client.codec.ecies.egress, n.client.inbox + n.toClient,
                         n.server.sent[|n.client.got|..], n.server.codec.ecies.egress.value);
      }
      assert BothReady(s, n');
    } else if AckUnread(s, n) && side == ServerSide {
      var base := s.AckStep().endpoint.egress.value;
      SealAllLast(s.p, base, n.server.sent, m);
      var frames := SealAll(s.p, base, n.server.sent);
      var out := SealFrame(s.p, frames.half, m).bytes;
      var ack := s.AckStep().result.value;
      assert n.client.inbox + (n.toClient + out) == (n.client.inbox + n.toClient) + out;
      assert (ack + frames.bytes) + out == ack + (frames.bytes + out);
      assert AckUnread(s, n');
    }
  }

  lemma FlowsPoll(p: Primitives, to: Party, wire: Buffer, from: Party)
    requires Flows(p, to, wire, from) && to.phase == Established
    ensures
      var to' := PollParty(p, to);
      && Flows(p, to', wire, from)
      && to'.phase == Established && to'.sent == to.sent && to'.peer == to.peer
      && SameSession(to.codec, to'.codec)
      && (to'.got == to.got || |to'.got| == |to.got| + 1)
      && (wire == [] && to'.got == to.got ==> to.got == from.sent)
  {
    hide InFlight, Decode;
    var pending := from.sent[|to.got|..];
    DecodeProgress(p, to.codec, to.inbox, wire, pending, from.codec.ecies.egress.value);
    var to' := PollParty(p, to);
    if to'.got != to.got {
      assert to'.got == from.sent[..|to.got| + 1];
      assert from.sent[|to'.got|..] == pending[1..];
    } else {
      assert from.sent == to.got + pending;
    }
  }

  /** A length-prefixed message at the front of a stream is found once it has all arrived. */
  lemma PrefixedWhole(message: Buffer, tail: Buffer, arrived: Buffer, wire: Buffer)
    requires 2 <= |message| < 0x1_0002 && message[..2] == U16(|message| - 2)
    requires arrived + wire == message + tail
    ensures Prefixed(arrived) == if |arrived| < |message| then None else Some(|message|)
    ensures |message| <= |arrived| ==> arrived[..|message|] == message && arrived[|message|..] + wire == tail
  {
    U16RoundTrip(|message| - 2);
    if 2 <= |arrived| {
      assert arrived[..2] == (arrived + wire)[..2] == (message + tail)[..2] == message[..2];
    }
    if |message| <= |arrived| {
      assert (arrived + wire)[..|message|] == message;
      assert (arrived + wire)[|message|..] == tail;
    }
  }

  lemma PollAuth(s: Setup, n: Net)
    requires s.Valid() && Inv(s, n) && BeforeAck(s, n) && n.server.phase == AwaitAuth
    ensures Inv(s, Next(s, n, Poll(ServerSide)))
    ensures n.client.phase == AwaitAck && n.toServer == [] ==>
      Next(s, n, Poll(ServerSide)).server.phase == SendingAck
  {
    hide WriteAuth, ReadAuth, WriteAck, ReadAck, SealFrame, InFlight, SealAll;
    s.Facts();
    var auth := s.AuthStep().result.value;
    if n.client.phase == AwaitAck {
      PrefixedWhole(auth, [], n.server.inbox, n.toServer);
    }
  }

  /** A poll with no bytes changes nothing. */
  lemma PollNothing(s: Setup, n: Net, at: Side)
    requires s.Valid() && Inv(s, n)
    requires if at == ClientSide then BeforeAck(s, n) else AckUnread(s, n)
    ensures Next(s, n, Poll(at)) == n
  {
    hide WriteAuth, ReadAuth, WriteAck, ReadAck, InFlight, SealAll;
  }

  lemma PollAck(s: Setup, n: Net)
    requires s.Valid() && Inv(s, n) && AckUnread(s, n)
    ensures Inv(s, Next(s, n, Poll(ClientSide)))
    ensures n.toClient == [] ==> Next(s, n, Poll(ClientSide)).client.phase == Established
  {
    hide WriteAuth, ReadAuth, WriteAck, ReadAck, SealFrame;
    s.Facts();
    var ack := s.AckStep().result.value;
    var frames := SealAll(s.p, s.AckStep().endpoint.egress.value, n.server.sent);
    PrefixedWhole(ack, frames.bytes, n.client.inbox, n.toClient);
    var n' := Next(s, n, Poll(ClientSide));
    if |ack| <= |n.client.inbox| {
      assert n.server.sent[0..] == n.server.sent;
      assert BothReady(s, n');
    }
  }

  lemma InvPoll(s: Setup, n: Net, at: Side)
    requires s.Valid() && Inv(s, n)
    ensures Inv(s, Next(s, n, Poll(at)))
  {
    hide WriteAuth, ReadAuth, WriteAck, ReadAck, InFlight, SealAll, Decode;
    s.Facts();
    if BothReady(s, n) {
      if at == ServerSide {
        FlowsPoll(s.p, n.server, n.toServer, n.client);
      } else {
        FlowsPoll(s.p, n.client, n.toClient, n.server);
      }
      assert BothReady(s, Next(s, n, Poll(at)));
    } else if AckUnread(s, n) {
      if at == ClientSide { PollAck(s, n); } else { PollNothing(s, n, at); }
    } else if at == ServerSide {
      if n.server.phase == AwaitAuth { PollAuth(s, n); }
    } else {
      PollNothing(s, n, at);
    }
  }

  lemma {:induction false} InvRun(s: Setup, n: Net, actions: seq<Action>)
    requires s.Valid() && Inv(s, n)
    ensures Inv(s, Run(s, n, actions))
    decreases |actions|
  {
    hide Inv, Next;
    if actions != [] {
      match actions[0] {
        case Connect => InvConnect(s, n);
        case SendAck => InvSendAck(s, n);
        case Send(side, m) => InvSend(s, n, side, m);
        case Arrive(at, k) => InvArrive(s, n, at, k);
        case Poll(at) => InvPoll(s, n, at);
      }
      InvRun(s, Next(s, n, actions[0]), actions[1..]);
    }
  }

  /**
   * Safety over whole runs: for all keys, nonces, padding, interleavings, chunk sizes and messages, no MAC or
   * tag check fails, no `unwrap` aborts, each side has received a prefix of what the other sent, and the
   * server knows the client by its id.
   */
  lemma EveryRunIsSafe(s: Setup, actions: seq<Action>)
    requires s.Valid()
    ensures s.Initial().Ok?
    ensures
      var n := Run(s, s.Initial().value, actions);
      && !n.client.phase.Broken? && !n.server.phase.Broken?
      && n.server.got <= n.client.sent
      && n.client.got <= n.server.sent
      && (n.server.phase == Established ==> n.server.peer == Some(s.p.IdOf(PublicKey(s.keys.client))))
      && (n.client.phase == Established ==> n.client.codec.ecies.ephemeralShared == n.server.codec.ecies.ephemeralShared)
  {
    hide Run;
    InvInitial(s);
    InvRun(s, s.Initial().value, actions);
  }

  /** The two directions of an established pair, seen from the receiving side. */
  ghost predicate Caught(p: Primitives, to: Party, wire: Buffer, from: Party) {
    wire == [] && PollParty(p, to).got == to.got ==>
      && to.got == from.sent
      && PollParty(p, to).codec.ecies.ingress == from.codec.ecies.egress
  }

  lemma CaughtUp(p: Primitives, to: Party, wire: Buffer, from: Party)
    requires Flows(p, to, wire, from) && to.phase == Established
    ensures Caught(p, to, wire, from)
  {
    FlowsPoll(p, to, wire, from);
    var to' := PollParty(p, to);
    if wire == [] && to'.got == to.got {
      assert from.sent[|to'.got|..] == [];
    }
  }

  /**
   * Completeness: once every byte has arrived and polling yields nothing more, a side has received exactly what
   * the other sent, and its cipher position and MAC history equal the sender's.
   */
  lemma EveryRunCatchesUp(s: Setup, actions: seq<Action>)
    requires s.Valid()
    ensures s.Initial().Ok?
    ensures
      var n := Run(s, s.Initial().value, actions);
      n.client.phase == Established && n.server.phase == Established ==>
        && Caught(s.p, n.server, n.toServer, n.client)
        && Caught(s.p, n.client, n.toClient, n.server)
  {
    hide Run, Caught, InFlight;
    InvInitial(s);
    InvRun(s, s.Initial().value, actions);
    var n := Run(s, s.Initial().value, actions);
    if n.client.phase == Established && n.server.phase == Established {
      CaughtUp(s.p, n.server, n.toServer, n.client);
      CaughtUp(s.p, n.client, n.toClient, n.server);
    }
  }

  function At(n: Net, side: Side): Party {
    if side == ClientSide then n.client else n.server
  }

  function Peer(n: Net, side: Side): Party {
    if side == ClientSide then n.server else n.client
  }

  function Incoming(n: Net, side: Side): Buffer {
    if side == ClientSide then n.toClient else n.toServer
  }

  function Polling(side: Side, polls: nat): seq<Action> {
    if polls == 0 then [] else [Poll(side)] + Polling(side, polls - 1)
  }

  /** One poll of an established side: the peer and the wire stay, and the next message comes in if there is one. */
  lemma PollStep(s: Setup, n: Net, side: Side)
    requires s.Valid() && BothReady(s, n)
    ensures
      var n' := Next(s, n, Poll(side));
      && BothReady(s, n')
      && Peer(n', side) == Peer(n, side) && Incoming(n', side) == Incoming(n, side)
      && (At(n', side).got == At(n, side).got || |At(n', side).got| == |At(n, side).got| + 1)
      && (Incoming(n, side) == [] && At(n', side).got == At(n, side).got ==> At(n, side).got == Peer(n, side).sent)
      && At(n', side).got <= Peer(n, side).sent
  {
    hide InFlight, Decode, PollParty;
    if side == ServerSide {
      FlowsPoll(s.p, n.server, n.toServer, n.client);
    } else {
      FlowsPoll(s.p, n.client, n.toClient, n.server);
    }
  }

  /** With every byte arrived, as many polls as messages are missing deliver them all. */
  lemma {:induction false} PollsDeliverAll(s: Setup, n: Net, side: Side, polls: nat)
    requires s.Valid() && BothReady(s, n) && Incoming(n, side) == []
    requires |Peer(n, side).sent| - |At(n, side).got| <= polls
    ensures
      var n' := Run(s, n, Polling(side, polls));
      At(n', side).got == Peer(n', side).sent == Peer(n, side).sent
    decreases polls
  {
    hide BothReady, Next;
    ReadyFacts(s, n, side);
    if polls != 0 {
      PollStep(s, n, side);
      var n' := Next(s, n, Poll(side));
      ReadyFacts(s, n', side);
      PollsDeliverAll(s, n', side, polls - 1);
    }
  }

  lemma ReadyFacts(s: Setup, n: Net, side: Side)
    requires BothReady(s, n)
    ensures n.client.phase == Established && n.server.phase == Established
    ensures At(n, side).got <= Peer(n, side).sent
  {
  }

  /**
   * In every run, once both sides are established and every byte of a direction has arrived, one poll for each
   * message sent brings all of them in.
   */
  lemma EveryRunDelivers(s: Setup, actions: seq<Action>, side: Side)
    requires s.Valid()
    ensures s.Initial().Ok?
    ensures
      var n := Run(s, s.Initial().value, actions);
      n.client.phase == Established && n.server.phase == Established && Incoming(n, side) == [] ==>
        At(Run(s, n, Polling(side, |Peer(n, side).sent|)), side).got == Peer(n, side).sent
  {
    InvInitial(s);
    InvRun(s, s.Initial().value, actions);
    var n := Run(s, s.Initial().value, actions);
    hide Run, InFlight, Polling, Next;
    if n.client.phase == Established && n.server.phase == Established && Incoming(n, side) == [] {
      assert BothReady(s, n);
      PollsDeliverAll(s, n, side, |Peer(n, side).sent|);
    }
  }

  /** The handshake never stalls: with its bytes arrived, the waiting side's next poll moves it on. */
  lemma HandshakeNeverStalls(s: Setup, actions: seq<Action>)
    requires s.Valid()
    ensures s.Initial().Ok?
    ensures
      var n := Run(s, s.Initial().value, actions);
      && (n.client.phase == AwaitAck && n.server.phase == AwaitAuth && n.toServer == [] ==>
            Next(s, n, Poll(ServerSide)).server.phase == SendingAck)
      && (n.client.phase == AwaitAck && n.server.phase == Established && n.toClient == [] ==>
            Next(s, n, Poll(ClientSide)).client.phase == Established)
  {
    hide Run, WriteAuth, ReadAuth, WriteAck, ReadAck, InFlight, SealAll, Next;
    InvInitial(s);
    InvRun(s, s.Initial().value, actions);
    var n := Run(s, s.Initial().value, actions);
    if n.client.phase == AwaitAck && n.server.phase == AwaitAuth && n.toServer == [] {
      PollAuth(s, n);
    }
    if n.client.phase == AwaitAck && n.server.phase == Established && n.toClient == [] {
      PollAck(s, n);
    }
  }
}
