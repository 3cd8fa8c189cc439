/** Bytes changed on the way: what a receiver does with a tag that is not the sender's. */
module Tampering {
  import opened Bytes
  import opened Wrappers
  import opened Crypto
  import opened Framing
  import opened Handshake
  import opened Codec
  import opened Session
  import opened WireFormat

  /** The message the peer has under way to a side. */
  ghost predicate UnderWay(n: Net, side: Side, m: Message) {
    |At(n, side).got| < |Peer(n, side).sent| && Peer(n, side).sent[|At(n, side).got|] == m
  }

  /** Where the header tag and the body tag of the first frame begin in the bytes under way. */
  const HEADER_TAG: nat := 16

  function BodyTag(state: State, m: Message): nat {
    (if state == Header then HEADER_LEN else 0) + Padded(|m|)
  }

  /** The same bytes up to a tag at `at`, and another tag there. */
  predicate Forged(bytes: Buffer, forged: Buffer, at: nat) {
    && at + 16 <= |bytes| && at + 16 <= |forged|
    && forged[..at] == bytes[..at] && forged[at..at + 16] != bytes[at..at + 16]
  }

  /** A body with another tag is refused. */
  lemma ForgedBody(p: Primitives, h: Half, m: Message, forged: Buffer)
    requires |forged| == BodyLen(|m|)
    requires forged[..Padded(|m|)] == SealBody(p, h, m).bytes[..Padded(|m|)]
    requires forged[Padded(|m|)..] != SealBody(p, h, m).bytes[Padded(|m|)..]
    ensures OpenBody(p, h, |m|, forged).result == Err(TagCheckFailed)
  {
    hide Half.Crypt;
    var s := SealBody(p, h, m);
    assert s.bytes[Padded(|m|)..] == h.mac.AbsorbBody(p, s.bytes[..Padded(|m|)]).Digest(p);
  }

  lemma ForgedHeader(p: Primitives, h: Half, size: nat, forged: Buffer)
    requires size < MAX_FRAME && |forged| == HEADER_LEN
    requires forged[..16] == SealHeader(p, h, size).bytes[..16] && forged[16..] != SealHeader(p, h, size).bytes[16..]
    ensures OpenHeader(p, h, forged).result == Err(TagCheckFailed)
  {
    hide Half.Crypt, HeaderPlain;
    var s := SealHeader(p, h, size);
    assert s.bytes[16..] == h.mac.AbsorbHeader(p, s.bytes[..16]).Digest(p);
  }

  /** Polling forged bytes breaks the connection with a tag error, and yields nothing. */
  ghost predicate Refused(p: Primitives, a: Party, forged: Buffer) {
    var a' := PollParty(p, a.(inbox := forged));
    a'.phase == Broken(TagCheckFailed) && a'.got == a.got
  }

  lemma BodyTagRefused(p: Primitives, to: Party, bytes: Buffer, pending: seq<Message>, egress: Half, forged: Buffer)
    requires to.phase == Established && to.codec.state == Body
    requires pending != [] && InFlight(p, to.codec, bytes, pending, egress)
    requires Forged(bytes, forged, BodyTag(Body, pending[0]))
    ensures Refused(p, to, forged)
  {
    hide SealBody, SealAll, OpenBody;
    var m := pending[0];
    var h := to.codec.ecies.ingress.value;
    var body := SealBody(p, h, m);
    var len, at := BodyLen(|m|), Padded(|m|);
    assert bytes[..len] == body.bytes;
    assert forged[..len][..at] == forged[..at] == bytes[..at] == bytes[..len][..at] == body.bytes[..at];
    assert forged[..len][at..] == forged[at..len];
    assert body.bytes[at..] == bytes[at..len];
    ForgedBody(p, h, m, forged[..len]);
  }

  lemma HeaderTagRefused(p: Primitives, to: Party, bytes: Buffer, pending: seq<Message>, egress: Half, forged: Buffer)
    requires to.phase == Established && to.codec.state == Header
    requires pending != [] && InFlight(p, to.codec, bytes, pending, egress)
    requires Forged(bytes, forged, 16)
    ensures Refused(p, to, forged)
  {
    hide SealBody, SealHeader, SealAll, OpenHeader;
    var h := to.codec.ecies.ingress.value;
    FirstInFlight(p, h, pending, egress, bytes);
    var header := SealHeader(p, h, |pending[0]|);
    assert forged[..32][..16] == forged[..16] == bytes[..16] == bytes[..32][..16] == header.bytes[..16];
    assert forged[..32][16..] == forged[16..32] && header.bytes[16..] == bytes[16..32];
    ForgedHeader(p, h, |pending[0]|, forged[..32]);
  }

  /** A good header does not save a body with another tag. */
  lemma BodyTagRefusedAfterHeader(p: Primitives, to: Party, bytes: Buffer, pending: seq<Message>, egress: Half, forged: Buffer)
    requires to.phase == Established && to.codec.state == Header
    requires pending != [] && InFlight(p, to.codec, bytes, pending, egress)
    requires Forged(bytes, forged, BodyTag(Header, pending[0]))
    ensures Refused(p, to, forged)
  {
    hide SealBody, SealHeader, SealAll, OpenHeader, OpenBody;
    var m := pending[0];
    var h := to.codec.ecies.ingress.value;
    FirstInFlight(p, h, pending, egress, bytes);
    var header := SealHeader(p, h, |m|);
    var len, at := BodyLen(|m|), Padded(|m|);
    assert forged[..32] == header.bytes;
    HeaderRoundTrip(p, h, |m|);
    var body := SealBody(p, header.half, m);
    var rest := forged[32..];
    assert bytes[32..][..len] == body.bytes;
    assert rest[..len][..at] == forged[32..32 + at] == bytes[32..32 + at] == body.bytes[..at];
    assert rest[..len][at..] == forged[32 + at..32 + len] && body.bytes[at..] == bytes[32 + at..32 + len];
    ForgedBody(p, header.half, m, rest[..len]);
  }

  /**
   * In every run, if instead of the bytes under way to an established side others come that agree with them up to
   * the tag of a header or a body and have another tag there, the side breaks off with a tag error and has received
   * nothing more.
   */
  lemma ForgedTagsAreRefused(s: Setup, actions: seq<Action>, side: Side, m: Message, forged: Buffer)
    requires s.Valid()
    ensures s.Initial().Ok?
    ensures
      var n := Run(s, s.Initial().value, actions);
      var state := At(n, side).codec.state;
      var bytes := At(n, side).inbox + Incoming(n, side);
      n.client.phase == Established && n.server.phase == Established && UnderWay(n, side, m)
      && (Forged(bytes, forged, BodyTag(state, m)) || (state == Header && Forged(bytes, forged, HEADER_TAG))) ==>
        Refused(s.p, At(n, side), forged)
  {
    InvInitial(s);
    InvRun(s, s.Initial().value, actions);
    var n := Run(s, s.Initial().value, actions);
    hide Run, Refused, Forged, BodyTag;
    var to, from := At(n, side), Peer(n, side);
    var bytes := to.inbox + Incoming(n, side);
    if n.client.phase == Established && n.server.phase == Established && UnderWay(n, side, m) {
      assert BothReady(s, n) && Flows(s.p, to, Incoming(n, side), from);
      var pending := from.sent[|to.got|..];
      var egress := from.codec.ecies.egress.value;
      RefusedEither(s.p, to, bytes, pending, egress, forged);
    }
  }

  lemma RefusedEither(p: Primitives, to: Party, bytes: Buffer, pending: seq<Message>, egress: Half, forged: Buffer)
    requires to.phase == Established && pending != [] && InFlight(p, to.codec, bytes, pending, egress)
    requires to.codec.state == Header || to.codec.state == Body
    ensures Forged(bytes, forged, BodyTag(to.codec.state, pending[0])) ==> Refused(p, to, forged)
    ensures to.codec.state == Header && Forged(bytes, forged, HEADER_TAG) ==> Refused(p, to, forged)
  {
    hide Refused, Forged, BodyTag, InFlight;
    if Forged(bytes, forged, BodyTag(to.codec.state, pending[0])) {
      if to.codec.state == Body {
        BodyTagRefused(p, to, bytes, pending, egress, forged);
      } else {
        BodyTagRefusedAfterHeader(p, to, bytes, pending, egress, forged);
      }
    }
    if to.codec.state == Header && Forged(bytes, forged, 16) {
      HeaderTagRefused(p, to, bytes, pending, egress, forged);
    }
  }

  /** An encrypted handshake message with another tag is refused. */
  lemma ForgedEnvelope(p: Primitives, to: SecretKey, r: Random, data: Buffer, forged: Buffer)
    requires p.Lawful() && |data| + OVERHEAD < 0x1_0000
    requires
      var sealed := Envelope(p, PublicKey(to), r, data).value;
      |forged| == |sealed| && forged[..|sealed| - 32] == sealed[..|sealed| - 32] && forged != sealed
    ensures Decrypt(p, to, forged) == Err(TagCheckFailed)
  {
    var sealed := Envelope(p, PublicKey(to), r, data).value;
    var n := |sealed|;
    DecryptEncrypt(p, to, r, data);
    hide Decrypt, Envelope, MessageTag, MessageCipher;
    EnvelopeIsPrefixed(p, to, r, data);
    DecryptsIff(p, to, sealed);
    DecryptsIff(p, to, forged);
    assert forged[2..67] == forged[..n - 32][2..67] == sealed[2..67];
    var a, b := PartsOf(sealed), PartsOf(forged);
    assert a.length == b.length && a.key == b.key;
    assert a.iv == sealed[..n - 32][67..83] == b.iv;
    assert a.cipher == sealed[..n - 32][83..] == b.cipher;
    assert sealed == sealed[..n - 32] + a.tag && forged == forged[..n - 32] + b.tag;
  }

  lemma EnvelopeIsPrefixed(p: Primitives, to: SecretKey, r: Random, data: Buffer)
    requires p.Lawful() && |data| + OVERHEAD < 0x1_0000
    ensures
      var sealed := Envelope(p, PublicKey(to), r, data);
      && sealed.Ok? && |sealed.value| >= 115
      && Decrypt(p, to, sealed.value) == Ok(data) && p.keyFromBytes(sealed.value[2..67]).Some?
  {
    DecryptEncrypt(p, to, r, data);
    hide Encrypt;
  }

  lemma UndecryptableAuth(p: Primitives, server: Party, forged: Buffer)
    requires server.phase == AwaitAuth && server.codec.state == Auth
    requires Prefixed(forged) == Some(|forged|) && Decrypt(p, server.codec.ecies.secretKey, forged) == Err(TagCheckFailed)
    ensures
      var server' := PollParty(p, server.(inbox := forged));
      && server'.phase == Broken(TagCheckFailed) && server'.peer == server.peer
      && server'.codec.ecies == server.codec.ecies.(remoteInitMsg := Some(forged))
  {
    hide Decrypt, AdoptAuth;
    assert forged[..|forged|] == forged;
  }

  lemma ForgedPrefix(auth: Buffer, forged: Buffer)
    requires 34 <= |auth| < 0x1_0002 && auth[..2] == U16(|auth| - 2)
    requires |forged| == |auth| && forged[..|auth| - 32] == auth[..|auth| - 32]
    ensures Prefixed(forged) == Some(|forged|)
  {
    assert forged[..2] == forged[..|auth| - 32][..2] == auth[..|auth| - 32][..2] == auth[..2];
    U16RoundTrip(|auth| - 2);
  }

  /** So a server that is sent a forged auth breaks off before it takes anything from it. */
  lemma ForgedAuthIsRefused(s: Setup, server: Party, forged: Buffer)
    requires s.Valid()
    requires server.phase == AwaitAuth && server.codec == Codec(s.keys.Server(), Auth)
    requires s.Client().Ok? && s.AuthStep().result.Ok?
    requires
      var auth := s.AuthStep().result.value;
      34 <= |auth| == |forged| && forged[..|auth| - 32] == auth[..|auth| - 32] && forged != auth
    ensures
      var server' := PollParty(s.p, server.(inbox := forged));
      && server'.phase == Broken(TagCheckFailed) && server'.peer == server.peer
      && server'.codec.ecies == server.codec.ecies.(remoteInitMsg := Some(forged))
  {
    hide WriteAuth, Envelope, Decrypt, PollParty, ReadAuth, WriteAck, ReadAck;
    var auth, k := s.AuthStep().result.value, s.keys;
    s.Facts();
    AuthOnTheWire(s.p, k, s.auth, s.padding);
    var signature := s.p.sign(k.clientEphemeral, Xor(s.p.dh(k.server, k.client), k.clientNonce));
    var id := s.p.IdOf(PublicKey(k.client));
    assert s.p.ParsesAuth(signature, id, k.clientNonce, s.padding);
    ForgedEnvelope(s.p, k.server, s.auth, s.p.authToRlp(signature, id, k.clientNonce) + Zeros(s.padding), forged);
    ForgedPrefix(auth, forged);
    UndecryptableAuth(s.p, server, forged);
  }
}
