/**
 * What is on the wire, in terms of the primitives alone: the layouts of "Initial Handshake" and "Framing" of the
 * RLPx Transport Protocol, and exactly which bytes a receiver accepts.
 */
module WireFormat {
  import opened Bytes
  import opened Wrappers
  import opened Crypto
  import opened Framing
  import opened Handshake

  // ----- Frames -----

  function Keystream(p: Primitives, key: H256, from: nat, n: nat): (s: Buffer)
    ensures |s| == n
  {
    seq(n, i requires 0 <= i < n => p.ctr256(key, from + i))
  }

  function Tag(p: Primitives, absorbed: Buffer): H128 {
    p.keccak(absorbed)[..16]
  }

  /** What a MAC has absorbed after a header, and after a body. */
  function AfterHeader(p: Primitives, secret: H256, absorbed: Buffer, header: H128): Buffer {
    absorbed + Xor(p.ecb(secret, Tag(p, absorbed)), header)
  }

  function AfterBody(p: Primitives, secret: H256, absorbed: Buffer, body: Buffer): Buffer {
    var tag := Tag(p, absorbed + body);
    absorbed + body + Xor(p.ecb(secret, tag), tag)
  }

  lemma CryptIsXor(p: Primitives, h: Half, data: Buffer)
    ensures h.Crypt(p, data) == Xor(data, Keystream(p, h.key, h.position, |data|))
  {
  }

  /** A frame: encrypted size, fixed header data and padding, its tag, the encrypted padded body, its tag. */
  lemma FrameOnTheWire(p: Primitives, h: Half, data: Message)
    ensures
      var len := (|data| + 15) / 16 * 16;
      var header := Xor(U24(|data|) + [0xC2, 0x80, 0x80] + Zeros(10), Keystream(p, h.key, h.position, 16));
      var body := Xor(data + Zeros(len - |data|), Keystream(p, h.key, h.position + 16, len));
      var a := AfterHeader(p, h.mac.secret, h.mac.absorbed, header);
      var b := AfterBody(p, h.mac.secret, a, body);
      SealFrame(p, h, data) == Sealed(
        Half(h.key, h.position + 16 + len, MacState(h.mac.secret, b)), header + Tag(p, a) + (body + Tag(p, b)))
  {
    hide Half.Crypt, Xor;
    var plain := HeaderPlain(|data|);
    CryptIsXor(p, h, plain);
    var s := SealHeader(p, h, |data|);
    PaddedIs(|data|);
    CryptIsXor(p, s.half, data + Zeros(Padded(|data|) - |data|));
  }

  lemma PaddedIs(n: nat)
    ensures Padded(n) == (n + 15) / 16 * 16
  {
  }

  /** A header is accepted exactly when its tag is that of the MAC's history with it, and refused by a tag error. */
  lemma HeaderOpensIff(p: Primitives, h: Half, data: Buffer)
    requires |data| == HEADER_LEN
    ensures
      var a := AfterHeader(p, h.mac.secret, h.mac.absorbed, data[..16]);
      OpenHeader(p, h, data) ==
        if data[16..] == Tag(p, a) then
          Opened(Half(h.key, h.position + 16, MacState(h.mac.secret, a)),
                 Ok(BigEndian(Xor(data[..16], Keystream(p, h.key, h.position, 16))[..3])))
        else
          Opened(h.(mac := MacState(h.mac.secret, a)), Err(TagCheckFailed))
  {
    hide Half.Crypt, Xor, BigEndian;
    CryptIsXor(p, h, data[..16]);
  }

  lemma BodyOpensIff(p: Primitives, h: Half, size: nat, data: Buffer)
    requires |data| == BodyLen(size)
    ensures
      var n := |data| - 16;
      var a := AfterBody(p, h.mac.secret, h.mac.absorbed, data[..n]);
      OpenBody(p, h, size, data) ==
        if data[n..] == Tag(p, a) then
          Opened(Half(h.key, h.position + n, MacState(h.mac.secret, a)),
                 Ok(Xor(data[..n], Keystream(p, h.key, h.position, n))[..size]))
        else
          Opened(h.(mac := MacState(h.mac.secret, a)), Err(TagCheckFailed))
  {
    hide Half.Crypt, Xor;
    CryptIsXor(p, h, data[..|data| - 16]);
  }

  /** Only what a sender in step seals is accepted as a header, and it is read as what was sealed. */
  lemma OnlySealedHeadersOpen(p: Primitives, h: Half, data: Buffer)
    requires |data| == HEADER_LEN
    ensures OpenHeader(p, h, data).result.Ok? <==> exists plain: H128 :: data == SealPlain(p, h, plain).bytes
    ensures forall plain: H128 :: data == SealPlain(p, h, plain).bytes ==>
      OpenHeader(p, h, data) == Opened(SealPlain(p, h, plain).half, Ok(BigEndian(plain[..3])))
    ensures OpenHeader(p, h, data).result.Err? ==> OpenHeader(p, h, data).result.error == TagCheckFailed
  {
    hide BigEndian;
    var plain: H128 := h.Crypt(p, data[..16]);
    h.CryptInvolution(p, data[..16]);
    if OpenHeader(p, h, data).result.Ok? {
      assert data == data[..16] + data[16..] == SealPlain(p, h, plain).bytes;
    }
    forall other: H128 | data == SealPlain(p, h, other).bytes ensures data[..16] == h.Crypt(p, other) && other == plain {
      h.CryptInvolution(p, other);
    }
  }

  lemma SealedBlocksOpen(p: Primitives, h: Half, size: nat, plain: Buffer)
    requires |plain| == Padded(size)
    ensures |SealBody(p, h, plain).bytes| == BodyLen(size)
    ensures OpenBody(p, h, size, SealBody(p, h, plain).bytes) == Opened(SealBody(p, h, plain).half, Ok(plain[..size]))
  {
    WholeBlocks(p, h, plain);
    h.CryptInvolution(p, plain);
    hide Half.Crypt, SealBody;
    var encrypted := h.Crypt(p, plain);
    var tag := h.mac.AbsorbBody(p, encrypted).Digest(p);
    assert (encrypted + tag)[..|plain|] == encrypted && (encrypted + tag)[|plain|..] == tag;
  }

  lemma OpenedWasSealed(p: Primitives, h: Half, size: nat, data: Buffer)
    requires |data| == BodyLen(size) && OpenBody(p, h, size, data).result.Ok?
    ensures
      var plain := h.Crypt(p, data[..|data| - 16]);
      |plain| == Padded(size) && data == SealBody(p, h, plain).bytes
  {
    var n := |data| - 16;
    var plain := h.Crypt(p, data[..n]);
    WholeBlocks(p, h, plain);
    h.CryptInvolution(p, data[..n]);
    hide Half.Crypt, SealBody;
    assert data == data[..n] + data[n..];
  }

  lemma OnlySealedBodiesOpen(p: Primitives, h: Half, size: nat, data: Buffer)
    requires |data| == BodyLen(size)
    ensures OpenBody(p, h, size, data).result.Ok? <==>
      exists plain: Buffer :: |plain| == Padded(size) && data == SealBody(p, h, plain).bytes
    ensures forall plain: Buffer :: |plain| == Padded(size) && data == SealBody(p, h, plain).bytes ==>
      OpenBody(p, h, size, data) == Opened(SealBody(p, h, plain).half, Ok(plain[..size]))
    ensures OpenBody(p, h, size, data).result.Err? ==> OpenBody(p, h, size, data).result.error == TagCheckFailed
  {
    assert OpenBody(p, h, size, data).result.Err? ==> OpenBody(p, h, size, data).result.error == TagCheckFailed;
    hide OpenBody, SealBody, Padded, BodyLen;
    if OpenBody(p, h, size, data).result.Ok? {
      OpenedWasSealed(p, h, size, data);
    }
    forall plain: Buffer | |plain| == Padded(size) && data == SealBody(p, h, plain).bytes
      ensures OpenBody(p, h, size, data) == Opened(SealBody(p, h, plain).half, Ok(plain[..size]))
    {
      SealedBlocksOpen(p, h, size, plain);
    }
  }

  /** Whole blocks are not padded. */
  lemma WholeBlocks(p: Primitives, h: Half, plain: Buffer)
    requires |plain| % 16 == 0
    ensures
      var encrypted := h.Crypt(p, plain);
      var mac := h.mac.AbsorbBody(p, encrypted);
      SealBody(p, h, plain) == Sealed(Half(h.key, h.position + |encrypted|, mac), encrypted + mac.Digest(p))
  {
    assert plain + Zeros(0) == plain;
  }

  // ----- Envelopes -----

  function Keystream128(p: Primitives, key: H128, iv: H128, n: nat): (s: Buffer)
    ensures |s| == n
  {
    seq(n, i requires 0 <= i < n => p.ctr128(key, iv, i))
  }

  /** The block a message's two keys are taken from. */
  function KeyBlock(p: Primitives, x: H256): H256 {
    p.sha256([0, 0, 0, 1] + x)
  }

  /** The tag over vector, ciphertext and the two length bytes. */
  function MessageTag(p: Primitives, x: H256, iv: H128, cipher: Buffer, length: Buffer): H256 {
    p.hmac(p.sha256(KeyBlock(p, x)[16..32]), iv + cipher + length)
  }

  function MessageCipher(p: Primitives, x: H256, iv: H128, data: Buffer): Buffer {
    Xor(data, Keystream128(p, KeyBlock(p, x)[..16], iv, |data|))
  }

  lemma KeysOnTheWire(p: Primitives, x: H256)
    ensures EncKey(p, x) == KeyBlock(p, x)[..16] && MacKey(p, x) == p.sha256(KeyBlock(p, x)[16..32])
  {
    assert [0, 0, 0, 1] + x + [] == [0, 0, 0, 1] + x;
  }

  lemma Crypt128IsXor(p: Primitives, key: H128, iv: H128, data: Buffer)
    ensures Crypt128(p, key, iv, data) == Xor(data, Keystream128(p, key, iv, |data|))
  {
  }

  /** An encrypted message: its length, a fresh key, the vector, the ciphertext and the tag. */
  lemma EnvelopeOnTheWire(p: Primitives, to: PublicKey, r: Random, data: Buffer)
    requires |data| + 113 < 0x1_0000
    ensures
      var length := U16(|data| + 113);
      var x := p.dh(to.secret, r.key);
      var cipher := MessageCipher(p, x, r.iv, data);
      Envelope(p, to, r, data) ==
        Ok(length + (p.keyToBytes(PublicKey(r.key)) + r.iv + cipher + MessageTag(p, x, r.iv, cipher, length)))
  {
    var x := p.dh(to.secret, r.key);
    KeysOnTheWire(p, x);
    hide Crypt128, Xor, KdfBlock, KeyBlock, EncKey, MacKey;
    Crypt128IsXor(p, EncKey(p, x), r.iv, data);
  }

  /** The parts of a received message that is long enough. */
  datatype Parts = Parts(length: Buffer, key: Buffer, iv: H128, cipher: Buffer, tag: H256)

  function PartsOf(data: Buffer): Parts
    requires |data| >= 115
  {
    Parts(data[..2], data[2..67], data[67..83], data[83..|data| - 32], data[|data| - 32..])
  }

  /** A message decrypts exactly when it is long enough, its key parses and its tag is right; else the first of these fails. */
  lemma DecryptsIff(p: Primitives, secret: SecretKey, data: Buffer)
    ensures |data| < 67 ==> Decrypt(p, secret, data) == Err(Panic)
    ensures |data| >= 67 && p.keyFromBytes(data[2..67]).None? ==> Decrypt(p, secret, data) == Err(BadKey)
    ensures |data| >= 67 && p.keyFromBytes(data[2..67]).Some? && |data| < 115 ==> Decrypt(p, secret, data) == Err(Panic)
    ensures |data| >= 115 && p.keyFromBytes(data[2..67]).Some? ==>
      var m := PartsOf(data);
      var x := p.dh(p.keyFromBytes(m.key).value.secret, secret);
      Decrypt(p, secret, data) ==
        if m.tag == MessageTag(p, x, m.iv, m.cipher, m.length) then Ok(MessageCipher(p, x, m.iv, m.cipher))
        else Err(TagCheckFailed)
  {
    if |data| >= 115 && p.keyFromBytes(data[2..67]).Some? {
      var m := PartsOf(data);
      var rest := data[67..];
      assert rest[..16] == m.iv && rest[16..|rest| - 32] == m.cipher && rest[|rest| - 32..] == m.tag;
      var x := p.dh(p.keyFromBytes(m.key).value.secret, secret);
      KeysOnTheWire(p, x);
      Crypt128IsXor(p, EncKey(p, x), m.iv, m.cipher);
    }
  }

  /** Derived bytes are the hashes of a counter from one, the secret and the shared information. */
  lemma {:induction false} DerivedBlock(p: Primitives, secret: H256, s1: Buffer, blocks: nat, k: nat) returns (counter: Buffer)
    requires k < blocks < 0x1_0000_0000
    ensures |counter| == 4 && BigEndian(counter) == k + 1
    ensures KdfStream(p, secret, s1, blocks)[32 * k..32 * k + 32] == p.sha256(counter + secret + s1)
  {
    if k + 1 < blocks {
      counter := DerivedBlock(p, secret, s1, blocks - 1, k);
      assert KdfStream(p, secret, s1, blocks)[32 * k..32 * k + 32]
          == KdfStream(p, secret, s1, blocks - 1)[32 * k..32 * k + 32];
    } else {
      var n := k + 1;
      counter := [LowByte(n / 0x100_0000), LowByte(n / 0x1_0000), LowByte(n / 0x100), LowByte(n)];
      FourBytes(n);
    }
  }

  lemma FourBytes(n: nat)
    requires n < 0x1_0000_0000
    ensures BigEndian([LowByte(n / 0x100_0000), LowByte(n / 0x1_0000), LowByte(n / 0x100), LowByte(n)]) == n
  {
    var m := n / 0x100;
    QuotientBytes(n);
    U24RoundTrip(m);
    hide LowByte;
    assert U24(m) == [LowByte(n / 0x100_0000), LowByte(n / 0x1_0000), LowByte(n / 0x100)];
    var c := [LowByte(n / 0x100_0000), LowByte(n / 0x1_0000), LowByte(n / 0x100), LowByte(n)];
    assert c[..3] == U24(m) && c[3] == LowByte(n);
    assert BigEndian(c) == BigEndian(c[..3]) * 256 + c[3] as nat;
  }

  lemma QuotientBytes(n: nat)
    ensures n / 0x100 / 0x1_0000 == n / 0x100_0000 && n / 0x100 / 0x100 == n / 0x1_0000
    ensures n / 0x100 * 256 + LowByte(n) as nat == n
  {
  }

  // ----- The handshake -----

  /** The auth is signed by the ephemeral key over the static secret masked by the nonce. */
  lemma AuthOnTheWire(p: Primitives, k: Keys, r: Random, padding: nat)
    requires p.Lawful() && 100 <= padding <= 300
    ensures k.Client(p).Ok?
    ensures
      var signature := p.sign(k.clientEphemeral, Xor(p.dh(k.server, k.client), k.clientNonce));
      WriteAuth(p, k.Client(p).value, r, padding).result == Envelope(p, PublicKey(k.server), r,
        p.authToRlp(signature, p.IdOf(PublicKey(k.client)), k.clientNonce) + Zeros(padding))
  {
    p.IdRoundTrip(PublicKey(k.server));
  }

  /** The ack carries the server's ephemeral id and nonce, encrypted to the client. */
  lemma AckOnTheWire(p: Primitives, k: Keys, r: Random, padding: nat, r': Random)
    requires p.Lawful() && 100 <= padding <= 300
    ensures k.Client(p).Ok?
    ensures
      var auth := WriteAuth(p, k.Client(p).value, r, padding);
      auth.result.Ok? &&
      WriteAck(p, ReadAuth(p, k.Server(), auth.result.value).endpoint, r').result ==
        Envelope(p, PublicKey(k.client), r', p.ackToRlp(p.IdOf(PublicKey(k.serverEphemeral)), k.serverNonce))
  {
    hide ReadAuth, WriteAuth, Envelope, SetupFrame;
    ServerReadsAuth(p, k, r, padding);
    ClientReadsAck(p, k, r, padding, r');
  }

  /** The secrets of a session, by the roles of the parties. */
  function AesSecret(p: Primitives, k: Keys): H256 {
    var e := p.dh(k.clientEphemeral, k.serverEphemeral);
    p.keccak(e + p.keccak(e + p.keccak(k.serverNonce + k.clientNonce)))
  }

  function MacSecret(p: Primitives, k: Keys): H256 {
    p.keccak(p.dh(k.clientEphemeral, k.serverEphemeral) + AesSecret(p, k))
  }

  /** After the handshake each direction has the session's secrets, and a MAC begun with the receiver's nonce and the sender's message. */
  lemma SecretsByRole(p: Primitives, k: Keys, r: Random, padding: nat, r': Random)
    requires p.Lawful() && 100 <= padding <= 300
    ensures k.Client(p).Ok?
    ensures
      var aes, mac := AesSecret(p, k), MacSecret(p, k);
      var auth := WriteAuth(p, k.Client(p).value, r, padding);
      auth.result.Ok? &&
      var ack := WriteAck(p, ReadAuth(p, k.Server(), auth.result.value).endpoint, r');
      ack.result.Ok? &&
      var done := ReadAck(p, auth.endpoint, ack.result.value);
      && done.result.Ok?
      && done.endpoint.egress == Some(Half(aes, 0, MacState(mac, Xor(mac, k.serverNonce) + auth.result.value)))
      && done.endpoint.ingress == Some(Half(aes, 0, MacState(mac, Xor(mac, k.clientNonce) + ack.result.value)))
      && ack.endpoint.ingress == done.endpoint.egress
      && ack.endpoint.egress == done.endpoint.ingress
  {
    hide ReadAuth, WriteAuth, Envelope, ReadAck;
    ServerReadsAuth(p, k, r, padding);
    ClientReadsAck(p, k, r, padding, r');
  }

  /** An auth list is adopted exactly when every item is there and good; then all five fields are set. */
  lemma AuthAcceptedIff(p: Primitives, e: Endpoint, items: AuthItems)
    ensures
      var step := AdoptAuth(p, e, items);
      step.result.Ok? <==>
        && items.signature.Some? && |items.signature.value| == 65 && p.signatureParses(items.signature.value)
        && items.id.Some? && p.keyFromBytes([4] + items.id.value).Some? && items.nonce.Some?
        && p.recover(Xor(p.dh(p.keyFromBytes([4] + items.id.value).value.secret, e.secretKey), items.nonce.value),
                     items.signature.value).Some?
    ensures
      var step := AdoptAuth(p, e, items);
      step.result.Ok? ==>
        var key := p.keyFromBytes([4] + items.id.value).value;
        var ephemeral := p.recover(Xor(p.dh(key.secret, e.secretKey), items.nonce.value), items.signature.value).value;
        && step.result == Ok(items.id.value)
        && step.endpoint == e.(
             remoteId := items.id, remotePublicKey := Some(key), remoteNonce := items.nonce,
             remoteEphemeral := Some(ephemeral), ephemeralShared := Some(p.dh(ephemeral.secret, e.ephemeralKey)))
  {
  }

  /** Likewise for an ack list and its two items. */
  lemma AckAcceptedIff(p: Primitives, e: Endpoint, items: AckItems)
    ensures
      var step := AdoptAck(p, e, items);
      step.result.Ok? <==>
        items.ephemeral.Some? && p.keyFromBytes([4] + items.ephemeral.value).Some? && items.nonce.Some?
    ensures
      var step := AdoptAck(p, e, items);
      step.result.Ok? ==>
        var key := p.keyFromBytes([4] + items.ephemeral.value).value;
        step.endpoint == e.(remoteEphemeral := Some(key), remoteNonce := items.nonce,
                            ephemeralShared := Some(p.dh(key.secret, e.ephemeralKey)))
  {
  }

  /** Without the fields they unwrap, the handshake's calls abort and change nothing; a client needs an id that is a key. */
  lemma HandshakeAborts(p: Primitives, e: Endpoint, r: Random, padding: nat, incoming: bool, id: PeerId)
    requires 100 <= padding <= 300
    ensures e.remotePublicKey.None? ==> WriteAuth(p, e, r, padding) == Step(e, Err(Panic)) == WriteAck(p, e, r)
    ensures SetupFrame(p, e, incoming) == Step(e, Err(Panic)) <==>
      e.remoteNonce.None? || e.ephemeralShared.None? || e.initMsg.None? || e.remoteInitMsg.None?
    ensures NewClient(p, e.secretKey, id, e.nonce, e.ephemeralKey).Ok? <==> p.keyFromBytes([4] + id).Some?
  {
  }
}
