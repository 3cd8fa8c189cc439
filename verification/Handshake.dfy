/** The auth/ack handshake and session key derivation of one ECIES endpoint. */
module Handshake {
  import opened Bytes
  import opened Wrappers
  import opened Crypto
  import opened Framing

  /** Bytes an encrypted message adds to its plaintext: key, initial vector and tag. */
  const OVERHEAD: nat := 65 + 16 + 32

  /** The fields of `ECIES`; each direction's cipher and MAC, always set together, form one Half. */
  datatype Endpoint = Endpoint(
    secretKey: SecretKey,
    remotePublicKey: Option<PublicKey>,
    remoteId: Option<PeerId>,
    ephemeralKey: SecretKey,
    ephemeralShared: Option<H256>,
    remoteEphemeral: Option<PublicKey>,
    nonce: H256,
    remoteNonce: Option<H256>,
    ingress: Option<Half>,
    egress: Option<Half>,
    initMsg: Option<Buffer>,
    remoteInitMsg: Option<Buffer>,
    bodySize: Option<nat>)

  /** The endpoint after a call, and what the call returned. */
  datatype Step<+T> = Step(endpoint: Endpoint, result: Result<T>)

  /** What `encrypt_message` draws at random. */
  datatype Random = Random(key: SecretKey, iv: H128)

  function NewServer(secretKey: SecretKey, nonce: H256, ephemeralKey: SecretKey): Endpoint {
    Endpoint(secretKey, None, None, ephemeralKey, None, None, nonce, None, None, None, None, None, None)
  }

  function NewClient(p: Primitives, secretKey: SecretKey, remoteId: PeerId, nonce: H256, ephemeralKey: SecretKey)
    : Result<Endpoint>
  {
    match p.KeyOf(remoteId)
    case None => Err(BadKey)
    case Some(key) =>
      Ok(NewServer(secretKey, nonce, ephemeralKey).(remotePublicKey := Some(key), remoteId := Some(remoteId)))
  }

  /** One block of the key derivation function, under its big-endian counter. */
  function KdfBlock(p: Primitives, secret: H256, s1: Buffer, ctr: nat): H256 {
    var counter := [LowByte(ctr / 0x100_0000), LowByte(ctr / 0x1_0000), LowByte(ctr / 0x100), LowByte(ctr)];
    p.sha256(counter + secret + s1)
  }

  /** The first `blocks` blocks; the counter starts at one. */
  function KdfStream(p: Primitives, secret: H256, s1: Buffer, blocks: nat): (r: Buffer)
    ensures |r| == 32 * blocks
  {
    if blocks == 0 then [] else KdfStream(p, secret, s1, blocks - 1) + KdfBlock(p, secret, s1, blocks)
  }

  /** `kdf`: fills a destination of whole blocks; its 32-bit counter must not overflow. */
  method Kdf(p: Primitives, secret: H256, s1: Buffer, dest: array<byte>)
    requires dest.Length % 32 == 0 && dest.Length / 32 < 0xFFFF_FFFF
    modifies dest
    ensures dest[..] == KdfStream(p, secret, s1, dest.Length / 32)
  {
    var ctr := 1;
    var written := 0;
    while written < dest.Length
      invariant 1 <= ctr && written == 32 * (ctr - 1) <= dest.Length
      invariant dest[..written] == KdfStream(p, secret, s1, ctr - 1)
    {
      var d := KdfBlock(p, secret, s1, ctr);
      ghost var before := dest[..written];
      forall i | written <= i < written + 32 {
        dest[i] := d[i - written];
      }
      assert dest[..written + 32] == before + d;
      written := written + 32;
      ctr := ctr + 1;
    }
    assert dest[..] == dest[..written];
  }

  function EncKey(p: Primitives, x: H256): H128 {
    KdfBlock(p, x, [], 1)[..16]
  }

  function MacKey(p: Primitives, x: H256): H256 {
    p.sha256(KdfBlock(p, x, [], 1)[16..32])
  }

  /** The keys are the two halves of 32 derived bytes. */
  lemma KeysAreDerived(p: Primitives, x: H256)
    ensures EncKey(p, x) == KdfStream(p, x, [], 1)[..16]
    ensures MacKey(p, x) == p.sha256(KdfStream(p, x, [], 1)[16..32])
  {
    assert KdfStream(p, x, [], 1) == KdfStream(p, x, [], 0) + KdfBlock(p, x, [], 1) == KdfBlock(p, x, [], 1);
  }

  /** The message keys for a shared secret, as both directions of the envelope derive them. */
  method DeriveKeys(p: Primitives, x: H256) returns (enc: H128, mac: H256)
    ensures enc == EncKey(p, x) && mac == MacKey(p, x)
  {
    var key := new byte[32];
    Kdf(p, x, [], key);
    KeysAreDerived(p, x);
    assert key[0..16] == key[..][..16] && key[16..32] == key[..][16..32];
    enc := key[0..16];
    mac := p.sha256(key[16..32]);
  }

  function Crypt128(p: Primitives, key: H128, iv: H128, data: Buffer): (r: Buffer)
    ensures |r| == |data|
  {
    seq(|data|, i requires 0 <= i < |data| => XorByte(data[i], p.ctr128(key, iv, i)))
  }

  lemma Crypt128Involution(p: Primitives, key: H128, iv: H128, data: Buffer)
    ensures Crypt128(p, key, iv, Crypt128(p, key, iv, data)) == data
  {
    forall i | 0 <= i < |data| ensures Crypt128(p, key, iv, Crypt128(p, key, iv, data))[i] == data[i] {
      XorByteLaws(data[i], p.ctr128(key, iv, i));
    }
  }

  /** `encrypt_message` for a recipient; fails when the total size does not fit in 16 bits. */
  function Encrypt(p: Primitives, to: PublicKey, r: Random, data: Buffer): (out: Result<Buffer>)
    ensures out.Ok? <==> |data| + OVERHEAD < 0x1_0000
    ensures out.Ok? ==> |out.value| == |data| + OVERHEAD
  {
    var x := p.Ecdh(to, r.key);
    var encrypted := Crypt128(p, EncKey(p, x), r.iv, data);
    var total := 65 + 16 + |data| + 32;
    if total >= 0x1_0000 then Err(Panic)
    else
      var tag := p.hmac(MacKey(p, x), r.iv + encrypted + U16(total));
      Ok(p.keyToBytes(PublicKey(r.key)) + r.iv + encrypted + tag)
  }

  /** `decrypt_message`: slicing a message shorter than its fixed parts aborts. */
  function Decrypt(p: Primitives, secretKey: SecretKey, data: Buffer): Result<Buffer> {
    if |data| < 2 + 65 then Err(Panic)
    else
      var rest := data[67..];
      match p.keyFromBytes(data[2..67])
      case None => Err(BadKey)
      case Some(key) =>
        if |rest| < 32 + 16 then Err(Panic)
        else
          var iv: H128 := rest[..16];
          var encrypted := rest[16..|rest| - 32];
          var x := p.Ecdh(key, secretKey);
          if p.hmac(MacKey(p, x), iv + encrypted + data[..2]) != rest[|rest| - 32..] then Err(TagCheckFailed)
          else Ok(Crypt128(p, EncKey(p, x), iv, encrypted))
  }

  /** The length prefix written in front is the length the tag authenticates, so decryption inverts encryption. */
  lemma DecryptEncrypt(p: Primitives, to: SecretKey, r: Random, data: Buffer)
    requires p.Lawful() && |data| + OVERHEAD < 0x1_0000
    ensures
      var out := Encrypt(p, PublicKey(to), r, data).value;
      Decrypt(p, to, U16(|out|) + out) == Ok(data)
  {
    var out := Encrypt(p, PublicKey(to), r, data).value;
    var message := U16(|out|) + out;
    var x := p.Ecdh(PublicKey(to), r.key);
    p.SharedSecret(to, r.key);
    var encrypted := Crypt128(p, EncKey(p, x), r.iv, data);
    var tag := p.hmac(MacKey(p, x), r.iv + encrypted + U16(|out|));
    assert p.ParsesKey(PublicKey(r.key));
    assert message[2..67] == p.keyToBytes(PublicKey(r.key));
    assert p.keyFromBytes(message[2..67]) == Some(PublicKey(r.key));
    var rest := message[67..];
    assert rest == r.iv + encrypted + tag;
    assert rest[..16] == r.iv && rest[16..|rest| - 32] == encrypted && rest[|rest| - 32..] == tag;
    assert message[..2] == U16(|out|);
    Crypt128Involution(p, EncKey(p, x), r.iv, data);
  }

  /** An encrypted message behind its two-byte length. */
  function Envelope(p: Primitives, to: PublicKey, r: Random, data: Buffer): (out: Result<Buffer>)
    ensures out.Ok? <==> |data| + OVERHEAD < 0x1_0000
    ensures out.Ok? ==> |out.value| == 2 + |data| + OVERHEAD
    ensures out.Ok? ==> out.value[..2] == U16(|data| + OVERHEAD)
  {
    match Encrypt(p, to, r, data)
    case Err(e) => Err(e)
    case Ok(encrypted) => Ok(U16(|encrypted|) + encrypted)
  }

  /** `write_auth`. */
  function WriteAuth(p: Primitives, e: Endpoint, r: Random, padding: nat): Step<Buffer>
    requires 100 <= padding <= 300
  {
    match e.remotePublicKey
    case None => Step(e, Err(Panic))
    case Some(key) =>
      var msg: H256 := Xor(p.Ecdh(key, e.secretKey), e.nonce);
      var signature := p.sign(e.ephemeralKey, msg);
      var plain := p.authToRlp(signature, p.IdOf(PublicKey(e.secretKey)), e.nonce) + Zeros(padding);
      match Envelope(p, key, r, plain)
      case Err(error) => Step(e, Err(error))
      case Ok(out) => Step(e.(initMsg := Some(out)), Ok(out))
  }

  /** `parse_auth_unencrypted` on the items of the list: fields are set one by one up to the first error. */
  function AdoptAuth(p: Primitives, e: Endpoint, items: AuthItems): Step<PeerId> {
    if items.signature.None? then Step(e, Err(BadRlp))
    else if |items.signature.value| != 65 then Step(e, Err(InvalidAuthData))
    else if !p.signatureParses(items.signature.value) then Step(e, Err(BadSignature))
    else if items.id.None? then Step(e, Err(BadRlp))
    else
      var e1 := e.(remoteId := items.id);
      match p.KeyOf(items.id.value)
      case None => Step(e1, Err(BadKey))
      case Some(key) =>
        var e2 := e1.(remotePublicKey := Some(key));
        if items.nonce.None? then Step(e2, Err(BadRlp))
        else
          var e3 := e2.(remoteNonce := items.nonce);
          var msg: H256 := Xor(p.Ecdh(key, e.secretKey), items.nonce.value);
          match p.recover(msg, items.signature.value)
          case None => Step(e3, Err(BadSignature))
          case Some(ephemeral) =>
            Step(e3.(remoteEphemeral := Some(ephemeral), ephemeralShared := Some(p.Ecdh(ephemeral, e.ephemeralKey))),
                 Ok(items.id.value))
  }

  /** `read_auth`. */
  function ReadAuth(p: Primitives, e: Endpoint, data: Buffer): Step<PeerId> {
    var e1 := e.(remoteInitMsg := Some(data));
    match Decrypt(p, e.secretKey, data)
    case Err(error) => Step(e1, Err(error))
    case Ok(plain) => AdoptAuth(p, e1, p.authFromRlp(plain))
  }

  /** The AES and MAC secrets, from the ephemeral secret and both nonces. */
  function SessionKeys(p: Primitives, ephemeral: H256, serverNonce: H256, clientNonce: H256): (H256, H256) {
    var hNonce := p.keccak(serverNonce + clientNonce);
    var shared := p.keccak(ephemeral + hNonce);
    var aes := p.keccak(ephemeral + shared);
    (aes, p.keccak(ephemeral + aes))
  }

  /** `setup_frame`: every `unwrap` in it aborts when its field is not set. */
  function SetupFrame(p: Primitives, e: Endpoint, incoming: bool): Step<()> {
    if e.remoteNonce.None? || e.ephemeralShared.None? || e.initMsg.None? || e.remoteInitMsg.None? then
      Step(e, Err(Panic))
    else
      var remote := e.remoteNonce.value;
      var (aes, mac) :=
        if incoming then SessionKeys(p, e.ephemeralShared.value, e.nonce, remote)
        else SessionKeys(p, e.ephemeralShared.value, remote, e.nonce);
      var ingress := MacState(mac, Xor(mac, e.nonce) + e.remoteInitMsg.value);
      var egress := MacState(mac, Xor(mac, remote) + e.initMsg.value);
      Step(e.(ingress := Some(Half(aes, 0, ingress)), egress := Some(Half(aes, 0, egress))), Ok(()))
  }

  /** `write_ack`. */
  function WriteAck(p: Primitives, e: Endpoint, r: Random): Step<Buffer> {
    match e.remotePublicKey
    case None => Step(e, Err(Panic))
    case Some(key) =>
      match Envelope(p, key, r, p.ackToRlp(p.IdOf(PublicKey(e.ephemeralKey)), e.nonce))
      case Err(error) => Step(e, Err(error))
      case Ok(out) =>
        var s := SetupFrame(p, e.(initMsg := Some(out)), true);
        match s.result
        case Err(error) => Step(s.endpoint, Err(error))
        case Ok(_) => Step(s.endpoint, Ok(out))
  }

  /** `parse_ack_unencrypted` on the items of the list: fields are set one by one up to the first error. */
  function AdoptAck(p: Primitives, e: Endpoint, items: AckItems): Step<()> {
    if items.ephemeral.None? then Step(e, Err(BadRlp))
    else
      match p.KeyOf(items.ephemeral.value)
      case None => Step(e, Err(BadKey))
      case Some(key) =>
        var e1 := e.(remoteEphemeral := Some(key));
        if items.nonce.None? then Step(e1, Err(BadRlp))
        else Step(e1.(remoteNonce := items.nonce, ephemeralShared := Some(p.Ecdh(key, e.ephemeralKey))), Ok(()))
  }

  /** `read_ack`. */
  function ReadAck(p: Primitives, e: Endpoint, data: Buffer): Step<()> {
    var e1 := e.(remoteInitMsg := Some(data));
    match Decrypt(p, e.secretKey, data)
    case Err(error) => Step(e1, Err(error))
    case Ok(plain) =>
      var s := AdoptAck(p, e1, p.ackFromRlp(plain));
      if s.result.Err? then s else SetupFrame(p, s.endpoint, false)
  }

  /** The two parties before the handshake: the client knows the server's id. */
  datatype Keys = Keys(
    client: SecretKey, clientEphemeral: SecretKey, clientNonce: H256,
    server: SecretKey, serverEphemeral: SecretKey, serverNonce: H256)
  {
    function Client(p: Primitives): Result<Endpoint> {
      NewClient(p, client, p.IdOf(PublicKey(server)), clientNonce, clientEphemeral)
    }

    function Server(): Endpoint {
      NewServer(server, serverNonce, serverEphemeral)
    }
  }

  /** The server reads the auth it is sent and learns the client's id, nonce and ephemeral key. */
  lemma ServerReadsAuth(p: Primitives, k: Keys, r: Random, padding: nat)
    requires p.Lawful() && 100 <= padding <= 300
    ensures k.Client(p).Ok?
    ensures
      var auth := WriteAuth(p, k.Client(p).value, r, padding);
      && auth.result.Ok?
      && auth.endpoint == k.Client(p).value.(initMsg := Some(auth.result.value))
      && |auth.result.value| == 2 + Primitives.AUTH_LEN + padding + OVERHEAD
      && auth.result.value[..2] == U16(|auth.result.value| - 2)
      && ReadAuth(p, k.Server(), auth.result.value) == Step(
           k.Server().(
             remoteInitMsg := Some(auth.result.value),
             remoteId := Some(p.IdOf(PublicKey(k.client))),
             remotePublicKey := Some(PublicKey(k.client)),
             remoteNonce := Some(k.clientNonce),
             remoteEphemeral := Some(PublicKey(k.clientEphemeral)),
             ephemeralShared := Some(p.dh(k.clientEphemeral, k.serverEphemeral))),
           Ok(p.IdOf(PublicKey(k.client))))
  {
    p.IdRoundTrip(PublicKey(k.server));
    p.IdRoundTrip(PublicKey(k.client));
    var id := p.IdOf(PublicKey(k.client));
    var msg: H256 := Xor(p.Ecdh(PublicKey(k.server), k.client), k.clientNonce);
    var signature := p.sign(k.clientEphemeral, msg);
    var plain := p.authToRlp(signature, id, k.clientNonce) + Zeros(padding);
    assert p.ParsesAuth(signature, id, k.clientNonce, padding);
    DecryptEncrypt(p, k.server, r, plain);
    assert p.authFromRlp(plain) == AuthItems(Some(signature), Some(id), Some(k.clientNonce));
    p.SharedSecret(k.server, k.client);
    p.Recovered(k.clientEphemeral, msg);
  }

  /** The endpoints the handshake ends in. */
  ghost predicate InStep(client: Endpoint, server: Endpoint) {
    && client.ingress.Some? && client.egress.Some?
    && client.egress == server.ingress
    && client.ingress == server.egress
    && client.ephemeralShared == server.ephemeralShared
  }

  /** The client reads the ack; both ends then hold the same secrets and mirrored MAC histories. */
  lemma ClientReadsAck(p: Primitives, k: Keys, r: Random, padding: nat, r': Random)
    requires p.Lawful() && 100 <= padding <= 300
    ensures k.Client(p).Ok?
    ensures
      var auth := WriteAuth(p, k.Client(p).value, r, padding);
      auth.result.Ok? &&
      var ack := WriteAck(p, ReadAuth(p, k.Server(), auth.result.value).endpoint, r');
      && ack.result.Ok?
      && |ack.result.value| == 2 + Primitives.ACK_LEN + OVERHEAD
      && ack.result.value[..2] == U16(|ack.result.value| - 2)
      && var done := ReadAck(p, auth.endpoint, ack.result.value);
      && done.result.Ok?
      && InStep(done.endpoint, ack.endpoint)
      && done.endpoint.bodySize == ack.endpoint.bodySize == None
      && ack.endpoint.remoteId == Some(p.IdOf(PublicKey(k.client)))
  {
    ServerReadsAuth(p, k, r, padding);
    var auth := WriteAuth(p, k.Client(p).value, r, padding);
    var server := ReadAuth(p, k.Server(), auth.result.value).endpoint;
    var ephemeralId := p.IdOf(PublicKey(k.serverEphemeral));
    assert p.ParsesAck(ephemeralId, k.serverNonce);
    var plain := p.ackToRlp(ephemeralId, k.serverNonce);
    DecryptEncrypt(p, k.client, r', plain);
    p.IdRoundTrip(PublicKey(k.serverEphemeral));
    p.SharedSecret(k.clientEphemeral, k.serverEphemeral);
    var ack := WriteAck(p, server, r');
    assert server.initMsg.None? && ack.endpoint.initMsg == Some(ack.result.value);
  }
}
