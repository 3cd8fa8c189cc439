/** Foreign primitives as parameters: every theorem holds for all functions that obey the laws below. */
module Crypto {
  import opened Bytes
  import opened Wrappers

  datatype Error = TagCheckFailed | InvalidAuthData | BadKey | BadSignature | BadRlp | Panic

  datatype Result<+T> = Ok(value: T) | Err(error: Error)

  type SecretKey = H256

  /** A public key is known by the secret key it belongs to. */
  datatype PublicKey = PublicKey(secret: SecretKey)

  type KeyBytes = s: Buffer | |s| == 65 witness seq(65, _ => 0)
  type SigBytes = s: Buffer | |s| == 65 witness seq(65, _ => 0)

  /** The first three items of an auth list, each absent if it is missing or malformed; later ones are ignored (EIP-8). */
  datatype AuthItems = AuthItems(signature: Option<Buffer>, id: Option<PeerId>, nonce: Option<H256>)

  /** The first two items of an ack list. */
  datatype AckItems = AckItems(ephemeral: Option<PeerId>, nonce: Option<H256>)

  datatype Primitives = Primitives(
    keccak: Buffer -> H256,
    sha256: Buffer -> H256,
    /** HMAC-SHA-256 of a key over the concatenated input */
    hmac: (Buffer, Buffer) -> H256,
    /** Keystream byte of AES-256-CTR with a zero initial vector */
    ctr256: (H256, nat) -> byte,
    /** Keystream byte of AES-128-CTR for a key and an initial vector */
    ctr128: (H128, H128, nat) -> byte,
    /** One block of AES-256-ECB */
    ecb: (H256, H128) -> H128,
    /** The x coordinate shared by two secret scalars */
    dh: (SecretKey, SecretKey) -> H256,
    sign: (SecretKey, H256) -> SigBytes,
    /** Whether 65 bytes are a compact signature with a recovery id */
    signatureParses: Buffer -> bool,
    recover: (H256, Buffer) -> Option<PublicKey>,
    keyToBytes: PublicKey -> KeyBytes,
    keyFromBytes: Buffer -> Option<PublicKey>,
    authToRlp: (SigBytes, PeerId, H256) -> Buffer,
    authFromRlp: Buffer -> AuthItems,
    ackToRlp: (PeerId, H256) -> Buffer,
    ackFromRlp: Buffer -> AckItems
  ) {
    /** Length of an auth list: items of 67, 66, 33 and 1 bytes behind a two-byte list header. */
    static const AUTH_LEN: nat := 169
    /** Length of an ack list: items of 66, 33 and 1 bytes behind a two-byte list header. */
    static const ACK_LEN: nat := 102

    ghost predicate AgreesOn(a: SecretKey, b: SecretKey) {
      dh(a, b) == dh(b, a)
    }

    ghost predicate RecoversSigner(key: SecretKey, message: H256) {
      signatureParses(sign(key, message)) && recover(message, sign(key, message)) == Some(PublicKey(key))
    }

    ghost predicate ParsesKey(key: PublicKey) {
      keyToBytes(key)[0] == 4 && keyFromBytes(keyToBytes(key)) == Some(key)
    }

    /** The list parser ignores what follows the list, so padding does not change what is read. */
    ghost predicate ParsesAuth(s: SigBytes, id: PeerId, nonce: H256, padding: nat) {
      && |authToRlp(s, id, nonce)| == AUTH_LEN
      && authFromRlp(authToRlp(s, id, nonce) + Zeros(padding)) == AuthItems(Some(s), Some(id), Some(nonce))
    }

    ghost predicate ParsesAck(id: PeerId, nonce: H256) {
      |ackToRlp(id, nonce)| == ACK_LEN && ackFromRlp(ackToRlp(id, nonce)) == AckItems(Some(id), Some(nonce))
    }

    ghost predicate Lawful() {
      && (forall a, b :: AgreesOn(a, b))
      && (forall key, message :: RecoversSigner(key, message))
      && (forall key :: ParsesKey(key))
      && (forall s, id, nonce, padding: nat :: ParsesAuth(s, id, nonce, padding))
      && (forall id, nonce :: ParsesAck(id, nonce))
    }

    /** `ecdh_x`: the shared x coordinate of a public and a secret key. */
    function Ecdh(public: PublicKey, secret: SecretKey): H256 {
      dh(public.secret, secret)
    }

    /** `pk2id`: the uncompressed key without its leading tag byte. */
    function IdOf(key: PublicKey): PeerId {
      keyToBytes(key)[1..]
    }

    /** `id2pk`: put the tag byte back and parse. */
    function KeyOf(id: PeerId): Option<PublicKey> {
      keyFromBytes([4] + id)
    }

    lemma IdRoundTrip(key: PublicKey)
      requires Lawful()
      ensures KeyOf(IdOf(key)) == Some(key)
    {
      assert ParsesKey(key);
      assert [4] + IdOf(key) == keyToBytes(key);
    }

    lemma SharedSecret(a: SecretKey, b: SecretKey)
      requires Lawful()
      ensures Ecdh(PublicKey(a), b) == Ecdh(PublicKey(b), a)
    {
      assert AgreesOn(a, b);
    }

    lemma Recovered(key: SecretKey, message: H256)
      requires Lawful()
      ensures signatureParses(sign(key, message)) && recover(message, sign(key, message)) == Some(PublicKey(key))
    {
      assert RecoversSigner(key, message);
    }
  }

  /** The laws are consistent: an instance that obeys them all. */
  lemma LawsAreConsistent() returns (p: Primitives)
    ensures p.Lawful()
  {
    var zero: H256 := Zeros(32);
    var block: H128 := Zeros(16);
    p := Primitives(
      _ => zero, _ => zero, (_, _) => zero, (_, _) => 0, (_, _, _) => 0, (_, _) => block, (_, _) => zero,
      ToySign, _ => true, ToyRecover, ToyKey, ToyParseKey, ToyAuth, ToyParseAuth, ToyAck, ToyParseAck);
    forall key: PublicKey ensures p.ParsesKey(key) {
      assert ToyKey(key)[1..33] == key.secret;
    }
    forall key: SecretKey, message: H256 ensures p.RecoversSigner(key, message) {
      assert ToySign(key, message)[..32] == key;
    }
    forall s: SigBytes, id, nonce, padding: nat ensures p.ParsesAuth(s, id, nonce, padding) {
      var d := ToyAuth(s, id, nonce) + Zeros(padding);
      assert d[..65] == s && d[65..129] == id && d[129..161] == nonce;
    }
    forall id, nonce ensures p.ParsesAck(id, nonce) {
      var d := ToyAck(id, nonce);
      assert d[..64] == id && d[64..96] == nonce;
    }
  }

  function ToySign(key: SecretKey, message: H256): SigBytes { key + Zeros(33) }
  function ToyRecover(message: H256, s: Buffer): Option<PublicKey> { if |s| < 32 then None else Some(PublicKey(s[..32])) }
  function ToyKey(key: PublicKey): KeyBytes { [4] + key.secret + Zeros(32) }
  function ToyParseKey(s: Buffer): Option<PublicKey> { if |s| < 33 then None else Some(PublicKey(s[1..33])) }
  function ToyAuth(s: SigBytes, id: PeerId, nonce: H256): Buffer { s + id + nonce + Zeros(8) }
  function ToyParseAuth(d: Buffer): AuthItems {
    if |d| < 161 then AuthItems(None, None, None) else AuthItems(Some(d[..65]), Some(d[65..129]), Some(d[129..161]))
  }
  function ToyAck(id: PeerId, nonce: H256): Buffer { id + nonce + Zeros(6) }
  function ToyParseAck(d: Buffer): AckItems {
    if |d| < 96 then AckItems(None, None) else AckItems(Some(d[..64]), Some(d[64..96]))
  }
}
