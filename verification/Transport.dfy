/** The transport's objects: the running MAC, the ECIES endpoint and its codec, updated in place. */
module Transport {
  import opened Bytes
  import opened Wrappers
  import opened Crypto
  import opened Framing
  import opened Handshake
  import opened Spec = Codec

  /** The running MAC; `hasher` holds everything Keccak has absorbed. */
  class Mac {
    const p: Primitives
    const secret: H256
    var hasher: Buffer

    ghost function State(): MacState
      reads this
    {
      MacState(secret, hasher)
    }

    constructor (p: Primitives, state: MacState)
      ensures this.p == p && State() == state
    {
      this.p := p;
      secret := state.secret;
      hasher := state.absorbed;
    }

    method Update(data: Buffer)
      modifies this
      ensures State() == old(State()).Absorb(data)
    {
      hasher := hasher + data;
    }

    method UpdateHeader(data: H128)
      modifies this
      ensures State() == old(State()).AbsorbHeader(p, data)
    {
      var prev := Digest();
      var block := p.ecb(secret, prev);
      var encrypted := new byte[16](i requires 0 <= i < 16 => block[i]);
      for i := 0 to 16
        modifies encrypted
        invariant forall j :: 0 <= j < i ==> encrypted[j] == XorByte(block[j], data[j])
        invariant forall j :: i <= j < 16 ==> encrypted[j] == block[j]
      {
        encrypted[i] := XorByte(encrypted[i], data[i]);
      }
      ghost var before := State();
      assert before == old(State()) && prev == before.Digest(p);
      assert encrypted[..] == Xor(block, data);
      hasher := hasher + encrypted[..];
      assert State() == before.Absorb(Xor(block, data));
    }

    method UpdateBody(data: Buffer)
      modifies this
      ensures State() == old(State()).AbsorbBody(p, data)
    {
      hasher := hasher + data;
      var prev := Digest();
      var block := p.ecb(secret, prev);
      var encrypted := new byte[16](i requires 0 <= i < 16 => block[i]);
      for i := 0 to 16
        modifies encrypted
        invariant forall j :: 0 <= j < i ==> encrypted[j] == XorByte(block[j], prev[j])
        invariant forall j :: i <= j < 16 ==> encrypted[j] == block[j]
      {
        encrypted[i] := XorByte(encrypted[i], prev[i]);
      }
      ghost var mid := State();
      assert mid == old(State()).Absorb(data) && prev == mid.Digest(p);
      assert encrypted[..] == Xor(block, prev);
      hasher := hasher + encrypted[..];
      assert State() == mid.Absorb(Xor(block, prev));
    }

    method Digest() returns (d: H128)
      ensures d == State().Digest(p)
    {
      d := p.keccak(hasher)[..16];
    }
  }

  /** One endpoint; the buffers it fills are returned, and a failing `unwrap` is an error result. */
  class Ecies {
    const p: Primitives
    const secretKey: SecretKey
    const ephemeralKey: SecretKey
    const nonce: H256
    var remotePublicKey: Option<PublicKey>
    var remoteId: Option<PeerId>
    var ephemeralShared: Option<H256>
    var remoteEphemeral: Option<PublicKey>
    var remoteNonce: Option<H256>
    var ingress: Option<Half>
    var egress: Option<Half>
    var initMsg: Option<Buffer>
    var remoteInitMsg: Option<Buffer>
    var bodySize: Option<nat>

    ghost function Value(): Endpoint
      reads this
    {
      Endpoint(secretKey, remotePublicKey, remoteId, ephemeralKey, ephemeralShared, remoteEphemeral, nonce,
               remoteNonce, ingress, egress, initMsg, remoteInitMsg, bodySize)
    }

    constructor (p: Primitives, e: Endpoint)
      ensures this.p == p && Value() == e
    {
      this.p := p;
      secretKey, ephemeralKey, nonce := e.secretKey, e.ephemeralKey, e.nonce;
      remotePublicKey, remoteId, remoteNonce := e.remotePublicKey, e.remoteId, e.remoteNonce;
      ephemeralShared, remoteEphemeral := e.ephemeralShared, e.remoteEphemeral;
      ingress, egress, initMsg, remoteInitMsg := e.ingress, e.egress, e.initMsg, e.remoteInitMsg;
      bodySize := e.bodySize;
    }

    /** `encrypt_message` for a recipient. */
    method EncryptMessage(to: PublicKey, r: Random, data: Buffer) returns (out: Result<Buffer>)
      ensures out == Encrypt(p, to, r, data)
    {
      var enc, mac := DeriveKeys(p, p.Ecdh(to, r.key));
      var encrypted := Crypt128(p, enc, r.iv, data);
      var totalSize := 65 + 16 + |data| + 32;
      if totalSize >= 0x1_0000 { return Err(Panic); }
      var tag := p.hmac(mac, r.iv + encrypted + U16(totalSize));
      return Ok(p.keyToBytes(PublicKey(r.key)) + r.iv + encrypted + tag);
    }

    /** `decrypt_message`: the two length bytes in front are authenticated with the rest. */
    method DecryptMessage(data: Buffer) returns (plain: Result<Buffer>)
      ensures plain == Decrypt(p, secretKey, data)
    {
      if |data| < 2 + 65 { return Err(Panic); }
      var key := p.keyFromBytes(data[2..67]);
      if key.None? { return Err(BadKey); }
      var rest := data[67..];
      if |rest| < 32 + 16 { return Err(Panic); }
      var iv: H128 := rest[..16];
      var encrypted := rest[16..|rest| - 32];
      var enc, mac := DeriveKeys(p, p.Ecdh(key.value, secretKey));
      if p.hmac(mac, iv + encrypted + data[..2]) != rest[|rest| - 32..] { return Err(TagCheckFailed); }
      return Ok(Crypt128(p, enc, iv, encrypted));
    }

    method WriteAuth(r: Random, padding: nat) returns (out: Result<Buffer>)
      requires 100 <= padding <= 300
      modifies this
      ensures Step(Value(), out) == Handshake.WriteAuth(p, old(Value()), r, padding)
    {
      hide Encrypt;
      if remotePublicKey.None? { return Err(Panic); }
      var key := remotePublicKey.value;
      var msg: H256 := Xor(p.Ecdh(key, secretKey), nonce);
      var signature := p.sign(ephemeralKey, msg);
      var plain := p.authToRlp(signature, p.IdOf(PublicKey(secretKey)), nonce) + Zeros(padding);
      out := EncryptMessage(key, r, plain);
      if out.Err? { return; }
      out := Ok(U16(|out.value|) + out.value);
      initMsg := Some(out.value);
    }

    method ReadAuth(data: Buffer) returns (out: Result<PeerId>)
      modifies this
      ensures Step(Value(), out) == Handshake.ReadAuth(p, old(Value()), data)
    {
      hide Decrypt;
      remoteInitMsg := Some(data);
      var plain := DecryptMessage(data);
      if plain.Err? { return Err(plain.error); }
      out := ParseAuth(p.authFromRlp(plain.value));
    }

    method ParseAuth(items: AuthItems) returns (out: Result<PeerId>)
      modifies this
      ensures Step(Value(), out) == AdoptAuth(p, old(Value()), items)
    {
      if items.signature.None? { return Err(BadRlp); }
      if |items.signature.value| != 65 { return Err(InvalidAuthData); }
      if !p.signatureParses(items.signature.value) { return Err(BadSignature); }
      if items.id.None? { return Err(BadRlp); }
      remoteId := items.id;
      var key := p.KeyOf(items.id.value);
      if key.None? { return Err(BadKey); }
      remotePublicKey := key;
      if items.nonce.None? { return Err(BadRlp); }
      remoteNonce := items.nonce;
      var msg: H256 := Xor(p.Ecdh(key.value, secretKey), items.nonce.value);
      var ephemeral := p.recover(msg, items.signature.value);
      if ephemeral.None? { return Err(BadSignature); }
      remoteEphemeral := ephemeral;
      ephemeralShared := Some(p.Ecdh(ephemeral.value, ephemeralKey));
      out := Ok(items.id.value);
    }

    method SetupFrame(incoming: bool) returns (out: Result<()>)
      modifies this
      ensures Step(Value(), out) == Handshake.SetupFrame(p, old(Value()), incoming)
    {
      if remoteNonce.None? || ephemeralShared.None? || initMsg.None? || remoteInitMsg.None? { return Err(Panic); }
      var hNonce := if incoming then p.keccak(nonce + remoteNonce.value) else p.keccak(remoteNonce.value + nonce);
      var shared := p.keccak(ephemeralShared.value + hNonce);
      var aes := p.keccak(ephemeralShared.value + shared);
      var secret := p.keccak(ephemeralShared.value + aes);
      var ingressMac := new Mac(p, MacState(secret, []));
      ingressMac.Update(Xor(secret, nonce));
      ingressMac.Update(remoteInitMsg.value);
      var egressMac := new Mac(p, MacState(secret, []));
      egressMac.Update(Xor(secret, remoteNonce.value));
      egressMac.Update(initMsg.value);
      assert ingressMac.hasher == Xor(secret, nonce) + remoteInitMsg.value;
      assert egressMac.hasher == Xor(secret, remoteNonce.value) + initMsg.value;
      ingress := Some(Half(aes, 0, MacState(secret, ingressMac.hasher)));
      egress := Some(Half(aes, 0, MacState(secret, egressMac.hasher)));
      out := Ok(());
    }

    method WriteAck(r: Random) returns (out: Result<Buffer>)
      modifies this
      ensures Step(Value(), out) == Handshake.WriteAck(p, old(Value()), r)
    {
      hide Encrypt, Handshake.SetupFrame;
      if remotePublicKey.None? { return Err(Panic); }
      out := EncryptMessage(remotePublicKey.value, r, p.ackToRlp(p.IdOf(PublicKey(ephemeralKey)), nonce));
      if out.Err? { return; }
      out := Ok(U16(|out.value|) + out.value);
      initMsg := Some(out.value);
      var done := SetupFrame(true);
      if done.Err? { out := Err(done.error); }
    }

    method ReadAck(data: Buffer) returns (out: Result<()>)
      modifies this
      ensures Step(Value(), out) == Handshake.ReadAck(p, old(Value()), data)
    {
      hide Decrypt, Handshake.SetupFrame;
      remoteInitMsg := Some(data);
      var plain := DecryptMessage(data);
      if plain.Err? { return Err(plain.error); }
      out := ParseAck(p.ackFromRlp(plain.value));
      if out.Err? { return; }
      out := SetupFrame(false);
    }

    method ParseAck(items: AckItems) returns (out: Result<()>)
      modifies this
      ensures Step(Value(), out) == AdoptAck(p, old(Value()), items)
    {
      if items.ephemeral.None? { return Err(BadRlp); }
      var key := p.KeyOf(items.ephemeral.value);
      if key.None? { return Err(BadKey); }
      remoteEphemeral := key;
      if items.nonce.None? { return Err(BadRlp); }
      remoteNonce := items.nonce;
      ephemeralShared := Some(p.Ecdh(key.value, ephemeralKey));
      return Ok(());
    }

    /** Aborts on a size of more than three bytes, and before the session keys are set. */
    method WriteHeader(size: nat) returns (out: Result<Buffer>)
      modifies this
      ensures
        if size >= MAX_FRAME || old(egress).None? then out == Err(Panic) && Value() == old(Value())
        else
          var s := SealHeader(p, old(egress.value), size);
          out == Ok(s.bytes) && Value() == old(Value()).(egress := Some(s.half))
    {
      if size >= MAX_FRAME || egress.None? { return Err(Panic); }
      var half := egress.value;
      var header: H128 := half.Crypt(p, HeaderPlain(size));
      var mac := new Mac(p, half.mac);
      mac.UpdateHeader(header);
      var tag := mac.Digest();
      egress := Some(Half(half.key, half.position + 16, MacState(mac.secret, mac.hasher)));
      out := Ok(header + tag);
    }

    method WriteBody(data: Buffer) returns (out: Buffer)
      requires egress.Some?
      modifies this
      ensures
        var s := SealBody(p, old(egress.value), data);
        out == s.bytes && Value() == old(Value()).(egress := Some(s.half))
    {
      var half := egress.value;
      var encrypted := half.Crypt(p, data + Zeros(Padded(|data|) - |data|));
      var mac := new Mac(p, half.mac);
      mac.UpdateBody(encrypted);
      var tag := mac.Digest();
      egress := Some(Half(half.key, half.position + |encrypted|, MacState(mac.secret, mac.hasher)));
      out := encrypted + tag;
    }

    method ReadHeader(data: Buffer) returns (out: Result<nat>)
      requires |data| == HEADER_LEN
      modifies this
      ensures Step(Value(), out) == Spec.ReadHeader(p, old(Value()), data)
    {
      if ingress.None? { return Err(Panic); }
      var half := ingress.value;
      var header: H128 := data[..16];
      var mac := new Mac(p, half.mac);
      mac.UpdateHeader(header);
      ingress := Some(half.(mac := MacState(mac.secret, mac.hasher)));
      var check := mac.Digest();
      if check != data[16..] { return Err(TagCheckFailed); }
      ingress := Some(ingress.value.(position := half.position + 16));
      bodySize := Some(BigEndian(half.Crypt(p, header)[..3]));
      out := Ok(bodySize.value);
    }

    method ReadBody(data: Buffer) returns (out: Result<Buffer>)
      requires bodySize.Some? && |data| == BodyLen(bodySize.value)
      modifies this
      ensures Step(Value(), out) == Spec.ReadBody(p, old(Value()), data)
    {
      if ingress.None? { return Err(Panic); }
      var half := ingress.value;
      var body := data[..|data| - 16];
      var mac := new Mac(p, half.mac);
      mac.UpdateBody(body);
      ingress := Some(half.(mac := MacState(mac.secret, mac.hasher)));
      var check := mac.Digest();
      if check != data[|data| - 16..] { return Err(TagCheckFailed); }
      var size := bodySize.value;
      bodySize := None;
      ingress := Some(ingress.value.(position := half.position + |body|));
      out := Ok(half.Crypt(p, body)[..size]);
    }
  }

  /** The codec over an endpoint: its decoding loop consumes a buffer and moves between states. */
  class EciesCodec {
    const ecies: Ecies
    var state: State

    ghost function Value(): Codec
      reads this, ecies
    {
      Codec(ecies.Value(), state)
    }

    constructor (p: Primitives, c: Codec)
      ensures ecies.p == p && Value() == c && fresh(ecies)
    {
      ecies := new Ecies(p, c.ecies);
      state := c.state;
    }

    /** `decode`: loops until an item, an error, or the need for more bytes. */
    method Decode(buf: Buffer) returns (rest: Buffer, item: Result<Option<Ingress>>)
      modifies this, ecies
      ensures Decoded(Value(), rest, item) == Spec.Decode(ecies.p, old(Value()), buf)
    {
      rest := buf;
      while true
        invariant Spec.Decode(ecies.p, Value(), rest) == Spec.Decode(ecies.p, old(Value()), buf)
        decreases |rest|
      {
        match state
        case Auth =>
          var total := Prefixed(rest);
          if total.None? { return rest, Ok(None); }
          var r := ecies.ReadAuth(rest[..total.value]);
          rest := rest[total.value..];
          if r.Err? { return rest, Err(r.error); }
          state := Header;
          return rest, Ok(Some(AuthReceive(r.value)));
        case Ack =>
          var total := Prefixed(rest);
          if total.None? { return rest, Ok(None); }
          var r := ecies.ReadAck(rest[..total.value]);
          rest := rest[total.value..];
          if r.Err? { return rest, Err(r.error); }
          state := Header;
          return rest, Ok(Some(AckReceive));
        case Header =>
          if |rest| < HEADER_LEN { return rest, Ok(None); }
          var r := ecies.ReadHeader(rest[..HEADER_LEN]);
          rest := rest[HEADER_LEN..];
          if r.Err? { return rest, Err(r.error); }
          state := Body;
        case Body =>
          if ecies.bodySize.None? { return rest, Err(Panic); }
          var len := BodyLen(ecies.bodySize.value);
          if |rest| < len { return rest, Ok(None); }
          var r := ecies.ReadBody(rest[..len]);
          rest := rest[len..];
          if r.Err? { return rest, Err(r.error); }
          state := Header;
          return rest, Ok(Some(MessageReceive(r.value)));
      }
    }

    /** `encode`. */
    method Encode(item: Egress) returns (out: Result<Buffer>)
      requires item.EgressAuth? ==> 100 <= item.padding <= 300
      modifies this, ecies
      ensures (Value(), out) == Spec.Encode(ecies.p, old(Value()), item)
    {
      match item
      case EgressAuth(r, padding) =>
        state := Ack;
        out := ecies.WriteAuth(r, padding);
      case EgressAck(r) =>
        state := Header;
        out := ecies.WriteAck(r);
      case EgressMessage(data) =>
        var header := ecies.WriteHeader(|data|);
        if header.Err? { return header; }
        var body := ecies.WriteBody(data);
        out := Ok(header.value + body);
    }
  }
}
