/** One direction of an established session: cipher position and MAC history, sealing and opening frames. */
module Framing {
  import opened Bytes
  import opened Wrappers
  import opened Crypto

  const HEADER_LEN: nat := 32
  const MAX_FRAME: nat := 0x100_0000

  /** What the MAC has absorbed so far, under its secret. */
  datatype MacState = MacState(secret: H256, absorbed: Buffer) {
    /** The first half of Keccak over everything absorbed. */
    function Digest(p: Primitives): H128 {
      p.keccak(absorbed)[..16]
    }

    function Absorb(data: Buffer): MacState {
      this.(absorbed := absorbed + data)
    }

    function AbsorbHeader(p: Primitives, header: H128): MacState {
      Absorb(Xor(p.ecb(secret, Digest(p)), header))
    }

    function AbsorbBody(p: Primitives, data: Buffer): MacState {
      var mid := Absorb(data);
      var prev := mid.Digest(p);
      mid.Absorb(Xor(p.ecb(secret, prev), prev))
    }
  }

  /** One direction: the AES-CTR key and position next to the MAC of the same direction. */
  datatype Half = Half(key: H256, position: nat, mac: MacState) {
    /** AES-CTR in either direction: exclusive-or with the keystream from the current position. */
    function Crypt(p: Primitives, data: Buffer): (r: Buffer)
      ensures |r| == |data|
    {
      seq(|data|, i requires 0 <= i < |data| => XorByte(data[i], p.ctr256(key, position + i)))
    }

    lemma CryptInvolution(p: Primitives, data: Buffer)
      ensures Crypt(p, Crypt(p, data)) == data
    {
      forall i | 0 <= i < |data| ensures Crypt(p, Crypt(p, data))[i] == data[i] {
        XorByteLaws(data[i], p.ctr256(key, position + i));
      }
    }
  }

  datatype Sealed = Sealed(half: Half, bytes: Buffer)
  datatype Opened<+T> = Opened(half: Half, result: Result<T>)

  function HeaderPlain(size: nat): (h: H128)
    requires size < MAX_FRAME
  {
    U24(size) + [194, 128, 128] + Zeros(10)
  }

  function Padded(len: nat): (r: nat)
    ensures len <= r < len + 16 && r % 16 == 0
  {
    if len % 16 == 0 then len else (len / 16 + 1) * 16
  }

  /** A header with its tag. */
  function SealPlain(p: Primitives, h: Half, plain: H128): (s: Sealed)
    ensures |s.bytes| == HEADER_LEN
  {
    var header: H128 := h.Crypt(p, plain);
    var mac := h.mac.AbsorbHeader(p, header);
    Sealed(Half(h.key, h.position + 16, mac), header + mac.Digest(p))
  }

  /** `write_header` for a body of `size` bytes. */
  function SealHeader(p: Primitives, h: Half, size: nat): (s: Sealed)
    requires size < MAX_FRAME
    ensures |s.bytes| == HEADER_LEN
  {
    SealPlain(p, h, HeaderPlain(size))
  }

  /** `read_header` on 32 bytes: the MAC absorbs the header even when the check then fails. */
  function OpenHeader(p: Primitives, h: Half, data: Buffer): Opened<nat>
    requires |data| == HEADER_LEN
  {
    var header: H128 := data[..16];
    var mac := h.mac.AbsorbHeader(p, header);
    if mac.Digest(p) != data[16..] then
      Opened(h.(mac := mac), Err(TagCheckFailed))
    else
      Opened(Half(h.key, h.position + 16, mac), Ok(BigEndian(h.Crypt(p, header)[..3])))
  }

  /** `body_len` for a declared size. */
  function BodyLen(size: nat): nat {
    Padded(size) + 16
  }

  /** `write_body`. */
  function SealBody(p: Primitives, h: Half, data: Buffer): (s: Sealed)
    ensures |s.bytes| == BodyLen(|data|)
  {
    var encrypted := h.Crypt(p, data + Zeros(Padded(|data|) - |data|));
    var mac := h.mac.AbsorbBody(p, encrypted);
    Sealed(Half(h.key, h.position + |encrypted|, mac), encrypted + mac.Digest(p))
  }

  /** `read_body` for a declared size no longer than the body. */
  function OpenBody(p: Primitives, h: Half, size: nat, data: Buffer): Opened<Buffer>
    requires |data| == BodyLen(size)
  {
    var body := data[..|data| - 16];
    var mac := h.mac.AbsorbBody(p, body);
    if mac.Digest(p) != data[|data| - 16..] then
      Opened(h.(mac := mac), Err(TagCheckFailed))
    else
      Opened(Half(h.key, h.position + |body|, mac), Ok(h.Crypt(p, body)[..size]))
  }

  /** A receiver in step with the sender opens the header, reads its size and is in step again. */
  lemma HeaderRoundTrip(p: Primitives, h: Half, size: nat)
    requires size < MAX_FRAME
    ensures OpenHeader(p, h, SealHeader(p, h, size).bytes) == Opened(SealHeader(p, h, size).half, Ok(size))
  {
    var plain := HeaderPlain(size);
    var s := SealHeader(p, h, size);
    assert s.bytes[..16] == h.Crypt(p, plain);
    assert s.bytes[16..] == s.half.mac.Digest(p);
    h.CryptInvolution(p, plain);
    assert plain[..3] == U24(size);
    U24RoundTrip(size);
  }

  lemma BodyRoundTrip(p: Primitives, h: Half, data: Buffer)
    ensures OpenBody(p, h, |data|, SealBody(p, h, data).bytes) == Opened(SealBody(p, h, data).half, Ok(data))
  {
    var plain := data + Zeros(Padded(|data|) - |data|);
    var s := SealBody(p, h, data);
    assert s.bytes[..|s.bytes| - 16] == h.Crypt(p, plain);
    assert s.bytes[|s.bytes| - 16..] == s.half.mac.Digest(p);
    h.CryptInvolution(p, plain);
    assert plain[..|data|] == data;
  }

  /** A message short enough for the three-byte size field; a longer one aborts `write_header`. */
  type Message = m: Buffer | |m| < MAX_FRAME witness []

  /** `encode` of one message: header then body. */
  function SealFrame(p: Primitives, h: Half, data: Message): (s: Sealed) {
    var header := SealHeader(p, h, |data|);
    var body := SealBody(p, header.half, data);
    Sealed(body.half, header.bytes + body.bytes)
  }

  /** The bytes of a run of messages, each sealed from the state its predecessor leaves. */
  ghost function Chain(seal: (Half, Message) -> Sealed, h: Half, messages: seq<Message>): Sealed
    decreases |messages|
  {
    if messages == [] then Sealed(h, [])
    else
      var first := seal(h, messages[0]);
      var rest := Chain(seal, first.half, messages[1..]);
      Sealed(rest.half, first.bytes + rest.bytes)
  }

  lemma {:induction false} ChainSnoc(seal: (Half, Message) -> Sealed, h: Half, messages: seq<Message>, last: Message)
    ensures
      var before := Chain(seal, h, messages);
      var frame := seal(before.half, last);
      Chain(seal, h, messages + [last]) == Sealed(frame.half, before.bytes + frame.bytes)
    decreases |messages|
  {
    var all := messages + [last];
    if messages == [] {
      assert all[0] == last && all[1..] == [];
    } else {
      assert all[0] == messages[0] && all[1..] == messages[1..] + [last];
      ChainSnoc(seal, seal(h, messages[0]).half, messages[1..], last);
    }
  }

  ghost function Sealer(p: Primitives): (Half, Message) -> Sealed {
    (h: Half, m: Message) => SealFrame(p, h, m)
  }

  /** The bytes of a whole run of frames. */
  ghost function SealAll(p: Primitives, h: Half, messages: seq<Message>): (s: Sealed)
    ensures messages == [] ==> s == Sealed(h, [])
  {
    Chain(Sealer(p), h, messages)
  }

  /** A run is its first frame and the run of the rest. */
  lemma SealAllFirst(p: Primitives, h: Half, messages: seq<Message>)
    requires messages != []
    ensures
      var first := SealFrame(p, h, messages[0]);
      var rest := SealAll(p, first.half, messages[1..]);
      SealAll(p, h, messages) == Sealed(rest.half, first.bytes + rest.bytes)
  {
    hide SealFrame;
  }

  /** A run is the run of all but the last message and the frame of the last. */
  lemma SealAllLast(p: Primitives, h: Half, messages: seq<Message>, last: Message)
    ensures
      var before := SealAll(p, h, messages);
      var frame := SealFrame(p, before.half, last);
      SealAll(p, h, messages + [last]) == Sealed(frame.half, before.bytes + frame.bytes)
  {
    hide SealFrame;
    ChainSnoc(Sealer(p), h, messages, last);
  }
}
