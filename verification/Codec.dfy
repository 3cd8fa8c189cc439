/** The ECIES codec: an incremental decoder over an unbounded byte stream, and the encoder. */
module Codec {
  import opened Bytes
  import opened Wrappers
  import opened Crypto
  import opened Framing
  import opened Handshake

  datatype State = Auth | Ack | Header | Body

  datatype Egress = EgressAuth(random: Random, padding: nat) | EgressAck(random: Random) | EgressMessage(data: Buffer)

  datatype Ingress = AuthReceive(id: PeerId) | AckReceive | MessageReceive(data: Buffer)

  datatype Codec = Codec(ecies: Endpoint, state: State)

  /** What one call of `decode` leaves behind and returns. */
  datatype Decoded = Decoded(codec: Codec, rest: Buffer, item: Result<Option<Ingress>>)

  /** The end of the length-prefixed message at the front, if it has arrived. */
  function Prefixed(buf: Buffer): (n: Option<nat>)
    ensures n.Some? ==> 2 <= n.value <= |buf|
  {
    if |buf| < 2 then None
    else
      var total := BigEndian(buf[..2]) + 2;
      if |buf| < total then None else Some(total)
  }

  function DecodeAuth(p: Primitives, c: Codec, buf: Buffer): Decoded {
    match Prefixed(buf)
    case None => Decoded(c, buf, Ok(None))
    case Some(total) =>
      var s := ReadAuth(p, c.ecies, buf[..total]);
      match s.result
      case Err(e) => Decoded(c.(ecies := s.endpoint), buf[total..], Err(e))
      case Ok(id) => Decoded(Codec(s.endpoint, Header), buf[total..], Ok(Some(AuthReceive(id))))
  }

  function DecodeAck(p: Primitives, c: Codec, buf: Buffer): Decoded {
    match Prefixed(buf)
    case None => Decoded(c, buf, Ok(None))
    case Some(total) =>
      var s := ReadAck(p, c.ecies, buf[..total]);
      match s.result
      case Err(e) => Decoded(c.(ecies := s.endpoint), buf[total..], Err(e))
      case Ok(_) => Decoded(Codec(s.endpoint, Header), buf[total..], Ok(Some(AckReceive)))
  }

  /** `read_header` on an endpoint: aborts before the session keys are set. */
  function ReadHeader(p: Primitives, e: Endpoint, data: Buffer): Step<nat>
    requires |data| == HEADER_LEN
  {
    match e.ingress
    case None => Step(e, Err(Panic))
    case Some(half) =>
      var o := OpenHeader(p, half, data);
      match o.result
      case Err(error) => Step(e.(ingress := Some(o.half)), Err(error))
      case Ok(size) => Step(e.(ingress := Some(o.half), bodySize := Some(size)), Ok(size))
  }

  /** `read_body` on an endpoint whose size is known. */
  function ReadBody(p: Primitives, e: Endpoint, data: Buffer): Step<Buffer>
    requires e.bodySize.Some? && |data| == BodyLen(e.bodySize.value)
  {
    match e.ingress
    case None => Step(e, Err(Panic))
    case Some(half) =>
      var o := OpenBody(p, half, e.bodySize.value, data);
      match o.result
      case Err(error) => Step(e.(ingress := Some(o.half)), Err(error))
      case Ok(body) => Step(e.(ingress := Some(o.half), bodySize := None), Ok(body))
  }

  function DecodeBody(p: Primitives, c: Codec, buf: Buffer): Decoded {
    match c.ecies.bodySize
    case None => Decoded(c, buf, Err(Panic))
    case Some(size) =>
      var len := BodyLen(size);
      if |buf| < len then Decoded(c, buf, Ok(None))
      else
        var s := ReadBody(p, c.ecies, buf[..len]);
        match s.result
        case Err(e) => Decoded(c.(ecies := s.endpoint), buf[len..], Err(e))
        case Ok(data) => Decoded(Codec(s.endpoint, Header), buf[len..], Ok(Some(MessageReceive(data))))
  }

  /** A complete header moves the codec to Body and decoding goes on. */
  function DecodeHeader(p: Primitives, c: Codec, buf: Buffer): Decoded {
    if |buf| < HEADER_LEN then Decoded(c, buf, Ok(None))
    else
      var s := ReadHeader(p, c.ecies, buf[..HEADER_LEN]);
      match s.result
      case Err(e) => Decoded(c.(ecies := s.endpoint), buf[HEADER_LEN..], Err(e))
      case Ok(_) => DecodeBody(p, Codec(s.endpoint, Body), buf[HEADER_LEN..])
  }

  /** One call of `decode`. */
  function Decode(p: Primitives, c: Codec, buf: Buffer): (d: Decoded)
    ensures |d.rest| <= |buf|
    ensures d.item.Ok? && d.item.value.Some? ==> |d.rest| < |buf|
  {
    match c.state
    case Auth => DecodeAuth(p, c, buf)
    case Ack => DecodeAck(p, c, buf)
    case Header => DecodeHeader(p, c, buf)
    case Body => DecodeBody(p, c, buf)
  }

  /** `encode`; a message too long for the three-byte size field aborts. */
  function Encode(p: Primitives, c: Codec, item: Egress): (Codec, Result<Buffer>)
    requires item.EgressAuth? ==> 100 <= item.padding <= 300
  {
    match item
    case EgressAuth(r, padding) =>
      var s := WriteAuth(p, c.ecies, r, padding);
      (Codec(s.endpoint, Ack), s.result)
    case EgressAck(r) =>
      var s := WriteAck(p, c.ecies, r);
      (Codec(s.endpoint, Header), s.result)
    case EgressMessage(data) =>
      match c.ecies.egress
      case None => (c, Err(Panic))
      case Some(half) =>
        if |data| >= MAX_FRAME then (c, Err(Panic)) else
        var s := SealFrame(p, half, data);
        (c.(ecies := c.ecies.(egress := Some(s.half))), Ok(s.bytes))
  }

  /** A message is sealed if the session keys are set and it is below 2^24 bytes; otherwise encoding aborts. */
  lemma MessageEncodesIff(p: Primitives, c: Codec, data: Buffer)
    ensures Encode(p, c, EgressMessage(data)) ==
      if c.ecies.egress.Some? && |data| < 0x100_0000 then
        var frame := SealFrame(p, c.ecies.egress.value, data);
        (c.(ecies := c.ecies.(egress := Some(frame.half))), Ok(frame.bytes))
      else (c, Err(Panic))
  {
  }

  /** Decoding a header before the session keys are set, or a body of unknown size, aborts. */
  lemma DecodeAborts(p: Primitives, c: Codec, buf: Buffer)
    ensures c.state == Header && c.ecies.ingress.None? && |buf| >= 32 ==> Decode(p, c, buf).item == Err(Panic)
    ensures c.state == Body && c.ecies.bodySize.None? ==> Decode(p, c, buf).item == Err(Panic)
    ensures c.state == Body && c.ecies.ingress.None? && c.ecies.bodySize.Some? && |buf| >= BodyLen(c.ecies.bodySize.value)
      ==> Decode(p, c, buf).item == Err(Panic)
  {
  }

  // Chunk independence

  /** More bytes behind a complete message do not change what is decoded from it. */
  lemma PrefixedExtends(a: Buffer, b: Buffer)
    requires Prefixed(a).Some?
    ensures Prefixed(a + b) == Prefixed(a)
    ensures (a + b)[..Prefixed(a).value] == a[..Prefixed(a).value]
    ensures (a + b)[Prefixed(a).value..] == a[Prefixed(a).value..] + b
  {
    assert (a + b)[..2] == a[..2];
  }

  lemma BodyExtends(p: Primitives, c: Codec, a: Buffer, b: Buffer)
    ensures
      var d := DecodeBody(p, c, a);
      d.item != Ok(None) ==> DecodeBody(p, c, a + b) == d.(rest := d.rest + b)
    ensures DecodeBody(p, c, a).item == Ok(None) ==> DecodeBody(p, c, a) == Decoded(c, a, Ok(None))
  {
    if c.ecies.bodySize.Some? {
      var len := BodyLen(c.ecies.bodySize.value);
      if len <= |a| {
        assert (a + b)[..len] == a[..len] && (a + b)[len..] == a[len..] + b;
      }
    }
  }

  /**
   * A call that returns an item or an error decides it from the bytes it has; a call that wants more
   * leaves a codec and a rest from which decoding resumes as if the bytes had come together.
   */
  lemma DecodeExtends(p: Primitives, c: Codec, a: Buffer, b: Buffer)
    ensures
      var d := Decode(p, c, a);
      Decode(p, c, a + b) ==
        if d.item == Ok(None) then Decode(p, d.codec, d.rest + b) else d.(rest := d.rest + b)
    ensures
      var d := Decode(p, c, a);
      d.item == Ok(None) ==> Decode(p, d.codec, d.rest) == d
  {
    match c.state
    case Auth => if Prefixed(a).Some? { PrefixedExtends(a, b); }
    case Ack => if Prefixed(a).Some? { PrefixedExtends(a, b); }
    case Body => BodyExtends(p, c, a, b);
    case Header =>
      if HEADER_LEN <= |a| {
        assert (a + b)[..HEADER_LEN] == a[..HEADER_LEN];
        assert (a + b)[HEADER_LEN..] == a[HEADER_LEN..] + b;
        var s := ReadHeader(p, c.ecies, a[..HEADER_LEN]);
        if s.result.Ok? {
          BodyExtends(p, Codec(s.endpoint, Body), a[HEADER_LEN..], b);
        }
      }
  }

  /** A reader between polls: what it has decoded, and the codec with its undecoded rest unless it failed. */
  datatype Reader = Live(codec: Codec, rest: Buffer, items: seq<Ingress>) | Failed(error: Error, items: seq<Ingress>)

  /** Repeated calls of `decode` until more bytes are needed or an error is met. */
  function Drain(p: Primitives, c: Codec, buf: Buffer, items: seq<Ingress>): Reader
    decreases |buf|
  {
    var d := Decode(p, c, buf);
    match d.item
    case Err(e) => Failed(e, items)
    case Ok(None) => Live(d.codec, d.rest, items)
    case Ok(Some(item)) => Drain(p, d.codec, d.rest, items + [item])
  }

  function Feed(p: Primitives, r: Reader, chunk: Buffer): Reader {
    match r
    case Failed(_, _) => r
    case Live(c, rest, items) => Drain(p, c, rest + chunk, items)
  }

  function FeedAll(p: Primitives, r: Reader, chunks: seq<Buffer>): Reader
    decreases |chunks|
  {
    if chunks == [] then r else FeedAll(p, Feed(p, r, chunks[0]), chunks[1..])
  }

  function Concat(chunks: seq<Buffer>): Buffer {
    if chunks == [] then [] else chunks[0] + Concat(chunks[1..])
  }

  lemma {:induction false} DrainExtends(p: Primitives, c: Codec, a: Buffer, b: Buffer, items: seq<Ingress>)
    ensures Drain(p, c, a + b, items) == Feed(p, Drain(p, c, a, items), b)
    decreases |a|
  {
    DecodeExtends(p, c, a, b);
    var d := Decode(p, c, a);
    if d.item.Ok? && d.item.value.Some? {
      DrainExtends(p, d.codec, d.rest, b, items + [d.item.value.value]);
    }
  }

  /** Feeding two chunks is feeding their concatenation. */
  lemma FeedJoins(p: Primitives, r: Reader, a: Buffer, b: Buffer)
    ensures Feed(p, Feed(p, r, a), b) == Feed(p, r, a + b)
  {
    hide Drain;
    if r.Live? {
      DrainExtends(p, r.codec, r.rest + a, b, r.items);
      assert r.rest + a + b == r.rest + (a + b);
    }
  }

  /** Decoding does not depend on how a byte stream is cut: any chunks give what one chunk gives. */
  lemma {:induction false} ChunkIndependence(p: Primitives, r: Reader, chunks: seq<Buffer>)
    ensures FeedAll(p, Feed(p, r, []), chunks) == Feed(p, r, Concat(chunks))
    decreases |chunks|
  {
    if chunks != [] {
      var head := chunks[0];
      FeedJoins(p, r, [], head);
      assert [] + head == head;
      FeedJoins(p, r, head, []);
      assert head + [] == head;
      ChunkIndependence(p, Feed(p, r, head), chunks[1..]);
      FeedJoins(p, r, head, Concat(chunks[1..]));
    }
  }
}
