/** The peer stream: messages to frames and back, and the latch that ends it. */
module PeerStream {
  import opened Bytes
  import opened Wrappers
  import opened Capabilities
  import opened Multiplexing
  import Framing

  const WORD: nat := 0x1_0000_0000_0000_0000
  const MAX_PAYLOAD_SIZE: nat := 16 * 1024 * 1024

  /** Longest input the compressor takes. */
  const MAX_COMPRESS_INPUT: nat := 0xFFFF_FFFF

  /** The room the compressor is given for an input of `n` bytes, which bounds its output. */
  function MaxCompressLen(n: nat): nat {
    32 + n + n / 6
  }

  /** Foreign payload functions; `disconnectReason` reads the first item of a list as a reason, if it can. */
  datatype Payloads = Payloads(
    compress: Buffer -> Buffer,
    decompressLen: Buffer -> Option<nat>,
    decompress: Buffer -> Option<Buffer>,
    disconnectReason: Buffer -> Option<byte>)
  {
    ghost predicate Compresses(d: Buffer) {
      && decompressLen(compress(d)) == Some(|d|) && decompress(compress(d)) == Some(d)
      && |compress(d)| <= MaxCompressLen(|d|)
    }

    /** A bare number is not a list, so no reason can be read from it. */
    ghost predicate ReadsLists() {
      forall reason: byte :: disconnectReason(RlpByte(reason)) == None
    }

    ghost predicate Lawful() {
      (forall d: Buffer :: Compresses(d)) && ReadsLists()
    }
  }

  datatype PeerMessage = Disconnect(reason: byte) | Ping | Pong | Subprotocol(name: Name, id: nat, data: Buffer)

  datatype Fault = Upstream | BrokenPipe | BadMessageId | BadPayload | PayloadTooBig | MalformedDisconnect | ReservedMessage | OutOfRange | Abort

  datatype Outcome<+T> = Fine(value: T) | Fails(fault: Fault)

  /** A number as one RLP item: empty string for zero, one byte below 0x80, length-prefixed above. */
  function RlpNumber(n: nat): (r: Buffer)
    ensures r != []
  {
    if n == 0 then [0x80]
    else if n < 0x80 then [LowByte(n)]
    else [LowByte(0x80 + |Digits(n)|)] + Digits(n)
  }

  /** The same for a single byte. */
  function RlpByte(b: byte): (r: Buffer)
    ensures 1 <= |r| <= 2
  {
    if b == 0 then [0x80] else if b < 0x80 then [b] else [0x81, b]
  }

  lemma RlpByteIsNumber(b: byte)
    ensures RlpNumber(b as nat) == RlpByte(b)
  {
    if b >= 0x80 {
      assert b as nat / 256 == 0 && Digits(0) == [];
      assert Digits(b as nat) == [LowByte(b as nat)] == [b];
    }
  }

  function Digits(n: nat): Buffer {
    if n == 0 then [] else Digits(n / 256) + [LowByte(n)]
  }

  function Pow256(k: nat): nat {
    if k == 0 then 1 else 256 * Pow256(k - 1)
  }

  lemma {:induction false} DigitsBound(n: nat, k: nat)
    requires n < Pow256(k)
    ensures |Digits(n)| <= k
    decreases k
  {
    if n != 0 {
      DigitsBound(n / 256, k - 1);
    }
  }

  /** Message ids are 64-bit numbers. */
  lemma WordDigits(n: nat)
    requires n < WORD
    ensures |Digits(n)| <= 8
  {
    assert Pow256(4) == 0x1_0000_0000;
    assert Pow256(8) == 256 * (256 * (256 * (256 * Pow256(4))));
    DigitsBound(n, 8);
  }

  /** A number read from a single RLP byte: longer items do not fit, and a zero byte is not canonical. */
  function NumberFromByte(b: byte): Option<nat> {
    if b == 0x80 then Some(0)
    else if b == 0 || b > 0x80 then None
    else Some(b as nat)
  }

  /** What one byte keeps of a number: itself below 0x80, nothing from there up to eight digits. */
  lemma FirstByte(n: nat)
    requires n < WORD
    ensures NumberFromByte(RlpNumber(n)[0]) == if n < 0x80 then Some(n) else None
  {
    if 0 < n < 0x80 {
      SmallByte(n);
    } else if n >= 0x80 {
      WordDigits(n);
      PrefixByte(|Digits(n)|);
    }
  }

  lemma SmallByte(n: nat)
    requires 0 < n < 0x80
    ensures LowByte(n) != 0 && LowByte(n) < 0x80
  {
  }

  lemma PrefixByte(k: nat)
    requires 0 < k <= 8
    ensures LowByte(0x80 + k) > 0x80
  {
  }

  datatype Stream = Stream(shared: seq<Info>, snappy: bool, disconnected: bool)

  /** The wire id and payload of a message; None when nothing is sent. */
  ghost function Outgoing(s: Stream, m: PeerMessage): Option<(nat, Buffer)> {
    match m
    case Disconnect(reason) => Some((0x01, RlpByte(reason)))
    case Ping => Some((0x02, [0xc0]))
    case Pong => Some((0x03, [0xc0]))
    case Subprotocol(name, id, data) =>
      if j: nat :| FirstNamed(s.shared, name, j) && id < s.shared[j].length
      then Some((BASE + Offset(s.shared, j) + id, data)) else None
  }

  /** A payload as it goes into a frame. */
  function Packed(w: Payloads, snappy: bool, payload: Buffer): Buffer {
    if snappy then w.compress(payload) else payload
  }

  function Frame(w: Payloads, snappy: bool, wire: nat, payload: Buffer): Buffer {
    RlpNumber(wire) + Packed(w, snappy, payload)
  }

  /** What `start_send` hands to the transport: compressor and transport abort on what is too long for them. */
  ghost function Sent(w: Payloads, s: Stream, m: PeerMessage): Outcome<Option<Buffer>> {
    if s.disconnected then Fails(BrokenPipe)
    else
      match Outgoing(s, m)
      case None => Fine(None)
      case Some((wire, payload)) =>
        var frame := Frame(w, s.snappy, wire, payload);
        if (s.snappy && |payload| > MAX_COMPRESS_INPUT) || |frame| >= Framing.MAX_FRAME then Fails(Abort)
        else Fine(Some(frame))
  }

  /** What a frame's payload decodes to. */
  function Unpack(w: Payloads, snappy: bool, input: Buffer): Outcome<Buffer> {
    if !snappy then Fine(input)
    else
      match w.decompressLen(input)
      case None => Fails(BadPayload)
      case Some(len) =>
        if len > MAX_PAYLOAD_SIZE then Fails(PayloadTooBig)
        else match w.decompress(input)
          case None => Fails(BadPayload)
          case Some(data) => Fine(data)
  }

  /** The message a wire id and payload stand for. */
  function Incoming(w: Payloads, s: Stream, wire: nat, data: Buffer): Outcome<PeerMessage> {
    if wire < BASE then
      match wire
      case 1 => (match w.disconnectReason(data) case Some(r) => Fine(Disconnect(r)) case None => Fails(MalformedDisconnect))
      case 2 => Fine(Ping)
      case 3 => Fine(Pong)
      case _ => Fails(ReservedMessage)
    else
      var slot := Receive(s.shared, wire - BASE, 0);
      if slot.index >= |s.shared| then Fails(OutOfRange)
      else Fine(Subprotocol(s.shared[slot.index].name, slot.id, data))
  }

  /** `poll_next` on one frame of a connected stream: the new latch and what is yielded. */
  function Poll(w: Payloads, s: Stream, frame: Buffer): (bool, Outcome<PeerMessage>) {
    if frame == [] then (false, Fails(Abort))
    else
      match NumberFromByte(frame[0])
      case None => (false, Fails(BadMessageId))
      case Some(wire) =>
        match Unpack(w, s.snappy, frame[1..])
        case Fails(f) => (false, Fails(f))
        case Fine(data) => (wire == 1, Incoming(w, s, wire, data))
  }

  /** What the transport underneath yields. */
  datatype Arrival = Arrived(frame: Buffer) | Broken | Ended

  /** `poll_next` of a connected stream on whatever the transport yields. */
  function Polled(w: Payloads, s: Stream, a: Arrival): (bool, Option<Outcome<PeerMessage>>) {
    match a
    case Arrived(frame) => var (latch, item) := Poll(w, s, frame); (latch, Some(item))
    case Broken => (false, Some(Fails(Upstream)))
    case Ended => (false, None)
  }

  /** The stream as an object; what it writes and yields is returned. */
  class PeerStream {
    const w: Payloads
    const shared: seq<Info>
    const snappy: bool
    var disconnected: bool

    ghost function View(): Stream
      reads this
    {
      Stream(shared, snappy, disconnected)
    }

    constructor (w: Payloads, shared: seq<Info>, snappy: bool)
      ensures this.w == w && View() == Stream(shared, snappy, false)
    {
      this.w, this.shared, this.snappy, disconnected := w, shared, snappy, false;
    }

    /** `start_send`. */
    method StartSend(m: PeerMessage) returns (sent: Outcome<Option<Buffer>>)
      modifies this
      ensures View() == old(View()).(disconnected := old(disconnected) || m.Disconnect?)
      ensures sent == Sent(w, old(View()), m)
    {
      hide RlpNumber, Digits, Offset;
      if disconnected { return Fails(BrokenPipe); }
      var wire: nat, payload: Buffer;
      match m {
        case Disconnect(reason) =>
          disconnected := true;
          wire, payload := 0x01, RlpByte(reason);
        case Ping => wire, payload := 0x02, [0xc0];
        case Pong => wire, payload := 0x03, [0xc0];
        case Subprotocol(name, id, data) =>
          var chosen := WireId(shared, name, id);
          if chosen.None? { return Fine(None); }
          wire, payload := chosen.value, data;
      }
      var msg := RlpNumber(wire);
      if snappy {
        if |payload| > MAX_COMPRESS_INPUT { return Fails(Abort); }
        msg := msg + w.compress(payload);
      } else {
        msg := msg + payload;
      }
      if |msg| >= Framing.MAX_FRAME { return Fails(Abort); }
      return Fine(Some(msg));
    }

    /** `poll_next`: a latched stream has ended. */
    method PollNext(a: Arrival) returns (item: Option<Outcome<PeerMessage>>)
      modifies this
      ensures View() == old(View()).(disconnected := old(disconnected) || Polled(w, old(View()), a).0)
      ensures item == if old(disconnected) then None else Polled(w, old(View()), a).1
    {
      hide Unpack, NumberFromByte;
      if disconnected { return None; }
      if a.Broken? { return Some(Fails(Upstream)); }
      if a.Ended? { return None; }
      var frame := a.frame;
      if frame == [] { return Some(Fails(Abort)); }
      var id := NumberFromByte(frame[0]);
      if id.None? { return Some(Fails(BadMessageId)); }
      var data := Unpack(w, snappy, frame[1..]);
      if data.Fails? { return Some(Fails(data.fault)); }
      if id.value < BASE {
        if id.value == 1 { disconnected := true; }
        return Some(Incoming(w, Stream(shared, snappy, false), id.value, data.value));
      }
      var slot := Demultiplex(shared, id.value - BASE);
      if slot.None? { return Some(Fails(OutOfRange)); }
      return Some(Fine(Subprotocol(shared[slot.value.index].name, slot.value.id, data.value)));
    }
  }

  // Round trips

  lemma UnpackFrame(w: Payloads, snappy: bool, data: Buffer)
    requires w.Lawful()
    ensures Unpack(w, snappy, Packed(w, snappy, data)) ==
      if snappy && |data| > MAX_PAYLOAD_SIZE then Fails(PayloadTooBig) else Fine(data)
  {
    if snappy { assert w.Compresses(data); }
  }

  lemma PollFrame(w: Payloads, s: Stream, wire: nat, data: Buffer)
    requires w.Lawful() && wire < WORD
    ensures
      Poll(w, s, Frame(w, s.snappy, wire, data)) ==
        if wire >= 0x80 then (false, Fails(BadMessageId))
        else if s.snappy && |data| > MAX_PAYLOAD_SIZE then (false, Fails(PayloadTooBig))
        else (wire == 1, Incoming(w, s, wire, data))
  {
    FirstByte(wire);
    var frame := Frame(w, s.snappy, wire, data);
    assert frame[0] == RlpNumber(wire)[0];
    if wire < 0x80 {
      assert |RlpNumber(wire)| == 1;
      assert frame[1..] == Packed(w, s.snappy, data);
      UnpackFrame(w, s.snappy, data);
    }
  }

  /** A message is handed to the transport and polls as itself at a peer with the same table. */
  ghost predicate Arrives(w: Payloads, s: Stream, m: PeerMessage) {
    var sent := Sent(w, s, m);
    sent.Fine? && sent.value.Some? && Poll(w, s, sent.value.value) == (false, Fine(m))
  }

  /** Nothing on the way refuses the payload: neither the frame's size field nor the receiver's limit. */
  predicate Fits(w: Payloads, snappy: bool, data: Buffer) {
    1 + |Packed(w, snappy, data)| < Framing.MAX_FRAME && (snappy ==> |data| <= MAX_PAYLOAD_SIZE)
  }

  lemma ArrivesIff(w: Payloads, s: Stream, m: PeerMessage, wire: nat, payload: Buffer)
    requires w.Lawful() && !s.disconnected && wire < WORD && Outgoing(s, m) == Some((wire, payload))
    ensures Arrives(w, s, m) <==>
      wire < 0x80 && wire != 1 && Fits(w, s.snappy, payload) && Incoming(w, s, wire, payload) == Fine(m)
  {
    hide Poll, Incoming, Outgoing, Frame, Packed, Payloads.Lawful;
    if !(s.snappy && |payload| > MAX_COMPRESS_INPUT) {
      PollFrame(w, s, wire, payload);
      if wire < 0x80 { FrameSize(w, s.snappy, wire, payload); }
    }
  }

  lemma FrameSize(w: Payloads, snappy: bool, wire: nat, payload: Buffer)
    requires wire < 0x80
    ensures |Frame(w, snappy, wire, payload)| == 1 + |Packed(w, snappy, payload)|
  {
    assert |RlpNumber(wire)| == 1;
  }

  /**
   * A subprotocol message is sent and reaches the same capability and id with the same data exactly when its wire
   * id is below 0x80, its payload fits a frame and the receiver's limit, and the receive loop maps its id back.
   */
  lemma SubprotocolRoundTrip(w: Payloads, s: Stream, j: nat, id: nat, data: Buffer)
    requires w.Lawful() && j < |s.shared| && id < s.shared[j].length && StrictlySorted(s.shared)
    requires !s.disconnected && BASE + Offset(s.shared, j) + id < WORD
    ensures
      Arrives(w, s, Subprotocol(s.shared[j].name, id, data)) <==>
        BASE + Offset(s.shared, j) + id < 0x80 && Fits(w, s.snappy, data) && Survives(s.shared, j, id)
  {
    hide Arrives, Incoming, Outgoing, Fits, StrictlySorted, Survives, Offset, Payloads.Lawful;
    WireOf(s, j, id, data);
    ArrivesIff(w, s, Subprotocol(s.shared[j].name, id, data), BASE + Offset(s.shared, j) + id, data);
    DeliveredIff(w, s, j, id, data);
  }

  lemma WireOf(s: Stream, j: nat, id: nat, data: Buffer)
    requires j < |s.shared| && id < s.shared[j].length && StrictlySorted(s.shared)
    ensures Outgoing(s, Subprotocol(s.shared[j].name, id, data)) == Some((BASE + Offset(s.shared, j) + id, data))
  {
    NamesDistinct(s.shared);
    assert FirstNamed(s.shared, s.shared[j].name, j);
  }

  /** What the receiver makes of the wire id of a capability's id. */
  lemma DeliveredIff(w: Payloads, s: Stream, j: nat, id: nat, data: Buffer)
    requires j < |s.shared| && id < s.shared[j].length && StrictlySorted(s.shared)
    ensures Incoming(w, s, BASE + Offset(s.shared, j) + id, data) == Fine(Subprotocol(s.shared[j].name, id, data))
       <==> Survives(s.shared, j, id)
  {
    hide Receive;
    NamesDistinct(s.shared);
    ReceiveInverts(s.shared, j, id, 0);
  }

  lemma NamesDistinct(caps: seq<Info>)
    requires StrictlySorted(caps)
    ensures forall i: nat, j: nat :: i < |caps| && j < |caps| && caps[i].name == caps[j].name ==> i == j
  {
    forall i: nat, j: nat | i < j < |caps| ensures caps[i].name != caps[j].name {
      LessTotal(caps[i].name, caps[j].name);
    }
  }

  /** The shipped table holds one capability of 17 ids: a message of it arrives exactly when its payload fits. */
  lemma ShippedTableRoundTrips(w: Payloads, name: Name, id: nat, data: Buffer)
    requires w.Lawful() && id < 17
    ensures Arrives(w, Shipped(name), Subprotocol(name, id, data)) <==> Fits(w, true, data)
    ensures MaxCompressLen(|data|) + 1 < Framing.MAX_FRAME ==> Fits(w, true, data)
  {
    SubprotocolRoundTrip(w, Shipped(name), 0, id, data);
    assert w.Compresses(data);
  }

  function Shipped(name: Name): Stream {
    Stream([Info(name, 65, 17)], true, false)
  }

  /** An incompressible payload within the receiver's limit for which sending aborts, under a lawful compressor. */
  lemma PayloadWithinLimitAborts(name: Name) returns (w: Payloads, data: Buffer)
    ensures w.Lawful() && |data| <= MAX_PAYLOAD_SIZE
    ensures Sent(w, Shipped(name), Subprotocol(name, 0, data)) == Fails(Abort)
  {
    w := Payloads(d => d, (d: Buffer) => Some(|d|), d => Some(d), _ => None);
    forall d: Buffer ensures w.Compresses(d) {}
    data := Zeros(MAX_PAYLOAD_SIZE);
    WireOf(Shipped(name), 0, 0, data);
  }

  lemma SmallFits(w: Payloads, snappy: bool, data: Buffer)
    requires w.Lawful() && |data| <= 2
    ensures Fits(w, snappy, data)
  {
    if snappy { assert w.Compresses(data); }
  }

  /** Ping and pong always arrive as what they are. */
  lemma PingPongRoundTrip(w: Payloads, s: Stream)
    requires w.Lawful() && !s.disconnected
    ensures Arrives(w, s, Ping) && Arrives(w, s, Pong)
  {
    hide Arrives, Fits;
    SmallFits(w, s.snappy, [0xc0]);
    ArrivesIff(w, s, Ping, 2, [0xc0]);
    ArrivesIff(w, s, Pong, 3, [0xc0]);
  }

  /**
   * A disconnect is always sent, and never arrives as what it is: the bare number it carries is not the list the
   * receiver expects. The receiver's stream ends all the same.
   */
  lemma DisconnectArrivesMalformed(w: Payloads, s: Stream, reason: byte)
    requires w.Lawful() && !s.disconnected
    ensures
      var sent := Sent(w, s, Disconnect(reason));
      sent.Fine? && sent.value.Some? && Poll(w, s, sent.value.value) == (true, Fails(MalformedDisconnect))
  {
    assert w.disconnectReason(RlpByte(reason)) == None;
    hide Poll, Frame, Packed, Payloads.Lawful, RlpByte;
    var payload := RlpByte(reason);
    SmallFits(w, s.snappy, payload);
    FrameSize(w, s.snappy, 1, payload);
    PollFrame(w, s, 1, payload);
  }

  // What is on the wire

  lemma {:induction false} DigitsValue(n: nat)
    ensures BigEndian(Digits(n)) == n && (n > 0 ==> Digits(n) != [] && Digits(n)[0] != 0)
  {
    if n > 0 {
      DigitsValue(n / 256);
      var d := Digits(n / 256) + [LowByte(n)];
      assert d[..|d| - 1] == Digits(n / 256);
    }
  }

  /** A single byte is read as exactly the number whose item it is. */
  lemma NumberReadsIff(b: byte, n: nat)
    ensures NumberFromByte(b) == Some(n) <==> RlpNumber(n) == [b]
  {
    if n >= 0x80 {
      DigitsValue(n);
      assert |RlpNumber(n)| >= 2;
    }
  }

  /** A larger number is its length and its big-endian digits without leading zeros. */
  lemma LargeNumberItem(n: nat)
    requires 0x80 <= n < WORD
    ensures
      var item := RlpNumber(n);
      |item| > 1 && item[0] as nat == 0x80 + |item[1..]| && BigEndian(item[1..]) == n && item[1] != 0
  {
    WordDigits(n);
    DigitsValue(n);
    assert RlpNumber(n)[1..] == Digits(n);
  }

  /** How a send comes out: refused once disconnected, dropped if no table entry takes it, aborted if too long, else written. */
  lemma SendOutcomes(w: Payloads, s: Stream, m: PeerMessage)
    ensures s.disconnected ==> Sent(w, s, m) == Fails(BrokenPipe)
    ensures !s.disconnected && Outgoing(s, m).None? ==> Sent(w, s, m) == Fine(None)
    ensures !s.disconnected && Outgoing(s, m).Some? ==>
      var wire, payload := Outgoing(s, m).value.0, Outgoing(s, m).value.1;
      var packed := if s.snappy then w.compress(payload) else payload;
      Sent(w, s, m) ==
        if (s.snappy && |payload| > 0xFFFF_FFFF) || |RlpNumber(wire)| + |packed| >= 0x100_0000 then Fails(Abort)
        else Fine(Some(RlpNumber(wire) + packed))
  {
    hide RlpNumber, Outgoing;
  }

  /** Control messages without compression: id 1 with the reason, ids 2 and 3 with an empty list. */
  lemma ControlFrames(w: Payloads, s: Stream, reason: byte)
    requires !s.disconnected && !s.snappy
    ensures Sent(w, s, Ping) == Fine(Some([0x02, 0xC0])) && Sent(w, s, Pong) == Fine(Some([0x03, 0xC0]))
    ensures Sent(w, s, Disconnect(reason)) == Fine(Some([0x01] + RlpNumber(reason as nat)))
  {
    RlpByteIsNumber(reason);
    assert RlpNumber(1) == [1] && RlpNumber(2) == [2] && RlpNumber(3) == [3];
    assert [2] + [0xC0] == [0x02, 0xC0] && [3] + [0xC0] == [0x03, 0xC0];
  }

  /** What a received frame without compression stands for, by its first byte. */
  lemma FramesPoll(w: Payloads, s: Stream, id: byte, data: Buffer)
    requires !s.snappy
    ensures Poll(w, s, []) == (false, Fails(Abort))
    ensures
      var polled := Poll(w, s, [id] + data);
      && (id == 0 || id > 0x80 ==> polled == (false, Fails(BadMessageId)))
      && (id == 1 ==> polled.0)
      && (id == 1 && w.disconnectReason(data).Some? ==> polled.1 == Fine(Disconnect(w.disconnectReason(data).value)))
      && (id == 1 && w.disconnectReason(data).None? ==> polled.1 == Fails(MalformedDisconnect))
      && (id == 2 ==> polled == (false, Fine(Ping)))
      && (id == 3 ==> polled == (false, Fine(Pong)))
      && (id == 0x80 || 4 <= id < 16 ==> polled == (false, Fails(ReservedMessage)))
  {
    assert ([id] + data)[1..] == data;
  }

  /** With compression the same, after these refusals. */
  lemma CompressedFramesPoll(w: Payloads, s: Stream, id: byte, input: Buffer)
    requires s.snappy && 0 < id <= 0x80
    ensures
      var polled := Poll(w, s, [id] + input);
      match w.decompressLen(input)
      case None => polled == (false, Fails(BadPayload))
      case Some(len) =>
        if len > 16777216 then polled == (false, Fails(PayloadTooBig))
        else match w.decompress(input)
          case None => polled == (false, Fails(BadPayload))
          case Some(data) => polled == Poll(w, s.(snappy := false), [id] + data)
  {
    assert ([id] + input)[1..] == input;
    if w.decompress(input).Some? {
      assert ([id] + w.decompress(input).value)[1..] == w.decompress(input).value;
    }
  }

  /** The shipped table: ids 0 to 16 are sent as 0x10 to 0x20; up to 0x21 is accepted, one more than is ever sent. */
  lemma ShippedNumbering(w: Payloads, name: Name, other: Name, id: nat, data: Buffer)
    requires other != name
    ensures Outgoing(Shipped(name), Subprotocol(name, id, data)) == if id < 17 then Some((0x10 + id, data)) else None
    ensures Outgoing(Shipped(name), Subprotocol(other, id, data)) == None
    ensures Incoming(w, Shipped(name), 0x10 + id, data) ==
      if id <= 17 then Fine(Subprotocol(name, id, data)) else Fails(OutOfRange)
  {
    var s := Shipped(name);
    assert s.shared[1..] == [];
    assert id < 17 ==> FirstNamed(s.shared, name, 0);
    assert forall j: nat :: FirstNamed(s.shared, name, j) ==> j == 0;
    assert Receive(s.shared, id, 0) == if id > 17 then Slot(1, id - 17) else Slot(0, id);
  }

  // The latch

  datatype Call = Send(m: PeerMessage) | Deliver(a: Arrival)

  /** Frames written and items yielded by a run of calls. */
  datatype Trace = Trace(stream: Stream, written: seq<Buffer>, yielded: seq<Outcome<PeerMessage>>)

  ghost function Latches(w: Payloads, s: Stream, c: Call): bool {
    s.disconnected || match c case Send(m) => m.Disconnect? case Deliver(a) => Polled(w, s, a).0
  }

  ghost function Run(w: Payloads, t: Trace, calls: seq<Call>): Trace
    decreases |calls|
  {
    if calls == [] then t
    else
      var s := t.stream;
      var s' := s.(disconnected := Latches(w, s, calls[0]));
      var next :=
        match calls[0]
        case Send(m) =>
          var sent := Sent(w, s, m);
          Trace(s', if sent.Fine? && sent.value.Some? then t.written + [sent.value.value] else t.written, t.yielded)
        case Deliver(a) =>
          var item := Polled(w, s, a).1;
          Trace(s', t.written, if s.disconnected || item.None? then t.yielded else t.yielded + [item.value]);
      Run(w, next, calls[1..])
  }

  lemma {:induction false} LatchedIsSilent(w: Payloads, t: Trace, calls: seq<Call>)
    requires t.stream.disconnected
    ensures Run(w, t, calls) == t
    decreases |calls|
  {
    if calls != [] {
      assert t.stream.(disconnected := true) == t.stream;
      LatchedIsSilent(w, t, calls[1..]);
    }
  }

  /** A call that sends a disconnect, or that delivers a frame of id 1 whose payload unpacks. */
  predicate IsDisconnect(w: Payloads, s: Stream, c: Call) {
    match c
    case Send(m) => m.Disconnect?
    case Deliver(a) => a.Arrived? && a.frame != [] && a.frame[0] == 1 && Unpack(w, s.snappy, a.frame[1..]).Fine?
  }

  /** After a Disconnect is sent or received, no later call writes a frame or yields an item. */
  lemma {:induction false} NothingAfterDisconnect(w: Payloads, t: Trace, before: seq<Call>, c: Call, after: seq<Call>)
    requires IsDisconnect(w, Run(w, t, before).stream, c)
    ensures Run(w, t, before + [c] + after) == Run(w, t, before + [c])
  {
    RunJoins(w, t, before + [c], after);
    RunJoins(w, t, before, [c]);
    var mid := Run(w, t, before + [c]);
    assert [c][1..] == [];
    LatchedIsSilent(w, mid, after);
  }

  lemma {:induction false} RunJoins(w: Payloads, t: Trace, a: seq<Call>, b: seq<Call>)
    ensures Run(w, t, a + b) == Run(w, Run(w, t, a), b)
    decreases |a|
  {
    if a == [] {
      assert a + b == b;
    } else {
      assert (a + b)[1..] == a[1..] + b && (a + b)[0] == a[0];
      assert Run(w, t, a) == Run(w, Run(w, t, [a[0]]), a[1..]) by { assert [a[0]][1..] == []; }
      RunJoins(w, Run(w, t, [a[0]]), a[1..], b);
      assert Run(w, t, a + b) == Run(w, Run(w, t, [a[0]]), a[1..] + b) by { assert [a[0]][1..] == []; }
    }
  }
}
