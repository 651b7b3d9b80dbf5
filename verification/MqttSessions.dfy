/**
 What two ends of the fan's MQTT connection make of each other's bytes
 (Peripherals/fan/simple.py, `publish` against `wait_msg`).
 */
module MqttSessions {
  import opened PyText
  import opened Mqtt

  // ---------------------------------------------------------------------------
  // One packet
  // ---------------------------------------------------------------------------

  function AckOf(p: Packet): seq<byte>
    requires Sendable(p)
  {
    if p.qos == 1 then Ack(p.pid) else []
  }

  function MessageOf(p: Packet): Message {
    Message(p.topic, p.payload)
  }

  predicate Deliverable(p: Packet) {
    Sendable(p) && 0 <= p.qos <= 1
  }

  function FirstByte(p: Packet): byte
    requires HeaderFits(p)
  {
    HeaderByte(p.qos, p.retain)
  }

  lemma FirstByteSaysPublish(p: Packet)
    requires 0 <= p.qos <= 2
    ensures HeaderFits(p) && FirstByte(p) / 16 == 3 && Qos(FirstByte(p)) == p.qos && FirstByte(p) != 0xD0
  {
    HeaderFitsIff(p);
  }

  lemma WordRoundTrip(n: nat, rest: seq<byte>)
    requires n < 65536
    ensures |Word(n) + rest| >= 2 && ReadWord(Word(n) + rest) == n && (Word(n) + rest)[2..] == rest
  {
    assert (Word(n) + rest)[2..] == rest;
  }

  /** The reader finds the topic behind the length, or as much of it as there is. */
  lemma TopicIsFound(p: Packet, arrived: seq<byte>)
    requires HeaderFits(p) && |p.topic| < 65536
    ensures TakePublish(FirstByte(p), EncodeLength(Remaining(p)) + Word(|p.topic|) + arrived)
            == TakeBody(FirstByte(p), Remaining(p) - |p.topic| - 2, Front(arrived, |p.topic|), Back(arrived, |p.topic|))
  {
    hide TakeBody;
    var text := Word(|p.topic|) + arrived;
    assert EncodeLength(Remaining(p)) + Word(|p.topic|) + arrived == EncodeLength(Remaining(p)) + text;
    LengthRoundTrip(Remaining(p), text);
    WordRoundTrip(|p.topic|, arrived);
  }

  lemma WholeTopic(p: Packet, tail: seq<byte>)
    ensures Front(p.topic + tail, |p.topic|) == p.topic && Back(p.topic + tail, |p.topic|) == tail
  {
  }

  function NumberBytes(p: Packet): seq<byte>
    requires Sendable(p)
  {
    if p.qos > 0 then Word(p.pid) else []
  }

  lemma BodyIsFound(p: Packet, topic: seq<byte>, rest: seq<byte>)
    requires Deliverable(p)
    ensures TakeBody(FirstByte(p), Remaining(p) - |p.topic| - 2, topic, NumberBytes(p) + p.payload + rest)
            == Incoming(Message(topic, p.payload), if p.qos > 0 then p.pid else 0, rest)
  {
    FirstByteSaysPublish(p);
    assert (p.payload + rest)[..|p.payload|] == p.payload && (p.payload + rest)[|p.payload|..] == rest;
    if p.qos > 0 {
      assert NumberBytes(p) + p.payload + rest == Word(p.pid) + (p.payload + rest);
      WordRoundTrip(p.pid, p.payload + rest);
    } else {
      assert NumberBytes(p) + p.payload + rest == p.payload + rest;
    }
  }

  lemma EncodeGrouped(p: Packet, rest: seq<byte>)
    requires Sendable(p)
    ensures var tail := NumberBytes(p) + p.payload + rest;
            Encode(p) + rest == [HeaderByte(p.qos, p.retain)] + (EncodeLength(Remaining(p)) + Word(|p.topic|) + (p.topic + tail))
  {
    hide EncodeLength;
    hide Word;
    hide HeaderByte;
  }

  /** A packet is read back exactly, nothing after it is touched, and quality 1 is acknowledged by its own number. */
  lemma PacketRoundTrip(p: Packet, w: Wire, rest: seq<byte>)
    requires Deliverable(p) && w.input == Encode(p) + rest
    ensures Wait(w) == Outcome(Success(Some(FirstByte(p))), Wire(rest, w.output + AckOf(p), w.delivered + [MessageOf(p)]))
  {
    hide TakePublish;
    hide TakeBody;
    hide EncodeLength;
    FirstByteSaysPublish(p);
    var tail := NumberBytes(p) + p.payload + rest;
    EncodeGrouped(p, rest);
    TopicIsFound(p, p.topic + tail);
    WholeTopic(p, tail);
    BodyIsFound(p, p.topic, rest);
  }

  // ---------------------------------------------------------------------------
  // Many packets
  // ---------------------------------------------------------------------------

  predicate AllDeliverable(ps: seq<Packet>) {
    forall i :: 0 <= i < |ps| ==> Deliverable(ps[i])
  }

  function EncodeAll(ps: seq<Packet>): seq<byte>
    requires AllDeliverable(ps)
  {
    if ps == [] then [] else Encode(ps[0]) + EncodeAll(ps[1..])
  }

  function AckAll(ps: seq<Packet>): seq<byte>
    requires AllDeliverable(ps)
  {
    if ps == [] then [] else AckOf(ps[0]) + AckAll(ps[1..])
  }

  function Messages(ps: seq<Packet>): seq<Message> {
    if ps == [] then [] else [MessageOf(ps[0])] + Messages(ps[1..])
  }

  /** `n` calls of `wait_msg`, as long as none fails. */
  function WaitTimes(w: Wire, n: nat): Option<Wire>
    decreases n
  {
    if n == 0 then Some(w)
    else
      var one := Wait(w);
      if one.result.Failure? then None else WaitTimes(one.wire, n - 1)
  }

  /** What the wire looks like when the packets have been received. */
  function AfterAll(ps: seq<Packet>, w: Wire, rest: seq<byte>): Wire
    requires AllDeliverable(ps)
  {
    Wire(rest, w.output + AckAll(ps), w.delivered + Messages(ps))
  }

  lemma AfterAllStep(ps: seq<Packet>, w: Wire, rest: seq<byte>, later: seq<byte>)
    requires AllDeliverable(ps) && ps != []
    ensures AfterAll(ps[1..], Wire(later, w.output + AckOf(ps[0]), w.delivered + [MessageOf(ps[0])]), rest) == AfterAll(ps, w, rest)
  {
    hide AckOf;
    assert w.output + AckOf(ps[0]) + AckAll(ps[1..]) == w.output + (AckOf(ps[0]) + AckAll(ps[1..]));
    assert w.delivered + [MessageOf(ps[0])] + Messages(ps[1..]) == w.delivered + ([MessageOf(ps[0])] + Messages(ps[1..]));
  }

  lemma EncodeAllStep(ps: seq<Packet>, rest: seq<byte>)
    requires AllDeliverable(ps) && ps != []
    ensures EncodeAll(ps) + rest == Encode(ps[0]) + (EncodeAll(ps[1..]) + rest)
  {
    hide Encode;
  }

  /** Packets written one after another are received as the same messages, with no byte left over. */
  lemma {:induction false} PacketsRoundTrip(ps: seq<Packet>, w: Wire, rest: seq<byte>)
    requires AllDeliverable(ps) && w.input == EncodeAll(ps) + rest
    ensures WaitTimes(w, |ps|) == Some(AfterAll(ps, w, rest))
    decreases |ps|
  {
    if ps == [] {
      assert EncodeAll(ps) + rest == rest;
      assert w == AfterAll(ps, w, rest);
    } else {
      hide Wait;
      hide Encode;
      hide AckOf;
      hide EncodeAll;
      hide AfterAll;
      var later := EncodeAll(ps[1..]) + rest;
      EncodeAllStep(ps, rest);
      PacketRoundTrip(ps[0], w, later);
      var after := Wire(later, w.output + AckOf(ps[0]), w.delivered + [MessageOf(ps[0])]);
      PacketsRoundTrip(ps[1..], after, rest);
      AfterAllStep(ps, w, rest, later);
    }
  }

  // ---------------------------------------------------------------------------
  // Waiting for an acknowledgement among other traffic
  // ---------------------------------------------------------------------------

  datatype Traffic = Inbound(packet: Packet) | Acknowledged(pid: nat) | Pong

  /** Traffic that may arrive in front of the acknowledgement of `pid`. */
  predicate Other(t: Traffic, pid: nat) {
    match t
    case Inbound(p) => Deliverable(p)
    case Acknowledged(n) => n < 65536 && n != pid
    case Pong => true
  }

  predicate AllOther(ts: seq<Traffic>, pid: nat) {
    forall i :: 0 <= i < |ts| ==> Other(ts[i], pid)
  }

  function TrafficBytes(ts: seq<Traffic>, pid: nat): seq<byte>
    requires AllOther(ts, pid)
  {
    if ts == [] then []
    else
      (match ts[0]
       case Inbound(p) => Encode(p)
       case Acknowledged(n) => Ack(n)
       case Pong => [0xD0, 0]) + TrafficBytes(ts[1..], pid)
  }

  function Arrivals(ts: seq<Traffic>): seq<Packet> {
    if ts == [] then []
    else (if ts[0].Inbound? then [ts[0].packet] else []) + Arrivals(ts[1..])
  }

  lemma {:induction false} ArrivalsAreDeliverable(ts: seq<Traffic>, pid: nat)
    requires AllOther(ts, pid)
    ensures AllDeliverable(Arrivals(ts))
    decreases |ts|
  {
    if ts != [] {
      assert Other(ts[0], pid);
      ArrivalsAreDeliverable(ts[1..], pid);
    }
  }

  lemma AckIsTaken(w: Wire, n: nat, pid: nat, rest: seq<byte>)
    requires n < 65536 && w.input == Ack(n) + rest
    ensures AwaitAck(w, pid) == if n == pid then Outcome(Success(()), w.(input := rest)) else AwaitAck(w.(input := rest), pid)
  {
    assert w.input[0] == 0x40 && w.input[1] == 2;
    assert w.input[1..][1..] == Word(n) + rest;
    WordRoundTrip(n, rest);
    assert w.input[1..][3..] == rest;
  }

  lemma PongIsSkipped(w: Wire, pid: nat, rest: seq<byte>)
    requires w.input == [0xD0, 0] + rest
    ensures AwaitAck(w, pid) == AwaitAck(w.(input := rest), pid)
  {
    assert w.input[0] == 0xD0 && w.input[1..][0] == 0;
    assert w.input[1..][1..] == rest;
    assert Wait(w) == Outcome(Success(None), w.(input := rest));
  }

  lemma InboundIsServed(w: Wire, p: Packet, pid: nat, rest: seq<byte>)
    requires Deliverable(p) && w.input == Encode(p) + rest
    ensures AwaitAck(w, pid) == AwaitAck(Wire(rest, w.output + AckOf(p), w.delivered + [MessageOf(p)]), pid)
  {
    hide Wait;
    hide Encode;
    PacketRoundTrip(p, w, rest);
    FirstByteSaysPublish(p);
  }

  /**
   Whatever arrives in front of the awaited acknowledgement is delivered, acknowledged or skipped,
   and then `publish` returns and leaves the rest of the stream alone.
   */
  lemma {:induction false} AckIsFoundInTraffic(ts: seq<Traffic>, w: Wire, pid: nat, rest: seq<byte>)
    requires pid < 65536 && AllOther(ts, pid)
    requires w.input == TrafficBytes(ts, pid) + Ack(pid) + rest
    ensures AllDeliverable(Arrivals(ts))
    ensures AwaitAck(w, pid) == Outcome(Success(()), AfterAll(Arrivals(ts), w, rest))
    decreases |ts|
  {
    hide AwaitAck;
    hide Ack;
    hide AckOf;
    hide Encode;
    ArrivalsAreDeliverable(ts, pid);
    if ts == [] {
      assert w.input == Ack(pid) + rest;
      AckIsTaken(w, pid, pid, rest);
    } else {
      assert Other(ts[0], pid);
      var later := TrafficBytes(ts[1..], pid) + Ack(pid) + rest;
      match ts[0]
      case Inbound(p) =>
        assert w.input == Encode(p) + later;
        InboundIsServed(w, p, pid, later);
        assert Arrivals(ts)[0] == p && Arrivals(ts)[1..] == Arrivals(ts[1..]);
        AfterAllStep(Arrivals(ts), w, rest, later);
        AckIsFoundInTraffic(ts[1..], Wire(later, w.output + AckOf(p), w.delivered + [MessageOf(p)]), pid, rest);
      case Acknowledged(n) =>
        assert Arrivals(ts) == Arrivals(ts[1..]) && w.input == Ack(n) + later;
        AckIsTaken(w, n, pid, later);
        AckIsFoundInTraffic(ts[1..], w.(input := later), pid, rest);
      case Pong =>
        assert Arrivals(ts) == Arrivals(ts[1..]) && w.input == [0xD0, 0] + later;
        PongIsSkipped(w, pid, later);
        AckIsFoundInTraffic(ts[1..], w.(input := later), pid, rest);
    }
  }

  // ---------------------------------------------------------------------------
  // A publisher and a reader back to back
  // ---------------------------------------------------------------------------

  datatype Item = Item(topic: seq<byte>, payload: seq<byte>, retain: bool, assured: bool)

  /** The packets that calls of `publish` make of these items, numbered from `pid + 1`. */
  function Numbered(items: seq<Item>, pid: nat): (ps: seq<Packet>)
    ensures |ps| == |items|
  {
    if items == [] then []
    else
      var item := items[0];
      [Packet(item.topic, item.payload, item.retain, Bit(item.assured), pid + 1)]
      + Numbered(items[1..], pid + Bit(item.assured))
  }

  /** How many packet numbers the items need. */
  function Assured(items: seq<Item>): nat {
    if items == [] then 0 else Bit(items[0].assured) + Assured(items[1..])
  }

  predicate AllFit(items: seq<Item>) {
    forall i :: 0 <= i < |items| ==> |items[i].topic| < 65536 && |items[i].topic| + |items[i].payload| + 4 < 2097152
  }

  lemma {:induction false} NumberedAreDeliverable(items: seq<Item>, pid: nat)
    requires AllFit(items) && pid + Assured(items) < 65536
    ensures AllDeliverable(Numbered(items, pid))
    decreases |items|
  {
    if items != [] {
      HeaderFitsIff(Numbered(items, pid)[0]);
      NumberedAreDeliverable(items[1..], pid + Bit(items[0].assured));
    }
  }

  function Contents(items: seq<Item>): seq<Message> {
    if items == [] then [] else [Message(items[0].topic, items[0].payload)] + Contents(items[1..])
  }

  lemma {:induction false} NumberedMessages(items: seq<Item>, pid: nat, k: nat)
    requires k <= |items|
    ensures Messages(Numbered(items, pid)[..k]) == Contents(items[..k])
    decreases |items|
  {
    if k > 0 {
      var rest := Numbered(items[1..], pid + Bit(items[0].assured));
      NumberedMessages(items[1..], pid + Bit(items[0].assured), k - 1);
      assert Numbered(items, pid)[..k][1..] == rest[..k - 1];
      assert items[..k][1..] == items[1..][..k - 1];
    }
  }

  lemma PublishOne(w: Wire, p: Packet, rest: seq<byte>)
    requires Deliverable(p) && w.input == AckOf(p) + rest
    ensures Published(w, p) == Outcome(Success(()), Wire(rest, w.output + Encode(p), w.delivered))
  {
    hide AwaitAck;
    hide Encode;
    hide Ack;
    var sent := w.(output := w.output + Encode(p));
    if p.qos == 1 {
      AckIsTaken(sent, p.pid, p.pid, rest);
    } else {
      assert w.input == rest;
    }
  }

  /** The two ends of one connection. */
  datatype Link = Link(publisher: Wire, reader: Wire)

  /**
   One call of `publish` at one end and of `wait_msg` at the other: what the publisher writes is what the reader
   gets, and what the reader then writes is what the publisher gets while its call is still waiting.
   */
  function Transfer(l: Link, p: Packet): Option<Link>
    requires Deliverable(p)
  {
    var received := Wait(l.reader.(input := l.reader.input + Encode(p)));
    var answer := received.wire.output[|l.reader.output|..];
    var published := Published(l.publisher.(input := l.publisher.input + answer), p);
    if received.result.Failure? || published.result.Failure? || published.wire.output != l.publisher.output + Encode(p) then None
    else Some(Link(published.wire, received.wire))
  }

  function TransferAll(l: Link, ps: seq<Packet>): Option<Link>
    requires AllDeliverable(ps)
    decreases |ps|
  {
    if ps == [] then Some(l)
    else
      match Transfer(l, ps[0])
      case None => None
      case Some(next) => TransferAll(next, ps[1..])
  }

  lemma TransferOne(sent: seq<byte>, acks: seq<byte>, got: seq<Message>, told: seq<Message>, p: Packet)
    requires Deliverable(p)
    ensures Transfer(Link(Wire([], sent, told), Wire([], acks, got)), p)
            == Some(Link(Wire([], sent + Encode(p), told), Wire([], acks + AckOf(p), got + [MessageOf(p)])))
  {
    hide Wait;
    hide Published;
    hide Encode;
    hide AckOf;
    var reader := Wire([] + Encode(p), acks, got);
    assert reader.input == Encode(p) + [];
    PacketRoundTrip(p, reader, []);
    assert (acks + AckOf(p))[|acks|..] == AckOf(p);
    var publisher := Wire([] + AckOf(p), sent, told);
    assert publisher.input == AckOf(p) + [];
    PublishOne(publisher, p, []);
  }

  /** Step by step: the reader has always written exactly the acknowledgements that the publisher has consumed. */
  lemma {:induction false} TransfersComplete(sent: seq<byte>, acks: seq<byte>, got: seq<Message>, told: seq<Message>, ps: seq<Packet>)
    requires AllDeliverable(ps)
    ensures TransferAll(Link(Wire([], sent, told), Wire([], acks, got)), ps)
            == Some(Link(Wire([], sent + EncodeAll(ps), told), Wire([], acks + AckAll(ps), got + Messages(ps))))
    decreases |ps|
  {
    hide Transfer;
    hide Encode;
    hide AckOf;
    hide MessageOf;
    if ps == [] {
      assert sent + [] == sent && acks + [] == acks && got + [] == got;
    } else {
      TransferOne(sent, acks, got, told, ps[0]);
      TransfersComplete(sent + Encode(ps[0]), acks + AckOf(ps[0]), got + [MessageOf(ps[0])], told, ps[1..]);
      BytesRegroup(sent, Encode(ps[0]), EncodeAll(ps[1..]));
      BytesRegroup(acks, AckOf(ps[0]), AckAll(ps[1..]));
      MessagesRegroup(got, [MessageOf(ps[0])], Messages(ps[1..]));
    }
  }

  lemma MessagesRegroup(a: seq<Message>, b: seq<Message>, c: seq<Message>)
    ensures a + b + c == a + (b + c)
  {
  }

  /**
   A publisher connected to a reader, after any number `k` of its calls: every call has returned, the reader's
   callback has the first `k` topics and payloads in order, the reader has written exactly the acknowledgements
   the publisher has consumed, and no byte is under way.
   */
  lemma PublisherMeetsReader(items: seq<Item>, pid: nat, k: nat)
    requires AllFit(items) && pid + Assured(items) < 65536 && k <= |items|
    ensures AllDeliverable(Numbered(items, pid)) && AllDeliverable(Numbered(items, pid)[..k])
    ensures var ps := Numbered(items, pid)[..k];
            TransferAll(Link(Wire([], [], []), Wire([], [], [])), ps)
            == Some(Link(Wire([], EncodeAll(ps), []), Wire([], AckAll(ps), Contents(items[..k]))))
  {
    hide AckOf;
    hide Encode;
    hide TransferAll;
    NumberedAreDeliverable(items, pid);
    NumberedMessages(items, pid, k);
    var ps := Numbered(items, pid)[..k];
    TransfersComplete([], [], [], [], ps);
    assert [] + EncodeAll(ps) == EncodeAll(ps) && [] + AckAll(ps) == AckAll(ps) && [] + Messages(ps) == Messages(ps);
  }

  // ---------------------------------------------------------------------------
  // Packet numbers
  // ---------------------------------------------------------------------------

  /**
   The packet number grows without end: a packet of quality 1 that otherwise fits gets through
   with a helpful peer exactly while the number fits in two bytes.
   */
  lemma PacketNumbersRunOut(w: Wire, p: Packet, rest: seq<byte>)
    requires p.qos == 1 && |p.topic| < 65536 && Remaining(p) < 2097152
    requires p.pid < 65536 ==> w.input == Ack(p.pid) + rest
    ensures HeaderFits(p) && (Published(w, p).result.Success? <==> p.pid < 65536)
    ensures p.pid >= 65536 ==> Published(w, p).wire.output == w.output + Header(p) + Text(p.topic)
  {
    HeaderFitsIff(p);
    if p.pid < 65536 {
      PublishOne(w, p, rest);
    }
  }

  /** The torn packet is not noticed by the reader, who completes it with bytes of whatever is sent next. */
  lemma TornPacketTakesNextBytes(p: Packet, w: Wire, number: nat, stolen: seq<byte>, rest: seq<byte>)
    requires p.qos == 1 && HeaderFits(p) && |p.topic| < 65536 && number < 65536 && |stolen| == |p.payload|
    requires w.input == Header(p) + Text(p.topic) + Word(number) + stolen + rest
    ensures Wait(w) == Outcome(Success(Some(FirstByte(p))),
                               Wire(rest, w.output + Ack(number), w.delivered + [Message(p.topic, stolen)]))
  {
    hide TakePublish;
    hide TakeBody;
    hide EncodeLength;
    FirstByteSaysPublish(p);
    var tail := Word(number) + (stolen + rest);
    TornGrouped(p, Word(number), stolen, rest);
    TopicIsFound(p, p.topic + tail);
    WholeTopic(p, tail);
    StolenBody(p, number, stolen, rest);
  }

  lemma TornGrouped(p: Packet, number: seq<byte>, stolen: seq<byte>, rest: seq<byte>)
    requires HeaderFits(p) && |p.topic| < 65536
    ensures Header(p) + Text(p.topic) + number + stolen + rest
            == [HeaderByte(p.qos, p.retain)] + (EncodeLength(Remaining(p)) + Word(|p.topic|) + (p.topic + (number + (stolen + rest))))
  {
    hide EncodeLength;
    hide Word;
    hide HeaderByte;
  }

  lemma StolenBody(p: Packet, number: nat, stolen: seq<byte>, rest: seq<byte>)
    requires p.qos == 1 && HeaderFits(p) && |p.topic| < 65536 && number < 65536 && |stolen| == |p.payload|
    ensures TakeBody(FirstByte(p), Remaining(p) - |p.topic| - 2, p.topic, Word(number) + (stolen + rest))
            == Incoming(Message(p.topic, stolen), number, rest)
  {
    FirstByteSaysPublish(p);
    WordRoundTrip(number, stolen + rest);
    assert (stolen + rest)[..|stolen|] == stolen && (stolen + rest)[|stolen|..] == rest;
  }

  // ---------------------------------------------------------------------------
  // Connections that close inside a packet
  // ---------------------------------------------------------------------------

  lemma {:induction false} CutLength(n: nat, part: seq<byte>)
    requires part < EncodeLength(n)
    ensures DecodeLength(part) == None
    decreases n
  {
    if part != [] {
      CutLength(n / 128, part[1..]);
    }
  }

  /** The bytes a packet has at least when its reader takes it for whole. */
  function Enough(p: Packet): nat
    requires HeaderFits(p)
  {
    |Header(p)| + 2 + if p.qos > 0 then |p.topic| + 2 else 0
  }

  /** What the callback is given of the bytes that arrived behind the length of the topic. */
  function Arrived(p: Packet, arrived: seq<byte>): Message {
    Message(Front(arrived, |p.topic|), Back(arrived, |p.topic| + if p.qos > 0 then 2 else 0))
  }

  lemma CutHeader(p: Packet, w: Wire)
    requires Sendable(p) && 0 <= p.qos <= 2 && w.input < Encode(p) && |w.input| < |Header(p)| + 2
    ensures Wait(w).result.Failure? && Wait(w).wire == w.(input := [])
  {
    hide TakePublish;
    hide Encode;
    hide EncodeLength;
    hide DecodeLength;
    FirstByteSaysPublish(p);
    if w.input != [] {
      CutBehindFirstByte(p, w.input);
      CutLengthIsNoticed(Remaining(p), w.input[1..]);
    }
  }

  lemma CutBehindFirstByte(p: Packet, bytes: seq<byte>)
    requires Sendable(p) && bytes < Encode(p) && 0 < |bytes| < |Header(p)| + 2
    ensures bytes[0] == FirstByte(p)
    ensures var length, rest := EncodeLength(Remaining(p)), bytes[1..];
            rest < length || (length <= rest && |rest| < |length| + 2)
  {
    hide EncodeLength;
    var length, rest := EncodeLength(Remaining(p)), bytes[1..];
    var tail := Text(p.topic) + NumberBytes(p) + p.payload;
    assert Encode(p) == [FirstByte(p)] + (length + tail);
    assert rest == (length + tail)[..|rest|];
  }

  /** A length that is cut, or too little behind it for the length of the topic. */
  lemma CutLengthIsNoticed(n: nat, rest: seq<byte>)
    requires var length := EncodeLength(n); rest < length || (length <= rest && |rest| < |length| + 2)
    ensures forall op :: TakePublish(op, rest) == Broken(IndexError, [])
  {
    hide EncodeLength;
    hide DecodeLength;
    var length := EncodeLength(n);
    if rest < length {
      CutLength(n, rest);
    } else {
      assert rest == length + rest[|length|..];
      LengthRoundTrip(n, rest[|length|..]);
    }
  }

  lemma CutBody(p: Packet, w: Wire, arrived: seq<byte>)
    requires Sendable(p) && 0 <= p.qos <= 2 && arrived < p.topic + NumberBytes(p) + p.payload
    requires w.input == Header(p) + Word(|p.topic|) + arrived
    ensures if |w.input| < Enough(p) then Wait(w).result.Failure? && Wait(w).wire == w.(input := [])
            else Wait(w) == Outcome(if p.qos == 2 then Failure(AssertionFailed) else Success(Some(FirstByte(p))),
                                    Wire([], w.output + AckOf(p), w.delivered + [Arrived(p, arrived)]))
  {
    hide TakePublish;
    hide TakeBody;
    FirstByteSaysPublish(p);
    assert w.input == [FirstByte(p)] + (EncodeLength(Remaining(p)) + Word(|p.topic|) + arrived);
    TopicIsFound(p, arrived);
    if p.qos == 0 {
      CutPlainBody(p, arrived);
    } else {
      CutNumberedBody(p, arrived);
    }
  }

  lemma CutPlainBody(p: Packet, arrived: seq<byte>)
    requires Sendable(p) && p.qos == 0 && |arrived| < |p.topic| + |p.payload|
    ensures TakeBody(FirstByte(p), Remaining(p) - |p.topic| - 2, Front(arrived, |p.topic|), Back(arrived, |p.topic|))
            == Incoming(Arrived(p, arrived), 0, [])
  {
    FirstByteSaysPublish(p);
    assert |Back(arrived, |p.topic|)| <= |p.payload|;
  }

  lemma CutNumberedBody(p: Packet, arrived: seq<byte>)
    requires Sendable(p) && 0 < p.qos <= 2 && arrived < p.topic + NumberBytes(p) + p.payload
    ensures TakeBody(FirstByte(p), Remaining(p) - |p.topic| - 2, Front(arrived, |p.topic|), Back(arrived, |p.topic|))
            == if |arrived| < |p.topic| + 2 then Broken(IndexError, []) else Incoming(Arrived(p, arrived), p.pid, [])
  {
    FirstByteSaysPublish(p);
    if |arrived| >= |p.topic| + 2 {
      var tail := CutBehindNumber(p, arrived);
      WordRoundTrip(p.pid, tail);
    }
  }

  lemma CutBehindNumber(p: Packet, arrived: seq<byte>) returns (tail: seq<byte>)
    requires Sendable(p) && p.qos > 0 && arrived < p.topic + NumberBytes(p) + p.payload && |arrived| >= |p.topic| + 2
    ensures tail == Back(arrived, |p.topic| + 2) && |tail| < |p.payload|
    ensures Back(arrived, |p.topic|) == Word(p.pid) + tail
  {
    var whole := p.topic + NumberBytes(p) + p.payload;
    tail := arrived[|p.topic| + 2..];
    assert arrived == whole[..|arrived|];
    assert whole[|p.topic|..|p.topic| + 2] == Word(p.pid);
    assert arrived[|p.topic|..][..2] == whole[|p.topic|..|p.topic| + 2];
    assert arrived[|p.topic|..] == arrived[|p.topic|..][..2] + tail;
  }

  /**
   A connection that closes inside a packet: the reader notices exactly when the cut comes before the topic (quality 0)
   or before the payload (quality 1 and 2).  Otherwise the part that arrived is delivered as if it were the message,
   and at quality 1 it is acknowledged.
   */
  lemma CutPacketIsDeliveredIff(p: Packet, w: Wire)
    requires Sendable(p) && 0 <= p.qos <= 2 && w.input < Encode(p)
    ensures Wait(w).wire.delivered != w.delivered <==> |w.input| >= Enough(p)
    ensures |w.input| < Enough(p) ==> Wait(w).result.Failure? && Wait(w).wire == w.(input := [])
    ensures |w.input| >= Enough(p) ==>
              var message := Arrived(p, w.input[|Header(p)| + 2..]);
              && message != MessageOf(p)
              && Wait(w) == Outcome(if p.qos == 2 then Failure(AssertionFailed) else Success(Some(FirstByte(p))),
                                    Wire([], w.output + AckOf(p), w.delivered + [message]))
  {
    hide Wait;
    hide Header;
    var start, body := Header(p) + Word(|p.topic|), p.topic + NumberBytes(p) + p.payload;
    assert Encode(p) == start + body;
    if |w.input| < |start| {
      CutHeader(p, w);
    } else {
      var arrived := w.input[|start|..];
      assert w.input == start + arrived && arrived == body[..|arrived|];
      CutBody(p, w, arrived);
      if |w.input| >= Enough(p) {
        CutIsShorter(p, arrived);
      }
    }
  }

  lemma CutIsShorter(p: Packet, arrived: seq<byte>)
    requires Sendable(p) && |arrived| < |p.topic| + |NumberBytes(p)| + |p.payload|
    requires p.qos > 0 ==> |arrived| >= |p.topic| + 2
    ensures Arrived(p, arrived) != MessageOf(p)
  {
    var message := Arrived(p, arrived);
    assert |message.topic| < |p.topic| || |message.payload| < |p.payload|;
  }

  /** Cut inside the topic: a message under another topic, without payload. */
  lemma CutTopicIsDelivered(p: Packet, w: Wire, part: seq<byte>)
    requires Sendable(p) && p.qos == 0 && part < p.topic && w.input == Header(p) + Word(|p.topic|) + part
    ensures Wait(w) == Outcome(Success(Some(FirstByte(p))), Wire([], w.output, w.delivered + [Message(part, [])]))
  {
    hide Wait;
    hide Header;
    var body := p.topic + NumberBytes(p) + p.payload;
    assert part < body && body[..|part|] == part;
    CutBody(p, w, part);
    assert w.output + [] == w.output;
  }

  lemma ArrivedPayload(p: Packet, part: seq<byte>)
    requires Sendable(p)
    ensures Arrived(p, p.topic + NumberBytes(p) + part) == Message(p.topic, part)
  {
    WholeTopic(p, NumberBytes(p) + part);
    assert p.topic + NumberBytes(p) + part == p.topic + (NumberBytes(p) + part);
    assert (p.topic + NumberBytes(p) + part)[|p.topic + NumberBytes(p)|..] == part;
  }

  /** Cut inside the payload: a shorter message, which at quality 1 is even acknowledged. */
  lemma CutPayloadIsDelivered(p: Packet, w: Wire, part: seq<byte>)
    requires Deliverable(p) && part < p.payload && w.input == Header(p) + Text(p.topic) + NumberBytes(p) + part
    ensures Wait(w) == Outcome(Success(Some(FirstByte(p))), Wire([], w.output + AckOf(p), w.delivered + [Message(p.topic, part)]))
  {
    hide Wait;
    hide Header;
    hide AckOf;
    var front := p.topic + NumberBytes(p);
    var arrived := front + part;
    assert w.input == Header(p) + Word(|p.topic|) + arrived;
    assert (front + p.payload)[..|arrived|] == front + p.payload[..|part|];
    CutBody(p, w, arrived);
    hide Encode;
    hide Sendable;
    ArrivedPayload(p, part);
  }
}
