/**
 The fan's MQTT client (Peripherals/fan/simple.py): packets built in place in small byte arrays,
 and a reader that decodes them from the socket.  `x & 0x7F` and `x >> 7` of a number that is
 not negative are written `x % 128` and `x / 128`; `|` between numbers without a common bit is
 written `+`.
 */
module Mqtt {
  import opened PyText

  type byte = x: int | 0 <= x < 256

  datatype Fault =
    | AssertionFailed
    | ValueError        // a number that is no byte is stored in a bytearray
    | StructError       // struct.pack refuses a number over 65535
    | IndexError        // the connection ended in front of a byte that is needed
    | ConnectionClosed  // OSError(-1)
    | NegativeRead      // the packet is shorter than its own header says

  datatype Message = Message(topic: seq<byte>, payload: seq<byte>)

  /** The socket seen from one side, and what its callback has been given. */
  datatype Wire = Wire(input: seq<byte>, output: seq<byte>, delivered: seq<Message>)

  datatype Outcome<T> = Outcome(result: Result<T, Fault>, wire: Wire)

  // ---------------------------------------------------------------------------
  // Numbers and strings
  // ---------------------------------------------------------------------------

  /** The variable-length numbers of section 2.2.3 of MQTT 3.1.1. */
  function EncodeLength(n: nat): (r: seq<byte>)
    ensures |r| >= 1 && (n > 127 ==> |r| >= 2)
  {
    if n < 128 then [n] else [n % 128 + 128] + EncodeLength(n / 128)
  }

  function DecodeLength(bytes: seq<byte>): (r: Option<(nat, seq<byte>)>)
    ensures r.Some? ==> |r.value.1| < |bytes|
  {
    if bytes == [] then None
    else if bytes[0] < 128 then Some((bytes[0], bytes[1..]))
    else
      match DecodeLength(bytes[1..])
      case None => None
      case Some(high) => Some((bytes[0] - 128 + 128 * high.0, high.1))
  }

  function Word(n: nat): seq<byte>
    requires n < 65536
  {
    [n / 256, n % 256]
  }

  function ReadWord(bytes: seq<byte>): (r: nat)
    requires |bytes| >= 2
    ensures r < 65536
  {
    var high: nat, low: nat := bytes[0], bytes[1];
    high * 256 + low
  }

  function Text(s: seq<byte>): seq<byte>
    requires |s| < 65536
  {
    Word(|s|) + s
  }

  /** `read(n)` gives fewer bytes when the connection ends. */
  function Front(bytes: seq<byte>, n: nat): seq<byte> {
    if n <= |bytes| then bytes[..n] else bytes
  }

  function Back(bytes: seq<byte>, n: nat): seq<byte> {
    if n <= |bytes| then bytes[n..] else []
  }

  lemma BytesRegroup(a: seq<byte>, b: seq<byte>, c: seq<byte>)
    ensures a + b + c == a + (b + c)
  {
  }

  /** Network byte order: the high byte comes first, in what is written and in what is read. */
  lemma HighByteFirst(high: byte, low: byte, rest: seq<byte>)
    ensures ReadWord([high, low] + rest) == 256 * high as nat + low as nat
    ensures Word(256 * high as nat + low as nat) == [high, low]
  {
  }

  lemma TailOfConcat(first: seq<byte>, more: seq<byte>, rest: seq<byte>)
    requires |first| == 1
    ensures (first + more + rest)[0] == first[0] && (first + more + rest)[1..] == more + rest
    ensures more == [] ==> (first + rest)[0] == first[0] && (first + rest)[1..] == rest
  {
  }

  lemma {:induction false} LengthRoundTrip(n: nat, rest: seq<byte>)
    ensures DecodeLength(EncodeLength(n) + rest) == Some((n, rest))
    decreases n
  {
    if n < 128 {
      TailOfConcat([n as byte], [], rest);
    } else {
      LengthRoundTrip(n / 128, rest);
      assert EncodeLength(n) == [n % 128 + 128] + EncodeLength(n / 128);
      TailOfConcat([n % 128 + 128], EncodeLength(n / 128), rest);
    }
  }

  lemma Regroup(scale: nat, low: nat, high: nat)
    ensures 0 <= low * scale && scale * (low + 128 * high) == low * scale + (scale * 128) * high
  {
  }

  lemma LengthNeedsTwoBytes(n: nat)
    ensures |EncodeLength(n)| <= 2 <==> n < 16384
  {
    assert n >= 128 ==> |EncodeLength(n)| == 1 + |EncodeLength(n / 128)|;
    assert n / 128 >= 128 <==> n >= 16384;
    assert n / 128 >= 128 ==> |EncodeLength(n / 128)| == 1 + |EncodeLength(n / 128 / 128)|;
  }

  /** Three length bytes are enough exactly for the lengths that `publish` lets through. */
  lemma LengthFitsHeader(n: nat)
    ensures |EncodeLength(n)| <= 3 <==> n < 2097152
  {
    LengthNeedsTwoBytes(n / 128);
    assert n >= 128 ==> |EncodeLength(n)| == 1 + |EncodeLength(n / 128)|;
    assert n / 128 < 16384 <==> n < 2097152;
  }

  // ---------------------------------------------------------------------------
  // PUBLISH packets
  // ---------------------------------------------------------------------------

  datatype Packet = Packet(topic: seq<byte>, payload: seq<byte>, retain: bool, qos: int, pid: nat)

  function Bit(b: bool): nat {
    if b then 1 else 0
  }

  function Qos(op: byte): nat {
    op / 2 % 4
  }

  /** The length field of a PUBLISH packet. */
  function Remaining(p: Packet): nat {
    2 + |p.topic| + |p.payload| + if p.qos > 0 then 2 else 0
  }

  /** `0x30 | (qos << 1 | retain)`: bits 4 and 5 are set, whatever the quality is. */
  function HeaderByte(qos: int, retain: bool): int {
    var bits := qos * 2 + Bit(retain);
    bits - bits / 16 % 4 * 16 + 0x30
  }

  predicate HeaderFits(p: Packet) {
    0 <= HeaderByte(p.qos, p.retain) < 256
  }

  /** A quality that is negative or needs more than the low bits never reaches the wire. */
  lemma HeaderFitsIff(p: Packet)
    ensures HeaderFits(p) <==> 0 <= p.qos <= 127
    ensures 0 <= p.qos <= 7 ==> HeaderByte(p.qos, p.retain) == 0x30 + p.qos * 2 + Bit(p.retain)
  {
  }

  lemma BitParts(bits: nat)
    requires bits < 256
    ensures var high, low := bits / 64, bits % 16;
            bits == 64 * high + 16 * (bits / 16 % 4) + low && high < 4
  {
  }

  lemma FromParts(high: nat, low: nat)
    requires high < 4 && low < 16
    ensures var whole := 64 * high + 48 + low;
            whole % 16 == low && whole / 16 % 4 == 3 && whole / 64 == high
  {
  }

  /** Bits 4 and 5 are set; the others are those of the quality, shifted by one, and of the retain flag. */
  lemma HeaderBits(qos: nat, retain: bool)
    requires qos <= 127
    ensures var bits, byte := qos * 2 + Bit(retain), HeaderByte(qos, retain);
            byte % 16 == bits % 16 && byte / 16 % 4 == 3 && byte / 64 == bits / 64
  {
    BitParts(qos * 2 + Bit(retain));
    FromParts((qos * 2 + Bit(retain)) / 64, (qos * 2 + Bit(retain)) % 16);
  }

  predicate Sendable(p: Packet) {
    HeaderFits(p) && Remaining(p) < 2097152 && |p.topic| < 65536 && (p.qos > 0 ==> p.pid < 65536)
  }

  function Header(p: Packet): seq<byte>
    requires HeaderFits(p)
  {
    [HeaderByte(p.qos, p.retain)] + EncodeLength(Remaining(p))
  }

  /** Sections 3.3.1 to 3.3.3 of MQTT 3.1.1. */
  function Encode(p: Packet): seq<byte>
    requires Sendable(p)
  {
    Header(p) + Text(p.topic) + (if p.qos > 0 then Word(p.pid) else []) + p.payload
  }

  /** Section 3.4 */
  function Ack(pid: nat): seq<byte>
    requires pid < 65536
  {
    [0x40, 2] + Word(pid)
  }

  lemma EncodeParts(sent: seq<byte>, p: Packet)
    requires Sendable(p)
    ensures sent + Encode(p) == sent + Header(p) + Text(p.topic) + (if p.qos > 0 then Word(p.pid) else []) + p.payload
  {
  }

  lemma HeaderIs(p: Packet, bytes: seq<byte>)
    requires HeaderFits(p) && bytes == [HeaderByte(p.qos, p.retain)] + EncodeLength(Remaining(p))
    ensures bytes == Header(p)
  {
  }

  datatype Incoming = Incoming(message: Message, pid: nat, rest: seq<byte>) | Broken(fault: Fault, rest: seq<byte>)

  function TakeBody(op: byte, size: int, topic: seq<byte>, bytes: seq<byte>): (r: Incoming)
    ensures |r.rest| <= |bytes| && (r.Incoming? ==> r.pid < 65536)
  {
    if Qos(op) == 0 then
      if size < 0 then Broken(NegativeRead, bytes)
      else Incoming(Message(topic, Front(bytes, size)), 0, Back(bytes, size))
    else if |bytes| < 2 then Broken(IndexError, [])
    else if size < 2 then Broken(NegativeRead, bytes[2..])
    else Incoming(Message(topic, Front(bytes[2..], size - 2)), ReadWord(bytes), Back(bytes[2..], size - 2))
  }

  /** What follows the first byte of a PUBLISH packet. */
  function TakePublish(op: byte, bytes: seq<byte>): (r: Incoming)
    ensures |r.rest| <= |bytes| && (r.Incoming? ==> r.pid < 65536)
  {
    match DecodeLength(bytes)
    case None => Broken(IndexError, [])
    case Some((size, more)) =>
      if |more| < 2 then Broken(IndexError, [])
      else
        var topicSize := ReadWord(more);
        TakeBody(op, size - topicSize - 2, Front(more[2..], topicSize), Back(more[2..], topicSize))
  }

  /** The rest of a PUBLISH packet is read, handed to the callback, and acknowledged if its quality is 1. */
  function Serve(op: byte, w: Wire): (r: Outcome<Option<byte>>)
    ensures |r.wire.input| <= |w.input| && w.output <= r.wire.output && w.delivered <= r.wire.delivered
  {
    match TakePublish(op, w.input)
    case Broken(fault, rest) => Outcome(Failure(fault), w.(input := rest))
    case Incoming(message, pid, rest) =>
      var got := w.(input := rest, delivered := w.delivered + [message]);
      if Qos(op) == 1 then Outcome(Success(Some(op)), got.(output := w.output + Ack(pid)))
      else if Qos(op) == 2 then Outcome(Failure(AssertionFailed), got)
      else Outcome(Success(Some(op)), got)
  }

  /** One incoming message; the operation it reports is `None` for a ping response. */
  function Wait(w: Wire): (r: Outcome<Option<byte>>)
    ensures |r.wire.input| <= |w.input| && (r.result.Success? ==> |r.wire.input| < |w.input|)
    ensures w.output <= r.wire.output && w.delivered <= r.wire.delivered
  {
    if w.input == [] then Outcome(Failure(ConnectionClosed), w)
    else
      var op, rest := w.input[0], w.input[1..];
      if op == 0xD0 then
        if rest == [] then Outcome(Failure(IndexError), w.(input := []))
        else if rest[0] != 0 then Outcome(Failure(AssertionFailed), w.(input := rest[1..]))
        else Outcome(Success(None), w.(input := rest[1..]))
      else if op / 16 != 3 then Outcome(Success(Some(op)), w.(input := rest))
      else Serve(op, w.(input := rest))
  }

  /** What follows the first byte of an acknowledgement: is it the one for `pid`? */
  function TakeAck(w: Wire, pid: nat): (r: Outcome<bool>)
    ensures r.wire.output == w.output && r.wire.delivered == w.delivered && |r.wire.input| <= |w.input|
  {
    if w.input == [] || w.input[0] != 2 then Outcome(Failure(AssertionFailed), w.(input := Back(w.input, 1)))
    else if |w.input| < 3 then Outcome(Failure(IndexError), w.(input := []))
    else Outcome(Success(ReadWord(w.input[1..]) == pid), w.(input := w.input[3..]))
  }

  /** Messages are served until the acknowledgement of `pid` arrives. */
  function AwaitAck(w: Wire, pid: nat): (r: Outcome<()>)
    ensures w.output <= r.wire.output && w.delivered <= r.wire.delivered
    decreases |w.input|
  {
    var one := Wait(w);
    if one.result.Failure? then Outcome(Failure(one.result.fault), one.wire)
    else if one.result.value != Some(0x40) then AwaitAck(one.wire, pid)
    else
      var ack := TakeAck(one.wire, pid);
      if ack.result.Failure? then Outcome(Failure(ack.result.fault), ack.wire)
      else if ack.result.value then Outcome(Success(()), ack.wire)
      else AwaitAck(ack.wire, pid)
  }

  /**
   The effect of `publish`.  A packet that is too long is refused before anything is written; a
   topic or a packet number that needs more than two bytes is noticed only when part of the packet is out.
   */
  function Published(w: Wire, p: Packet): Outcome<()> {
    if !HeaderFits(p) then Outcome(Failure(ValueError), w)
    else if Remaining(p) >= 2097152 then Outcome(Failure(AssertionFailed), w)
    else if |p.topic| >= 65536 then Outcome(Failure(StructError), w.(output := w.output + Header(p)))
    else if p.qos > 0 && p.pid >= 65536 then
      Outcome(Failure(StructError), w.(output := w.output + Header(p) + Text(p.topic)))
    else
      var sent := w.(output := w.output + Encode(p));
      if p.qos == 1 then AwaitAck(sent, p.pid)
      else if p.qos == 2 then Outcome(Failure(AssertionFailed), sent)
      else Outcome(Success(()), sent)
  }

  /** The effect of `publish` behind the header. */
  function RestPublished(w: Wire, p: Packet): Outcome<()> {
    if |p.topic| >= 65536 then Outcome(Failure(StructError), w)
    else if p.qos > 0 && p.pid >= 65536 then Outcome(Failure(StructError), w.(output := w.output + Text(p.topic)))
    else
      var numbered := w.output + Text(p.topic) + if p.qos > 0 then Word(p.pid) else [];
      var sent := w.(output := numbered + p.payload);
      if p.qos == 1 then AwaitAck(sent, p.pid)
      else if p.qos == 2 then Outcome(Failure(AssertionFailed), sent)
      else Outcome(Success(()), sent)
  }

  lemma HeaderThenRest(w: Wire, p: Packet)
    requires HeaderFits(p) && Remaining(p) < 2097152
    ensures Published(w, p) == RestPublished(w.(output := w.output + Header(p)), p)
  {
    hide AwaitAck;
    hide Header;
    hide Encode;
    hide Text;
    hide Word;
    if Sendable(p) {
      EncodeParts(w.output, p);
    }
  }

  // ---------------------------------------------------------------------------
  // The client
  // ---------------------------------------------------------------------------

  class Client {
    var pid: nat
    var input: seq<byte>
    var output: seq<byte>
    var delivered: seq<Message>

    function State(): Wire
      reads this
    {
      Wire(input, output, delivered)
    }

    constructor (incoming: seq<byte>)
      ensures pid == 0 && State() == Wire(incoming, [], [])
    {
      pid, input, output, delivered := 0, incoming, [], [];
    }

    method Read(n: nat) returns (chunk: seq<byte>)
      modifies this`input
      ensures chunk == Front(old(input), n) && input == Back(old(input), n)
    {
      if n <= |input| {
        chunk, input := input[..n], input[n..];
      } else {
        chunk, input := input, [];
      }
    }

    method SendStr(s: seq<byte>) returns (sent: bool)
      modifies this`output
      ensures sent <==> |s| < 65536
      ensures output == if sent then old(output) + Text(s) else old(output)
    {
      sent := |s| < 65536;
      if sent {
        output := output + [|s| / 256, |s| % 256];
        output := output + s;
        assert output == old(output) + Text(s);
      }
    }

    method RecvLen() returns (r: Option<nat>)
      modifies this`input
      ensures match DecodeLength(old(input))
              case None => r == None && input == []
              case Some(decoded) => r == Some(decoded.0) && input == decoded.1
    {
      var n: nat, scale: nat := 0, 1;
      while true
        invariant DecodeLength(old(input)).None? <==> DecodeLength(input).None?
        invariant DecodeLength(input).Some? ==>
                    DecodeLength(old(input)) == Some((n + scale * DecodeLength(input).value.0, DecodeLength(input).value.1))
        decreases |input|
      {
        ghost var before := input;
        var chunk := Read(1);
        if chunk == [] {
          return None;
        }
        var b := chunk[0];
        assert before[0] == b && before[1..] == input;
        ghost var high := if DecodeLength(input).Some? then DecodeLength(input).value.0 else 0;
        Regroup(scale, b % 128, high);
        n := n + b % 128 * scale;
        if b < 128 {
          return Some(n);
        }
        scale := scale * 128;
      }
    }

    method WaitMsg() returns (r: Result<Option<byte>, Fault>)
      modifies this
      ensures pid == old(pid) && Outcome(r, State()) == Wait(old(State()))
    {
      hide TakePublish;
      var first := Read(1);
      if first == [] {
        return Failure(ConnectionClosed);
      }
      var op := first[0];
      if op == 0xD0 {
        var size := Read(1);
        if size == [] {
          return Failure(IndexError);
        }
        if size[0] != 0 {
          return Failure(AssertionFailed);
        }
        return Success(None);
      }
      if op / 16 != 3 {
        return Success(Some(op));
      }
      r := ReceivePublish(op);
    }

    /** The part of `wait_msg` after the first byte of a PUBLISH packet. */
    method ReceivePublish(op: byte) returns (r: Result<Option<byte>, Fault>)
      modifies this
      ensures pid == old(pid) && Outcome(r, State()) == Serve(op, old(State()))
    {
      hide TakePublish;
      var message, number: nat;
      r, message, number := ReadPublish(op);
      if r.Failure? {
        return;
      }
      delivered := delivered + [message];
      if Qos(op) == 1 {
        output := output + [0x40, 2, number / 256, number % 256];
      } else if Qos(op) == 2 {
        return Failure(AssertionFailed);
      }
    }

    /** The reads of `wait_msg` after the first byte of a PUBLISH packet. */
    method ReadPublish(op: byte) returns (r: Result<Option<byte>, Fault>, message: Message, number: nat)
      modifies this`input
      ensures match TakePublish(op, old(input))
              case Broken(fault, rest) => r == Failure(fault) && input == rest
              case Incoming(m, n, rest) => r == Success(Some(op)) && message == m && number == n && input == rest
    {
      hide DecodeLength;
      message, number := Message([], []), 0;
      var length := RecvLen();
      if length == None {
        return Failure(IndexError), message, number;
      }
      var size: int := length.value;
      var word := Read(2);
      if |word| < 2 {
        return Failure(IndexError), message, number;
      }
      var topicSize := ReadWord(word);
      var topic := Read(topicSize);
      hide TakeBody;
      r, message, number := ReadBody(op, size - (topicSize + 2), topic);
    }

    method ReadBody(op: byte, announced: int, topic: seq<byte>) returns (r: Result<Option<byte>, Fault>, message: Message, number: nat)
      modifies this`input
      ensures match TakeBody(op, announced, topic, old(input))
              case Broken(fault, rest) => r == Failure(fault) && input == rest
              case Incoming(m, n, rest) => r == Success(Some(op)) && message == m && number == n && input == rest
    {
      message, number := Message([], []), 0;
      var size := announced;
      if Qos(op) != 0 {
        var word := Read(2);
        if |word| < 2 {
          return Failure(IndexError), message, number;
        }
        number := ReadWord(word);
        size := size - 2;
      }
      if size < 0 {
        return Failure(NegativeRead), message, number;
      }
      var payload := Read(size);
      return Success(Some(op)), Message(topic, payload), number;
    }

    /** The length field, written behind the first byte of a four-byte header. */
    static method FillLength(pkt: array<byte>, length: nat) returns (used: nat)
      requires pkt.Length == 4 && length < 2097152
      modifies pkt
      ensures used <= 4 && pkt[..used] == [old(pkt[0])] + EncodeLength(length)
    {
      LengthFitsHeader(length);
      var size, i := length, 1;
      while size > 127
        invariant 1 <= i && i + |EncodeLength(size)| <= 4
        invariant pkt[..i] + EncodeLength(size) == [old(pkt[0])] + EncodeLength(length)
      {
        var low := EncodeLength(size)[0];
        assert pkt[..i] + EncodeLength(size) == pkt[..i] + [low] + EncodeLength(size / 128);
        pkt[i] := size % 128 + 128;
        assert pkt[..i + 1] == pkt[..i] + [low];
        size := size / 128;
        i := i + 1;
      }
      pkt[i] := size as byte;
      used := i + 1;
      assert pkt[..used] == pkt[..i] + EncodeLength(size);
    }

    /** A fresh packet number, packed over the header that has already been sent. */
    method SendNumber(pkt: array<byte>) returns (sent: bool)
      requires pkt.Length == 4
      modifies pkt, this`pid, this`output
      ensures pid == old(pid) + 1 && (sent <==> pid < 65536)
      ensures output == if sent then old(output) + Word(pid) else old(output)
    {
      pid := pid + 1;
      sent := pid < 65536;
      if sent {
        pkt[0], pkt[1] := pid / 256, pid % 256;
        output := output + pkt[..2];
      }
    }

    method Publish(topic: seq<byte>, payload: seq<byte>, retain: bool, qos: int) returns (r: Result<(), Fault>)
      modifies this
      ensures Outcome(r, State()) == Published(old(State()), Packet(topic, payload, retain, qos, old(pid) + 1))
      ensures pid == if 0 < qos <= 127 && 4 + |topic| + |payload| < 2097152 && |topic| < 65536 then old(pid) + 1 else old(pid)
    {
      hide RestPublished;
      hide Header;
      hide Encode;
      ghost var packet := Packet(topic, payload, retain, qos, pid + 1);
      var pkt := new byte[4](_ => 0);
      HeaderFitsIff(packet);
      var first := HeaderByte(qos, retain);
      if !(0 <= first < 256) {
        return Failure(ValueError);
      }
      hide HeaderFits;
      hide HeaderByte;
      pkt[0] := first;
      var size: nat := 2 + |topic| + |payload|;
      if qos > 0 {
        size := size + 2;
      }
      if size >= 2097152 {
        return Failure(AssertionFailed);
      }
      var used := FillLength(pkt, size);
      HeaderIs(packet, pkt[..used]);
      HeaderThenRest(State(), packet);
      output := output + pkt[..used];
      r := PublishRest(pkt, packet, topic, payload, qos);
    }

    /** What `publish` does once the header is out. */
    method PublishRest(pkt: array<byte>, ghost packet: Packet, topic: seq<byte>, payload: seq<byte>, qos: nat)
      returns (r: Result<(), Fault>)
      requires pkt.Length == 4 && packet.topic == topic && packet.payload == payload && packet.qos == qos && packet.pid == pid + 1
      modifies this, pkt
      ensures Outcome(r, State()) == RestPublished(old(State()), packet)
      ensures pid == if 0 < qos && |topic| < 65536 then old(pid) + 1 else old(pid)
    {
      hide AwaitAck;
      hide Text;
      hide Word;
      var sent := SendStr(topic);
      if !sent {
        return Failure(StructError);
      }
      if qos > 0 {
        sent := SendNumber(pkt);
        if !sent {
          return Failure(StructError);
        }
      }
      output := output + payload;
      if qos == 1 {
        r := WaitForAck(pid);
      } else if qos == 2 {
        r := Failure(AssertionFailed);
      } else {
        r := Success(());
      }
    }

    /** The loop at the end of `publish`. */
    method WaitForAck(number: nat) returns (r: Result<(), Fault>)
      modifies this
      ensures pid == old(pid) && Outcome(r, State()) == AwaitAck(old(State()), number)
    {
      while true
        invariant pid == old(pid) && AwaitAck(old(State()), number) == AwaitAck(State(), number)
        decreases |input|
      {
        hide Wait;
        var op := WaitMsg();
        if op.Failure? {
          return Failure(op.fault);
        }
        if op.value == Some(0x40) {
          hide TakeAck;
          var ack := ReadAck(number);
          if ack.Failure? {
            return Failure(ack.fault);
          }
          if ack.value {
            return Success(());
          }
        }
      }
    }

    /** The reads of that loop behind the first byte of an acknowledgement. */
    method ReadAck(number: nat) returns (r: Result<bool, Fault>)
      modifies this`input
      ensures Outcome(r, State()) == TakeAck(old(State()), number)
    {
      var size := Read(1);
      if size != [2] {
        return Failure(AssertionFailed);
      }
      var word := Read(2);
      if |word| < 2 {
        return Failure(IndexError);
      }
      return Success(ReadWord(word) == number);
    }
  }
}
