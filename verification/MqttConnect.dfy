/** Opening the fan's MQTT connection (Peripherals/fan/simple.py, `connect`). */
module MqttConnect {
  import opened PyText
  import opened Mqtt

  /** The fields of the client; an empty user or will topic means that there is none. */
  datatype Options = Options(
    clientId: seq<byte>,
    clean: bool,
    keepAlive: nat,
    user: seq<byte>,
    password: seq<byte>,
    willTopic: seq<byte>,
    willMessage: seq<byte>,
    willQos: nat,
    willRetain: bool)

  predicate Wellformed(o: Options) {
    o.willQos <= 2
  }

  predicate HasWill(o: Options) {
    o.willTopic != []
  }

  predicate HasUser(o: Options) {
    o.user != []
  }

  /** What the server can learn: the fields of a will or a login that is not sent are blank. */
  function Told(o: Options): Options {
    var withWill := if HasWill(o) then o else o.(willMessage := [], willQos := 0, willRetain := false);
    if HasUser(o) then withWill else withWill.(password := [])
  }

  // ---------------------------------------------------------------------------
  // Writing
  // ---------------------------------------------------------------------------

  function Flags(o: Options): (r: nat)
    requires Wellformed(o)
    ensures r < 256
  {
    Bit(o.clean) * 2 + (if HasUser(o) then 0xC0 else 0)
    + (if HasWill(o) then 4 + o.willQos * 8 + Bit(o.willRetain) * 32 else 0)
  }

  /** The strings behind the fixed part, in the order they are sent. */
  function Texts(o: Options): seq<seq<byte>> {
    [o.clientId] + (if HasWill(o) then [o.willTopic, o.willMessage] else [])
    + (if HasUser(o) then [o.user, o.password] else [])
  }

  function TextsSize(texts: seq<seq<byte>>): nat {
    if texts == [] then 0 else 2 + |texts[0]| + TextsSize(texts[1..])
  }

  function Size(o: Options): nat {
    10 + TextsSize(Texts(o))
  }

  function FixedPart(o: Options): seq<byte>
    requires Wellformed(o) && o.keepAlive < 65536
  {
    [0, 4, 0x4D, 0x51, 0x54, 0x54, 4, Flags(o)] + Word(o.keepAlive)
  }

  /** Strings up to the first one that is too long. */
  function TextBytes(texts: seq<seq<byte>>): seq<byte> {
    if texts == [] || |texts[0]| >= 65536 then [] else Text(texts[0]) + TextBytes(texts[1..])
  }

  predicate AllShort(texts: seq<seq<byte>>) {
    forall i :: 0 <= i < |texts| ==> |texts[i]| < 65536
  }

  /** Six bytes are reserved in front; a fifth length byte would take the place of the zero that begins the fixed part. */
  function ConnectBytes(o: Options): seq<byte>
    requires Wellformed(o) && o.keepAlive < 65536
  {
    [0x10] + EncodeLength(Size(o)) + (if |EncodeLength(Size(o))| <= 4 then FixedPart(o) else FixedPart(o)[1..])
    + TextBytes(Texts(o))
  }

  lemma TextsStep(sent: seq<byte>, texts: seq<seq<byte>>, i: nat)
    requires i < |texts|
    ensures |texts[i]| < 65536 ==> sent + TextBytes(texts[i..]) == sent + Text(texts[i]) + TextBytes(texts[i + 1..])
    ensures |texts[i]| >= 65536 ==> sent + TextBytes(texts[i..]) == sent
    ensures AllShort(texts[..i]) && |texts[i]| < 65536 ==> AllShort(texts[..i + 1])
    ensures AllShort(texts) ==> |texts[i]| < 65536
  {
    assert texts[i..][0] == texts[i] && texts[i..][1..] == texts[i + 1..];
    assert texts[..i + 1] == texts[..i] + [texts[i]];
    if |texts[i]| < 65536 {
      BytesRegroup(sent, Text(texts[i]), TextBytes(texts[i + 1..]));
    }
  }

  method SendTexts(client: Client, texts: seq<seq<byte>>) returns (sent: bool)
    modifies client`output
    ensures sent <==> AllShort(texts)
    ensures client.output == old(client.output) + TextBytes(texts)
  {
    sent := true;
    var i := 0;
    while i < |texts|
      invariant i <= |texts| && AllShort(texts[..i])
      invariant client.output + TextBytes(texts[i..]) == old(client.output) + TextBytes(texts)
    {
      TextsStep(client.output, texts, i);
      sent := client.SendStr(texts[i]);
      if !sent {
        return;
      }
      i := i + 1;
    }
    assert texts[..i] == texts && texts[i..] == [];
  }

  /** The flags are gathered bit by bit in the array; the will's quality takes bits 3 and 4. */
  method FillFlags(msg: array<byte>, o: Options)
    requires Wellformed(o) && msg.Length == 9
    modifies msg
    ensures msg[..] == old(msg[..])[6 := Flags(o)]
  {
    msg[6] := Bit(o.clean) * 2;
    if o.user != [] {
      msg[6] := msg[6] + 0xC0;
    }
    if o.willTopic != [] {
      msg[6] := msg[6] + (4 + o.willQos * 8);
      msg[6] := msg[6] + Bit(o.willRetain) * 32;
    }
  }

  /** The fixed part without its first byte, and the length field of the whole packet. */
  method BuildFixedPart(o: Options) returns (r: Result<(array<byte>, nat), Fault>)
    requires Wellformed(o)
    ensures r.Failure? <==> o.keepAlive >= 65536
    ensures r.Failure? ==> r.fault == AssertionFailed
    ensures r.Success? ==> fresh(r.value.0) && [0] + r.value.0[..] == FixedPart(o) && r.value.1 == Size(o)
  {
    hide Size;
    hide Flags;
    var msg := new byte[9] [4, 0x4D, 0x51, 0x54, 0x54, 4, 2, 0, 0];
    var size := 10 + 2 + |o.clientId|;
    if o.user != [] {
      size := size + (2 + |o.user| + 2 + |o.password|);
    }
    if o.keepAlive != 0 {
      if o.keepAlive >= 65536 {
        return Failure(AssertionFailed);
      }
      msg[7], msg[8] := o.keepAlive / 256, o.keepAlive % 256;
    }
    if o.willTopic != [] {
      size := size + (2 + |o.willTopic| + 2 + |o.willMessage|);
    }
    SizeIsSum(o);
    FillFlags(msg, o);
    return Success((msg, size));
  }

  /** Both byte arrays are written before the strings, which follow one by one. */
  method SendConnect(client: Client, o: Options) returns (r: Result<(), Fault>)
    requires Wellformed(o)
    modifies client`output
    ensures r == if o.keepAlive >= 65536 then Failure(AssertionFailed)
                 else if |EncodeLength(Size(o))| > 5 then Failure(IndexError)
                 else if AllShort(Texts(o)) then Success(())
                 else Failure(StructError)
    ensures client.output == if o.keepAlive >= 65536 || |EncodeLength(Size(o))| > 5 then old(client.output)
                             else old(client.output) + ConnectBytes(o)
  {
    hide FixedPart;
    hide Texts;
    hide TextBytes;
    hide Size;
    hide EncodeLength;
    var fixed := BuildFixedPart(o);
    if fixed.Failure? {
      return Failure(fixed.fault);
    }
    var (msg, size) := fixed.value;
    var premsg := new byte[6] [0x10, 0, 0, 0, 0, 0];
    var used := FillLongLength(premsg, size);
    if used == None {
      return Failure(IndexError);
    }
    var written := if used.value + 1 <= premsg.Length then used.value + 1 else premsg.Length;
    assert premsg[..written] == premsg[..used.value] + if written > used.value then [0] else [];
    client.output := client.output + premsg[..written];
    client.output := client.output + msg[..];
    ConnectParts(old(client.output), premsg[..used.value], msg[..], written > used.value, FixedPart(o), TextBytes(Texts(o)));
    var sent := SendTexts(client, Texts(o));
    r := if sent then Success(()) else Failure(StructError);
  }

  lemma PairSize(first: seq<byte>, second: seq<byte>, more: seq<seq<byte>>)
    ensures TextsSize([first, second] + more) == 4 + |first| + |second| + TextsSize(more)
  {
    assert ([first, second] + more)[1..] == [second] + more;
    assert ([second] + more)[1..] == more;
  }

  lemma SizeIsSum(o: Options)
    ensures Size(o) == 10 + 2 + |o.clientId| + (if HasWill(o) then 4 + |o.willTopic| + |o.willMessage| else 0)
                       + (if HasUser(o) then 4 + |o.user| + |o.password| else 0)
  {
    var login := if HasUser(o) then [o.user, o.password] else [];
    var will := if HasWill(o) then [o.willTopic, o.willMessage] else [];
    assert Texts(o) == [o.clientId] + (will + login) && Texts(o)[1..] == will + login;
    PairSize(o.user, o.password, []);
    assert [o.user, o.password] + [] == [o.user, o.password];
    PairSize(o.willTopic, o.willMessage, login);
    assert [] + login == login;
  }

  lemma ConnectParts(sent: seq<byte>, start: seq<byte>, msg: seq<byte>, zero: bool, fixed: seq<byte>, texts: seq<byte>)
    requires fixed == [0] + msg
    ensures sent + (start + if zero then [0] else []) + msg + texts == sent + (start + (if zero then fixed else fixed[1..]) + texts)
  {
    assert fixed[1..] == msg;
  }

  lemma LengthFitsFour(n: nat)
    ensures n < 268435456 ==> |EncodeLength(n)| <= 4
  {
    if n < 268435456 {
      assert n / 128 < 2097152;
      LengthFitsHeader(n / 128);
      assert n >= 128 ==> |EncodeLength(n)| == 1 + |EncodeLength(n / 128)|;
    }
  }

  /** The length field in place, while the array lasts; the bytes behind it stay zero. */
  method FillLongLength(premsg: array<byte>, length: nat) returns (used: Option<nat>)
    requires premsg.Length == 6 && forall i :: 1 <= i < 6 ==> premsg[i] == 0
    modifies premsg
    ensures used.None? <==> |EncodeLength(length)| > 5
    ensures used.Some? ==>
              && used.value == 1 + |EncodeLength(length)| <= 6
              && premsg[..used.value] == [old(premsg[0])] + EncodeLength(length)
              && forall i :: used.value <= i < 6 ==> premsg[i] == 0
  {
    var size, i := length, 1;
    while size > 127
      invariant 1 <= i <= 6 && i + |EncodeLength(size)| == 1 + |EncodeLength(length)|
      invariant premsg[..i] + EncodeLength(size) == [old(premsg[0])] + EncodeLength(length)
      invariant forall k :: i <= k < 6 ==> premsg[k] == 0
    {
      if i == premsg.Length {
        return None;
      }
      var low := EncodeLength(size)[0];
      assert premsg[..i] + EncodeLength(size) == premsg[..i] + [low] + EncodeLength(size / 128);
      premsg[i] := size % 128 + 128;
      assert premsg[..i + 1] == premsg[..i] + [low];
      size := size / 128;
      i := i + 1;
    }
    if i == premsg.Length {
      return None;
    }
    premsg[i] := size as byte;
    assert premsg[..i + 1] == premsg[..i] + EncodeLength(size);
    return Some(i + 1);
  }

  // ---------------------------------------------------------------------------
  // Reading, as section 3.1 of MQTT 3.1.1 prescribes
  // ---------------------------------------------------------------------------

  function ReadText(bytes: seq<byte>): Option<(seq<byte>, seq<byte>)> {
    if |bytes| < 2 || |bytes| < 2 + ReadWord(bytes) then None
    else Some((bytes[2..2 + ReadWord(bytes)], bytes[2 + ReadWord(bytes)..]))
  }

  function ReadTexts(bytes: seq<byte>, n: nat): Option<(seq<seq<byte>>, seq<byte>)>
    decreases n
  {
    if n == 0 then Some(([], bytes))
    else
      match ReadText(bytes)
      case None => None
      case Some((text, more)) =>
        match ReadTexts(more, n - 1)
        case None => None
        case Some((texts, rest)) => Some(([text] + texts, rest))
  }

  predicate Has(flags: byte, bit: nat)
    requires bit > 0
  {
    flags / bit % 2 == 1
  }

  function FromTexts(flags: byte, keepAlive: nat, texts: seq<seq<byte>>): Options
    requires |texts| == 1 + (if Has(flags, 4) then 2 else 0) + (if Has(flags, 128) then 2 else 0)
  {
    var will, user := Has(flags, 4), Has(flags, 128);
    var login := if will then 3 else 1;
    Options(texts[0], Has(flags, 2), keepAlive,
            if user then texts[login] else [], if user then texts[login + 1] else [],
            if will then texts[1] else [], if will then texts[2] else [],
            flags / 8 % 4, Has(flags, 32))
  }

  /** A server's view: the options, and the bytes behind the packet.  The length field must be exact. */
  ghost predicate Reads(bytes: seq<byte>, o: Options, rest: seq<byte>) {
    exists texts: seq<seq<byte>> ::
      && |bytes| > 0 && bytes[0] == 0x10
      && DecodeLength(bytes[1..]).Some?
      && var (size, body) := DecodeLength(bytes[1..]).value;
      && |body| >= 10 && body[..7] == [0, 4, 0x4D, 0x51, 0x54, 0x54, 4]
      && var flags := body[7];
      && Has(flags, 64) == Has(flags, 128)
      && ReadTexts(body[10..], 1 + (if Has(flags, 4) then 2 else 0) + (if Has(flags, 128) then 2 else 0)) == Some((texts, rest))
      && |texts| == 1 + (if Has(flags, 4) then 2 else 0) + (if Has(flags, 128) then 2 else 0)
      && o == FromTexts(flags, ReadWord(body[8..]), texts)
      && |body| == size + |rest|
  }

  lemma TextRoundTrip(text: seq<byte>, more: seq<byte>)
    requires |text| < 65536
    ensures ReadText(Text(text) + more) == Some((text, more))
  {
    var bytes := Text(text) + more;
    assert bytes == Word(|text|) + (text + more);
    assert ReadWord(bytes) == |text|;
    assert bytes[2..2 + |text|] == text && bytes[2 + |text|..] == more;
  }

  lemma {:induction false} TextsRoundTrip(texts: seq<seq<byte>>, rest: seq<byte>)
    requires AllShort(texts)
    ensures ReadTexts(TextBytes(texts) + rest, |texts|) == Some((texts, rest))
    decreases |texts|
  {
    if texts == [] {
      assert TextBytes(texts) + rest == rest;
    } else {
      hide ReadText;
      hide Text;
      var more := TextBytes(texts[1..]) + rest;
      BytesRegroup(Text(texts[0]), TextBytes(texts[1..]), rest);
      TextRoundTrip(texts[0], more);
      TextsRoundTrip(texts[1..], rest);
      assert [texts[0]] + texts[1..] == texts;
    }
  }

  lemma {:induction false} TextBytesSize(texts: seq<seq<byte>>)
    requires AllShort(texts)
    ensures |TextBytes(texts)| == TextsSize(texts)
  {
    if texts != [] {
      TextBytesSize(texts[1..]);
    }
  }

  lemma FlagsRoundTrip(o: Options)
    requires Wellformed(o)
    ensures Has(Flags(o), 2) == o.clean && Has(Flags(o), 4) == HasWill(o)
    ensures Has(Flags(o), 64) == HasUser(o) && Has(Flags(o), 128) == HasUser(o)
    ensures Flags(o) / 8 % 4 == (if HasWill(o) then o.willQos else 0)
    ensures Has(Flags(o), 32) == (HasWill(o) && o.willRetain)
  {
  }

  /** Strings that are short enough make a packet whose length takes four bytes at most. */
  lemma ShortTextsFit(o: Options)
    requires AllShort(Texts(o))
    ensures |EncodeLength(Size(o))| <= 4
  {
    SizeIsSum(o);
    assert Texts(o)[0] == o.clientId;
    assert HasWill(o) ==> Texts(o)[1] == o.willTopic && Texts(o)[2] == o.willMessage;
    assert HasUser(o) ==> Texts(o)[|Texts(o)| - 2] == o.user && Texts(o)[|Texts(o)| - 1] == o.password;
    LengthFitsFour(Size(o));
  }

  /** Reading the packet back gives the options, the length field counts every byte, and nothing behind is touched. */
  lemma ConnectRoundTrip(o: Options, rest: seq<byte>)
    requires Wellformed(o) && o.keepAlive < 65536 && AllShort(Texts(o))
    ensures Reads(ConnectBytes(o) + rest, Told(o), rest)
  {
    hide EncodeLength;
    hide DecodeLength;
    hide TextBytes;
    hide ReadTexts;
    ShortTextsFit(o);
    var bytes := ConnectBytes(o) + rest;
    var body := FixedPart(o) + (TextBytes(Texts(o)) + rest);
    assert bytes[1..] == EncodeLength(Size(o)) + body;
    LengthRoundTrip(Size(o), body);
    FlagsRoundTrip(o);
    TextsRoundTrip(Texts(o), rest);
    TextBytesSize(Texts(o));
    SizeIsSum(o);
    assert body[10..] == TextBytes(Texts(o)) + rest;
    assert body[8..] == Word(o.keepAlive) + (TextBytes(Texts(o)) + rest);
    assert ReadWord(body[8..]) == o.keepAlive;
    assert body[..7] == [0, 4, 0x4D, 0x51, 0x54, 0x54, 4] && body[7] == Flags(o);
    assert FromTexts(Flags(o), o.keepAlive, Texts(o)) == Told(o);
  }
}
