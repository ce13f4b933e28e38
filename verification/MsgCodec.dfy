/** The OFT wire message (programs/paye-oft/src/msg_codec.rs):
    [0..32] recipient, [32..40] amount in shared decimals, [40..] optional sender and payload. */
module MsgCodec {
  import opened Primitives
  import opened BigEndian

  const SEND_AMOUNT_SD_OFFSET := 32
  const COMPOSE_MSG_OFFSET := 40

  function Encode(sendTo: Bytes32, amountSd: U64, sender: Pubkey, composeMsg: Option<Bytes>): (m: Bytes)
    ensures |m| == COMPOSE_MSG_OFFSET + (if composeMsg.Some? then 32 + |composeMsg.value| else 0)
  {
    match composeMsg
    case Some(msg) => sendTo + U64Bytes(amountSd) + sender + msg
    case None => sendTo + U64Bytes(amountSd)
  }

  function SendTo(message: Bytes): Bytes32 {
    if SEND_AMOUNT_SD_OFFSET <= |message| then message[..SEND_AMOUNT_SD_OFFSET] else ZERO32
  }

  function AmountSd(message: Bytes): U64 {
    if COMPOSE_MSG_OFFSET <= |message| then U64FromBytes(message[SEND_AMOUNT_SD_OFFSET..COMPOSE_MSG_OFFSET]) else 0
  }

  function ComposeMsg(message: Bytes): Option<Bytes> {
    if |message| > COMPOSE_MSG_OFFSET then Some(message[COMPOSE_MSG_OFFSET..]) else None
  }

  method AppendMessage(sendTo: Bytes32, amountSd: U64, sender: Pubkey, composeMsg: Option<Bytes>) returns (encoded: Bytes)
    ensures encoded == Encode(sendTo, amountSd, sender, composeMsg)
  {
    encoded := [];
    if composeMsg.Some? {
      encoded := encoded + sendTo;
      encoded := encoded + U64Bytes(amountSd);
      encoded := encoded + sender;
      encoded := encoded + composeMsg.value;
    } else {
      encoded := encoded + sendTo;
      encoded := encoded + U64Bytes(amountSd);
    }
  }

  method ReadSendTo(message: Bytes) returns (sendTo: array<U8>)
    ensures fresh(sendTo) && sendTo[..] == SendTo(message)
  {
    sendTo := new U8[32](i => 0);
    if SEND_AMOUNT_SD_OFFSET <= |message| {
      forall i | 0 <= i < 32 {
        sendTo[i] := message[i];
      }
    }
  }

  method ReadAmountSd(message: Bytes) returns (amount: U64)
    ensures amount == AmountSd(message)
  {
    var bytes := new U8[8](i => 0);
    if COMPOSE_MSG_OFFSET <= |message| {
      forall i | 0 <= i < 8 {
        bytes[i] := message[SEND_AMOUNT_SD_OFFSET + i];
      }
      assert bytes[..] == message[SEND_AMOUNT_SD_OFFSET..COMPOSE_MSG_OFFSET];
    } else {
      ZerosDecode(bytes[..]);
    }
    amount := U64FromBytes(bytes[..]);
  }

  lemma {:induction false} ZerosDecode(b: Bytes)
    requires forall i | 0 <= i < |b| :: b[i] == 0
    ensures FromBytes(b) == 0
  {
    if b != [] {
      ZerosDecode(b[..|b| - 1]);
    }
  }

  // ---- Parsing and printing are inverse ------------------------------------------------------------------

  datatype Call = Call(sender: Pubkey, payload: Bytes)

  datatype Message = Message(sendTo: Bytes32, amountSd: U64, call: Option<Call>)

  function Print(m: Message): Bytes {
    match m.call
    case Some(c) => Encode(m.sendTo, m.amountSd, c.sender, Some(c.payload))
    case None => Encode(m.sendTo, m.amountSd, ZERO32, None)
  }

  /** Read a message with the program's three decoders; the compose part must hold a whole sender. */
  function Parse(b: Bytes): Option<Message> {
    if |b| < COMPOSE_MSG_OFFSET then None
    else
      match ComposeMsg(b)
      case None => Some(Message(SendTo(b), AmountSd(b), None))
      case Some(tail) =>
        if |tail| < 32 then None
        else Some(Message(SendTo(b), AmountSd(b), Some(Call(tail[..32], tail[32..]))))
  }

  /** The decoders recover every field of a printed message. */
  lemma ParsesPrinted(m: Message)
    ensures Parse(Print(m)) == Some(m)
  {
    var b := Print(m);
    U64RoundTrip(m.amountSd, U64Bytes(m.amountSd));
    assert b[..32] == m.sendTo;
    assert b[32..40] == U64Bytes(m.amountSd);
    if m.call.Some? {
      var tail := b[40..];
      assert tail[..32] == m.call.value.sender;
      assert tail[32..] == m.call.value.payload;
    }
  }

  lemma PrintsParsed(b: Bytes)
    requires |b| == 40 || |b| >= 72
    ensures Parse(b).Some? && Print(Parse(b).value) == b
  {
    var head, tail := b[..40], b[40..];
    U64RoundTrip(0, b[32..40]);
    assert head == b[..32] + b[32..40];
    if |b| == 40 {
      assert b == head;
    } else {
      assert tail == tail[..32] + tail[32..];
      assert b == head + tail;
      assert Print(Parse(b).value) == head + tail[..32] + tail[32..];
    }
  }

  /** The printed messages are exactly the byte strings of length 40 or at least 72: lengths 0..39 and
      41..71 have no preimage. */
  lemma PrintableLengths(b: Bytes)
    ensures (exists m: Message :: Print(m) == b) <==> |b| == 40 || |b| >= 72
  {
    if |b| == 40 || |b| >= 72 { PrintsParsed(b); }
  }

  /** Two messages with the same bytes are the same message. */
  lemma PrintInjective(m: Message, n: Message)
    requires Print(m) == Print(n)
    ensures m == n
  {
    ParsesPrinted(m);
    ParsesPrinted(n);
  }

  // ---- The layout ------------------------------------------------------------------------------------------

  /** Bytes 0 to 31 are the recipient, 32 to 39 the amount with its most significant byte first, and the rest is
      the sender followed by the payload, or nothing. */
  lemma LaysOut(sendTo: Bytes32, amountSd: U64, sender: Pubkey, composeMsg: Option<Bytes>)
    ensures var m := Encode(sendTo, amountSd, sender, composeMsg);
            m[..32] == sendTo && Holds(m[32..40], amountSd)
            && m[40..] == match composeMsg case Some(payload) => sender + payload case None => []
  {
    var m := Encode(sendTo, amountSd, sender, composeMsg);
    U64Holds(amountSd, U64Bytes(amountSd));
    assert m[..32] == sendTo;
    assert m[32..40] == U64Bytes(amountSd);
    if composeMsg.Some? { assert m[40..] == sender + composeMsg.value; }
  }

  /** What the decoders read from any byte string: those places, with zeros for a recipient or an amount that is
      cut off, and a compose part exactly when there are more than 40 bytes. */
  lemma ReadsLayout(m: Bytes)
    ensures SendTo(m) == if |m| >= 32 then m[..32] else seq(32, _ => 0)
    ensures if |m| >= 40 then Holds(m[32..40], AmountSd(m)) else AmountSd(m) == 0
    ensures ComposeMsg(m) == if |m| > 40 then Some(m[40..]) else None
  {
    if |m| >= 40 { U64Holds(0, m[32..40]); }
  }

  /** What each decoder reads from an encoded send. */
  lemma DecodesSend(sendTo: Bytes32, amountSd: U64, sender: Pubkey, composeMsg: Option<Bytes>)
    ensures var b := Encode(sendTo, amountSd, sender, composeMsg);
            && SendTo(b) == sendTo && AmountSd(b) == amountSd
            && ComposeMsg(b) == if composeMsg.Some? then Some(sender + composeMsg.value) else None
  {
    var call := if composeMsg.Some? then Some(Call(sender, composeMsg.value)) else None;
    var m := Message(sendTo, amountSd, call);
    ParsesPrinted(m);
    var b := Print(m);
    if composeMsg.Some? { assert b[40..] == sender + composeMsg.value; }
  }
}
