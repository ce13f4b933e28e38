/** The compose message handed to the recipient (programs/paye-oft/src/compose_msg_codec.rs):
    [0..8] nonce, [8..12] source EID, [12..20] amount in local decimals, [20..52] sender, [52..] payload. */
module ComposeMsgCodec {
  import opened Primitives
  import opened BigEndian
  import MsgCodec

  const SRC_EID_OFFSET := 8
  const AMOUNT_LD_OFFSET := 12
  const COMPOSE_FROM_OFFSET := 20
  const COMPOSE_MSG_OFFSET := 52

  function Encode(nonce: U64, srcEid: U32, amountLd: U64, composeMsg: Bytes): (m: Bytes)
    ensures |m| == COMPOSE_FROM_OFFSET + |composeMsg|
  {
    U64Bytes(nonce) + U32Bytes(srcEid) + U64Bytes(amountLd) + composeMsg
  }

  function Nonce(message: Bytes): U64 {
    if SRC_EID_OFFSET <= |message| then U64FromBytes(message[..SRC_EID_OFFSET]) else 0
  }

  function SrcEid(message: Bytes): U32 {
    if AMOUNT_LD_OFFSET <= |message| then U32FromBytes(message[SRC_EID_OFFSET..AMOUNT_LD_OFFSET]) else 0
  }

  function AmountLd(message: Bytes): U64 {
    if COMPOSE_FROM_OFFSET <= |message| then U64FromBytes(message[AMOUNT_LD_OFFSET..COMPOSE_FROM_OFFSET]) else 0
  }

  function ComposeFrom(message: Bytes): Bytes32 {
    if COMPOSE_MSG_OFFSET <= |message| then message[COMPOSE_FROM_OFFSET..COMPOSE_MSG_OFFSET] else ZERO32
  }

  function ComposeMsg(message: Bytes): Bytes {
    if |message| > COMPOSE_MSG_OFFSET then message[COMPOSE_MSG_OFFSET..] else []
  }

  method AppendCompose(nonce: U64, srcEid: U32, amountLd: U64, composeMsg: Bytes) returns (encoded: Bytes)
    ensures encoded == Encode(nonce, srcEid, amountLd, composeMsg)
  {
    encoded := [];
    encoded := encoded + U64Bytes(nonce);
    encoded := encoded + U32Bytes(srcEid);
    encoded := encoded + U64Bytes(amountLd);
    encoded := encoded + composeMsg;
  }

  method ReadComposeFrom(message: Bytes) returns (from: array<U8>)
    ensures fresh(from) && from[..] == ComposeFrom(message)
  {
    from := new U8[32](i => 0);
    if COMPOSE_MSG_OFFSET <= |message| {
      forall i | 0 <= i < 32 {
        from[i] := message[COMPOSE_FROM_OFFSET + i];
      }
    }
  }

  /** `nonce`, `src_eid` and `amount_ld` differ only in the width and place of the local array. */
  method ReadInteger(message: Bytes, start: nat, width: nat) returns (value: nat)
    ensures value == if start + width <= |message| then FromBytes(message[start..start + width]) else 0
  {
    var bytes := new U8[width](i => 0);
    if start + width <= |message| {
      forall i | 0 <= i < width {
        bytes[i] := message[start + i];
      }
      assert bytes[..] == message[start..start + width];
    } else {
      MsgCodec.ZerosDecode(bytes[..]);
    }
    value := FromBytes(bytes[..]);
  }

  lemma Header(nonce: U64, srcEid: U32, amountLd: U64, rest: Bytes)
    ensures var m := Encode(nonce, srcEid, amountLd, rest);
            && Nonce(m) == nonce && SrcEid(m) == srcEid && AmountLd(m) == amountLd && m[20..] == rest
  {
    var m := Encode(nonce, srcEid, amountLd, rest);
    assert m[..8] == U64Bytes(nonce);
    assert m[8..12] == U32Bytes(srcEid);
    assert m[12..20] == U64Bytes(amountLd);
    U64RoundTrip(nonce, U64Bytes(nonce));
    U64RoundTrip(amountLd, U64Bytes(amountLd));
    U32RoundTrip(srcEid, U32Bytes(srcEid));
  }

  /** The five decoders recover what was encoded around a whole sender and payload, the empty one included. */
  lemma DecodesEncoded(nonce: U64, srcEid: U32, amountLd: U64, from: Bytes32, payload: Bytes)
    ensures var m := Encode(nonce, srcEid, amountLd, from + payload);
            && Nonce(m) == nonce && SrcEid(m) == srcEid && AmountLd(m) == amountLd
            && ComposeFrom(m) == from && ComposeMsg(m) == payload
  {
    var m := Encode(nonce, srcEid, amountLd, from + payload);
    Header(nonce, srcEid, amountLd, from + payload);
    assert m[20..52] == m[20..][..32] == from;
    assert m[52..] == m[20..][32..] == payload;
  }

  /** Conversely, any message long enough to hold every field is the encoding of what the decoders read. */
  lemma EncodesDecoded(m: Bytes)
    requires |m| >= COMPOSE_MSG_OFFSET
    ensures Encode(Nonce(m), SrcEid(m), AmountLd(m), ComposeFrom(m) + ComposeMsg(m)) == m
  {
    U64RoundTrip(0, m[..8]);
    U32RoundTrip(0, m[8..12]);
    U64RoundTrip(0, m[12..20]);
    assert m == m[..8] + m[8..12] + m[12..20] + (m[20..52] + m[52..]);
  }

  /** The layout: nonce, source and amount with their most significant bytes first, at 0, 8 and 12, and from 20 on
      what follows the amount on the wire. */
  ghost predicate Carries(m: Bytes, nonce: U64, srcEid: U32, amountLd: U64, rest: Bytes) {
    && |m| == 20 + |rest| && m[20..] == rest
    && Holds(m[..8], nonce) && Holds(m[8..12], srcEid) && Holds(m[12..20], amountLd)
  }

  lemma LaysOut(nonce: U64, srcEid: U32, amountLd: U64, rest: Bytes)
    ensures Carries(Encode(nonce, srcEid, amountLd, rest), nonce, srcEid, amountLd, rest)
  {
    var m := Encode(nonce, srcEid, amountLd, rest);
    U64Holds(nonce, U64Bytes(nonce));
    U32Holds(srcEid, U32Bytes(srcEid));
    U64Holds(amountLd, U64Bytes(amountLd));
    assert m[..8] == U64Bytes(nonce) && m[8..12] == U32Bytes(srcEid) && m[12..20] == U64Bytes(amountLd);
  }

  /** The decoders on any byte string: a field that is cut off reads as zeros, a missing payload as empty. */
  lemma ReadsLayout(m: Bytes)
    ensures if |m| >= 8 then Holds(m[..8], Nonce(m)) else Nonce(m) == 0
    ensures if |m| >= 12 then Holds(m[8..12], SrcEid(m)) else SrcEid(m) == 0
    ensures if |m| >= 20 then Holds(m[12..20], AmountLd(m)) else AmountLd(m) == 0
    ensures ComposeFrom(m) == if |m| >= 52 then m[20..52] else seq(32, _ => 0)
    ensures ComposeMsg(m) == if |m| >= 52 then m[52..] else []
  {
    if |m| >= 8 { U64Holds(0, m[..8]); }
    if |m| >= 12 { U32Holds(0, m[8..12]); }
    if |m| >= 20 { U64Holds(0, m[12..20]); }
  }

  /** For an arbitrary wire message with a compose part, re-encoding shows the recipient the bytes at
      40..72 as sender and 72.. as payload when the message holds a whole sender; a shorter tail reads as
      the zero sender and no payload. */
  lemma ReadsWireTail(wire: Bytes, nonce: U64, srcEid: U32, amountLd: U64)
    requires MsgCodec.ComposeMsg(wire).Some?
    ensures var m := Encode(nonce, srcEid, amountLd, MsgCodec.ComposeMsg(wire).value);
            && Nonce(m) == nonce && SrcEid(m) == srcEid && AmountLd(m) == amountLd
            && ComposeFrom(m) == (if |wire| >= 72 then wire[40..72] else ZERO32)
            && ComposeMsg(m) == (if |wire| >= 72 then wire[72..] else [])
  {
    var tail := MsgCodec.ComposeMsg(wire).value;
    if |wire| >= 72 {
      assert tail == wire[40..72] + wire[72..];
      DecodesEncoded(nonce, srcEid, amountLd, wire[40..72], wire[72..]);
    } else {
      Header(nonce, srcEid, amountLd, tail);
    }
  }
}
