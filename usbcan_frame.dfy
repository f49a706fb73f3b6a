// The serial framing of the USB/UDP-to-CAN bridge: STX, a 16-bit
// big-endian payload length, the payload and its big-endian CRC-16;
// the per-type frame builders, which place a payload at offset 3 and
// wrap it in place; and the parser of generic CAN frames.
module UsbcanFrame {
  import opened Arith
  import opened UsbcanUtil
  import opened CoCommon
  import opened UsbcanTypes

  const USB_CAN_STX: int := 2
  const USB_CAN_HEAD_SZ: int := 3
  const USB_CAN_OHEAD: int := 5
  const USB_CAN_EID_FLAG: int := 0x4000_0000
  const USB_CAN_MAX_PAYLOAD: int := 4096

  /** A 16-bit unsigned value (uint16_t). */
  type Word16 = x: int | 0 <= x < 0x1_0000

  /**
   * crc16_ccitt started from 0 over a byte string. Its code is not part of
   * this model; every statement here holds for any such function.
   */
  type Crc16 = seq<Byte> -> Word16

  /** The wire image of a payload: STX, length (big-endian, 16 bits), payload, CRC-16 (big-endian). */
  function Frame(payload: seq<Byte>, crc16: Crc16): seq<Byte>
  {
    [USB_CAN_STX] + BeBytes(|payload|, 2) + payload + BeBytes(crc16(payload), 2)
  }

  /** After writing `bytes` at p, the run from lo grows by those bytes and nothing else moves. */
  lemma Appended(before: seq<Byte>, after: seq<Byte>, lo: nat, p: nat, bytes: seq<Byte>, acc: seq<Byte>)
    requires lo <= p && p + |bytes| <= |before|
    requires before[lo..p] == acc
    requires after == before[..p] + bytes + before[p + |bytes|..]
    ensures |after| == |before|
    ensures after[lo..p + |bytes|] == acc + bytes
    ensures after[p + |bytes|..] == before[p + |bytes|..]
    ensures after[..lo] == before[..lo]
  {
    assert after[lo..p + |bytes|] == after[lo..p] + after[p..p + |bytes|];
  }

  /** One byte written with set_ux_ is the value's low byte. */
  lemma OneByte(v: nat)
    ensures BeBytes(v, 1) == [v % 256]
  {
    assert Pow256(0) == 1;
  }

  /**
   * usbcan_wrap_inplace: the payload already sits at dst[3..3+n); writes
   * STX and the length in front of it and the CRC behind it, and returns
   * the frame size n + 5. Bytes beyond the frame are not touched.
   */
  method WrapInplace(dst: array<Byte>, payloadSz: int, crc16: Crc16) returns (p: int)
    requires 0 <= payloadSz < 0x8000_0000 && payloadSz + USB_CAN_OHEAD <= dst.Length
    modifies dst
    ensures p == payloadSz + USB_CAN_OHEAD
    ensures dst[..p] == Frame(old(dst[USB_CAN_HEAD_SZ..USB_CAN_HEAD_SZ + payloadSz]), crc16)
    ensures dst[p..] == old(dst[p..])
  {
    ghost var payload := dst[3..3 + payloadSz];
    p := PutHeader(dst, payloadSz);
    ghost var d2 := dst[..];
    assert d2[3..3 + payloadSz] == payload;
    var crc := crc16(dst[p..p + payloadSz]);
    Appended(d2, d2, 0, 3, payload, d2[..3]);
    p := p + payloadSz;
    p := SetUx(dst, p, 2, crc);
    Appended(d2, dst[..], 0, p - 2, BeBytes(crc, 2), d2[..p - 2]);
  }

  /** The first half of usbcan_wrap_inplace: STX and the payload length in front of the payload. */
  method PutHeader(dst: array<Byte>, payloadSz: int) returns (p: int)
    requires 0 <= payloadSz < 0x8000_0000 && USB_CAN_HEAD_SZ <= dst.Length
    modifies dst
    ensures p == USB_CAN_HEAD_SZ
    ensures dst[..p] == [USB_CAN_STX] + BeBytes(payloadSz, 2) && dst[p..] == old(dst[p..])
  {
    ghost var d0 := dst[..];
    p := SetUx(dst, 0, 1, USB_CAN_STX);
    ghost var d1 := dst[..];
    Appended(d0, d1, 0, 0, BeBytes(USB_CAN_STX, 1), []);
    p := SetUx(dst, p, 2, payloadSz);
    Appended(d1, dst[..], 0, 1, BeBytes(payloadSz, 2), BeBytes(USB_CAN_STX, 1));
    OneByte(USB_CAN_STX);
  }

  /** set_ux_ on msg = dst + 3, the payload area of a frame being built: appends to the payload so far. */
  method SetMsg(dst: array<Byte>, q: int, x: int, v: nat, ghost acc: seq<Byte>) returns (q': int)
    requires USB_CAN_HEAD_SZ <= q && 0 <= x <= 8 && q + x <= dst.Length && v < U64
    requires dst[USB_CAN_HEAD_SZ..q] == acc
    modifies dst
    ensures q' == q + x && dst[USB_CAN_HEAD_SZ..q'] == acc + BeBytes(v, x)
    ensures dst[q'..] == old(dst[q'..])
  {
    ghost var d0 := dst[..];
    q' := SetUx(dst, q, x, v);
    Appended(d0, dst[..], USB_CAN_HEAD_SZ, q, BeBytes(v, x), acc);
  }

  /** memcpy into the payload area: appends the bytes to the payload so far. */
  method CopyMsg(dst: array<Byte>, q: int, bytes: seq<Byte>, ghost acc: seq<Byte>) returns (q': int)
    requires USB_CAN_HEAD_SZ <= q && q + |bytes| <= dst.Length
    requires dst[USB_CAN_HEAD_SZ..q] == acc
    modifies dst
    ensures q' == q + |bytes| && dst[USB_CAN_HEAD_SZ..q'] == acc + bytes
    ensures dst[q'..] == old(dst[q'..])
  {
    ghost var d0 := dst[..];
    CopyIn(dst, q, bytes);
    Appended(d0, dst[..], USB_CAN_HEAD_SZ, q, bytes, acc);
    q' := q + |bytes|;
  }

  /** The NMT command frame: type, node id and command, each one byte. */
  function NmtPayload(id: int, cmd: int): seq<Byte>
  {
    [COM_NMT, id % 256, cmd % 256]
  }

  /** The heartbeat frame: type, node id and NMT state, each one byte (a negative state wraps). */
  function HbPayload(id: int, state: int): seq<Byte>
  {
    [COM_HB, id % 256, state % 256]
  }

  /** The timestamp frame: type and the 32-bit time, big-endian. */
  function TimestampPayload(ts: nat): seq<Byte>
  {
    [COM_TIMESTAMP] + BeBytes(ts, 4)
  }

  lemma LowByte(v: int)
    ensures BeBytes(v % U64, 1) == [v % 256]
  {
    OneByte(v % U64);
    var k := -(v / U64) * (U64 / 256);
    assert v % U64 == v + k * 256;
    ModShift(v, k, 256);
  }

  /** usbcan_build_nmt: the frame of an NMT command to node id. */
  method BuildNmt(dst: array<Byte>, id: int, cmd: int, crc16: Crc16) returns (l: int)
    requires USB_CAN_OHEAD + 3 <= dst.Length
    modifies dst
    ensures l == 8 && dst[..l] == Frame(NmtPayload(id, cmd), crc16)
  {
    var q := SetMsg(dst, USB_CAN_HEAD_SZ, 1, COM_NMT, []);
    q := SetMsg(dst, q, 1, id % U64, BeBytes(COM_NMT, 1));
    q := SetMsg(dst, q, 1, cmd % 256, BeBytes(COM_NMT, 1) + BeBytes(id % U64, 1));
    OneByte(COM_NMT);
    LowByte(id);
    OneByte(cmd % 256);
    assert dst[USB_CAN_HEAD_SZ..q] == NmtPayload(id, cmd);
    l := WrapInplace(dst, q - USB_CAN_HEAD_SZ, crc16);
  }

  /** usbcan_build_hb: the frame of a heartbeat of node id in the given state. */
  method BuildHb(dst: array<Byte>, id: int, state: int, crc16: Crc16) returns (l: int)
    requires USB_CAN_OHEAD + 3 <= dst.Length
    modifies dst
    ensures l == 8 && dst[..l] == Frame(HbPayload(id, state), crc16)
  {
    var q := SetMsg(dst, USB_CAN_HEAD_SZ, 1, COM_HB, []);
    q := SetMsg(dst, q, 1, id % U64, BeBytes(COM_HB, 1));
    q := SetMsg(dst, q, 1, state % 256, BeBytes(COM_HB, 1) + BeBytes(id % U64, 1));
    OneByte(COM_HB);
    LowByte(id);
    OneByte(state % 256);
    assert dst[USB_CAN_HEAD_SZ..q] == HbPayload(id, state);
    l := WrapInplace(dst, q - USB_CAN_HEAD_SZ, crc16);
  }

  /** usbcan_build_timestamp: the frame of a 32-bit timestamp. */
  method BuildTimestamp(dst: array<Byte>, ts: nat, crc16: Crc16) returns (l: int)
    requires ts < U32 && USB_CAN_OHEAD + 5 <= dst.Length
    modifies dst
    ensures l == 10 && dst[..l] == Frame(TimestampPayload(ts), crc16)
  {
    var q := SetMsg(dst, USB_CAN_HEAD_SZ, 1, COM_TIMESTAMP, []);
    q := SetMsg(dst, q, 4, ts, BeBytes(COM_TIMESTAMP, 1));
    OneByte(COM_TIMESTAMP);
    assert dst[USB_CAN_HEAD_SZ..q] == TimestampPayload(ts);
    l := WrapInplace(dst, q - USB_CAN_HEAD_SZ, crc16);
  }

  /** The 16-bit word of an SDO request: the timeout in bits 0..12, the retransmission count in bits 13..15. */
  function SdoTimeoutWord(tout: nat, reTxn: nat): nat
  {
    BitOr(tout % 0x2000, (reTxn % 8) * 0x2000)
  }

  /** The two fields of the SDO word do not overlap, so each can be read back from it. */
  lemma SdoTimeoutWordFields(tout: nat, reTxn: nat)
    ensures SdoTimeoutWord(tout, reTxn) == (reTxn % 8) * 0x2000 + tout % 0x2000 < U16
    ensures SdoTimeoutWord(tout, reTxn) % 0x2000 == tout % 0x2000
    ensures SdoTimeoutWord(tout, reTxn) / 0x2000 == reTxn % 8
  {
    var a, b := (reTxn % 8) * 0x2000, tout % 0x2000;
    BitOrComm(b, a);
    assert Pow2(13) == 0x2000 by {
      assert Pow2(4) == 16;
      assert Pow2(8) == 256;
    }
    ModUnique(a, 0x2000, reTxn % 8, 0);
    BitOrDisjoint(a, b, 13);
    ModUnique(a + b, 0x2000, reTxn % 8, b);
  }

  /**
   * The SDO request frame: request type (download for a write, upload for
   * a read), node id, index (big-endian), sub-index, the timeout word
   * (big-endian), then the data, for writes only.
   */
  function SdoReqPayload(write: bool, id: Byte, idx: Word16, sidx: Byte, tout: nat, reTxn: Byte,
                         data: seq<Byte>, len: Word16): seq<Byte>
    requires write ==> len <= |data|
  {
    [if write then COM_SDO_TX_REQ else COM_SDO_RX_REQ, id] + BeBytes(idx, 2) + [sidx]
    + BeBytes(SdoTimeoutWord(tout, reTxn), 2) + (if write then data[..len] else [])
  }

  /** usbcan_build_sdo_req: the frame of an SDO download (write) or upload (read) request. */
  method BuildSdoReq(dst: array<Byte>, write: bool, id: Byte, idx: Word16, sidx: Byte, tout: nat, reTxn: Byte,
                     data: seq<Byte>, len: Word16, crc16: Crc16) returns (l: int)
    requires tout < U32 && (write ==> len <= |data|)
    requires USB_CAN_OHEAD + 7 + (if write then len else 0) <= dst.Length
    modifies dst
    ensures l == USB_CAN_OHEAD + 7 + (if write then len else 0)
    ensures dst[..l] == Frame(SdoReqPayload(write, id, idx, sidx, tout, reTxn, data, len), crc16)
  {
    var q := PutSdoReq(dst, write, id, idx, sidx, tout, reTxn, data, len);
    l := WrapInplace(dst, q - USB_CAN_HEAD_SZ, crc16);
  }

  /** The payload half of usbcan_build_sdo_req, written after the frame header. */
  method PutSdoReq(dst: array<Byte>, write: bool, id: Byte, idx: Word16, sidx: Byte, tout: nat, reTxn: Byte,
                   data: seq<Byte>, len: Word16) returns (q: int)
    requires tout < U32 && (write ==> len <= |data|)
    requires USB_CAN_OHEAD + 7 + (if write then len else 0) <= dst.Length
    modifies dst
    ensures q == USB_CAN_HEAD_SZ + 7 + (if write then len else 0)
    ensures dst[USB_CAN_HEAD_SZ..q] == SdoReqPayload(write, id, idx, sidx, tout, reTxn, data, len)
  {
    var kind := if write then COM_SDO_TX_REQ else COM_SDO_RX_REQ;
    q := PutSdoAddress(dst, kind, id, idx, sidx);
    ghost var head := [kind, id] + BeBytes(idx, 2) + [sidx];
    SdoTimeoutWordFields(tout, reTxn);
    var word := BitOr(tout % 0x2000, (reTxn % 8) * 0x2000);
    q := SetMsg(dst, q, 2, word, head);
    if write {
      var bytes := data[..len];
      q := CopyMsg(dst, q, bytes, head + BeBytes(word, 2));
    }
  }

  /** The frame type, node id, index and sub-index of an SDO request. */
  method PutSdoAddress(dst: array<Byte>, kind: Byte, id: Byte, idx: Word16, sidx: Byte) returns (q: int)
    requires USB_CAN_HEAD_SZ + 5 <= dst.Length
    modifies dst
    ensures q == USB_CAN_HEAD_SZ + 5 && dst[USB_CAN_HEAD_SZ..q] == [kind, id] + BeBytes(idx, 2) + [sidx]
  {
    q := PutByte(dst, USB_CAN_HEAD_SZ, kind, []);
    q := PutByte(dst, q, id, [kind]);
    q := SetMsg(dst, q, 2, idx, [kind, id]);
    q := PutByte(dst, q, sidx, [kind, id] + BeBytes(idx, 2));
  }

  /** A single byte appended to the payload so far. */
  method PutByte(dst: array<Byte>, q: int, v: Byte, ghost acc: seq<Byte>) returns (q': int)
    requires USB_CAN_HEAD_SZ <= q && q + 1 <= dst.Length
    requires dst[USB_CAN_HEAD_SZ..q] == acc
    modifies dst
    ensures q' == q + 1 && dst[USB_CAN_HEAD_SZ..q'] == acc + [v]
  {
    OneByte(v);
    q' := SetMsg(dst, q, 1, v, acc);
  }

  /** can_msg_t: a CAN frame with its identifier, data length code and 8 data bytes. */
  datatype CanMsg = CanMsg(id: nat, dlc: nat, data: seq<Byte>)

  predicate ValidMsg(m: CanMsg)
  {
    m.id < U32 && m.dlc <= 8 && |m.data| == 8
  }

  /** The extended-identifier flag, bit 30 of the identifier. */
  predicate IsEid(id: nat)
  {
    (id / USB_CAN_EID_FLAG) % 2 == 1
  }

  /**
   * A generic CAN frame on the wire: type, then the identifier as 4 bytes
   * when it carries the extended flag or else its low 11 bits as 2 bytes,
   * then dlc data bytes.
   */
  function ComFramePayload(m: CanMsg): seq<Byte>
    requires ValidMsg(m)
  {
    [COM_FRAME] + (if IsEid(m.id) then BeBytes(m.id, 4) else BeBytes(m.id % 0x800, 2)) + m.data[..m.dlc]
  }

  /** usbcan_build_com_frame: the frame of a generic CAN message. */
  method BuildComFrame(dst: array<Byte>, m: CanMsg, crc16: Crc16) returns (l: int)
    requires ValidMsg(m) && USB_CAN_OHEAD + 13 <= dst.Length
    modifies dst
    ensures l == USB_CAN_OHEAD + |ComFramePayload(m)|
    ensures dst[..l] == Frame(ComFramePayload(m), crc16)
  {
    var idlen := if (m.id / USB_CAN_EID_FLAG) % 2 == 1 then 4 else 2;
    var q := SetMsg(dst, USB_CAN_HEAD_SZ, 1, COM_FRAME, []);
    OneByte(COM_FRAME);
    q := SetMsg(dst, q, idlen, if idlen == 2 then m.id % 0x800 else m.id, [COM_FRAME]);
    ghost var head := [COM_FRAME] + BeBytes(if idlen == 2 then m.id % 0x800 else m.id, idlen);
    q := CopyMsg(dst, q, m.data[..m.dlc], head);
    assert dst[USB_CAN_HEAD_SZ..q] == ComFramePayload(m);
    l := WrapInplace(dst, q - USB_CAN_HEAD_SZ, crc16);
  }

  /**
   * The identifier width usbcan_parse_com_frame reads: 4 bytes when bit 6
   * of the byte after the type (bit 30 of a 4-byte id) is set, else 2.
   */
  function IdLen(b: Byte): (n: int)
    ensures n == 2 || n == 4
    ensures n == 4 <==> (b / 0x40) % 2 == 1
  {
    if (b / 0x40) % 2 == 1 then 4 else 2
  }

  /**
   * The intended guard: a COM_FRAME payload that holds its identifier and
   * at most 8 data bytes, so that parsing it cannot overrun the message.
   */
  predicate Parseable(msg: seq<Byte>)
  {
    |msg| >= 2 && 1 + IdLen(msg[1]) <= |msg| <= 1 + IdLen(msg[1]) + 8
  }

  /**
   * usbcan_parse_com_frame: a payload of another type leaves the message
   * as it was. Otherwise bit 6 of the next byte (bit 30 of a 4-byte id)
   * selects a 4-byte identifier or a 2-byte one masked to 11 bits; the dlc
   * is what remains of the payload, and that many data bytes are copied.
   */
  function ParseComFrame(m: CanMsg, msg: seq<Byte>): (r: CanMsg)
    requires ValidMsg(m) && |msg| >= 1
    requires msg[0] == COM_FRAME ==> Parseable(msg)
    ensures ValidMsg(r)
    ensures msg[0] != COM_FRAME ==> r == m
    ensures msg[0] == COM_FRAME ==> r.dlc <= |msg| - 3
    ensures msg[0] == COM_FRAME ==> r.data[..r.dlc] == msg[|msg| - r.dlc..] && r.data[r.dlc..] == m.data[r.dlc..]
  {
    if msg[0] != COM_FRAME then m
    else if IdLen(msg[1]) == 4 then
      BeValueBound(msg[1..5]);
      assert Pow256(4) == U32;
      CanMsg(BeValue(msg[1..5]), |msg| - 5, msg[5..] + m.data[|msg| - 5..])
    else
      CanMsg(BeValue(msg[1..3]) % 0x800, |msg| - 3, msg[3..] + m.data[|msg| - 3..])
  }

  /**
   * The dlc usbcan_parse_com_frame stores as written, for a payload of len
   * bytes at the start of the receive buffer buf: what remains after the
   * type byte and the identifier, narrowed into the uint8_t field with no
   * check. The identifier byte is read from the buffer even when the
   * payload is a single byte.
   */
  function ComFrameDlcAsWritten(buf: seq<Byte>, len: int): (dlc: int)
    requires |buf| >= 2
    ensures 0 <= dlc < 256 && (dlc - (len - 1 - IdLen(buf[1]))) % 256 == 0
  {
    (len - 1 - IdLen(buf[1])) % 256
  }

  /**
   * usbcan_parse_com_frame as written, with no length check: the
   * identifier as ParseComFrame reads it, the wrapped dlc, and memcpy of
   * dlc bytes from after the identifier. Only the first 8 of them land in
   * the message's data; a dlc above 8 writes the rest past the message.
   */
  function ParseComFrameAsWritten(m: CanMsg, buf: seq<Byte>, len: int): (r: CanMsg)
    requires ValidMsg(m) && |buf| >= 1 + 4 + 255
    ensures r.dlc == ComFrameDlcAsWritten(buf, len) && |r.data| == 8
    ensures r.dlc <= 8 ==> r.data[..r.dlc] == buf[1 + IdLen(buf[1])..1 + IdLen(buf[1]) + r.dlc] && r.data[r.dlc..] == m.data[r.dlc..]
    ensures r.dlc > 8 ==> r.data == buf[1 + IdLen(buf[1])..9 + IdLen(buf[1])]
  {
    var idlen := IdLen(buf[1]);
    var dlc := ComFrameDlcAsWritten(buf, len);
    var k := if dlc <= 8 then dlc else 8;
    var id := if idlen == 4 then BeValue(buf[1..5]) else BeValue(buf[1..3]) % 0x800;
    CanMsg(id, dlc, buf[1 + idlen..1 + idlen + k] + m.data[k..])
  }

  /** On the payloads the intended guard admits, the parse as written is the intended one. */
  lemma ParseAsWrittenAgrees(m: CanMsg, buf: seq<Byte>, len: int)
    requires ValidMsg(m) && |buf| >= 1 + 4 + 255 && 1 <= len <= |buf| && buf[0] == COM_FRAME
    requires Parseable(buf[..len])
    ensures ParseComFrameAsWritten(m, buf, len) == ParseComFrame(m, buf[..len])
  {
    var idlen := IdLen(buf[1]);
    assert ComFrameDlcAsWritten(buf, len) == len - 1 - idlen;
    assert buf[..len][1..1 + idlen] == buf[1..1 + idlen];
    assert buf[..len][1 + idlen..] == buf[1 + idlen..len];
  }

  /**
   * Up to a payload of 255 data bytes, the copy as written runs past the
   * 8 data bytes exactly for the payloads the intended guard refuses:
   * too short for its identifier (the length wraps round to 252..255) or
   * carrying more than 8 data bytes.
   */
  lemma ComFrameOverrunIffUnparseable(buf: seq<Byte>, len: int)
    requires |buf| >= 2 && 1 <= len <= |buf| && len <= 1 + IdLen(buf[1]) + 255
    ensures ComFrameDlcAsWritten(buf, len) > 8 <==> !Parseable(buf[..len])
  {
    var n := len - 1 - IdLen(buf[1]);
    if n < 0 {
      ModUnique(n, 256, -1, n + 256);
    } else {
      ModUnique(n, 256, 0, n);
    }
  }

  /** The input that shows it: a 2-byte standard-identifier payload gets dlc 255, and 255 bytes are copied into 8. */
  lemma ComFrameTwoBytesOverrun(buf: seq<Byte>)
    requires |buf| >= 3 && buf[0] == COM_FRAME && buf[1] < 0x40
    ensures ComFrameDlcAsWritten(buf, 2) == 255
    ensures !Parseable(buf[..2])
  {
    ModUnique(-1, 256, -1, 255);
  }

  /** Bit 6 of a value's low byte is bit 6 of the value. */
  lemma Bit6OfLowByte(x: nat)
    ensures ((x % 256) / 0x40) % 2 == (x / 0x40) % 2
  {
    var q, r := x / 256, x % 256;
    ModUnique(x / 0x40, 2, q * 2 + (r / 0x40) / 2, (r / 0x40) % 2);
  }

  /**
   * Parsing a built frame gives the message back: an extended identifier
   * whole, a standard one as its low 11 bits, the dlc, and the dlc data
   * bytes; the parser's other data bytes stay as they were.
   */
  lemma ParseBuiltComFrame(m: CanMsg, prev: CanMsg)
    requires ValidMsg(m) && ValidMsg(prev)
    ensures Parseable(ComFramePayload(m))
    ensures ParseComFrame(prev, ComFramePayload(m))
         == CanMsg(if IsEid(m.id) then m.id else m.id % 0x800, m.dlc, m.data[..m.dlc] + prev.data[m.dlc..])
  {
    if IsEid(m.id) {
      ParseBuiltEid(m, prev);
    } else {
      ParseBuiltStd(m, prev);
    }
  }

  lemma ParseBuiltEid(m: CanMsg, prev: CanMsg)
    requires ValidMsg(m) && ValidMsg(prev) && IsEid(m.id)
    ensures Parseable(ComFramePayload(m))
    ensures ParseComFrame(prev, ComFramePayload(m)) == CanMsg(m.id, m.dlc, m.data[..m.dlc] + prev.data[m.dlc..])
  {
    var pl := ComFramePayload(m);
    var ib := BeBytes(m.id, 4);
    assert pl[1..5] == ib && pl[5..] == m.data[..m.dlc];
    assert pl[1] / 0x40 % 2 == 1 by {
      assert Pow256(3) == 0x100_0000;
      assert ib[0] == (m.id / Pow256(3)) % 256;
      DivDiv(m.id, Pow256(3), 0x40);
      Bit6OfLowByte(m.id / Pow256(3));
    }
    assert BeValue(pl[1..5]) == m.id by {
      BeBytesValue(m.id, 4);
      ModUnique(m.id, Pow256(4), 0, m.id);
    }
  }

  lemma ParseBuiltStd(m: CanMsg, prev: CanMsg)
    requires ValidMsg(m) && ValidMsg(prev) && !IsEid(m.id)
    ensures Parseable(ComFramePayload(m))
    ensures ParseComFrame(prev, ComFramePayload(m)) == CanMsg(m.id % 0x800, m.dlc, m.data[..m.dlc] + prev.data[m.dlc..])
  {
    var pl := ComFramePayload(m);
    var v := m.id % 0x800;
    var ib := BeBytes(v, 2);
    assert pl[1..3] == ib && pl[3..] == m.data[..m.dlc];
    assert ib[0] < 8 by {
      assert Pow256(1) == 256;
      assert ib[0] == (v / 256) % 256;
    }
    assert BeValue(pl[1..3]) % 0x800 == v by {
      BeBytesValue(v, 2);
      ModUnique(v, Pow256(2), 0, v);
      ModUnique(v, 0x800, 0, v);
    }
  }
}
