// The receiving side of the serial framing: incoming bytes are appended to
// a 4096-byte ring, and usbcan_rx cuts complete frames out of it, checking
// each one's CRC and resynchronising on the next STX byte after garbage.
module UsbcanRx {
  import opened Arith
  import opened RbTools
  import opened UsbcanUtil
  import opened UsbcanFrame

  /** The ring holds USB_CAN_MAX_PAYLOAD slots. */
  const N: int := USB_CAN_MAX_PAYLOAD

  /** The slot i places after t, going round the ring once at most. */
  function Slot(t: int, i: int): int
  {
    if t + i < N then t + i else t + i - N
  }

  /** For a slot t and a step i inside the ring, Slot is (t + i) % N. */
  lemma SlotIsMod(t: int, i: int)
    requires 0 <= t < N && 0 <= i < N
    ensures 0 <= Slot(t, i) < N && Slot(t, i) == (t + i) % N
  {
    ModUnique(t + i, N, if t + i < N then 0 else 1, Slot(t, i));
  }

  /** The bytes waiting in the ring, from the tail t up to (not including) the head h. */
  function Content(rb: seq<Byte>, t: int, h: int): (c: seq<Byte>)
    requires |rb| == N && 0 <= t < N && 0 <= h < N
    ensures |c| == RbDist(h, t, N) < N
  {
    seq(RbDist(h, t, N), i requires 0 <= i < RbDist(h, t, N) => rb[Slot(t, i)])
  }

  /** Byte j of the buffered content sits j slots after the tail. */
  lemma ContentAt(rb: seq<Byte>, t: int, h: int)
    requires |rb| == N && 0 <= t < N && 0 <= h < N
    ensures forall j :: 0 <= j < |Content(rb, t, h)| ==> rb[Slot(t, j)] == Content(rb, t, h)[j]
  {
  }

  /** The payloads cut out of a byte stream, and how many bytes of it were consumed. */
  datatype Scanned = Scanned(payloads: seq<seq<Byte>>, consumed: nat)

  /** A 16-bit field sent high byte first: hi << 8 | lo. */
  function Be16(hi: int, lo: int): int
  {
    hi * 256 + lo
  }

  /**
   * What usbcan_rx extracts from the buffered bytes c, starting at index k:
   * bytes other than STX are skipped; a frame is cut out once its whole
   * length is buffered and its CRC matches, and after a CRC mismatch only
   * the STX byte is dropped. Scanning stops when the next frame is
   * incomplete, and also right after dropping the STX of a frame that
   * declares 4096 or more payload bytes.
   */
  function ScanFrom(c: seq<Byte>, k: nat, crc16: Crc16): (r: Scanned)
    requires k <= |c|
    ensures r.consumed <= |c| - k
    decreases |c| - k
  {
    if k == |c| then Scanned([], 0)
    else if c[k] != USB_CAN_STX then
      var r := ScanFrom(c, k + 1, crc16);
      Scanned(r.payloads, r.consumed + 1)
    else if |c| - k < 3 then Scanned([], 0)
    else
      var elen := Be16(c[k + 1], c[k + 2]);
      if elen >= USB_CAN_MAX_PAYLOAD then Scanned([], 1)
      else if |c| - k < elen + 5 then Scanned([], 0)
      else if crc16(c[k + 3..k + 3 + elen]) == Be16(c[k + 3 + elen], c[k + 4 + elen]) then
        var r := ScanFrom(c, k + elen + 5, crc16);
        Scanned([c[k + 3..k + 3 + elen]] + r.payloads, r.consumed + elen + 5)
      else
        var r := ScanFrom(c, k + 1, crc16);
        Scanned(r.payloads, r.consumed + 1)
  }

  /** Scanning all the buffered bytes. */
  function Scan(c: seq<Byte>, crc16: Crc16): Scanned
  {
    ScanFrom(c, 0, crc16)
  }

  /** Every payload Scan delivers is shorter than USB_CAN_MAX_PAYLOAD, so it fits the receive buffer. */
  lemma {:induction false} ScanPayloadsFit(c: seq<Byte>, k: nat, crc16: Crc16)
    requires k <= |c|
    ensures forall i :: 0 <= i < |ScanFrom(c, k, crc16).payloads| ==> |ScanFrom(c, k, crc16).payloads[i]| < USB_CAN_MAX_PAYLOAD
    decreases |c| - k
  {
    if k == |c| {
    } else if c[k] != USB_CAN_STX {
      ScanPayloadsFit(c, k + 1, crc16);
    } else if |c| - k < 3 {
    } else {
      var elen := Be16(c[k + 1], c[k + 2]);
      if elen >= USB_CAN_MAX_PAYLOAD || |c| - k < elen + 5 {
      } else if crc16(c[k + 3..k + 3 + elen]) == Be16(c[k + 3 + elen], c[k + 4 + elen]) {
        ScanPayloadsFit(c, k + elen + 5, crc16);
      } else {
        ScanPayloadsFit(c, k + 1, crc16);
      }
    }
  }

  /** Scanning depends only on the bytes from the starting index on. */
  lemma {:induction false} ScanFromShift(pre: seq<Byte>, c: seq<Byte>, k: nat, crc16: Crc16)
    requires k <= |c|
    ensures ScanFrom(pre + c, |pre| + k, crc16) == ScanFrom(c, k, crc16)
    decreases |c| - k, 1
  {
    if k < |c| {
      if c[k] != USB_CAN_STX {
        ShiftSkip(pre, c, k, crc16);
      } else if |c| - k >= 3 && Be16(c[k + 1], c[k + 2]) < USB_CAN_MAX_PAYLOAD && |c| - k >= Be16(c[k + 1], c[k + 2]) + 5 {
        ShiftFrame(pre, c, k, crc16);
      } else {
        ShiftStop(pre, c, k, crc16);
      }
    }
  }

  /** ScanFromShift's cases, one step of the scan each. */
  lemma ShiftSkip(pre: seq<Byte>, c: seq<Byte>, k: nat, crc16: Crc16)
    requires k < |c| && c[k] != USB_CAN_STX
    ensures ScanFrom(pre + c, |pre| + k, crc16) == ScanFrom(c, k, crc16)
    decreases |c| - k, 0
  {
    ScanFromShift(pre, c, k + 1, crc16);
    assert (pre + c)[|pre| + k] == c[k];
  }

  lemma ShiftStop(pre: seq<Byte>, c: seq<Byte>, k: nat, crc16: Crc16)
    requires k < |c| && c[k] == USB_CAN_STX
    requires |c| - k >= 3 ==> Be16(c[k + 1], c[k + 2]) >= USB_CAN_MAX_PAYLOAD || |c| - k < Be16(c[k + 1], c[k + 2]) + 5
    ensures ScanFrom(pre + c, |pre| + k, crc16) == ScanFrom(c, k, crc16)
  {
    var s, j := pre + c, |pre| + k;
    assert s[j] == c[k];
    if |c| - k >= 3 {
      assert s[j + 1] == c[k + 1] && s[j + 2] == c[k + 2];
    }
  }

  lemma ShiftFrame(pre: seq<Byte>, c: seq<Byte>, k: nat, crc16: Crc16)
    requires k + 3 <= |c| && c[k] == USB_CAN_STX
    requires Be16(c[k + 1], c[k + 2]) < USB_CAN_MAX_PAYLOAD && k + Be16(c[k + 1], c[k + 2]) + 5 <= |c|
    ensures ScanFrom(pre + c, |pre| + k, crc16) == ScanFrom(c, k, crc16)
    decreases |c| - k, 0
  {
    var e := Be16(c[k + 1], c[k + 2]);
    SameFrame(pre, c, k, e);
    if crc16(c[k + 3..k + 3 + e]) == Be16(c[k + 3 + e], c[k + 4 + e]) {
      ScanFromShift(pre, c, k + e + 5, crc16);
    } else {
      ScanFromShift(pre, c, k + 1, crc16);
    }
    SameFrameScan(pre + c, |pre| + k, c, k, e, crc16);
  }

  /** Two streams holding the same frame at j and k scan alike there when they scan alike after it. */
  lemma SameFrameScan(s: seq<Byte>, j: nat, c: seq<Byte>, k: nat, e: nat, crc16: Crc16)
    requires k + e + 5 <= |c| && |s| - j == |c| - k && c[k] == USB_CAN_STX
    requires e == Be16(c[k + 1], c[k + 2]) < USB_CAN_MAX_PAYLOAD
    requires s[j] == c[k] && s[j + 1] == c[k + 1] && s[j + 2] == c[k + 2]
    requires s[j + 3..j + 3 + e] == c[k + 3..k + 3 + e]
    requires s[j + 3 + e] == c[k + 3 + e] && s[j + 4 + e] == c[k + 4 + e]
    requires if crc16(c[k + 3..k + 3 + e]) == Be16(c[k + 3 + e], c[k + 4 + e])
      then ScanFrom(s, j + e + 5, crc16) == ScanFrom(c, k + e + 5, crc16)
      else ScanFrom(s, j + 1, crc16) == ScanFrom(c, k + 1, crc16)
    ensures ScanFrom(s, j, crc16) == ScanFrom(c, k, crc16)
  {
    if crc16(c[k + 3..k + 3 + e]) == Be16(c[k + 3 + e], c[k + 4 + e]) {
      ScanTake(c, k, crc16);
      ScanTake(s, j, crc16);
    } else {
      ScanDrop(c, k, crc16);
      ScanDrop(s, j, crc16);
    }
  }

  /** The frame at k of c, read from pre + c. */
  lemma SameFrame(pre: seq<Byte>, c: seq<Byte>, k: nat, e: nat)
    requires k + e + 5 <= |c|
    ensures var s, j := pre + c, |pre| + k;
      s[j] == c[k] && s[j + 1] == c[k + 1] && s[j + 2] == c[k + 2]
      && s[j + 3..j + 3 + e] == c[k + 3..k + 3 + e]
      && s[j + 3 + e] == c[k + 3 + e] && s[j + 4 + e] == c[k + 4 + e]
  {
    var s, j := pre + c, |pre| + k;
    assert s[j + 3..j + 3 + e] == c[k + 3..k + 3 + e];
  }

  /** The wire images of several payloads, one after the other. */
  function Frames(ps: seq<seq<Byte>>, crc16: Crc16): seq<Byte>
  {
    if ps == [] then [] else Frame(ps[0], crc16) + Frames(ps[1..], crc16)
  }

  /** A frame built by usbcan_wrap_inplace is cut out whole, whatever follows it. */
  lemma ScanFrame(p: seq<Byte>, rest: seq<Byte>, crc16: Crc16)
    requires |p| < USB_CAN_MAX_PAYLOAD
    ensures Scan(Frame(p, crc16) + rest, crc16)
         == Scanned([p] + Scan(rest, crc16).payloads, |p| + 5 + Scan(rest, crc16).consumed)
  {
    var f := Frame(p, crc16);
    var c := f + rest;
    var lb, cb := BeBytes(|p|, 2), BeBytes(crc16(p), 2);
    assert c == [USB_CAN_STX] + lb + p + cb + rest;
    FieldValue(|p|);
    FieldValue(crc16(p));
    assert Be16(c[1], c[2]) == |p|;
    assert c[3..3 + |p|] == p;
    assert c[3 + |p|] == cb[0] && c[4 + |p|] == cb[1];
    ScanFromShift(f, rest, 0, crc16);
  }

  /** A 16-bit value written as two big-endian bytes reads back as high * 256 + low. */
  lemma FieldValue(v: nat)
    requires v < U16
    ensures Be16(BeBytes(v, 2)[0], BeBytes(v, 2)[1]) == v
  {
    assert Pow256(1) == 256;
  }

  /** A stream of well-formed frames is taken apart into exactly its payloads, and consumed whole. */
  lemma {:induction false} ScanFrames(ps: seq<seq<Byte>>, crc16: Crc16)
    requires forall i :: 0 <= i < |ps| ==> |ps[i]| < USB_CAN_MAX_PAYLOAD
    ensures Scan(Frames(ps, crc16), crc16) == Scanned(ps, |Frames(ps, crc16)|)
  {
    if ps != [] {
      ScanFrames(ps[1..], crc16);
      ScanFrame(ps[0], Frames(ps[1..], crc16), crc16);
      assert [ps[0]] + ps[1..] == ps;
    }
  }

  /** Bytes other than STX in front of the stream are skipped, and the rest is scanned as before. */
  lemma ScanSkipsGarbage(junk: seq<Byte>, c: seq<Byte>, crc16: Crc16)
    requires forall i :: 0 <= i < |junk| ==> junk[i] != USB_CAN_STX
    ensures Scan(junk + c, crc16) == Scanned(ScanFrom(c, 0, crc16).payloads, |junk| + ScanFrom(c, 0, crc16).consumed)
  {
    SkipPrefix(junk, c, |junk|, crc16);
    ScanFromShift(junk, c, 0, crc16);
  }

  lemma {:induction false} SkipPrefix(junk: seq<Byte>, c: seq<Byte>, n: nat, crc16: Crc16)
    requires n <= |junk| && forall i :: 0 <= i < |junk| ==> junk[i] != USB_CAN_STX
    ensures ScanFrom(junk + c, |junk| - n, crc16)
         == Scanned(ScanFrom(junk + c, |junk|, crc16).payloads, n + ScanFrom(junk + c, |junk|, crc16).consumed)
  {
    if n > 0 {
      assert (junk + c)[|junk| - n] == junk[|junk| - n];
      SkipPrefix(junk, c, n - 1, crc16);
    }
  }

  /** Stepping j further from the slot k places after t0, as C's (t + j) % N does. */
  lemma SlotStep(t0: int, k: nat, j: nat)
    requires 0 <= t0 < N && k + j < N
    ensures (Slot(t0, k) + j) % N == Slot(t0, k + j)
  {
    var s := Slot(t0, k) + j;
    ModUnique(s, N, if s < N then 0 else 1, Slot(t0, k + j));
  }

  /** Moving the tail k places toward the head shortens the distance by k. */
  lemma DistSlot(h: int, t0: int, k: nat)
    requires 0 <= h < N && 0 <= t0 < N && k <= RbDist(h, t0, N)
    ensures 0 <= Slot(t0, k) < N && RbDist(h, Slot(t0, k), N) == RbDist(h, t0, N) - k
  {
  }

  /** rb_to_rb normalises t + 3 to (t + 3 + N) % N; its i-th byte then comes from k + 3 + i places after t0. */
  lemma PayloadSlot(t0: int, k: nat, i: nat)
    requires 0 <= t0 < N && k + 3 + i < N
    ensures ((Slot(t0, k) + 3 + N) % N + i) % N == Slot(t0, k + 3 + i)
  {
    ModShift(Slot(t0, k) + 3, 1, N);
    SlotStep(t0, k, 3);
    SlotStep(t0, k + 3, i);
  }

  /** Byte j places after the tail, read through the ring. */
  lemma ReadAhead(rb: seq<Byte>, c: seq<Byte>, t0: int, k: nat, j: nat)
    requires |rb| == N && 0 <= t0 < N && k + j < |c| < N
    requires forall i :: 0 <= i < |c| ==> rb[Slot(t0, i)] == c[i]
    ensures (Slot(t0, k) + j) % N == Slot(t0, k + j) && rb[(Slot(t0, k) + j) % N] == c[k + j]
  {
    SlotStep(t0, k, j);
  }

  /** The length field of the frame at k is too large: only its STX is consumed. */
  lemma ScanTooLong(c: seq<Byte>, k: nat, crc16: Crc16)
    requires k + 3 <= |c| && c[k] == USB_CAN_STX && Be16(c[k + 1], c[k + 2]) >= USB_CAN_MAX_PAYLOAD
    ensures ScanFrom(c, k, crc16) == Scanned([], 1)
  {
  }

  /** Fewer bytes than the header, or than the whole frame, follow the STX at k: scanning stops. */
  lemma ScanShort(c: seq<Byte>, k: nat, crc16: Crc16)
    requires k <= |c| && (k < |c| ==> c[k] == USB_CAN_STX)
    requires |c| - k < 3 || (Be16(c[k + 1], c[k + 2]) < USB_CAN_MAX_PAYLOAD && |c| - k < Be16(c[k + 1], c[k + 2]) + 5)
    ensures ScanFrom(c, k, crc16) == Scanned([], 0)
  {
  }

  /** A complete frame with a matching CRC at k: its payload is delivered and the whole frame consumed. */
  lemma ScanTake(c: seq<Byte>, k: nat, crc16: Crc16)
    requires k + 3 <= |c| && c[k] == USB_CAN_STX
    requires 0 <= Be16(c[k + 1], c[k + 2]) < USB_CAN_MAX_PAYLOAD && k + Be16(c[k + 1], c[k + 2]) + 5 <= |c|
    requires var e := Be16(c[k + 1], c[k + 2]); crc16(c[k + 3..k + 3 + e]) == Be16(c[k + 3 + e], c[k + 4 + e])
    ensures var e := Be16(c[k + 1], c[k + 2]); var r := ScanFrom(c, k + e + 5, crc16);
      ScanFrom(c, k, crc16) == Scanned([c[k + 3..k + 3 + e]] + r.payloads, r.consumed + e + 5)
  {
  }

  /** A complete frame whose CRC does not match: only its STX is consumed. */
  lemma ScanDrop(c: seq<Byte>, k: nat, crc16: Crc16)
    requires k + 3 <= |c| && c[k] == USB_CAN_STX
    requires 0 <= Be16(c[k + 1], c[k + 2]) < USB_CAN_MAX_PAYLOAD && k + Be16(c[k + 1], c[k + 2]) + 5 <= |c|
    requires var e := Be16(c[k + 1], c[k + 2]); crc16(c[k + 3..k + 3 + e]) != Be16(c[k + 3 + e], c[k + 4 + e])
    ensures var r := ScanFrom(c, k + 1, crc16); ScanFrom(c, k, crc16) == Scanned(r.payloads, r.consumed + 1)
  {
  }

  /** Skipping a byte other than STX keeps the relation between the whole scan and the rest of it. */
  lemma SkipKeeps(c: seq<Byte>, k: nat, crc16: Crc16, d: seq<seq<Byte>>)
    requires k < |c| && c[k] != USB_CAN_STX
    requires Scan(c, crc16) == Scanned(d + ScanFrom(c, k, crc16).payloads, k + ScanFrom(c, k, crc16).consumed)
    ensures Scan(c, crc16) == Scanned(d + ScanFrom(c, k + 1, crc16).payloads, k + 1 + ScanFrom(c, k + 1, crc16).consumed)
  {
  }

  /** Cutting out the frame at k keeps the relation between the whole scan and the rest of it. */
  lemma TakeKeeps(c: seq<Byte>, k: nat, crc16: Crc16, d: seq<seq<Byte>>, e: int, k': nat, p: seq<Byte>)
    requires k + 3 <= |c| && c[k] == USB_CAN_STX && e == Be16(c[k + 1], c[k + 2])
    requires 0 <= e < USB_CAN_MAX_PAYLOAD && k' == k + e + 5 <= |c| && p == c[k + 3..k + 3 + e]
    requires crc16(p) == Be16(c[k + 3 + e], c[k + 4 + e])
    requires Scan(c, crc16) == Scanned(d + ScanFrom(c, k, crc16).payloads, k + ScanFrom(c, k, crc16).consumed)
    ensures Scan(c, crc16) == Scanned((d + [p]) + ScanFrom(c, k', crc16).payloads, k' + ScanFrom(c, k', crc16).consumed)
  {
    ScanTake(c, k, crc16);
    var rest := ScanFrom(c, k + e + 5, crc16);
    assert d + ([c[k + 3..k + 3 + e]] + rest.payloads) == (d + [c[k + 3..k + 3 + e]]) + rest.payloads;
  }

  /** Dropping the STX of a frame whose CRC does not match keeps the same relation. */
  lemma DropKeeps(c: seq<Byte>, k: nat, crc16: Crc16, d: seq<seq<Byte>>)
    requires k + 3 <= |c| && c[k] == USB_CAN_STX
    requires 0 <= Be16(c[k + 1], c[k + 2]) < USB_CAN_MAX_PAYLOAD && k + Be16(c[k + 1], c[k + 2]) + 5 <= |c|
    requires var e := Be16(c[k + 1], c[k + 2]); crc16(c[k + 3..k + 3 + e]) != Be16(c[k + 3 + e], c[k + 4 + e])
    requires Scan(c, crc16) == Scanned(d + ScanFrom(c, k, crc16).payloads, k + ScanFrom(c, k, crc16).consumed)
    ensures Scan(c, crc16) == Scanned(d + ScanFrom(c, k + 1, crc16).payloads, k + 1 + ScanFrom(c, k + 1, crc16).consumed)
  {
    ScanDrop(c, k, crc16);
  }

  /** The C expression hi << 8 | lo on two bytes is Be16(hi, lo). */
  lemma Be16IsShiftOr(hi: Byte, lo: Byte)
    ensures BitOr(hi * 256, lo) == Be16(hi, lo)
  {
    assert Pow2(8) == 256;
    ModUnique(hi * 256, 256, hi, 0);
    BitOrDisjoint(hi * 256, lo, 8);
  }

  /**
   * Appending l bytes at the head adds them to the buffered content, as
   * long as the ring does not fill up; otherwise the oldest bytes are
   * overwritten.
   */
  lemma ContentAppend(rb: seq<Byte>, t: int, h: int, b: seq<Byte>, l: int)
    requires |rb| == N && 0 <= t < N && 0 <= h < N && 0 < l <= |b|
    requires RbDist(h, t, N) + l < N
    ensures Content(RingCopy(rb, h, b, 0, l, N, l), t, (h + l) % N) == Content(rb, t, h) + b[..l]
  {
    var rb' := RingCopy(rb, h, b, 0, l, N, l);
    var d := RbDist(h, t, N);
    SlotIsMod(h, l);
    var c, c' := Content(rb, t, h), Content(rb', t, (h + l) % N);
    assert |c'| == d + l;
    forall i | 0 <= i < d + l
      ensures c'[i] == (c + b[..l])[i]
    {
      if i < d {
        SlotKept(rb, t, h, b, l, i);
      } else {
        SlotWritten(rb, t, h, b, l, i);
      }
    }
  }

  /** The ring copy of l bytes at the head leaves the d bytes already buffered alone. */
  lemma SlotKept(rb: seq<Byte>, t: int, h: int, b: seq<Byte>, l: int, i: int)
    requires |rb| == N && 0 <= t < N && 0 <= h < N && 0 < l <= |b|
    requires RbDist(h, t, N) + l < N && 0 <= i < RbDist(h, t, N)
    ensures RingCopy(rb, h, b, 0, l, N, l)[Slot(t, i)] == rb[Slot(t, i)]
  {
    RingCopyFrame(rb, h, b, 0, l, N, l, Slot(t, i));
  }

  /** The ring copy of l bytes at the head puts byte j of b j places after the head. */
  lemma SlotWritten(rb: seq<Byte>, t: int, h: int, b: seq<Byte>, l: int, i: int)
    requires |rb| == N && 0 <= t < N && 0 <= h < N && 0 < l <= |b|
    requires RbDist(h, t, N) + l < N && RbDist(h, t, N) <= i < RbDist(h, t, N) + l
    ensures RingCopy(rb, h, b, 0, l, N, l)[Slot(t, i)] == b[i - RbDist(h, t, N)]
  {
    var j := i - RbDist(h, t, N);
    assert Slot(t, i) == Ahead(h, j, N);
    RingCopyAt(rb, h, b, 0, l, N, l, j);
    ModUnique(0 + j, l, 0, j);
  }

  /** What the ring copy of a frame's payload into a fresh buffer puts at its start. */
  lemma PayloadCopied(d: seq<Byte>, rb: seq<Byte>, c: seq<Byte>, t0: int, k: nat, elen: nat)
    requires |d| == N && |rb| == N && 0 <= t0 < N && k + 3 + elen <= |c| < N
    requires forall j :: 0 <= j < |c| ==> rb[Slot(t0, j)] == c[j]
    ensures RingCopy(d, 0, rb, (Slot(t0, k) + 3 + N) % N, elen, N, N)[..elen] == c[k + 3..k + 3 + elen]
  {
    var sp := (Slot(t0, k) + 3 + N) % N;
    var r := RingCopy(d, 0, rb, sp, elen, N, N);
    forall i | 0 <= i < elen
      ensures r[i] == c[k + 3 + i]
    {
      CopiedFromStart(d, rb, sp, elen, i);
      PayloadSlot(t0, k, i);
    }
  }

  /** A ring copy into a buffer from its start puts source slot sp + i at position i. */
  lemma CopiedFromStart(d: seq<Byte>, rb: seq<Byte>, sp: nat, n: nat, i: nat)
    requires |d| == N && |rb| == N && sp < N && i < n <= N
    ensures RingCopy(d, 0, rb, sp, n, N, N)[i] == rb[(sp + i) % N]
  {
    RingCopyAt(d, 0, rb, sp, n, N, N, i);
  }

  /**
   * The receive state of one connection: the read buffer b with the l
   * bytes of the last read, and the ring rb with its head h and tail t.
   */
  class RxState {
    const rb: array<Byte>
    const b: array<Byte>
    var h: int
    var t: int
    var l: int
    const udp: bool

    predicate Valid()
      reads this
    {
      rb.Length == N && b.Length == N && rb != b && 0 <= h < N && 0 <= t < N
    }

    /** usbcan_instance_init's part: both buffers allocated, the ring empty. */
    constructor (udp: bool)
      ensures Valid() && fresh(rb) && fresh(b)
      ensures this.udp == udp && h == 0 && t == 0 && l == 0
    {
      rb := new Byte[N];
      b := new Byte[N];
      this.udp := udp;
      h, t, l := 0, 0, 0;
    }

    /**
     * usbcan_rx after a read of l bytes into b. A UDP datagram is one whole
     * payload. On a serial line the bytes are appended to the ring and the
     * method delivers what Scan finds in the buffered content, moving the
     * tail past everything Scan consumed. Returns l.
     */
    method Rx(crc16: Crc16) returns (delivered: seq<seq<Byte>>, r: int)
      requires Valid() && 0 < l <= N
      modifies this`h, this`t, rb
      ensures Valid() && r == l
      ensures udp ==> delivered == [b[..l]] && h == old(h) && t == old(t) && rb[..] == old(rb[..])
      ensures !udp ==> h == (old(h) + l) % N && rb[..] == RingCopy(old(rb[..]), old(h), b[..], 0, l, N, l)
      ensures !udp ==> delivered == Scan(Content(rb[..], old(t), h), crc16).payloads
      ensures !udp ==> t == (old(t) + Scan(Content(rb[..], old(t), h), crc16).consumed) % N
    {
      r := l;
      if udp {
        delivered := [b[..l]];
        return;
      }
      Append();
      ghost var c := Content(rb[..], t, h);
      ContentAt(rb[..], t, h);
      delivered := Drain(crc16, c);
      SlotIsMod(old(t), Scan(c, crc16).consumed);
    }

    /** The first step of usbcan_rx on a serial link: the l received bytes go in at the head. */
    method Append()
      requires Valid() && 0 < l <= N
      modifies this`h, rb
      ensures Valid() && h == (old(h) + l) % N
      ensures rb[..] == RingCopy(old(rb[..]), old(h), b[..], 0, l, N, l)
    {
      var hNew := RbToRb(rb, h, N, b, 0, l, l);
      ModUnique(h + N, N, 1, h);
      ModUnique(0 + l, l, 1, 0);
      ModShift(h + l, 1, N);
      h := hNew;
    }

    /** The inner loop of usbcan_rx: moves the tail to the next STX byte, or to the head. */
    method SkipToStx(crc16: Crc16, ghost c: seq<Byte>, ghost t0: int, ghost k0: nat, ghost delivered: seq<seq<Byte>>)
        returns (ghost k: nat)
      requires Valid() && 0 <= t0 < N && |c| == RbDist(h, t0, N)
      requires forall j :: 0 <= j < |c| ==> rb[Slot(t0, j)] == c[j]
      requires k0 <= |c| && t == Slot(t0, k0)
      requires Scan(c, crc16) == Scanned(delivered + ScanFrom(c, k0, crc16).payloads, k0 + ScanFrom(c, k0, crc16).consumed)
      modifies this`t
      ensures Valid() && k0 <= k <= |c| && t == Slot(t0, k)
      ensures k < |c| ==> c[k] == USB_CAN_STX
      ensures Scan(c, crc16) == Scanned(delivered + ScanFrom(c, k, crc16).payloads, k + ScanFrom(c, k, crc16).consumed)
    {
      k := k0;
      DistSlot(h, t0, k);
      while t != h
        invariant Valid() && k0 <= k <= |c| && t == Slot(t0, k) && RbDist(h, t, N) == |c| - k
        invariant Scan(c, crc16) == Scanned(delivered + ScanFrom(c, k, crc16).payloads, k + ScanFrom(c, k, crc16).consumed)
        decreases |c| - k
      {
        if rb[t] == USB_CAN_STX {
          break;
        }
        SkipKeeps(c, k, crc16, delivered);
        var next := (t + 1) % N;
        assert next == Slot(t0, k + 1) by {
          SlotStep(t0, k, 1);
        }
        DistSlot(h, t0, k + 1);
        t := next;
        k := k + 1;
      }
    }

    /**
     * One pass of usbcan_rx's frame loop once the tail is on an STX (or at
     * the head): cut out a frame, drop a bad STX, or report that the loop
     * ends. `more` is false when usbcan_rx breaks out of its loop.
     */
    method AtStx(crc16: Crc16, ghost c: seq<Byte>, ghost t0: int, ghost k0: nat, delivered0: seq<seq<Byte>>)
        returns (delivered: seq<seq<Byte>>, ghost k: nat, more: bool)
      requires Valid() && 0 <= t0 < N && |c| == RbDist(h, t0, N)
      requires forall j :: 0 <= j < |c| ==> rb[Slot(t0, j)] == c[j]
      requires k0 <= |c| && t == Slot(t0, k0) && (k0 < |c| ==> c[k0] == USB_CAN_STX)
      requires Scan(c, crc16) == Scanned(delivered0 + ScanFrom(c, k0, crc16).payloads, k0 + ScanFrom(c, k0, crc16).consumed)
      modifies this`t
      ensures Valid() && k0 <= k <= |c| && t == Slot(t0, k)
      ensures more ==> k0 < k && Scan(c, crc16) == Scanned(delivered + ScanFrom(c, k, crc16).payloads, k + ScanFrom(c, k, crc16).consumed)
      ensures !more ==> Scan(c, crc16) == Scanned(delivered, k)
    {
      delivered, k, more := delivered0, k0, false;
      DistSlot(h, t0, k);
      if RbDist(h, t, N) >= 3 {
        ReadAhead(rb[..], c, t0, k, 1);
        ReadAhead(rb[..], c, t0, k, 2);
        // elen = rb[t + 1] << 8 | rb[t + 2], see Be16IsShiftOr
        var elen := Be16(rb[(t + 1) % N], rb[(t + 2) % N]);
        if elen >= N {
          // The distance check that follows in usbcan_rx cannot pass: the ring holds fewer than N bytes.
          ScanTooLong(c, k, crc16);
          var next := (t + 1) % N;
          assert next == Slot(t0, k + 1) by {
            SlotStep(t0, k, 1);
          }
          t := next;
          k := k + 1;
        } else if RbDist(h, t, N) >= 3 + elen + 2 {
          delivered, k := CompleteFrame(crc16, c, t0, k, elen, delivered);
          more := true;
        } else {
          ScanShort(c, k, crc16);
        }
      } else {
        ScanShort(c, k, crc16);
      }
    }

    /**
     * A whole frame of elen payload bytes is buffered after the STX at the
     * tail: deliver its payload when the CRC matches and move past it, or
     * else drop the STX.
     */
    method CompleteFrame(crc16: Crc16, ghost c: seq<Byte>, ghost t0: int, ghost k0: nat, elen: int, delivered0: seq<seq<Byte>>)
        returns (delivered: seq<seq<Byte>>, ghost k: nat)
      requires Valid() && 0 <= t0 < N && |c| < N
      requires forall j :: 0 <= j < |c| ==> rb[Slot(t0, j)] == c[j]
      requires k0 + 3 <= |c| && t == Slot(t0, k0) && c[k0] == USB_CAN_STX
      requires elen == Be16(c[k0 + 1], c[k0 + 2]) < N && k0 + elen + 5 <= |c|
      requires Scan(c, crc16) == Scanned(delivered0 + ScanFrom(c, k0, crc16).payloads, k0 + ScanFrom(c, k0, crc16).consumed)
      modifies this`t
      ensures Valid() && k0 < k <= |c| && t == Slot(t0, k)
      ensures Scan(c, crc16) == Scanned(delivered + ScanFrom(c, k, crc16).payloads, k + ScanFrom(c, k, crc16).consumed)
    {
      ReadAhead(rb[..], c, t0, k0, 3 + elen);
      ReadAhead(rb[..], c, t0, k0, 4 + elen);
      var ecrc := Be16(rb[(t + 3 + elen) % N], rb[(t + 4 + elen) % N]);
      var payload := CopyPayload(c, t0, k0, elen);
      if crc16(payload) == ecrc {
        k := k0 + 5 + elen;
        TakeKeeps(c, k0, crc16, delivered0, elen, k, payload);
        delivered := delivered0 + [payload];
        Advance(t0, k0, 5 + elen, k);
      } else {
        DropKeeps(c, k0, crc16, delivered0);
        delivered := delivered0;
        k := k0 + 1;
        Advance(t0, k0, 1, k);
      }
    }

    /** The tail update `t = (t + j) % N` past j buffered bytes, as a slot count from t0. */
    method Advance(ghost t0: int, ghost k0: nat, j: nat, ghost k: nat)
      requires Valid() && 0 <= t0 < N && k == k0 + j < N && t == Slot(t0, k0)
      modifies this`t
      ensures Valid() && t == Slot(t0, k)
    {
      SlotStep(t0, k0, j);
      t := (t + j) % N;
    }

    /** The payload copy of usbcan_rx: elen bytes from t + 3 into a fresh buffer, by rb_to_rb. */
    method CopyPayload(ghost c: seq<Byte>, ghost t0: int, ghost k: nat, elen: int) returns (payload: seq<Byte>)
      requires Valid() && 0 <= t0 < N && k + 3 + elen <= |c| < N && 0 <= elen
      requires forall j :: 0 <= j < |c| ==> rb[Slot(t0, j)] == c[j]
      requires t == Slot(t0, k)
      ensures payload == c[k + 3..k + 3 + elen]
    {
      var pload := new Byte[N];
      ghost var p0 := pload[..];
      var _ := RbToRb(pload, 0, N, rb, t + 3, N, elen);
      ModUnique(0 + N, N, 1, 0);
      PayloadCopied(p0, rb[..], c, t0, k, elen);
      payload := pload[..elen];
    }

    /**
     * The frame loop of usbcan_rx over the buffered content c: skip to the
     * next STX, then cut out a frame, drop a bad STX, or stop.
     */
    method Drain(crc16: Crc16, ghost c: seq<Byte>) returns (delivered: seq<seq<Byte>>)
      requires Valid() && |c| == RbDist(h, t, N)
      requires forall j :: 0 <= j < |c| ==> rb[Slot(t, j)] == c[j]
      modifies this`t
      ensures Valid()
      ensures delivered == Scan(c, crc16).payloads && t == Slot(old(t), Scan(c, crc16).consumed)
    {
      ghost var t0 := t;
      ghost var k := 0;
      delivered := [];
      var running := true;
      while running
        invariant Valid() && t0 == old(t) && |c| == RbDist(h, t0, N)
        invariant 0 <= k <= |c| && t == Slot(t0, k)
        invariant running ==> Scan(c, crc16) == Scanned(delivered + ScanFrom(c, k, crc16).payloads, k + ScanFrom(c, k, crc16).consumed)
        invariant !running ==> Scan(c, crc16) == Scanned(delivered, k)
        decreases |c| - k, running
      {
        k := SkipToStx(crc16, c, t0, k, delivered);
        delivered, k, running := AtStx(crc16, c, t0, k, delivered);
      }
    }
  }
}
