// The firmware download tool: preparing the image (padding, length field,
// CRC-32), the block encoding, and the bootloader acknowledgement state
// machine run by the receive callback
// (c/tools/fw-update-tool/fw-update.c, commands from
// c/tools/common/loader_proto.h).
module FwUpdate {
  import opened Arith
  import UT = UsbcanTypes
  import F = UsbcanFrame

  const DOWNLOAD_TIMEOUT: nat := 15000
  /** The wait loop of update() sleeps 100 ms per round. */
  const TICK: nat := 100

  const CO_CAN_ID_DEV_CMD: nat := 0x480
  const CO_CAN_ID_DEV_WRITE: nat := 0x500

  const CO_DEV_CMD_ERASE_BOOT: Byte := 0
  const CO_DEV_CMD_ERASE_APP: Byte := 1
  const CO_DEV_CMD_FLASH_BOOT: Byte := 2
  const CO_DEV_CMD_FLASH_APP: Byte := 3
  const CO_DEV_CMD_EXEC: Byte := 4
  const CO_DEV_CMD_HALT: Byte := 5
  const CO_DEV_CMD_REQUEST_FIELD: Byte := 6
  const CO_DEV_APP_TYPE: Byte := 5
  const CO_DEV_APP_VER: Byte := 7
  const CO_BOOT_STATUS_OK: Byte := 0

  /** `dev_hw_type` before any reply: `(uint32_t)-1`. */
  const NO_HW_TYPE: nat := 0xFFFF_FFFF

  type Word32 = x: int | 0 <= x < 0x1_0000_0000

  /** crc32() of the tool's support code; its definition is not part of this model. */
  type Crc32 = seq<Byte> -> Word32

  datatype DownloadResult = Idle | Downloading | Success | WrongIdent | Error

  datatype Option<T> = None | Some(value: T)

  // ---------------------------------------------------------------------
  // Image preparation (update(), lines 396-457)
  // ---------------------------------------------------------------------

  /** `file_len`: the file size stored in a `uint32_t`. */
  function FileLen(file: seq<Byte>): nat
  {
    |file| % U32
  }

  /** The `(int)file_len <= 0` test lets the file through. */
  predicate Accepts(file: seq<Byte>)
  {
    ToInt32(FileLen(file)) > 0
  }

  /** `data_len`: the file length rounded up to a multiple of 4. */
  function DataLen(n: nat): (r: nat)
    ensures r % 4 == 0 && n <= r < n + 4
  {
    if n % 4 != 0 then 4 * (n / 4 + 1) else n
  }

  function Zeros(k: nat): (r: seq<Byte>)
    ensures |r| == k && forall i :: 0 <= i < k ==> r[i] == 0
  {
    seq(k, _ => 0)
  }

  /** The calloc'ed buffer of `data_len + 4` bytes after fread(): the file, then zeros. */
  function RawImage(file: seq<Byte>): (r: seq<Byte>)
    ensures |r| == DataLen(FileLen(file)) + 4
  {
    var n := FileLen(file);
    file[..n] + Zeros(DataLen(n) + 4 - n)
  }

  /** memcpy(fw + 4, &data_len, 4) on a little-endian host. */
  function WithLength(raw: seq<Byte>, dl: nat): seq<Byte>
    requires |raw| == dl + 4 && dl >= 4
  {
    raw[..4] + UT.LeBytes(dl, 4) + raw[8..]
  }

  /** The CRC-32 of bytes [4, dl) stored little-endian at offset dl. */
  function WithCrc(w: seq<Byte>, dl: nat, crc32: Crc32): seq<Byte>
    requires |w| == dl + 4 && dl >= 4
  {
    w[..dl] + UT.LeBytes(crc32(w[4..dl]), 4)
  }

  /** The image update() downloads. */
  function FinalImage(file: seq<Byte>, crc32: Crc32): (r: seq<Byte>)
    requires Accepts(file)
    ensures |r| == DataLen(FileLen(file)) + 4
  {
    var dl := DataLen(FileLen(file));
    WithCrc(WithLength(RawImage(file), dl), dl, crc32)
  }

  /**
   * The downloaded image keeps the file's bytes outside the length field,
   * is zero-padded to data_len, carries data_len at [4, 8) when the data is
   * at least 8 bytes long, and ends with the CRC-32 of everything from
   * offset 4 up to data_len.
   */
  lemma FinalImageLayout(file: seq<Byte>, crc32: Crc32)
    requires Accepts(file)
    ensures var n, dl, img := FileLen(file), DataLen(FileLen(file)), FinalImage(file, crc32);
      && |img| == dl + 4 && dl % 4 == 0 && n <= dl < n + 4
      && (forall i :: 0 <= i < 4 && i < n ==> img[i] == file[i])
      && (forall i :: 8 <= i < n ==> img[i] == file[i])
      && (forall i :: 8 <= i < dl && n <= i ==> img[i] == 0)
      && (dl >= 8 ==> LeValue(img[4..8]) == dl)
      && LeValue(img[dl..]) == crc32(img[4..dl])
  {
    ImageContent(file, crc32);
    ImageLengthField(file, crc32);
    ImageCrcField(file, crc32);
  }

  lemma ImageContent(file: seq<Byte>, crc32: Crc32)
    requires Accepts(file)
    ensures var n, dl, img := FileLen(file), DataLen(FileLen(file)), FinalImage(file, crc32);
      && (forall i :: 0 <= i < 4 && i < n ==> img[i] == file[i])
      && (forall i :: 8 <= i < n ==> img[i] == file[i])
      && (forall i :: 8 <= i < dl && n <= i ==> img[i] == 0)
  {
    var n, dl := FileLen(file), DataLen(FileLen(file));
    var raw := RawImage(file);
    var w := WithLength(raw, dl);
    var img := FinalImage(file, crc32);
    assert forall i :: 0 <= i < dl ==> img[i] == w[i];
    assert forall i :: 8 <= i < dl + 4 ==> w[i] == raw[i];
    assert forall i :: 0 <= i < 4 ==> w[i] == raw[i];
    assert forall i :: 0 <= i < n ==> raw[i] == file[i];
    assert forall i :: n <= i < dl + 4 ==> raw[i] == 0;
  }

  lemma ImageLengthField(file: seq<Byte>, crc32: Crc32)
    requires Accepts(file)
    ensures var dl, img := DataLen(FileLen(file)), FinalImage(file, crc32);
      dl >= 8 ==> LeValue(img[4..8]) == dl
  {
    var dl := DataLen(FileLen(file));
    var w := WithLength(RawImage(file), dl);
    var img := FinalImage(file, crc32);
    if dl >= 8 {
      assert img[4..8] == w[4..8] == UT.LeBytes(dl, 4);
      Pow256At4();
      UT.LeBytesValue(dl, 4);
    }
  }

  lemma ImageCrcField(file: seq<Byte>, crc32: Crc32)
    requires Accepts(file)
    ensures var dl, img := DataLen(FileLen(file)), FinalImage(file, crc32);
      LeValue(img[dl..]) == crc32(img[4..dl])
  {
    var dl := DataLen(FileLen(file));
    var w := WithLength(RawImage(file), dl);
    var img := FinalImage(file, crc32);
    assert img[dl..] == UT.LeBytes(crc32(w[4..dl]), 4);
    assert img[4..dl] == w[4..dl];
    Pow256At4();
    UT.LeBytesValue(crc32(w[4..dl]), 4);
  }

  lemma Pow256At4()
    ensures Pow256(4) == U32
  {
  }

  /** What fw[8] yields: a byte of the buffer, or a read past its end. */
  datatype TypeRead = TypeByte(b: Byte) | PastEnd

  /**
   * `fw_hw_type = fw[8]` as written: it is read whatever the buffer's
   * length, so a buffer of 8 bytes is read one past its end.
   */
  function TypeByteAsWritten(raw: seq<Byte>): (r: TypeRead)
    ensures r.PastEnd? <==> |raw| <= 8
    ensures r.TypeByte? ==> r.b == raw[8]
  {
    if 8 < |raw| then TypeByte(raw[8]) else PastEnd
  }

  /** Files of 1 to 4 bytes give a buffer of exactly 8 bytes, and fw[8] lies past it. */
  lemma TypeByteAsWrittenPastEnd(file: seq<Byte>)
    requires Accepts(file)
    ensures TypeByteAsWritten(RawImage(file)).PastEnd? <==> FileLen(file) <= 4
  {
  }

  lemma TypeByteAsWrittenOneByteFile()
    ensures Accepts([0x42]) && |RawImage([0x42])| == 8
    ensures TypeByteAsWritten(RawImage([0x42])) == PastEnd
  {
    assert FileLen([0x42]) == 1;
  }

  /**
   * The outcome of update() before the download starts, with the type
   * byte read only inside the buffer: `reported` is the application type
   * the device announced while the tool waited for it, or None when it
   * stayed silent.
   */
  function StartOutcome(file: seq<Byte>, ignoreIdentity: bool, reported: Option<Byte>): (r: DownloadResult)
    ensures r == Downloading <==>
      Accepts(file) && reported.Some? && |RawImage(file)| > 8
      && (ignoreIdentity || RawImage(file)[8] == reported.value)
    ensures r == WrongIdent ==>
      (!ignoreIdentity && reported.Some? && |RawImage(file)| > 8 && RawImage(file)[8] != reported.value)
    ensures Accepts(file) && FileLen(file) <= 4 ==> r == Error
    ensures r in {Downloading, WrongIdent, Error}
  {
    if !Accepts(file) then Error
    else if reported.None? then Error
    else if |RawImage(file)| <= 8 then Error
    else if !ignoreIdentity && RawImage(file)[8] != reported.value then WrongIdent
    else Downloading
  }

  // ---------------------------------------------------------------------
  // Frames (erase(), download_start(), write_block() and the callback's replies)
  // ---------------------------------------------------------------------

  /** A can_msg_t written by a designated initialiser: the named bytes, then zeros. */
  function Msg(id: nat, dlc: nat, bytes: seq<Byte>): (m: F.CanMsg)
    requires id < U32 && dlc <= 8 && |bytes| <= 8
    ensures F.ValidMsg(m)
  {
    F.CanMsg(id, dlc, bytes + Zeros(8 - |bytes|))
  }

  /** Bits 16..23, 8..15 and 0..7 of v: `(v >> 16) & 0xff, (v >> 8) & 0xff, v & 0xff`. */
  function Be24(v: nat): (r: seq<Byte>)
    ensures |r| == 3
  {
    [(v / 0x1_0000) % 256, (v / 0x100) % 256, v % 256]
  }

  /** The three bytes read most significant first give v modulo 2^24. */
  lemma Be24Value(v: nat)
    ensures BeValue(Be24(v)) == v % 0x100_0000
  {
    var s := Be24(v);
    var q1, c := v / 256, v % 256;
    var q2, b := q1 / 256, q1 % 256;
    var q3, a := q2 / 256, q2 % 256;
    DivDiv(v, 256, 256);
    assert s == [a, b, c];
    assert s[..2] == [a, b] && [a, b][..1] == [a] && [a][..0] == [];
    assert BeValue([a]) == a;
    assert BeValue([a, b]) == a * 256 + b;
    assert BeValue(s) == BeValue([a, b]) * 256 + c;
    assert v == q3 * 0x100_0000 + (a * 0x1_0000 + b * 256 + c);
    ModUnique(v, 0x100_0000, q3, a * 0x1_0000 + b * 256 + c);
  }

  /**
   * The values a download reads and does not change: the device id, the
   * `do_not_wait_halt_responce` flag, the type byte sent with the erase
   * request, and the image.
   */
  datatype Session = Session(devId: Byte, doNotWaitHalt: bool, fwHwType: Byte, fw: seq<Byte>)

  /** The image is loaded: at least 8 bytes, a whole number of 4-byte blocks. */
  predicate Loaded(ses: Session)
  {
    |ses.fw| >= 8 && |ses.fw| % 4 == 0
  }

  /** write_block(): [id, offset as 24 bits, most significant first, len image bytes], dlc len + 4. */
  function BlockFrame(ses: Session, off: nat, len: nat): F.CanMsg
    requires len <= 4 && off + len <= |ses.fw|
  {
    Msg(CO_CAN_ID_DEV_WRITE, len + 4, [ses.devId] + Be24(off) + ses.fw[off..off + len])
  }

  /** A block frame carries its offset modulo 2^24 and the image bytes at that offset. */
  lemma BlockFrameFields(ses: Session, off: nat)
    requires off + 4 <= |ses.fw|
    ensures var m := BlockFrame(ses, off, 4);
      && m.id == CO_CAN_ID_DEV_WRITE && m.dlc == 8 && m.data[0] == ses.devId
      && BeValue(m.data[1..4]) == off % 0x100_0000
      && m.data[4..] == ses.fw[off..off + 4]
  {
    var m := BlockFrame(ses, off, 4);
    var h := [ses.devId] + Be24(off) + ses.fw[off..off + 4];
    assert m.data == h;
    assert m.data[1..4] == Be24(off);
    Be24Value(off);
  }

  /** erase(): [id, ERASE_APP, type byte, fw_len as 24 bits], dlc 6. */
  function EraseFrame(ses: Session): F.CanMsg
  {
    Msg(CO_CAN_ID_DEV_CMD, 6, [ses.devId, CO_DEV_CMD_ERASE_APP, ses.fwHwType] + Be24(|ses.fw|))
  }

  function HaltFrame(ses: Session): F.CanMsg
  {
    Msg(CO_CAN_ID_DEV_CMD, 2, [ses.devId, CO_DEV_CMD_HALT])
  }

  function FlashFrame(ses: Session): F.CanMsg
  {
    Msg(CO_CAN_ID_DEV_CMD, 2, [ses.devId, CO_DEV_CMD_FLASH_APP])
  }

  function ExecFrame(ses: Session): F.CanMsg
  {
    Msg(CO_CAN_ID_DEV_CMD, 2, [ses.devId, CO_DEV_CMD_EXEC])
  }

  function AppVerRequest(ses: Session): F.CanMsg
  {
    Msg(CO_CAN_ID_DEV_CMD, 3, [ses.devId, CO_DEV_CMD_REQUEST_FIELD, CO_DEV_APP_VER])
  }

  /** download_start(): the halt request, then the erase request unless the halt reply is awaited. */
  function StartFrames(ses: Session): seq<F.CanMsg>
  {
    [HaltFrame(ses)] + (if ses.doNotWaitHalt then [EraseFrame(ses)] else [])
  }

  // ---------------------------------------------------------------------
  // The receive callback _com_frame_cb (lines 113-234)
  // ---------------------------------------------------------------------

  /** The globals the callback and update()'s wait loop change. */
  datatype Link = Link(ptr: int, alive: nat, devHwType: int, result: DownloadResult, sent: seq<F.CanMsg>)

  /** `ptr` only ever moves in whole 4-byte blocks from 0. */
  predicate PtrOk(s: Link)
  {
    s.ptr >= 0 && s.ptr % 4 == 0
  }

  predicate IsHaltReply(ses: Session, m: F.CanMsg)
    requires F.ValidMsg(m)
  {
    m.id == CO_CAN_ID_DEV_CMD && m.data[0] == ses.devId && m.data[1] == CO_DEV_CMD_HALT
  }

  /** Erase acknowledgements are taken from any device: data[0] is not compared. */
  predicate IsEraseAck(m: F.CanMsg)
    requires F.ValidMsg(m)
  {
    m.id == CO_CAN_ID_DEV_CMD && (m.data[1] == CO_DEV_CMD_ERASE_BOOT || m.data[1] == CO_DEV_CMD_ERASE_APP)
  }

  predicate IsTypeReply(ses: Session, m: F.CanMsg)
    requires F.ValidMsg(m)
  {
    m.id == CO_CAN_ID_DEV_CMD && m.data[0] == ses.devId
    && m.data[1] == CO_DEV_CMD_REQUEST_FIELD && m.data[2] == CO_DEV_APP_TYPE
  }

  predicate IsWriteAck(ses: Session, m: F.CanMsg)
    requires F.ValidMsg(m)
  {
    m.id == CO_CAN_ID_DEV_WRITE && m.data[0] == ses.devId
  }

  predicate IsFlashAck(ses: Session, m: F.CanMsg)
    requires F.ValidMsg(m)
  {
    m.id == CO_CAN_ID_DEV_CMD && m.data[0] == ses.devId
    && (m.data[1] == CO_DEV_CMD_FLASH_BOOT || m.data[1] == CO_DEV_CMD_FLASH_APP)
  }

  /**
   * One call of the callback. Its five tests differ in identifier or
   * command byte, so at most one fires, and the one fall-through of the
   * source (after a write acknowledgement) reaches a test that cannot
   * match.
   */
  function OnFrame(ses: Session, s: Link, m: F.CanMsg): (r: Link)
    requires Loaded(ses) && PtrOk(s) && F.ValidMsg(m)
    ensures PtrOk(r) && r.alive <= s.alive
    ensures |s.sent| <= |r.sent| <= |s.sent| + 1 && r.sent[..|s.sent|] == s.sent
    ensures r.result != s.result ==> r.alive == 0 && r.result in {Success, Error}
  {
    if IsHaltReply(ses, m) then
      if ses.doNotWaitHalt then s else s.(sent := s.sent + [EraseFrame(ses)])
    else if IsEraseAck(m) then
      if m.data[2] == 0 then s.(alive := 0, ptr := 4, sent := s.sent + [BlockFrame(ses, 0, 4)])
      else s.(alive := 0, result := Error)
    else if IsTypeReply(ses, m) then
      s.(alive := 0, devHwType := m.data[3], sent := s.sent + [AppVerRequest(ses)])
    else if IsWriteAck(ses, m) then
      if m.data[1] != 0 then s.(alive := 0, result := Error)
      else if s.ptr >= |ses.fw| then s.(alive := 0, sent := s.sent + [FlashFrame(ses)])
      else s.(alive := 0, ptr := s.ptr + 4, sent := s.sent + [BlockFrame(ses, s.ptr, 4)])
    else if IsFlashAck(ses, m) then
      if m.data[2] == CO_BOOT_STATUS_OK then
        s.(alive := 0, result := Success, sent := s.sent + [ExecFrame(ses)])
      else s.(alive := 0, result := Error)
    else s
  }

  /**
   * An erase, write or flash acknowledgement that reports a failure ends
   * the download with DL_ERROR and sends nothing.
   */
  lemma FailedAckAborts(ses: Session, s: Link, m: F.CanMsg)
    requires Loaded(ses) && PtrOk(s) && F.ValidMsg(m)
    requires || (IsEraseAck(m) && m.data[2] != 0)
             || (IsWriteAck(ses, m) && m.data[1] != 0)
             || (IsFlashAck(ses, m) && m.data[2] != CO_BOOT_STATUS_OK)
    ensures OnFrame(ses, s, m) == s.(alive := 0, result := Error)
  {
  }

  predicate AllValid(ms: seq<F.CanMsg>)
  {
    forall i :: 0 <= i < |ms| ==> F.ValidMsg(ms[i])
  }

  /** The callback run on each frame of `ms` in turn. */
  function Feed(ses: Session, s: Link, ms: seq<F.CanMsg>): (r: Link)
    requires Loaded(ses) && PtrOk(s) && AllValid(ms)
    ensures PtrOk(r) && r.alive <= s.alive
    ensures |s.sent| <= |r.sent| && r.sent[..|s.sent|] == s.sent
    ensures r.result != s.result ==> r.alive == 0 && r.result in {Success, Error}
    decreases |ms|
  {
    if ms == [] then s else Feed(ses, OnFrame(ses, s, ms[0]), ms[1..])
  }

  lemma {:induction false} FeedAppend(ses: Session, s: Link, a: seq<F.CanMsg>, b: seq<F.CanMsg>)
    requires Loaded(ses) && PtrOk(s) && AllValid(a) && AllValid(b)
    ensures AllValid(a + b) && Feed(ses, s, a + b) == Feed(ses, Feed(ses, s, a), b)
    decreases |a|
  {
    if a != [] {
      assert (a + b)[0] == a[0];
      assert (a + b)[1..] == a[1..] + b;
      FeedAppend(ses, OnFrame(ses, s, a[0]), a[1..], b);
    } else {
      assert a + b == b;
    }
  }

  /** A successful erase acknowledgement; `from` is any device id. */
  function EraseOk(from: Byte): F.CanMsg
  {
    Msg(CO_CAN_ID_DEV_CMD, 3, [from, CO_DEV_CMD_ERASE_APP, 0])
  }

  function WriteOk(ses: Session): F.CanMsg
  {
    Msg(CO_CAN_ID_DEV_WRITE, 2, [ses.devId, 0])
  }

  function FlashOk(ses: Session): F.CanMsg
  {
    Msg(CO_CAN_ID_DEV_CMD, 3, [ses.devId, CO_DEV_CMD_FLASH_APP, CO_BOOT_STATUS_OK])
  }

  /** k successful write acknowledgements. */
  function WriteAcks(ses: Session, k: nat): (r: seq<F.CanMsg>)
    ensures |r| == k && AllValid(r)
  {
    if k == 0 then [] else [WriteOk(ses)] + WriteAcks(ses, k - 1)
  }

  /** The block frames for the k blocks starting at offset off. */
  function BlocksFrom(ses: Session, off: nat, k: nat): (r: seq<F.CanMsg>)
    requires off + 4 * k <= |ses.fw|
    ensures |r| == k
    decreases k
  {
    if k == 0 then [] else [BlockFrame(ses, off, 4)] + BlocksFrom(ses, off + 4, k - 1)
  }

  lemma FeedOne(ses: Session, s: Link, m: F.CanMsg)
    requires Loaded(ses) && PtrOk(s) && F.ValidMsg(m)
    ensures AllValid([m]) && Feed(ses, s, [m]) == OnFrame(ses, s, m)
  {
    assert [m][1..] == [];
  }

  lemma OnEraseOk(ses: Session, s: Link, from: Byte)
    requires Loaded(ses) && PtrOk(s)
    ensures OnFrame(ses, s, EraseOk(from)) == s.(alive := 0, ptr := 4, sent := s.sent + [BlockFrame(ses, 0, 4)])
  {
    var m := EraseOk(from);
    assert m.data[1] == CO_DEV_CMD_ERASE_APP && m.data[2] == 0;
  }

  lemma OnWriteOk(ses: Session, s: Link)
    requires Loaded(ses) && PtrOk(s) && s.ptr < |ses.fw|
    ensures s.ptr + 4 <= |ses.fw|
    ensures OnFrame(ses, s, WriteOk(ses)) == s.(alive := 0, ptr := s.ptr + 4, sent := s.sent + [BlockFrame(ses, s.ptr, 4)])
  {
    var m := WriteOk(ses);
    assert m.data[0] == ses.devId && m.data[1] == 0;
  }

  lemma OnLastWriteOk(ses: Session, s: Link)
    requires Loaded(ses) && PtrOk(s) && s.ptr >= |ses.fw|
    ensures OnFrame(ses, s, WriteOk(ses)) == s.(alive := 0, sent := s.sent + [FlashFrame(ses)])
  {
    var m := WriteOk(ses);
    assert m.data[0] == ses.devId && m.data[1] == 0;
  }

  lemma OnFlashOk(ses: Session, s: Link)
    requires Loaded(ses) && PtrOk(s)
    ensures OnFrame(ses, s, FlashOk(ses)) == s.(alive := 0, result := Success, sent := s.sent + [ExecFrame(ses)])
  {
    var m := FlashOk(ses);
    assert m.data[0] == ses.devId && m.data[1] == CO_DEV_CMD_FLASH_APP && m.data[2] == CO_BOOT_STATUS_OK;
  }

  /**
   * While blocks remain, each successful write acknowledgement sends the
   * next block and moves ptr on by 4.
   */
  lemma {:induction false} AcksSendBlocks(ses: Session, s: Link, k: nat)
    requires Loaded(ses) && PtrOk(s) && s.ptr + 4 * k <= |ses.fw|
    ensures var r := Feed(ses, s, WriteAcks(ses, k));
      && r.ptr == s.ptr + 4 * k && r.result == s.result && r.devHwType == s.devHwType
      && r.sent == s.sent + BlocksFrom(ses, s.ptr, k)
      && (k > 0 ==> r.alive == 0)
    decreases k
  {
    if k > 0 {
      OnWriteOk(ses, s);
      var s1 := OnFrame(ses, s, WriteOk(ses));
      assert WriteAcks(ses, k)[1..] == WriteAcks(ses, k - 1);
      AcksSendBlocks(ses, s1, k - 1);
    }
  }

  /**
   * Once the last block is out, the next write acknowledgement requests
   * the flash.
   */
  lemma AcksThenFlash(ses: Session, s: Link, k: nat)
    requires Loaded(ses) && PtrOk(s) && s.ptr + 4 * k == |ses.fw|
    ensures var r := Feed(ses, s, WriteAcks(ses, k + 1));
      && r == s.(alive := 0, ptr := |ses.fw|, sent := s.sent + BlocksFrom(ses, s.ptr, k) + [FlashFrame(ses)])
  {
    WriteAcksSplit(ses, k + 1);
    AcksSendBlocks(ses, s, k);
    var s2 := Feed(ses, s, WriteAcks(ses, k));
    FeedAppend(ses, s, WriteAcks(ses, k), WriteAcks(ses, 1));
    assert WriteAcks(ses, 1) == [WriteOk(ses)];
    FeedOne(ses, s2, WriteOk(ses));
    OnLastWriteOk(ses, s2);
  }

  /** The erase acknowledgement and the write acknowledgements bring the tool to the flash request. */
  lemma EraseThenAcks(ses: Session, s: Link, from: Byte)
    requires Loaded(ses) && PtrOk(s)
    ensures var n := |ses.fw| / 4;
      AllValid([EraseOk(from)] + WriteAcks(ses, n)) &&
      Feed(ses, s, [EraseOk(from)] + WriteAcks(ses, n))
        == s.(alive := 0, ptr := |ses.fw|, sent := s.sent + BlocksFrom(ses, 0, n) + [FlashFrame(ses)])
  {
    var n := |ses.fw| / 4;
    assert n >= 2 && 4 * n == |ses.fw|;
    OnEraseOk(ses, s, from);
    FeedOne(ses, s, EraseOk(from));
    var s1 := s.(alive := 0, ptr := 4, sent := s.sent + [BlockFrame(ses, 0, 4)]);
    assert Feed(ses, s, [EraseOk(from)]) == s1;
    AcksThenFlash(ses, s1, n - 1);
    FeedAppend(ses, s, [EraseOk(from)], WriteAcks(ses, n));
    var bs := BlocksFrom(ses, 4, n - 1);
    assert Feed(ses, s1, WriteAcks(ses, n)) == s1.(alive := 0, ptr := |ses.fw|, sent := s1.sent + bs + [FlashFrame(ses)]);
    assert BlocksFrom(ses, 0, n) == [BlockFrame(ses, 0, 4)] + bs;
    Regroup(s.sent, [BlockFrame(ses, 0, 4)], bs, [FlashFrame(ses)]);
  }

  lemma Regroup<T>(a: seq<T>, b: seq<T>, c: seq<T>, d: seq<T>)
    ensures a + b + c + d == a + (b + c) + d
  {
  }

  /**
   * A download the bootloader acknowledges throughout: the erase
   * acknowledgement (from any id), one write acknowledgement per block and
   * one more, then the flash acknowledgement. The tool sends every block
   * of the image in order, then the flash and exec requests, and ends with
   * DL_SUCCESS.
   */
  lemma AcknowledgedDownload(ses: Session, s: Link, from: Byte)
    requires Loaded(ses) && PtrOk(s)
    ensures var n := |ses.fw| / 4;
      var ms := [EraseOk(from)] + WriteAcks(ses, n) + [FlashOk(ses)];
      AllValid(ms) &&
      var r := Feed(ses, s, ms);
      && r.result == Success && r.alive == 0 && r.ptr == |ses.fw|
      && r.sent == s.sent + BlocksFrom(ses, 0, n) + [FlashFrame(ses), ExecFrame(ses)]
  {
    var n := |ses.fw| / 4;
    EraseThenAcks(ses, s, from);
    var s3 := Feed(ses, s, [EraseOk(from)] + WriteAcks(ses, n));
    FeedOne(ses, s3, FlashOk(ses));
    OnFlashOk(ses, s3);
    FeedAppend(ses, s, [EraseOk(from)] + WriteAcks(ses, n), [FlashOk(ses)]);
    Regroup(s.sent, BlocksFrom(ses, 0, n), [FlashFrame(ses)], [ExecFrame(ses)]);
    assert [FlashFrame(ses)] + [ExecFrame(ses)] == [FlashFrame(ses), ExecFrame(ses)];
  }

  lemma WriteAcksSplit(ses: Session, n: nat)
    requires n >= 1
    ensures WriteAcks(ses, n) == WriteAcks(ses, n - 1) + WriteAcks(ses, 1)
  {
    var a := WriteAcks(ses, n);
    var b := WriteAcks(ses, n - 1) + WriteAcks(ses, 1);
    assert forall i :: 0 <= i < n ==> a[i] == WriteOk(ses) == b[i] by {
      forall i | 0 <= i < n
        ensures a[i] == WriteOk(ses)
      {
        WriteAcksAt(ses, n, i);
      }
      forall i | 0 <= i < n - 1
        ensures b[i] == WriteOk(ses)
      {
        WriteAcksAt(ses, n - 1, i);
      }
    }
  }

  lemma {:induction false} WriteAcksAt(ses: Session, k: nat, i: nat)
    requires i < k
    ensures WriteAcks(ses, k)[i] == WriteOk(ses)
  {
    if i > 0 {
      WriteAcksAt(ses, k - 1, i - 1);
    }
  }

  /** The data bytes of block frames, concatenated. */
  function Payloads(ms: seq<F.CanMsg>): seq<Byte>
    requires AllValid(ms)
  {
    if ms == [] then [] else ms[0].data[4..] + Payloads(ms[1..])
  }

  /** The blocks starting at off carry the image bytes [off, off + 4k) back to back. */
  lemma {:induction false} BlocksCarryImage(ses: Session, off: nat, k: nat)
    requires off + 4 * k <= |ses.fw|
    ensures AllValid(BlocksFrom(ses, off, k))
    ensures Payloads(BlocksFrom(ses, off, k)) == ses.fw[off..off + 4 * k]
    decreases k
  {
    var b := BlocksFrom(ses, off, k);
    if k > 0 {
      BlocksCarryImage(ses, off + 4, k - 1);
      BlockFrameFields(ses, off);
      assert b[1..] == BlocksFrom(ses, off + 4, k - 1);
      assert ses.fw[off..off + 4 * k] == ses.fw[off..off + 4] + ses.fw[off + 4..off + 4 * k];
    }
  }

  lemma {:induction false} BlockAt(ses: Session, off: nat, k: nat, i: nat)
    requires off + 4 * k <= |ses.fw| && i < k
    ensures BlocksFrom(ses, off, k)[i] == BlockFrame(ses, off + 4 * i, 4)
    decreases k
  {
    if i > 0 {
      BlockAt(ses, off + 4, k - 1, i - 1);
    }
  }

  /** Block i of the run starting at off carries the offset off + 4i, modulo 2^24. */
  lemma BlocksCarryOffsets(ses: Session, off: nat, k: nat)
    requires off + 4 * k <= |ses.fw|
    ensures forall i :: 0 <= i < k ==>
      BlocksFrom(ses, off, k)[i] == BlockFrame(ses, off + 4 * i, 4)
      && BeValue(BlocksFrom(ses, off, k)[i].data[1..4]) == (off + 4 * i) % 0x100_0000
  {
    forall i | 0 <= i < k
      ensures BlocksFrom(ses, off, k)[i] == BlockFrame(ses, off + 4 * i, 4)
      ensures BeValue(BlocksFrom(ses, off, k)[i].data[1..4]) == (off + 4 * i) % 0x100_0000
    {
      BlockAt(ses, off, k, i);
      BlockFrameFields(ses, off + 4 * i);
    }
  }

  // ---------------------------------------------------------------------
  // The wait loop of update() (lines 462-474)
  // ---------------------------------------------------------------------

  /**
   * update()'s wait: while downloading and `alive` is below the timeout,
   * sleep 100 ms (the frames of `arrivals[0]` reach the callback meanwhile)
   * and add 100 to `alive`; a counter that reached the timeout turns the
   * result into DL_ERROR.
   */
  function Waited(ses: Session, s: Link, arrivals: seq<seq<F.CanMsg>>): (r: Link)
    requires Loaded(ses) && PtrOk(s)
    requires forall k :: 0 <= k < |arrivals| ==> AllValid(arrivals[k])
    ensures PtrOk(r)
    ensures r.result != Downloading
    ensures r.result == s.result || r.result in {Success, Error}
    ensures s.result != Downloading && s.alive < DOWNLOAD_TIMEOUT ==> r == s
    decreases |arrivals|, DOWNLOAD_TIMEOUT - s.alive
  {
    if s.result == Downloading && s.alive < DOWNLOAD_TIMEOUT then
      Waited(ses, Round(ses, s, arrivals), if arrivals == [] then [] else arrivals[1..])
    else if s.alive >= DOWNLOAD_TIMEOUT then s.(result := Error)
    else s
  }

  /** One round of the wait: the frames of one sleep reach the callback, then 100 ms more on `alive`. */
  function Round(ses: Session, s: Link, rest: seq<seq<F.CanMsg>>): (r: Link)
    requires Loaded(ses) && PtrOk(s)
    requires rest != [] ==> AllValid(rest[0])
    ensures PtrOk(r)
  {
    var s1 := if rest == [] then s else Feed(ses, s, rest[0]);
    s1.(alive := s1.alive + TICK)
  }

  /** While downloading below the timeout, the wait is one round followed by the wait on the later sleeps. */
  lemma WaitedRound(ses: Session, s: Link, rest: seq<seq<F.CanMsg>>)
    requires Loaded(ses) && PtrOk(s) && s.result == Downloading && s.alive < DOWNLOAD_TIMEOUT
    requires forall k :: 0 <= k < |rest| ==> AllValid(rest[k])
    ensures Waited(ses, s, rest) == Waited(ses, Round(ses, s, rest), if rest == [] then [] else rest[1..])
  {
  }

  /** With no frame from the bootloader the download ends in DL_ERROR. */
  lemma {:induction false} SilentDownloadTimesOut(ses: Session, s: Link)
    requires Loaded(ses) && PtrOk(s) && s.result == Downloading
    ensures Waited(ses, s, []).result == Error
    decreases DOWNLOAD_TIMEOUT - s.alive
  {
    if s.alive < DOWNLOAD_TIMEOUT {
      SilentDownloadTimesOut(ses, s.(alive := s.alive + TICK));
    }
  }

  /**
   * With frames arriving during the first sleeps, the wait ends with the
   * result the callback set, DL_SUCCESS after a flash acknowledgement.
   */
  lemma SuccessEndsWait(ses: Session, s: Link, arrivals: seq<seq<F.CanMsg>>)
    requires Loaded(ses) && PtrOk(s) && s.result == Downloading && s.alive < DOWNLOAD_TIMEOUT
    requires forall k :: 0 <= k < |arrivals| ==> AllValid(arrivals[k])
    requires arrivals != [] && Feed(ses, s, arrivals[0]).result == Success
    ensures Waited(ses, s, arrivals).result == Success
  {
    var s1 := Feed(ses, s, arrivals[0]);
    var s2 := s1.(alive := s1.alive + TICK);
    assert s2.result == Success && s2.alive == TICK;
    assert Waited(ses, s2, arrivals[1..]) == s2;
  }

  // ---------------------------------------------------------------------
  // The tool's globals and the operations that change them
  // ---------------------------------------------------------------------

  class Downloader {
    const devId: Byte
    const doNotWaitHalt: bool
    var fw: array<Byte>
    var fwLen: int
    var fwHwType: Byte
    var ptr: int
    var alive: nat
    var devHwType: int
    var result: DownloadResult
    /** The frames handed to write_com_frame, oldest first. */
    var sent: seq<F.CanMsg>

    function Ses(): Session
      reads this, fw
    {
      Session(devId, doNotWaitHalt, fwHwType, fw[..])
    }

    function State(): Link
      reads this
    {
      Link(ptr, alive, devHwType, result, sent)
    }

    predicate Valid()
      reads this, fw
    {
      fw.Length == fwLen && fwLen % 4 == 0 && PtrOk(State())
    }

    /** The program start: no image, DL_IDLE, `dev_hw_type` all ones, `do_not_wait_halt_responce` set. */
    constructor(id: Byte)
      ensures Valid() && devId == id && doNotWaitHalt
      ensures fwLen == 0 && ptr == 0 && alive == 0 && devHwType == NO_HW_TYPE
      ensures result == Idle && sent == [] && fwHwType == 0
    {
      devId := id;
      doNotWaitHalt := true;
      fw := new Byte[0];
      fwLen := 0;
      fwHwType := 0;
      ptr := 0;
      alive := 0;
      devHwType := NO_HW_TYPE;
      result := Idle;
      sent := [];
    }

    /** write_block(fw, &ptr, len). */
    method WriteBlock(len: int)
      requires Valid() && 0 <= len <= 4 && ptr + len <= fwLen
      modifies this
      ensures unchanged(this`fw, this`fwLen, this`fwHwType, this`alive, this`devHwType, this`result)
      ensures ptr == old(ptr) + len && sent == old(sent) + [BlockFrame(Ses(), old(ptr), len)]
    {
      var m := Msg(CO_CAN_ID_DEV_WRITE, len + 4, [devId] + Be24(ptr) + fw[ptr..ptr + len]);
      ptr := ptr + len;
      sent := sent + [m];
    }

    method Erase()
      modifies this
      ensures sent == old(sent) + [EraseFrame(Ses())]
      ensures unchanged(this`fw, this`fwLen, this`fwHwType, this`ptr, this`alive, this`devHwType, this`result)
    {
      sent := sent + [Msg(CO_CAN_ID_DEV_CMD, 6, [devId, CO_DEV_CMD_ERASE_APP, fwHwType] + Be24(fw.Length))];
    }

    method DownloadStart()
      modifies this
      ensures result == Downloading && sent == old(sent) + StartFrames(Ses())
      ensures unchanged(this`fw, this`fwLen, this`fwHwType, this`ptr, this`alive, this`devHwType)
    {
      result := Downloading;
      sent := sent + [HaltFrame(Ses())];
      if doNotWaitHalt {
        Erase();
      }
    }

    /** The erase acknowledgement branch of the callback. */
    method EraseAcked(status: Byte)
      requires Valid() && Loaded(Ses())
      modifies this
      ensures unchanged(this`fw, this`fwLen, this`fwHwType)
      ensures Valid() && State() ==
        if status == 0 then old(State()).(alive := 0, ptr := 4, sent := old(sent) + [BlockFrame(Ses(), 0, 4)])
        else old(State()).(alive := 0, result := Error)
    {
      alive := 0;
      if status == 0 {
        ptr := 0;
        WriteBlock(4);
      } else {
        result := Error;
      }
    }

    /** The write acknowledgement branch of the callback. */
    method WriteAcked(status: Byte)
      requires Valid() && Loaded(Ses())
      modifies this
      ensures unchanged(this`fw, this`fwLen, this`fwHwType)
      ensures Valid() && State() ==
        if status != 0 then old(State()).(alive := 0, result := Error)
        else if old(ptr) >= fwLen then old(State()).(alive := 0, sent := old(sent) + [FlashFrame(Ses())])
        else old(State()).(alive := 0, ptr := old(ptr) + 4, sent := old(sent) + [BlockFrame(Ses(), old(ptr), 4)])
    {
      alive := 0;
      if status != 0 {
        result := Error;
      } else if ptr >= fwLen {
        sent := sent + [FlashFrame(Ses())];
      } else {
        WriteBlock(4);
      }
    }

    /** _com_frame_cb for one received frame. */
    method ComFrame(m: F.CanMsg)
      requires Valid() && Loaded(Ses()) && F.ValidMsg(m)
      modifies this
      ensures unchanged(this`fw, this`fwLen, this`fwHwType)
      ensures Valid() && State() == OnFrame(Ses(), old(State()), m)
    {
      if IsHaltReply(Ses(), m) {
        if !doNotWaitHalt {
          Erase();
        }
      } else if IsEraseAck(m) {
        EraseAcked(m.data[2]);
      } else if IsTypeReply(Ses(), m) {
        alive := 0;
        devHwType := m.data[3];
        sent := sent + [AppVerRequest(Ses())];
      } else if IsWriteAck(Ses(), m) {
        WriteAcked(m.data[1]);
      } else if IsFlashAck(Ses(), m) {
        alive := 0;
        if m.data[2] == CO_BOOT_STATUS_OK {
          sent := sent + [ExecFrame(Ses())];
          result := Success;
        } else {
          result := Error;
        }
      }
    }

    /** The callback on each frame that arrives during one sleep. */
    method Deliver(ms: seq<F.CanMsg>)
      requires Valid() && Loaded(Ses()) && AllValid(ms)
      modifies this
      ensures unchanged(this`fw, this`fwLen, this`fwHwType) && Ses() == old(Ses())
      ensures Valid() && State() == Feed(Ses(), old(State()), ms)
    {
      var i := 0;
      while i < |ms|
        invariant 0 <= i <= |ms| && Valid() && Loaded(Ses())
        invariant unchanged(this`fw, this`fwLen, this`fwHwType)
        invariant Feed(Ses(), State(), ms[i..]) == Feed(Ses(), old(State()), ms)
      {
        assert ms[i..][1..] == ms[i + 1..];
        ComFrame(ms[i]);
        i := i + 1;
      }
    }

    /** One round of the wait loop: the frames of one sleep, then 100 ms more on `alive`. */
    method WaitRound(rest: seq<seq<F.CanMsg>>) returns (rest': seq<seq<F.CanMsg>>)
      requires Valid() && Loaded(Ses()) && result == Downloading && alive < DOWNLOAD_TIMEOUT
      requires forall k :: 0 <= k < |rest| ==> AllValid(rest[k])
      modifies this
      ensures unchanged(this`fw, this`fwLen, this`fwHwType) && Ses() == old(Ses())
      ensures Valid() && State() == Round(Ses(), old(State()), rest)
      ensures rest' == if rest == [] then [] else rest[1..]
    {
      if rest != [] {
        Deliver(rest[0]);
        rest' := rest[1..];
      } else {
        rest' := [];
      }
      Tick();
    }

    /** One 100 ms sleep of the wait loop counted on `alive`. */
    method Tick()
      requires Valid()
      modifies this`alive
      ensures Ses() == old(Ses())
      ensures Valid() && State() == old(State()).(alive := old(alive) + TICK)
    {
      alive := alive + TICK;
    }

    /** The wait loop of update() and its timeout test. */
    method Await(arrivals: seq<seq<F.CanMsg>>)
      requires Valid() && Loaded(Ses())
      requires forall k :: 0 <= k < |arrivals| ==> AllValid(arrivals[k])
      modifies this
      ensures unchanged(this`fw, this`fwLen, this`fwHwType)
      ensures Valid() && State() == Waited(Ses(), old(State()), arrivals)
    {
      var rest := arrivals;
      while result == Downloading && alive < DOWNLOAD_TIMEOUT
        invariant Valid() && Loaded(Ses()) && unchanged(this`fw, this`fwLen, this`fwHwType)
        invariant forall k :: 0 <= k < |rest| ==> AllValid(rest[k])
        invariant Waited(Ses(), State(), rest) == Waited(Ses(), old(State()), arrivals)
        decreases |rest|, DOWNLOAD_TIMEOUT - alive
      {
        WaitedRound(Ses(), State(), rest);
        rest := WaitRound(rest);
      }
      if alive >= DOWNLOAD_TIMEOUT {
        result := Error;
      }
    }

    /** fread() into the calloc'ed buffer: the first n bytes of the file over zeros. */
    method LoadFile(file: seq<Byte>)
      requires Accepts(file)
      modifies this
      ensures fresh(fw) && fw[..] == RawImage(file) && fwLen == fw.Length
      ensures unchanged(this`fwHwType, this`ptr, this`alive, this`devHwType, this`result, this`sent)
    {
      var n := FileLen(file);
      var dl := DataLen(n);
      fwLen := dl + 4;
      fw := new Byte[fwLen](_ => 0);
      var i := 0;
      while i < n
        modifies fw
        invariant 0 <= i <= n && fw.Length == dl + 4 == fwLen
        invariant fw[..i] == file[..i]
        invariant forall j :: i <= j < fw.Length ==> fw[j] == 0
      {
        fw[i] := file[i];
        i := i + 1;
      }
      assert fw[..] == fw[..n] + fw[n..];
      assert fw[n..] == Zeros(dl + 4 - n);
    }

    /** memcpy of a 32-bit value to fw + at on a little-endian host. */
    method PutLe32(at: int, v: Word32)
      requires 0 <= at && at + 4 <= fw.Length
      modifies fw
      ensures fw[..] == old(fw[..])[..at] + UT.LeBytes(v, 4) + old(fw[..])[at + 4..]
    {
      var b := UT.LeBytes(v, 4);
      fw[at] := b[0];
      fw[at + 1] := b[1];
      fw[at + 2] := b[2];
      fw[at + 3] := b[3];
    }

    /** The length field and the CRC (lines 455-457) over the loaded buffer. */
    method Seal(dl: nat, crc32: Crc32)
      requires fw.Length == dl + 4 && dl >= 4 && dl < U32
      modifies fw
      ensures fw[..] == WithCrc(WithLength(old(fw[..]), dl), dl, crc32)
    {
      PutLe32(4, dl);
      assert fw[..] == WithLength(old(fw[..]), dl);
      var crc := crc32(fw[4..dl]);
      PutLe32(dl, crc);
    }

    /**
     * update() up to the identity check (lines 371-449), with the type byte
     * read only inside the buffer. `reported` is the application type the
     * device announced while the tool waited after its reset or identity
     * request, or None when it stayed silent.
     */
    method Prepare(file: seq<Byte>, ignoreIdentity: bool, reported: Option<Byte>) returns (go: bool)
      requires Valid()
      modifies this
      ensures go <==> StartOutcome(file, ignoreIdentity, reported) == Downloading
      ensures !go ==> result == StartOutcome(file, ignoreIdentity, reported) && sent == old(sent)
      ensures !go ==> Valid()
      ensures go ==> fresh(fw) && fwLen == fw.Length && fw[..] == RawImage(file) && fwHwType == RawImage(file)[8]
      ensures go ==> devHwType == reported.value && alive == 0 && ptr == old(ptr) && sent == old(sent)
    {
      result := Idle;
      if !Accepts(file) {
        result := Error;
        return false;
      }
      LoadFile(file);
      devHwType := NO_HW_TYPE;
      if reported.None? {
        result := Error;
        return false;
      }
      devHwType := reported.value;
      alive := 0;
      if fwLen <= 8 {
        result := Error;
        return false;
      }
      fwHwType := fw[8];
      if !ignoreIdentity && fwHwType != devHwType {
        result := WrongIdent;
        return false;
      }
      return true;
    }

    /**
     * update() for one device, with the type byte read only inside the
     * buffer. `arrivals[k]` are the frames that reach the callback during
     * the k-th sleep of the wait loop.
     */
    method Update(file: seq<Byte>, ignoreIdentity: bool, reported: Option<Byte>, crc32: Crc32,
                  arrivals: seq<seq<F.CanMsg>>) returns (r: DownloadResult)
      requires Valid()
      requires forall k :: 0 <= k < |arrivals| ==> AllValid(arrivals[k])
      modifies this, fw
      ensures Valid() && r == result && r != Idle && r != Downloading
      ensures StartOutcome(file, ignoreIdentity, reported) != Downloading ==>
        r == StartOutcome(file, ignoreIdentity, reported) && sent == old(sent)
      ensures StartOutcome(file, ignoreIdentity, reported) == Downloading ==>
        && fw[..] == FinalImage(file, crc32) && fwHwType == RawImage(file)[8]
        && State() == Waited(Ses(), Link(old(ptr), 0, reported.value, Downloading, old(sent) + StartFrames(Ses())), arrivals)
    {
      var go := Prepare(file, ignoreIdentity, reported);
      if !go {
        return result;
      }
      Download(DataLen(FileLen(file)), crc32, arrivals);
      r := result;
    }

    /** update() from the length field on (lines 455-474). */
    method Download(dl: nat, crc32: Crc32, arrivals: seq<seq<F.CanMsg>>)
      requires Valid() && fw.Length == dl + 4 && dl >= 8 && dl < U32
      requires forall k :: 0 <= k < |arrivals| ==> AllValid(arrivals[k])
      modifies this, fw
      ensures unchanged(this`fw, this`fwLen, this`fwHwType)
      ensures fw[..] == WithCrc(WithLength(old(fw[..]), dl), dl, crc32)
      ensures Valid() && result != Downloading && (result == Success || result == Error)
      ensures State() == Waited(Ses(), old(State()).(result := Downloading, sent := old(sent) + StartFrames(Ses())), arrivals)
    {
      Seal(dl, crc32);
      DownloadStart();
      Await(arrivals);
    }
  }
}
