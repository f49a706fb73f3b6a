// The bus monitor of the USB-CAN driver (c/src/usbcan_proto.c): the
// per-node heartbeat table, the single pending operation (an SDO
// transfer or a wait for a node), the periodic poll that ages both, the
// handling of received bridge frames and the list of device handles.
// Callbacks, the wake-up of the waiting thread and the frames the poll
// sends are reported as a list of events in the order the C code
// produces them.
module UsbcanProto {
  import opened Arith
  import opened UsbcanUtil
  import opened CoCommon
  import opened UsbcanFrame

  const USB_CAN_MAX_DEV: int := 128
  const USB_CAN_MASTER_HB_IVAL_MS: int := 1000
  const USB_CAN_TRAJ_SYNC_IVAL_MS: int := 50
  const USB_CAN_HB_ALIVE_THRESHOLD_MS: int := 3000
  /** Size of the reply buffer of the pending operation (op.data). */
  const OP_DATA_SZ: int := 8192
  /** Defaults of a new device handle. */
  const DEV_DEFAULT_TIMEOUT: int := 1000
  const DEV_DEFAULT_RETRY: int := 1

  /**
   * One node's row of the per-id tables dev_alive, dev_hb_ival,
   * dev_min_hb_ival, dev_max_hb_ival, dev_state and dev_boot_up.
   */
  datatype DevEntry = DevEntry(alive: int, hbIval: int, minHbIval: int, maxHbIval: int, state: int, bootUp: bool)

  /** A row as usbcan_instance_init leaves it: absent, no statistics, heartbeat timeout. */
  const Absent: DevEntry := DevEntry(-1, -1, -1, -1, CO_NMT_HB_TIMEOUT, false)

  /** The kinds of pending operation. */
  datatype OpCode = OpNone | OpSdo | OpWaitDevState | OpWaitDevBootUp

  /** The state a wait is for: CO_NMT_ANY, or one particular state. */
  datatype Wanted = AnyState | Exactly(state: int)

  /** usbcan_op_t: the single pending operation of an instance. */
  datatype Op = Op(code: OpCode, write: bool, id: int, idx: int, sidx: int, tout: int, reTxn: int,
                   ttl: int, state: Wanted, abt: int, len: int, data: seq<Byte>)

  /** What the monitor does towards the outside, in order. */
  datatype Event =
    | NmtStateChanged(id: int, state: int)   // usbcan_nmt_state_cb
    | HbReceived(id: int, state: int)        // usbcan_hb_rx_cb
    | HbTxNotified                           // usbcan_hb_tx_cb
    | MasterHbSent                           // usbcan_send_master_hb
    | TrajSyncSent                           // usbcan_send_traj_sync
    | ComFrameReceived(m: CanMsg)            // usbcan_com_frame_cb
    | EmcyReceived(id: int, code: int, reg: int, bits: int, info: int)   // usbcan_emcy_cb
    | Signalled                              // the waiting thread is woken

  /* ----- heartbeat table ----- */

  /**
   * What every row keeps between calls: a node is absent (-1) or has
   * between 1 and threshold milliseconds left; the last interval lies in
   * [-1, threshold + 1] and is a real interval while the node is present;
   * the statistics are cleared together or bracket each other, and bracket
   * the last interval while the node is present.
   */
  ghost predicate EntryOk(e: DevEntry, th: int)
  {
    (e.alive == -1 || 0 < e.alive <= th)
    && -1 <= e.hbIval <= th + 1
    && (e.alive > 0 ==> 0 <= e.hbIval)
    && ((e.minHbIval == -1 && e.maxHbIval == -1) || 0 <= e.minHbIval <= e.maxHbIval <= th + 1)
    && (e.alive > 0 && e.minHbIval != -1 ==> e.minHbIval <= e.hbIval <= e.maxHbIval)
  }

  /** delta_ms of usbcan_poll: the elapsed microseconds rounded up to milliseconds, kept in 32 bits. */
  function DeltaMs(deltaUs: nat): (r: nat)
    ensures r < U32
  {
    (deltaUs / 1000 + (if deltaUs % 1000 != 0 then 1 else 0)) % U32
  }

  /** Below 2^32 - 1 seconds the rounding is exact: the smallest whole number of milliseconds covering deltaUs. */
  lemma DeltaMsRoundsUp(deltaUs: nat)
    requires deltaUs <= 1000 * (U32 - 1)
    ensures DeltaMs(deltaUs) * 1000 >= deltaUs
    ensures (DeltaMs(deltaUs) - 1) * 1000 < deltaUs || deltaUs == 0
  {
    var q, r := deltaUs / 1000, deltaUs % 1000;
    var c := q + (if r != 0 then 1 else 0);
    assert c < U32;
    ModUnique(c, U32, 0, c);
  }

  /** A present node's countdown runs out during a poll of deltaMs milliseconds. */
  predicate TimesOut(e: DevEntry, deltaMs: nat)
  {
    0 <= e.alive <= deltaMs
  }

  /**
   * One row after the poll: a present node's countdown drops by the
   * elapsed time; one that runs out becomes absent with no interval and
   * the heartbeat-timeout state; absent rows stay as they are.
   */
  function AgeEntry(e: DevEntry, deltaMs: nat): (r: DevEntry)
    ensures e.alive > deltaMs ==> r == e.(alive := e.alive - deltaMs)
    ensures TimesOut(e, deltaMs) ==> r == e.(alive := -1, hbIval := -1, state := CO_NMT_HB_TIMEOUT)
    ensures e.alive < 0 ==> r == e
  {
    var alive := if e.alive > 0 then e.alive - Min(deltaMs, e.alive) else e.alive;
    if alive == 0 then e.(alive := -1, hbIval := -1, state := CO_NMT_HB_TIMEOUT) else e.(alive := alive)
  }

  lemma AgeEntryOk(e: DevEntry, deltaMs: nat, th: int)
    requires EntryOk(e, th)
    ensures EntryOk(AgeEntry(e, deltaMs), th)
  {
  }

  function AgeTable(t: seq<DevEntry>, deltaMs: nat): (r: seq<DevEntry>)
    ensures |r| == |t|
  {
    seq(|t|, i requires 0 <= i < |t| => AgeEntry(t[i], deltaMs))
  }

  /** The timeout notifications of the aging loop over the first n rows, in id order. */
  function AgeEvents(t: seq<DevEntry>, deltaMs: nat, n: nat): seq<Event>
    requires n <= |t|
  {
    if n == 0 then []
    else AgeEvents(t, deltaMs, n - 1) + (if TimesOut(t[n - 1], deltaMs) then [NmtStateChanged(n - 1, CO_NMT_HB_TIMEOUT)] else [])
  }

  /** A timeout is reported for node i exactly when its countdown runs out, and nothing else is reported. */
  lemma {:induction false} AgeEventsExact(t: seq<DevEntry>, deltaMs: nat, n: nat, ev: Event)
    requires n <= |t|
    ensures ev in AgeEvents(t, deltaMs, n) <==>
            ev.NmtStateChanged? && ev.state == CO_NMT_HB_TIMEOUT && 0 <= ev.id < n && TimesOut(t[ev.id], deltaMs)
  {
    if n > 0 {
      AgeEventsExact(t, deltaMs, n - 1, ev);
    }
  }

  /** A heartbeat notifies a state change when the state differs or the node was absent. */
  predicate HbNotifies(e: DevEntry, state: int)
  {
    e.state != state || e.alive == -1
  }

  /**
   * The row after a heartbeat with the given state: the interval is the
   * time the countdown had run, the statistics take it in (a cleared
   * minimum restarts from it), the countdown restarts and the boot-up
   * flag is raised by an initializing state.
   */
  function HeartbeatEntry(e: DevEntry, state: int, th: int): (r: DevEntry)
    ensures r.alive == th && r.state == state && r.hbIval == th - e.alive
    ensures r.bootUp == (e.bootUp || state == CO_NMT_INITIALIZING)
    ensures r.minHbIval <= r.hbIval <= r.maxHbIval
    ensures e.minHbIval >= 0 ==> r.minHbIval == Min(e.minHbIval, r.hbIval)
    ensures r.maxHbIval == Max(e.maxHbIval, r.hbIval)
  {
    var bootUp := e.bootUp || state == CO_NMT_INITIALIZING;
    var hb := th - e.alive;
    var mn := if e.minHbIval < 0 then hb else e.minHbIval;
    DevEntry(th, hb, Min(mn, hb), Max(e.maxHbIval, hb), state, bootUp)
  }

  /** The first heartbeat after an absence records threshold + 1 as the interval. */
  lemma HeartbeatAfterAbsence(e: DevEntry, state: int, th: int)
    requires e.alive == -1
    ensures HeartbeatEntry(e, state, th).hbIval == th + 1
    ensures HbNotifies(e, state)
  {
  }

  lemma HeartbeatEntryOk(e: DevEntry, state: int, th: int)
    requires th > 0 && EntryOk(e, th)
    ensures EntryOk(HeartbeatEntry(e, state, th), th)
  {
  }

  function HbEvents(e: DevEntry, id: int, state: int): seq<Event>
  {
    (if HbNotifies(e, state) then [NmtStateChanged(id, state)] else []) + [HbReceived(id, state)]
  }

  /* ----- timers ----- */

  /**
   * One poll of a periodic timer: the signed 64-bit timer gains the
   * elapsed time (wrapping at 64 bits), and when it has reached the
   * interval the action fires once and one interval is taken off.
   */
  function TimerStep(timer: int, ival: int, deltaUs: int): (bool, int)
  {
    var t := ToInt64(timer + deltaUs);
    if t >= ival then (true, t - ival) else (false, t)
  }

  /**
   * While polls are no longer apart than the interval, a timer that
   * starts in [0, ival] stays there, and it fires exactly when the
   * accumulated time reaches the interval; a timer started at the
   * interval (as usbcan_instance_init does for the master heartbeat)
   * fires on the first poll.
   */
  lemma TimerStaysInPeriod(timer: int, ival: int, deltaUs: int)
    requires 0 <= timer <= ival && 0 <= deltaUs <= ival < 0x4000_0000_0000_0000
    ensures TimerStep(timer, ival, deltaUs).0 <==> timer + deltaUs >= ival
    ensures 0 <= TimerStep(timer, ival, deltaUs).1 <= ival
    ensures timer == ival ==> TimerStep(timer, ival, deltaUs).0
  {
    ModUnique(timer + deltaUs, U64, 0, timer + deltaUs);
  }

  /* ----- the pending operation ----- */

  /** sdo_resp_cb: records the abort code and the reply length, and for a read the reply bytes. */
  function SdoDone(op: Op, abt: int, data: seq<Byte>): (r: Op)
    requires |data| <= |op.data|
    ensures r.code == op.code && r.abt == abt && r.len == |data| && |r.data| == |op.data|
    ensures op.write ==> r.data == op.data
    ensures !op.write ==> r.data[..|data|] == data && r.data[|data|..] == op.data[|data|..]
    ensures r.(abt := op.abt, len := op.len, data := op.data) == op
  {
    op.(abt := abt, len := |data|, data := if op.write then op.data else data + op.data[|data|..])
  }

  /**
   * The SDO time-to-live update as written: delta_ms is unsigned, so
   * op.ttl - delta_ms is computed modulo 2^32, CLIPL's test against 0 on
   * an unsigned value never holds, and the result is stored back into a
   * signed int.
   */
  function SdoTtlAsWritten(ttl: int, deltaMs: nat): int
  {
    var a := (ttl - deltaMs) % U32;
    var clipped := if a < 0 then 0 else a;
    ToInt32(clipped)
  }

  /**
   * As written, a poll that overshoots the remaining time leaves a
   * negative ttl instead of 0, so the expiry test misses it, and later
   * polls keep it negative.
   */
  lemma SdoTtlAsWrittenMissesExpiry(ttl: int, deltaMs: nat)
    requires -0x8000_0000 <= ttl - deltaMs < 0
    ensures SdoTtlAsWritten(ttl, deltaMs) == ttl - deltaMs
    ensures SdoTtlAsWritten(ttl, deltaMs) != 0
  {
    ModUnique(ttl - deltaMs, U32, -1, ttl - deltaMs + U32);
  }

  lemma SdoTtlAsWrittenExample()
    ensures SdoTtlAsWritten(5, 10) == -5 && SdoTtlAsWritten(-5, 10) == -15
  {
    SdoTtlAsWrittenMissesExpiry(5, 10);
    SdoTtlAsWrittenMissesExpiry(-5, 10);
  }

  /** The intended update, CLIPL(ttl - delta_ms, 0) in signed arithmetic. */
  function SdoTtl(ttl: int, deltaMs: nat): (r: int)
    ensures ttl <= deltaMs ==> r == 0
    ensures ttl > deltaMs ==> r == ttl - deltaMs
  {
    ClipL(ttl - deltaMs, 0)
  }

  /**
   * The SDO part of usbcan_poll: a pending transfer loses the elapsed
   * time, and once nothing is left it ends with the local timeout abort
   * code and no reply data.
   */
  function SdoPollOp(op: Op, deltaMs: nat): (r: Op)
    ensures op.code != OpSdo ==> r == op
    ensures op.code == OpSdo && op.ttl > deltaMs ==> r == op.(ttl := op.ttl - deltaMs)
    ensures op.code == OpSdo && op.ttl <= deltaMs ==>
              r.code == OpNone && r.abt == LOCAL_SDO_TIMEOUT && r.len == 0 && r.data == op.data && r.ttl == 0
  {
    if op.code != OpSdo then op
    else
      var ttl := SdoTtl(op.ttl, deltaMs);
      if ttl == 0 then SdoDone(op.(ttl := ttl, code := OpNone), LOCAL_SDO_TIMEOUT, []) else op.(ttl := ttl)
  }

  function SdoPollEvents(op: Op, deltaMs: nat): seq<Event>
  {
    if op.code == OpSdo && SdoTtl(op.ttl, deltaMs) == 0 then [Signalled] else []
  }

  /** n successive polls, each deltaMs milliseconds apart, seen by a pending SDO transfer. */
  function SdoPolls(op: Op, deltaMs: nat, n: nat): Op
    decreases n
  {
    if n == 0 then op else SdoPolls(SdoPollOp(op, deltaMs), deltaMs, n - 1)
  }

  /**
   * With the intended update, a transfer nobody answers ends with the
   * local timeout once the polls have covered its time to live.
   */
  lemma {:induction false} SdoPollsExpire(op: Op, deltaMs: nat, n: nat)
    requires op.code == OpSdo && deltaMs > 0 && n >= 1 && n * deltaMs >= op.ttl
    ensures SdoPolls(op, deltaMs, n).code == OpNone && SdoPolls(op, deltaMs, n).abt == LOCAL_SDO_TIMEOUT
    decreases n
  {
    var op1 := SdoPollOp(op, deltaMs);
    if op.ttl <= deltaMs {
      SdoPollsIdle(op1, deltaMs, n - 1);
    } else {
      assert (n - 1) * deltaMs >= op1.ttl;
      SdoPollsExpire(op1, deltaMs, n - 1);
    }
  }

  /** Polls leave a finished transfer alone. */
  lemma {:induction false} SdoPollsIdle(op: Op, deltaMs: nat, n: nat)
    requires op.code != OpSdo
    ensures SdoPolls(op, deltaMs, n) == op
  {
    if n > 0 {
      SdoPollsIdle(op, deltaMs, n - 1);
    }
  }

  /** The SDO branch of usbcan_poll as written, with the unsigned time-to-live update. */
  function SdoPollOpAsWritten(op: Op, deltaMs: nat): Op
  {
    if op.code != OpSdo then op
    else
      var ttl := SdoTtlAsWritten(op.ttl, deltaMs);
      if ttl == 0 then SdoDone(op.(ttl := ttl, code := OpNone), LOCAL_SDO_TIMEOUT, []) else op.(ttl := ttl)
  }

  function SdoPollsAsWritten(op: Op, deltaMs: nat, n: nat): Op
    decreases n
  {
    if n == 0 then op else SdoPollsAsWritten(SdoPollOpAsWritten(op, deltaMs), deltaMs, n - 1)
  }

  /** The written update keeps the parity of ttl - deltaMs, since it only adds multiples of 2^32. */
  lemma SdoTtlAsWrittenParity(ttl: int, deltaMs: nat)
    ensures SdoTtlAsWritten(ttl, deltaMs) % 2 == (ttl - deltaMs) % 2
  {
    var r := SdoTtlAsWritten(ttl, deltaMs);
    var k := (r - (ttl - deltaMs)) / U32;
    assert r == (ttl - deltaMs) + k * U32;
    ModShift(ttl - deltaMs, k * (U32 / 2), 2);
  }

  /**
   * As written, a transfer with an odd time to live polled at an even
   * period never reaches a time to live of 0, so the local timeout never
   * ends it and the thread waiting for the reply is never woken.
   */
  lemma {:induction false} SdoPollsAsWrittenNeverExpire(op: Op, deltaMs: nat, n: nat)
    requires op.code == OpSdo && op.ttl % 2 == 1 && deltaMs % 2 == 0
    ensures SdoPollsAsWritten(op, deltaMs, n).code == OpSdo
    decreases n
  {
    if n > 0 {
      var ttl := SdoTtlAsWritten(op.ttl, deltaMs);
      SdoTtlAsWrittenParity(op.ttl, deltaMs);
      assert ttl % 2 == 1;
      var op1 := op.(ttl := ttl);
      assert SdoPollOpAsWritten(op, deltaMs) == op1;
      SdoPollsAsWrittenNeverExpire(op1, deltaMs, n - 1);
    }
  }

  /** A wait for a node's state is satisfied: the node is present and in the wanted state. */
  predicate StateReached(want: Wanted, e: DevEntry)
  {
    e.alive > 0 && (want == AnyState || want == Exactly(e.state))
  }

  /**
   * The wait-for-state part of usbcan_poll: success when the node is
   * there in the wanted state, failure when the time was already used up
   * (the failure wins when both happen in one poll), and the time to live
   * always drops by the elapsed time in 32-bit arithmetic.
   */
  function WaitStatePollOp(op: Op, t: seq<DevEntry>, deltaMs: nat): (r: Op)
    requires op.code == OpWaitDevState ==> 0 <= op.id < |t|
    ensures op.code != OpWaitDevState ==> r == op
    ensures op.code == OpWaitDevState ==> r.ttl == ToInt32(op.ttl - deltaMs)
    ensures op.code == OpWaitDevState && op.ttl <= 0 ==> r.code == OpNone && r.abt == LOCAL_SDO_TIMEOUT
    ensures op.code == OpWaitDevState && op.ttl > 0 && StateReached(op.state, t[op.id]) ==> r.code == OpNone && r.abt == 0
    ensures op.code == OpWaitDevState && op.ttl > 0 && !StateReached(op.state, t[op.id]) ==> r == op.(ttl := r.ttl)
  {
    if op.code != OpWaitDevState then op
    else
      var op1 := if StateReached(op.state, t[op.id]) then op.(abt := 0, code := OpNone) else op;
      var op2 := if op.ttl <= 0 then op1.(abt := LOCAL_SDO_TIMEOUT, code := OpNone) else op1;
      op2.(ttl := ToInt32(op.ttl - deltaMs))
  }

  function WaitStatePollEvents(op: Op, t: seq<DevEntry>): seq<Event>
    requires op.code == OpWaitDevState ==> 0 <= op.id < |t|
  {
    if op.code != OpWaitDevState then []
    else (if StateReached(op.state, t[op.id]) then [Signalled] else []) + (if op.ttl <= 0 then [Signalled] else [])
  }

  /**
   * The wait-for-boot-up part of usbcan_poll: a raised boot-up flag is
   * consumed and ends the wait successfully; used-up time ends it with
   * failure; the time to live drops as in the wait for a state.
   */
  function BootUpPollOp(op: Op, t: seq<DevEntry>, deltaMs: nat): (r: Op)
    requires op.code == OpWaitDevBootUp ==> 0 <= op.id < |t|
    ensures op.code != OpWaitDevBootUp ==> r == op
    ensures op.code == OpWaitDevBootUp ==> r.ttl == ToInt32(op.ttl - deltaMs)
    ensures op.code == OpWaitDevBootUp && op.ttl <= 0 ==> r.code == OpNone && r.abt == LOCAL_SDO_TIMEOUT
    ensures op.code == OpWaitDevBootUp && op.ttl > 0 && t[op.id].bootUp ==> r.code == OpNone && r.abt == 0
    ensures op.code == OpWaitDevBootUp && op.ttl > 0 && !t[op.id].bootUp ==> r == op.(ttl := r.ttl)
  {
    if op.code != OpWaitDevBootUp then op
    else
      var op1 := if t[op.id].bootUp then op.(abt := 0, code := OpNone) else op;
      var op2 := if op.ttl <= 0 then op1.(abt := LOCAL_SDO_TIMEOUT, code := OpNone) else op1;
      op2.(ttl := ToInt32(op.ttl - deltaMs))
  }

  /** The boot-up flag a successful wait consumes. */
  function BootUpPollTable(op: Op, t: seq<DevEntry>): (r: seq<DevEntry>)
    requires op.code == OpWaitDevBootUp ==> 0 <= op.id < |t|
    ensures |r| == |t|
    ensures forall i :: 0 <= i < |t| && !(op.code == OpWaitDevBootUp && i == op.id) ==> r[i] == t[i]
    ensures op.code == OpWaitDevBootUp ==> r[op.id] == t[op.id].(bootUp := false)
  {
    if op.code == OpWaitDevBootUp && t[op.id].bootUp then t[op.id := t[op.id].(bootUp := false)] else t
  }

  function BootUpPollEvents(op: Op, t: seq<DevEntry>): seq<Event>
    requires op.code == OpWaitDevBootUp ==> 0 <= op.id < |t|
  {
    if op.code != OpWaitDevBootUp then []
    else (if t[op.id].bootUp then [Signalled] else []) + (if op.ttl <= 0 then [Signalled] else [])
  }

  /** The ids the pending operation may index. */
  predicate OpIdOk(op: Op, n: int)
  {
    (op.code == OpWaitDevState || op.code == OpWaitDevBootUp) ==> 0 <= op.id < n
  }

  /** The three operation branches of usbcan_poll, one after the other. */
  function OpPollOp(op: Op, t: seq<DevEntry>, deltaMs: nat): (r: Op)
    requires OpIdOk(op, |t|)
  {
    var op1 := SdoPollOp(op, deltaMs);
    BootUpPollOp(WaitStatePollOp(op1, t, deltaMs), t, deltaMs)
  }

  function OpPollTable(op: Op, t: seq<DevEntry>, deltaMs: nat): seq<DevEntry>
    requires OpIdOk(op, |t|)
  {
    BootUpPollTable(WaitStatePollOp(SdoPollOp(op, deltaMs), t, deltaMs), t)
  }

  function OpPollEvents(op: Op, t: seq<DevEntry>, deltaMs: nat): seq<Event>
    requires OpIdOk(op, |t|)
  {
    var op1 := SdoPollOp(op, deltaMs);
    SdoPollEvents(op, deltaMs) + WaitStatePollEvents(op1, t) + BootUpPollEvents(WaitStatePollOp(op1, t, deltaMs), t)
  }

  /** The frames the two timers send in one poll. */
  function TimerEvents(hbDue: bool, syncDue: bool): seq<Event>
  {
    (if hbDue then [HbTxNotified, MasterHbSent] else []) + (if syncDue then [TrajSyncSent] else [])
  }

  /** An SDO response names the pending transfer: same node, index, sub-index and direction. */
  predicate SdoMatches(op: Op, write: bool, id: int, idx: int, sidx: int)
  {
    op.id == id && op.idx == idx && op.sidx == sidx && op.write == write
  }

  /**
   * An SDO response while a transfer is pending ends the transfer in any
   * case, but only a matching response delivers its abort code and data;
   * with nothing pending the response is ignored.
   */
  function SdoResponseOp(op: Op, write: bool, id: int, idx: int, sidx: int, abt: int, data: seq<Byte>): (r: Op)
    requires |data| <= |op.data|
    ensures op.code != OpSdo ==> r == op
    ensures op.code == OpSdo ==> r.code == OpNone && |r.data| == |op.data|
    ensures op.code == OpSdo && !SdoMatches(op, write, id, idx, sidx) ==> r == op.(code := OpNone)
    ensures op.code == OpSdo && SdoMatches(op, write, id, idx, sidx) ==>
              r.abt == abt && r.len == |data| && (!write ==> r.data[..|data|] == data)
  {
    if op.code != OpSdo then op
    else if SdoMatches(op, write, id, idx, sidx) then SdoDone(op.(code := OpNone), abt, data)
    else op.(code := OpNone)
  }

  function SdoResponseEvents(op: Op, write: bool, id: int, idx: int, sidx: int): seq<Event>
  {
    if op.code == OpSdo && SdoMatches(op, write, id, idx, sidx) then [Signalled] else []
  }

  /* ----- received frames ----- */

  /** Node id, index, sub-index and abort code of an SDO response, read big-endian after the type byte. */
  function SdoRespId(buf: seq<Byte>): int requires |buf| >= 9 { buf[1] }
  function SdoRespIdx(buf: seq<Byte>): int requires |buf| >= 9 { BeValue(buf[2..4]) }
  function SdoRespSidx(buf: seq<Byte>): int requires |buf| >= 9 { buf[4] }
  function SdoRespAbt(buf: seq<Byte>): int requires |buf| >= 9 { BeValue(buf[5..9]) }

  /**
   * The number of data bytes of an SDO read response of len payload
   * bytes as written: len - 9, negative for a response shorter than its
   * 9-byte header, which then goes to memcpy as its size.
   */
  function SdoReadDataLenAsWritten(len: int): int
  {
    (len - 1) - 8
  }

  lemma SdoReadDataLenAsWrittenNegative()
    ensures SdoReadDataLenAsWritten(5) == -4
  {
  }

  /** The intended count: the bytes after the header, none for a short response. */
  function SdoReadDataLen(len: int): (r: int)
    ensures r >= 0 && (len >= 9 ==> r == len - 9) && (len <= 9 ==> r == 0)
  {
    ClipL(SdoReadDataLenAsWritten(len), 0)
  }

  /** The node id of a heartbeat (7 bits) and its state byte. */
  function HbId(buf: seq<Byte>): (r: int)
    requires |buf| >= 3
    ensures 0 <= r < USB_CAN_MAX_DEV
  {
    buf[1] % 128
  }

  /** An emergency frame: node id, error code (16 bits), error register, error bits and 32 bits of information. */
  function EmcyEvent(buf: seq<Byte>): Event
    requires |buf| >= 10
  {
    EmcyReceived(buf[1], BeValue(buf[2..4]), buf[4], buf[5], BeValue(buf[6..10]))
  }

  /** A generic CAN frame is handed on when it fits the message; stale stands for the uninitialised message. */
  function ComFrameEvents(buf: seq<Byte>, len: int, stale: CanMsg): seq<Event>
    requires ValidMsg(stale) && 0 <= len <= |buf|
  {
    if 1 <= len && buf[0] == COM_FRAME && Parseable(buf[..len]) then [ComFrameReceived(ParseComFrame(stale, buf[..len]))]
    else []
  }

  /**
   * The COM_FRAME branch as written: usbcan_parse_com_frame has no length
   * check and usbcan_com_frame_cb is called whatever it stored.
   */
  function ComFrameEventsAsWritten(buf: seq<Byte>, len: int, stale: CanMsg): (ev: seq<Event>)
    requires ValidMsg(stale) && |buf| == USB_CAN_MAX_PAYLOAD
    ensures |ev| == 1 && ev[0].ComFrameReceived?
  {
    [ComFrameReceived(ParseComFrameAsWritten(stale, buf, len))]
  }

  /**
   * As written, every COM_FRAME payload is handed on, and for payloads of
   * up to 255 data bytes the message carries a dlc above 8 (its copy ran
   * past the 8 data bytes) exactly when the intended branch hands nothing
   * on; otherwise the two hand on the same message.
   */
  lemma ComFrameAsWrittenOverruns(buf: seq<Byte>, len: int, stale: CanMsg)
    requires ValidMsg(stale) && |buf| == USB_CAN_MAX_PAYLOAD && buf[0] == COM_FRAME
    requires 1 <= len <= 1 + IdLen(buf[1]) + 255
    ensures ComFrameEvents(buf, len, stale) == [] <==> ComFrameEventsAsWritten(buf, len, stale)[0].m.dlc > 8
    ensures ComFrameEvents(buf, len, stale) != [] ==> ComFrameEvents(buf, len, stale) == ComFrameEventsAsWritten(buf, len, stale)
  {
    ComFrameOverrunIffUnparseable(buf, len);
    if Parseable(buf[..len]) {
      ParseAsWrittenAgrees(stale, buf, len);
    }
  }

  /* ----- argument checks of the waits ----- */

  /** What wait_device_state and wait_device_boot_up do with their arguments. */
  datatype WaitStart = Refused | Immediate | Waiting

  /** The checks as written: only ids of 0 and below are refused. */
  function WaitArgsAsWritten(id: int, timeoutMs: int): WaitStart
  {
    if id <= 0 then Refused else if timeoutMs <= 0 then Immediate else Waiting
  }

  /** The intended checks: a node id must also index the 128-entry tables. */
  function WaitArgs(id: int, timeoutMs: int): (r: WaitStart)
    ensures r == Refused <==> !(0 < id < USB_CAN_MAX_DEV)
    ensures r == Immediate <==> 0 < id < USB_CAN_MAX_DEV && timeoutMs <= 0
    ensures r == Waiting <==> 0 < id < USB_CAN_MAX_DEV && timeoutMs > 0
  {
    if id <= 0 || id >= USB_CAN_MAX_DEV then Refused else if timeoutMs <= 0 then Immediate else Waiting
  }

  /** The written checks agree with the intended ones except that they let ids past the tables start a wait. */
  lemma WaitArgsAsWrittenAdmitsPastTable(id: int, timeoutMs: int)
    ensures id < USB_CAN_MAX_DEV ==> WaitArgsAsWritten(id, timeoutMs) == WaitArgs(id, timeoutMs)
    ensures id >= USB_CAN_MAX_DEV ==> WaitArgsAsWritten(id, timeoutMs) != Refused && WaitArgs(id, timeoutMs) == Refused
    ensures WaitArgsAsWritten(USB_CAN_MAX_DEV, 1) == Waiting
  {
  }

  /* ----- the device list ----- */

  /** usbcan_device_t: a node handle; the list order stands for the next links. */
  class Device {
    const id: int
    var timeout: int
    var retry: int

    constructor (id: int)
      ensures this.id == id && timeout == DEV_DEFAULT_TIMEOUT && retry == DEV_DEFAULT_RETRY
    {
      this.id := id;
      timeout := DEV_DEFAULT_TIMEOUT;
      retry := DEV_DEFAULT_RETRY;
    }
  }

  predicate Distinct<T(==)>(s: seq<T>)
  {
    forall i, j :: 0 <= i < j < |s| ==> s[i] != s[j]
  }

  /** The list without x, the rest in order. */
  function Remove<T(==)>(s: seq<T>, x: T): (r: seq<T>)
    ensures |r| <= |s|
  {
    if s == [] then [] else (if s[0] == x then [] else [s[0]]) + Remove(s[1..], x)
  }

  /** Removing x takes out exactly x and keeps the others. */
  lemma {:induction false} RemoveMembers<T>(s: seq<T>, x: T, y: T)
    ensures y in Remove(s, x) <==> y in s && y != x
  {
    if s != [] {
      RemoveMembers(s[1..], x, y);
      assert s == [s[0]] + s[1..];
    }
  }

  /** Unlinking the node at position i of a list without repeats removes x = s[i] and nothing else. */
  lemma {:induction false} RemoveAt<T>(s: seq<T>, i: nat, x: T)
    requires i < |s| && s[i] == x && Distinct(s)
    ensures Remove(s, x) == s[..i] + s[i + 1..]
  {
    if i == 0 {
      assert x !in s[1..];
      RemoveAbsent(s[1..], x);
    } else {
      RemoveAt(s[1..], i - 1, x);
      assert s[1..][..i - 1] == s[1..i];
      assert s[..i] == [s[0]] + s[1..i];
    }
  }

  lemma {:induction false} RemoveAbsent<T>(s: seq<T>, x: T)
    requires x !in s
    ensures Remove(s, x) == s
  {
    if s != [] {
      RemoveAbsent(s[1..], x);
    }
  }

  lemma DistinctTail<T>(s: seq<T>, k: nat)
    requires Distinct(s) && k < |s|
    ensures Distinct(s[..k] + s[k + 1..])
  {
  }

  /** Pushing a node that is not yet listed and unlinking it again gives the list back. */
  lemma PushThenRemove<T>(s: seq<T>, x: T)
    requires x !in s
    ensures Remove([x] + s, x) == s
  {
    assert ([x] + s)[1..] == s;
    RemoveAbsent(s, x);
  }

  /* ----- the instance ----- */

  /** usbcan_instance_t, without the transport, the receive ring and the thread. */
  class Monitor {
    const table: array<DevEntry>
    var hbAliveThreshold: int
    var masterHbIval: int
    var masterHbTimer: int
    var inhibitMasterHb: bool
    var trajSyncIval: int
    var trajSyncTimer: int
    var sendTrajSyncEnable: bool
    var op: Op
    var deviceList: seq<Device>

    ghost predicate Valid()
      reads this, table
    {
      table.Length == USB_CAN_MAX_DEV && hbAliveThreshold > 0 && |op.data| == OP_DATA_SZ
      && (forall i :: 0 <= i < USB_CAN_MAX_DEV ==> EntryOk(table[i], hbAliveThreshold))
      && ((op.code == OpWaitDevState || op.code == OpWaitDevBootUp) ==> 0 < op.id < USB_CAN_MAX_DEV)
      && Distinct(deviceList)
    }

    /**
     * usbcan_instance_init without opening the device: the instance is
     * zeroed, the heartbeat and sync intervals get their defaults (the
     * master heartbeat timer starts full) and every node is marked absent
     * with cleared statistics.
     */
    constructor ()
      ensures Valid() && fresh(table)
      ensures table[..] == seq(USB_CAN_MAX_DEV, _ => Absent)
      ensures masterHbIval == USB_CAN_MASTER_HB_IVAL_MS * 1000 && masterHbTimer == masterHbIval
      ensures trajSyncIval == USB_CAN_TRAJ_SYNC_IVAL_MS * 1000 && trajSyncTimer == 0
      ensures hbAliveThreshold == USB_CAN_HB_ALIVE_THRESHOLD_MS
      ensures sendTrajSyncEnable && !inhibitMasterHb
      ensures op.code == OpNone && deviceList == []
    {
      table := new DevEntry[USB_CAN_MAX_DEV];
      masterHbIval := USB_CAN_MASTER_HB_IVAL_MS * 1000;
      masterHbTimer := USB_CAN_MASTER_HB_IVAL_MS * 1000;
      hbAliveThreshold := USB_CAN_HB_ALIVE_THRESHOLD_MS;
      trajSyncIval := USB_CAN_TRAJ_SYNC_IVAL_MS * 1000;
      trajSyncTimer := 0;
      sendTrajSyncEnable := true;
      inhibitMasterHb := false;
      op := Op(OpNone, false, 0, 0, 0, 0, 0, 0, AnyState, 0, 0, seq(OP_DATA_SZ, _ => 0));
      deviceList := [];
      new;
      var i := 0;
      while i < USB_CAN_MAX_DEV
        modifies table
        invariant 0 <= i <= USB_CAN_MAX_DEV
        invariant forall j :: 0 <= j < i ==> table[j] == Absent
      {
        table[i] := Absent;
        i := i + 1;
      }
    }

    /* --- pure getters --- */

    /** usbcan_get_hb_interval: the last interval of a node, -1 for an id outside the table. */
    function HbInterval(id: int): (r: int)
      requires Valid()
      reads this, table
      ensures 0 <= id < USB_CAN_MAX_DEV ==> r == table[id].hbIval
      ensures !(0 <= id < USB_CAN_MAX_DEV) ==> r == -1
      ensures -1 <= r <= hbAliveThreshold + 1
    {
      if InRange(id, 0, USB_CAN_MAX_DEV - 1) then table[id].hbIval else -1
    }

    /** usbcan_get_min_hb_interval. */
    function MinHbInterval(id: int): (r: int)
      requires Valid()
      reads this, table
      ensures 0 <= id < USB_CAN_MAX_DEV ==> r == table[id].minHbIval
      ensures !(0 <= id < USB_CAN_MAX_DEV) ==> r == -1
      ensures -1 <= r <= hbAliveThreshold + 1
    {
      if InRange(id, 0, USB_CAN_MAX_DEV - 1) then table[id].minHbIval else -1
    }

    /** usbcan_get_max_hb_interval. */
    function MaxHbInterval(id: int): (r: int)
      requires Valid()
      reads this, table
      ensures 0 <= id < USB_CAN_MAX_DEV ==> r == table[id].maxHbIval
      ensures !(0 <= id < USB_CAN_MAX_DEV) ==> r == -1
      ensures r == -1 <==> MinHbInterval(id) == -1
      ensures MinHbInterval(id) <= r <= hbAliveThreshold + 1
    {
      if InRange(id, 0, USB_CAN_MAX_DEV - 1) then table[id].maxHbIval else -1
    }

    /** usbcan_get_device_state: the last state of a node, the heartbeat-timeout state outside the table. */
    function DeviceState(id: int): (r: int)
      requires Valid()
      reads this, table
      ensures 0 <= id < USB_CAN_MAX_DEV ==> r == table[id].state
      ensures !(0 <= id < USB_CAN_MAX_DEV) ==> r == CO_NMT_HB_TIMEOUT
    {
      if InRange(id, 0, USB_CAN_MAX_DEV - 1) then table[id].state else CO_NMT_HB_TIMEOUT
    }

    /** While a node is present and its statistics are not cleared, they bracket its last interval. */
    lemma StatsBracketInterval(id: int)
      requires Valid() && 0 <= id < USB_CAN_MAX_DEV && table[id].alive > 0 && MinHbInterval(id) != -1
      ensures MinHbInterval(id) <= HbInterval(id) <= MaxHbInterval(id)
    {
    }

    /** usbcan_clear_hb_stat: clears a node's statistics; false for an id outside the table. */
    method ClearHbStat(id: int) returns (ok: bool)
      requires Valid()
      modifies table
      ensures Valid() && ok == (0 <= id < USB_CAN_MAX_DEV)
      ensures ok ==> table[..] == old(table[..])[id := old(table[id]).(minHbIval := -1, maxHbIval := -1)]
      ensures !ok ==> table[..] == old(table[..])
    {
      ok := InRange(id, 0, USB_CAN_MAX_DEV - 1);
      if ok {
        table[id] := table[id].(minHbIval := -1, maxHbIval := -1);
      }
    }

    /* --- usbcan_poll --- */

    /** The aging loop of usbcan_poll over all 128 rows. */
    method AgeDevices(deltaMs: nat) returns (events: seq<Event>)
      requires Valid()
      modifies table
      ensures Valid()
      ensures table[..] == AgeTable(old(table[..]), deltaMs)
      ensures events == AgeEvents(old(table[..]), deltaMs, USB_CAN_MAX_DEV)
    {
      ghost var t0 := table[..];
      events := [];
      var i := 0;
      while i < USB_CAN_MAX_DEV
        invariant 0 <= i <= USB_CAN_MAX_DEV
        invariant forall j :: 0 <= j < i ==> table[j] == AgeEntry(t0[j], deltaMs)
        invariant forall j :: i <= j < USB_CAN_MAX_DEV ==> table[j] == t0[j]
        invariant forall j :: 0 <= j < USB_CAN_MAX_DEV ==> EntryOk(table[j], hbAliveThreshold)
        invariant events == AgeEvents(t0, deltaMs, i)
      {
        var e := table[i];
        AgeEntryOk(e, deltaMs, hbAliveThreshold);
        if e.alive > 0 {
          e := e.(alive := e.alive - Min(deltaMs, e.alive));
        }
        if e.alive == 0 {
          e := e.(alive := -1, hbIval := -1, state := CO_NMT_HB_TIMEOUT);
          events := events + [NmtStateChanged(i, CO_NMT_HB_TIMEOUT)];
        }
        table[i] := e;
        i := i + 1;
      }
      assert table[..] == AgeTable(t0, deltaMs);
    }

    /** The master-heartbeat and trajectory-sync timers of usbcan_poll. */
    method RunTimers(deltaUs: nat) returns (events: seq<Event>)
      modifies this`masterHbTimer, this`trajSyncTimer
      ensures masterHbTimer == TimerStep(old(masterHbTimer), masterHbIval, deltaUs).1
      ensures trajSyncTimer == TimerStep(old(trajSyncTimer), trajSyncIval, deltaUs).1
      ensures events == TimerEvents(TimerStep(old(masterHbTimer), masterHbIval, deltaUs).0 && !inhibitMasterHb,
                                    TimerStep(old(trajSyncTimer), trajSyncIval, deltaUs).0 && sendTrajSyncEnable)
    {
      events := [];
      masterHbTimer := ToInt64(masterHbTimer + deltaUs);
      trajSyncTimer := ToInt64(trajSyncTimer + deltaUs);
      if masterHbTimer >= masterHbIval {
        if !inhibitMasterHb {
          events := events + [HbTxNotified, MasterHbSent];
        }
        masterHbTimer := masterHbTimer - masterHbIval;
      }
      if trajSyncTimer >= trajSyncIval {
        if sendTrajSyncEnable {
          events := events + [TrajSyncSent];
        }
        trajSyncTimer := trajSyncTimer - trajSyncIval;
      }
    }

    /** The pending-SDO branch of usbcan_poll, with the intended time-to-live update. */
    method PollSdo(deltaMs: nat) returns (events: seq<Event>)
      requires Valid()
      modifies this`op
      ensures Valid()
      ensures op == SdoPollOp(old(op), deltaMs) && events == SdoPollEvents(old(op), deltaMs)
    {
      events := [];
      if op.code == OpSdo {
        op := op.(ttl := ClipL(op.ttl - deltaMs, 0));
        if op.ttl == 0 {
          op := op.(code := OpNone);
          op := SdoDone(op, LOCAL_SDO_TIMEOUT, []);
          events := [Signalled];
        }
      }
    }

    /** The wait-for-state branch of usbcan_poll. */
    method PollWaitState(deltaMs: nat) returns (events: seq<Event>)
      requires Valid()
      modifies this`op
      ensures Valid()
      ensures op == WaitStatePollOp(old(op), table[..], deltaMs)
      ensures events == WaitStatePollEvents(old(op), table[..])
    {
      events := [];
      if op.code == OpWaitDevState {
        var e := table[op.id];
        if e.alive > 0 {
          if op.state == AnyState || op.state == Exactly(e.state) {
            op := op.(abt := 0, code := OpNone);
            events := events + [Signalled];
          }
        }
        if op.ttl <= 0 {
          op := op.(abt := LOCAL_SDO_TIMEOUT, code := OpNone);
          events := events + [Signalled];
        }
        op := op.(ttl := ToInt32(op.ttl - deltaMs));
      }
    }

    /** The wait-for-boot-up branch of usbcan_poll. */
    method PollBootUp(deltaMs: nat) returns (events: seq<Event>)
      requires Valid()
      modifies this`op, table
      ensures Valid()
      ensures op == BootUpPollOp(old(op), old(table[..]), deltaMs)
      ensures table[..] == BootUpPollTable(old(op), old(table[..]))
      ensures events == BootUpPollEvents(old(op), old(table[..]))
    {
      events := [];
      if op.code == OpWaitDevBootUp {
        if table[op.id].bootUp {
          table[op.id] := table[op.id].(bootUp := false);
          op := op.(abt := 0, code := OpNone);
          events := events + [Signalled];
        }
        if op.ttl <= 0 {
          op := op.(abt := LOCAL_SDO_TIMEOUT, code := OpNone);
          events := events + [Signalled];
        }
        op := op.(ttl := ToInt32(op.ttl - deltaMs));
      }
    }

    /**
     * usbcan_poll: ages the heartbeat table by the elapsed time rounded up
     * to milliseconds, runs the timers, then advances whichever operation
     * is pending.
     */
    method Poll(deltaUs: nat) returns (events: seq<Event>)
      requires Valid() && deltaUs < U64
      modifies this`masterHbTimer, this`trajSyncTimer, this`op, table
      ensures Valid()
      ensures var d := DeltaMs(deltaUs);
              var aged := AgeTable(old(table[..]), d);
              op == OpPollOp(old(op), aged, d) && table[..] == OpPollTable(old(op), aged, d)
              && events == AgeEvents(old(table[..]), d, USB_CAN_MAX_DEV)
                         + TimerEvents(TimerStep(old(masterHbTimer), masterHbIval, deltaUs).0 && !inhibitMasterHb,
                                       TimerStep(old(trajSyncTimer), trajSyncIval, deltaUs).0 && sendTrajSyncEnable)
                         + OpPollEvents(old(op), aged, d)
      ensures masterHbTimer == TimerStep(old(masterHbTimer), masterHbIval, deltaUs).1
      ensures trajSyncTimer == TimerStep(old(trajSyncTimer), trajSyncIval, deltaUs).1
    {
      var d := DeltaMs(deltaUs);
      var e1 := AgeDevices(d);
      var e2 := RunTimers(deltaUs);
      var e3 := PollOperation(d);
      events := e1 + e2 + e3;
    }

    /** The pending-operation part of usbcan_poll: at most one of its three branches applies. */
    method PollOperation(deltaMs: nat) returns (events: seq<Event>)
      requires Valid()
      modifies this`op, table
      ensures Valid()
      ensures op == OpPollOp(old(op), old(table[..]), deltaMs)
      ensures table[..] == OpPollTable(old(op), old(table[..]), deltaMs)
      ensures events == OpPollEvents(old(op), old(table[..]), deltaMs)
    {
      var e3 := PollSdo(deltaMs);
      var e4 := PollWaitState(deltaMs);
      var e5 := PollBootUp(deltaMs);
      events := e3 + e4 + e5;
    }

    /* --- usbcan_frame_receive_cb --- */

    /** The heartbeat branch: updates the node's row and reports. */
    method ReceiveHeartbeat(id: int, state: int) returns (events: seq<Event>)
      requires Valid() && 0 <= id < USB_CAN_MAX_DEV
      modifies table
      ensures Valid()
      ensures table[..] == old(table[..])[id := HeartbeatEntry(old(table[id]), state, hbAliveThreshold)]
      ensures events == HbEvents(old(table[id]), id, state)
    {
      HeartbeatEntryOk(table[id], state, hbAliveThreshold);
      events := [];
      var e := table[id];
      if state == CO_NMT_INITIALIZING {
        e := e.(bootUp := true);
      }
      if e.state != state || e.alive == -1 {
        e := e.(state := state);
        events := [NmtStateChanged(id, state)];
      }
      var hb := hbAliveThreshold - e.alive;
      e := e.(hbIval := hb);
      if e.minHbIval < 0 {
        e := e.(minHbIval := hb);
      }
      e := e.(minHbIval := Min(e.minHbIval, hb), maxHbIval := Max(e.maxHbIval, hb), alive := hbAliveThreshold);
      table[id] := e;
      events := events + [HbReceived(id, state)];
    }

    /** The SDO response branches: write responses carry no data, read responses the bytes after the header. */
    method ReceiveSdoResponse(write: bool, id: int, idx: int, sidx: int, abt: int, data: seq<Byte>) returns (events: seq<Event>)
      requires Valid() && |data| <= OP_DATA_SZ
      modifies this`op
      ensures Valid()
      ensures op == SdoResponseOp(old(op), write, id, idx, sidx, abt, data)
      ensures events == SdoResponseEvents(old(op), write, id, idx, sidx)
    {
      events := [];
      if op.code == OpSdo {
        op := op.(code := OpNone);
        if op.id == id && op.idx == idx && op.sidx == sidx && op.write == write {
          op := SdoDone(op, abt, data);
          events := [Signalled];
        }
      }
    }

    /**
     * usbcan_frame_receive_cb over the receive buffer buf holding a
     * payload of len bytes: the type byte selects the branch, and the
     * fields are read from the buffer even past len, as the C code does.
     */
    method ReceiveFrame(buf: seq<Byte>, len: int, stale: CanMsg) returns (events: seq<Event>)
      requires Valid() && |buf| == USB_CAN_MAX_PAYLOAD && 0 <= len <= |buf| && ValidMsg(stale)
      modifies this`op, table
      ensures Valid()
      ensures buf[0] == COM_FRAME ==>
                op == old(op) && table[..] == old(table[..]) && events == ComFrameEvents(buf, len, stale)
      ensures buf[0] == COM_SDO_TX_RESP ==>
                table[..] == old(table[..])
                && op == SdoResponseOp(old(op), true, SdoRespId(buf), SdoRespIdx(buf), SdoRespSidx(buf), SdoRespAbt(buf), [])
                && events == SdoResponseEvents(old(op), true, SdoRespId(buf), SdoRespIdx(buf), SdoRespSidx(buf))
      ensures buf[0] == COM_SDO_RX_RESP ==>
                table[..] == old(table[..])
                && op == SdoResponseOp(old(op), false, SdoRespId(buf), SdoRespIdx(buf), SdoRespSidx(buf), SdoRespAbt(buf),
                                       buf[9..9 + SdoReadDataLen(len)])
                && events == SdoResponseEvents(old(op), false, SdoRespId(buf), SdoRespIdx(buf), SdoRespSidx(buf))
      ensures buf[0] == COM_HB ==>
                op == old(op)
                && table[..] == old(table[..])[HbId(buf) := HeartbeatEntry(old(table[HbId(buf)]), buf[2], hbAliveThreshold)]
                && events == HbEvents(old(table[HbId(buf)]), HbId(buf), buf[2])
      ensures buf[0] == COM_EMCY ==> op == old(op) && table[..] == old(table[..]) && events == [EmcyEvent(buf)]
      ensures buf[0] !in {COM_FRAME, COM_SDO_TX_RESP, COM_SDO_RX_RESP, COM_HB, COM_EMCY} ==>
                op == old(op) && table[..] == old(table[..]) && events == []
    {
      var kind := buf[0];
      if kind == COM_FRAME {
        events := ComFrameEvents(buf, len, stale);
      } else if kind == COM_SDO_TX_RESP || kind == COM_SDO_RX_RESP {
        var write := kind == COM_SDO_TX_RESP;
        var n := SdoReadDataLen(len);
        var data := if write then [] else buf[9..9 + n];
        events := ReceiveSdoResponse(write, buf[1], BeValue(buf[2..4]), buf[4], BeValue(buf[5..9]), data);
      } else if kind == COM_HB {
        events := ReceiveHeartbeat(buf[1] % 128, buf[2]);
      } else if kind == COM_EMCY {
        events := [EmcyEvent(buf)];
      } else {
        events := [];
      }
    }

    /* --- operations started by the user thread --- */

    /**
     * wait_device_state up to the blocking wait, with the intended id
     * check: a wait marks the node absent so that only a fresh heartbeat
     * can satisfy it, and its result starts as a failure.
     */
    method StartWaitDeviceState(id: int, want: Wanted, timeoutMs: int) returns (r: WaitStart)
      requires Valid()
      modifies this`op, table
      ensures Valid() && r == WaitArgs(id, timeoutMs)
      ensures r != Waiting ==> op == old(op) && table[..] == old(table[..])
      ensures r == Waiting ==>
                op == old(op).(code := OpWaitDevState, ttl := timeoutMs, state := want, id := id, abt := LOCAL_SDO_TIMEOUT)
                && table[..] == old(table[..])[id := old(table[id]).(alive := -1)]
    {
      r := WaitArgs(id, timeoutMs);
      if r == Waiting {
        op := op.(code := OpWaitDevState, ttl := timeoutMs, state := want, id := id, abt := LOCAL_SDO_TIMEOUT);
        table[id] := table[id].(alive := -1);
      }
    }

    /** wait_device_boot_up up to the blocking wait, with the intended id check. */
    method StartWaitBootUp(id: int, timeoutMs: int) returns (r: WaitStart)
      requires Valid()
      modifies this`op
      ensures Valid() && r == WaitArgs(id, timeoutMs)
      ensures r != Waiting ==> op == old(op)
      ensures r == Waiting ==> op == old(op).(code := OpWaitDevBootUp, ttl := timeoutMs, id := id, abt := LOCAL_SDO_TIMEOUT)
    {
      r := WaitArgs(id, timeoutMs);
      if r == Waiting {
        op := op.(code := OpWaitDevBootUp, ttl := timeoutMs, id := id, abt := LOCAL_SDO_TIMEOUT);
      }
    }

    /** The result of a finished wait: 1 when it ended without an abort code. */
    function WaitResult(): (r: int)
      reads this
      ensures r == 1 <==> op.abt == 0
      ensures r == 0 <==> op.abt != 0
    {
      if op.abt == 0 then 1 else 0
    }

    /** clear_device_boot_up_flag, which leaves the id unchecked. */
    method ClearBootUpFlag(id: int)
      requires Valid() && 0 <= id < USB_CAN_MAX_DEV
      modifies table
      ensures Valid() && table[..] == old(table[..])[id := old(table[id]).(bootUp := false)]
    {
      table[id] := table[id].(bootUp := false);
    }

    /**
     * write_raw_sdo and read_raw_sdo up to the blocking wait: the pending
     * operation is set up (a zero timeout or retry count falls back to the
     * device's own, and the time to live is twice the timeout) and the
     * request payload is returned; the request carries the arguments as
     * given, narrowed to their wire widths.
     */
    method StartSdo(dev: Device, write: bool, idx: Word16, sidx: Byte, data: seq<Byte>, len: int, retry: int, timeoutMs: int)
        returns (request: seq<Byte>)
      requires Valid() && 0 <= len && (write ==> len % U16 <= |data|)
      modifies this`op
      ensures Valid()
      ensures op.code == OpSdo && op.write == write && op.id == dev.id && op.idx == idx && op.sidx == sidx
      ensures op.tout == (if timeoutMs != 0 then timeoutMs else dev.timeout)
      ensures op.reTxn == (if retry != 0 then retry else dev.retry)
      ensures op.ttl == op.tout * 2 && op.len == len
      ensures op.state == old(op.state) && op.abt == old(op.abt) && op.data == old(op.data)
      ensures request == SdoReqPayload(write, dev.id % 256, idx, sidx, timeoutMs % U32, retry % 256, data, len % U16)
    {
      var tout := if timeoutMs != 0 then timeoutMs else dev.timeout;
      var reTxn := if retry != 0 then retry else dev.retry;
      op := op.(code := OpSdo, write := write, id := dev.id, idx := idx, sidx := sidx, tout := tout, reTxn := reTxn,
                ttl := tout * 2, len := len);
      request := SdoReqPayload(write, dev.id % 256, idx, sidx, timeoutMs % U32, retry % 256, data, len % U16);
    }

    /**
     * read_raw_sdo after the wait: on success the reply is copied into the
     * caller's buffer of capacity bytes and its length reported, unless it
     * does not fit, when the buffer is filled and the length left as it
     * was; on failure nothing is copied.
     */
    function ReadSdoResult(capacity: int): (r: (int, int, seq<Byte>))
      requires Valid() && 0 <= capacity <= OP_DATA_SZ && op.len >= 0
      reads this, table
      ensures r.0 == op.abt
      ensures op.abt == 0 && op.len <= capacity ==> r.1 == op.len && r.2 == op.data[..op.len]
      ensures op.abt == 0 && op.len > capacity ==> r.1 == capacity && r.2 == op.data[..capacity]
      ensures op.abt != 0 ==> r.1 == capacity && r.2 == []
    {
      if op.abt == 0 then
        var n := if op.len > capacity then capacity else op.len;
        (op.abt, n, op.data[..n])
      else (op.abt, capacity, [])
    }

    /* --- device handles --- */

    /** usbcan_device_init: a new handle with the default timeout and retry count, pushed at the head of the list. */
    method DeviceInit(id: int) returns (dev: Device)
      requires Valid()
      modifies this`deviceList
      ensures Valid() && fresh(dev)
      ensures dev.id == id && dev.timeout == DEV_DEFAULT_TIMEOUT && dev.retry == DEV_DEFAULT_RETRY
      ensures deviceList == [dev] + old(deviceList)
    {
      dev := new Device(id);
      deviceList := [dev] + deviceList;
    }

    /**
     * usbcan_device_deinit: looks for the node whose successor is dev and
     * links around dev; when there is none, dev is the head and the list
     * starts at its successor.
     */
    method DeviceDeinit(dev: Device) returns (r: int)
      requires Valid() && dev in deviceList
      modifies this`deviceList
      ensures Valid() && r == 1
      ensures deviceList == Remove(old(deviceList), dev)
      ensures dev !in deviceList && |deviceList| == |old(deviceList)| - 1
    {
      ghost var l0 := deviceList;
      var k := 0;
      while k < |deviceList| && !(k + 1 < |deviceList| && deviceList[k + 1] == dev)
        invariant 0 <= k <= |deviceList|
        invariant forall j :: 1 <= j <= k && j < |deviceList| ==> deviceList[j] != dev
      {
        k := k + 1;
      }
      var pos := if k < |deviceList| then k + 1 else 0;
      RemoveAt(deviceList, pos, dev);
      RemoveMembers(deviceList, dev, dev);
      DistinctTail(deviceList, pos);
      deviceList := deviceList[..pos] + deviceList[pos + 1..];
      r := 1;
    }
  }
}
