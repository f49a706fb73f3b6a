// The bus monitor of the older driver (src/usbcan_proto.c): a heartbeat
// table without statistics or boot-up flags, one registered SDO waiter
// instead of a general pending operation, and times in signed
// milliseconds. The frame builders, the parser of generic CAN frames and
// the deframer are the same code as in c/src and are modelled once, in
// UsbcanFrame and UsbcanRx. Callbacks are reported as events, in order.
module UsbcanLegacy {
  import opened Arith
  import opened UsbcanUtil
  import opened CoCommon
  import opened UsbcanFrame
  import opened UsbcanProto

  /** One node's row of dev_alive, dev_hb_ival and dev_state. */
  datatype LegacyEntry = LegacyEntry(alive: int, hbIval: int, state: int)

  /** A row as usbcan_init leaves it. */
  const LegacyAbsent: LegacyEntry := LegacyEntry(-1, -1, CO_NMT_HB_TIMEOUT)

  /** usbcan_sdo_t: an SDO request and the time it may wait for its response. */
  datatype LegacySdo = LegacySdo(write: bool, id: Byte, idx: Word16, sidx: Byte, tout: Word16, reTxn: Byte, ttl: int)

  /** wait_for: the registered response callback, if any, and the request it waits for. */
  datatype WaitFor = NoWaiter | Waiter(sdo: LegacySdo)

  /** What the legacy monitor reports. */
  datatype LegacyEvent =
    | StateReported(id: int, state: int)       // usbcan_nmt_state_cb
    | HbRx(id: int, state: int)                // usbcan_hb_rx_cb
    | HbTx                                     // usbcan_hb_tx_cb
    | MasterHb                                 // send_master_hb
    | WaiterCalled(abt: int, data: seq<Byte>)  // the registered sdo_resp_cb_t
    | ComFrame(m: CanMsg)                      // usbcan_com_frame_cb
    | Emcy(id: int, code: int, reg: int, bits: int, info: int)   // usbcan_emcy_cb

  /* ----- heartbeat table ----- */

  /** A node's countdown after a poll of deltaMs milliseconds, before a 0 is turned into -1. */
  function LegacyAgedAlive(e: LegacyEntry, deltaMs: int): int
  {
    if e.alive > 0 then ToInt64(e.alive - Min(deltaMs, e.alive)) else e.alive
  }

  /** The countdown of a node runs out in a poll (or had already reached 0). */
  predicate LegacyTimesOut(e: LegacyEntry, deltaMs: int)
  {
    LegacyAgedAlive(e, deltaMs) == 0
  }

  /**
   * With 64-bit countdowns and deltas, a countdown runs out exactly when
   * it is 0 or the delta covers it; a negative delta never ends one.
   */
  lemma LegacyTimesOutIff(e: LegacyEntry, deltaMs: int)
    requires e.alive < 0x8000_0000_0000_0000 && -0x8000_0000_0000_0000 <= deltaMs < 0x8000_0000_0000_0000
    ensures LegacyTimesOut(e, deltaMs) <==> e.alive == 0 || (e.alive > 0 && deltaMs >= e.alive)
  {
    if e.alive > 0 {
      var a := e.alive - Min(deltaMs, e.alive);
      if deltaMs < e.alive {
        if a < U64 {
          ModUnique(a, U64, 0, a);
        } else {
          ModUnique(a, U64, 1, a - U64);
        }
      }
    }
  }

  /**
   * One row after the poll: a present node's countdown drops by
   * min(delta, countdown) in 64-bit arithmetic; one that runs out becomes
   * absent with no interval, but keeps its last state.
   */
  function LegacyAgeEntry(e: LegacyEntry, deltaMs: int): (r: LegacyEntry)
    ensures r.state == e.state
    ensures LegacyTimesOut(e, deltaMs) ==> r == e.(alive := -1, hbIval := -1)
    ensures !LegacyTimesOut(e, deltaMs) ==> r == e.(alive := LegacyAgedAlive(e, deltaMs))
    ensures e.alive < 0 ==> r == e
  {
    var alive := if e.alive > 0 then ToInt64(e.alive - Min(deltaMs, e.alive)) else e.alive;
    if alive == 0 then e.(alive := -1, hbIval := -1) else e.(alive := alive)
  }

  /** A present node loses exactly the elapsed time when it does not run out. */
  lemma LegacyAgeEntryCounts(e: LegacyEntry, deltaMs: int)
    requires 0 <= deltaMs < e.alive < 0x8000_0000_0000_0000
    ensures LegacyAgeEntry(e, deltaMs) == e.(alive := e.alive - deltaMs)
  {
    ModUnique(e.alive - deltaMs, U64, 0, e.alive - deltaMs);
  }

  /**
   * What every row keeps while time does not run backwards: absent (-1)
   * or between 1 and threshold milliseconds left, and an interval in
   * [-1, threshold + 1] that is a real one while the node is present.
   */
  ghost predicate LegacyEntryOk(e: LegacyEntry, th: int)
  {
    (e.alive == -1 || 0 < e.alive <= th) && -1 <= e.hbIval <= th + 1 && (e.alive > 0 ==> e.hbIval >= 0)
  }

  lemma LegacyAgeEntryOk(e: LegacyEntry, deltaMs: int, th: int)
    requires LegacyEntryOk(e, th) && deltaMs >= 0 && th < 0x8000_0000_0000_0000
    ensures LegacyEntryOk(LegacyAgeEntry(e, deltaMs), th)
  {
    if e.alive > 0 && deltaMs < e.alive {
      LegacyAgeEntryCounts(e, deltaMs);
    }
  }

  /**
   * A clock that steps back gives a negative delta, and then a present
   * node's countdown grows past the threshold instead of shrinking.
   */
  lemma LegacyAgeBackwards(e: LegacyEntry, deltaMs: int)
    requires e.alive > 0 && deltaMs < 0 && e.alive - deltaMs < 0x8000_0000_0000_0000
    ensures LegacyAgeEntry(e, deltaMs) == e.(alive := e.alive - deltaMs)
    ensures LegacyAgeEntry(e, deltaMs).alive > e.alive
  {
    ModUnique(e.alive - deltaMs, U64, 0, e.alive - deltaMs);
  }

  function LegacyAgeTable(t: seq<LegacyEntry>, deltaMs: int): (r: seq<LegacyEntry>)
    ensures |r| == |t|
  {
    seq(|t|, i requires 0 <= i < |t| => LegacyAgeEntry(t[i], deltaMs))
  }

  /** The timeout reports of the aging loop over the first n rows, in id order. */
  function LegacyAgeEvents(t: seq<LegacyEntry>, deltaMs: int, n: nat): seq<LegacyEvent>
    requires n <= |t|
  {
    if n == 0 then []
    else LegacyAgeEvents(t, deltaMs, n - 1)
         + (if LegacyTimesOut(t[n - 1], deltaMs) then [StateReported(n - 1, CO_NMT_HB_TIMEOUT)] else [])
  }

  /** A timeout is reported for node i exactly when its countdown runs out. */
  lemma {:induction false} LegacyAgeEventsExact(t: seq<LegacyEntry>, deltaMs: int, n: nat, ev: LegacyEvent)
    requires n <= |t|
    ensures ev in LegacyAgeEvents(t, deltaMs, n) <==>
            ev.StateReported? && ev.state == CO_NMT_HB_TIMEOUT && 0 <= ev.id < n && LegacyTimesOut(t[ev.id], deltaMs)
  {
    if n > 0 {
      LegacyAgeEventsExact(t, deltaMs, n - 1, ev);
    }
  }

  /**
   * The row after a heartbeat: the state is taken over, the interval is
   * the time the countdown had run and the countdown restarts.
   */
  function LegacyHeartbeatEntry(e: LegacyEntry, state: int, th: int): (r: LegacyEntry)
    ensures r.alive == th && r.state == state
    ensures r.hbIval == th - e.alive
    ensures e.alive == -1 ==> r.hbIval == th + 1
  {
    LegacyEntry(th, th - e.alive, state)
  }

  lemma LegacyHeartbeatEntryOk(e: LegacyEntry, state: int, th: int)
    requires th > 0 && LegacyEntryOk(e, th)
    ensures LegacyEntryOk(LegacyHeartbeatEntry(e, state, th), th)
  {
  }

  function LegacyHbEvents(e: LegacyEntry, id: int, state: int): seq<LegacyEvent>
  {
    (if e.state != state || e.alive == -1 then [StateReported(id, state)] else []) + [HbRx(id, state)]
  }

  /** The getters' range check as written, INRANGE(id, 0, USB_CAN_MAX_DEV). */
  predicate GetterAdmitsAsWritten(id: int)
  {
    InRange(id, 0, USB_CAN_MAX_DEV)
  }

  /** The intended check: an index of the 128-entry tables. */
  predicate GetterAdmits(id: int)
  {
    InRange(id, 0, USB_CAN_MAX_DEV - 1)
  }

  /** The written check admits exactly one id more, 128, which lies one past the end of every table. */
  lemma GetterAdmitsAsWrittenOnePast(id: int)
    ensures GetterAdmitsAsWritten(id) <==> GetterAdmits(id) || id == USB_CAN_MAX_DEV
    ensures GetterAdmits(id) <==> 0 <= id < USB_CAN_MAX_DEV
    ensures GetterAdmitsAsWritten(USB_CAN_MAX_DEV) && !GetterAdmits(USB_CAN_MAX_DEV)
  {
  }

  /* ----- the SDO waiter ----- */

  /**
   * The waiter part of usbcan_poll: the time to live loses the elapsed
   * time, clipped at 0 in signed 64-bit arithmetic and stored in 32 bits;
   * when it reaches 0 the callback is called with abort code -1 and no
   * data, and the waiter is dropped.
   */
  function WaiterPoll(w: WaitFor, deltaMs: int): (r: (WaitFor, seq<LegacyEvent>))
    ensures w == NoWaiter ==> r == (NoWaiter, [])
    ensures w.Waiter? && 0 <= w.sdo.ttl < 0x8000_0000 && 0 <= deltaMs < 0x8000_0000 ==>
              if w.sdo.ttl <= deltaMs then r == (NoWaiter, [WaiterCalled(LOCAL_SDO_TIMEOUT, [])])
              else r == (Waiter(w.sdo.(ttl := w.sdo.ttl - deltaMs)), [])
  {
    match w
    case NoWaiter => (NoWaiter, [])
    case Waiter(sdo) =>
      var ttl := ToInt32(ClipL(ToInt64(sdo.ttl - deltaMs), 0));
      if ttl == 0 then (NoWaiter, [WaiterCalled(LOCAL_SDO_TIMEOUT, [])])
      else (Waiter(sdo.(ttl := ttl)), [])
  }

  /** n polls, deltaMs apart, as seen by the waiter: its final state and every call it received. */
  function WaiterPolls(w: WaitFor, deltaMs: int, n: nat): (WaitFor, seq<LegacyEvent>)
    decreases n
  {
    if n == 0 then (w, [])
    else
      var r1 := WaiterPoll(w, deltaMs);
      var r2 := WaiterPolls(r1.0, deltaMs, n - 1);
      (r2.0, r1.1 + r2.1)
  }

  /**
   * A waiter nobody answers is called exactly once, with the local
   * timeout, and dropped, once the polls have covered its time to live.
   */
  lemma {:induction false} WaiterCalledOnce(w: WaitFor, deltaMs: int, n: nat)
    requires w.Waiter? && 0 <= w.sdo.ttl < 0x8000_0000 && 0 < deltaMs < 0x8000_0000 && n >= 1 && n * deltaMs >= w.sdo.ttl
    ensures WaiterPolls(w, deltaMs, n) == (NoWaiter, [WaiterCalled(LOCAL_SDO_TIMEOUT, [])])
    decreases n
  {
    var r1 := WaiterPoll(w, deltaMs);
    var call := [WaiterCalled(LOCAL_SDO_TIMEOUT, [])];
    if w.sdo.ttl <= deltaMs {
      WaiterPollsIdle(deltaMs, n - 1);
      assert r1 == (NoWaiter, call);
      assert call + [] == call;
    } else {
      var w1 := Waiter(w.sdo.(ttl := w.sdo.ttl - deltaMs));
      assert r1 == (w1, []);
      assert (n - 1) * deltaMs >= w1.sdo.ttl;
      WaiterCalledOnce(w1, deltaMs, n - 1);
      assert [] + call == call;
    }
  }

  lemma {:induction false} WaiterPollsIdle(deltaMs: int, n: nat)
    ensures WaiterPolls(NoWaiter, deltaMs, n) == (NoWaiter, [])
    decreases n
  {
    if n > 0 {
      WaiterPollsIdle(deltaMs, n - 1);
      var none: seq<LegacyEvent> := [];
      assert WaiterPoll(NoWaiter, deltaMs) == (NoWaiter, none);
      assert WaiterPolls(NoWaiter, deltaMs, n) == (NoWaiter, none + none);
      assert none + none == none;
    }
  }

  /** A response names the awaited request: same node, index, sub-index and direction. */
  predicate WaiterMatches(sdo: LegacySdo, write: bool, id: int, idx: int, sidx: int)
  {
    sdo.id == id && sdo.idx == idx && sdo.sidx == sidx && sdo.write == write
  }

  /**
   * An SDO response reaches the waiter, which is then dropped, only when
   * it names the awaited request; any other response leaves the waiter
   * registered.
   */
  function WaiterResponse(w: WaitFor, write: bool, id: int, idx: int, sidx: int, abt: int, data: seq<Byte>)
    : (r: (WaitFor, seq<LegacyEvent>))
    ensures w.Waiter? && WaiterMatches(w.sdo, write, id, idx, sidx) ==> r == (NoWaiter, [WaiterCalled(abt, data)])
    ensures !(w.Waiter? && WaiterMatches(w.sdo, write, id, idx, sidx)) ==> r == (w, [])
  {
    if w.Waiter? && WaiterMatches(w.sdo, write, id, idx, sidx) then (NoWaiter, [WaiterCalled(abt, data)])
    else (w, [])
  }

  /* ----- the instance ----- */

  /** The intended COM_FRAME branch: a generic CAN frame is handed on when it fits the message. */
  function LegacyComFrameEvents(buf: seq<Byte>, len: int, stale: CanMsg): seq<LegacyEvent>
    requires ValidMsg(stale) && 0 <= len <= |buf|
  {
    if 1 <= len && Parseable(buf[..len]) then [ComFrame(ParseComFrame(stale, buf[..len]))] else []
  }

  /** The COM_FRAME branch as written (src/usbcan_proto.c:332-370): no length check, and the callback always runs. */
  function LegacyComFrameEventsAsWritten(buf: seq<Byte>, len: int, stale: CanMsg): (ev: seq<LegacyEvent>)
    requires ValidMsg(stale) && |buf| == USB_CAN_MAX_PAYLOAD
    ensures |ev| == 1 && ev[0].ComFrame?
  {
    [ComFrame(ParseComFrameAsWritten(stale, buf, len))]
  }

  /** As in the current driver: the callback gets a dlc above 8 exactly for the payloads the intended branch drops. */
  lemma LegacyComFrameAsWrittenOverruns(buf: seq<Byte>, len: int, stale: CanMsg)
    requires ValidMsg(stale) && |buf| == USB_CAN_MAX_PAYLOAD && buf[0] == COM_FRAME
    requires 1 <= len <= 1 + IdLen(buf[1]) + 255
    ensures LegacyComFrameEvents(buf, len, stale) == [] <==> LegacyComFrameEventsAsWritten(buf, len, stale)[0].m.dlc > 8
    ensures LegacyComFrameEvents(buf, len, stale) != [] ==> LegacyComFrameEvents(buf, len, stale) == LegacyComFrameEventsAsWritten(buf, len, stale)
  {
    ComFrameOverrunIffUnparseable(buf, len);
    if Parseable(buf[..len]) {
      ParseAsWrittenAgrees(stale, buf, len);
    }
  }

  /**
   * The read-response branch as written (src/usbcan_proto.c:421-430) hands
   * the waiter len - 1 - 8 bytes, the same count as the current driver's
   * SdoReadDataLenAsWritten: negative for every response shorter than its
   * header, where the intended SdoReadDataLen gives none.
   */
  lemma LegacyReadLenAsWrittenNegative(len: int)
    requires 1 <= len < 9
    ensures SdoReadDataLenAsWritten(len) < 0 && SdoReadDataLen(len) == 0
  {
  }

  /** The legacy usbcan_instance_t, without the transport, the pipes and the thread. */
  class LegacyMonitor {
    const table: array<LegacyEntry>
    var masterHbIval: int
    var masterHbTimer: int
    var hbAliveThreshold: int
    var inhibitMasterHb: bool
    var waitFor: WaitFor

    /**
     * Only the table's size is a class invariant: LegacyEntryOk is not,
     * because a clock that steps back (a negative delta) lets a countdown
     * grow past the threshold (LegacyAgeBackwards).
     */
    ghost predicate Valid()
      reads this
    {
      table.Length == USB_CAN_MAX_DEV
    }

    /**
     * usbcan_instance_init without the thread: zeroed, the master
     * heartbeat every second and the alive threshold of 3 s, then
     * usbcan_init.
     */
    constructor ()
      ensures Valid() && fresh(table)
      ensures table[..] == seq(USB_CAN_MAX_DEV, _ => LegacyAbsent)
      ensures masterHbIval == USB_CAN_MASTER_HB_IVAL_MS && masterHbTimer == 0
      ensures hbAliveThreshold == USB_CAN_HB_ALIVE_THRESHOLD_MS && !inhibitMasterHb && waitFor == NoWaiter
    {
      table := new LegacyEntry[USB_CAN_MAX_DEV](_ => LegacyEntry(0, 0, 0));
      masterHbIval := USB_CAN_MASTER_HB_IVAL_MS;
      masterHbTimer := 0;
      hbAliveThreshold := USB_CAN_HB_ALIVE_THRESHOLD_MS;
      inhibitMasterHb := false;
      waitFor := NoWaiter;
      new;
      Init();
    }

    /** usbcan_init: marks every node absent, with no interval and the heartbeat-timeout state. */
    method Init()
      requires Valid()
      modifies table
      ensures table[..] == seq(USB_CAN_MAX_DEV, _ => LegacyAbsent)
    {
      var i := 0;
      while i < USB_CAN_MAX_DEV
        invariant 0 <= i <= USB_CAN_MAX_DEV
        invariant forall j :: 0 <= j < i ==> table[j] == LegacyAbsent
      {
        table[i] := LegacyEntry(-1, -1, CO_NMT_HB_TIMEOUT);
        i := i + 1;
      }
    }

    /** usbcan_get_hb_interval with the intended range check: 0 outside the table. */
    function HbInterval(id: int): (r: int)
      requires Valid()
      reads this, table
      ensures GetterAdmits(id) ==> r == table[id].hbIval
      ensures !GetterAdmits(id) ==> r == 0
    {
      if GetterAdmits(id) then table[id].hbIval else 0
    }

    /** usbcan_get_device_state with the intended range check. */
    function DeviceState(id: int): (r: int)
      requires Valid()
      reads this, table
      ensures GetterAdmits(id) ==> r == table[id].state
      ensures !GetterAdmits(id) ==> r == CO_NMT_HB_TIMEOUT
    {
      if GetterAdmits(id) then table[id].state else CO_NMT_HB_TIMEOUT
    }

    /** The aging loop of usbcan_poll. */
    method AgeDevices(deltaMs: int) returns (events: seq<LegacyEvent>)
      requires Valid()
      modifies table
      ensures table[..] == LegacyAgeTable(old(table[..]), deltaMs)
      ensures events == LegacyAgeEvents(old(table[..]), deltaMs, USB_CAN_MAX_DEV)
    {
      ghost var t0 := table[..];
      events := [];
      var i := 0;
      while i < USB_CAN_MAX_DEV
        invariant 0 <= i <= USB_CAN_MAX_DEV
        invariant forall j :: 0 <= j < i ==> table[j] == LegacyAgeEntry(t0[j], deltaMs)
        invariant forall j :: i <= j < USB_CAN_MAX_DEV ==> table[j] == t0[j]
        invariant events == LegacyAgeEvents(t0, deltaMs, i)
      {
        var e := table[i];
        if e.alive > 0 {
          e := e.(alive := ToInt64(e.alive - Min(deltaMs, e.alive)));
        }
        if e.alive == 0 {
          e := e.(alive := -1, hbIval := -1);
          events := events + [StateReported(i, CO_NMT_HB_TIMEOUT)];
        }
        table[i] := e;
        i := i + 1;
      }
      assert table[..] == LegacyAgeTable(t0, deltaMs);
    }

    /**
     * usbcan_poll: ages the table, runs the master heartbeat timer and
     * advances the waiter, all in milliseconds.
     */
    method Poll(deltaMs: int) returns (events: seq<LegacyEvent>)
      requires Valid()
      modifies this`masterHbTimer, this`waitFor, table
      ensures table[..] == LegacyAgeTable(old(table[..]), deltaMs)
      ensures masterHbTimer == TimerStep(old(masterHbTimer), masterHbIval, deltaMs).1
      ensures waitFor == WaiterPoll(old(waitFor), deltaMs).0
      ensures events == LegacyAgeEvents(old(table[..]), deltaMs, USB_CAN_MAX_DEV)
                      + (if TimerStep(old(masterHbTimer), masterHbIval, deltaMs).0 && !inhibitMasterHb
                         then [HbTx, MasterHb] else [])
                      + WaiterPoll(old(waitFor), deltaMs).1
    {
      masterHbTimer := ToInt64(masterHbTimer + deltaMs);
      events := AgeDevices(deltaMs);
      if masterHbTimer >= masterHbIval {
        if !inhibitMasterHb {
          events := events + [HbTx, MasterHb];
        }
        masterHbTimer := masterHbTimer - masterHbIval;
      }
      if waitFor.Waiter? {
        var ttl := ToInt32(ClipL(ToInt64(waitFor.sdo.ttl - deltaMs), 0));
        waitFor := Waiter(waitFor.sdo.(ttl := ttl));
        if ttl == 0 {
          events := events + [WaiterCalled(LOCAL_SDO_TIMEOUT, [])];
          waitFor := NoWaiter;
        }
      }
    }

    /**
     * usbcan_send_sdo_req: registers the waiter, then hands the request
     * payload to the transport (returned here), so a response can never
     * arrive before its waiter.
     */
    method SendSdoReq(sdo: LegacySdo, data: seq<Byte>, len: Word16) returns (request: seq<Byte>)
      requires sdo.write ==> len <= |data|
      modifies this`waitFor
      ensures waitFor == Waiter(sdo)
      ensures request == SdoReqPayload(sdo.write, sdo.id, sdo.idx, sdo.sidx, sdo.tout, sdo.reTxn, data, len)
    {
      waitFor := Waiter(sdo);
      request := SdoReqPayload(sdo.write, sdo.id, sdo.idx, sdo.sidx, sdo.tout, sdo.reTxn, data, len);
    }

    /** The heartbeat branch of usbcan_frame_receive_cb. */
    method ReceiveHeartbeat(id: int, state: int) returns (events: seq<LegacyEvent>)
      requires Valid() && 0 <= id < USB_CAN_MAX_DEV
      modifies table
      ensures table[..] == old(table[..])[id := LegacyHeartbeatEntry(old(table[id]), state, hbAliveThreshold)]
      ensures events == LegacyHbEvents(old(table[id]), id, state)
    {
      events := [];
      var e := table[id];
      if e.state != state || e.alive == -1 {
        e := e.(state := state);
        events := [StateReported(id, state)];
      }
      e := e.(hbIval := hbAliveThreshold - e.alive);
      e := e.(alive := hbAliveThreshold);
      table[id] := e;
      events := events + [HbRx(id, state)];
    }

    /** The SDO response branches of usbcan_frame_receive_cb. */
    method ReceiveSdoResponse(write: bool, id: int, idx: int, sidx: int, abt: int, data: seq<Byte>)
        returns (events: seq<LegacyEvent>)
      modifies this`waitFor
      ensures (waitFor, events) == WaiterResponse(old(waitFor), write, id, idx, sidx, abt, data)
    {
      events := [];
      if waitFor.Waiter? {
        var sdo := waitFor.sdo;
        if sdo.id == id && sdo.idx == idx && sdo.sidx == sidx && sdo.write == write {
          events := [WaiterCalled(abt, data)];
          waitFor := NoWaiter;
        }
      }
    }

    /**
     * usbcan_frame_receive_cb over the buffer buf holding a payload of len
     * bytes; fields are read from the buffer even past len.
     */
    method ReceiveFrame(buf: seq<Byte>, len: int, stale: CanMsg) returns (events: seq<LegacyEvent>)
      requires Valid() && |buf| == USB_CAN_MAX_PAYLOAD && 0 <= len <= |buf| && ValidMsg(stale)
      modifies this`waitFor, table
      ensures buf[0] == COM_FRAME ==>
                waitFor == old(waitFor) && table[..] == old(table[..])
                && events == LegacyComFrameEvents(buf, len, stale)
      ensures buf[0] == COM_SDO_TX_RESP ==>
                table[..] == old(table[..])
                && (waitFor, events) == WaiterResponse(old(waitFor), true, SdoRespId(buf), SdoRespIdx(buf), SdoRespSidx(buf),
                                                       SdoRespAbt(buf), [])
      ensures buf[0] == COM_SDO_RX_RESP ==>
                table[..] == old(table[..])
                && (waitFor, events) == WaiterResponse(old(waitFor), false, SdoRespId(buf), SdoRespIdx(buf), SdoRespSidx(buf),
                                                       SdoRespAbt(buf), buf[9..9 + SdoReadDataLen(len)])
      ensures buf[0] == COM_HB ==>
                waitFor == old(waitFor)
                && table[..] == old(table[..])[HbId(buf) := LegacyHeartbeatEntry(old(table[HbId(buf)]), buf[2], hbAliveThreshold)]
                && events == LegacyHbEvents(old(table[HbId(buf)]), HbId(buf), buf[2])
      ensures buf[0] == COM_EMCY ==>
                waitFor == old(waitFor) && table[..] == old(table[..])
                && events == [Emcy(buf[1], BeValue(buf[2..4]), buf[4], buf[5], BeValue(buf[6..10]))]
      ensures buf[0] !in {COM_FRAME, COM_SDO_TX_RESP, COM_SDO_RX_RESP, COM_HB, COM_EMCY} ==>
                waitFor == old(waitFor) && table[..] == old(table[..]) && events == []
    {
      var kind := buf[0];
      if kind == COM_FRAME {
        events := LegacyComFrameEvents(buf, len, stale);
      } else if kind == COM_SDO_TX_RESP || kind == COM_SDO_RX_RESP {
        var write := kind == COM_SDO_TX_RESP;
        var data := if write then [] else buf[9..9 + SdoReadDataLen(len)];
        events := ReceiveSdoResponse(write, buf[1], BeValue(buf[2..4]), buf[4], BeValue(buf[5..9]), data);
      } else if kind == COM_HB {
        events := ReceiveHeartbeat(buf[1] % 128, buf[2]);
      } else if kind == COM_EMCY {
        events := [Emcy(buf[1], BeValue(buf[2..4]), buf[4], buf[5], BeValue(buf[6..10]))];
      } else {
        events := [];
      }
    }
  }
}
