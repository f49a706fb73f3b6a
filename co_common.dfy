// Shared CANopen definitions: bridge frame types, NMT states and
// commands, SDO abort codes (CiA 301 section 7.2.4.3.17) and the
// abort-code description table with its lookup.
module CoCommon {

  /** usbcan_frame_type_t: the frame types the USB/UDP bridge exchanges. */
  const COM_FRAME: int := 0
  const COM_NMT: int := 1
  const COM_HB: int := 2
  const COM_TIMESTAMP: int := 3
  const COM_SDO_TX_REQ: int := 4
  const COM_SDO_TX_RESP: int := 5
  const COM_SDO_RX_REQ: int := 6
  const COM_SDO_RX_RESP: int := 7
  const COM_SYNC: int := 8
  const COM_EMCY: int := 9
  const COM_PDO: int := 10

  /** usbcan_nmt_state_t: heartbeat states of CiA 301 section 7.2.8.3.2, plus the local boot and timeout states. */
  const CO_NMT_INITIALIZING: int := 0
  const CO_NMT_PRE_OPERATIONAL: int := 127
  const CO_NMT_OPERATIONAL: int := 5
  const CO_NMT_STOPPED: int := 4
  const CO_NMT_BOOT: int := 2
  const CO_NMT_HB_TIMEOUT: int := -1

  /** usbcan_nmt_cmd_t: NMT module-control command specifiers of CiA 301 section 7.2.8.3.1. */
  const CO_NMT_CMD_GOTO_OP: int := 0x01
  const CO_NMT_CMD_GOTO_STOPPED: int := 0x02
  const CO_NMT_CMD_GOTO_PREOP: int := 0x80
  const CO_NMT_CMD_RESET_NODE: int := 0x81
  const CO_NMT_CMD_RESET_COMM: int := 0x82

  /** The SDO abort codes the host logic tests for. */
  const CO_SDO_AB_NONE: int := 0x0000_0000
  const CO_SDO_AB_TIMEOUT: int := 0x0504_0000
  const CO_SDO_AB_PRAM_INCOMPAT: int := 0x0604_0043
  const CO_SDO_AB_GENERAL: int := 0x0800_0000
  /** The abort code usbcan_poll reports when a pending SDO expires locally. */
  const LOCAL_SDO_TIMEOUT: int := 0xFFFF_FFFF

  datatype ErrorDesc = ErrorDesc(code: int, desc: string)

  /**
   * error_descs: CANopen stack error numbers and SDO abort codes with
   * their descriptions, in the C table's order. The C table stores the
   * codes as int and compares them with a uint32_t, so its last entry is
   * kept here as the unsigned 0xFFFFFFFF that it matches.
   */
  const ErrorTable: seq<ErrorDesc> := StackErrors + AbortCodes

  /** The first 27 entries: errors of the CANopen stack itself. */
  const StackErrors: seq<ErrorDesc> := [
    ErrorDesc(100, "Request not supported."),
    ErrorDesc(101, "Syntax error."),
    ErrorDesc(102, "Request not processed due to internal state."),
    ErrorDesc(103, "Time-out (where applicable)."),
    ErrorDesc(104, "No default net set."),
    ErrorDesc(105, "No default node set."),
    ErrorDesc(106, "Unsupported net."),
    ErrorDesc(107, "Unsupported node."),
    ErrorDesc(200, "Lost guarding message."),
    ErrorDesc(201, "Lost connection."),
    ErrorDesc(202, "Heartbeat started."),
    ErrorDesc(203, "Heartbeat lost."),
    ErrorDesc(204, "Wrong NMT state."),
    ErrorDesc(205, "Boot-up."),
    ErrorDesc(300, "Error passive."),
    ErrorDesc(301, "Bus off."),
    ErrorDesc(303, "CAN buffer overflow."),
    ErrorDesc(304, "CAN init."),
    ErrorDesc(305, "CAN active (at init or start-up)."),
    ErrorDesc(400, "PDO already used."),
    ErrorDesc(401, "PDO length exceeded."),
    ErrorDesc(501, "LSS implementation- / manufacturer-specific error."),
    ErrorDesc(502, "LSS node-ID not supported."),
    ErrorDesc(503, "LSS bit-rate not supported."),
    ErrorDesc(504, "LSS parameter storing failed."),
    ErrorDesc(505, "LSS command failed because of media error."),
    ErrorDesc(600, "Running out of memory.")
  ]

  /** The remaining 33 entries: SDO abort codes, then the local timeout. */
  const AbortCodes: seq<ErrorDesc> := [
    ErrorDesc(0x0000_0000, "No abort."),
    ErrorDesc(0x0503_0000, "Toggle bit not altered."),
    ErrorDesc(0x0504_0000, "SDO protocol timed out."),
    ErrorDesc(0x0504_0001, "Command specifier not valid or unknown."),
    ErrorDesc(0x0504_0002, "Invalid block size in block mode."),
    ErrorDesc(0x0504_0003, "Invalid sequence number in block mode."),
    ErrorDesc(0x0504_0004, "CRC error (block mode only)."),
    ErrorDesc(0x0504_0005, "Out of memory."),
    ErrorDesc(0x0601_0000, "Unsupported access to an object."),
    ErrorDesc(0x0601_0001, "Attempt to read a write only object."),
    ErrorDesc(0x0601_0002, "Attempt to write a read only object."),
    ErrorDesc(0x0602_0000, "Object does not exist."),
    ErrorDesc(0x0604_0041, "Object cannot be mapped to the PDO."),
    ErrorDesc(0x0604_0042, "Number and length of object to be mapped exceeds PDO length."),
    ErrorDesc(0x0604_0043, "General parameter incompatibility reasons."),
    ErrorDesc(0x0604_0047, "General internal incompatibility in device."),
    ErrorDesc(0x0606_0000, "Access failed due to hardware error."),
    ErrorDesc(0x0607_0010, "Data type does not match, length of service parameter does not match."),
    ErrorDesc(0x0607_0012, "Data type does not match, length of service parameter too high."),
    ErrorDesc(0x0607_0013, "Data type does not match, length of service parameter too short."),
    ErrorDesc(0x0609_0011, "Sub index does not exist."),
    ErrorDesc(0x0609_0030, "Invalid value for parameter (download only)."),
    ErrorDesc(0x0609_0031, "Value range of parameter written too high."),
    ErrorDesc(0x0609_0032, "Value range of parameter written too low."),
    ErrorDesc(0x0609_0036, "Maximum value is less than minimum value."),
    ErrorDesc(0x060A_0023, "Resource not available: SDO connection."),
    ErrorDesc(0x0800_0000, "General error."),
    ErrorDesc(0x0800_0020, "Data cannot be transferred or stored to application."),
    ErrorDesc(0x0800_0021, "Data cannot be transferred or stored to application because of local control."),
    ErrorDesc(0x0800_0022, "Data cannot be transferred or stored to application because of present device state."),
    ErrorDesc(0x0800_0023, "Object dictionary not present or dynamic generation fails."),
    ErrorDesc(0x0800_0024, "No data available."),
    ErrorDesc(0xFFFF_FFFF, "Timeout.")
  ]

  /** Codes strictly increase along t. */
  predicate Increasing(t: seq<ErrorDesc>)
  {
    forall k :: 0 <= k < |t| - 1 ==> t[k].code < t[k + 1].code
  }

  lemma {:induction false} IncreasingOrdered(t: seq<ErrorDesc>, i: nat, j: nat)
    requires Increasing(t) && i < j < |t|
    ensures t[i].code < t[j].code
    decreases j - i
  {
    if i + 1 < j {
      IncreasingOrdered(t, i + 1, j);
    }
  }

  /**
   * The codes of the table are pairwise distinct: the stack error numbers
   * (indices 0..26) increase, and so do the abort codes (27..59), which
   * start at 0 and otherwise lie above every stack error number.
   */
  lemma ErrorCodesDistinct()
    ensures forall i, j :: 0 <= i < j < |ErrorTable| ==> ErrorTable[i].code != ErrorTable[j].code
  {
    StackErrorsIncrease();
    AbortCodesIncrease();
    HalvesDistinct(StackErrors, AbortCodes);
  }

  /** Two increasing runs, the second starting below the first and going on above its end, share no code. */
  lemma HalvesDistinct(s: seq<ErrorDesc>, a: seq<ErrorDesc>)
    requires |s| > 0 && |a| > 1 && Increasing(s) && Increasing(a)
    requires a[0].code < s[0].code && s[|s| - 1].code < a[1].code
    ensures forall i, j :: 0 <= i < j < |s + a| ==> (s + a)[i].code != (s + a)[j].code
  {
    var t, n := s + a, |s|;
    forall i, j | 0 <= i < j < |t|
      ensures t[i].code != t[j].code
    {
      if j < n {
        IncreasingOrdered(s, i, j);
      } else if n <= i {
        IncreasingOrdered(a, i - n, j - n);
      } else {
        if 0 < i { IncreasingOrdered(s, 0, i); }
        if i < n - 1 { IncreasingOrdered(s, i, n - 1); }
        if j > n + 1 { IncreasingOrdered(a, 1, j - n); }
      }
    }
  }

  lemma StackErrorsIncrease()
    ensures |StackErrors| == 27 && Increasing(StackErrors)
    ensures StackErrors[0].code == 100 && StackErrors[26].code == 600
  {
  }

  lemma AbortCodesIncrease()
    ensures |AbortCodes| == 33 && Increasing(AbortCodes)
    ensures AbortCodes[0].code == 0 && AbortCodes[1].code > 600
  {
  }

  /**
   * sdo_describe_error: scans the table in order and returns the
   * description of the first entry whose code equals err, or "n/a"
   * when no entry does.
   */
  method SdoDescribeError(err: int) returns (desc: string)
    requires 0 <= err < 0x1_0000_0000
    ensures (exists i :: 0 <= i < |ErrorTable| && ErrorTable[i].code == err && desc == ErrorTable[i].desc)
         || ((forall i :: 0 <= i < |ErrorTable| ==> ErrorTable[i].code != err) && desc == "n/a")
  {
    desc := FirstDesc(ErrorTable, err);
  }

  /** The search loop of sdo_describe_error, over any table. */
  method FirstDesc(table: seq<ErrorDesc>, err: int) returns (desc: string)
    ensures (exists i :: 0 <= i < |table| && table[i].code == err && desc == table[i].desc)
         || ((forall i :: 0 <= i < |table| ==> table[i].code != err) && desc == "n/a")
  {
    var i := 0;
    while i < |table|
      invariant 0 <= i <= |table|
      invariant forall k :: 0 <= k < i ==> table[k].code != err
    {
      if table[i].code == err {
        return table[i].desc;
      }
      i := i + 1;
    }
    return "n/a";
  }

  /** Since the codes are distinct, the description sdo_describe_error finds for a table code is that entry's. */
  lemma DescribeTableCode(i: int, desc: string)
    requires 0 <= i < |ErrorTable|
    requires (exists k :: 0 <= k < |ErrorTable| && ErrorTable[k].code == ErrorTable[i].code && desc == ErrorTable[k].desc)
             || ((forall k :: 0 <= k < |ErrorTable| ==> ErrorTable[k].code != ErrorTable[i].code) && desc == "n/a")
    ensures desc == ErrorTable[i].desc
  {
    ErrorCodesDistinct();
  }

  /** The local SDO timeout code is in the table, at its last entry, described as "Timeout.". */
  lemma LocalTimeoutDescribed()
    ensures ErrorTable[|ErrorTable| - 1] == ErrorDesc(LOCAL_SDO_TIMEOUT, "Timeout.")
    ensures forall k :: 0 <= k < |ErrorTable| - 1 ==> ErrorTable[k].code != LOCAL_SDO_TIMEOUT
  {
    ErrorCodesDistinct();
  }

  /** CAN_OPEN_CMD: the name of each frame type, indexed by its value, closed by an empty string. */
  const CanOpenCmd: seq<string> := [
    "COM_FRAME", "COM_NMT", "COM_HB", "COM_TIMESTAMP", "COM_SDO_TX_REQ", "COM_SDO_TX_RESP",
    "COM_SDO_RX_REQ", "COM_SDO_RX_RESP", "COM_SYNC", "COM_EMCY", "COM_PDO", ""
  ]

  /**
   * CAN_OPEN_CMD[k] is the name of frame type k for every value of
   * usbcan_frame_type_t; the names are non-empty and pairwise distinct, and
   * the entry after the last type is the empty string that closes the table.
   */
  lemma CanOpenCmdNamesFrameTypes()
    ensures |CanOpenCmd| == COM_PDO + 2 && CanOpenCmd[COM_PDO + 1] == ""
    ensures CanOpenCmd[COM_FRAME] == "COM_FRAME" && CanOpenCmd[COM_NMT] == "COM_NMT"
    ensures CanOpenCmd[COM_HB] == "COM_HB" && CanOpenCmd[COM_TIMESTAMP] == "COM_TIMESTAMP"
    ensures CanOpenCmd[COM_SDO_TX_REQ] == "COM_SDO_TX_REQ" && CanOpenCmd[COM_SDO_TX_RESP] == "COM_SDO_TX_RESP"
    ensures CanOpenCmd[COM_SDO_RX_REQ] == "COM_SDO_RX_REQ" && CanOpenCmd[COM_SDO_RX_RESP] == "COM_SDO_RX_RESP"
    ensures CanOpenCmd[COM_SYNC] == "COM_SYNC" && CanOpenCmd[COM_EMCY] == "COM_EMCY"
    ensures CanOpenCmd[COM_PDO] == "COM_PDO"
    ensures forall k :: COM_FRAME <= k <= COM_PDO ==> CanOpenCmd[k] != ""
    ensures forall j, k :: COM_FRAME <= j < k <= COM_PDO ==> CanOpenCmd[j] != CanOpenCmd[k]
  {
  }
}
