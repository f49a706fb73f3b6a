// The host-side logic of the servo API (c/src/api.c): mapping SDO abort
// codes to API status codes, the description tables, the expansion of the
// error bitfield, the parameter cache, the motion-point payloads and the
// change-of-CAN-ID sequence.
//
// Every API call that talks to a servo sends one blocking SDO request and
// waits for its outcome. Here the request is returned as a value
// (`SdoCall`) and the outcome is a parameter: the abort code of a write,
// and for a read the abort code, the length and the bytes read_raw_sdo
// hands back.
module ServoApi {
  import opened Arith
  import opened CoCommon
  import opened UsbcanTypes

  /* --- rr_ret_status_t --- */

  const RET_OK: int := 0
  const RET_ERROR: int := 1
  const RET_BAD_INSTANCE: int := 2
  const RET_BUSY: int := 3
  const RET_WRONG_TRAJ: int := 4
  const RET_LOCKED: int := 5
  const RET_STOPPED: int := 6
  const RET_TIMEOUT: int := 7
  const RET_ZERO_SIZE: int := 8
  const RET_SIZE_MISMATCH: int := 9
  const RET_WRONG_ARG: int := 10

  /** Number of servo parameters (APP_PARAM_SIZE in rr_servo_param_t). */
  const APP_PARAM_SIZE: int := 58

  /** An SDO abort code as the transport returns it (`uint32_t`). */
  type AbortCode = x: int | 0 <= x < 0x1_0000_0000

  /** ret_sdo: the switch over its `int` argument. */
  function RetSdo(code: int): int
  {
    if code == CO_SDO_AB_NONE then RET_OK
    else if code == CO_SDO_AB_TIMEOUT then RET_TIMEOUT
    else RET_ERROR
  }

  /** The status an API call reports for a `uint32_t` abort code: the code is converted to `int` on the way into ret_sdo. */
  function StatusOf(abt: AbortCode): int
  {
    RetSdo(ToInt32(abt))
  }

  /**
   * No abort is RET_OK, the SDO timeout abort is RET_TIMEOUT, and every
   * other code, the local timeout 0xFFFFFFFF (which becomes -1 as an
   * `int`) included, is RET_ERROR.
   */
  lemma StatusOfAbort(abt: AbortCode)
    ensures StatusOf(abt) == RET_OK <==> abt == CO_SDO_AB_NONE
    ensures StatusOf(abt) == RET_TIMEOUT <==> abt == CO_SDO_AB_TIMEOUT
    ensures abt != CO_SDO_AB_NONE && abt != CO_SDO_AB_TIMEOUT ==> StatusOf(abt) == RET_ERROR
    ensures abt == LOCAL_SDO_TIMEOUT ==> ToInt32(abt) == -1 && StatusOf(abt) == RET_ERROR
  {
    var c := ToInt32(abt);
    if abt < 0x8000_0000 {
      assert c == abt;
    } else {
      assert c == abt - U32;
    }
  }

  /* --- rr_describe_nmt, rr_describe_emcy_bit, rr_describe_emcy_code --- */

  /**
   * A `switch` returning a string per case label and "N/A" by default.
   * C requires the case labels of a switch to be distinct, and their order
   * does not matter; the tables below list them by increasing value.
   */
  function SwitchDesc(t: seq<ErrorDesc>, code: int): string
  {
    if t == [] then "N/A"
    else if t[0].code == code then t[0].desc
    else SwitchDesc(t[1..], code)
  }

  /** A label of an increasing table selects its own string; any other value selects "N/A". */
  lemma {:induction false} SwitchDescExact(t: seq<ErrorDesc>, code: int)
    requires Increasing(t)
    ensures forall i :: 0 <= i < |t| && t[i].code == code ==> SwitchDesc(t, code) == t[i].desc
    ensures (forall i :: 0 <= i < |t| ==> t[i].code != code) ==> SwitchDesc(t, code) == "N/A"
  {
    if t != [] {
      assert Increasing(t[1..]);
      SwitchDescExact(t[1..], code);
      forall i | 0 < i < |t| && t[i].code == code
        ensures t[0].code != code
      {
        IncreasingOrdered(t, 0, i);
      }
      assert forall i :: 0 < i < |t| ==> t[i] == t[1..][i - 1];
    }
  }

  /** rr_nmt_state_t values and their descriptions. */
  const NmtNames: seq<ErrorDesc> := [
    ErrorDesc(CO_NMT_HB_TIMEOUT, "Device disappeared"),
    ErrorDesc(CO_NMT_INITIALIZING, "Device is initializing"),
    ErrorDesc(CO_NMT_BOOT, "Bootloader mode"),
    ErrorDesc(CO_NMT_STOPPED, "Device is in stopped mode"),
    ErrorDesc(CO_NMT_OPERATIONAL, "Device is in operational mode"),
    ErrorDesc(CO_NMT_PRE_OPERATIONAL, "Device is in pre-operational mode")
  ]

  const EmcyBitNames: seq<ErrorDesc> := EmcyBitNames0 + EmcyBitNames1 + EmcyBitNames2

  const EmcyBitNames0: seq<ErrorDesc> := [
    ErrorDesc(0x00, "Error Reset or No Error"),
    ErrorDesc(0x01, "CAN bus warning limit reached"),
    ErrorDesc(0x02, "Wrong data length of the received CAN message"),
    ErrorDesc(0x03, "Previous received CAN message wasn't processed yet"),
    ErrorDesc(0x04, "Wrong data length of received PDO"),
    ErrorDesc(0x05, "Previous received PDO wasn't processed yet"),
    ErrorDesc(0x06, "CAN Rx passive"),
    ErrorDesc(0x07, "CAN Tx passive"),
    ErrorDesc(0x08, "Wrong NMT command received"),
    ErrorDesc(0x12, "CAN transmit bus is off"),
    ErrorDesc(0x13, "CAN module receive buffer has overflowed"),
    ErrorDesc(0x14, "CAN transmit buffer has overflowed"),
    ErrorDesc(0x15, "TPDO is outside SYNC window"),
    ErrorDesc(0x18, "SYNC message timeout"),
    ErrorDesc(0x19, "Unexpected SYNC data length"),
    ErrorDesc(0x1A, "Error with PDO mapping"),
    ErrorDesc(0x1C, "Heartbeat consumer detected remote node reset")
  ]

  const EmcyBitNames1: seq<ErrorDesc> := [
    ErrorDesc(0x20, "Emergency buffer is full, Emergency message wasn't sent"),
    ErrorDesc(0x21, "Motion Error"),
    ErrorDesc(0x22, "Microcontroller has just started"),
    ErrorDesc(0x23, "Access is only available to service engineer"),
    ErrorDesc(0x24, "Temperature Motor is too high"),
    ErrorDesc(0x25, "Temperature PCB is too high"),
    ErrorDesc(0x26, "Hardware error (driver error)"),
    ErrorDesc(0x27, "Invalid motion command received"),
    ErrorDesc(0x28, "Wrong parameters to CO_EM_reportError() function"),
    ErrorDesc(0x29, "Timer task has overflowed"),
    ErrorDesc(0x2A, "Unable to allocate memory for objects"),
    ErrorDesc(0x2B, "Generic error, test usage"),
    ErrorDesc(0x2C, "Software error"),
    ErrorDesc(0x2D, "Object dictionary does not match the software"),
    ErrorDesc(0x2E, "Error in calculation of device parameters"),
    ErrorDesc(0x2F, "Error with access to non volatile device memory"),
    ErrorDesc(0x30, "Constraint was applied to the settings"),
    ErrorDesc(0x31, "CRC check of the setings failed"),
    ErrorDesc(0x32, "NTC Error")
  ]

  const EmcyBitNames2: seq<ErrorDesc> := [
    ErrorDesc(0x33, "Current sensor 0 error"),
    ErrorDesc(0x34, "Current sensor 1 error"),
    ErrorDesc(0x35, "Current sensor 2 error"),
    ErrorDesc(0x36, "Driver error"),
    ErrorDesc(0x37, "Voltage sensor error"),
    ErrorDesc(0x38, "Motor Encoder disconnected"),
    ErrorDesc(0x39, "Gear Encoder disconnected"),
    ErrorDesc(0x3A, "Motor Encoder CRC_ERR/EPR_ERR in STATUS1 & STUP in STATUS0"),
    ErrorDesc(0x3B, "Gear Encoder CRC_ERR/EPR_ERR in STATUS1 & STUP in STATUS0"),
    ErrorDesc(0x3C, "Motor Encoder FRQ_ABZ/FRQ_CNV in STATUS1 & AN_MAX/AN_MIN/AM_MAX/AM_MIN in STATUS0"),
    ErrorDesc(0x3D, "Gear Encoder FRQ_ABZ/FRQ_CNV in STATUS1 & AN_MAX/AN_MIN/AM_MAX/AM_MIN in STATUS0"),
    ErrorDesc(0x3E, "Motor Encoder NON_CTR bit in STATUS1"),
    ErrorDesc(0x3F, "Gear Encoder NON_CTR bit in STATUS1"),
    ErrorDesc(0x40, "Under Voltage"),
    ErrorDesc(0x41, "Over Voltage"),
    ErrorDesc(0x42, "Over Current"),
    ErrorDesc(0x43, "Over Power"),
    ErrorDesc(0x44, "Over Force"),
    ErrorDesc(0x45, "Heartbeat consumer timeout")
  ]


  const EmcyCodeNames: seq<ErrorDesc> := EmcyCodeNames0 + EmcyCodeNames1 + EmcyCodeNames2

  const EmcyCodeNames0: seq<ErrorDesc> := [
    ErrorDesc(0x0000, "Error Reset or No Error"),
    ErrorDesc(0x1000, "Generic Error"),
    ErrorDesc(0x2000, "Current"),
    ErrorDesc(0x2100, "Current, device input side"),
    ErrorDesc(0x2200, "Current inside the device"),
    ErrorDesc(0x2300, "Current, device output side"),
    ErrorDesc(0x2310, "DS401: Current at outputs too high (overload)"),
    ErrorDesc(0x2320, "DS401: Short circuit at outputs"),
    ErrorDesc(0x2330, "DS401: Load dump at outputs"),
    ErrorDesc(0x3000, "Voltage"),
    ErrorDesc(0x3100, "Mains Voltage"),
    ErrorDesc(0x3110, "DS401: Input voltage too high"),
    ErrorDesc(0x3120, "DS401: Input voltage too low"),
    ErrorDesc(0x3200, "Voltage inside the device"),
    ErrorDesc(0x3210, "DS401: Internal voltage too high"),
    ErrorDesc(0x3220, "DS401: Internal voltage too low"),
    ErrorDesc(0x3300, "Output Voltage"),
    ErrorDesc(0x3310, "DS401: Output voltage too high"),
    ErrorDesc(0x3320, "DS401: Output voltage too low"),
    ErrorDesc(0x4000, "Temperature"),
    ErrorDesc(0x4100, "Ambient Temperature")
  ]

  const EmcyCodeNames1: seq<ErrorDesc> := [
    ErrorDesc(0x4200, "Device Temperature"),
    ErrorDesc(0x4210, "High temperature of the PCB"),
    ErrorDesc(0x4290, "High temperature of the motor"),
    ErrorDesc(0x5000, "Device Hardware"),
    ErrorDesc(0x50A0, "System error"),
    ErrorDesc(0x50B0, "System error: invalid motion point"),
    ErrorDesc(0x5210, "Control: Current measurement offset"),
    ErrorDesc(0x5430, "EEPROM fault"),
    ErrorDesc(0x5530, "EEPROM checksum error"),
    ErrorDesc(0x6000, "Device Software"),
    ErrorDesc(0x6100, "Internal Software"),
    ErrorDesc(0x6200, "User Software"),
    ErrorDesc(0x6300, "Data Set"),
    ErrorDesc(0x6320, "Configuration error"),
    ErrorDesc(0x7000, "Additional Modules"),
    ErrorDesc(0x7305, "Encoder counting error"),
    ErrorDesc(0x8000, "Monitoring"),
    ErrorDesc(0x8100, "Communication"),
    ErrorDesc(0x8110, "CAN Overrun (Objects lost)"),
    ErrorDesc(0x8120, "CAN Passive Mode"),
    ErrorDesc(0x8130, "Life Guard Error or Heartbeat Error")
  ]

  const EmcyCodeNames2: seq<ErrorDesc> := [
    ErrorDesc(0x8140, "recovered from bus off"),
    ErrorDesc(0x8150, "CAN-ID collision"),
    ErrorDesc(0x8200, "Protocol Error"),
    ErrorDesc(0x8210, "PDO not processed due to length error"),
    ErrorDesc(0x8220, "PDO length exceeded"),
    ErrorDesc(0x8230, "DAM MPDO not processed, destination object not available"),
    ErrorDesc(0x8240, "Unexpected SYNC data length"),
    ErrorDesc(0x8250, "RPDO timeout"),
    ErrorDesc(0x8400, "Velocity controller following error"),
    ErrorDesc(0x8610, "Position controller limits"),
    ErrorDesc(0x8611, "Position controller following error"),
    ErrorDesc(0x8612, "Position controller static following error"),
    ErrorDesc(0x9000, "External Error"),
    ErrorDesc(0xF000, "Additional Functions"),
    ErrorDesc(0xFF00, "Device specific"),
    ErrorDesc(0xFF10, "Unauthorized access"),
    ErrorDesc(0xFF80, "Power Stage Controller Error"),
    ErrorDesc(0xFFA0, "Busy"),
    ErrorDesc(0xFFA2, "Procedure error"),
    ErrorDesc(0xFFA3, "Over force"),
    ErrorDesc(0xFFA4, "Over power")
  ]


  function DescribeNmt(state: int): string
  {
    SwitchDesc(NmtNames, state)
  }

  function DescribeEmcyBit(bit: Byte): string
  {
    SwitchDesc(EmcyBitNames, bit)
  }

  function DescribeEmcyCode(code: int): string
    requires 0 <= code < U16
  {
    SwitchDesc(EmcyCodeNames, code)
  }

  /** Two increasing tables, the second starting above the end of the first, make an increasing table. */
  lemma IncreasingJoin(a: seq<ErrorDesc>, b: seq<ErrorDesc>)
    requires Increasing(a) && Increasing(b)
    requires a != [] && b != [] && a[|a| - 1].code < b[0].code
    ensures Increasing(a + b)
  {
    var t := a + b;
    forall k | 0 <= k < |t| - 1
      ensures t[k].code < t[k + 1].code
    {
      if k == |a| - 1 {
        assert t[k] == a[|a| - 1] && t[k + 1] == b[0];
      } else if k < |a| {
        assert t[k] == a[k] && t[k + 1] == a[k + 1];
      } else {
        assert t[k] == b[k - |a|] && t[k + 1] == b[k - |a| + 1];
      }
    }
  }

  /** A value strictly between two neighbouring labels of an increasing table, or above its last label, is no label. */
  lemma IncreasingGap(t: seq<ErrorDesc>, k: int, code: int)
    requires Increasing(t) && t != []
    requires (0 <= k < |t| - 1 && t[k].code < code < t[k + 1].code) || (k == |t| - 1 && t[k].code < code)
    ensures forall i :: 0 <= i < |t| ==> t[i].code != code
  {
    forall i | 0 <= i < |t|
      ensures t[i].code != code
    {
      if i < k {
        IncreasingOrdered(t, i, k);
      } else if i > k + 1 {
        IncreasingOrdered(t, k + 1, i);
      }
    }
  }

  lemma EmcyBitNames0Increase()
    ensures Increasing(EmcyBitNames0) && |EmcyBitNames0| == 17
    ensures EmcyBitNames0[8].code == 0x08 && EmcyBitNames0[9].code == 0x12 && EmcyBitNames0[12].code == 0x15
    ensures EmcyBitNames0[13].code == 0x18 && EmcyBitNames0[15].code == 0x1A && EmcyBitNames0[16].code == 0x1C
  {
  }

  lemma EmcyBitNames1Increase()
    ensures Increasing(EmcyBitNames1) && |EmcyBitNames1| == 19
    ensures EmcyBitNames1[0].code == 0x20 && EmcyBitNames1[18].code == 0x32
  {
  }

  lemma EmcyBitNames2Increase()
    ensures Increasing(EmcyBitNames2) && |EmcyBitNames2| == 19
    ensures EmcyBitNames2[0].code == 0x33 && EmcyBitNames2[18].code == 0x45
  {
  }

  lemma EmcyCodeNames0Increase()
    ensures Increasing(EmcyCodeNames0) && |EmcyCodeNames0| == 21 && EmcyCodeNames0[20].code == 0x4100
  {
  }

  lemma EmcyCodeNames1Increase()
    ensures Increasing(EmcyCodeNames1) && |EmcyCodeNames1| == 21
    ensures EmcyCodeNames1[0].code == 0x4200 && EmcyCodeNames1[20].code == 0x8130
  {
  }

  lemma EmcyCodeNames2Increase()
    ensures Increasing(EmcyCodeNames2) && |EmcyCodeNames2| == 21 && EmcyCodeNames2[0].code == 0x8140
  {
  }

  /** The bit table lists its labels by increasing value; its gaps are the unused bits 0x09-0x11, 0x16-0x17, 0x1B and 0x1D-0x1F. */
  lemma EmcyBitNamesIncrease()
    ensures Increasing(EmcyBitNames) && |EmcyBitNames| == 55
    ensures EmcyBitNames[8].code == 0x08 && EmcyBitNames[9].code == 0x12 && EmcyBitNames[12].code == 0x15
    ensures EmcyBitNames[13].code == 0x18 && EmcyBitNames[15].code == 0x1A && EmcyBitNames[16].code == 0x1C
    ensures EmcyBitNames[17].code == 0x20 && EmcyBitNames[54].code == 0x45
  {
    EmcyBitNames0Increase();
    EmcyBitNames1Increase();
    EmcyBitNames2Increase();
    IncreasingJoin(EmcyBitNames0, EmcyBitNames1);
    IncreasingJoin(EmcyBitNames0 + EmcyBitNames1, EmcyBitNames2);
  }

  lemma EmcyCodeNamesIncrease()
    ensures Increasing(EmcyCodeNames) && |EmcyCodeNames| == 63
  {
    EmcyCodeNames0Increase();
    EmcyCodeNames1Increase();
    EmcyCodeNames2Increase();
    IncreasingJoin(EmcyCodeNames0, EmcyCodeNames1);
    IncreasingJoin(EmcyCodeNames0 + EmcyCodeNames1, EmcyCodeNames2);
  }

  /** Each heartbeat state has its description; any other value is "N/A". */
  lemma DescribeNmtExact(state: int)
    ensures state == CO_NMT_OPERATIONAL ==> DescribeNmt(state) == "Device is in operational mode"
    ensures state == CO_NMT_HB_TIMEOUT ==> DescribeNmt(state) == "Device disappeared"
    ensures state == CO_NMT_PRE_OPERATIONAL ==> DescribeNmt(state) == "Device is in pre-operational mode"
    ensures forall i :: 0 <= i < |NmtNames| && NmtNames[i].code == state ==> DescribeNmt(state) == NmtNames[i].desc
    ensures DescribeNmt(state) == "N/A" <==> state !in {-1, 0, 2, 4, 5, 127}
  {
    var t := NmtNames;
    assert Increasing(t);
    SwitchDescExact(t, state);
    if state !in {-1, 0, 2, 4, 5, 127} {
      assert forall i :: 0 <= i < |t| ==> t[i].code != state;
    } else if state == -1 {
      assert t[0].code == state;
    } else if state == 0 {
      assert t[1].code == state;
    } else if state == 2 {
      assert t[2].code == state;
    } else if state == 4 {
      assert t[3].code == state;
    } else if state == 5 {
      assert t[4].code == state;
    } else {
      assert t[5].code == state;
    }
  }

  /** Bits of co_emcy_err_bits_t are described by their table entry; the unused bits and those above 0x45 by "N/A". */
  lemma DescribeEmcyBitExact(bit: Byte)
    ensures forall i :: 0 <= i < |EmcyBitNames| && EmcyBitNames[i].code == bit ==> DescribeEmcyBit(bit) == EmcyBitNames[i].desc
    ensures (forall i :: 0 <= i < |EmcyBitNames| ==> EmcyBitNames[i].code != bit) ==> DescribeEmcyBit(bit) == "N/A"
    ensures (0x09 <= bit <= 0x11 || bit in {0x16, 0x17, 0x1B, 0x1D, 0x1E, 0x1F} || bit > 0x45) ==> DescribeEmcyBit(bit) == "N/A"
  {
    var t := EmcyBitNames;
    EmcyBitNamesIncrease();
    SwitchDescExact(t, bit);
    if 0x09 <= bit <= 0x11 {
      IncreasingGap(t, 8, bit);
    } else if bit in {0x16, 0x17} {
      IncreasingGap(t, 12, bit);
    } else if bit == 0x1B {
      IncreasingGap(t, 15, bit);
    } else if bit in {0x1D, 0x1E, 0x1F} {
      IncreasingGap(t, 16, bit);
    } else if bit > 0x45 {
      IncreasingGap(t, 54, bit);
    }
  }

  /** Codes of co_emcy_code_t are described by their table entry; any other 16-bit code by "N/A". */
  lemma DescribeEmcyCodeExact(code: int)
    requires 0 <= code < U16
    ensures forall i :: 0 <= i < |EmcyCodeNames| && EmcyCodeNames[i].code == code ==> DescribeEmcyCode(code) == EmcyCodeNames[i].desc
    ensures (forall i :: 0 <= i < |EmcyCodeNames| ==> EmcyCodeNames[i].code != code) ==> DescribeEmcyCode(code) == "N/A"
  {
    EmcyCodeNamesIncrease();
    SwitchDescExact(EmcyCodeNames, code);
  }

  /* --- SDO traffic --- */

  /** One blocking SDO request as an API call issues it. */
  datatype SdoCall =
    | WriteReq(idx: int, sidx: int, data: seq<Byte>, retry: int, tout: int)
    | ReadReq(idx: int, sidx: int, capacity: int, retry: int, tout: int)

  /** What read_raw_sdo hands back: the abort code, the reported length and the bytes copied into the buffer. */
  datatype ReadReply = ReadReply(abt: AbortCode, len: int, data: seq<Byte>)

  /** On success read_raw_sdo reports at most the buffer's capacity and copies exactly that many bytes. */
  predicate ReplyFits(r: ReadReply, capacity: int)
  {
    r.abt == 0 ==> 0 <= r.len <= capacity && |r.data| == r.len
  }

  /* --- rr_read_error_status --- */

  /** Bit k of x: the C test `x & (1 << k)` is non-zero. */
  predicate BitOf(x: nat, k: nat)
  {
    (x / Pow2(k)) % 2 == 1
  }

  /** Bit i of a bitfield stored least significant byte first: bit i % 8 of byte i / 8. */
  predicate BitSet(bits: seq<Byte>, i: nat)
    requires i < 8 * |bits|
  {
    BitOf(bits[i / 8], i % 8)
  }

  /** The indices below n of the set bits of a bitfield, in ascending order. */
  function ErrorBits(bits: seq<Byte>, n: nat): seq<int>
    requires n <= 8 * |bits|
  {
    if n == 0 then [] else ErrorBits(bits, n - 1) + (if BitSet(bits, n - 1) then [n - 1] else [])
  }

  /** ErrorBits lists exactly the set bits below n, each once, in ascending order. */
  lemma {:induction false} ErrorBitsExact(bits: seq<Byte>, n: nat)
    requires n <= 8 * |bits|
    ensures forall k :: 0 <= k < |ErrorBits(bits, n)| ==> 0 <= ErrorBits(bits, n)[k] < n && BitSet(bits, ErrorBits(bits, n)[k])
    ensures forall k, l :: 0 <= k < l < |ErrorBits(bits, n)| ==> ErrorBits(bits, n)[k] < ErrorBits(bits, n)[l]
    ensures forall i :: 0 <= i < n && BitSet(bits, i) ==> i in ErrorBits(bits, n)
  {
    if n > 0 {
      ErrorBitsExact(bits, n - 1);
    }
  }

  /** Scanning further never shortens the list. */
  lemma {:induction false} ErrorBitsGrow(bits: seq<Byte>, i: nat, n: nat)
    requires i <= n <= 8 * |bits|
    ensures |ErrorBits(bits, i)| <= |ErrorBits(bits, n)|
    decreases n - i
  {
    if i < n {
      ErrorBitsGrow(bits, i, n - 1);
    }
  }

  /**
   * rr_read_error_status with the bitfield received into a buffer of its
   * own: on success the count is the number of set bits among the 8 * len
   * received and, when the caller passes an array, its first count
   * elements are their indices in ascending order; after an SDO failure
   * the count is 0 and the array untouched.
   */
  method ReadErrorStatus(errorArray: array?<Byte>, reply: ReadReply) returns (status: int, count: int, call: SdoCall)
    requires ReplyFits(reply, 32)
    requires errorArray != null && reply.abt == 0 ==> |ErrorBits(reply.data, 8 * reply.len)| <= errorArray.Length
    modifies errorArray
    ensures call == ReadReq(0x2000, 0, 32, 1, 200) && status == StatusOf(reply.abt)
    ensures reply.abt != 0 ==> count == 0 && (errorArray != null ==> errorArray[..] == old(errorArray[..]))
    ensures reply.abt == 0 ==> count == |ErrorBits(reply.data, 8 * reply.len)|
    ensures errorArray != null && reply.abt == 0 ==>
              errorArray[..count] == ErrorBits(reply.data, 8 * reply.len) && errorArray[count..] == old(errorArray[count..])
  {
    call := ReadReq(0x2000, 0, 32, 1, 200);
    count := 0;
    if reply.abt == 0 {
      count := ListErrorBits(errorArray, reply.data, 8 * reply.len);
    }
    status := StatusOf(reply.abt);
  }

  /** The scan loop: one index per set bit, written to the array when there is one. */
  method ListErrorBits(errorArray: array?<Byte>, bits: seq<Byte>, n: int) returns (count: int)
    requires 0 <= n <= 8 * |bits| && n <= 256
    requires errorArray != null ==> |ErrorBits(bits, n)| <= errorArray.Length
    modifies errorArray
    ensures count == |ErrorBits(bits, n)|
    ensures errorArray != null ==> errorArray[..count] == ErrorBits(bits, n) && errorArray[count..] == old(errorArray[count..])
  {
    count := 0;
    var i := 0;
    while i < n
      invariant 0 <= i <= n
      invariant count == |ErrorBits(bits, i)|
      invariant errorArray != null ==> count <= errorArray.Length
      invariant errorArray != null ==> errorArray[..count] == ErrorBits(bits, i) && errorArray[count..] == old(errorArray[count..])
    {
      if BitOf(bits[i / 8], i % 8) {
        assert ErrorBits(bits, i + 1) == ErrorBits(bits, i) + [i];
        if errorArray != null {
          ErrorBitsGrow(bits, i + 1, n);
          errorArray[count] := i;
          assert errorArray[..count + 1] == errorArray[..count] + [i];
        }
        count := count + 1;
      } else {
        assert ErrorBits(bits, i + 1) == ErrorBits(bits, i);
      }
      i := i + 1;
    }
  }

  /**
   * The scan of rr_read_error_status as written when error_array is given:
   * the bitfield was received into the same array, so writing index i at
   * position count can clear bits the scan has not reached yet.
   */
  function InPlaceScan(buf: seq<Byte>, i: nat, n: nat, count: nat): (r: (seq<Byte>, nat))
    requires i <= n <= |buf| && n <= 256 && count <= i
    ensures |r.0| == |buf| && r.1 <= n
    decreases n - i
  {
    if i == n then (buf, count)
    else if BitSet(buf, i) then InPlaceScan(buf[count := i], i + 1, n, count + 1)
    else InPlaceScan(buf, i + 1, n, count)
  }

  /**
   * rr_read_error_status as written: the reply is copied into the
   * caller's array when there is one, and the same array is scanned while
   * the indices are written into it.
   */
  method ReadErrorStatusAsWritten(errorArray: array?<Byte>, reply: ReadReply) returns (status: int, count: int, call: SdoCall)
    requires ReplyFits(reply, 32)
    // Room for one index per scanned bit: the source leaves the size to the caller, and the
    // in-place writes can raise bits not yet scanned, so no smaller bound fits every reply.
    requires errorArray != null && reply.abt == 0 ==> 8 * reply.len <= errorArray.Length
    modifies errorArray
    ensures call == ReadReq(0x2000, 0, 32, 1, 200) && status == StatusOf(reply.abt)
    ensures reply.abt != 0 ==> count == 0
    ensures errorArray == null && reply.abt == 0 ==> count == |ErrorBits(reply.data, 8 * reply.len)|
    ensures errorArray != null && reply.abt == 0 ==>
              var buf := reply.data + old(errorArray[reply.len..]);
              (errorArray[..], count) == InPlaceScan(buf, 0, 8 * reply.len, 0)
  {
    call := ReadReq(0x2000, 0, 32, 1, 200);
    count := 0;
    if reply.abt == 0 && errorArray == null {
      status, count, call := ReadErrorStatus(null, reply);
      return;
    }
    if reply.abt == 0 {
      var n := 8 * reply.len;
      ghost var buf := reply.data + errorArray[reply.len..];
      CopyReply(errorArray, reply.data);
      assert errorArray[..] == buf;
      var i := 0;
      while i < n
        invariant 0 <= i <= n && count <= i
        invariant InPlaceScan(errorArray[..], i, n, count) == InPlaceScan(buf, 0, n, 0)
      {
        if BitOf(errorArray[i / 8], i % 8) {
          errorArray[count] := i;
          count := count + 1;
        }
        i := i + 1;
      }
    }
    status := StatusOf(reply.abt);
  }

  /** The memcpy of the reply into the front of the array. */
  method CopyReply(a: array<Byte>, data: seq<Byte>)
    requires |data| <= a.Length
    modifies a
    ensures a[..] == data + old(a[|data|..])
  {
    var k := 0;
    while k < |data|
      invariant 0 <= k <= |data|
      invariant a[..k] == data[..k] && a[k..] == old(a[k..])
    {
      a[k] := data[k];
      assert a[..k + 1] == data[..k + 1];
      k := k + 1;
    }
    assert a[..] == a[..|data|] + a[|data|..];
  }

  /**
   * With error_array given and the one-byte bitfield 0x03 (bits 0 and 1
   * set), the in-place scan reports one error where there are two:
   * writing index 0 into byte 0 clears bit 1 before it is tested.
   */
  lemma InPlaceScanLosesBits()
    ensures |ErrorBits([3], 8)| == 2
    ensures var buf := [3] + seq(63, _ => 0); InPlaceScan(buf, 0, 8, 0).1 == 1
  {
    var z: seq<Byte> := seq(63, _ => 0);
    var buf: seq<Byte> := [3] + z;
    assert BitSet(buf, 0);
    var b1 := buf[0 := 0];
    assert b1 == [0] + z;
    ScanClearedTail(b1, 1);
    ErrorBitsOfThree();
  }

  /** Once byte 0 holds index 0 and the rest is zero, no further bit is found. */
  lemma {:induction false} ScanClearedTail(b1: seq<Byte>, i: nat)
    requires |b1| == 64 && b1 == seq(64, _ => 0) && 1 <= i <= 8
    ensures InPlaceScan(b1, i, 8, 1) == (b1, 1)
    decreases 8 - i
  {
    if i < 8 {
      assert b1[i / 8] == 0;
      ScanClearedTail(b1, i + 1);
    }
  }

  lemma ErrorBitsOfThree()
    ensures ErrorBits([3], 8) == [0, 1]
  {
    var bits: seq<Byte> := [3];
    assert BitSet(bits, 0) && BitSet(bits, 1);
    assert Pow2(2) == 4 && Pow2(3) == 8 && Pow2(4) == 16 && Pow2(5) == 32 && Pow2(6) == 64 && Pow2(7) == 128;
    assert !BitSet(bits, 2) && !BitSet(bits, 3) && !BitSet(bits, 4) && !BitSet(bits, 5) && !BitSet(bits, 6) && !BitSet(bits, 7);
    assert ErrorBits(bits, 2) == [0, 1];
    assert ErrorBits(bits, 8) == ErrorBits(bits, 7) == ErrorBits(bits, 6) == ErrorBits(bits, 5);
    assert ErrorBits(bits, 5) == ErrorBits(bits, 4) == ErrorBits(bits, 3) == ErrorBits(bits, 2);
  }

  /* --- bits of a byte: BIT_SET_UINT_ARRAY --- */

  lemma Pow2Below(k: nat)
    requires k < 8
    ensures 1 <= Pow2(k) < 256
  {
    assert Pow2(1) == 2 && Pow2(2) == 4 && Pow2(3) == 8 && Pow2(4) == 16;
    assert Pow2(5) == 32 && Pow2(6) == 64 && Pow2(7) == 128;
  }

  /** `x | (1 << k)` on a byte. */
  function OrBit(x: Byte, k: nat): Byte
    requires k < 8
  {
    Pow2Below(k);
    assert Pow2(8) == 256 by {
      assert Pow2(4) == 16;
    }
    BitOrBound(x, Pow2(k), 8);
    BitOr(x, Pow2(k))
  }

  /** Bit j of x is bit j - 1 of x / 2. */
  lemma BitOfHalf(x: nat, j: nat)
    requires j > 0
    ensures BitOf(x, j) <==> BitOf(x / 2, j - 1)
  {
    DivDiv(x, 2, Pow2(j - 1));
  }

  /** A bit of `a | b` is set iff it is set in a or in b. */
  lemma {:induction false} BitOrBit(a: nat, b: nat, j: nat)
    ensures BitOf(BitOr(a, b), j) <==> BitOf(a, j) || BitOf(b, j)
  {
    if a == 0 {
      assert 0 / Pow2(j) == 0;
    } else if b == 0 {
      assert 0 / Pow2(j) == 0;
    } else {
      var c := if a % 2 == 1 || b % 2 == 1 then 1 else 0;
      var r := BitOr(a, b);
      assert r == 2 * BitOr(a / 2, b / 2) + c;
      if j > 0 {
        assert r / 2 == BitOr(a / 2, b / 2);
        BitOfHalf(r, j);
        BitOfHalf(a, j);
        BitOfHalf(b, j);
        BitOrBit(a / 2, b / 2, j - 1);
      }
    }
  }

  /** `1 << k` has bit k set and no other. */
  lemma {:induction false} PowBit(k: nat, j: nat)
    ensures BitOf(Pow2(k), j) <==> j == k
  {
    if j == 0 {
      assert Pow2(0) == 1;
      if k > 0 {
        assert Pow2(k) == 2 * Pow2(k - 1);
        assert Pow2(k) / Pow2(0) == Pow2(k);
      }
    } else if k == 0 {
      assert Pow2(j) == 2 * Pow2(j - 1);
      ModUnique(1, Pow2(j), 0, 1);
    } else {
      BitOfHalf(Pow2(k), j);
      assert Pow2(k) / 2 == Pow2(k - 1);
      PowBit(k - 1, j - 1);
    }
  }

  /** BIT_SET_UINT_ARRAY(m, i). */
  function SetBit(m: seq<Byte>, i: nat): (r: seq<Byte>)
    requires i < 8 * |m|
    ensures |r| == |m|
  {
    m[i / 8 := OrBit(m[i / 8], i % 8)]
  }

  /** Setting bit i sets that bit and changes no other. */
  lemma SetBitEffect(m: seq<Byte>, i: nat)
    requires i < 8 * |m|
    ensures forall j :: 0 <= j < 8 * |m| ==> (BitSet(SetBit(m, i), j) <==> j == i || BitSet(m, j))
  {
    forall j | 0 <= j < 8 * |m|
      ensures BitSet(SetBit(m, i), j) <==> j == i || BitSet(m, j)
    {
      if j / 8 == i / 8 {
        BitOrBit(m[i / 8], Pow2(i % 8), j % 8);
        PowBit(i % 8, j % 8);
      }
    }
  }

  /* --- the parameter cache --- */

  /** One cell of rr_servo_t's parameter cache: whether it is in the cached set, and the last value read (the 4 bytes of a float). */
  datatype CacheEntry = CacheEntry(activated: bool, value: seq<Byte>)

  /** The mask rr_param_cache_setup_entry builds after scanning the first n entries: 10 zero bytes with bit i set for each activated entry i < n. */
  function MaskOf(pc: seq<CacheEntry>, n: nat): (r: seq<Byte>)
    requires n <= |pc| && n <= 80
    ensures |r| == 10
  {
    if n == 0 then seq(10, _ => 0)
    else if pc[n - 1].activated then SetBit(MaskOf(pc, n - 1), n - 1)
    else MaskOf(pc, n - 1)
  }

  /** Bit i of the mask is set iff entry i is among the first n and activated. */
  lemma {:induction false} MaskOfBits(pc: seq<CacheEntry>, n: nat)
    requires n <= |pc| && n <= 80
    ensures forall i :: 0 <= i < 80 ==> (BitSet(MaskOf(pc, n), i) <==> i < n && pc[i].activated)
  {
    if n == 0 {
      forall i | 0 <= i < 80
        ensures !BitSet(MaskOf(pc, 0), i)
      {
        assert MaskOf(pc, 0)[i / 8] == 0;
        assert 0 / Pow2(i % 8) == 0;
      }
    } else {
      MaskOfBits(pc, n - 1);
      if pc[n - 1].activated {
        SetBitEffect(MaskOf(pc, n - 1), n - 1);
      }
    }
  }

  /** Number of activated entries among the first i. */
  function ActiveBefore(pc: seq<CacheEntry>, i: nat): (r: nat)
    requires i <= |pc|
    ensures r <= i
  {
    if i == 0 then 0 else ActiveBefore(pc, i - 1) + (if pc[i - 1].activated then 1 else 0)
  }

  /** Entry i after rr_param_cache_update unpacked buf: the k-th activated entry, in index order, takes the 4 bytes at offset 4k. */
  function Unpacked(pc: seq<CacheEntry>, buf: seq<Byte>, i: nat): CacheEntry
    requires i < |pc| && 4 * |pc| <= |buf|
  {
    if pc[i].activated then pc[i].(value := buf[4 * ActiveBefore(pc, i) .. 4 * ActiveBefore(pc, i) + 4]) else pc[i]
  }

  /** rr_servo_t: the CAN id of its device handle and the parameter cache. */
  class Servo {
    const id: int
    const pcache: array<CacheEntry>

    ghost predicate Valid()
      reads this, pcache
    {
      pcache.Length == APP_PARAM_SIZE && forall i :: 0 <= i < APP_PARAM_SIZE ==> |pcache[i].value| == 4
    }

    /** The calloc of rr_init_servo: every cache entry inactive and zero. */
    constructor (id: int)
      ensures Valid() && this.id == id && fresh(pcache)
      ensures forall i :: 0 <= i < APP_PARAM_SIZE ==> pcache[i] == CacheEntry(false, [0, 0, 0, 0])
    {
      this.id := id;
      pcache := new CacheEntry[APP_PARAM_SIZE](_ => CacheEntry(false, [0, 0, 0, 0]));
    }

    /**
     * rr_param_cache_setup_entry: the entry's flag is stored first, and
     * kept whatever the SDO write returns; the request carries a 10-byte
     * mask whose bit i is set iff entry i is activated.
     */
    method SetupEntry(param: int, enabled: bool, abt: AbortCode) returns (status: int, call: SdoCall)
      requires Valid() && 0 <= param < APP_PARAM_SIZE
      modifies pcache
      ensures Valid()
      ensures pcache[..] == old(pcache[..])[param := old(pcache[param]).(activated := enabled)]
      ensures call.WriteReq? && call.idx == 0x2015 && call.sidx == 1 && call.retry == 1 && call.tout == 200
      ensures |call.data| == 10
      ensures forall i :: 0 <= i < 80 ==> (BitSet(call.data, i) <==> i < APP_PARAM_SIZE && pcache[i].activated)
      ensures status == StatusOf(abt)
    {
      pcache[param] := pcache[param].(activated := enabled);
      var mask := BuildMask();
      MaskOfBits(pcache[..], APP_PARAM_SIZE);
      call := WriteReq(0x2015, 1, mask, 1, 200);
      status := StatusOf(abt);
    }

    /** The mask loop of rr_param_cache_setup_entry. */
    method BuildMask() returns (mask: seq<Byte>)
      requires Valid()
      ensures mask == MaskOf(pcache[..], APP_PARAM_SIZE)
    {
      var a := new Byte[10](_ => 0);
      var i := 0;
      while i < APP_PARAM_SIZE
        invariant 0 <= i <= APP_PARAM_SIZE
        invariant a[..] == MaskOf(pcache[..], i)
      {
        if pcache[i].activated {
          a[i / 8] := OrBit(a[i / 8], i % 8);
        }
        i := i + 1;
      }
      mask := a[..];
    }

    /**
     * rr_param_cache_update: on success the k-th activated entry takes the
     * 4 bytes at offset 4k of the receive buffer, whose tail beyond the
     * reply holds whatever was there before (stale); inactive entries are
     * untouched; RET_SIZE_MISMATCH is reported, after the values were
     * overwritten, iff 4 * (number of activated entries) differs from the
     * reply length. On failure the cache is untouched.
     */
    method ParamCacheUpdate(reply: ReadReply, stale: seq<Byte>) returns (status: int, call: SdoCall)
      requires Valid() && ReplyFits(reply, 4 * APP_PARAM_SIZE)
      requires reply.abt == 0 ==> |stale| == 4 * APP_PARAM_SIZE - reply.len
      modifies pcache
      ensures Valid()
      ensures call == ReadReq(0x2014, 1, 4 * APP_PARAM_SIZE, 1, 100)
      ensures reply.abt != 0 ==> status == StatusOf(reply.abt) && pcache[..] == old(pcache[..])
      ensures reply.abt == 0 ==>
                forall i :: 0 <= i < APP_PARAM_SIZE ==> pcache[i] == Unpacked(old(pcache[..]), reply.data + stale, i)
      ensures reply.abt == 0 ==> status in {RET_OK, RET_SIZE_MISMATCH}
      ensures reply.abt == 0 ==> (status == RET_SIZE_MISMATCH <==> 4 * ActiveBefore(old(pcache[..]), APP_PARAM_SIZE) != reply.len)
    {
      call := ReadReq(0x2014, 1, 4 * APP_PARAM_SIZE, 1, 100);
      if reply.abt != 0 {
        status := StatusOf(reply.abt);
        return;
      }
      var buf := reply.data + stale;
      ghost var pc0 := pcache[..];
      var i, src := 0, 0;
      while i < APP_PARAM_SIZE
        invariant 0 <= i <= APP_PARAM_SIZE
        invariant src == 4 * ActiveBefore(pc0, i)
        invariant forall k :: 0 <= k < i ==> pcache[k] == Unpacked(pc0, buf, k)
        invariant forall k :: i <= k < APP_PARAM_SIZE ==> pcache[k] == pc0[k]
      {
        if pcache[i].activated {
          pcache[i] := pcache[i].(value := buf[src..src + 4]);
          src := src + 4;
        }
        i := i + 1;
      }
      status := if src != reply.len then RET_SIZE_MISMATCH else RET_OK;
    }

    /**
     * rr_read_parameter: a successful 4-byte read stores the value in the
     * cache, activated or not, and returns it; a successful read of any
     * other length returns RET_OK with neither the value nor the cache
     * touched; a failed read returns its status.
     */
    method ReadParameter(param: int, reply: ReadReply, valueIn: seq<Byte>) returns (status: int, value: seq<Byte>, call: SdoCall)
      requires Valid() && 0 <= param < APP_PARAM_SIZE && ReplyFits(reply, 4)
      modifies pcache
      ensures Valid()
      ensures call == ReadReq(0x2013, param, 4, 2, 100)
      ensures reply.abt == 0 && reply.len == 4 ==>
                status == RET_OK && value == reply.data &&
                pcache[..] == old(pcache[..])[param := old(pcache[param]).(value := reply.data)] &&
                ReadCachedParameter(param) == (RET_OK, value)
      ensures reply.abt == 0 && reply.len != 4 ==> status == RET_OK && value == valueIn && pcache[..] == old(pcache[..])
      ensures reply.abt != 0 ==> status == StatusOf(reply.abt) && status != RET_OK && value == valueIn && pcache[..] == old(pcache[..])
    {
      call := ReadReq(0x2013, param, 4, 2, 100);
      if reply.abt == 0 && reply.len == 4 {
        pcache[param] := pcache[param].(value := reply.data);
        return RET_OK, pcache[param].value, call;
      }
      StatusOfAbort(reply.abt);
      status, value := StatusOf(reply.abt), valueIn;
    }

    /** rr_read_cached_parameter: always RET_OK with the stored 4-byte value. */
    function ReadCachedParameter(param: int): (r: (int, seq<Byte>))
      requires Valid() && 0 <= param < APP_PARAM_SIZE
      reads this, pcache
      ensures r.0 == RET_OK && |r.1| == 4
    {
      (RET_OK, pcache[param].value)
    }
  }

  /* --- trajectory requests --- */

  /** A `uint32_t` copied into the payload on a little-endian host reads back as itself. */
  lemma Le32(v: int)
    requires 0 <= v < U32
    ensures |LeBytes(v, 4)| == 4 && LeValue(LeBytes(v, 4)) == v
  {
    assert Pow256(4) == U32;
    LeBytesValue(v, 4);
  }

  /** rr_add_motion_point: 12 bytes, the position and velocity floats then the time in ms, to 0x2200 sub 2. */
  function MotionPointCall(position: seq<Byte>, velocity: seq<Byte>, timeMs: int): (c: SdoCall)
    requires |position| == 4 && |velocity| == 4 && 0 <= timeMs < U32
    ensures c.WriteReq? && c.idx == 0x2200 && c.sidx == 2 && c.retry == 1 && c.tout == 200
    ensures |c.data| == 12 && c.data[..4] == position && c.data[4..8] == velocity && LeValue(c.data[8..]) == timeMs
  {
    Le32(timeMs);
    var data := position + velocity + LeBytes(timeMs, 4);
    assert data[8..] == LeBytes(timeMs, 4);
    WriteReq(0x2200, 2, data, 1, 200)
  }

  /** rr_add_motion_point_pvat: 16 bytes, position, velocity and acceleration then the time, to 0x2200 sub 3. */
  function MotionPointPvatCall(position: seq<Byte>, velocity: seq<Byte>, accel: seq<Byte>, timeMs: int): (c: SdoCall)
    requires |position| == 4 && |velocity| == 4 && |accel| == 4 && 0 <= timeMs < U32
    ensures c.WriteReq? && c.idx == 0x2200 && c.sidx == 3 && c.retry == 1 && c.tout == 200
    ensures |c.data| == 16 && c.data[..4] == position && c.data[4..8] == velocity && c.data[8..12] == accel
    ensures LeValue(c.data[12..]) == timeMs
  {
    Le32(timeMs);
    var data := position + velocity + accel + LeBytes(timeMs, 4);
    assert data[12..] == LeBytes(timeMs, 4);
    WriteReq(0x2200, 3, data, 1, 200)
  }

  /** The status both motion-point calls report: an incompatible-parameter abort means the point was rejected. */
  function MotionStatus(abt: AbortCode): int
  {
    if abt == CO_SDO_AB_PRAM_INCOMPAT then RET_WRONG_TRAJ else StatusOf(abt)
  }

  lemma MotionStatusCases(abt: AbortCode)
    ensures MotionStatus(abt) == RET_OK <==> abt == CO_SDO_AB_NONE
    ensures MotionStatus(abt) == RET_WRONG_TRAJ <==> abt == CO_SDO_AB_PRAM_INCOMPAT
    ensures MotionStatus(abt) == RET_TIMEOUT <==> abt == CO_SDO_AB_TIMEOUT
    ensures MotionStatus(abt) in {RET_OK, RET_WRONG_TRAJ, RET_TIMEOUT, RET_ERROR}
  {
    StatusOfAbort(abt);
  }

  /** rr_clear_points: the count as a little-endian `uint32_t` to 0x2202 sub 1; rr_clear_points_all sends 0. */
  function ClearPointsCall(numToClear: int): (c: SdoCall)
    requires 0 <= numToClear < U32
    ensures c.WriteReq? && c.idx == 0x2202 && c.sidx == 1 && c.retry == 1 && c.tout == 100
    ensures |c.data| == 4 && LeValue(c.data) == numToClear
  {
    Le32(numToClear);
    WriteReq(0x2202, 1, LeBytes(numToClear, 4), 1, 100)
  }

  /** The 32-byte request of rr_invoke_time_calculation: start position, velocity, acceleration and time, then the same for the end. */
  function TimeCalcPayload(start: seq<Byte>, startTime: int, end: seq<Byte>, endTime: int): (p: seq<Byte>)
    requires |start| == 12 && |end| == 12 && 0 <= startTime < U32 && 0 <= endTime < U32
    ensures |p| == 32 && p[..12] == start && LeValue(p[12..16]) == startTime
    ensures p[16..28] == end && LeValue(p[28..]) == endTime
  {
    Le32(startTime);
    Le32(endTime);
    var p := start + LeBytes(startTime, 4) + end + LeBytes(endTime, 4);
    assert p[12..16] == LeBytes(startTime, 4) && p[28..] == LeBytes(endTime, 4);
    p
  }

  /** Status, resulting *time_ms and requests of one rr_invoke_time_calculation call. */
  datatype TimeCalc = TimeCalc(status: int, time: int, calls: seq<SdoCall>)

  const TimeCalcRead: SdoCall := ReadReq(0x2203, 2, 4, 1, 100)

  /**
   * rr_invoke_time_calculation as written: the result read declares a
   * second `sts` that hides the first, so when that read fails control
   * falls through to the tests of the write's status, which succeeded.
   */
  function InvokeTimeCalculationAsWritten(payload: seq<Byte>, hasResult: bool, writeAbt: AbortCode, read: ReadReply, timeIn: int): (r: TimeCalc)
    requires |payload| == 32 && ReplyFits(read, 4)
  {
    var w := WriteReq(0x2203, 1, payload, 1, 200);
    if writeAbt == CO_SDO_AB_NONE && !hasResult then TimeCalc(RET_WRONG_ARG, timeIn, [w])
    else if writeAbt == CO_SDO_AB_NONE && read.abt == CO_SDO_AB_NONE && read.len == 4 then
      TimeCalc(RET_OK, LeValue(read.data), [w, TimeCalcRead])
    else
      var calls := if writeAbt == CO_SDO_AB_NONE then [w, TimeCalcRead] else [w];
      TimeCalc(if writeAbt == CO_SDO_AB_GENERAL then RET_WRONG_TRAJ else StatusOf(writeAbt), timeIn, calls)
  }

  /** A result read that times out is reported as RET_OK, and *time_ms keeps its old value. */
  lemma TimeCalcAsWrittenHidesReadFailure(payload: seq<Byte>, timeIn: int)
    requires |payload| == 32
    ensures var r := InvokeTimeCalculationAsWritten(payload, true, 0, ReadReply(CO_SDO_AB_TIMEOUT, 4, []), timeIn);
            r.status == RET_OK && r.time == timeIn && |r.calls| == 2
  {
  }

  /**
   * rr_invoke_time_calculation with the tests after the read applied to
   * the read's own status: RET_WRONG_ARG for a missing result pointer,
   * checked only after the write succeeded; RET_WRONG_TRAJ when the
   * servo answers CO_SDO_AB_GENERAL; RET_OK only when both requests
   * succeeded, with the time read back when 4 bytes came.
   */
  function InvokeTimeCalculation(payload: seq<Byte>, hasResult: bool, writeAbt: AbortCode, read: ReadReply, timeIn: int): (r: TimeCalc)
    requires |payload| == 32 && ReplyFits(read, 4)
    ensures r.status == RET_WRONG_ARG <==> writeAbt == CO_SDO_AB_NONE && !hasResult
    ensures r.status == RET_OK <==> writeAbt == CO_SDO_AB_NONE && hasResult && read.abt == CO_SDO_AB_NONE
    ensures r.status == RET_WRONG_TRAJ <==>
              writeAbt == CO_SDO_AB_GENERAL || (writeAbt == CO_SDO_AB_NONE && hasResult && read.abt == CO_SDO_AB_GENERAL)
    ensures r.status == RET_OK && read.len == 4 ==> r.time == LeValue(read.data)
    ensures r.time != timeIn ==> r.status == RET_OK
    ensures |r.calls| >= 1 && r.calls[0] == WriteReq(0x2203, 1, payload, 1, 200)
    ensures |r.calls| == 2 <==> writeAbt == CO_SDO_AB_NONE && hasResult
  {
    var w := WriteReq(0x2203, 1, payload, 1, 200);
    StatusOfAbort(writeAbt);
    StatusOfAbort(read.abt);
    if writeAbt == CO_SDO_AB_NONE && !hasResult then TimeCalc(RET_WRONG_ARG, timeIn, [w])
    else if writeAbt == CO_SDO_AB_NONE && read.abt == CO_SDO_AB_NONE && read.len == 4 then
      TimeCalc(RET_OK, LeValue(read.data), [w, TimeCalcRead])
    else
      var sts := if writeAbt == CO_SDO_AB_NONE then read.abt else writeAbt;
      var calls := if writeAbt == CO_SDO_AB_NONE then [w, TimeCalcRead] else [w];
      TimeCalc(if sts == CO_SDO_AB_GENERAL then RET_WRONG_TRAJ else StatusOf(sts), timeIn, calls)
  }

  /* --- rr_change_id, rr_change_id_and_save --- */

  /** What rr_change_id does to the bus and the interface, in order. */
  datatype Traffic =
    | Sdo(dev: int, call: SdoCall)   // an SDO request to the device with that CAN id
    | ResetCommunication             // rr_net_reset_communication: NMT reset-communication to every node
    | Deinit(id: int)                // rr_deinit_servo of the current descriptor
    | Init(id: int)                  // rr_init_servo for the new id

  /** What becomes of the caller's `rr_servo_t *`. */
  datatype SlotAfter = Kept | Cleared | Replaced

  datatype ChangeOutcome = ChangeOutcome(status: int, traffic: seq<Traffic>, after: SlotAfter)

  /** The first steps of rr_change_id: the outcome is decided, the program crashes, or the change proceeds. */
  datatype Guard = Decided(status: int) | Crash | Proceed

  /**
   * The guard of rr_change_id as written: the current id is read through
   * *servo before IS_VALID_SERVO(*servo) tests it for null.
   */
  function ChangeIdGuardAsWritten(servoNull: bool, curId: int, newId: int): Guard
  {
    if newId < 1 || newId > 127 then Decided(RET_WRONG_ARG)
    else if servoNull then Crash
    else if curId == newId then Decided(RET_OK)
    else Proceed
  }

  /** With a null descriptor and a valid new id the guard dereferences null; its own null test can never report RET_BAD_INSTANCE. */
  lemma ChangeIdGuardAsWrittenCrashes(curId: int, newId: int)
    requires 1 <= newId <= 127
    ensures ChangeIdGuardAsWritten(true, curId, newId) == Crash
    ensures forall n: bool, c: int, k: int :: ChangeIdGuardAsWritten(n, c, k) != Decided(RET_BAD_INSTANCE)
  {
  }

  /**
   * The guard with the null test before the dereference: ids outside
   * 1..127 are rejected, a null descriptor is RET_BAD_INSTANCE, and an
   * unchanged id succeeds at once; it never crashes.
   */
  function ChangeIdGuard(servoNull: bool, curId: int, newId: int): (g: Guard)
    ensures g != Crash
    ensures g == Decided(RET_WRONG_ARG) <==> newId < 1 || newId > 127
    ensures g == Decided(RET_BAD_INSTANCE) <==> 1 <= newId <= 127 && servoNull
    ensures g == Decided(RET_OK) <==> 1 <= newId <= 127 && !servoNull && curId == newId
    ensures g == Proceed <==> 1 <= newId <= 127 && !servoNull && curId != newId
  {
    if newId < 1 || newId > 127 then Decided(RET_WRONG_ARG)
    else if servoNull then Decided(RET_BAD_INSTANCE)
    else if curId == newId then Decided(RET_OK)
    else Proceed
  }

  /** The request that writes the new node id into object 0x2100. */
  function NodeIdCall(newId: Byte): SdoCall
  {
    WriteReq(0x2100, 0, [newId], 1, 100)
  }

  /**
   * rr_change_id given the outcome of each step: the write of the new id,
   * rr_net_reset_communication, rr_deinit_servo and rr_init_servo.
   * RET_OK means either nothing had to change or the whole sequence ran
   * and the descriptor was replaced by one for the new id.
   */
  function ChangeIdOutcome(servoNull: bool, curId: int, newId: Byte, writeAbt: AbortCode, resetSts: int, deinitOk: bool, initOk: bool)
    : (r: ChangeOutcome)
    ensures r.status == RET_OK <==>
              (r.traffic == [] && r.after == Kept && ChangeIdGuard(servoNull, curId, newId) == Decided(RET_OK)) ||
              r.after == Replaced
    ensures r.after == Replaced <==>
              ChangeIdGuard(servoNull, curId, newId) == Proceed && writeAbt == CO_SDO_AB_NONE && resetSts == RET_OK && deinitOk && initOk
    ensures r.after == Replaced ==> r.traffic == [Sdo(curId, NodeIdCall(newId)), ResetCommunication, Deinit(curId), Init(newId)]
    ensures r.traffic != [] ==> r.traffic[0] == Sdo(curId, NodeIdCall(newId)) && ChangeIdGuard(servoNull, curId, newId) == Proceed
    ensures r.after == Cleared ==> r.status == RET_BAD_INSTANCE
  {
    StatusOfAbort(writeAbt);
    var g := ChangeIdGuard(servoNull, curId, newId);
    if g.Decided? then ChangeOutcome(g.status, [], Kept)
    else
      var t1 := [Sdo(curId, NodeIdCall(newId))];
      if writeAbt != CO_SDO_AB_NONE then ChangeOutcome(StatusOf(writeAbt), t1, Kept)
      else if resetSts != RET_OK then ChangeOutcome(resetSts, t1 + [ResetCommunication], Kept)
      else if !deinitOk then ChangeOutcome(RET_ERROR, t1 + [ResetCommunication, Deinit(curId)], Kept)
      else if !initOk then ChangeOutcome(RET_BAD_INSTANCE, t1 + [ResetCommunication, Deinit(curId), Init(newId)], Cleared)
      else ChangeOutcome(RET_OK, t1 + [ResetCommunication, Deinit(curId), Init(newId)], Replaced)
  }

  /** The store-parameters password "save" (0x73617665) as the 4 little-endian bytes sent to 0x1010 sub 1. */
  const SaveCall: SdoCall := WriteReq(0x1010, 1, LeBytes(0x7361_7665, 4), 1, 4000)

  lemma SaveCallBytes()
    ensures SaveCall.data == [0x65, 0x76, 0x61, 0x73] && LeValue(SaveCall.data) == 0x7361_7665
  {
    Le32(0x7361_7665);
  }

  /**
   * rr_change_id_and_save: the save request goes to the device the
   * descriptor now names, and only after rr_change_id returned RET_OK
   * (also when the id was unchanged); RET_OK means both succeeded.
   */
  function ChangeIdAndSaveOutcome(servoNull: bool, curId: int, newId: Byte, writeAbt: AbortCode, resetSts: int, deinitOk: bool, initOk: bool,
                                  saveAbt: AbortCode): (r: ChangeOutcome)
    ensures var c := ChangeIdOutcome(servoNull, curId, newId, writeAbt, resetSts, deinitOk, initOk);
            r.after == c.after &&
            (c.status != RET_OK ==> r == c) &&
            (c.status == RET_OK ==> r.traffic == c.traffic + [Sdo(newId, SaveCall)]) &&
            (r.status == RET_OK <==> c.status == RET_OK && saveAbt == CO_SDO_AB_NONE)
  {
    var c := ChangeIdOutcome(servoNull, curId, newId, writeAbt, resetSts, deinitOk, initOk);
    StatusOfAbort(saveAbt);
    if c.status != RET_OK then c
    else
      var dev := if c.after == Replaced then newId else curId;
      ChangeOutcome(if saveAbt != CO_SDO_AB_NONE then StatusOf(saveAbt) else RET_OK, c.traffic + [Sdo(dev, SaveCall)], c.after)
  }

  /** The caller's `rr_servo_t *` variable, which rr_change_id updates through its `rr_servo_t **` argument. */
  class ServoSlot {
    var servo: Servo?

    constructor (s: Servo?)
      ensures servo == s
    {
      servo := s;
    }
  }

  /**
   * rr_change_id: runs the steps in order and stops at the first failure;
   * a successful rr_deinit_servo clears *servo and rr_init_servo then
   * stores a fresh descriptor for the new id, with an empty cache.
   */
  method ChangeId(slot: ServoSlot, newId: Byte, writeAbt: AbortCode, resetSts: int, deinitOk: bool, initOk: bool)
      returns (status: int, traffic: seq<Traffic>)
    modifies slot
    ensures var s := old(slot.servo);
            var c := ChangeIdOutcome(s == null, if s == null then 0 else s.id, newId, writeAbt, resetSts, deinitOk, initOk);
            status == c.status && traffic == c.traffic &&
            (c.after == Kept ==> slot.servo == s) &&
            (c.after == Cleared ==> slot.servo == null) &&
            (c.after == Replaced ==> slot.servo != null && fresh(slot.servo) && slot.servo.Valid() && slot.servo.id == newId)
  {
    var s := slot.servo;
    var curId := if s == null then 0 else s.id;
    var g := ChangeIdGuard(s == null, curId, newId);
    if g.Decided? {
      return g.status, [];
    }
    traffic := [Sdo(curId, NodeIdCall(newId))];
    if writeAbt != CO_SDO_AB_NONE {
      return StatusOf(writeAbt), traffic;
    }
    traffic := traffic + [ResetCommunication];
    if resetSts != RET_OK {
      return resetSts, traffic;
    }
    traffic := traffic + [Deinit(curId)];
    if !deinitOk {
      return RET_ERROR, traffic;
    }
    slot.servo := null;
    traffic := traffic + [Init(newId)];
    if !initOk {
      return RET_BAD_INSTANCE, traffic;
    }
    slot.servo := new Servo(newId);
    status := RET_OK;
  }

  /** rr_change_id_and_save: rr_change_id, then the save request to the device *servo names. */
  method ChangeIdAndSave(slot: ServoSlot, newId: Byte, writeAbt: AbortCode, resetSts: int, deinitOk: bool, initOk: bool, saveAbt: AbortCode)
      returns (status: int, traffic: seq<Traffic>)
    modifies slot
    ensures var s := old(slot.servo);
            var c := ChangeIdAndSaveOutcome(s == null, if s == null then 0 else s.id, newId, writeAbt, resetSts, deinitOk, initOk, saveAbt);
            status == c.status && traffic == c.traffic &&
            (c.after == Kept ==> slot.servo == s) &&
            (c.after == Cleared ==> slot.servo == null) &&
            (c.after == Replaced ==> slot.servo != null && fresh(slot.servo) && slot.servo.Valid() && slot.servo.id == newId)
  {
    status, traffic := ChangeId(slot, newId, writeAbt, resetSts, deinitOk, initOk);
    if status != RET_OK {
      return;
    }
    traffic := traffic + [Sdo(slot.servo.id, SaveCall)];
    if saveAbt != CO_SDO_AB_NONE {
      return StatusOf(saveAbt), traffic;
    }
  }
}
