// The status and parameter tables of the Python bindings (python/rozum/constants.py
// and the same declarations at the head of python/rozum/servo.py), and their
// agreement with the C enumerations rr_ret_status_t and rr_servo_param_t.
module PyConstants {
  import ServoApi

  /** A ctypes `c_int` object; `.value` is the wrapped integer. */
  datatype CInt = CInt(value: int)

  predicate Distinct<T(==)>(s: seq<T>)
  {
    forall i, j :: 0 <= i < j < |s| ==> s[i] != s[j]
  }

  /** No later position of `keys` repeats the key at position i. */
  predicate LastAt<K(==)>(keys: seq<K>, i: int)
    requires 0 <= i < |keys|
  {
    forall j :: i < j < |keys| ==> keys[j] != keys[i]
  }

  /**
   * Binding keys to values left to right, a later binding of the same key
   * replacing an earlier one: what both a tuple-target assignment
   * `(a, b, ...) = values` and a dict comprehension over pairs do. A tuple
   * target raises ValueError unless the counts agree, hence the precondition.
   */
  function Bind<K(==, !new), V>(keys: seq<K>, vals: seq<V>): (r: map<K, V>)
    requires |keys| == |vals|
    ensures forall k :: k in r <==> k in keys
    ensures forall i :: 0 <= i < |keys| && LastAt(keys, i) ==> r[keys[i]] == vals[i]
    decreases |keys|
  {
    if keys == [] then map[]
    else
      var rest := Bind(keys[1..], vals[1..]);
      assert forall i :: 1 <= i < |keys| && LastAt(keys, i) ==> LastAt(keys[1..], i - 1);
      map[keys[0] := vals[0]] + rest
  }

  /** `list(map(c_int, range(first, first + n)))`. */
  function CInts(first: int, n: nat): (r: seq<CInt>)
  {
    seq(n, i => CInt(first + i))
  }

  /**
   * Numbering of a C enumeration whose first enumerator is written `= first`
   * and whose others carry no initialiser, so each is one more than the one
   * before it.
   */
  function CEnum<N(==, !new)>(names: seq<N>, first: int): (r: map<N, int>)
    ensures forall k :: k in r <==> k in names
    decreases |names|
  {
    if names == [] then map[] else map[names[0] := first] + CEnum(names[1..], first + 1)
  }

  /** The enumerator at position i is `first + i` (C forbids repeating a name). */
  lemma {:induction false} CEnumAt<N(!new)>(names: seq<N>, first: int, i: int)
    requires 0 <= i < |names| && LastAt(names, i)
    ensures CEnum(names, first)[names[i]] == first + i
    decreases |names|
  {
    if i > 0 {
      assert LastAt(names[1..], i - 1);
      CEnumAt(names[1..], first + 1, i - 1);
      assert names[1..][i - 1] == names[i];
    }
  }

  /**
   * For any list of names, the Python tuple numbering from `first` binds every
   * name to a c_int holding the value the C enumeration gives it.
   */
  lemma {:induction false} NumberingAgrees<N(!new)>(names: seq<N>, first: int)
    ensures var m := Bind(names, CInts(first, |names|));
            forall k :: (k in m <==> k in CEnum(names, first)) && (k in m ==> m[k].value == CEnum(names, first)[k])
    decreases |names|
  {
    if names != [] {
      var vals := CInts(first, |names|);
      assert vals[1..] == CInts(first + 1, |names| - 1);
      assert Bind(names, vals) == map[names[0] := vals[0]] + Bind(names[1..], vals[1..]);
      assert CEnum(names, first) == map[names[0] := first] + CEnum(names[1..], first + 1);
      NumberingAgrees(names[1..], first + 1);
    }
  }

  /** The last name of a tuple target is bound to the last value. */
  lemma BindLast<K(!new), V>(keys: seq<K>, vals: seq<V>)
    requires |keys| == |vals| > 0
    ensures Bind(keys, vals)[keys[|keys| - 1]] == vals[|vals| - 1]
  {
    assert LastAt(keys, |keys| - 1);
  }

  /**
   * Unpacking `range(n)` into n distinct names binds the name at position i
   * to a c_int holding i, the number the C enumeration starting at 0 gives it.
   */
  lemma UnpackRange<N(!new)>(names: seq<N>, vals: seq<CInt>)
    requires Distinct(names) && vals == CInts(0, |names|)
    ensures forall i :: 0 <= i < |names| ==> Bind(names, vals)[names[i]].value == i == CEnum(names, 0)[names[i]]
  {
    forall i | 0 <= i < |names|
      ensures Bind(names, vals)[names[i]].value == i == CEnum(names, 0)[names[i]]
    {
      assert LastAt(names, i);
      CEnumAt(names, 0, i);
    }
  }

  // ---------------------------------------------------------------------------
  // Return statuses

  /** The names RET_STATUS_T and rr_ret_status_t declare, as identifiers. */
  datatype StatusName =
    RET_OK | RET_ERROR | RET_BAD_INSTANCE | RET_BUSY | RET_WRONG_TRAJ | RET_LOCKED | RET_STOPPED |
    RET_TIMEOUT | RET_ZERO_SIZE | RET_SIZE_MISMATCH | RET_WRONG_ARG

  /** RET_STATUS_T's (and rr_ret_status_t's) names in declaration order. */
  const RetStatusNames: seq<StatusName> :=
    [RET_OK, RET_ERROR, RET_BAD_INSTANCE, RET_BUSY, RET_WRONG_TRAJ, RET_LOCKED, RET_STOPPED,
     RET_TIMEOUT, RET_ZERO_SIZE, RET_SIZE_MISMATCH, RET_WRONG_ARG]

  /** The tuple RET_STATUS_T: `list(map(c_int, range(11)))`. */
  function RetStatusT(): seq<CInt>
  {
    CInts(0, 11)
  }

  /** The status codes as the C library defines them. */
  const CRetCodes: seq<int> :=
    [ServoApi.RET_OK, ServoApi.RET_ERROR, ServoApi.RET_BAD_INSTANCE, ServoApi.RET_BUSY,
     ServoApi.RET_WRONG_TRAJ, ServoApi.RET_LOCKED, ServoApi.RET_STOPPED, ServoApi.RET_TIMEOUT,
     ServoApi.RET_ZERO_SIZE, ServoApi.RET_SIZE_MISMATCH, ServoApi.RET_WRONG_ARG]

  /**
   * RET_OK..RET_WRONG_ARG unpack without error, to c_int objects holding
   * 0..10 in declaration order, the numbers rr_ret_status_t gives the same
   * names and the codes the C library returns.
   */
  lemma RetStatusCodes()
    ensures |RetStatusNames| == |RetStatusT()| == 11
    ensures forall i :: 0 <= i < 11 ==>
              Bind(RetStatusNames, RetStatusT())[RetStatusNames[i]].value == i == CEnum(RetStatusNames, 0)[RetStatusNames[i]]
  {
    assert Distinct(RetStatusNames);
    UnpackRange(RetStatusNames, RetStatusT());
  }

  /** The codes the C model returns are the numbers rr_ret_status_t gives RET_OK..RET_WRONG_ARG. */
  lemma CRetCodesNumbered()
    ensures |CRetCodes| == 11
    ensures forall i :: 0 <= i < 11 ==> CRetCodes[i] == i
  {
  }

  /** RET_MESSAGES, one per status. */
  const RetMessages: seq<string> :=
    ["Status OK", "Generic error", "Bad interface or servo instance (null)", "Device is busy",
     "Wrong trajectory", "Device is locked", "Device is in STOPPED state", "Communication timeout",
     "Zero size", "Received & target size mismatch", "Wrong function argument"]

  /** `{x[0].value: x[1] for x in zip(codes, msgs)}`: zip stops at the shorter sequence. */
  function DictOfZip(codes: seq<CInt>, msgs: seq<string>): map<int, string>
  {
    var n := if |codes| <= |msgs| then |codes| else |msgs|;
    Bind(seq(n, i requires 0 <= i < n => codes[i].value), msgs[..n])
  }

  /** RET_STATUS_MESSAGE. */
  function RetStatusMessage(): map<int, string>
  {
    DictOfZip(RetStatusT(), RetMessages)
  }

  /** RET_STATUS_MESSAGE maps each status 0..10 to its message and has no other key. */
  lemma StatusMessageTable()
    ensures forall k :: k in RetStatusMessage() <==> 0 <= k < 11
    ensures forall k :: 0 <= k < 11 ==> RetStatusMessage()[k] == RetMessages[k]
  {
    var codes := seq(11, i requires 0 <= i < 11 => RetStatusT()[i].value);
    assert forall i :: 0 <= i < 11 ==> codes[i] == i;
    forall k | 0 <= k < 11
      ensures k in codes
    {
      assert codes[k] == k;
    }
    assert forall i :: 0 <= i < 11 ==> LastAt(codes, i);
    assert RetMessages[..11] == RetMessages;
  }

  // ---------------------------------------------------------------------------
  // Servo parameters

  /** The names SERVO_PARAM_T and rr_servo_param_t declare, as identifiers. */
  datatype ParamName =
    APP_PARAM_NULL | APP_PARAM_POSITION | APP_PARAM_VELOCITY | APP_PARAM_POSITION_ROTOR |
    APP_PARAM_VELOCITY_ROTOR | APP_PARAM_POSITION_GEAR_360 | APP_PARAM_POSITION_GEAR_EMULATED |
    APP_PARAM_CURRENT_INPUT | APP_PARAM_CURRENT_OUTPUT | APP_PARAM_VOLTAGE_INPUT |
    APP_PARAM_VOLTAGE_OUTPUT | APP_PARAM_CURRENT_PHASE | APP_PARAM_TEMPERATURE_ACTUATOR |
    APP_PARAM_TEMPERATURE_ELECTRONICS | APP_PARAM_TORQUE | APP_PARAM_ACCELERATION |
    APP_PARAM_ACCELERATION_ROTOR | APP_PARAM_CURRENT_PHASE_1 | APP_PARAM_CURRENT_PHASE_2 |
    APP_PARAM_CURRENT_PHASE_3 | APP_PARAM_CURRENT_RAW | APP_PARAM_CURRENT_RAW_2 |
    APP_PARAM_CURRENT_RAW_3 | APP_PARAM_ENCODER_MASTER_TRACK | APP_PARAM_ENCODER_NONIUS_TRACK |
    APP_PARAM_ENCODER_MOTOR_MASTER_TRACK | APP_PARAM_ENCODER_MOTOR_NONIUS_TRACK |
    APP_PARAM_TORQUE_ELECTRIC_CALC | APP_PARAM_CONTROLLER_VELOCITY_ERROR |
    APP_PARAM_CONTROLLER_VELOCITY_SETPOINT | APP_PARAM_CONTROLLER_VELOCITY_FEEDBACK |
    APP_PARAM_CONTROLLER_VELOCITY_OUTPUT | APP_PARAM_CONTROLLER_POSITION_ERROR |
    APP_PARAM_CONTROLLER_POSITION_SETPOINT | APP_PARAM_CONTROLLER_POSITION_FEEDBACK |
    APP_PARAM_CONTROLLER_POSITION_OUTPUT | APP_PARAM_CONTROL_MODE | APP_PARAM_FOC_ANGLE |
    APP_PARAM_FOC_IA | APP_PARAM_FOC_IB | APP_PARAM_FOC_IQ_SET | APP_PARAM_FOC_ID_SET |
    APP_PARAM_FOC_IQ | APP_PARAM_FOC_ID | APP_PARAM_FOC_IQ_ERROR | APP_PARAM_FOC_ID_ERROR |
    APP_PARAM_FOC_UQ | APP_PARAM_FOC_UD | APP_PARAM_FOC_UA | APP_PARAM_FOC_UB | APP_PARAM_FOC_U1 |
    APP_PARAM_FOC_U2 | APP_PARAM_FOC_U3 | APP_PARAM_FOC_PWM1 | APP_PARAM_FOC_PWM2 |
    APP_PARAM_FOC_PWM3 | APP_PARAM_FOC_TIMER_TOP | APP_PARAM_DUTY | APP_PARAM_SIZE

  /** SERVO_PARAM_T's (and rr_servo_param_t's) names in declaration order. */
  const ServoParamNames: seq<ParamName> :=
    [APP_PARAM_NULL, APP_PARAM_POSITION, APP_PARAM_VELOCITY, APP_PARAM_POSITION_ROTOR,
     APP_PARAM_VELOCITY_ROTOR, APP_PARAM_POSITION_GEAR_360, APP_PARAM_POSITION_GEAR_EMULATED,
     APP_PARAM_CURRENT_INPUT, APP_PARAM_CURRENT_OUTPUT, APP_PARAM_VOLTAGE_INPUT,
     APP_PARAM_VOLTAGE_OUTPUT, APP_PARAM_CURRENT_PHASE, APP_PARAM_TEMPERATURE_ACTUATOR,
     APP_PARAM_TEMPERATURE_ELECTRONICS, APP_PARAM_TORQUE, APP_PARAM_ACCELERATION,
     APP_PARAM_ACCELERATION_ROTOR, APP_PARAM_CURRENT_PHASE_1, APP_PARAM_CURRENT_PHASE_2,
     APP_PARAM_CURRENT_PHASE_3, APP_PARAM_CURRENT_RAW, APP_PARAM_CURRENT_RAW_2,
     APP_PARAM_CURRENT_RAW_3, APP_PARAM_ENCODER_MASTER_TRACK, APP_PARAM_ENCODER_NONIUS_TRACK,
     APP_PARAM_ENCODER_MOTOR_MASTER_TRACK, APP_PARAM_ENCODER_MOTOR_NONIUS_TRACK,
     APP_PARAM_TORQUE_ELECTRIC_CALC, APP_PARAM_CONTROLLER_VELOCITY_ERROR,
     APP_PARAM_CONTROLLER_VELOCITY_SETPOINT, APP_PARAM_CONTROLLER_VELOCITY_FEEDBACK,
     APP_PARAM_CONTROLLER_VELOCITY_OUTPUT, APP_PARAM_CONTROLLER_POSITION_ERROR,
     APP_PARAM_CONTROLLER_POSITION_SETPOINT, APP_PARAM_CONTROLLER_POSITION_FEEDBACK,
     APP_PARAM_CONTROLLER_POSITION_OUTPUT, APP_PARAM_CONTROL_MODE, APP_PARAM_FOC_ANGLE,
     APP_PARAM_FOC_IA, APP_PARAM_FOC_IB, APP_PARAM_FOC_IQ_SET, APP_PARAM_FOC_ID_SET,
     APP_PARAM_FOC_IQ, APP_PARAM_FOC_ID, APP_PARAM_FOC_IQ_ERROR, APP_PARAM_FOC_ID_ERROR,
     APP_PARAM_FOC_UQ, APP_PARAM_FOC_UD, APP_PARAM_FOC_UA, APP_PARAM_FOC_UB, APP_PARAM_FOC_U1,
     APP_PARAM_FOC_U2, APP_PARAM_FOC_U3, APP_PARAM_FOC_PWM1, APP_PARAM_FOC_PWM2, APP_PARAM_FOC_PWM3,
     APP_PARAM_FOC_TIMER_TOP, APP_PARAM_DUTY, APP_PARAM_SIZE]

  /** The tuple SERVO_PARAM_T: `list(map(c_int, range(59)))`. */
  function ServoParamT(): seq<CInt>
  {
    CInts(0, 59)
  }

  /**
   * SERVO_PARAM_T unpacks without error: 59 names, 59 values 0..58 in
   * declaration order. APP_PARAM_SIZE, the last name, is bound to the last
   * value (see BindLast), 58: the parameter count the C library sizes its
   * cache with.
   */
  lemma ServoParamCodes()
    ensures |ServoParamNames| == |ServoParamT()| == 59
    ensures forall i :: 0 <= i < 59 ==> ServoParamT()[i].value == i
    ensures ServoParamNames[58] == APP_PARAM_SIZE && ServoParamT()[58].value == ServoApi.APP_PARAM_SIZE
  {
  }
}
