// What the three Python binding modules share: the exceptions they raise,
// the ctypes conversions they apply to arguments and results, and the native
// library as a log of the calls made into it (the library's own behaviour is
// modelled by the C modules; here its results are inputs).
module PyRuntime {
  import Arith

  datatype Option<T> = None | Some(value: T)

  /** A value, or the exception a Python call raised instead. */
  datatype Result<T> = Ok(value: T) | Err(error: PyError)

  /**
   * The exceptions the bindings raise. Messages formatted with an identifier
   * or a name carry only their fixed text.
   */
  datatype PyError =
    | ServoError(status: int, message: string)
    | KeyError
    | AttributeError(message: string)
    | ArgumentError(message: string)

  /** A ctypes `c_void_p`; address 0 is NULL. */
  datatype CVoidP = CVoidP(addr: nat)

  /** `p.value`: ctypes reads a NULL pointer as None. */
  function PointerValue(p: CVoidP): (r: Option<nat>)
    ensures r.None? <==> p.addr == 0
    ensures r.Some? ==> r.value == p.addr
  {
    if p.addr == 0 then None else Some(p.addr)
  }

  /** A Python object as far as an `is None` test can tell. */
  datatype PyObject = PyNone | VoidP(p: CVoidP)

  /** `c_void_p(x)`: always a c_void_p object, whatever x is. */
  function WrapVoidP(addr: nat): (r: PyObject)
    ensures r != PyNone
  {
    VoidP(CVoidP(addr))
  }

  /** The guard as written: `obj is None`. */
  function IsNoneAsWritten(obj: PyObject): bool
  {
    obj == PyNone
  }

  /** The guard as written lets a wrapped NULL through. */
  lemma NullPassesGuardAsWritten()
    ensures !IsNoneAsWritten(WrapVoidP(0)) && PointerValue(CVoidP(0)).None?
  {
  }

  /** The guard as intended: `obj.value is None`, which holds exactly for a NULL pointer. */
  function IsNull(obj: PyObject): (r: bool)
    requires obj.VoidP?
    ensures r <==> obj.p.addr == 0
  {
    PointerValue(obj.p).None?
  }

  /** `c_uint8(x).value`: the low eight bits. */
  function CUint8(x: int): (r: int)
    ensures 0 <= r < 256 && (x - r) % 256 == 0
  {
    x % 256
  }

  /** `c_byte(x).value`: the low eight bits read as a signed byte. */
  function CByte(x: int): (r: int)
    ensures -128 <= r < 128 && (x - r) % 256 == 0
  {
    var b := x % 256;
    if b >= 128 then b - 256 else b
  }

  /** A `c_byte` handed to a C `uint8_t` parameter arrives as the same byte a `c_uint8` would. */
  lemma SignedByteArrivesUnsigned(x: int)
    ensures CByte(x) % 256 == CUint8(x)
    ensures 0 <= x < 256 ==> CByte(x) % 256 == x
  {
    Arith.ModUnique(CByte(x), 256, CByte(x) / 256, CUint8(x));
  }

  /** `c_uint32(x).value`: the low 32 bits. */
  function CUint32(x: int): (r: int)
    ensures 0 <= r < Arith.U32 && (x - r) % Arith.U32 == 0
  {
    x % Arith.U32
  }

  /** How a pointer argument is passed: by value, by `byref`, or (as written in one place) the library object itself. */
  datatype Arg = Ptr(addr: int) | PtrRef(addr: int) | LibraryObject

  /** A call into the native library, with its arguments as converted by ctypes. */
  datatype NativeCall =
    | RrInitInterface(name: string)
    | RrDeinitInterface(iface: Arg)
    | RrInitServo(iface: Arg, id: int)
    | RrChangeIdAndSave(iface: Arg, servo: Arg, newId: int)
    | RrAddMotionPoint(servo: Arg, pos: real, vel: real, timeMs: int)
    | RrAddMotionPointPvat(servo: Arg, pos: real, vel: real, accel: real, timeMs: int)
    | RrSetZeroPosition(servo: Arg, pos: real)
    | RrSleepMs(ms: int)

  /** The loaded native library (`CDLL`), seen through the calls made into it. */
  class Library {
    var calls: seq<NativeCall>

    constructor()
      ensures calls == []
    {
      calls := [];
    }

    method Invoke(c: NativeCall)
      modifies this
      ensures calls == old(calls) + [c]
    {
      calls := calls + [c];
    }
  }
}
