// The earliest Python binding, python/rozum/servo.py: a ServoApi that latches
// one library and one interface, an Interface whose servo registry keeps
// whatever handle rr_init_servo returns, and Servo.set_zero_position. No
// restype is declared there, so ctypes reads every returned handle as a C int.
module RozumServo {
  import opened PyRuntime
  import Arith

  /** `ServoApi.__LIBRARY_NAME`. */
  const LibraryName: string := "libservo_api.so"
  const WrongLibraryPath: string := "Expected that path to library contains libservo_api.so"
  const LibraryNotLoaded: string := "Library not loaded. Consider call api.load_library(path_to_library) first."
  const InterfaceNotInitialized: string := "Interface not initialized. Call api.init_interface(interface_name) first."
  /** What Python says when `Interface(None, name)` looks up rr_init_interface on None. */
  const NoLibraryObject: string := "'NoneType' object has no attribute 'rr_init_interface'"
  /**
   * ctypes' refusal of an argument it has no conversion for (a CDLL object
   * here). Only the kind of the error is exact: ctypes also puts the name of
   * the underlying exception class into the text, in a form that depends on
   * the Python version, and that part is not kept.
   */
  const CannotConvert: string := "argument 1: Don't know how to convert parameter 1"

  /** Python's `sub in s` on strings: `sub` occurs somewhere in `s`. */
  predicate Contains(s: string, sub: string)
    decreases |s|
  {
    if |s| < |sub| then false else s[..|sub|] == sub || Contains(s[1..], sub)
  }

  /** Any path with the library's name somewhere in it passes the `in` test. */
  lemma {:induction false} ContainsInfix(p: string, sub: string, q: string)
    ensures Contains(p + sub + q, sub)
    decreases |p|
  {
    if p == [] {
      assert p + sub + q == sub + q;
      assert (sub + q)[..|sub|] == sub;
    } else {
      ContainsInfix(p[1..], sub, q);
      assert (p + sub + q)[1..] == p[1..] + sub + q;
    }
  }

  /**
   * The handle Python holds after a call whose restype was left at the
   * default c_int: the pointer's low 32 bits read as a signed int.
   */
  function ReturnedHandleAsWritten(addr: nat): (r: int)
    ensures -0x8000_0000 <= r < 0x8000_0000 && (r - addr) % Arith.U32 == 0
  {
    Arith.ToInt32(addr)
  }

  /** As written, a handle survives the return only when it lies below 2^31. */
  lemma HandleKeptAsWrittenIff(addr: nat)
    ensures ReturnedHandleAsWritten(addr) == addr <==> addr < 0x8000_0000
  {
  }

  /** A typical 64-bit heap address loses its upper half on the way back. */
  lemma HandleTruncatedAsWritten()
    ensures ReturnedHandleAsWritten(0x5555_5555_0000) == 0x5555_0000
  {
  }

  /** The handle with restype c_void_p, as the later bindings declare it: the pointer itself. */
  function ReturnedHandle(addr: nat): (r: CVoidP)
    ensures r.addr == addr
    ensures PointerValue(r).None? <==> addr == 0
  {
    CVoidP(addr)
  }

  class Servo {
    const api: Library
    const handle: CVoidP
    const id: int

    constructor(api: Library, handle: CVoidP, id: int)
      ensures this.api == api && this.handle == handle && this.id == id
    {
      this.api := api;
      this.handle := handle;
      this.id := id;
    }

    /**
     * `set_zero_position` as written: the library object goes where the
     * servo handle belongs, ctypes refuses it, and nothing reaches the servo.
     */
    method SetZeroPositionAsWritten(pos: real) returns (r: Option<PyError>)
      modifies api
      ensures r == Some(ArgumentError(CannotConvert))
      ensures api.calls == old(api.calls)
    {
      r := Some(ArgumentError(CannotConvert));
    }

    /** `set_zero_position` with the servo's handle: one native call, its status dropped. */
    method SetZeroPosition(pos: real) returns (r: Option<PyError>)
      modifies api
      ensures r == None
      ensures api.calls == old(api.calls) + [RrSetZeroPosition(Ptr(handle.addr), pos)]
    {
      api.Invoke(RrSetZeroPosition(Ptr(handle.addr), pos));
      r := None;
    }
  }

  class Interface {
    const api: Library
    const handle: CVoidP
    var servos: map<int, Servo>

    /** Every registered servo is filed under its own identifier and uses this interface's library. */
    predicate Valid()
      reads this
    {
      forall k :: k in servos ==> servos[k].id == k && servos[k].api == api
    }

    /** `Interface.__init__`: rr_init_interface, whose result is `native`; no check follows. */
    constructor(api: Library, name: string, native: nat)
      modifies api
      ensures this.api == api && handle == ReturnedHandle(native) && servos == map[]
      ensures api.calls == old(api.calls) + [RrInitInterface(name)]
      ensures Valid()
    {
      this.api := api;
      handle := ReturnedHandle(native);
      servos := map[];
      new;
      api.Invoke(RrInitInterface(name));
    }

    /**
     * `init_servo`: get-or-create per identifier. A new identifier costs one
     * rr_init_servo call and is registered with whatever handle came back,
     * NULL included.
     */
    method InitServo(id: int, native: nat) returns (s: Servo)
      requires Valid()
      modifies this, api
      ensures Valid()
      ensures id in old(servos) ==> s == old(servos)[id] && servos == old(servos) && api.calls == old(api.calls)
      ensures id !in old(servos) ==>
                api.calls == old(api.calls) + [RrInitServo(Ptr(handle.addr), CUint8(id))] &&
                fresh(s) && s.handle == ReturnedHandle(native) && s.id == id &&
                servos == old(servos)[id := s]
    {
      if id !in servos {
        api.Invoke(RrInitServo(Ptr(handle.addr), CUint8(id)));
        var made := new Servo(api, ReturnedHandle(native), id);
        servos := servos[id := made];
      }
      s := servos[id];
    }
  }

  class ServoApi {
    var lib: Option<Library>
    var iface: Option<Interface>

    /** An interface exists only once a library is loaded, and it uses that library. */
    predicate Valid()
      reads this
      reads if iface.Some? then {iface.value} else {}
    {
      iface.Some? ==> lib.Some? && iface.value.api == lib.value && iface.value.Valid()
    }

    /** `ServoApi.__init__`: neither a library nor an interface. */
    constructor()
      ensures lib == None && iface == None && Valid()
    {
      lib := None;
      iface := None;
    }

    /**
     * The `interface` property: the library check first, then the interface
     * check, each raising AttributeError with its own message.
     */
    function GetInterface(): (r: Result<Interface>)
      reads this
      ensures r.Ok? <==> lib.Some? && iface.Some?
      ensures r.Ok? ==> r.value == iface.value
      ensures lib.None? ==> r == Err(AttributeError(LibraryNotLoaded))
      ensures lib.Some? && iface.None? ==> r == Err(AttributeError(InterfaceNotInitialized))
    {
      if lib.None? then Err(AttributeError(LibraryNotLoaded))
      else if iface.None? then Err(AttributeError(InterfaceNotInitialized))
      else Ok(iface.value)
    }

    /**
     * `load_library`: a path without "libservo_api.so" in it raises; any
     * other path loads `loaded` unless a library is already in place, in
     * which case nothing changes.
     */
    method LoadLibrary(path: string, loaded: Library) returns (r: Option<PyError>)
      requires Valid()
      modifies this
      ensures Valid()
      ensures iface == old(iface)
      ensures !Contains(path, LibraryName) ==> r == Some(ArgumentError(WrongLibraryPath)) && lib == old(lib)
      ensures Contains(path, LibraryName) ==> r == None && lib == if old(lib).None? then Some(loaded) else old(lib)
    {
      if !Contains(path, LibraryName) {
        return Some(ArgumentError(WrongLibraryPath));
      }
      if lib.None? {
        lib := Some(loaded);
      }
      r := None;
    }

    /**
     * `init_interface`: only the first successful call opens an interface;
     * later calls do nothing, whatever name they pass. Without a library,
     * the attribute lookup on None raises and nothing is latched.
     */
    method InitInterface(name: string, native: nat) returns (r: Option<PyError>)
      requires Valid()
      modifies this, if lib.Some? then {lib.value} else {}
      ensures Valid()
      ensures lib == old(lib)
      ensures old(iface).Some? ==> r == None && iface == old(iface) && lib.value.calls == old(lib.value.calls)
      ensures old(iface).None? && lib.None? ==> r == Some(AttributeError(NoLibraryObject)) && iface == None
      ensures old(iface).None? && lib.Some? ==>
                r == None && iface.Some? && fresh(iface.value) &&
                iface.value.handle == ReturnedHandle(native) && iface.value.servos == map[] &&
                lib.value.calls == old(lib.value.calls) + [RrInitInterface(name)]
    {
      if iface.None? {
        if lib.None? {
          return Some(AttributeError(NoLibraryObject));
        }
        var made := new Interface(lib.value, name, native);
        iface := Some(made);
      }
      r := None;
    }

    /** `init_servo`: the `interface` property's errors, or the interface's own get-or-create. */
    method InitServo(id: int, native: nat) returns (r: Result<Servo>)
      requires Valid()
      modifies if iface.Some? then {iface.value} else {}, if lib.Some? then {lib.value} else {}
      ensures Valid()
      ensures old(GetInterface()).Err? ==> r == Err(old(GetInterface()).error)
      ensures old(GetInterface()).Ok? ==>
                var it := iface.value;
                r.Ok? && r.value.id == id && id in it.servos && r.value == it.servos[id] &&
                (id in old(it.servos) ==> r.value == old(it.servos)[id] && it.servos == old(it.servos)) &&
                (id !in old(it.servos) ==> r.value.handle == ReturnedHandle(native) && it.servos.Keys == old(it.servos).Keys + {id})
    {
      var it := GetInterface();
      if it.Err? {
        return Err(it.error);
      }
      var s := it.value.InitServo(id, native);
      r := Ok(s);
    }
  }
}
