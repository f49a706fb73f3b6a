// The registries of the legacy Python binding python/rozum/servo/api.py: the
// per-interface servo registry (whose change_id_and_save forgets the old
// identifier whatever the outcome), the per-name interface registry, the
// singleton metaclass and Servo.set_zero_position.
module RozumApi {
  import opened PyRuntime

  const ServoInitFailed: string := "Failed to initialize servo by id"
  const InterfaceInitFailed: string := "Failed to initialize interface by name"

  /**
   * ctypes' refusal of an argument it has no conversion for (a CDLL object
   * here). Only the kind of the error is exact: ctypes also puts the name of
   * the underlying exception class into the text, in a form that depends on
   * the Python version, and that part is not kept.
   */
  const CannotConvert: string := "argument 1: Don't know how to convert parameter 1"

  /**
   * The arguments of a call without declared argtypes, as ctypes converts
   * them: pointers pass, the library object is refused before the call.
   */
  function Marshal(a: Arg): (r: Result<Arg>)
    ensures r.Err? <==> a.LibraryObject?
    ensures r.Ok? ==> r.value == a
  {
    if a.LibraryObject? then Err(ArgumentError(CannotConvert)) else Ok(a)
  }

  /**
   * rr_change_id_and_save takes the servo as `rr_servo_t **` (c/src/api.c:1692)
   * so that it can replace the handle; only a reference to the handle fits.
   */
  predicate FitsServoSlot(a: Arg)
  {
    a.PtrRef?
  }

  /** The servo argument change_id_and_save passes, as written: the handle by value. */
  function ChangeIdServoArgAsWritten(servo: CVoidP): Arg
  {
    Ptr(servo.addr)
  }

  /** The servo argument as the C signature needs it: `byref(handle)`. */
  function ChangeIdServoArg(servo: CVoidP): (a: Arg)
    ensures FitsServoSlot(a) && a.addr == servo.addr
  {
    PtrRef(servo.addr)
  }

  /** As written, the handle itself reaches a parameter that needs the handle's address. */
  lemma ChangeIdServoArgMismatch(servo: CVoidP)
    ensures !FitsServoSlot(ChangeIdServoArgAsWritten(servo))
    ensures ChangeIdServoArgAsWritten(servo) != ChangeIdServoArg(servo)
  {
  }

  class Servo {
    const api: Library
    const handle: CVoidP
    const id: int

    constructor(api: Library, handle: CVoidP, id: int)
      ensures this.api == api && this.handle == handle && this.id == id
    {
      this.api := api;
      this.handle := handle;
      this.id := id;
    }

    /**
     * `set_zero_position` as written: it hands the library object itself to
     * rr_set_zero_position, which ctypes refuses, so the servo is never
     * reached and the call raises.
     */
    method SetZeroPositionAsWritten(pos: real) returns (r: Result<int>)
      modifies api
      ensures r == Err(ArgumentError(CannotConvert))
      ensures api.calls == old(api.calls)
    {
      var arg := Marshal(LibraryObject);
      r := Err(arg.error);
    }

    /** `set_zero_position` with this servo's handle: one native call, its status returned. */
    method SetZeroPosition(pos: real, status: int) returns (r: Result<int>)
      modifies api
      ensures r == Ok(status)
      ensures api.calls == old(api.calls) + [RrSetZeroPosition(Ptr(handle.addr), pos)]
    {
      var arg := Marshal(Ptr(handle.addr));
      api.Invoke(RrSetZeroPosition(arg.value, pos));
      r := Ok(status);
    }
  }

  class Interface {
    const api: Library
    const handle: CVoidP
    var servos: map<int, Servo>

    /** Every registered servo is filed under its own identifier and uses this interface's library. */
    predicate Valid()
      reads this
    {
      forall k :: k in servos ==> servos[k].id == k && servos[k].api == api
    }

    /**
     * `Interface.__init__`: rr_init_interface, whose result (0 for NULL) is
     * `native`. The NULL check is made by ServoApi.InitInterface before the
     * object is registered.
     */
    constructor(api: Library, name: string, native: nat)
      modifies api
      ensures this.api == api && handle == CVoidP(native) && servos == map[]
      ensures api.calls == old(api.calls) + [RrInitInterface(name)]
      ensures Valid()
    {
      this.api := api;
      handle := CVoidP(native);
      servos := map[];
      new;
      api.Invoke(RrInitInterface(name));
    }

    /**
     * `init_servo`: get-or-create per identifier; a new identifier costs one
     * rr_init_servo call, whose NULL result (`native` == 0) is rejected (the
     * source's `is None` test cannot see it; see NullPassesGuardAsWritten).
     */
    method InitServo(id: int, native: nat) returns (r: Result<Servo>)
      requires Valid()
      modifies this, api
      ensures Valid()
      ensures id in old(servos) ==> r == Ok(old(servos)[id]) && servos == old(servos) && api.calls == old(api.calls)
      ensures id !in old(servos) ==> api.calls == old(api.calls) + [RrInitServo(Ptr(handle.addr), CByte(id))]
      ensures id !in old(servos) && native == 0 ==> r == Err(AttributeError(ServoInitFailed)) && servos == old(servos)
      ensures id !in old(servos) && native != 0 ==>
                r.Ok? && fresh(r.value) && r.value.handle == CVoidP(native) && r.value.id == id &&
                servos == old(servos)[id := r.value]
    {
      if id !in servos {
        api.Invoke(RrInitServo(Ptr(handle.addr), CByte(id)));
        var p := WrapVoidP(native);
        if IsNull(p) {
          return Err(AttributeError(ServoInitFailed));
        }
        var s := new Servo(api, p.p, id);
        servos := servos[id := s];
      }
      r := Ok(servos[id]);
    }

    /**
     * `change_id_and_save`: looks the servo up (creating it if need be),
     * calls rr_change_id_and_save, then forgets the old identifier whatever
     * status came back, and returns that status. The new identifier is not
     * registered. The servo is passed by reference, as the C signature needs.
     */
    method ChangeIdAndSave(oldId: int, newId: int, native: nat, status: int) returns (r: Result<int>)
      requires Valid()
      modifies this, api
      ensures Valid()
      ensures oldId !in old(servos) && native == 0 ==>
                r == Err(AttributeError(ServoInitFailed)) && servos == old(servos) &&
                api.calls == old(api.calls) + [RrInitServo(Ptr(handle.addr), CByte(oldId))]
      ensures oldId in old(servos) || native != 0 ==>
                var servo := if oldId in old(servos) then old(servos)[oldId].handle else CVoidP(native);
                var lookup := if oldId in old(servos) then [] else [RrInitServo(Ptr(handle.addr), CByte(oldId))];
                api.calls == old(api.calls) + lookup + [RrChangeIdAndSave(Ptr(handle.addr), ChangeIdServoArg(servo), CUint8(newId))] &&
                r == Ok(status) &&
                servos.Keys == old(servos).Keys - {oldId}
    {
      var s := InitServo(oldId, native);
      if s.Err? {
        return Err(s.error);
      }
      api.Invoke(RrChangeIdAndSave(Ptr(handle.addr), ChangeIdServoArg(s.value.handle), CUint8(newId)));
      servos := servos - {oldId};
      r := Ok(status);
    }
  }

  class ServoApi {
    const api: Library
    var interfaces: map<string, Interface>

    /** Every registered interface uses this object's library. */
    predicate Valid()
      reads this
    {
      forall n :: n in interfaces ==> interfaces[n].api == api
    }

    /**
     * `ServoApi.__init__` once the library is loaded (a failing load raises
     * first): a 100 ms rr_sleep_ms, then an empty interface registry.
     */
    constructor(api: Library)
      modifies api
      ensures this.api == api && interfaces == map[] && Valid()
      ensures api.calls == old(api.calls) + [RrSleepMs(100)]
    {
      this.api := api;
      interfaces := map[];
      new;
      api.Invoke(RrSleepMs(100));
    }

    /**
     * `init_interface`: get-or-create by name; a new name costs one
     * rr_init_interface call and is registered unless that returned NULL.
     */
    method InitInterface(name: string, native: nat) returns (r: Result<Interface>)
      requires Valid()
      modifies this, api
      ensures Valid()
      ensures name in old(interfaces) ==> r == Ok(old(interfaces)[name]) && interfaces == old(interfaces) && api.calls == old(api.calls)
      ensures name !in old(interfaces) ==> api.calls == old(api.calls) + [RrInitInterface(name)]
      ensures name !in old(interfaces) && native == 0 ==> r == Err(AttributeError(InterfaceInitFailed)) && interfaces == old(interfaces)
      ensures name !in old(interfaces) && native != 0 ==>
                r.Ok? && fresh(r.value) && r.value.handle == CVoidP(native) && r.value.servos == map[] &&
                interfaces == old(interfaces)[name := r.value]
    {
      if name !in interfaces {
        var iface := new Interface(api, name, native);
        if IsNull(WrapVoidP(iface.handle.addr)) {
          return Err(AttributeError(InterfaceInitFailed));
        }
        interfaces := interfaces[name := iface];
      }
      r := Ok(interfaces[name]);
    }
  }

  /** `_Singleton._instances`: one instance per class that uses the metaclass. */
  class Singleton {
    var instances: map<string, ServoApi>

    constructor()
      ensures instances == map[]
    {
      instances := map[];
    }

    /**
     * `_Singleton.__call__`: the first call for a class constructs the
     * instance (whose constructor sleeps 100 ms through the library); every
     * later call returns the same object and touches nothing.
     */
    method Call(cls: string, lib: Library) returns (obj: ServoApi)
      modifies this, lib
      ensures cls in old(instances) ==> obj == old(instances)[cls] && instances == old(instances) && lib.calls == old(lib.calls)
      ensures cls !in old(instances) ==>
                fresh(obj) && obj.api == lib && obj.interfaces == map[] && instances == old(instances)[cls := obj] &&
                lib.calls == old(lib.calls) + [RrSleepMs(100)]
    {
      if cls !in instances {
        var made := new ServoApi(lib);
        instances := instances[cls := made];
      }
      obj := instances[cls];
    }
  }
}
