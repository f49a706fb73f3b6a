// The registries of the current Python binding (python/rdrive/servo/api.py):
// ServoError.handle, Servo.add_motion_point, the per-interface servo
// registry, the per-name interface registry and the singleton metaclass.
module RdriveApi {
  import opened PyRuntime
  import PyConstants

  /**
   * `ServoError.handle(code)`: nothing for RET_OK, otherwise a ServoError
   * carrying the code and its RET_STATUS_MESSAGE text; a code outside the
   * table fails the dictionary lookup itself.
   */
  function Handle(code: int): (r: Option<PyError>)
    ensures r == None <==> code == 0
    ensures 0 < code < 11 ==> r == Some(ServoError(code, PyConstants.RetMessages[code]))
    ensures (code < 0 || code >= 11) ==> r == Some(KeyError)
  {
    PyConstants.StatusMessageTable();
    if code == 0 then None
    else if code in PyConstants.RetStatusMessage() then Some(ServoError(code, PyConstants.RetStatusMessage()[code]))
    else Some(KeyError)
  }

  /** The native entry point `add_motion_point` calls: PVAT exactly when an acceleration is given. */
  function MotionCall(servo: Arg, pos: real, vel: real, accel: Option<real>, timeMs: int): (c: NativeCall)
    ensures c.RrAddMotionPointPvat? <==> accel.Some?
    ensures c.RrAddMotionPointPvat? ==> c == RrAddMotionPointPvat(servo, pos, vel, accel.value, CUint32(timeMs))
    ensures c.RrAddMotionPoint? ==> c == RrAddMotionPoint(servo, pos, vel, CUint32(timeMs))
  {
    if accel.Some? then RrAddMotionPointPvat(servo, pos, vel, accel.value, CUint32(timeMs))
    else RrAddMotionPoint(servo, pos, vel, CUint32(timeMs))
  }

  const ServoInitFailed: string := "Failed to initialize servo by id"
  const InterfaceInitFailed: string := "Failed to initialize interface by name"

  class Servo {
    const api: Library
    /** The c_void_p `servo_interface`; rr_change_id_and_save rewrites it through byref. */
    var handle: CVoidP
    const id: int

    constructor(api: Library, handle: CVoidP, id: int)
      ensures this.api == api && this.handle == handle && this.id == id
    {
      this.api := api;
      this.handle := handle;
      this.id := id;
    }

    /** `add_motion_point`: one native call, its status through ServoError.handle. */
    method AddMotionPoint(pos: real, vel: real, accel: Option<real>, timeMs: int, status: int) returns (r: Option<PyError>)
      modifies api
      ensures api.calls == old(api.calls) + [MotionCall(Ptr(handle.addr), pos, vel, accel, timeMs)]
      ensures r == Handle(status)
    {
      api.Invoke(MotionCall(Ptr(handle.addr), pos, vel, accel, timeMs));
      r := Handle(status);
    }
  }

  class Interface {
    const api: Library
    const handle: CVoidP
    var servos: map<int, Servo>

    /** Every registered servo is filed under its own identifier and uses this interface's library. */
    predicate Valid()
      reads this
    {
      forall k :: k in servos ==> servos[k].id == k && servos[k].api == api
    }

    /**
     * `Interface.__init__`: opens the bus through rr_init_interface, whose
     * result (0 for NULL) is `native`. The NULL check is made by the caller,
     * ServoApi.InitInterface, before the object is used.
     */
    constructor(api: Library, name: string, native: nat)
      modifies api
      ensures this.api == api && handle == CVoidP(native) && servos == map[]
      ensures api.calls == old(api.calls) + [RrInitInterface(name)]
      ensures Valid()
    {
      this.api := api;
      handle := CVoidP(native);
      servos := map[];
      new;
      api.Invoke(RrInitInterface(name));
    }

    /**
     * `init_servo`: get-or-create by identifier. A known identifier returns
     * the registered Servo and makes no native call; otherwise rr_init_servo
     * is called and its result `native` wrapped. A NULL result is rejected
     * (the source's `is None` test cannot see it; see NullPassesGuardAsWritten).
     */
    method InitServo(id: int, native: nat) returns (r: Result<Servo>)
      requires Valid()
      modifies this, api
      ensures Valid()
      ensures id in old(servos) ==> r == Ok(old(servos)[id]) && servos == old(servos) && api.calls == old(api.calls)
      ensures id !in old(servos) ==> api.calls == old(api.calls) + [RrInitServo(Ptr(handle.addr), CByte(id))]
      ensures id !in old(servos) && native == 0 ==> r == Err(AttributeError(ServoInitFailed)) && servos == old(servos)
      ensures id !in old(servos) && native != 0 ==>
                r.Ok? && fresh(r.value) && r.value.handle == CVoidP(native) && r.value.id == id &&
                servos == old(servos)[id := r.value]
    {
      if id !in servos {
        api.Invoke(RrInitServo(Ptr(handle.addr), CByte(id)));
        var p := WrapVoidP(native);
        if IsNull(p) {
          return Err(AttributeError(ServoInitFailed));
        }
        var s := new Servo(api, p.p, id);
        servos := servos[id := s];
      }
      r := Ok(servos[id]);
    }

    /**
     * `change_id_and_save`: looks the servo up (creating it if need be), asks
     * the library to move it to `newId`, raises on a failed status with the
     * old identifier still registered, and on success forgets the old
     * identifier without registering the new one. The handle is passed by
     * reference, and `after` is what the library left in it: rr_change_id
     * may have cleared or replaced it even when the call then fails.
     */
    method ChangeIdAndSave(oldId: int, newId: int, native: nat, status: int, after: nat) returns (r: Option<PyError>)
      requires Valid()
      modifies this, api, servos.Values
      ensures Valid()
      ensures oldId !in old(servos) && native == 0 ==>
                r == Some(AttributeError(ServoInitFailed)) && servos == old(servos) &&
                api.calls == old(api.calls) + [RrInitServo(Ptr(handle.addr), CByte(oldId))]
      ensures oldId in old(servos) || native != 0 ==>
                var servo := if oldId in old(servos) then old(servos[oldId].handle) else CVoidP(native);
                var lookup := if oldId in old(servos) then [] else [RrInitServo(Ptr(handle.addr), CByte(oldId))];
                api.calls == old(api.calls) + lookup + [RrChangeIdAndSave(Ptr(handle.addr), PtrRef(servo.addr), CUint8(newId))] &&
                r == Handle(status) &&
                (oldId in old(servos) ==> old(servos)[oldId].handle == CVoidP(after)) &&
                (status == 0 ==> servos.Keys == old(servos).Keys - {oldId}) &&
                (status != 0 ==> servos.Keys == old(servos).Keys + {oldId} && oldId in servos && servos[oldId].handle == CVoidP(after))
      ensures forall k :: k in old(servos) && k != oldId ==>
                k in servos && servos[k] == old(servos[k]) && servos[k].handle == old(servos[k].handle)
    {
      var s := InitServo(oldId, native);
      if s.Err? {
        return Some(s.error);
      }
      var servo := s.value;
      api.Invoke(RrChangeIdAndSave(Ptr(handle.addr), PtrRef(servo.handle.addr), CUint8(newId)));
      servo.handle := CVoidP(after);
      r := Handle(status);
      if r.None? {
        servos := servos - {oldId};
      }
    }
  }

  class ServoApi {
    const api: Library
    var interfaces: map<string, Interface>

    /** Every registered interface uses this object's library. */
    predicate Valid()
      reads this
    {
      forall n :: n in interfaces ==> interfaces[n].api == api
    }

    /** `ServoApi.__init__` with the library already loaded (a failing load raises before this). */
    constructor(api: Library)
      ensures this.api == api && interfaces == map[] && Valid()
    {
      this.api := api;
      interfaces := map[];
    }

    /**
     * `init_interface`: get-or-create by name. A known name returns the
     * registered Interface and makes no native call; a new one is opened and
     * registered unless rr_init_interface returned NULL, which raises and
     * registers nothing.
     */
    method InitInterface(name: string, native: nat) returns (r: Result<Interface>)
      requires Valid()
      modifies this, api
      ensures Valid()
      ensures name in old(interfaces) ==> r == Ok(old(interfaces)[name]) && interfaces == old(interfaces) && api.calls == old(api.calls)
      ensures name !in old(interfaces) ==> api.calls == old(api.calls) + [RrInitInterface(name)]
      ensures name !in old(interfaces) && native == 0 ==> r == Err(AttributeError(InterfaceInitFailed)) && interfaces == old(interfaces)
      ensures name !in old(interfaces) && native != 0 ==>
                r.Ok? && fresh(r.value) && r.value.handle == CVoidP(native) && r.value.servos == map[] &&
                interfaces == old(interfaces)[name := r.value]
    {
      if name !in interfaces {
        var iface := new Interface(api, name, native);
        if IsNull(WrapVoidP(iface.handle.addr)) {
          return Err(AttributeError(InterfaceInitFailed));
        }
        interfaces := interfaces[name := iface];
      }
      r := Ok(interfaces[name]);
    }

    /**
     * `deinit_interface`: an unknown name fails the lookup before any native
     * call; otherwise rr_deinit_interface is called and the name is dropped
     * only when it returns RET_OK.
     */
    method DeinitInterface(name: string, status: int) returns (r: Option<PyError>)
      requires Valid()
      modifies this, api
      ensures Valid()
      ensures name !in old(interfaces) ==> r == Some(KeyError) && interfaces == old(interfaces) && api.calls == old(api.calls)
      ensures name in old(interfaces) ==>
                api.calls == old(api.calls) + [RrDeinitInterface(PtrRef(old(interfaces)[name].handle.addr))] &&
                r == Handle(status) &&
                interfaces == if status == 0 then old(interfaces) - {name} else old(interfaces)
    {
      if name !in interfaces {
        return Some(KeyError);
      }
      api.Invoke(RrDeinitInterface(PtrRef(interfaces[name].handle.addr)));
      r := Handle(status);
      if r.None? {
        interfaces := interfaces - {name};
      }
    }
  }

  /** `_Singleton._instances`: one instance per class that uses the metaclass. */
  class Singleton {
    var instances: map<string, ServoApi>

    constructor()
      ensures instances == map[]
    {
      instances := map[];
    }

    /**
     * `_Singleton.__call__`: the first call for a class constructs the
     * instance and records it; every later call returns that same object and
     * constructs nothing.
     */
    method Call(cls: string, lib: Library) returns (obj: ServoApi)
      modifies this
      ensures cls in old(instances) ==> obj == old(instances)[cls] && instances == old(instances)
      ensures cls !in old(instances) ==>
                fresh(obj) && obj.api == lib && obj.interfaces == map[] && instances == old(instances)[cls := obj]
    {
      if cls !in instances {
        var made := new ServoApi(lib);
        instances := instances[cls := made];
      }
      obj := instances[cls];
    }
  }
}
