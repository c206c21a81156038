/** make_evdev_device: the selection, among the evdev devices a DualSense
    shows up as, of the controller, its motion sensor and its touchpad. */
module EvdevDiscovery {
  import opened Wrappers
  import opened Text
  import EvdevFusion

  /** An evdev device as the selection sees it: its phys string and the
      list of its absolute axes (get_axes). */
  datatype EvdevDevice = EvdevDevice(phys: string, axes: seq<int>)

  /** The chosen devices, as positions in the device list. */
  datatype DeviceTriple = DeviceTriple(controller: nat, gyro: nat, touchpad: nat)

  /** What a device is looked for as. The motion sensor and the touchpad
      must have a phys that starts with the given prefix. */
  datatype Role = ControllerRole | GyroRole(prefix: string) | TouchpadRole(prefix: string)

  predicate Plays(d: EvdevDevice, role: Role)
  {
    match role
    case ControllerRole => |d.axes| == 8
    case GyroRole(prefix) =>
      prefix <= d.phys && |d.axes| == 6 && EvdevFusion.ABS_MT_POSITION_X !in d.axes
    case TouchpadRole(prefix) =>
      prefix <= d.phys &&
      (|d.axes| == 4 || (|d.axes| == 6 && EvdevFusion.ABS_MT_POSITION_X in d.axes))
  }

  /** The roles split the devices: an 8-axis device is never taken as motion
      sensor or touchpad, and a 6-axis device goes to exactly one of the two
      by whether it reports ABS_MT_POSITION_X. */
  lemma RolesExclusive(d: EvdevDevice, prefix: string)
    ensures Plays(d, ControllerRole) ==> !Plays(d, GyroRole(prefix)) && !Plays(d, TouchpadRole(prefix))
    ensures !(Plays(d, GyroRole(prefix)) && Plays(d, TouchpadRole(prefix)))
    ensures prefix <= d.phys && |d.axes| == 6 ==> Plays(d, GyroRole(prefix)) || Plays(d, TouchpadRole(prefix))
  {
  }

  /** The last device that plays the role: each loop overwrites its choice. */
  function LastWith(ds: seq<EvdevDevice>, role: Role): (r: Option<nat>)
    ensures r.Some? ==> r.value < |ds| && Plays(ds[r.value], role) &&
                        forall j :: r.value < j < |ds| ==> !Plays(ds[j], role)
    ensures r.None? <==> forall j :: 0 <= j < |ds| ==> !Plays(ds[j], role)
  {
    if ds == [] then None
    else if Plays(ds[|ds| - 1], role) then Some(|ds| - 1)
    else LastWith(ds[..|ds| - 1], role)
  }

  /** device.phys.split("/")[0] */
  function PhysPrefix(d: EvdevDevice): (p: string)
    ensures p <= d.phys && '/' !in p
  {
    BeforeFirst(d.phys, '/')
  }

  predicate Chosen(ds: seq<EvdevDevice>, i: nat, role: Role)
  {
    i < |ds| && Plays(ds[i], role) && forall j :: i < j < |ds| ==> !Plays(ds[j], role)
  }

  /** make_evdev_device as written: the prefix is taken from `device`, the
      variable the first loop leaves behind, which is the LAST listed device
      and not necessarily the controller. */
  function Correlate(ds: seq<EvdevDevice>): (r: Option<DeviceTriple>)
    ensures r.None? <==>
      (forall j :: 0 <= j < |ds| ==> !Plays(ds[j], ControllerRole)) ||
      (forall j :: 0 <= j < |ds| ==> !Plays(ds[j], GyroRole(PhysPrefix(ds[|ds| - 1])))) ||
      (forall j :: 0 <= j < |ds| ==> !Plays(ds[j], TouchpadRole(PhysPrefix(ds[|ds| - 1]))))
    ensures r.Some? ==>
      var prefix := PhysPrefix(ds[|ds| - 1]);
      && Chosen(ds, r.value.controller, ControllerRole)
      && Chosen(ds, r.value.gyro, GyroRole(prefix))
      && Chosen(ds, r.value.touchpad, TouchpadRole(prefix))
  {
    match LastWith(ds, ControllerRole)
    case None => None
    case Some(c) =>
      var prefix := PhysPrefix(ds[|ds| - 1]);
      match (LastWith(ds, GyroRole(prefix)), LastWith(ds, TouchpadRole(prefix)))
      case (Some(g), Some(t)) => Some(DeviceTriple(c, g, t))
      case _ => None
  }

  lemma PrefixLastWith(ds: seq<EvdevDevice>, i: nat, role: Role)
    requires i < |ds|
    ensures LastWith(ds[..i + 1], role) ==
      if Plays(ds[i], role) then Some(i) else LastWith(ds[..i], role)
  {
    assert ds[..i + 1][..i] == ds[..i];
  }

  /** The first loop of make_evdev_device: the last 8-axis device. */
  method FindController(devices: seq<EvdevDevice>) returns (controller: Option<nat>)
    ensures controller == LastWith(devices, ControllerRole)
  {
    controller := None;
    for i := 0 to |devices|
      invariant controller == LastWith(devices[..i], ControllerRole)
    {
      PrefixLastWith(devices, i, ControllerRole);
      if |devices[i].axes| == 8 {
        controller := Some(i);
      }
    }
    assert devices[..|devices|] == devices;
  }

  /** The second loop: the last motion sensor and the last touchpad whose
      phys starts with prefix. */
  method FindSiblings(devices: seq<EvdevDevice>, prefix: string) returns (gyro: Option<nat>, touchpad: Option<nat>)
    ensures gyro == LastWith(devices, GyroRole(prefix))
    ensures touchpad == LastWith(devices, TouchpadRole(prefix))
  {
    gyro, touchpad := None, None;
    for i := 0 to |devices|
      invariant gyro == LastWith(devices[..i], GyroRole(prefix))
      invariant touchpad == LastWith(devices[..i], TouchpadRole(prefix))
    {
      PrefixLastWith(devices, i, GyroRole(prefix));
      PrefixLastWith(devices, i, TouchpadRole(prefix));
      if prefix <= devices[i].phys {
        var axes := devices[i].axes;
        if |axes| == 6 {
          if EvdevFusion.ABS_MT_POSITION_X in axes {
            touchpad := Some(i);
          } else {
            gyro := Some(i);
          }
        } else if |axes| == 4 {
          touchpad := Some(i);
        }
      }
    }
    assert devices[..|devices|] == devices;
  }

  /** make_evdev_device, from the device list on: None when either loop
      finds nothing for a role, the triple otherwise. */
  method MakeEvdevDevice(devices: seq<EvdevDevice>) returns (r: Option<DeviceTriple>)
    ensures r == Correlate(devices)
  {
    var controller := FindController(devices);
    if controller.None? {
      return None;
    }
    var prefix := PhysPrefix(devices[|devices| - 1]);
    var gyro, touchpad := FindSiblings(devices, prefix);
    if gyro.Some? && touchpad.Some? {
      r := Some(DeviceTriple(controller.value, gyro.value, touchpad.value));
    } else {
      r := None;
    }
  }

  /** The selection the comment in make_evdev_device describes: motion
      sensor and touchpad must share the controller's physical address. */
  function CorrelateIntended(ds: seq<EvdevDevice>): (r: Option<DeviceTriple>)
    ensures r.None? <==>
      LastWith(ds, ControllerRole).None? ||
      (var prefix := PhysPrefix(ds[LastWith(ds, ControllerRole).value]);
       (forall j :: 0 <= j < |ds| ==> !Plays(ds[j], GyroRole(prefix))) ||
       (forall j :: 0 <= j < |ds| ==> !Plays(ds[j], TouchpadRole(prefix))))
    ensures r.Some? ==> r.value.controller < |ds|
    ensures r.Some? ==>
      var prefix := PhysPrefix(ds[r.value.controller]);
      && Chosen(ds, r.value.controller, ControllerRole)
      && Chosen(ds, r.value.gyro, GyroRole(prefix))
      && Chosen(ds, r.value.touchpad, TouchpadRole(prefix))
  {
    match LastWith(ds, ControllerRole)
    case None => None
    case Some(c) =>
      var prefix := PhysPrefix(ds[c]);
      match (LastWith(ds, GyroRole(prefix)), LastWith(ds, TouchpadRole(prefix)))
      case (Some(g), Some(t)) => Some(DeviceTriple(c, g, t))
      case _ => None
  }

  /** A device listed after the others that is not a controller and does not
      share the controller's address does not change the intended selection. */
  lemma {:induction false} IntendedIgnoresUnrelated(ds: seq<EvdevDevice>, d: EvdevDevice)
    requires !Plays(d, ControllerRole)
    requires LastWith(ds, ControllerRole).Some? ==>
      !(PhysPrefix(ds[LastWith(ds, ControllerRole).value]) <= d.phys)
    ensures CorrelateIntended(ds + [d]) == CorrelateIntended(ds)
  {
    var all := ds + [d];
    assert all[..|ds|] == ds;
    assert LastWith(all, ControllerRole) == LastWith(ds, ControllerRole);
    if LastWith(ds, ControllerRole).Some? {
      var c := LastWith(ds, ControllerRole).value;
      assert all[c] == ds[c];
      var prefix := PhysPrefix(ds[c]);
      assert !Plays(d, GyroRole(prefix)) && !Plays(d, TouchpadRole(prefix));
      assert LastWith(all, GyroRole(prefix)) == LastWith(ds, GyroRole(prefix));
      assert LastWith(all, TouchpadRole(prefix)) == LastWith(ds, TouchpadRole(prefix));
    }
  }

  /** A controller, its motion sensor and its touchpad, all at address "a". */
  const SAMPLE_DEVICES: seq<EvdevDevice> := [
    EvdevDevice("a/0", [0, 1, 2, 3, 4, 5, 16, 17]),
    EvdevDevice("a/1", [0, 1, 2, 3, 4, 5]),
    EvdevDevice("a/2", [0, 1, 0x35, 0x36])]

  /** A device at another address, with no axes. */
  const STRAY_DEVICE := EvdevDevice("b/0", [])

  lemma SampleCorrelates()
    ensures Correlate(SAMPLE_DEVICES) == Some(DeviceTriple(0, 1, 2))
    ensures CorrelateIntended(SAMPLE_DEVICES) == Some(DeviceTriple(0, 1, 2))
  {
    var ds := SAMPLE_DEVICES;
    assert PhysPrefix(ds[0]) == "a" by { assert ds[0].phys[1] == '/'; }
    assert PhysPrefix(ds[2]) == "a" by { assert ds[2].phys[1] == '/'; }
    assert LastWith(ds, ControllerRole) == Some(0);
    assert LastWith(ds, GyroRole("a")) == Some(1);
    assert LastWith(ds, TouchpadRole("a")) == Some(2);
  }

  lemma StrayLastMatchesNothing()
    ensures Correlate(SAMPLE_DEVICES + [STRAY_DEVICE]) == None
  {
    var all := SAMPLE_DEVICES + [STRAY_DEVICE];
    assert PhysPrefix(all[3]) == "b" by { assert all[3].phys[1] == '/'; }
    assert forall j :: 0 <= j < |all| ==> !Plays(all[j], GyroRole("b"));
  }

  /** The same controller, motion sensor and touchpad, once with a device of
      another address listed last: as written the prefix comes from that last
      device, nothing matches it, and no controller is made; the intended
      selection still finds all three. */
  lemma LastDeviceDecidesPrefix()
    ensures Correlate(SAMPLE_DEVICES) == Some(DeviceTriple(0, 1, 2))
    ensures Correlate(SAMPLE_DEVICES + [STRAY_DEVICE]) == None
    ensures CorrelateIntended(SAMPLE_DEVICES + [STRAY_DEVICE]) == Some(DeviceTriple(0, 1, 2))
  {
    SampleCorrelates();
    StrayLastMatchesNothing();
    assert PhysPrefix(SAMPLE_DEVICES[0]) == "a" by { assert SAMPLE_DEVICES[0].phys[1] == '/'; }
    assert !("a" <= STRAY_DEVICE.phys);
    IntendedIgnoresUnrelated(SAMPLE_DEVICES, STRAY_DEVICE);
  }
}
