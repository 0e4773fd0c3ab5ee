// The programs' loops over the configuration file, one group at a time.
module SetupFile {
  import opened Records
  import opened Text
  import opened KeyFiles
  import opened Setup

  class SetupFile {
    var contents: KeyFile

    // savePilotState
    method Save(state: PilotState)
      requires |state.devices| < INT32_LIMIT && |state.pilots| < INT32_LIMIT
      modifies this
      ensures contents == Saved(old(contents), state)
    {
      var kf := RemoveGroup(contents, General);
      kf := Set(kf, General, SyncPCId, Int(ToInt32(state.syncPCid)));
      kf := Set(kf, General, ProgressStepping, Int(state.stepping));
      ghost var start := kf;
      assert start - {General} == contents - {General};
      assert start[General] == HostEntry(state);
      kf := SaveDevices(kf, state.devices);
      WithDevicesElsewhere(start, state.devices, General);
      if |state.devices| > 0 {
        kf := Set(kf, General, NumDevices, Int(|state.devices|));
      }
      ghost var middle := kf;
      kf := SavePilots(kf, state.pilots);
      WithPilotsElsewhere(middle, state.pilots, General);
      if |state.pilots| > 0 {
        kf := Set(kf, General, NumPilots, Int(|state.pilots|));
      }
      GeneralLast(contents, start, middle, kf, state);
      contents := kf;
    }

    // loadPilotState: the host's identity, then the pilots, then the devices
    method CappletLoad(env: Environment) returns (state: PilotState)
      ensures state == CappletLoaded(env, contents)
    {
      var general := GroupOf(contents, General);
      var id, host := GetInteger(general, SyncPCId), 0;
      if id.None? || id.value == 0 { host := env.random; } else { host := ToUint32(id.value); }
      var n, stepping := GetInteger(general, ProgressStepping), 5;
      if n.Some? { stepping := n.value; }
      var pilots: seq<Pilot> := [];
      var num := IntegerOrZero(general, NumPilots);
      var i := 0;
      while i < num
        invariant 0 <= i && (num >= 0 ==> i <= num) && (num < 0 ==> i == 0)
        invariant pilots == CappletPilots(env, contents, i)
      {
        pilots := pilots + [CappletPilot(env, GroupOf(contents, PilotGroup(i)), i)];
        i := i + 1;
      }
      var devices: seq<Device> := [];
      num := IntegerOrZero(general, NumDevices);
      i := 0;
      while i < num
        invariant 0 <= i && (num >= 0 ==> i <= num) && (num < 0 ==> i == 0)
        invariant devices == CappletDevices(contents, i)
      {
        devices := devices + [CappletDevice(GroupOf(contents, DeviceGroup(i)), i)];
        i := i + 1;
      }
      state := PilotState(host, stepping, devices, pilots);
    }

    // gpilot_context_init_user: the devices, the pilots, then the host's identity
    method DaemonLoad(env: Environment) returns (view: DaemonView)
      ensures view == DaemonLoaded(env, contents)
    {
      var general := GroupOf(contents, General);
      var devices: seq<Device> := [];
      var num := IntegerOrZero(general, NumDevices);
      var i := 0;
      while i < num
        invariant 0 <= i && (num >= 0 ==> i <= num) && (num < 0 ==> i == 0)
        invariant devices == DaemonDevices(contents, i)
      {
        devices := devices + [DaemonDevice(GroupOf(contents, DeviceGroup(i)))];
        i := i + 1;
      }
      var pilots: seq<Pilot> := [];
      num := IntegerOrZero(general, NumPilots);
      i := 0;
      while i < num
        invariant 0 <= i && (num >= 0 ==> i <= num) && (num < 0 ==> i == 0)
        invariant pilots == DaemonPilots(env, contents, i)
      {
        pilots := pilots + [DaemonPilot(env, GroupOf(contents, PilotGroup(i)), i)];
        i := i + 1;
      }
      view := DaemonView(ToUint32(IntegerOrZero(general, SyncPCId)), devices, pilots);
    }
  }

  method SaveDevices(file: KeyFile, devices: seq<Device>) returns (kf: KeyFile)
    ensures kf == WithDevices(file, devices)
  {
    kf := file;
    for i := 0 to |devices|
      invariant kf == WithDevices(file, devices[..i])
    {
      assert devices[..i + 1][..i] == devices[..i];
      kf := RemoveGroup(kf, DeviceGroup(i))[DeviceGroup(i) := DeviceEntry(devices[i])];
    }
    assert devices[..|devices|] == devices;
  }

  method SavePilots(file: KeyFile, pilots: seq<Pilot>) returns (kf: KeyFile)
    ensures kf == WithPilots(file, pilots)
  {
    kf := file;
    for i := 0 to |pilots|
      invariant kf == WithPilots(file, pilots[..i])
    {
      assert pilots[..i + 1][..i] == pilots[..i];
      kf := RemoveGroup(kf, PilotGroup(i))[PilotGroup(i) := PilotEntry(pilots[i])];
    }
    assert pilots[..|pilots|] == pilots;
  }

  // The rewritten groups, and all the others, one by one.
  lemma {:induction false} WithDevicesAt(kf: KeyFile, ds: seq<Device>, i: nat)
    requires i < |ds|
    ensures GroupOf(WithDevices(kf, ds), DeviceGroup(i)) == DeviceEntry(ds[i])
  {
    if i < |ds| - 1 { WithDevicesAt(kf, ds[..|ds| - 1], i); }
  }

  lemma {:induction false} WithDevicesElsewhere(kf: KeyFile, ds: seq<Device>, g: GroupName)
    requires !(g.DeviceGroup? && g.i < |ds|)
    ensures g in WithDevices(kf, ds) <==> g in kf
    ensures g in kf ==> WithDevices(kf, ds)[g] == kf[g]
  {
    if ds != [] { WithDevicesElsewhere(kf, ds[..|ds| - 1], g); }
  }

  lemma {:induction false} WithPilotsAt(kf: KeyFile, ps: seq<Pilot>, i: nat)
    requires i < |ps|
    ensures GroupOf(WithPilots(kf, ps), PilotGroup(i)) == PilotEntry(ps[i])
  {
    if i < |ps| - 1 { WithPilotsAt(kf, ps[..|ps| - 1], i); }
  }

  lemma {:induction false} WithPilotsElsewhere(kf: KeyFile, ps: seq<Pilot>, g: GroupName)
    requires !(g.PilotGroup? && g.i < |ps|)
    ensures g in WithPilots(kf, ps) <==> g in kf
    ensures g in kf ==> WithPilots(kf, ps)[g] == kf[g]
  {
    if ps != [] { WithPilotsElsewhere(kf, ps[..|ps| - 1], g); }
  }

  // Where General is written does not matter to the other groups.
  lemma {:induction false} DevicesCommute(a: KeyFile, b: KeyFile, ds: seq<Device>)
    requires a - {General} == b - {General}
    ensures WithDevices(a, ds) - {General} == WithDevices(b, ds) - {General}
  {
    if ds != [] {
      var init, g := ds[..|ds| - 1], DeviceGroup(|ds| - 1);
      DevicesCommute(a, b, init);
      SameButGeneral(WithDevices(a, init), WithDevices(b, init), g, DeviceEntry(ds[|ds| - 1]));
    }
  }

  lemma {:induction false} PilotsCommute(a: KeyFile, b: KeyFile, ps: seq<Pilot>)
    requires a - {General} == b - {General}
    ensures WithPilots(a, ps) - {General} == WithPilots(b, ps) - {General}
  {
    if ps != [] {
      var init, g := ps[..|ps| - 1], PilotGroup(|ps| - 1);
      PilotsCommute(a, b, init);
      SameButGeneral(WithPilots(a, init), WithPilots(b, init), g, PilotEntry(ps[|ps| - 1]));
    }
  }

  lemma SameButGeneral(a: KeyFile, b: KeyFile, g: GroupName, entry: Group)
    requires a - {General} == b - {General} && g != General
    ensures a[g := entry] - {General} == b[g := entry] - {General}
  {
    assert a[g := entry] - {General} == (a - {General})[g := entry];
    assert b[g := entry] - {General} == (b - {General})[g := entry];
  }

  lemma GeneralLast(before: KeyFile, start: KeyFile, middle: KeyFile, after: KeyFile, s: PilotState)
    requires |s.devices| < INT32_LIMIT && |s.pilots| < INT32_LIMIT
    requires start - {General} == before - {General}
    requires middle - {General} == WithDevices(start, s.devices) - {General}
    requires after - {General} == WithPilots(middle, s.pilots) - {General}
    requires General in after && after[General] == GeneralEntry(s)
    ensures after == Saved(before, s)
  {
    DevicesCommute(start, before, s.devices);
    PilotsCommute(middle, WithDevices(before, s.devices), s.pilots);
    var all := WithPilots(WithDevices(before, s.devices), s.pilots);
    assert after == (after - {General})[General := GeneralEntry(s)];
    assert Saved(before, s) == (all - {General})[General := GeneralEntry(s)];
  }
}
