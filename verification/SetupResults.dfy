// What the capplet and the daemon read back from a saved setup, whatever the
// file held before.
module SetupResults {
  import opened Records
  import opened Text
  import opened KeyFiles
  import opened Setup
  import opened SetupFile

  predicate Savable(s: PilotState) {
    |s.devices| < INT32_LIMIT && |s.pilots| < INT32_LIMIT
  }

  // The parts of a device its kind has a place for: kinds 0, 1 and 2 are on a port,
  // kind 4 is a network and kind 5 a bluetooth device.
  function KeptByCapplet(d: Device, i: nat): Device {
    var named := if d.name.Some? then d else d.(name := Some("Cradle" + Decimal(i)));
    if d.kind == 4 then named.(port := None, speed := 0)
    else if d.kind == 5 then named.(port := None, speed := 0, ip := None)
    else named.(ip := None)
  }

  // The daemon names nothing, and reads no port for a kind it does not know.
  function KeptByDaemon(d: Device): Device {
    if 0 <= d.kind <= 2 then d.(ip := None)
    else if d.kind == 4 then d.(port := None, speed := 0)
    else d.(port := None, speed := 0, ip := None)
  }

  lemma DeviceThroughCapplet(d: Device, i: nat)
    ensures CappletDevice(DeviceEntry(d), i) == KeptByCapplet(d, i)
  {
    UnsignedRoundTrip(d.speed);
  }

  lemma DeviceThroughDaemon(d: Device)
    ensures DaemonDevice(DeviceEntry(d)) == KeptByDaemon(d)
  {
    UnsignedRoundTrip(d.speed);
  }

  // An unsigned long written as an integer and read again.
  function Narrowed(n: ulong): ulong {
    ToUlong(ToInt32(n))
  }

  // It survives exactly when its upper half repeats the sign of its lower half.
  lemma NarrowedExactly(n: ulong)
    ensures Narrowed(n) == n <==> n < INT32_LIMIT || n >= ULONG_LIMIT - INT32_LIMIT
  {
    var low := n % UINT32_LIMIT;
    if low >= INT32_LIMIT {
      assert (low - UINT32_LIMIT) % ULONG_LIMIT == low - UINT32_LIMIT + ULONG_LIMIT;
    }
  }

  lemma NarrowedOnce(i: int32)
    ensures Narrowed(ToUlong(i)) == ToUlong(i)
  {
    NarrowedExactly(ToUlong(i));
  }

  function KeptPilot(p: Pilot, i: nat): Pilot {
    p.(number := i, password := None, creation := Narrowed(p.creation), romversion := Narrowed(p.romversion))
  }

  function DefaultCharset(env: Environment): Option<string> {
    if env.charset.Some? then env.charset else Some(DEFAULT_CHARSET)
  }

  lemma PilotThroughDaemon(env: Environment, p: Pilot, i: nat)
    ensures DaemonPilot(env, PilotEntry(p), i) ==
            KeptPilot(p, i).(charset := if p.charset.Some? then p.charset else DefaultCharset(env))
  {
    UnsignedRoundTrip(p.pilotId);
  }

  // A name and a base directory the capplet makes up when there is none.
  function NamedByCapplet(p: Pilot): string {
    if p.name.Some? then p.name.value else "MyPilot"
  }

  function PlacedByCapplet(env: Environment, p: Pilot): string {
    if p.basedir.Some? then p.basedir.value else env.home + "/" + NamedByCapplet(p)
  }

  lemma PilotThroughCapplet(env: Environment, p: Pilot, i: nat)
    ensures CappletPilot(env, PilotEntry(p), i) ==
            KeptPilot(p, i).(name := Some(NamedByCapplet(p)), charset := None,
                             basedir := Some(PlacedByCapplet(env, p)))
  {
    UnsignedRoundTrip(p.pilotId);
  }

  lemma SavedGroups(kf: KeyFile, s: PilotState)
    requires Savable(s)
    ensures Count(Saved(kf, s), NumDevices) == |s.devices| && Count(Saved(kf, s), NumPilots) == |s.pilots|
    ensures forall i: nat :: i < |s.devices| ==>
              GroupOf(Saved(kf, s), DeviceGroup(i)) == DeviceEntry(s.devices[i])
    ensures forall i: nat :: i < |s.pilots| ==>
              GroupOf(Saved(kf, s), PilotGroup(i)) == PilotEntry(s.pilots[i])
    ensures GroupOf(Saved(kf, s), General) == GeneralEntry(s)
  {
    var kf' := WithDevices(kf, s.devices);
    forall i: nat | i < |s.devices|
      ensures GroupOf(Saved(kf, s), DeviceGroup(i)) == DeviceEntry(s.devices[i])
    {
      WithDevicesAt(kf, s.devices, i);
      WithPilotsElsewhere(kf', s.pilots, DeviceGroup(i));
    }
    forall i: nat | i < |s.pilots|
      ensures GroupOf(Saved(kf, s), PilotGroup(i)) == PilotEntry(s.pilots[i])
    {
      WithPilotsAt(kf', s.pilots, i);
    }
  }

  // What the capplet reads back: the same devices and pilots in the same order,
  // with only the parts that are stored.
  lemma CappletReadsBack(env: Environment, kf: KeyFile, s: PilotState)
    requires Savable(s)
    ensures var back := CappletLoaded(env, Saved(kf, s));
            && back.syncPCid == (if s.syncPCid == 0 then env.random else s.syncPCid)
            && back.stepping == s.stepping
            && |back.devices| == |s.devices| && |back.pilots| == |s.pilots|
            && (forall i :: 0 <= i < |s.devices| ==> back.devices[i] == KeptByCapplet(s.devices[i], i))
            && (forall i :: 0 <= i < |s.pilots| ==>
                  back.pilots[i] == KeptPilot(s.pilots[i], i).(
                    name := Some(NamedByCapplet(s.pilots[i])), charset := None,
                    basedir := Some(PlacedByCapplet(env, s.pilots[i]))))
  {
    SavedGroups(kf, s);
    UnsignedRoundTrip(s.syncPCid);
    forall i: nat | i < |s.devices| { DeviceThroughCapplet(s.devices[i], i); }
    forall i: nat | i < |s.pilots| { PilotThroughCapplet(env, s.pilots[i], i); }
  }

  lemma DaemonReadsBack(env: Environment, kf: KeyFile, s: PilotState)
    requires Savable(s)
    ensures var back := DaemonLoaded(env, Saved(kf, s));
            && back.syncPCid == s.syncPCid
            && |back.devices| == |s.devices| && |back.pilots| == |s.pilots|
            && (forall i :: 0 <= i < |s.devices| ==> back.devices[i] == KeptByDaemon(s.devices[i]))
            && (forall i :: 0 <= i < |s.pilots| ==>
                  back.pilots[i] == KeptPilot(s.pilots[i], i).(charset :=
                    if s.pilots[i].charset.Some? then s.pilots[i].charset else DefaultCharset(env)))
  {
    SavedGroups(kf, s);
    UnsignedRoundTrip(s.syncPCid);
    forall i: nat | i < |s.devices| { DeviceThroughDaemon(s.devices[i]); }
    forall i: nat | i < |s.pilots| { PilotThroughDaemon(env, s.pilots[i], i); }
  }

  // What the two readers make of a group without keys.
  lemma Defaults(env: Environment, i: nat)
    ensures CappletDevice(map[], i) == Cradle(SERIAL, Some("Cradle" + Decimal(i)), None, 9600, None, 2)
    ensures DaemonDevice(map[]) == Cradle(SERIAL, None, None, 57600, None, 3)
    ensures CappletPilot(env, map[], i) ==
            Pda(i, Some("MyPilot"), env.uid, None, None, 0, 0, Some(env.home + "/" + "MyPilot"), None)
    ensures DaemonPilot(env, map[], i) == Pda(i, None, 0, None, None, 0, 0, None, DefaultCharset(env))
  {
  }

  // A password, which the capplet never writes, is read by the daemon only.
  lemma PasswordIsRead(env: Environment, g: Group, i: nat, password: string)
    ensures DaemonPilot(env, g[Password := Str(password)], i) ==
            DaemonPilot(env, g, i).(password := Some(password))
    ensures CappletPilot(env, g[Password := Str(password)], i) == CappletPilot(env, g, i)
  {
  }

  // And of a file without General: no device, no pilot, a stepping of 5, and the
  // capplet makes up the host's identity.
  lemma DefaultsOfFile(env: Environment, kf: KeyFile)
    requires General !in kf
    ensures CappletLoaded(env, kf) == PilotState(env.random, 5, [], [])
    ensures DaemonLoaded(env, kf) == DaemonView(0, [], [])
  {
  }

  // A count that is missing or not positive is none, and a saved file has a count
  // exactly where there is something to count.
  lemma Counts(env: Environment, kf: KeyFile, s: PilotState)
    ensures IntegerOrZero(GroupOf(kf, General), NumDevices) <= 0 ==>
              CappletLoaded(env, kf).devices == [] && DaemonLoaded(env, kf).devices == []
    ensures IntegerOrZero(GroupOf(kf, General), NumPilots) <= 0 ==>
              CappletLoaded(env, kf).pilots == [] && DaemonLoaded(env, kf).pilots == []
    ensures Savable(s) ==>
              && (NumDevices in GroupOf(Saved(kf, s), General) <==> s.devices != [])
              && (NumPilots in GroupOf(Saved(kf, s), General) <==> s.pilots != [])
  {
  }

  // Whatever the file held before, stale groups included, both programs read the same.
  lemma PriorFileIrrelevant(env: Environment, one: KeyFile, other: KeyFile, s: PilotState)
    requires Savable(s)
    ensures CappletLoaded(env, Saved(one, s)) == CappletLoaded(env, Saved(other, s))
    ensures DaemonLoaded(env, Saved(one, s)) == DaemonLoaded(env, Saved(other, s))
  {
    CappletIgnoresPrior(env, one, other, s);
    DaemonIgnoresPrior(env, one, other, s);
  }

  lemma CappletIgnoresPrior(env: Environment, one: KeyFile, other: KeyFile, s: PilotState)
    requires Savable(s)
    ensures CappletLoaded(env, Saved(one, s)) == CappletLoaded(env, Saved(other, s))
  {
    CappletReadsBack(env, one, s);
    CappletReadsBack(env, other, s);
    SameState(CappletLoaded(env, Saved(one, s)), CappletLoaded(env, Saved(other, s)));
  }

  lemma DaemonIgnoresPrior(env: Environment, one: KeyFile, other: KeyFile, s: PilotState)
    requires Savable(s)
    ensures DaemonLoaded(env, Saved(one, s)) == DaemonLoaded(env, Saved(other, s))
  {
    DaemonReadsBack(env, one, s);
    DaemonReadsBack(env, other, s);
    SameView(DaemonLoaded(env, Saved(one, s)), DaemonLoaded(env, Saved(other, s)));
  }

  lemma SameState(a: PilotState, b: PilotState)
    requires a.syncPCid == b.syncPCid && a.stepping == b.stepping
    requires |a.devices| == |b.devices| && forall i :: 0 <= i < |a.devices| ==> a.devices[i] == b.devices[i]
    requires |a.pilots| == |b.pilots| && forall i :: 0 <= i < |a.pilots| ==> a.pilots[i] == b.pilots[i]
    ensures a == b
  {
    assert a.devices == b.devices && a.pilots == b.pilots;
  }

  lemma SameView(a: DaemonView, b: DaemonView)
    requires a.syncPCid == b.syncPCid
    requires |a.devices| == |b.devices| && forall i :: 0 <= i < |a.devices| ==> a.devices[i] == b.devices[i]
    requires |a.pilots| == |b.pilots| && forall i :: 0 <= i < |a.pilots| ==> a.pilots[i] == b.pilots[i]
    ensures a == b
  {
    assert a.devices == b.devices && a.pilots == b.pilots;
  }

  // A device and a pilot that use only what is stored.
  predicate PlainDevice(d: Device) {
    && d.name.Some?
    && (d.kind == NETWORK || d.kind == BLUETOOTH ==> d.port.None? && d.speed == 0)
    && (d.kind != NETWORK ==> d.ip.None?)
  }

  predicate Fits(n: ulong) {
    n < INT32_LIMIT || n >= ULONG_LIMIT - INT32_LIMIT
  }

  predicate PlainPilot(p: Pilot, i: nat) {
    && p.number == i && p.name.Some? && p.basedir.Some? && p.password.None? && p.charset.None?
    && Fits(p.creation) && Fits(p.romversion)
  }

  predicate Plain(env: Environment, s: PilotState) {
    && (s.syncPCid != 0 || env.random == 0)
    && (forall i :: 0 <= i < |s.devices| ==> PlainDevice(s.devices[i]))
    && (forall i :: 0 <= i < |s.pilots| ==> PlainPilot(s.pilots[i], i))
  }

  lemma PlainDeviceExactly(d: Device, i: nat)
    ensures KeptByCapplet(d, i) == d <==> PlainDevice(d)
  {
  }

  lemma PlainPilotExactly(env: Environment, p: Pilot, i: nat)
    ensures PlainPilot(p, i) <==>
            p == KeptPilot(p, i).(name := Some(NamedByCapplet(p)), charset := None,
                                  basedir := Some(PlacedByCapplet(env, p)))
  {
    NarrowedExactly(p.creation);
    NarrowedExactly(p.romversion);
  }

  // The capplet reads back the very state it saved, exactly when that state uses
  // only what the file has a place for.
  lemma CappletRoundTripExactly(env: Environment, kf: KeyFile, s: PilotState)
    requires Savable(s)
    ensures CappletLoaded(env, Saved(kf, s)) == s <==> Plain(env, s)
  {
    CappletReadsBack(env, kf, s);
    var back := CappletLoaded(env, Saved(kf, s));
    forall i: nat | i < |s.devices| ensures back.devices[i] == s.devices[i] <==> PlainDevice(s.devices[i]) {
      PlainDeviceExactly(s.devices[i], i);
    }
    forall i: nat | i < |s.pilots| ensures back.pilots[i] == s.pilots[i] <==> PlainPilot(s.pilots[i], i) {
      PlainPilotExactly(env, s.pilots[i], i);
    }
    if Plain(env, s) {
      assert back.devices == s.devices && back.pilots == s.pilots;
    }
  }

  // Whatever file it started from, a state the capplet loaded survives its saving.
  lemma LoadSaveLoad(env: Environment, kf: KeyFile, kf': KeyFile)
    ensures CappletLoaded(env, Saved(kf', CappletLoaded(env, kf))) == CappletLoaded(env, kf)
  {
    var s := CappletLoaded(env, kf);
    forall i: nat | i < |s.pilots| ensures PlainPilot(s.pilots[i], i) {
      var g := GroupOf(kf, PilotGroup(i));
      NarrowedOnce(IntegerOrZero(g, Creation));
      NarrowedExactly(s.pilots[i].creation);
      NarrowedOnce(IntegerOrZero(g, Romversion));
      NarrowedExactly(s.pilots[i].romversion);
    }
    CappletRoundTripExactly(env, kf', s);
  }

  predicate ReadAlike(d: Device) {
    d.name.Some? && (Known(d.kind) || (d.port.None? && d.speed == 0))
  }

  lemma ReadAlikeExactly(d: Device, i: nat)
    ensures KeptByCapplet(d, i) == KeptByDaemon(d) <==> ReadAlike(d)
  {
  }

  // The two programs read a saved device alike exactly when it has a name, and a
  // kind the daemon knows or else no port and no speed.
  lemma DevicesReadAlikeExactly(env: Environment, kf: KeyFile, s: PilotState)
    requires Savable(s)
    ensures CappletLoaded(env, Saved(kf, s)).devices == DaemonLoaded(env, Saved(kf, s)).devices <==>
            forall i :: 0 <= i < |s.devices| ==> ReadAlike(s.devices[i])
  {
    CappletReadsBack(env, kf, s);
    DaemonReadsBack(env, kf, s);
    DevicesAlike(s.devices, CappletLoaded(env, Saved(kf, s)).devices, DaemonLoaded(env, Saved(kf, s)).devices);
  }

  lemma DevicesAlike(ds: seq<Device>, a: seq<Device>, b: seq<Device>)
    requires |a| == |b| == |ds|
    requires forall i :: 0 <= i < |ds| ==> a[i] == KeptByCapplet(ds[i], i) && b[i] == KeptByDaemon(ds[i])
    ensures a == b <==> forall i :: 0 <= i < |ds| ==> ReadAlike(ds[i])
  {
    forall i: nat | i < |ds| ensures a[i] == b[i] <==> ReadAlike(ds[i]) {
      ReadAlikeExactly(ds[i], i);
    }
  }

  // Charsets aside, they read a saved pilot alike exactly when it has a name and
  // a base directory.
  lemma PilotsReadAlikeExactly(env: Environment, kf: KeyFile, s: PilotState, i: nat)
    requires Savable(s) && i < |s.pilots|
    ensures CappletLoaded(env, Saved(kf, s)).pilots[i] ==
            DaemonLoaded(env, Saved(kf, s)).pilots[i].(charset := None) <==>
            s.pilots[i].name.Some? && s.pilots[i].basedir.Some?
  {
    CappletReadsBack(env, kf, s);
    DaemonReadsBack(env, kf, s);
  }

  // The capplet forgets charsets: loading a saved setup and saving it again leaves
  // the daemon a pilot's charset exactly when that is the default one.
  lemma ResavingKeepsCharsetExactly(env: Environment, kf: KeyFile, kf': KeyFile, s: PilotState, i: nat)
    requires Savable(s) && i < |s.pilots| && s.pilots[i].charset.Some?
    ensures var back := CappletLoaded(env, Saved(kf, s));
            && i < |back.pilots|
            && i < |DaemonLoaded(env, Saved(kf', back)).pilots|
            && (DaemonLoaded(env, Saved(kf', back)).pilots[i].charset == s.pilots[i].charset <==>
                s.pilots[i].charset == DefaultCharset(env))
  {
    CappletReadsBack(env, kf, s);
    DaemonReadsBack(env, kf', CappletLoaded(env, Saved(kf, s)));
  }
}
