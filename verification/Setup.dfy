// The daemon's configuration file: how the capplet writes it (capplet/pilot.c),
// how it reads it back, and how the daemon reads it
// (gpilotd/gnome-pilot-structures.c).
module Setup {
  import opened Records
  import opened Text
  import opened KeyFiles

  // unsigned long, taken to be 64 bits wide
  type ulong = n: nat | n < ULONG_LIMIT

  const ULONG_LIMIT: int := 0x1_0000_0000_0000_0000

  // The kinds of device, as numbered in GPilotDeviceType.
  const SERIAL: int32 := 0
  const USB_VISOR: int32 := 1
  const IRDA: int32 := 2
  const NETWORK: int32 := 4
  const BLUETOOTH: int32 := 5

  const DEFAULT_CHARSET: string := "CP1252"

  // None is a NULL string.
  datatype Device = Cradle(
    kind: int32, name: Option<string>, port: Option<string>, speed: uint32, ip: Option<string>, timeout: int32)

  datatype Pilot = Pda(
    number: int, name: Option<string>, pilotId: uint32, username: Option<string>, password: Option<string>,
    creation: ulong, romversion: ulong, basedir: Option<string>, charset: Option<string>)

  datatype PilotState = PilotState(syncPCid: uint32, stepping: int32, devices: seq<Device>, pilots: seq<Pilot>)

  // What the programs take from their surroundings.
  datatype Environment = Environment(uid: uint32, home: string, charset: Option<string>, random: uint32)

  predicate ByPort(kind: int32) {
    kind == SERIAL || kind == USB_VISOR || kind == IRDA
  }

  predicate Known(kind: int32) {
    ByPort(kind) || kind == NETWORK || kind == BLUETOOTH
  }

  // A gint assigned to an unsigned long keeps its sign in the upper half.
  function ToUlong(i: int32): ulong {
    i % ULONG_LIMIT
  }

  // A NULL string is not written.
  function PutString(g: Group, key: Key, s: Option<string>): Group {
    if s.Some? then g[key := Str(s.value)] else g
  }

  // The group savePilotState writes for a device, key after key.
  function DeviceEntry(d: Device): Group {
    var g := PutString(map[Type := Int(d.kind)], Name, d.name);
    var g' :=
      if d.kind == NETWORK then PutString(g, Ip, d.ip)
      else if d.kind == BLUETOOTH then g
      else PutString(g, Key.Device, d.port)[Speed := Int(ToInt32(d.speed))];
    g'[KeyFiles.Timeout := Int(d.timeout)]
  }

  function PilotEntry(p: Pilot): Group {
    var g := PutString(map[], Name, p.name);
    var g' := g[PilotIdKey := Int(ToInt32(p.pilotId))][Creation := Int(ToInt32(p.creation))]
               [Romversion := Int(ToInt32(p.romversion))];
    PutString(PutString(PutString(g', PilotUsername, p.username), Basedir, p.basedir), Charset, p.charset)
  }

  function HostEntry(s: PilotState): Group {
    map[SyncPCId := Int(ToInt32(s.syncPCid))][ProgressStepping := Int(s.stepping)]
  }

  function PutCount(g: Group, key: Key, n: nat): Group
    requires n < INT32_LIMIT
  {
    if n > 0 then g[key := Int(n)] else g
  }

  function GeneralEntry(s: PilotState): Group
    requires |s.devices| < INT32_LIMIT && |s.pilots| < INT32_LIMIT
  {
    PutCount(PutCount(HostEntry(s), NumDevices, |s.devices|), NumPilots, |s.pilots|)
  }

  // What a file is after its groups for the first devices, or pilots, are rewritten.
  function WithDevices(kf: KeyFile, ds: seq<Device>): KeyFile {
    if ds == [] then kf
    else WithDevices(kf, ds[..|ds| - 1])[DeviceGroup(|ds| - 1) := DeviceEntry(ds[|ds| - 1])]
  }

  function WithPilots(kf: KeyFile, ps: seq<Pilot>): KeyFile {
    if ps == [] then kf
    else WithPilots(kf, ps[..|ps| - 1])[PilotGroup(|ps| - 1) := PilotEntry(ps[|ps| - 1])]
  }

  function Saved(kf: KeyFile, s: PilotState): KeyFile
    requires |s.devices| < INT32_LIMIT && |s.pilots| < INT32_LIMIT
  {
    WithPilots(WithDevices(kf, s.devices), s.pilots)[General := GeneralEntry(s)]
  }

  // The capplet's and the daemon's reading of one device group.
  function CappletDevice(g: Group, i: nat): Device {
    var kind := IntegerOrZero(g, Type);
    var name := GetString(g, Name);
    Cradle(
      kind,
      if name.Some? then name else Some("Cradle" + Decimal(i)),
      if kind == NETWORK || kind == BLUETOOTH then None else GetString(g, Key.Device),
      if kind == NETWORK || kind == BLUETOOTH then 0
      else if GetInteger(g, Speed).Some? then ToUint32(GetInteger(g, Speed).value) else 9600,
      if kind == NETWORK then GetString(g, Ip) else None,
      if GetInteger(g, KeyFiles.Timeout).Some? then GetInteger(g, KeyFiles.Timeout).value else 2)
  }

  function DaemonDevice(g: Group): Device {
    var kind := IntegerOrZero(g, Type);
    Cradle(
      kind,
      GetString(g, Name),
      if ByPort(kind) then GetString(g, Key.Device) else None,
      if !ByPort(kind) then 0
      else if GetInteger(g, Speed).Some? then ToUint32(GetInteger(g, Speed).value) else 57600,
      if kind == NETWORK then GetString(g, Ip) else None,
      if GetInteger(g, KeyFiles.Timeout).Some? then GetInteger(g, KeyFiles.Timeout).value else 3)
  }

  function CappletPilot(env: Environment, g: Group, i: nat): Pilot {
    var name := if GetString(g, Name).Some? then GetString(g, Name).value else "MyPilot";
    Pda(
      i, Some(name),
      if GetInteger(g, PilotIdKey).Some? then ToUint32(GetInteger(g, PilotIdKey).value) else env.uid,
      GetString(g, PilotUsername), None,
      ToUlong(IntegerOrZero(g, Creation)), ToUlong(IntegerOrZero(g, Romversion)),
      if GetString(g, Basedir).Some? then GetString(g, Basedir) else Some(env.home + "/" + name),
      None)
  }

  function DaemonPilot(env: Environment, g: Group, i: nat): Pilot {
    Pda(
      i, GetString(g, Name), ToUint32(IntegerOrZero(g, PilotIdKey)),
      GetString(g, PilotUsername), GetString(g, Password),
      ToUlong(IntegerOrZero(g, Creation)), ToUlong(IntegerOrZero(g, Romversion)),
      GetString(g, Basedir),
      if GetString(g, Charset).Some? then GetString(g, Charset)
      else if env.charset.Some? then env.charset
      else Some(DEFAULT_CHARSET))
  }

  // How many devices or pilots a loader looks for; a negative count is none.
  function Count(kf: KeyFile, key: Key): nat {
    var n := IntegerOrZero(GroupOf(kf, General), key);
    if n < 0 then 0 else n
  }

  function CappletDevices(kf: KeyFile, n: nat): (ds: seq<Device>)
    ensures |ds| == n
  {
    seq(n, i requires 0 <= i => CappletDevice(GroupOf(kf, DeviceGroup(i)), i))
  }

  function CappletPilots(env: Environment, kf: KeyFile, n: nat): (ps: seq<Pilot>)
    ensures |ps| == n
  {
    seq(n, i requires 0 <= i => CappletPilot(env, GroupOf(kf, PilotGroup(i)), i))
  }

  function DaemonDevices(kf: KeyFile, n: nat): (ds: seq<Device>)
    ensures |ds| == n
  {
    seq(n, i requires 0 <= i => DaemonDevice(GroupOf(kf, DeviceGroup(i))))
  }

  function DaemonPilots(env: Environment, kf: KeyFile, n: nat): (ps: seq<Pilot>)
    ensures |ps| == n
  {
    seq(n, i requires 0 <= i => DaemonPilot(env, GroupOf(kf, PilotGroup(i)), i))
  }

  function CappletHost(env: Environment, kf: KeyFile): uint32 {
    var id := IntegerOrZero(GroupOf(kf, General), SyncPCId);
    if id == 0 then env.random else ToUint32(id)
  }

  function CappletStepping(kf: KeyFile): int32 {
    var n := GetInteger(GroupOf(kf, General), ProgressStepping);
    if n.Some? then n.value else 5
  }

  function CappletLoaded(env: Environment, kf: KeyFile): PilotState {
    PilotState(CappletHost(env, kf), CappletStepping(kf),
               CappletDevices(kf, Count(kf, NumDevices)), CappletPilots(env, kf, Count(kf, NumPilots)))
  }

  // The daemon's lists, and its host id, as gpilot_context_init_user reads them.
  datatype DaemonView = DaemonView(syncPCid: uint32, devices: seq<Device>, pilots: seq<Pilot>)

  function DaemonLoaded(env: Environment, kf: KeyFile): DaemonView {
    DaemonView(ToUint32(IntegerOrZero(GroupOf(kf, General), SyncPCId)),
               DaemonDevices(kf, Count(kf, NumDevices)), DaemonPilots(env, kf, Count(kf, NumPilots)))
  }
}
