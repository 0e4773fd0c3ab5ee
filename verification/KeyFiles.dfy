// A GKeyFile: groups of keys with values, read and written through typed
// accessors. The text syntax of the file is not modelled.
module KeyFiles {
  import opened Records

  // The keys the modelled programs use; each constructor stands for the
  // key's text in the file.
  datatype Key =
    // the request queue
    | NumberOfRequests | Type | ClientId | Filename | Description | Directory | Device | PilotId | UserId
    | Password | ConduitName | HowToSync | Timeout | HandleNumber | ContinueSync
    // the list of conduits and a conduit's settings
    | Conduits | SyncTypeKey | FirstSyncType | SlowSync
    // the daemon's configuration
    | SyncPCId | ProgressStepping | NumDevices | NumPilots | Name | Ip | Speed
    | PilotIdKey | Creation | Romversion | PilotUsername | Basedir | Charset

  // Who a queued request belongs to.
  datatype Owner = System | Pilot(id: uint32)

  type int32 = i: int | -INT32_LIMIT <= i < INT32_LIMIT

  type uint32 = n: nat | n < UINT32_LIMIT

  // The groups the modelled programs use. GroupNames gives their text and
  // shows that no two of them share it.
  datatype GroupName =
    | CounterGroup(o: Owner)
    | RequestGroup(o: Owner, num: uint32)
    | General
    | DeviceGroup(i: nat)
    | PilotGroup(i: nat)
    | ConduitGroup(id: string)

  datatype Value = Str(s: string) | Int(i: int32) | Bool(b: bool) | List(items: seq<string>)

  type Group = map<Key, Value>
  type KeyFile = map<GroupName, Group>

  const INT32_LIMIT: int := 0x8000_0000
  const UINT32_LIMIT: int := 0x1_0000_0000

  // The C conversions between guint32 and gint.
  function ToInt32(n: int): int32 {
    var u := n % UINT32_LIMIT;
    if u < INT32_LIMIT then u else u - UINT32_LIMIT
  }

  function ToUint32(n: int): uint32 {
    n % UINT32_LIMIT
  }

  // The keys of a group; none when the file has no such group.
  function GroupOf(kf: KeyFile, group: GroupName): Group {
    if group in kf then kf[group] else map[]
  }

  // None stands for the error a missing or wrongly typed value sets.
  function GetInteger(g: Group, key: Key): Option<int32> {
    if key in g && g[key].Int? then Some(g[key].i) else None
  }

  // What the call returns when the error is not looked at.
  function IntegerOrZero(g: Group, key: Key): int32 {
    if key in g && g[key].Int? then g[key].i else 0
  }

  function GetString(g: Group, key: Key): Option<string> {
    if key in g && g[key].Str? then Some(g[key].s) else None
  }

  function BooleanOrFalse(g: Group, key: Key): bool {
    key in g && g[key].Bool? && g[key].b
  }

  function StringList(g: Group, key: Key): seq<string> {
    if key in g && g[key].List? then g[key].items else []
  }

  function Set(kf: KeyFile, group: GroupName, key: Key, v: Value): KeyFile {
    kf[group := GroupOf(kf, group)[key := v]]
  }

  // Setting a NULL string is refused by GLib and changes nothing.
  function SetString(kf: KeyFile, group: GroupName, key: Key, s: Option<string>): KeyFile {
    if s.Some? then Set(kf, group, key, Str(s.value)) else kf
  }

  function RemoveGroup(kf: KeyFile, group: GroupName): KeyFile {
    kf - {group}
  }

  function RemoveKey(kf: KeyFile, group: GroupName, key: Key): KeyFile {
    if group in kf then kf[group := kf[group] - {key}] else kf
  }

  lemma UnsignedRoundTrip(n: nat)
    requires n < UINT32_LIMIT
    ensures ToUint32(ToInt32(n)) == n
  {
    if n >= INT32_LIMIT {
      assert (n - UINT32_LIMIT) % UINT32_LIMIT == n;
    }
  }
}
