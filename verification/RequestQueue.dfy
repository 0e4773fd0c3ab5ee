// The daemon's request queue, kept in a key file: a counter per owner and one
// numbered group per request.
module RequestQueue {
  import opened Records
  import opened Text
  import opened KeyFiles
  import opened SyncTypes

  datatype Body =
    | Install(filename: Option<string>, description: Option<string>)
    | Restore(directory: Option<string>)
    | Conduit(name: Option<string>, how: SyncType)
    | GetSysinfo
    | GetUserinfo
    | SetUserinfo(password: Option<string>, userId: Option<string>, newId: uint32, continueSync: bool)
    | NewUserinfo(password: Option<string>, userId: Option<string>, newId: uint32)

  // `handle` and `section` are filled in when a request is loaded.
  datatype Request = Request(
    body: Body, pilotId: uint32, timeout: uint32, cradle: Option<string>, clientId: Option<string>,
    handle: uint32, section: GroupName)

  datatype Kind = KInstall | KRestore | KConduit | KGetSysinfo | KGetUserinfo | KSetUserinfo | KNewUserinfo

  function KindOf(b: Body): Kind {
    match b
    case Install(_, _) => KInstall
    case Restore(_) => KRestore
    case Conduit(_, _) => KConduit
    case GetSysinfo => KGetSysinfo
    case GetUserinfo => KGetUserinfo
    case SetUserinfo(_, _, _, _) => KSetUserinfo
    case NewUserinfo(_, _, _) => KNewUserinfo
  }

  predicate SystemRelated(k: Kind) {
    k.KGetSysinfo? || k.KGetUserinfo? || k.KSetUserinfo? || k.KNewUserinfo?
  }

  // Requests about a cradle are queued for the system, the others for a pilot.
  function OwnerOf(pilotId: uint32, k: Kind): Owner {
    if SystemRelated(k) then System else Pilot(pilotId)
  }

  function KindName(k: Kind): string {
    match k
    case KInstall => "GREQ_INSTALL"
    case KRestore => "GREQ_RESTORE"
    case KConduit => "GREQ_CONDUIT"
    case KGetSysinfo => "GREQ_GET_SYSINFO"
    case KGetUserinfo => "GREQ_GET_USERINFO"
    case KSetUserinfo => "GREQ_SET_USERINFO"
    case KNewUserinfo => "GREQ_NEW_USERINFO"
  }

  // request_type_from_string; None is GREQ_INVALID.
  function KindFromString(s: Option<string>): Option<Kind> {
    if s.None? then None
    else if SameIgnoringCase(s.value, KindName(KInstall)) then Some(KInstall)
    else if SameIgnoringCase(s.value, KindName(KRestore)) then Some(KRestore)
    else if SameIgnoringCase(s.value, KindName(KConduit)) then Some(KConduit)
    else if SameIgnoringCase(s.value, KindName(KSetUserinfo)) then Some(KSetUserinfo)
    else if SameIgnoringCase(s.value, KindName(KGetUserinfo)) then Some(KGetUserinfo)
    else if SameIgnoringCase(s.value, KindName(KGetSysinfo)) then Some(KGetSysinfo)
    else if SameIgnoringCase(s.value, KindName(KNewUserinfo)) then Some(KNewUserinfo)
    else None
  }

  // The sixth letter and the length tell the names of the kinds apart.
  function Mark(k: Kind): (char, nat) {
    match k
    case KInstall => ('I', 12)
    case KRestore => ('R', 12)
    case KConduit => ('C', 12)
    case KGetSysinfo => ('G', 16)
    case KGetUserinfo => ('G', 17)
    case KSetUserinfo => ('S', 17)
    case KNewUserinfo => ('N', 17)
  }

  lemma NameShowsMark(k: Kind)
    ensures |KindName(k)| > 5 && (KindName(k)[5], |KindName(k)|) == Mark(k)
  {
  }

  // No two kinds have names that differ in case only.
  lemma KindNamesDiffer(j: Kind, k: Kind)
    ensures SameIgnoringCase(KindName(j), KindName(k)) <==> j == k
  {
    NameShowsMark(j);
    NameShowsMark(k);
    MarkedNames(KindName(j), KindName(k));
  }

  lemma MarkedNames(a: string, b: string)
    requires |a| > 5 && |b| > 5 && 'A' <= a[5] <= 'Z' && 'A' <= b[5] <= 'Z'
    requires a == b || a[5] != b[5] || |a| != |b|
    ensures SameIgnoringCase(a, b) <==> a == b
  {
    SameIgnoringCaseAt(a, b);
    assert a[5] != b[5] ==> Lower(a[5]) != Lower(b[5]);
  }

  lemma KindRoundTrip(k: Kind)
    ensures KindFromString(Some(KindName(k))) == Some(k)
  {
    forall j: Kind ensures SameIgnoringCase(KindName(k), KindName(j)) <==> k == j {
      KindNamesDiffer(k, j);
    }
    KindPicked(KindName(k), k);
  }

  lemma KindPicked(s: string, k: Kind)
    requires forall j: Kind :: SameIgnoringCase(s, KindName(j)) <==> k == j
    ensures KindFromString(Some(s)) == Some(k)
  {
  }

  // The handle a client gets for a request, in 32-bit arithmetic.
  function Handle(o: Owner, num: uint32): uint32 {
    if o.System? then num else ToUint32(o.id * 65535 + num)
  }

  /* ----- Loading ----- */

  function LoadBody(g: Group, k: Kind): Body {
    match k
    case KInstall => Install(GetString(g, Filename), GetString(g, Description))
    case KRestore => Restore(GetString(g, Directory))
    case KConduit => Conduit(GetString(g, ConduitName), FromStr(GetString(g, HowToSync)))
    case KGetSysinfo => GetSysinfo
    case KGetUserinfo => GetUserinfo
    case KSetUserinfo =>
      SetUserinfo(GetString(g, Password), GetString(g, UserId),
                  ToUint32(IntegerOrZero(g, PilotId)), BooleanOrFalse(g, ContinueSync))
    case KNewUserinfo =>
      NewUserinfo(GetString(g, Password), GetString(g, UserId), ToUint32(IntegerOrZero(g, PilotId)))
  }

  // What the group of a request says; None when its type is missing or unknown.
  function Parse(g: Group, pilotId: uint32, section: GroupName): Option<Request> {
    var k := KindFromString(GetString(g, Type));
    if k.None? then None
    else Some(Request(LoadBody(g, k.value), pilotId, ToUint32(IntegerOrZero(g, Timeout)),
                      GetString(g, Device), GetString(g, ClientId),
                      ToUint32(IntegerOrZero(g, HandleNumber)), section))
  }

  function QueryOwner(pilotId: uint32, system: bool): Owner {
    if system then System else Pilot(pilotId)
  }

  function Load(kf: KeyFile, pilotId: uint32, system: bool, num: uint32): Option<Request> {
    var section := RequestGroup(QueryOwner(pilotId, system), num);
    Parse(GroupOf(kf, section), pilotId, section)
  }

  function Counter(kf: KeyFile, o: Owner): int32 {
    IntegerOrZero(GroupOf(kf, CounterGroup(o)), NumberOfRequests)
  }

  // The numbers 1..counter; a counter that is not positive has none.
  function Numbered(counter: int32): uint32 {
    if counter <= 0 then 0 else counter
  }

  predicate Wanted(r: Option<Request>, wanted: Option<Kind>) {
    r.Some? && (wanted.None? || KindOf(r.value.body) == wanted.value)
  }

  // Appends the requests numbered num, num-1, .., 1 of the wanted kind, or of
  // any kind, to a list.
  function LoadDown(kf: KeyFile, pilotId: uint32, system: bool, wanted: Option<Kind>, num: uint32,
                    list: seq<Request>): seq<Request>
    decreases num
  {
    if num == 0 then list
    else
      var r := Load(kf, pilotId, system, num);
      LoadDown(kf, pilotId, system, wanted, num - 1, if Wanted(r, wanted) then list + [r.value] else list)
  }

  function Loaded(kf: KeyFile, pilotId: uint32, system: bool, wanted: Option<Kind>): seq<Request> {
    LoadDown(kf, pilotId, system, wanted, Numbered(Counter(kf, QueryOwner(pilotId, system))), [])
  }

  /* ----- Storing ----- */

  function Optional(key: Key, s: Option<string>): Group {
    if s.Some? then map[key := Str(s.value)] else map[]
  }

  function UserFields(cradle: Option<string>, password: Option<string>, userId: Option<string>, newId: uint32): Group {
    Optional(Device, cradle) + Optional(Password, password) + Optional(UserId, userId)
    + map[PilotId := Int(ToInt32(newId))]
  }

  // The keys a request's own kind writes.
  function BodyFields(r: Request): Group {
    match r.body
    case Install(filename, description) => Optional(Filename, filename) + Optional(Description, description)
    case Restore(directory) => Optional(Directory, directory)
    case Conduit(name, how) => Optional(ConduitName, name) + map[HowToSync := Str(ToStr(how))]
    case GetSysinfo => Optional(Device, r.cradle)
    case GetUserinfo => Optional(Device, r.cradle)
    case SetUserinfo(password, userId, newId, continueSync) =>
      UserFields(r.cradle, password, userId, newId) + map[ContinueSync := Bool(continueSync)]
    case NewUserinfo(_, userId, newId) => UserFields(r.cradle, None, userId, newId)
  }

  function Fields(r: Request, handle: uint32): Group {
    map[Type := Str(KindName(KindOf(r.body)))] + BodyFields(r) + map[Timeout := Int(ToInt32(r.timeout))]
    + map[HandleNumber := Int(ToInt32(handle))] + Optional(ClientId, r.clientId)
  }

  // Adds keys to a group, which is created when it is not there.
  function Extend(kf: KeyFile, section: GroupName, fields: Group): KeyFile {
    kf[section := GroupOf(kf, section) + fields]
  }

  lemma ExtendTwice(kf: KeyFile, section: GroupName, a: Group, b: Group)
    ensures Extend(Extend(kf, section, a), section, b) == Extend(kf, section, a + b)
  {
    var g := GroupOf(kf, section);
    assert (g + a) + b == g + (a + b);
  }

  function RequestOwner(r: Request): Owner {
    OwnerOf(r.pilotId, KindOf(r.body))
  }

  // The number the next request of an owner is stored under.
  function NextNumber(kf: KeyFile, o: Owner): uint32 {
    ToUint32(Counter(kf, o) + 1)
  }

  function Stored(kf: KeyFile, r: Request): KeyFile {
    var o := RequestOwner(r);
    var num := NextNumber(kf, o);
    var counted := Set(kf, CounterGroup(o), NumberOfRequests, Int(ToInt32(num)));
    var section := RequestGroup(o, num);
    Extend(counted, section, Fields(r, Handle(o, num)))
  }

  function StoredHandle(kf: KeyFile, r: Request): uint32 {
    Handle(RequestOwner(r), NextNumber(kf, RequestOwner(r)))
  }

  /* ----- Purging ----- */

  function Purged(kf: KeyFile, r: Request): KeyFile {
    var o := RequestOwner(r);
    RemoveGroup(Set(kf, CounterGroup(o), NumberOfRequests, Int(ToInt32(Counter(kf, o) - 1))), r.section)
  }

  function PurgedPoint(kf: KeyFile, pilotId: uint32, num: uint32): KeyFile {
    var r := Load(kf, pilotId, pilotId == 0, num);
    if r.Some? then Purged(kf, r.value) else kf
  }

  /* ----- The queue in memory of the daemon ----- */

  class Queue {
    var kfile: KeyFile

    constructor ()
      ensures kfile == map[]
    {
      kfile := map[];
    }

    // The type decides which of the group's other keys are read. A group whose
    // type is missing or unknown is no request.
    method LoadRequest(pilotId: uint32, system: bool, num: uint32) returns (r: Option<Request>)
      ensures r == Load(kfile, pilotId, system, num)
      ensures var section := RequestGroup(QueryOwner(pilotId, system), num);
        && (r.None? <==> KindFromString(GetString(GroupOf(kfile, section), Type)).None?)
        && (r.Some? ==> r.value.section == section && r.value.pilotId == pilotId)
    {
      var section := RequestGroup(QueryOwner(pilotId, system), num);
      var g := GroupOf(kfile, section);
      var kind := KindFromString(GetString(g, Type));
      if kind.None? {
        return None;
      }
      var body: Body;
      match kind.value {
        case KInstall =>
          var filename, description := GetString(g, Filename), GetString(g, Description);
          body := Install(filename, description);
        case KRestore =>
          var directory := GetString(g, Directory);
          body := Restore(directory);
        case KConduit =>
          var name, how := GetString(g, ConduitName), GetString(g, HowToSync);
          body := Conduit(name, FromStr(how));
        case KGetUserinfo =>
          body := GetUserinfo;
        case KGetSysinfo =>
          body := GetSysinfo;
        case KNewUserinfo =>
          var user := LoadUser(g);
          body := NewUserinfo(user.0, user.1, user.2);
        case KSetUserinfo =>
          var user := LoadUser(g);
          body := SetUserinfo(user.0, user.1, user.2, BooleanOrFalse(g, ContinueSync));
      }
      var cradle, clientId := GetString(g, Device), GetString(g, ClientId);
      var timeout, handle := ToUint32(IntegerOrZero(g, Timeout)), ToUint32(IntegerOrZero(g, HandleNumber));
      return Some(Request(body, pilotId, timeout, cradle, clientId, handle, section));
    }

    // The keys the two requests about a user share.
    method LoadUser(g: Group) returns (user: (Option<string>, Option<string>, uint32))
      ensures user == (GetString(g, Password), GetString(g, UserId), ToUint32(IntegerOrZero(g, PilotId)))
    {
      user := (GetString(g, Password), GetString(g, UserId), ToUint32(IntegerOrZero(g, PilotId)));
    }

    method ReadCounter(o: Owner) returns (num: int32)
      ensures num == Counter(kfile, o)
    {
      num := IntegerOrZero(GroupOf(kfile, CounterGroup(o)), NumberOfRequests);
    }

    // `wanted` is the type asked for, None with the `all` flag.
    method LoadRequests(pilotId: uint32, system: bool, wanted: Option<Kind>) returns (list: seq<Request>)
      ensures list == Loaded(kfile, pilotId, system, wanted)
    {
      var counter := ReadCounter(QueryOwner(pilotId, system));
      var num := Numbered(counter);
      list := [];
      while num > 0
        invariant LoadDown(kfile, pilotId, system, wanted, num, list) == Loaded(kfile, pilotId, system, wanted)
      {
        var r := LoadRequest(pilotId, system, num);
        if Wanted(r, wanted) {
          list := list + [r.value];
        }
        num := num - 1;
      }
    }

    // g_key_file_set_string on a group that is there.
    method PutString(section: GroupName, key: Key, s: Option<string>)
      requires section in kfile
      modifies this
      ensures kfile == Extend(old(kfile), section, Optional(key, s))
    {
      ghost var g := kfile[section];
      kfile := SetString(kfile, section, key, s);
      assert kfile[section] == g + Optional(key, s);
    }

    method Put(section: GroupName, key: Key, v: Value)
      modifies this
      ensures kfile == Extend(old(kfile), section, map[key := v])
    {
      ghost var g := GroupOf(kfile, section);
      kfile := Set(kfile, section, key, v);
      assert kfile[section] == g + map[key := v];
    }

    // The switch over the request's type.
    method StoreBody(section: GroupName, r: Request)
      requires section in kfile
      modifies this
      ensures kfile == Extend(old(kfile), section, BodyFields(r))
    {
      ghost var kf := kfile;
      match r.body {
        case Install(filename, description) =>
          PutString(section, Filename, filename);
          PutString(section, Description, description);
          ExtendTwice(kf, section, Optional(Filename, filename), Optional(Description, description));
        case Restore(directory) =>
          PutString(section, Directory, directory);
        case Conduit(name, how) =>
          PutString(section, ConduitName, name);
          Put(section, HowToSync, Str(ToStr(how)));
          ExtendTwice(kf, section, Optional(ConduitName, name), map[HowToSync := Str(ToStr(how))]);
        case GetSysinfo =>
          PutString(section, Device, r.cradle);
        case GetUserinfo =>
          PutString(section, Device, r.cradle);
        case SetUserinfo(password, userId, newId, continueSync) =>
          StoreUser(section, r.cradle, password, userId, newId);
          Put(section, ContinueSync, Bool(continueSync));
          ExtendTwice(kf, section, UserFields(r.cradle, password, userId, newId),
                      map[ContinueSync := Bool(continueSync)]);
        case NewUserinfo(_, userId, newId) =>
          StoreUser(section, r.cradle, None, userId, newId);
      }
    }

    method StoreUser(section: GroupName, cradle: Option<string>, password: Option<string>, userId: Option<string>,
                     newId: uint32)
      requires section in kfile
      modifies this
      ensures kfile == Extend(old(kfile), section, UserFields(cradle, password, userId, newId))
    {
      ghost var kf, a, b, c := kfile, Optional(Device, cradle), Optional(Password, password), Optional(UserId, userId);
      PutString(section, Device, cradle);
      PutString(section, Password, password);
      ExtendTwice(kf, section, a, b);
      PutString(section, UserId, userId);
      ExtendTwice(kf, section, a + b, c);
      Put(section, PilotId, Int(ToInt32(newId)));
      ExtendTwice(kf, section, a + b + c, map[PilotId := Int(ToInt32(newId))]);
    }

    // Fills the request's group, on top of what may already be there.
    method StoreGroup(section: GroupName, r: Request, handle: uint32)
      modifies this
      ensures kfile == Extend(old(kfile), section, Fields(r, handle))
    {
      ghost var kf, a, b := kfile, map[Type := Str(KindName(KindOf(r.body)))], BodyFields(r);
      ghost var c: Group := map[Timeout := Int(ToInt32(r.timeout))];
      ghost var d: Group := map[HandleNumber := Int(ToInt32(handle))];
      Put(section, Type, Str(KindName(KindOf(r.body))));
      StoreBody(section, r);
      ExtendTwice(kf, section, a, b);
      Put(section, Timeout, Int(ToInt32(r.timeout)));
      ExtendTwice(kf, section, a + b, c);
      Put(section, HandleNumber, Int(ToInt32(handle)));
      ExtendTwice(kf, section, a + b + c, d);
      PutString(section, ClientId, r.clientId);
      ExtendTwice(kf, section, a + b + c + d, Optional(ClientId, r.clientId));
    }

    method StoreRequest(r: Request) returns (handle: uint32)
      modifies this
      ensures kfile == Stored(old(kfile), r)
      ensures handle == StoredHandle(old(kfile), r)
    {
      var o := RequestOwner(r);
      var last: int := ReadCounter(o);
      var num := ToUint32(last + 1);
      kfile := Set(kfile, CounterGroup(o), NumberOfRequests, Int(ToInt32(num)));
      handle := Handle(o, num);
      StoreGroup(RequestGroup(o, num), r, handle);
    }

    method PurgeRequest(r: Request)
      modifies this
      ensures kfile == Purged(old(kfile), r)
    {
      var o := RequestOwner(r);
      var num: int := ReadCounter(o);
      kfile := Set(kfile, CounterGroup(o), NumberOfRequests, Int(ToInt32(num - 1)));
      kfile := RemoveGroup(kfile, r.section);
    }

    method PurgeRequestPoint(pilotId: uint32, num: uint32)
      modifies this
      ensures kfile == PurgedPoint(old(kfile), pilotId, num)
      ensures Load(old(kfile), pilotId, pilotId == 0, num).None? ==> kfile == old(kfile)
    {
      var r := LoadRequest(pilotId, pilotId == 0, num);
      if r.Some? {
        PurgeRequest(r.value);
      }
    }
  }
}
