// What the request queue keeps over its histories of stores and purges.
module RequestHistories {
  import opened Records
  import opened KeyFiles
  import opened SyncTypes
  import opened RequestQueue

  /* ----- Handles ----- */

  // Dividing a handle by 65535, as the daemon does to remove a request, leads
  // back to the request's owner and number exactly when the number is below
  // 65535 and, for a pilot, the pilot has a nonzero identifier and the handle
  // did not overflow 32 bits.
  lemma HandleLeadsBack(o: Owner, num: uint32)
    ensures var h := Handle(o, num);
      (QueryOwner(h / 65535, h / 65535 == 0) == o && h % 65535 == num) <==>
      (num < 65535 && (o.Pilot? ==> o.id != 0 && o.id * 65535 + num < UINT32_LIMIT))
  {
    var h := Handle(o, num);
    if o.Pilot? && num < 65535 && o.id * 65535 + num < UINT32_LIMIT {
      assert h == o.id * 65535 + num;
      assert h / 65535 == o.id && h % 65535 == num;
    }
    assert h == (h / 65535) * 65535 + h % 65535;
  }

  lemma HandlesDistinct(a: uint32, m: uint32, b: uint32, n: uint32)
    requires a <= 65536 && b <= 65536 && 0 < m < 65535 && 0 < n < 65535
    ensures Handle(Pilot(a), m) == a * 65535 + m
    ensures Handle(Pilot(a), m) == Handle(Pilot(b), n) ==> a == b && m == n
  {
    assert a * 65535 + m < UINT32_LIMIT && b * 65535 + n < UINT32_LIMIT;
    assert (a * 65535 + m) / 65535 == a && (b * 65535 + n) / 65535 == b;
  }

  /* ----- One request ----- */

  // A stored request as a load returns it: the password of a new-user request
  // and the cradle of a pilot request are not kept.
  function LoadedForm(r: Request, pilotId: uint32, num: uint32): Request {
    var o := RequestOwner(r);
    r.(body := KeptBody(r.body),
       pilotId := pilotId,
       cradle := if SystemRelated(KindOf(r.body)) then r.cradle else None,
       handle := Handle(o, num),
       section := RequestGroup(o, num))
  }

  // The optional texts a load of the kind looks for.
  function OwnTextKeys(k: Kind): set<Key> {
    match k
    case KInstall => {Filename, Description}
    case KRestore => {Directory}
    case KConduit => {ConduitName}
    case KSetUserinfo => {Password, UserId}
    case KNewUserinfo => {Password, UserId}
    case _ => {}
  }

  function TextKeys(k: Kind): set<Key> {
    {Device, ClientId} + OwnTextKeys(k)
  }

  function At(g: Group, key: Key): Option<Value> {
    if key in g then Some(g[key]) else None
  }

  function Text(s: Option<string>): Option<Value> {
    if s.Some? then Some(Str(s.value)) else None
  }

  lemma UserAt(cradle: Option<string>, password: Option<string>, userId: Option<string>, newId: uint32, key: Key)
    ensures At(UserFields(cradle, password, userId, newId), key) ==
      match key
      case Device => Text(cradle)
      case Password => Text(password)
      case UserId => Text(userId)
      case PilotId => Some(Int(ToInt32(newId)))
      case _ => None
  {
  }

  // Which value a request's own kind writes under a key.
  function BodyValue(r: Request, key: Key): Option<Value> {
    match r.body
    case Install(filename, description) =>
      if key.Filename? then Text(filename) else if key.Description? then Text(description) else None
    case Restore(directory) => if key.Directory? then Text(directory) else None
    case Conduit(name, how) =>
      if key.ConduitName? then Text(name) else if key.HowToSync? then Some(Str(ToStr(how))) else None
    case GetSysinfo => if key.Device? then Text(r.cradle) else None
    case GetUserinfo => if key.Device? then Text(r.cradle) else None
    case SetUserinfo(password, userId, newId, continueSync) =>
      if key.ContinueSync? then Some(Bool(continueSync))
      else At(UserFields(r.cradle, password, userId, newId), key)
    case NewUserinfo(_, userId, newId) => At(UserFields(r.cradle, None, userId, newId), key)
  }

  lemma FieldAt(r: Request, handle: uint32, key: Key)
    ensures At(Fields(r, handle), key) ==
      if key.ClientId? then Text(r.clientId)
      else if key.HandleNumber? then Some(Int(ToInt32(handle)))
      else if key.Timeout? then Some(Int(ToInt32(r.timeout)))
      else if key.Type? then Some(Str(KindName(KindOf(r.body))))
      else BodyValue(r, key)
  {
    var own := BodyFields(r);
    BodyAt(r, key);
    var f1: Group := map[Type := Str(KindName(KindOf(r.body)))] + own;
    var f2: Group := f1 + map[Timeout := Int(ToInt32(r.timeout))];
    var f3: Group := f2 + map[HandleNumber := Int(ToInt32(handle))];
    assert Fields(r, handle) == f3 + Optional(ClientId, r.clientId);
  }

  lemma BodyAt(r: Request, key: Key)
    ensures At(BodyFields(r), key) == BodyValue(r, key)
    ensures key.ClientId? || key.HandleNumber? || key.Timeout? || key.Type? ==> key !in BodyFields(r)
  {
    match r.body
    case Install(filename, description) =>
      OptionalAt(Filename, filename, key);
      OptionalAt(Description, description, key);
      SumAt(Optional(Filename, filename), Optional(Description, description), key);
    case Restore(directory) => OptionalAt(Directory, directory, key);
    case Conduit(name, how) =>
      OptionalAt(ConduitName, name, key);
      SumAt(Optional(ConduitName, name), map[HowToSync := Str(ToStr(how))], key);
    case SetUserinfo(_, _, _, _) => UserBodyAt(r, key);
    case NewUserinfo(_, _, _) => UserBodyAt(r, key);
    case _ => OptionalAt(Device, r.cradle, key);
  }

  lemma UserBodyAt(r: Request, key: Key)
    requires r.body.SetUserinfo? || r.body.NewUserinfo?
    ensures At(BodyFields(r), key) == BodyValue(r, key)
    ensures key.ClientId? || key.HandleNumber? || key.Timeout? || key.Type? ==> key !in BodyFields(r)
  {
    match r.body
    case SetUserinfo(password, userId, newId, continueSync) =>
      UserAt(r.cradle, password, userId, newId, key);
      SumAt(UserFields(r.cradle, password, userId, newId), map[ContinueSync := Bool(continueSync)], key);
    case NewUserinfo(_, userId, newId) => UserAt(r.cradle, None, userId, newId, key);
  }

  lemma OptionalAt(k: Key, s: Option<string>, key: Key)
    ensures At(Optional(k, s), key) == if key == k then Text(s) else None
  {
  }

  lemma SumAt(a: Group, b: Group, key: Key)
    ensures At(a + b, key) == if key in b then At(b, key) else At(a, key)
  {
  }

  predicate Gives(f: Group, key: Key, s: Option<string>) {
    At(f, key) == Text(s)
  }

  // What the keys a request writes hold, one by one.
  predicate Writes(f: Group, r: Request, handle: uint32) {
    WritesCommon(f, r, handle) && WritesOwn(f, r)
  }

  predicate WritesCommon(f: Group, r: Request, handle: uint32) {
    && Gives(f, Type, Some(KindName(KindOf(r.body))))
    && At(f, Timeout) == Some(Int(ToInt32(r.timeout)))
    && At(f, HandleNumber) == Some(Int(ToInt32(handle)))
    && Gives(f, ClientId, r.clientId)
    && Gives(f, Device, if SystemRelated(KindOf(r.body)) then r.cradle else None)
  }

  predicate WritesOwn(f: Group, r: Request) {
    match r.body
    case Install(filename, description) => Gives(f, Filename, filename) && Gives(f, Description, description)
    case Restore(directory) => Gives(f, Directory, directory)
    case Conduit(name, how) => Gives(f, ConduitName, name) && Gives(f, HowToSync, Some(ToStr(how)))
    case SetUserinfo(password, userId, newId, continueSync) =>
      && Gives(f, Password, password) && Gives(f, UserId, userId)
      && At(f, PilotId) == Some(Int(ToInt32(newId))) && At(f, ContinueSync) == Some(Bool(continueSync))
    case NewUserinfo(_, userId, newId) =>
      && Gives(f, Password, None) && Gives(f, UserId, userId)
      && At(f, PilotId) == Some(Int(ToInt32(newId)))
    case _ => true
  }

  lemma UserWrites(r: Request, handle: uint32, key: Key)
    requires r.body.SetUserinfo? || r.body.NewUserinfo?
    requires key.Device? || key.Password? || key.UserId? || key.PilotId?
    ensures At(Fields(r, handle), key) ==
      match key
      case Device => Text(r.cradle)
      case Password => if r.body.SetUserinfo? then Text(r.body.password) else None
      case UserId => Text(r.body.userId)
      case _ => Some(Int(ToInt32(r.body.newId)))
  {
    FieldAt(r, handle, key);
    UserAt(r.cradle, if r.body.SetUserinfo? then r.body.password else None, r.body.userId, r.body.newId, key);
  }

  lemma FieldsWriteCommon(r: Request, handle: uint32)
    ensures WritesCommon(Fields(r, handle), r, handle)
  {
    FieldAt(r, handle, Type);
    FieldAt(r, handle, Timeout);
    FieldAt(r, handle, HandleNumber);
    FieldAt(r, handle, ClientId);
    FieldAt(r, handle, Device);
    if r.body.SetUserinfo? || r.body.NewUserinfo? { UserWrites(r, handle, Device); }
  }

  lemma FieldsWriteOwn(r: Request, handle: uint32)
    ensures WritesOwn(Fields(r, handle), r)
  {
    match r.body
    case Install(_, _) => FieldAt(r, handle, Filename); FieldAt(r, handle, Description);
    case Restore(_) => FieldAt(r, handle, Directory);
    case Conduit(_, _) => FieldAt(r, handle, ConduitName); FieldAt(r, handle, HowToSync);
    case GetSysinfo =>
    case GetUserinfo =>
    case _ =>
      UserWrites(r, handle, Password);
      UserWrites(r, handle, UserId);
      UserWrites(r, handle, PilotId);
      if r.body.SetUserinfo? { FieldAt(r, handle, ContinueSync); }
  }

  // Nothing the group g held before shows through under a key.
  predicate CleanUnder(g: Group, f: Group, key: Key) {
    key !in f ==> GetString(g, key).None?
  }

  // What reading one key of a filled group gives.
  lemma ReadOver(g: Group, f: Group, key: Key, s: Option<string>)
    requires Gives(f, key, s)
    ensures GetString(g + f, key) == s <==> CleanUnder(g, f, key)
  {
  }

  lemma UserOver(g: Group, f: Group, r: Request, handle: uint32)
    requires Writes(f, r, handle) && (r.body.SetUserinfo? || r.body.NewUserinfo?)
    ensures var password := if r.body.SetUserinfo? then r.body.password else None;
      && ToUint32(IntegerOrZero(g + f, PilotId)) == r.body.newId
      && (GetString(g + f, Password) == password <==> CleanUnder(g, f, Password))
      && (GetString(g + f, UserId) == r.body.userId <==> CleanUnder(g, f, UserId))
  {
    ReadOver(g, f, Password, if r.body.SetUserinfo? then r.body.password else None);
    ReadOver(g, f, UserId, r.body.userId);
    UnsignedRoundTrip(r.body.newId);
  }

  function KeptBody(b: Body): Body {
    if b.NewUserinfo? then b.(password := None) else b
  }

  // The request's own part of a group, read back.
  lemma BodyOver(g: Group, f: Group, r: Request, handle: uint32)
    requires Writes(f, r, handle)
    ensures LoadBody(g + f, KindOf(r.body)) == KeptBody(r.body) <==>
            forall key :: key in OwnTextKeys(KindOf(r.body)) ==> CleanUnder(g, f, key)
  {
    match r.body
    case Install(filename, description) =>
      ReadOver(g, f, Filename, filename);
      ReadOver(g, f, Description, description);
    case Restore(directory) =>
      ReadOver(g, f, Directory, directory);
    case Conduit(name, how) =>
      ReadOver(g, f, ConduitName, name);
      ReadOver(g, f, HowToSync, Some(ToStr(how)));
      NamesRoundTrip(how);
    case SetUserinfo(_, _, _, _) => UserOver(g, f, r, handle);
    case NewUserinfo(_, _, _) => UserOver(g, f, r, handle);
    case _ =>
  }

  lemma ParseIs(h: Group, r: Request, num: uint32, pilotId: uint32)
    requires KindFromString(GetString(h, Type)) == Some(KindOf(r.body))
    requires ToUint32(IntegerOrZero(h, Timeout)) == r.timeout
    requires ToUint32(IntegerOrZero(h, HandleNumber)) == Handle(RequestOwner(r), num)
    ensures Parse(h, pilotId, RequestGroup(RequestOwner(r), num)) == Some(LoadedForm(r, pilotId, num)) <==>
            && LoadBody(h, KindOf(r.body)) == KeptBody(r.body)
            && GetString(h, Device) == (if SystemRelated(KindOf(r.body)) then r.cradle else None)
            && GetString(h, ClientId) == r.clientId
  {
  }

  lemma CleanParts(g: Group, f: Group, k: Kind)
    ensures (forall key :: key in TextKeys(k) ==> CleanUnder(g, f, key)) <==>
            && CleanUnder(g, f, Device) && CleanUnder(g, f, ClientId)
            && forall key :: key in OwnTextKeys(k) ==> CleanUnder(g, f, key)
  {
    assert Device in TextKeys(k) && ClientId in TextKeys(k);
  }

  // Reading a group back gives the stored request exactly when nothing that the
  // group held before shows through.
  lemma ParseOver(g: Group, f: Group, r: Request, num: uint32, pilotId: uint32)
    requires Writes(f, r, Handle(RequestOwner(r), num))
    ensures Parse(g + f, pilotId, RequestGroup(RequestOwner(r), num)) == Some(LoadedForm(r, pilotId, num))
            <==> forall key :: key in TextKeys(KindOf(r.body)) ==> CleanUnder(g, f, key)
  {
    TypeOver(g, f, KindOf(r.body));
    CommonOver(g, f, r, Handle(RequestOwner(r), num));
    BodyOver(g, f, r, Handle(RequestOwner(r), num));
    ParseIs(g + f, r, num, pilotId);
    CleanParts(g, f, KindOf(r.body));
  }

  lemma TypeOver(g: Group, f: Group, k: Kind)
    requires Gives(f, Type, Some(KindName(k)))
    ensures KindFromString(GetString(g + f, Type)) == Some(k)
  {
    KindRoundTrip(k);
  }

  lemma CommonOver(g: Group, f: Group, r: Request, handle: uint32)
    requires WritesCommon(f, r, handle)
    ensures ToUint32(IntegerOrZero(g + f, Timeout)) == r.timeout
    ensures ToUint32(IntegerOrZero(g + f, HandleNumber)) == handle
    ensures GetString(g + f, ClientId) == r.clientId <==> CleanUnder(g, f, ClientId)
    ensures GetString(g + f, Device) == (if SystemRelated(KindOf(r.body)) then r.cradle else None) <==>
            CleanUnder(g, f, Device)
  {
    ReadOver(g, f, ClientId, r.clientId);
    ReadOver(g, f, Device, if SystemRelated(KindOf(r.body)) then r.cradle else None);
    UnsignedRoundTrip(r.timeout);
    UnsignedRoundTrip(handle);
  }

  // The group a request will be stored in holds no text the request would inherit.
  predicate NoLeftovers(kf: KeyFile, r: Request) {
    var o := RequestOwner(r);
    var num := NextNumber(kf, o);
    forall key :: key in TextKeys(KindOf(r.body)) ==>
      CleanUnder(GroupOf(kf, RequestGroup(o, num)), Fields(r, Handle(o, num)), key)
  }

  predicate Holds(kf: KeyFile, pilotId: uint32, system: bool, num: uint32, r: Request) {
    Load(kf, pilotId, system, num) == Some(r)
  }

  // Whom a request is queued for when it is loaded on behalf of a pilot.
  predicate Belongs(r: Request, pilotId: uint32, system: bool) {
    SystemRelated(KindOf(r.body)) == system && QueryOwner(pilotId, system) == RequestOwner(r)
  }

  // Loading a request right after it was stored returns it, with the handle the
  // store reported, exactly when its group had no leftovers; a group that was
  // not there has none.
  lemma StoreThenLoad(kf: KeyFile, r: Request, pilotId: uint32, system: bool, num: uint32)
    requires Belongs(r, pilotId, system) && num == NextNumber(kf, RequestOwner(r))
    ensures Holds(Stored(kf, r), pilotId, system, num, LoadedForm(r, pilotId, num)) <==> NoLeftovers(kf, r)
    ensures LoadedForm(r, pilotId, num).handle == StoredHandle(kf, r)
    ensures RequestGroup(RequestOwner(r), num) !in kf ==> NoLeftovers(kf, r)
  {
    var o := RequestOwner(r);
    FieldsWriteCommon(r, Handle(o, num));
    FieldsWriteOwn(r, Handle(o, num));
    ParseOver(GroupOf(kf, RequestGroup(o, num)), Fields(r, Handle(o, num)), r, num, pilotId);
  }

  /* ----- What a store and a purge touch ----- */

  ghost predicate SameGroup(kf: KeyFile, kf': KeyFile, g: GroupName) {
    GroupOf(kf', g) == GroupOf(kf, g) && (g in kf' <==> g in kf)
  }

  lemma StoredGroups(kf: KeyFile, r: Request)
    ensures var o, kf' := RequestOwner(r), Stored(kf, r);
      var num := NextNumber(kf, o);
      && Counter(kf', o) == ToInt32(num) && RequestGroup(o, num) in kf'
      && forall g :: g != CounterGroup(o) && g != RequestGroup(o, num) ==> SameGroup(kf, kf', g)
  {
  }

  lemma PurgedGroups(kf: KeyFile, r: Request)
    requires r.section.RequestGroup?
    ensures var o, kf' := RequestOwner(r), Purged(kf, r);
      && Counter(kf', o) == ToInt32(Counter(kf, o) as int - 1) && r.section !in kf'
      && forall g :: g != CounterGroup(o) && g != r.section ==> SameGroup(kf, kf', g)
  {
  }

  lemma LoadDepends(kf: KeyFile, kf': KeyFile, pilotId: uint32, system: bool, num: uint32)
    requires SameGroup(kf, kf', RequestGroup(QueryOwner(pilotId, system), num))
    ensures Load(kf', pilotId, system, num) == Load(kf, pilotId, system, num)
  {
  }

  /* ----- Newest-first histories: a stack ----- */

  // The owner's groups are numbered exactly 1..|reqs| and hold reqs, oldest first.
  ghost predicate IsStack(kf: KeyFile, pilotId: uint32, system: bool, reqs: seq<Request>) {
    && Counter(kf, QueryOwner(pilotId, system)) == |reqs|
    && (forall n: uint32 :: 0 < n <= |reqs| ==> Nth(kf, pilotId, system, reqs, n))
    && (forall n: uint32 :: n == 0 || n > |reqs| ==> RequestGroup(QueryOwner(pilotId, system), n) !in kf)
  }

  // Number n holds the n-th request of the list.
  predicate Nth(kf: KeyFile, pilotId: uint32, system: bool, reqs: seq<Request>, n: uint32) {
    0 < n <= |reqs| && Holds(kf, pilotId, system, n, reqs[n - 1])
  }

  lemma HoldsOwn(kf: KeyFile, pilotId: uint32, system: bool, num: uint32, r: Request)
    requires Holds(kf, pilotId, system, num, r)
    ensures r.section == RequestGroup(QueryOwner(pilotId, system), num) && r.pilotId == pilotId
  {
  }

  lemma HoldsDepends(kf: KeyFile, kf': KeyFile, pilotId: uint32, system: bool, num: uint32, r: Request)
    requires SameGroup(kf, kf', RequestGroup(QueryOwner(pilotId, system), num))
    ensures Holds(kf', pilotId, system, num, r) == Holds(kf, pilotId, system, num, r)
  {
    LoadDepends(kf, kf', pilotId, system, num);
  }

  lemma NthAppend(kf: KeyFile, pilotId: uint32, system: bool, reqs: seq<Request>, r: Request, n: uint32)
    requires 0 < n <= |reqs| + 1
    requires if n <= |reqs| then Nth(kf, pilotId, system, reqs, n) else Holds(kf, pilotId, system, n, r)
    ensures Nth(kf, pilotId, system, reqs + [r], n)
  {
  }

  lemma PushOnStack(kf: KeyFile, r: Request, pilotId: uint32, system: bool, reqs: seq<Request>)
    requires Belongs(r, pilotId, system) && IsStack(kf, pilotId, system, reqs) && |reqs| + 1 < INT32_LIMIT
    ensures IsStack(Stored(kf, r), pilotId, system, reqs + [LoadedForm(r, pilotId, |reqs| + 1)])
  {
    var num: uint32 := |reqs| + 1;
    var r' := LoadedForm(r, pilotId, num);
    PushTop(kf, r, pilotId, system, num);
    var kf' := PushBelow(kf, r, pilotId, system, reqs);
    forall n: uint32 | 0 < n <= |reqs| + 1
      ensures Nth(kf', pilotId, system, reqs + [r'], n)
    {
      NthAppend(kf', pilotId, system, reqs, r', n);
    }
  }

  lemma PushTop(kf: KeyFile, r: Request, pilotId: uint32, system: bool, num: uint32)
    requires Belongs(r, pilotId, system) && Counter(kf, RequestOwner(r)) as int + 1 == num
    requires RequestGroup(RequestOwner(r), num) !in kf
    ensures Holds(Stored(kf, r), pilotId, system, num, LoadedForm(r, pilotId, num))
  {
    StoreThenLoad(kf, r, pilotId, system, num);
  }

  lemma PushBelow(kf: KeyFile, r: Request, pilotId: uint32, system: bool, reqs: seq<Request>) returns (kf': KeyFile)
    requires Belongs(r, pilotId, system) && IsStack(kf, pilotId, system, reqs) && |reqs| + 1 < INT32_LIMIT
    ensures kf' == Stored(kf, r) && Counter(kf', RequestOwner(r)) == |reqs| + 1
    ensures forall n: uint32 :: 0 < n <= |reqs| ==> Nth(kf', pilotId, system, reqs, n)
    ensures forall n: uint32 :: n == 0 || n > |reqs| + 1 ==> RequestGroup(QueryOwner(pilotId, system), n) !in kf'
  {
    kf' := Stored(kf, r);
    StoredGroups(kf, r);
    StackBelow(kf, kf', pilotId, system, reqs, |reqs|, |reqs| + 1);
  }

  // A change that spares the groups of the first m requests, and touches none
  // above number top, leaves those requests where they are and nothing above.
  lemma StackBelow(kf: KeyFile, kf': KeyFile, pilotId: uint32, system: bool, reqs: seq<Request>, m: nat, top: uint32)
    requires IsStack(kf, pilotId, system, reqs) && m <= |reqs| <= top
    requires forall n: uint32 :: n <= m || n > top ==>
               SameGroup(kf, kf', RequestGroup(QueryOwner(pilotId, system), n))
    ensures forall n: uint32 :: 0 < n <= m ==> Nth(kf', pilotId, system, reqs, n)
    ensures forall n: uint32 :: n == 0 || n > top ==> RequestGroup(QueryOwner(pilotId, system), n) !in kf'
  {
    forall n: uint32 | 0 < n <= m
      ensures Nth(kf', pilotId, system, reqs, n)
    {
      assert Nth(kf, pilotId, system, reqs, n);
      HoldsDepends(kf, kf', pilotId, system, n, reqs[n - 1]);
    }
    forall n: uint32 | n == 0 || n > top
      ensures RequestGroup(QueryOwner(pilotId, system), n) !in kf'
    {
      assert SameGroup(kf, kf', RequestGroup(QueryOwner(pilotId, system), n));
    }
  }

  ghost predicate AllBelong(reqs: seq<Request>, pilotId: uint32, system: bool) {
    forall i :: 0 <= i < |reqs| ==> SystemRelated(KindOf(reqs[i].body)) == system
  }

  lemma PopFromStack(kf: KeyFile, pilotId: uint32, system: bool, reqs: seq<Request>)
    requires IsStack(kf, pilotId, system, reqs) && reqs != [] && AllBelong(reqs, pilotId, system)
    ensures IsStack(Purged(kf, reqs[|reqs| - 1]), pilotId, system, reqs[..|reqs| - 1])
  {
    var top: uint32 := |reqs|;
    var r, rest := reqs[top - 1], reqs[..top - 1];
    var kf' := Purged(kf, r);
    assert Nth(kf, pilotId, system, reqs, top);
    HoldsOwn(kf, pilotId, system, top, r);
    PurgedGroups(kf, r);
    forall n: uint32 | 0 < n <= |rest|
      ensures Nth(kf', pilotId, system, rest, n)
    {
      assert Nth(kf, pilotId, system, reqs, n);
      HoldsDepends(kf, kf', pilotId, system, n, reqs[n - 1]);
    }
    forall n: uint32 | n == 0 || n > |rest|
      ensures RequestGroup(QueryOwner(pilotId, system), n) !in kf'
    {
      if n != top { assert SameGroup(kf, kf', RequestGroup(QueryOwner(pilotId, system), n)); }
    }
  }

  // A change to one owner's groups leaves the other owners' stacks alone.
  lemma OtherOwnersKeep(kf: KeyFile, kf': KeyFile, o: Owner, pilotId: uint32, system: bool, reqs: seq<Request>)
    requires IsStack(kf, pilotId, system, reqs) && QueryOwner(pilotId, system) != o
    requires forall g: GroupName :: (g.CounterGroup? || g.RequestGroup?) && g.o != o ==> SameGroup(kf, kf', g)
    ensures IsStack(kf', pilotId, system, reqs)
  {
    var mine := QueryOwner(pilotId, system);
    assert SameGroup(kf, kf', CounterGroup(mine));
    forall n: uint32
      ensures 0 < n <= |reqs| ==> Nth(kf', pilotId, system, reqs, n)
      ensures n == 0 || n > |reqs| ==> RequestGroup(mine, n) !in kf'
    {
      assert SameGroup(kf, kf', RequestGroup(mine, n));
      if 0 < n <= |reqs| {
        assert Nth(kf, pilotId, system, reqs, n);
        HoldsDepends(kf, kf', pilotId, system, n, reqs[n - 1]);
      }
    }
  }

  function Reversed<T>(s: seq<T>): seq<T> {
    if s == [] then [] else [s[|s| - 1]] + Reversed(s[..|s| - 1])
  }

  // The requests of one kind, or all of them, in order.
  function Chosen(reqs: seq<Request>, wanted: Option<Kind>): seq<Request> {
    if reqs == [] then []
    else
      var last := reqs[|reqs| - 1];
      Chosen(reqs[..|reqs| - 1], wanted) + if Wanted(Some(last), wanted) then [last] else []
  }

  lemma {:induction false} LoadDownStack(kf: KeyFile, pilotId: uint32, system: bool, wanted: Option<Kind>,
                                         reqs: seq<Request>, list: seq<Request>)
    requires |reqs| < INT32_LIMIT
    requires forall n: uint32 :: 0 < n <= |reqs| ==> Nth(kf, pilotId, system, reqs, n)
    ensures LoadDown(kf, pilotId, system, wanted, |reqs|, list) == list + Reversed(Chosen(reqs, wanted))
    decreases |reqs|
  {
    if reqs != [] {
      var num: uint32 := |reqs|;
      var last, rest := reqs[num - 1], reqs[..num - 1];
      assert Nth(kf, pilotId, system, reqs, num);
      forall n: uint32 | 0 < n <= |rest|
        ensures Nth(kf, pilotId, system, rest, n)
      {
        assert Nth(kf, pilotId, system, reqs, n);
      }
      var list' := if Wanted(Some(last), wanted) then list + [last] else list;
      LoadDownNext(kf, pilotId, system, wanted, num, list, last);
      LoadDownStack(kf, pilotId, system, wanted, rest, list');
      ChosenLast(reqs, wanted, list);
    }
  }

  lemma LoadDownNext(kf: KeyFile, pilotId: uint32, system: bool, wanted: Option<Kind>, num: uint32,
                     list: seq<Request>, r: Request)
    requires num > 0 && Holds(kf, pilotId, system, num, r)
    ensures LoadDown(kf, pilotId, system, wanted, num, list)
         == LoadDown(kf, pilotId, system, wanted, num - 1, if Wanted(Some(r), wanted) then list + [r] else list)
  {
  }

  lemma ChosenLast(reqs: seq<Request>, wanted: Option<Kind>, list: seq<Request>)
    requires reqs != []
    ensures var last, rest := reqs[|reqs| - 1], reqs[..|reqs| - 1];
      list + Reversed(Chosen(reqs, wanted)) ==
      (if Wanted(Some(last), wanted) then list + [last] else list) + Reversed(Chosen(rest, wanted))
  {
    var last, picked := reqs[|reqs| - 1], Chosen(reqs[..|reqs| - 1], wanted);
    if Wanted(Some(last), wanted) {
      assert (picked + [last])[..|picked|] == picked;
      assert (list + [last]) + Reversed(picked) == list + ([last] + Reversed(picked));
    } else {
      assert picked + [] == picked;
    }
  }

  // Loading returns the stack from newest to oldest, or those of the kind asked for.
  lemma LoadStack(kf: KeyFile, pilotId: uint32, system: bool, wanted: Option<Kind>, reqs: seq<Request>)
    requires IsStack(kf, pilotId, system, reqs)
    ensures Loaded(kf, pilotId, system, wanted) == Reversed(Chosen(reqs, wanted))
  {
    LoadDownStack(kf, pilotId, system, wanted, reqs, []);
  }
}
