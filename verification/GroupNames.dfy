// The text of the groups' names, and why the model may keep them as values of a
// datatype: within one file no two groups are written the same way.
module GroupNames {
  import opened Text
  import opened KeyFiles

  function NameOf(g: GroupName): string {
    match g
    case CounterGroup(o) => if o.System? then "system" else Decimal(o.id)
    case RequestGroup(o, num) =>
      if o.System? then "system-" + Signed(ToInt32(num)) else Decimal(o.id) + "-" + Decimal(num)
    case General => "General"
    case DeviceGroup(i) => "Device" + Decimal(i)
    case PilotGroup(i) => "Pilot" + Decimal(i)
    case ConduitGroup(id) => id
  }

  predicate InQueueFile(g: GroupName) {
    g.CounterGroup? || g.RequestGroup?
  }

  predicate InDaemonFile(g: GroupName) {
    g.General? || g.DeviceGroup? || g.PilotGroup?
  }

  lemma SignShows(i: int)
    ensures Signed(i) != [] && (Signed(i)[0] == '-' <==> i < 0)
  {
    assert i >= 0 ==> IsDigit(Decimal(i)[0]);
  }

  lemma SignedInjective(i: int, j: int)
    requires Signed(i) == Signed(j)
    ensures i == j
  {
    SignShows(i);
    SignShows(j);
    if i < 0 { NumberedInjective("-", -i, -j); } else { DecimalInjective(i, j); }
  }

  lemma SignedNameInjective(head: string, i: int, j: int)
    requires head + Signed(i) == head + Signed(j)
    ensures i == j
  {
    assert (head + Signed(i))[|head|..] == Signed(i);
    assert (head + Signed(j))[|head|..] == Signed(j);
    SignedInjective(i, j);
  }

  // A pilot's request name determines the pilot and the number.
  lemma PilotNameInjective(a: nat, m: nat, b: nat, n: nat)
    requires Decimal(a) + "-" + Decimal(m) == Decimal(b) + "-" + Decimal(n)
    ensures a == b && m == n
  {
    var x, y := Decimal(a), Decimal(b);
    var s := x + "-" + Decimal(m);
    assert s[|x|] == '-' && s[|y|] == '-';
    assert forall i :: 0 <= i < |x| ==> s[i] == x[i];
    assert forall i :: 0 <= i < |y| ==> s[i] == y[i];
    assert |x| == |y|;
    assert x == s[..|x|] && y == s[..|y|];
    DecimalInjective(a, b);
    NumberedInjective(x + "-", m, n);
  }

  lemma OwnerShows(g: GroupName)
    requires InQueueFile(g)
    ensures NameOf(g) != [] && (NameOf(g)[0] == 's' <==> g.o.System?)
  {
    assert g.o.Pilot? ==> IsDigit(Decimal(g.o.id)[0]) && NameOf(g)[0] == Decimal(g.o.id)[0];
  }

  lemma NumberShows(g: GroupName)
    requires InQueueFile(g)
    ensures '-' in NameOf(g) <==> g.RequestGroup?
  {
    var s := NameOf(g);
    if g.RequestGroup? {
      assert s[if g.o.System? then 6 else |Decimal(g.o.id)|] == '-';
    } else if g.o.Pilot? {
      assert forall i :: 0 <= i < |s| ==> IsDigit(s[i]);
    }
  }

  // No two groups of the queue file share a name.
  lemma QueueNamesDistinct(g: GroupName, h: GroupName)
    requires InQueueFile(g) && InQueueFile(h) && NameOf(g) == NameOf(h)
    ensures g == h
  {
    OwnerShows(g);
    OwnerShows(h);
    NumberShows(g);
    NumberShows(h);
    if g.CounterGroup? {
      if g.o.Pilot? { DecimalInjective(g.o.id, h.o.id); }
    } else if g.o.System? {
      SignedNameInjective("system-", ToInt32(g.num), ToInt32(h.num));
      UnsignedRoundTrip(g.num);
      UnsignedRoundTrip(h.num);
    } else {
      PilotNameInjective(g.o.id, g.num, h.o.id, h.num);
    }
  }

  // Nor do two groups of the daemon's configuration.
  lemma DaemonNamesDistinct(g: GroupName, h: GroupName)
    requires InDaemonFile(g) && InDaemonFile(h) && NameOf(g) == NameOf(h)
    ensures g == h
  {
    assert NameOf(g)[0] == NameOf(h)[0];
    if g.DeviceGroup? {
      NumberedInjective("Device", g.i, h.i);
    } else if g.PilotGroup? {
      NumberedInjective("Pilot", g.i, h.i);
    }
  }
}
