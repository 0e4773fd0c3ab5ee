// capplet/util.c's search for a name no cradle or pilot has yet.
module FreshNames {
  import opened Text

  const CRADLE: string := "Cradle"
  const PDA: string := "MyPDA"

  // The candidates in the order they are tried: the bare name, then numbered ones.
  function Candidate(base: string, i: nat): string {
    if i == 0 then base else base + Decimal(i)
  }

  lemma CandidateInjective(base: string, i: nat, j: nat)
    requires Candidate(base, i) == Candidate(base, j)
    ensures i == j
  {
    if i > 0 && j > 0 { NumberedInjective(base, i, j); }
  }

  function Without(names: seq<string>, k: nat): (r: seq<string>)
    requires k < |names|
    ensures |r| == |names| - 1
    ensures forall x :: x in names && x != names[k] ==> x in r
  {
    assert names == names[..k] + [names[k]] + names[k + 1..];
    names[..k] + names[k + 1..]
  }

  // Pigeonholes: a list in which the first n candidates are all taken has n names.
  lemma {:induction false} TakenFillTheList(base: string, names: seq<string>, n: nat)
    requires forall i: nat :: i < n ==> Candidate(base, i) in names
    ensures n <= |names|
  {
    if n > 0 {
      var k :| 0 <= k < |names| && names[k] == Candidate(base, n - 1);
      forall i: nat | i < n - 1 ensures Candidate(base, i) in Without(names, k) {
        if Candidate(base, i) == Candidate(base, n - 1) { CandidateInjective(base, i, n - 1); }
      }
      TakenFillTheList(base, Without(names, k), n - 1);
    }
  }

  // The first candidate nobody has.
  ghost predicate IsNextName(base: string, names: seq<string>, name: string) {
    exists n: nat :: n <= |names| && FirstFreeAt(base, names, name, n)
  }

  ghost predicate FirstFreeAt(base: string, names: seq<string>, name: string, n: nat) {
    && name == (if n == 0 then base else base + Decimal(n))
    && name !in names
    && (n > 0 ==> base in names)
    && forall i: nat :: 0 < i < n ==> base + Decimal(i) in names
  }

  // The loop of next_cradle_name and next_pilot_name. It stops after at most one
  // try more than the list has names; what it writes into its buffer on the way
  // are candidates numbered up to that.
  method NextName(base: string, names: seq<string>) returns (name: string)
    ensures IsNextName(base, names, name)
  {
    var i := 0;
    name := base;
    while name in names
      invariant name == Candidate(base, i)
      invariant forall k: nat :: k < i ==> Candidate(base, k) in names
      invariant i <= |names|
      decreases |names| - i
    {
      TakenFillTheList(base, names, i + 1);
      i := i + 1;
      name := base + Decimal(i);
    }
    forall k: nat | 0 < k < i
      ensures base + Decimal(k) in names
    {
      assert Candidate(base, k) in names;
    }
    assert FirstFreeAt(base, names, name, i);
  }

  method NextCradleName(devices: seq<string>) returns (name: string)
    ensures IsNextName(CRADLE, devices, name)
  {
    name := NextName(CRADLE, devices);
  }

  method NextPilotName(pilots: seq<string>) returns (name: string)
    ensures IsNextName(PDA, pilots, name)
  {
    name := NextName(PDA, pilots);
  }

  function Power(k: nat): (p: nat)
    ensures p > 0
  {
    if k == 0 then 1 else 10 * Power(k - 1)
  }

  lemma {:induction false} DigitsExactly(n: nat, k: nat)
    requires k > 0
    ensures |Decimal(n)| <= k <==> n < Power(k)
  {
    if k == 1 {
      assert Power(1) == 10;
      if n >= 10 { assert |Decimal(n / 10)| >= 1; }
    } else if n < 10 {
      assert Power(k) == 10 * Power(k - 1) >= 10;
    } else {
      DigitsExactly(n / 10, k - 1);
      assert n / 10 < Power(k - 1) <==> n < 10 * Power(k - 1);
    }
  }

  const BUFFER: nat := 16

  // A candidate and its terminating zero fit the buffer of 16 bytes exactly when
  // the number leaves it room: below 10^9 for cradles, below 10^10 for pilots.
  lemma FitsExactly(i: nat)
    ensures |Candidate(CRADLE, i)| < BUFFER <==> i < 1_000_000_000
    ensures |Candidate(PDA, i)| < BUFFER <==> i < 10_000_000_000
  {
    if i > 0 {
      DigitsExactly(i, 9);
      DigitsExactly(i, 10);
      assert Power(4) == 10_000;
      assert Power(8) == 100_000_000;
    }
  }

  // With fewer names than fill the numbers that fit, the search never writes past
  // its buffer.
  lemma EveryTryFits(base: string, names: seq<string>, i: nat)
    requires base == CRADLE || base == PDA
    requires |names| < if base == CRADLE then 1_000_000_000 else 10_000_000_000
    requires forall k: nat :: k < i ==> Candidate(base, k) in names
    ensures |Candidate(base, i)| < BUFFER
  {
    TakenFillTheList(base, names, i);
    FitsExactly(i);
  }
}
