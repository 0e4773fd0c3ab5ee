// The bits of text handling the file formats rely on: decimal numbers in group
// names, and comparison that ignores ASCII case.
module Text {

  predicate IsDigit(c: char) {
    '0' <= c <= '9'
  }

  function Digit(d: nat): (c: char)
    requires d < 10
    ensures IsDigit(c)
  {
    ('0' as int + d) as char
  }

  // printf's %u
  function Decimal(n: nat): (s: string)
    ensures s != [] && forall i :: 0 <= i < |s| ==> IsDigit(s[i])
  {
    if n < 10 then [Digit(n)] else Decimal(n / 10) + [Digit(n % 10)]
  }

  // The number a row of digits stands for in base ten.
  function Reading(s: string): nat
    requires forall i :: 0 <= i < |s| ==> IsDigit(s[i])
  {
    if s == [] then 0
    else
      var last := s[|s| - 1];
      assert IsDigit(last);
      10 * Reading(s[..|s| - 1]) + (last as int - '0' as int)
  }

  // What is printed reads as the number, and starts with 0 for 0 only.
  lemma {:induction false} DecimalReads(n: nat)
    ensures Reading(Decimal(n)) == n
    ensures Decimal(n)[0] == '0' <==> n == 0
    decreases n
  {
    if n >= 10 {
      DecimalReads(n / 10);
      assert Decimal(n)[..|Decimal(n)| - 1] == Decimal(n / 10);
    }
  }

  // printf's %d
  function Signed(i: int): string {
    if i < 0 then "-" + Decimal(-i) else Decimal(i)
  }

  lemma {:induction false} DecimalInjective(m: nat, n: nat)
    requires Decimal(m) == Decimal(n)
    ensures m == n
  {
    var a, b := Decimal(m), Decimal(n);
    assert a[|a| - 1] == Digit(m % 10) && b[|b| - 1] == Digit(n % 10);
    assert m % 10 == n % 10;
    if m >= 10 && n >= 10 {
      assert a[..|a| - 1] == Decimal(m / 10) && b[..|b| - 1] == Decimal(n / 10);
      DecimalInjective(m / 10, n / 10);
    }
  }

  // Two names that continue equal heads with numbers are told apart by the number.
  lemma NumberedInjective(head: string, m: nat, n: nat)
    requires head + Decimal(m) == head + Decimal(n)
    ensures m == n
  {
    assert (head + Decimal(m))[|head|..] == Decimal(m);
    assert (head + Decimal(n))[|head|..] == Decimal(n);
    DecimalInjective(m, n);
  }

  function Lower(c: char): char {
    if 'A' <= c <= 'Z' then (c as int + 32) as char else c
  }

  // g_ascii_strcasecmp (a, b) == 0
  predicate SameIgnoringCase(a: string, b: string) {
    if a == [] || b == [] then a == b
    else Lower(a[0]) == Lower(b[0]) && SameIgnoringCase(a[1..], b[1..])
  }

  // Equal, or the two cases of one of the letters A to Z, which are 32 apart.
  predicate SameLetter(x: char, y: char) {
    || x == y
    || ('A' <= x <= 'Z' && y as int == x as int + 32)
    || ('A' <= y <= 'Z' && x as int == y as int + 32)
  }

  // Two texts are the same but for case exactly when they are as long as each
  // other and so is each letter.
  lemma SameIgnoringCaseExactly(a: string, b: string)
    ensures SameIgnoringCase(a, b) <==>
            |a| == |b| && forall i :: 0 <= i < |a| ==> SameLetter(a[i], b[i])
  {
    SameIgnoringCaseAt(a, b);
    assert forall x, y :: SameLetter(x, y) <==> Lower(x) == Lower(y);
  }

  lemma {:induction false} SameIgnoringCaseAt(a: string, b: string)
    ensures SameIgnoringCase(a, b) <==>
            |a| == |b| && forall i :: 0 <= i < |a| ==> Lower(a[i]) == Lower(b[i])
  {
    if a != [] && b != [] {
      SameIgnoringCaseAt(a[1..], b[1..]);
      var x, y := a[1..], b[1..];
      assert forall i :: 1 <= i < |a| ==> a[i] == x[i - 1];
      assert forall i :: 1 <= i < |b| ==> b[i] == y[i - 1];
      if |a| == |b| && forall i :: 0 <= i < |a| ==> Lower(a[i]) == Lower(b[i]) {
        assert forall i :: 0 <= i < |x| ==> x[i] == a[i + 1] && y[i] == b[i + 1];
      }
    }
  }
}
