// gpilotd/gnome-pilot-conduit.c's progress signal, sent only when the progress
// has moved on by a whole step. Percentages are computed with exact fractions
// where the program uses floating point.
module Progress {
  import opened KeyFiles

  function Abs(r: real): real {
    if r < 0.0 then -r else r
  }

  // (int) truncates towards zero, so taking the absolute value first is the same.
  function Percent(total: int, current: int): int
    requires total != 0
  {
    var pct := Abs(current as real / (total as real / 100.0)).Floor;
    if pct < 1 then 1 else pct
  }

  // The percentage a report is judged by. A total of zero is divided by all the
  // same; C leaves open what the conversion of that quotient to an integer gives,
  // so the outcome is a parameter.
  function Judged(total: int, current: int, undefined: int): int {
    if total != 0 then Percent(total, current) else if undefined < 1 then 1 else undefined
  }

  function Capped(total: int, current: int): int {
    if current > total then total else current
  }

  // The two tests, for a stepping that is not zero: the new top, and whether to send.
  function Moved(top: int, stepping: int, pct: int): (int, bool) {
    var base := if pct < top then 0 else top;
    if pct >= base + stepping then (pct, true) else (base, pct < top)
  }

  // A progress signal as its receivers see it.
  datatype Signal = Signal(total: int, current: int)

  class Conduit {
    var progressTop: int
    var progressStepping: int32
    var sent: seq<Signal>

    constructor ()
      ensures progressTop == 0 && progressStepping == 0 && sent == []
    {
      progressTop, progressStepping, sent := 0, 0, [];
    }

    method SendProgress(total: int, current: int, undefined: int)
      modifies this
      ensures progressStepping == old(progressStepping)
      ensures progressStepping == 0 ==>
                progressTop == old(progressTop) && sent == old(sent) + [Signal(total, Capped(total, current))]
      ensures progressStepping != 0 ==>
                && var (top, emit) := Moved(old(progressTop), progressStepping,
                                            Judged(total, Capped(total, current), undefined));
                && progressTop == top
                && sent == old(sent) + if emit then [Signal(total, Capped(total, current))] else []
    {
      var cur := current;
      if cur > total { cur := total; }
      if progressStepping != 0 {
        var emit := false;
        var pct := undefined;
        if total != 0 { pct := Abs(cur as real / (total as real / 100.0)).Floor; }
        if pct < 1 { pct := 1; }
        if pct < progressTop {
          progressTop := 0;
          emit := true;
        }
        if pct >= progressTop + progressStepping {
          progressTop := pct;
          emit := true;
        }
        if emit { sent := sent + [Signal(total, cur)]; }
      }
      if progressStepping == 0 {
        sent := sent + [Signal(total, cur)];
      }
    }
  }

  // The signals sent for a run of reports against one total.
  function Signals(top: int, stepping: int, total: int, currents: seq<int>): seq<Signal>
    requires total != 0
    decreases |currents|
  {
    if currents == [] then []
    else
      var cur := Capped(total, currents[0]);
      var (top', emit) := Moved(top, stepping, Percent(total, cur));
      (if emit then [Signal(total, cur)] else []) + Signals(top', stepping, total, currents[1..])
  }

  // The percentages sent for a run of percentages.
  function Sent(top: int, stepping: int, pcts: seq<int>): seq<int>
    decreases |pcts|
  {
    if pcts == [] then []
    else
      var (top', emit) := Moved(top, stepping, pcts[0]);
      (if emit then [pcts[0]] else []) + Sent(top', stepping, pcts[1..])
  }

  predicate Rising(s: seq<int>) {
    forall i, j :: 0 <= i < j < |s| ==> s[i] <= s[j]
  }

  predicate Within(s: seq<int>, low: int, high: int) {
    forall i :: 0 <= i < |s| ==> low <= s[i] <= high
  }

  // For a positive total the percentage is the rounded-down quotient, at least 1
  // and at most 100, and it rises with the progress.
  lemma PercentIsQuotient(total: int, current: int)
    requires 0 < total && 0 <= current
    ensures var cur := Capped(total, current);
            && Percent(total, cur) == (if 100 * cur < total then 1 else 100 * cur / total)
            && 1 <= Percent(total, cur) <= 100
  {
    var cur := Capped(total, current);
    var r := cur as real / (total as real / 100.0);
    QuotientFloor(100 * cur, total, r);
  }

  // Signs do not matter, so a negative progress or total counts by its size; and no
  // report is judged below 1, whatever its total.
  lemma PercentIgnoresSigns(total: int, current: int)
    requires total != 0
    ensures Percent(-total, current) == Percent(total, current) == Percent(total, -current)
  {
    var d := total as real / 100.0;
    assert (-total) as real / 100.0 == -d;
    assert (current as real) / (-d) == -(current as real / d) == (-current) as real / d;
  }

  lemma JudgedExactly(total: int, current: int, undefined: int)
    ensures Judged(total, current, undefined) >= 1
    ensures total != 0 ==> Judged(total, current, undefined) == Percent(total, current)
    ensures total == 0 ==> (Judged(total, current, undefined) == 1 <==> undefined <= 1)
    ensures total == 0 && undefined >= 1 ==> Judged(total, current, undefined) == undefined
  {
  }

  lemma ScaledReal(x: real, y: real, b: real)
    requires b > 0.0
    ensures x < y <==> x * b < y * b
  {
    assert y * b - x * b == (y - x) * b;
    if x < y {
      assert (y - x) * b > 0.0;
    } else {
      assert (y - x) * b <= 0.0;
    }
  }

  lemma ScaledInt(x: int, y: int, b: int)
    requires b > 0
    ensures x < y <==> x * b < y * b
  {
    assert y * b - x * b == (y - x) * b;
    if x < y {
      assert (y - x) * b > 0;
    } else {
      assert (y - x) * b <= 0;
    }
  }

  // r is the exact quotient of a by b; its whole part is the rounded-down one.
  lemma QuotientFloor(a: nat, b: int, r: real)
    requires b > 0 && r * (b as real) == a as real
    ensures r >= 0.0 && r.Floor == a / b
    ensures a / b < 1 <==> a < b
  {
    var q := a / b;
    Quotient(a, b);
    WholePart(r, q, a, b);
    ScaledInt(q, 1, b);
  }

  lemma Quotient(a: nat, b: int)
    requires b > 0
    ensures 0 <= a / b && (a / b) * b <= a < (a / b + 1) * b
  {
  }

  lemma WholePart(r: real, q: int, a: int, b: int)
    requires b > 0 && 0 <= q && q * b <= a < (q + 1) * b && r * (b as real) == a as real
    ensures r >= 0.0 && r.Floor == q
  {
    BelowExactly(r, q, a, b);
    BelowExactly(r, q + 1, a, b);
  }

  lemma BelowExactly(r: real, q: int, a: int, b: int)
    requires b > 0 && r * (b as real) == a as real
    ensures r < q as real <==> a < q * b
  {
    ScaledReal(r, q as real, b as real);
    ProductAsReal(q, b);
  }

  lemma ProductAsReal(x: int, y: int)
    ensures (x as real) * (y as real) == (x * y) as real
  {
  }

  lemma QuotientRises(a: nat, b: nat, total: int)
    requires 0 < total && a <= b
    ensures a / total <= b / total
  {
    Quotient(a, total);
    Quotient(b, total);
    ScaledInt(a / total, b / total + 1, total);
  }

  lemma PercentRises(total: int, one: int, other: int)
    requires 0 < total && 0 <= one <= other
    ensures Percent(total, Capped(total, one)) <= Percent(total, Capped(total, other))
  {
    PercentIsQuotient(total, one);
    PercentIsQuotient(total, other);
    QuotientRises(100 * Capped(total, one), 100 * Capped(total, other), total);
  }

  // No whole step of progress goes unreported.
  lemma LastSentIsNear(top: int, stepping: int, pct: int)
    requires 0 <= top && 0 < stepping && 1 <= pct
    ensures var (top', emit) := Moved(top, stepping, pct);
            && top' <= pct < top' + stepping
            && (emit <==> pct < top || pct >= top + stepping)
  {
  }

  lemma {:induction false} SentWithin(top: int, stepping: int, pcts: seq<int>, low: int, high: int)
    requires Within(pcts, low, high)
    ensures Within(Sent(top, stepping, pcts), low, high)
    decreases |pcts|
  {
    if pcts != [] { SentWithin(Moved(top, stepping, pcts[0]).0, stepping, pcts[1..], low, high); }
  }

  /* ----- Which reports are sent ----- */

  // A fall starts over: the report that falls is sent, and from then on steps are
  // counted from it if it is a whole step itself, and from 0 if not.
  lemma FallStartsOver(top: int, stepping: int, pct: int, rest: seq<int>)
    requires pct < top
    ensures Sent(top, stepping, [pct] + rest) ==
            if pct < stepping then [pct] + Sent(0, stepping, rest) else Sent(0, stepping, [pct] + rest)
    ensures Sent(top, stepping, [pct] + rest)[..1] == [pct]
  {
    assert ([pct] + rest)[1..] == rest;
  }

  // A report short of the next step leaves no trace; one that reaches it is sent,
  // and the next step is counted from it.
  lemma RiseStepByStep(top: int, stepping: int, pct: int, rest: seq<int>)
    requires top <= pct
    ensures Sent(top, stepping, [pct] + rest) ==
            if pct < top + stepping then Sent(top, stepping, rest) else [pct] + Sent(pct, stepping, rest)
  {
    assert ([pct] + rest)[1..] == rest;
  }

  function LastOf(top: int, sent: seq<int>): int {
    if sent == [] then top else sent[|sent| - 1]
  }

  // The top after a run of reports.
  function TopAfter(top: int, stepping: int, pcts: seq<int>): int
    decreases |pcts|
  {
    if pcts == [] then top else TopAfter(Moved(top, stepping, pcts[0]).0, stepping, pcts[1..])
  }

  lemma {:induction false} SentOfSum(top: int, stepping: int, pcts: seq<int>, more: seq<int>)
    ensures Sent(top, stepping, pcts + more)
         == Sent(top, stepping, pcts) + Sent(TopAfter(top, stepping, pcts), stepping, more)
    decreases |pcts|
  {
    if pcts == [] {
      assert pcts + more == more;
    } else {
      assert (pcts + more)[1..] == pcts[1..] + more;
      SentOfSum(Moved(top, stepping, pcts[0]).0, stepping, pcts[1..], more);
    }
  }

  // In a rising run it is the last percentage sent.
  lemma {:induction false} TopIsLast(top: int, stepping: int, pcts: seq<int>)
    requires 0 < stepping && Rising(pcts) && (pcts != [] ==> top <= pcts[0])
    ensures TopAfter(top, stepping, pcts) == LastOf(top, Sent(top, stepping, pcts))
    decreases |pcts|
  {
    if pcts != [] {
      assert |pcts| > 1 ==> pcts[0] <= pcts[1];
      TopIsLast(Moved(top, stepping, pcts[0]).0, stepping, pcts[1..]);
    }
  }

  // So what follows a rising run is judged by the last percentage sent.
  lemma RiseContinues(top: int, stepping: int, pcts: seq<int>, more: seq<int>)
    requires 0 < stepping && Rising(pcts) && (pcts != [] ==> top <= pcts[0])
    ensures var sent := Sent(top, stepping, pcts);
      Sent(top, stepping, pcts + more) == sent + Sent(LastOf(top, sent), stepping, more)
  {
    SentOfSum(top, stepping, pcts, more);
    TopIsLast(top, stepping, pcts);
  }

  // So of a rising run exactly those reports are sent that are a whole step above
  // the last one sent.
  lemma RiseSendsExactly(top: int, stepping: int, pcts: seq<int>, pct: int)
    requires 0 < stepping && Rising(pcts) && top <= pct
    requires forall i :: 0 <= i < |pcts| ==> top <= pcts[i] <= pct
    ensures var sent := Sent(top, stepping, pcts);
      Sent(top, stepping, pcts + [pct]) ==
      if pct >= LastOf(top, sent) + stepping then sent + [pct] else sent
  {
    var sent := Sent(top, stepping, pcts);
    SentWithin(top, stepping, pcts, top, pct);
    RiseContinues(top, stepping, pcts, [pct]);
    RiseStepByStep(LastOf(top, sent), stepping, pct, []);
    assert [pct] + [] == [pct] && sent + [] == sent;
  }

  // A second phase that begins below the last percentage sent starts over: after
  // what the first one sent comes what the second would send by itself, but for a
  // first report short of a step, which is sent because it falls.
  lemma PhaseStartsOver(top: int, stepping: int, first: seq<int>, second: seq<int>)
    requires 0 < stepping && Rising(first) && (first != [] ==> top <= first[0])
    requires second != [] && second[0] < LastOf(top, Sent(top, stepping, first))
    ensures Sent(top, stepping, first + second) ==
            Sent(top, stepping, first) +
            if second[0] < stepping then [second[0]] + Sent(0, stepping, second[1..]) else Sent(0, stepping, second)
  {
    RiseContinues(top, stepping, first, second);
    assert [second[0]] + second[1..] == second;
    FallStartsOver(LastOf(top, Sent(top, stepping, first)), stepping, second[0], second[1..]);
  }

  // A rising run that starts at or above the top sends one signal for each step at
  // most, and each signal is a whole step above the last.
  lemma {:induction false} StepsApart(top: int, stepping: int, pcts: seq<int>)
    requires 0 <= top && 0 < stepping
    requires Rising(pcts) && (pcts != [] ==> top <= pcts[0])
    ensures Apart(top, stepping, Sent(top, stepping, pcts))
    decreases |pcts|
  {
    if pcts != [] {
      var (top', emit) := Moved(top, stepping, pcts[0]);
      assert |pcts| > 1 ==> pcts[0] <= pcts[1];
      StepsApart(top', stepping, pcts[1..]);
      if emit { ApartCons(top, stepping, pcts[0], Sent(top', stepping, pcts[1..])); }
    }
  }

  predicate Apart(top: int, stepping: int, sent: seq<int>) {
    && (sent != [] ==> sent[0] >= top + stepping)
    && (sent != [] ==> sent[|sent| - 1] >= top + stepping * |sent|)
    && (forall i :: 0 < i < |sent| ==> sent[i] >= sent[i - 1] + stepping)
  }

  lemma ApartCons(top: int, stepping: int, pct: int, rest: seq<int>)
    requires 0 < stepping && pct >= top + stepping && Apart(pct, stepping, rest)
    ensures Apart(top, stepping, [pct] + rest)
  {
    var n := |rest|;
    assert stepping * (n + 1) == stepping + stepping * n;
    if rest != [] { assert ([pct] + rest)[n] == rest[n - 1]; }
  }

  lemma CountBound(n: nat, stepping: int, room: int)
    requires 0 < stepping && n * stepping <= room
    ensures n <= room / stepping
  {
    var q := room / stepping;
    assert room < (q + 1) * stepping;
    ScaledInt(n, q + 1, stepping);
  }

  lemma CountFits(top: int, stepping: int, sent: seq<int>)
    requires 0 <= top && 0 < stepping && Within(sent, 1, 100)
    requires sent != [] ==> sent[|sent| - 1] >= top + stepping * |sent|
    ensures |sent| <= 100 / stepping
  {
    if sent != [] {
      var n := |sent|;
      assert n * stepping <= 100 by { assert sent[n - 1] <= 100; }
      CountBound(n, stepping, 100);
    }
  }

  lemma FewSent(top: int, stepping: int, pcts: seq<int>)
    requires 0 <= top <= 100 && 0 < stepping
    requires Rising(pcts) && Within(pcts, 1, 100) && (pcts != [] ==> top <= pcts[0])
    ensures |Sent(top, stepping, pcts)| <= 100 / stepping
  {
    StepsApart(top, stepping, pcts);
    SentWithin(top, stepping, pcts, 1, 100);
    CountFits(top, stepping, Sent(top, stepping, pcts));
  }

  // The percentages of a run of reports against one total.
  function Percents(total: int, currents: seq<int>): (pcts: seq<int>)
    requires total != 0
    ensures |pcts| == |currents|
  {
    seq(|currents|, i requires 0 <= i < |currents| => Percent(total, Capped(total, currents[i])))
  }

  // Reports that never fall back, against a positive total, send at most one
  // signal a step from a fresh start, and one more from any other; every
  // percentage sent lies in 1..100.
  lemma Throttled(total: int, currents: seq<int>, top: int, stepping: int)
    requires 0 < total && 0 <= top <= 100 && 0 < stepping
    requires Rising(currents) && forall i :: 0 <= i < |currents| ==> 0 <= currents[i]
    ensures var sent := Sent(top, stepping, Percents(total, currents));
            |sent| <= 100 / stepping + (if top == 0 then 0 else 1) && Within(sent, 1, 100)
  {
    var pcts := Percents(total, currents);
    forall i | 0 <= i < |pcts| ensures 1 <= pcts[i] <= 100 {
      PercentIsQuotient(total, currents[i]);
    }
    forall i, j | 0 <= i < j < |pcts| ensures pcts[i] <= pcts[j] {
      PercentRises(total, currents[i], currents[j]);
    }
    SentWithin(top, stepping, pcts, 1, 100);
    if pcts == [] || top <= pcts[0] {
      FewSent(top, stepping, pcts);
    } else {
      var top' := Moved(top, stepping, pcts[0]).0;
      assert |pcts| > 1 ==> pcts[0] <= pcts[1];
      FewSent(top', stepping, pcts[1..]);
    }
  }

  function Steps(stepping: int, n: nat): (s: seq<int>)
    ensures |s| == n
  {
    seq(n, i requires 0 <= i => stepping * (i + 1))
  }

  lemma {:induction false} EveryStepIsSent(done: nat, stepping: int, n: nat)
    requires 0 < stepping
    ensures var pcts := Steps(stepping, done + n)[done..];
            Sent(stepping * done, stepping, pcts) == pcts
    decreases n
  {
    var pcts := Steps(stepping, done + n)[done..];
    if n > 0 {
      assert pcts[0] == stepping * (done + 1) == stepping * done + stepping;
      assert pcts[1..] == Steps(stepping, done + 1 + (n - 1))[done + 1..];
      EveryStepIsSent(done + 1, stepping, n - 1);
    }
  }

  lemma StepIsItsPercent(stepping: int, k: nat)
    requires 0 < stepping && 0 < k <= 100 / stepping
    ensures Percent(100, Capped(100, stepping * k)) == stepping * k
    ensures 0 < stepping * k
  {
    assert stepping * k <= stepping * (100 / stepping) <= 100 by {
      ScaledInt(100 / stepping, k, stepping);
    }
    ScaledInt(0, k, stepping);
    PercentIsQuotient(100, stepping * k);
    assert 100 * (stepping * k) / 100 == stepping * k;
  }

  // The bound is the best one: a run over 100 that reports every whole step has
  // them all sent.
  lemma BoundIsMet(stepping: int)
    requires 0 < stepping
    ensures var currents := Steps(stepping, 100 / stepping);
            |Sent(0, stepping, Percents(100, currents))| == 100 / stepping
  {
    var n := 100 / stepping;
    var currents := Steps(stepping, n);
    forall i | 0 <= i < n ensures Percents(100, currents)[i] == currents[i] {
      StepIsItsPercent(stepping, i + 1);
    }
    assert Percents(100, currents) == currents == currents[0..];
    EveryStepIsSent(0, stepping, n);
  }

  lemma RisingSteps(stepping: int, n: nat)
    requires 0 < stepping
    ensures Rising(Steps(stepping, n))
  {
    forall i, j | 0 <= i < j < n ensures Steps(stepping, n)[i] <= Steps(stepping, n)[j] {
      ScaledInt(i + 1, j + 1, stepping);
    }
  }

  // A run whose reports are all sent, and which ends above its first step, is all
  // sent again; a single step is not, as it does not fall.
  lemma SentTwice(stepping: int, steps: seq<int>)
    requires 0 < stepping && steps != [] && Rising(steps) && steps[0] == stepping
    requires Sent(0, stepping, steps) == steps
    ensures steps[|steps| - 1] > stepping ==> Sent(0, stepping, steps + steps) == steps + steps
    ensures |steps| == 1 ==> Sent(0, stepping, steps + steps) == steps
  {
    if steps[|steps| - 1] > stepping {
      PhaseStartsOver(0, stepping, steps, steps);
    } else if |steps| == 1 {
      RiseContinues(0, stepping, steps, steps);
      assert [stepping] + [] == steps && steps + [] == steps;
      RiseStepByStep(stepping, stepping, stepping, []);
    }
  }

  lemma StepsAreSent(stepping: int, n: nat)
    requires 0 < stepping
    ensures Sent(0, stepping, Steps(stepping, n)) == Steps(stepping, n)
  {
    EveryStepIsSent(0, stepping, n);
    assert Steps(stepping, 0 + n)[0..] == Steps(stepping, n) && stepping * 0 == 0;
  }

  lemma StepsEnds(stepping: int, n: nat)
    requires 0 < stepping && 0 < n
    ensures Steps(stepping, n)[0] == stepping && (n > 1 ==> Steps(stepping, n)[n - 1] > stepping)
  {
    if n > 1 { ScaledInt(1, n, stepping); }
  }

  // So of a second run over 100 every whole step is sent again, if there is more
  // than one.
  lemma SecondRunIsSentAgain(stepping: int)
    requires 0 < stepping <= 100
    ensures var steps := Steps(stepping, 100 / stepping);
      Sent(0, stepping, steps + steps) == if stepping <= 50 then steps + steps else steps
  {
    var n := 100 / stepping;
    CountBound(1, stepping, 100);
    if stepping <= 50 { CountBound(2, stepping, 100); } else { OneStepOnly(stepping); }
    RisingSteps(stepping, n);
    StepsEnds(stepping, n);
    StepsAreSent(stepping, n);
    SentTwice(stepping, Steps(stepping, n));
  }

  lemma OneStepOnly(stepping: int)
    requires 50 < stepping <= 100
    ensures 100 / stepping == 1
  {
    Quotient(100, stepping);
    ScaledInt(100 / stepping, 2, stepping);
    CountBound(1, stepping, 100);
  }

  // Signal by signal these are the percentages of the signals.
  lemma {:induction false} SignalsAreSent(top: int, stepping: int, total: int, currents: seq<int>)
    requires total != 0
    ensures var signals := Signals(top, stepping, total, currents);
      var pcts := Sent(top, stepping, Percents(total, currents));
      && |signals| == |pcts|
      && (forall i :: 0 <= i < |signals| ==> signals[i].total == total && Percent(total, signals[i].current) == pcts[i])
    decreases |currents|
  {
    if currents != [] {
      var pcts := Percents(total, currents);
      assert pcts[0] == Percent(total, Capped(total, currents[0]));
      assert pcts[1..] == Percents(total, currents[1..]);
      SignalsAreSent(Moved(top, stepping, pcts[0]).0, stepping, total, currents[1..]);
    }
  }

  // A loop that reports its progress as it goes: with a stepping the object sends
  // exactly the signals listed above, and no more of them than the bound allows.
  method ReportAll(conduit: Conduit, total: int, currents: seq<int>)
    requires conduit.progressStepping > 0 && total > 0 && 0 <= conduit.progressTop <= 100
    requires Rising(currents) && forall i :: 0 <= i < |currents| ==> 0 <= currents[i]
    modifies conduit
    ensures conduit.progressStepping == old(conduit.progressStepping)
    ensures conduit.sent == old(conduit.sent)
                            + Signals(old(conduit.progressTop), conduit.progressStepping, total, currents)
    ensures |conduit.sent| - |old(conduit.sent)|
         <= 100 / conduit.progressStepping + (if old(conduit.progressTop) == 0 then 0 else 1)
  {
    ghost var top := conduit.progressTop;
    ghost var all := conduit.sent + Signals(top, conduit.progressStepping, total, currents);
    for i := 0 to |currents|
      invariant conduit.progressStepping == old(conduit.progressStepping)
      invariant conduit.sent + Signals(conduit.progressTop, conduit.progressStepping, total, currents[i..]) == all
    {
      assert currents[i..][0] == currents[i] && currents[i..][1..] == currents[i + 1..];
      conduit.SendProgress(total, currents[i], 0);
    }
    SignalsAreSent(top, conduit.progressStepping, total, currents);
    Throttled(total, currents, top, conduit.progressStepping);
  }
}
