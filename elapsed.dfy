/** `format_elapsed_time` (src/ddqa/utils/time.py): an elapsed time in
    seconds shown as at most two calendar units, e.g. "2 hours, 7.50
    minutes". Decimal arithmetic is exact rational arithmetic (`real`);
    the textual form of the numbers is left out, the unit labels are kept. */
module ElapsedTime {
  import opened Wrappers
  import opened Decimals

  const SECOND: nat := 1
  const MINUTE: nat := SECOND * 60
  const HOUR: nat := MINUTE * 60
  const DAY: nat := HOUR * 24
  const WEEK: nat := DAY * 7
  const MONTH: nat := WEEK * 4
  const YEAR: nat := MONTH * 12

  /** `TIME_UNITS`, largest first. */
  const TIME_UNITS: seq<(string, nat)> := [
    ("year", YEAR), ("month", MONTH), ("week", WEEK), ("day", DAY),
    ("hour", HOUR), ("minute", MINUTE), ("second", SECOND)]

  function Factor(i: nat): (f: nat)
    requires i < |TIME_UNITS|
    ensures f >= 1
  {
    TIME_UNITS[i].1
  }

  /** Each unit is a whole number of the next smaller one. */
  lemma FactorsDecrease(i: nat, j: nat)
    requires i < j < |TIME_UNITS|
    ensures Factor(i) > Factor(j)
  {
  }

  /** One shown unit: its name and its value. */
  datatype UnitPart = UnitPart(unit: string, value: real)

  /** Below one second the value itself is shown ("0.01s"); otherwise one or
      two units. */
  datatype Elapsed = SubSecond(value: real) | Units(parts: seq<UnitPart>)

  /** The first unit at or after `from` that fits at least once into `rem`. */
  function NextUnit(rem: real, from: nat): (r: Option<nat>)
    requires from <= |TIME_UNITS|
    ensures r.Some? ==> from <= r.value < |TIME_UNITS| && Factor(r.value) as real <= rem
    ensures r.Some? ==> forall k :: from <= k < r.value ==> Factor(k) as real > rem
    ensures r.None? ==> forall k :: from <= k < |TIME_UNITS| ==> Factor(k) as real > rem
    decreases |TIME_UNITS| - from
  {
    if from == |TIME_UNITS| then None
    else if Factor(from) as real <= rem then Some(from)
    else NextUnit(rem, from + 1)
  }

  /** `NextUnit` is the unit its postcondition describes. */
  lemma {:induction false} NextUnitIs(rem: real, from: nat, i: nat)
    requires from <= i < |TIME_UNITS| && Factor(i) as real <= rem
    requires forall k :: from <= k < i ==> Factor(k) as real > rem
    ensures NextUnit(rem, from) == Some(i)
  {
  }

  /** No unit at or after `from` fits: `NextUnit` finds none. */
  lemma {:induction false} NextUnitNone(rem: real, from: nat)
    requires from <= |TIME_UNITS|
    requires forall k :: from <= k < |TIME_UNITS| ==> Factor(k) as real > rem
    ensures NextUnit(rem, from) == None
  {
  }

  /** The index of the largest unit not exceeding `x`. */
  function LeadingUnit(x: real): (i: nat)
    requires x >= 1.0
    ensures i < |TIME_UNITS| && Factor(i) as real <= x
    ensures forall k :: 0 <= k < i ==> Factor(k) as real > x
  {
    assert Factor(|TIME_UNITS| - 1) == 1;
    NextUnit(x, 0).value
  }

  /** `q * f`, by repeated addition. */
  function Times(q: nat, f: nat): (r: nat)
    ensures q >= 1 ==> r >= f
  {
    if q == 0 then 0 else Times(q - 1, f) + f
  }

  lemma {:induction false} TimesIsProduct(q: nat, f: nat)
    ensures Times(q, f) == q * f
  {
    if q > 0 {
      TimesIsProduct(q - 1, f);
      assert q * f == (q - 1) * f + f;
    }
  }

  /** `divmod(x, factor)` on a non-negative decimal and a whole factor: the
      whole quotient and what is left, by repeated subtraction. */
  function DivMod(x: real, factor: nat): (r: (nat, real))
    requires x >= 0.0 && factor >= 1
    ensures 0.0 <= r.1 < factor as real
    ensures x == Times(r.0, factor) as real + r.1
    ensures r.0 >= 1 <==> x >= factor as real
    decreases x.Floor
  {
    if x < factor as real then (0, x)
    else
      var d := DivMod(x - factor as real, factor);
      (d.0 + 1, d.1)
  }

  /** The value of the second unit: exact when the unit divides the rest,
      otherwise quantized to two decimals. */
  function SecondValue(rem: real, factor: nat): real
    requires rem >= 0.0 && factor >= 1
  {
    if DivMod(rem, factor).1 != 0.0 then Quantize2(rem / factor as real) else rem / factor as real
  }

  /** What `format_elapsed_time` shows for a non-negative `x`: below a second
      the value to two decimals; otherwise the largest unit that fits, as a
      whole number, then the next unit that fits into what is left, if any. */
  ghost function Expected(x: real): Elapsed
    requires x >= 0.0
  {
    if x < 1.0 then SubSecond(Quantize2(x))
    else
      var i := LeadingUnit(x);
      var (q, rem) := DivMod(x, Factor(i));
      var first := UnitPart(TIME_UNITS[i].0, q as real);
      match NextUnit(rem, i + 1)
      case None => Units([first])
      case Some(j) => Units([first, UnitPart(TIME_UNITS[j].0, SecondValue(rem, Factor(j)))])
  }

  /** A unit name is pluralised when its value exceeds one. */
  function UnitLabel(p: UnitPart): (name: string)
    ensures p.value > 1.0 ==> name == p.unit + "s"
    ensures p.value <= 1.0 ==> name == p.unit
  {
    p.unit + (if p.value > 1.0 then "s" else "")
  }

  /** A whole quotient shows as plural exactly when the unit fits twice. */
  lemma WholeQuotientPlural(x: real, factor: nat)
    requires x >= 0.0 && factor >= 1
    ensures DivMod(x, factor).0 as real > 1.0 <==> x >= 2.0 * factor as real
  {
    var (q, r) := DivMod(x, factor);
    TimesIsProduct(q, factor);
    assert x == (q * factor) as real + r;
    if q >= 2 {
      assert q * factor >= 2 * factor;
    } else if q == 1 {
      assert x < 2.0 * factor as real;
    }
  }

  /** Scaling by a positive whole factor keeps the comparison with 1.005. */
  lemma ScaledAbove(rem: real, y: real, factor: nat)
    requires factor >= 1 && rem == y * factor as real
    ensures rem > 1.005 * factor as real <==> y > 1.005
  {
    var f := factor as real;
    var z := y - 1.005;
    assert rem - 1.005 * f == z * f;
    if z > 0.0 {
      assert z * f > 0.0;
    } else {
      assert z * f <= 0.0;
    }
  }

  /** A whole multiple of the factor divides back to its multiplier. */
  lemma DividesExactly(rem: real, factor: nat, q: nat)
    requires factor >= 1 && rem == Times(q, factor) as real
    ensures rem / factor as real == q as real
  {
    TimesIsProduct(q, factor);
    assert rem == q as real * factor as real;
  }

  /** The value of a second unit shows as plural exactly when more than
      1.005 of the unit is left: below that it is at most 1.00 once
      quantized, or exactly 1 when the unit divides the rest. */
  lemma SecondValuePlural(rem: real, factor: nat)
    requires rem >= 0.0 && factor >= 1
    ensures SecondValue(rem, factor) > 1.0 <==> rem > 1.005 * factor as real
  {
    var y := rem / factor as real;
    assert rem == y * factor as real;
    ScaledAbove(rem, y, factor);
    var d := DivMod(rem, factor);
    if d.1 != 0.0 {
      assert SecondValue(rem, factor) == Quantize2(y);
      QuantizeAboveOne(y);
    } else {
      DividesExactly(rem, factor, d.0);
    }
  }

  /** The labels of what is shown from one second on: the leading unit is
      plural exactly when it fits at least twice, and a second unit exactly
      when more than 1.005 of it is left. */
  lemma {:induction false} ExpectedLabels(x: real)
    requires x >= 1.0
    ensures var i := LeadingUnit(x);
      Expected(x).Units? && |Expected(x).parts| >= 1 &&
      UnitLabel(Expected(x).parts[0]) == TIME_UNITS[i].0 + (if x >= 2.0 * Factor(i) as real then "s" else "")
    ensures var i := LeadingUnit(x);
      var rem := DivMod(x, Factor(i)).1;
      NextUnit(rem, i + 1).Some? ==>
        var j := NextUnit(rem, i + 1).value;
        Expected(x).Units? && |Expected(x).parts| == 2 &&
        UnitLabel(Expected(x).parts[1]) == TIME_UNITS[j].0 + (if rem > 1.005 * Factor(j) as real then "s" else "")
  {
    var i := LeadingUnit(x);
    var (q, rem) := DivMod(x, Factor(i));
    WholeQuotientPlural(x, Factor(i));
    var n := NextUnit(rem, i + 1);
    if n.Some? {
      SecondValuePlural(rem, Factor(n.value));
    }
  }

  /** The units the loop of `format_elapsed_time` collects from unit `i` on,
      given what is left of the value and the units collected so far. */
  function Collect(elapsed: real, units: seq<UnitPart>, i: nat): seq<UnitPart>
    requires elapsed >= 0.0 && i <= |TIME_UNITS|
    decreases |TIME_UNITS| - i
  {
    if i == |TIME_UNITS| then units
    else
      var factor := Factor(i);
      var quotient := DivMod(elapsed, factor).0;
      if quotient < 1 then Collect(elapsed, units, i + 1)
      else if units == [] then
        Collect(elapsed - Times(quotient, factor) as real, [UnitPart(TIME_UNITS[i].0, quotient as real)], i + 1)
      else units + [UnitPart(TIME_UNITS[i].0, SecondValue(elapsed, factor))]
  }

  /** Units that do not fit are passed over. */
  lemma {:induction false} CollectSkips(elapsed: real, units: seq<UnitPart>, i: nat, j: nat)
    requires elapsed >= 0.0 && i <= j <= |TIME_UNITS|
    requires forall k :: i <= k < j ==> Factor(k) as real > elapsed
    ensures Collect(elapsed, units, i) == Collect(elapsed, units, j)
    decreases j - i
  {
    if i < j {
      CollectSkips(elapsed, units, i + 1, j);
    }
  }

  /** At the leading unit the loop records the whole quotient and goes on
      with the remainder. */
  lemma CollectTakesLead(x: real, i: nat)
    requires x >= 0.0 && i < |TIME_UNITS| && Factor(i) as real <= x
    ensures Collect(x, [], i) ==
      Collect(DivMod(x, Factor(i)).1, [UnitPart(TIME_UNITS[i].0, DivMod(x, Factor(i)).0 as real)], i + 1)
  {
    var f := Factor(i);
    var d := DivMod(x, f);
    CollectStep(x, [], i, d.0);
    assert d.1 == x - Times(d.0, f) as real;
  }

  /** One round of the loop, with the quotient named. */
  lemma CollectStep(elapsed: real, units: seq<UnitPart>, i: nat, q: nat)
    requires elapsed >= 0.0 && i < |TIME_UNITS| && q == DivMod(elapsed, Factor(i)).0
    ensures q >= 1 && units == [] ==>
      Collect(elapsed, units, i) == Collect(elapsed - Times(q, Factor(i)) as real, [UnitPart(TIME_UNITS[i].0, q as real)], i + 1)
  {
  }

  /** At the second unit that fits the loop stops. */
  lemma CollectTakesSecond(rem: real, first: UnitPart, j: nat)
    requires rem >= 0.0 && j < |TIME_UNITS| && Factor(j) as real <= rem
    ensures Collect(rem, [first], j) == [first, UnitPart(TIME_UNITS[j].0, SecondValue(rem, Factor(j)))]
  {
  }

  /** The loop collects what `Expected` describes. */
  lemma CollectIsExpected(x: real)
    requires x >= 1.0
    ensures Expected(x) == Units(Collect(x, [], 0))
  {
    var i := LeadingUnit(x);
    var d := DivMod(x, Factor(i));
    var first := UnitPart(TIME_UNITS[i].0, d.0 as real);
    CollectSkips(x, [], 0, i);
    CollectTakesLead(x, i);
    var n := NextUnit(d.1, i + 1);
    assert Collect(x, [], 0) == Collect(d.1, [first], i + 1);
    if n.None? {
      CollectSkips(d.1, [first], i + 1, |TIME_UNITS|);
      assert Expected(x) == Units([first]);
    } else {
      var j := n.value;
      CollectSkips(d.1, [first], i + 1, j);
      CollectTakesSecond(d.1, first, j);
      assert Expected(x) == Units([first, UnitPart(TIME_UNITS[j].0, SecondValue(d.1, Factor(j)))]);
    }
  }

  /** `format_elapsed_time(seconds)`: the loop over `TIME_UNITS` keeps the
      first unit whose quotient is at least one, subtracts it, and stops at
      the next unit whose quotient is at least one. */
  method FormatElapsedTime(seconds: real) returns (r: Elapsed)
    ensures r == Expected(Abs(seconds))
  {
    var elapsed := Abs(seconds);
    if elapsed < 1.0 {
      return SubSecond(Quantize2(elapsed));
    }
    ghost var x := elapsed;
    var units: seq<UnitPart> := [];
    var i := 0;
    while i < |TIME_UNITS|
      invariant 0 <= i <= |TIME_UNITS|
      invariant elapsed >= 0.0
      invariant Collect(elapsed, units, i) == Collect(x, [], 0)
    {
      var unit := TIME_UNITS[i].0;
      var factor := Factor(i);
      var (quotient, remainder) := DivMod(elapsed, factor);
      if quotient < 1 {
        i := i + 1;
        continue;
      } else if units == [] {
        units := [UnitPart(unit, quotient as real)];
        elapsed := elapsed - Times(quotient, factor) as real;
      } else {
        var final := elapsed / factor as real;
        if remainder != 0.0 {
          final := Quantize2(final);
        }
        units := units + [UnitPart(unit, final)];
        break;
      }
      i := i + 1;
    }
    CollectIsExpected(x);
    r := Units(units);
  }

  /** From one second on, one or two units are shown; the first is the
      largest unit not exceeding the value, as a whole quotient of at least
      one, and a second unit is always a smaller one. */
  lemma {:induction false} ExpectedShape(x: real)
    requires x >= 1.0
    ensures Expected(x).Units? && 1 <= |Expected(x).parts| <= 2
    ensures var i := LeadingUnit(x);
      Expected(x).parts[0].unit == TIME_UNITS[i].0 &&
      Expected(x).parts[0].value >= 1.0 &&
      Expected(x).parts[0].value == DivMod(x, Factor(i)).0 as real
    ensures |Expected(x).parts| == 2 ==>
      exists j :: LeadingUnit(x) < j < |TIME_UNITS| && Expected(x).parts[1].unit == TIME_UNITS[j].0
  {
  }

  /** With "second" as the leading unit only whole seconds are shown: the
      fraction is dropped. */
  lemma {:induction false} SecondsDropFraction(x: real)
    requires 1.0 <= x < 60.0
    ensures Expected(x) == Units([UnitPart("second", x.Floor as real)])
  {
    NextUnitIs(x, 0, 6);
    assert LeadingUnit(x) == 6 && Factor(6) == 1;
    var d := DivMod(x, 1);
    TimesIsProduct(d.0, 1);
    assert d.0 == x.Floor;
    assert NextUnit(d.1, 7) == None;
    assert TIME_UNITS[6].0 == "second";
    assert Expected(x) == Units([UnitPart(TIME_UNITS[6].0, d.0 as real)]);
  }

  /** A second unit is shown exactly when the remainder after the first unit
      is at least one second. */
  lemma {:induction false} SecondUnitNeedsRemainder(x: real)
    requires x >= 1.0
    ensures var i := LeadingUnit(x);
      |Expected(x).parts| == 2 <==> (i + 1 < |TIME_UNITS| && DivMod(x, Factor(i)).1 >= 1.0)
  {
    var i := LeadingUnit(x);
    var rem := DivMod(x, Factor(i)).1;
    if i + 1 < |TIME_UNITS| && rem >= 1.0 {
      assert Factor(|TIME_UNITS| - 1) == 1;
      assert NextUnit(rem, i + 1).Some?;
    }
  }
}
