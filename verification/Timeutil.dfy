/** core/timeutil.py: instants are whole seconds, durations are rounded for
    display. Numbers are reals; ties round to the even neighbour, as Python's
    `round` does. */
module Timeutil {

  function RoundHalfEven(x: real): int {
    var f := x.Floor;
    var d := x - f as real;
    if d < 0.5 then f
    else if d > 0.5 then f + 1
    else if f % 2 == 0 then f else f + 1
  }

  function Round1(x: real): real { RoundHalfEven(x * 10.0) as real / 10.0 }

  function Round2(x: real): real { RoundHalfEven(x * 100.0) as real / 100.0 }

  lemma {:induction false} RoundMonotone(x: real, y: real)
    requires x <= y
    ensures RoundHalfEven(x) <= RoundHalfEven(y)
  {
  }

  lemma {:induction false} RoundOfWhole(n: int)
    ensures RoundHalfEven(n as real) == n
  {
  }

  /** The nearest whole number, of two the even one. */
  lemma {:induction false} RoundIs(x: real)
    ensures -0.5 <= RoundHalfEven(x) as real - x <= 0.5
    ensures RoundHalfEven(x) as real - x in {-0.5, 0.5} ==> RoundHalfEven(x) % 2 == 0
  {
  }

  /** Never negative, whatever the clocks say. */
  function Elapsed(later: int, earlier: int): int {
    if later < earlier then 0 else later - earlier
  }

  function MinutesBetween(later: int, earlier: int): int { Elapsed(later, earlier) / 60 }

  function DaysBetween(later: int, earlier: int): real { Round2(Elapsed(later, earlier) as real / 86400.0) }

  /** Durations in days, to two decimals, and in whole minutes. */
  lemma {:induction false} DurationsAre(later: int, earlier: int)
    ensures later <= earlier ==> DaysBetween(later, earlier) == 0.0 && MinutesBetween(later, earlier) == 0
    ensures later >= earlier ==>
              && -0.005 <= DaysBetween(later, earlier) - (later - earlier) as real / 86400.0 <= 0.005
              && 60 * MinutesBetween(later, earlier) <= later - earlier < 60 * MinutesBetween(later, earlier) + 60
  {
    RoundOfWhole(0);
    RoundIs(Elapsed(later, earlier) as real / 86400.0 * 100.0);
  }

  /** The clock moving on, or the start moving back, never shortens a duration. */
  lemma {:induction false} DaysMonotone(later: int, later': int, earlier: int, earlier': int)
    requires later <= later' && earlier' <= earlier
    ensures 0.0 <= DaysBetween(later, earlier) <= DaysBetween(later', earlier')
    ensures 0 <= MinutesBetween(later, earlier) <= MinutesBetween(later', earlier')
  {
    var a, b := Elapsed(later, earlier), Elapsed(later', earlier');
    assert 0 <= a <= b;
    var x, y := a as real / 86400.0 * 100.0, b as real / 86400.0 * 100.0;
    assert 0.0 <= x <= y;
    RoundOfWhole(0);
    RoundMonotone(0.0, x);
    RoundMonotone(x, y);
  }
}
