/** Amounts and expiry dates: `ParseAmount12` and `expiryValidYYMM`, with the calendar the latter relies on. */
module Rules {
  import opened Base

  function DigitOf(c: char): Option<nat> {
    if '0' <= c <= '9' then Some(c as int - '0' as int) else None
  }

  // ----- amounts -----

  /** The number a string of decimal digits denotes. */
  function Decimal(s: string): Option<nat> {
    if s == "" then Some(0)
    else
      var front, last := Decimal(s[..|s| - 1]), DigitOf(s[|s| - 1]);
      if front.Some? && last.Some? then Some(front.value * 10 + last.value) else None
  }

  /** A number written with the given count of digits, high digits first and leading zeros. */
  function Digits(v: nat, count: nat): (s: string)
    ensures |s| == count
  {
    if count == 0 then "" else Digits(v / 10, count - 1) + [(v % 10) as char + '0']
  }

  function Pow10(n: nat): nat {
    if n == 0 then 1 else 10 * Pow10(n - 1)
  }

  lemma {:induction false} DigitsRoundTrip(v: nat, count: nat)
    requires v < Pow10(count)
    ensures Decimal(Digits(v, count)) == Some(v)
  {
    if count == 0 {
    } else {
      var s := Digits(v, count);
      DigitsRoundTrip(v / 10, count - 1);
      assert s[..|s| - 1] == Digits(v / 10, count - 1);
    }
  }

  lemma {:induction false} DecimalBound(s: string)
    requires Decimal(s).Some?
    ensures Decimal(s).value < Pow10(|s|)
  {
    if s == "" {
    } else {
      DecimalBound(s[..|s| - 1]);
    }
  }

  lemma {:induction false} DecimalPrefix(s: string, i: nat)
    requires i <= |s| && Decimal(s).Some?
    ensures Decimal(s[..i]).Some?
  {
    if i < |s| {
      DecimalPrefix(s[..|s| - 1], i);
      assert s[..|s| - 1][..i] == s[..i];
    } else {
      assert s[..i] == s;
    }
  }

  function AmountOf(s: string): Option<nat> {
    if |s| == 12 then Decimal(s) else None
  }

  lemma {:induction false} DigitsOfDecimal(s: string)
    requires Decimal(s).Some?
    ensures s == Digits(Decimal(s).value, |s|)
  {
    if s == "" {
    } else {
      DigitsOfDecimal(s[..|s| - 1]);
      assert s == s[..|s| - 1] + [s[|s| - 1]];
    }
  }

  /** An amount is a number below 10^12 in exactly twelve digits. */
  lemma AmountIff(s: string, v: nat)
    ensures AmountOf(s) == Some(v) <==> v < 1_000_000_000_000 && s == Digits(v, 12)
  {
    assert Pow10(12) == 1_000_000_000_000;
    if AmountOf(s).Some? {
      DigitsOfDecimal(s);
      DecimalBound(s);
    }
    if v < 1_000_000_000_000 {
      DigitsRoundTrip(v, 12);
    }
  }

  /** `ParseAmount12`: twelve digits, accumulated from the left. The value always fits an int64. */
  method ParseAmount12(s: string) returns (r: Option<int>)
    ensures r == AmountOf(s)
    ensures r.Some? ==> 0 <= r.value < 1_000_000_000_000
  {
    if |s| != 12 {
      return None;
    }
    var v := 0;
    for i := 0 to 12
      invariant Decimal(s[..i]) == Some(v)
    {
      assert s[..i + 1][..i] == s[..i];
      if s[i] < '0' || s[i] > '9' {
        if Decimal(s).Some? {
          DecimalPrefix(s, i + 1);
        }
        return None;
      }
      v := v * 10 + (s[i] as int - '0' as int);
    }
    assert s[..12] == s;
    DecimalBound(s);
    assert Pow10(12) == 1_000_000_000_000;
    return Some(v);
  }

  // ----- expiry dates -----

  const DAY_NS: int := 86_400_000_000_000

  predicate IsLeap(year: nat) {
    year % 4 == 0 && (year % 100 != 0 || year % 400 == 0)
  }

  /** Days in the m-th month counted from January 2000 as 0. */
  function DaysInMonth(m: nat): (d: nat)
    ensures 28 <= d <= 31
  {
    var month := m % 12;
    if month == 1 then if IsLeap(2000 + m / 12) then 29 else 28
    else if month in {3, 5, 8, 10} then 30
    else 31
  }

  /** Days from 1 January 2000 to the first day of the m-th month. */
  function MonthStart(m: nat): nat {
    if m == 0 then 0 else MonthStart(m - 1) + DaysInMonth(m - 1)
  }

  /** The leap days of the y years from 2000 on. */
  function LeapDays(y: nat): int {
    (y + 3) / 4 - (y + 99) / 100 + (y + 399) / 400
  }

  /** One of every k years. */
  lemma EveryKth(y: nat, k: nat)
    requires k > 0
    ensures (y + k) / k == (y + k - 1) / k + if y % k == 0 then 1 else 0
  {
    var q, r := y / k, y % k;
    assert (q + 1) * k == q * k + k;
    RemainderUnique(y + k, q + 1, r, k);
    if r == 0 {
      RemainderUnique(y + k - 1, q, k - 1, k);
    } else {
      RemainderUnique(y + k - 1, q + 1, r - 1, k);
    }
  }

  lemma LeapDaysNext(y: nat)
    ensures LeapDays(y + 1) == LeapDays(y) + if y % 4 == 0 && (y % 100 != 0 || y % 400 == 0) then 1 else 0
  {
    EveryKth(y, 4);
    EveryKth(y, 100);
    EveryKth(y, 400);
    if y % 400 == 0 {
      RemainderUnique(y, 4 * (y / 400), 0, 100);
    }
    if y % 100 == 0 {
      RemainderUnique(y, 25 * (y / 100), 0, 4);
    }
  }

  lemma LeapYears(y: nat)
    ensures IsLeap(2000 + y) <==> y % 4 == 0 && (y % 100 != 0 || y % 400 == 0)
  {
    RemainderUnique(2000 + y, 500 + y / 4, y % 4, 4);
    RemainderUnique(2000 + y, 20 + y / 100, y % 100, 100);
    RemainderUnique(2000 + y, 5 + y / 400, y % 400, 400);
  }

  /** The length of each month of year 2000 + y. */
  lemma MonthLength(y: nat, m: nat)
    requires 1 <= m <= 12
    ensures var february := if y % 4 == 0 && (y % 100 != 0 || y % 400 == 0) then 29 else 28;
            DaysInMonth(12 * y + m - 1) == [31, february, 31, 30, 31, 30, 31, 31, 30, 31, 30, 31][m - 1]
  {
    hide IsLeap;
    LeapYears(y);
    RemainderUnique(12 * y + m - 1, y, m - 1, 12);
  }

  /** The calendar in closed form: days from 1 January 2000 to the first day of month m, from 1, of year 2000 + y. */
  function FirstDay(y: nat, m: nat): int
    requires 1 <= m <= 12
  {
    365 * y + LeapDays(y) + [0, 31, 59, 90, 120, 151, 181, 212, 243, 273, 304, 334][m - 1]
    + if m > 2 && y % 4 == 0 && (y % 100 != 0 || y % 400 == 0) then 1 else 0
  }

  lemma NextYear(y: nat)
    ensures FirstDay(y + 1, 1) == FirstDay(y, 12) + 31
  {
    LeapDaysNext(y);
    hide LeapDays;
  }

  lemma NoLeapDays()
    ensures LeapDays(0) == 0
  {
  }

  /** Counting days month by month gives the calendar, for every year from 2000 on. */
  lemma {:induction false} Calendar(y: nat, m: nat)
    requires 1 <= m <= 12
    ensures MonthStart(12 * y + m - 1) == FirstDay(y, m)
    decreases y, m
  {
    hide LeapDays, DaysInMonth;
    if m > 1 {
      Calendar(y, m - 1);
      MonthLength(y, m - 1);
    } else if y > 0 {
      Calendar(y - 1, 12);
      MonthLength(y - 1, 12);
      NextYear(y - 1);
    } else {
      NoLeapDays();
    }
  }

  lemma {:induction false} MonthsAscend(a: nat, b: nat)
    requires a < b
    ensures MonthStart(a) < MonthStart(b)
  {
    if a < b - 1 {
      MonthsAscend(a, b - 1);
    }
  }

  /** The month of a YYMM date, counted from January 2000 as 0. */
  function ExpiryMonth(exp: string): Option<nat> {
    if |exp| != 4 then None
    else
      var y, m := Decimal(exp[..2]), Decimal(exp[2..]);
      if y.Some? && m.Some? && 1 <= m.value <= 12 then Some(12 * y.value + (m.value - 1)) else None
  }

  /** `expiryValidYYMM`, with the clock in nanoseconds from 1 January 2000 UTC. */
  predicate ExpiryValid(exp: string, now: int) {
    var m := ExpiryMonth(exp);
    m.Some? && now < MonthStart(m.value + 1) * DAY_NS - 1
  }

  /**
   A card is good in every month up to the one it names, and bad after. The comparison is strict, so
   it is also bad in the very last nanosecond of that month.
   */
  lemma GoodThroughItsMonth(exp: string, now: int, current: nat)
    requires ExpiryMonth(exp).Some?
    requires MonthStart(current) * DAY_NS <= now < MonthStart(current + 1) * DAY_NS
    ensures var e := ExpiryMonth(exp).value;
            ExpiryValid(exp, now) <==>
            current < e || (current == e && now != MonthStart(e + 1) * DAY_NS - 1)
  {
    var e := ExpiryMonth(exp).value;
    if current < e {
      MonthsAscend(current + 1, e + 1);
    } else if e < current {
      if e + 1 < current {
        MonthsAscend(e + 1, current);
      }
    }
  }

  lemma NoMonthZero(m: string)
    requires m == "00"
    ensures Decimal(m) == Some(0)
  {
    assert m[..1] == "0" && m[..1][..0] == "";
    assert Decimal("0") == Some(0);
  }

  lemma TwoPlusTwo(s: string)
    requires |s| == 4 && Decimal(s[..2]).Some? && Decimal(s[2..]).Some?
    ensures Decimal(s).Some?
  {
    var t := s[2..];
    assert t[..1][..0] == "" && t[..1][0] == s[2] && t[1] == s[3];
    assert Decimal(t[..1]).Some? && DigitOf(s[2]).Some? && DigitOf(s[3]).Some?;
    assert s[..3][..2] == s[..2] && s[..4] == s && s[..4][..3] == s[..3];
    assert Decimal(s[..3]).Some?;
  }

  /** Only four digits with a month from 01 to 12 name a month at all. */
  lemma MalformedExpiryIsInvalid(exp: string, now: int)
    requires |exp| != 4 || Decimal(exp).None? || exp[2..] == "00"
    ensures !ExpiryValid(exp, now)
  {
    if |exp| == 4 {
      if exp[2..] == "00" {
        NoMonthZero(exp[2..]);
      } else if Decimal(exp[..2]).Some? && Decimal(exp[2..]).Some? {
        TwoPlusTwo(exp);
      }
    }
  }

  lemma ExpiryMonthOf(y: nat, m: nat)
    requires y < 100 && m < 100
    ensures ExpiryMonth(Digits(y, 2) + Digits(m, 2)) == if 1 <= m <= 12 then Some(12 * y + m - 1) else None
  {
    var exp := Digits(y, 2) + Digits(m, 2);
    assert Pow10(2) == 100 by {
      assert Pow10(1) == 10 * Pow10(0) == 10;
    }
    DigitsRoundTrip(y, 2);
    DigitsRoundTrip(m, 2);
    hide Decimal, Digits;
    assert exp[..2] == Digits(y, 2) && exp[2..] == Digits(m, 2);
  }

  /**
   The card of year 2000 + y and month m is good until one nanosecond before the first day of the month after, which
   in December is that of the next year; with a month that does not exist it never is.
   */
  lemma ExpiryMeans(y: nat, m: nat, now: int)
    requires y < 100 && m < 100
    ensures ExpiryValid(Digits(y, 2) + Digits(m, 2), now) <==>
            && 1 <= m <= 12
            && now < (if m == 12 then FirstDay(y + 1, 1) else FirstDay(y, m + 1)) * 86_400_000_000_000 - 1
  {
    hide FirstDay, MonthStart;
    ExpiryMonthOf(y, m);
    if m == 12 {
      Calendar(y + 1, 1);
    } else if 1 <= m < 12 {
      Calendar(y, m + 1);
    }
  }

  /** Nothing but a year and a month in two digits each is ever valid. */
  lemma ValidIsYearAndMonth(exp: string, now: int)
    requires ExpiryValid(exp, now)
    ensures exists y: nat, m: nat :: y < 100 && 1 <= m <= 12 && exp == Digits(y, 2) + Digits(m, 2)
  {
    hide MonthStart;
    var y, m := Decimal(exp[..2]).value, Decimal(exp[2..]).value;
    DigitsOfDecimal(exp[..2]);
    DigitsOfDecimal(exp[2..]);
    DecimalBound(exp[..2]);
    assert Pow10(2) == 100 by {
      assert Pow10(1) == 10 * Pow10(0) == 10;
    }
    assert exp == exp[..2] + exp[2..];
  }
}
