/** The Luhn check: the generator of the web page and the validator of the card service. */
module Luhn {

  predicate IsDigit(c: char) {
    '0' <= c <= '9'
  }

  predicate AllDigits(s: string) {
    forall i :: 0 <= i < |s| ==> IsDigit(s[i])
  }

  /** Every character stands for one byte, as in a Go string. */
  predicate AllBytes(s: string) {
    forall i :: 0 <= i < |s| ==> s[i] as int < 256
  }

  /** What `c - '0'` is in a byte: a digit's value, and something up to 255 for any other character. */
  function ValueOf(c: char): (v: int)
    requires c as int < 256
    ensures 0 <= v < 256
    ensures IsDigit(c) ==> v == c as int - '0' as int <= 9
  {
    (c as int - '0' as int) % 256
  }

  function DigitChar(v: nat): (c: char)
    requires v <= 9
    ensures IsDigit(c) && ValueOf(c) == v
  {
    v as char + '0'
  }

  /** A digit's share: itself, or its double with 9 taken off above 9. */
  function Share(v: int, doubled: bool): int {
    if !doubled then v else if 2 * v > 9 then 2 * v - 9 else 2 * v
  }

  /** The sum from the right, the last digit doubled or not. */
  function Sum(s: string, doubled: bool): int
    requires AllBytes(s)
  {
    if s == "" then 0 else Share(ValueOf(s[|s| - 1]), doubled) + Sum(s[..|s| - 1], !doubled)
  }

  predicate Valid(pan: string)
    requires AllBytes(pan)
  {
    Sum(pan, false) % 10 == 0
  }

  /** A doubled digit counts as the sum of the decimal digits of its double. */
  lemma ShareMeans(v: int)
    requires 0 <= v <= 9
    ensures Share(v, true) == 2 * v / 10 + 2 * v % 10 && Share(v, false) == v
  {
  }

  function TailSum(s: string, i: nat): int
    requires AllBytes(s) && i <= |s|
    decreases |s| - i
  {
    if i == |s| then 0 else Share(ValueOf(s[i]), (|s| - i) % 2 == 0) + TailSum(s, i + 1)
  }

  /** Counted from the left, the digits at an odd distance from the last are the doubled ones. */
  lemma {:induction false} SumFromLeft(s: string, k: nat)
    requires AllBytes(s) && k <= |s|
    ensures Sum(s, false) == Sum(s[..k], (|s| - k) % 2 == 1) + TailSum(s, k)
    decreases |s| - k
  {
    hide Share;
    if k == |s| {
      assert s[..k] == s;
    } else {
      SumFromLeft(s, k + 1);
      assert s[..k + 1][..k] == s[..k];
    }
  }

  /** Two numbers of four digits, one valid and one not. */
  lemma KnownNumbers()
    ensures Valid("5959") && !Valid("5958")
  {
    SumFromLeft("5959", 0);
    SumFromLeft("5958", 0);
    assert TailSum("5959", 2) == 10 && TailSum("5958", 2) == 9;
  }

  /** `luhnValid`. */
  method LuhnValid(pan: string) returns (ok: bool)
    requires AllBytes(pan)
    ensures ok == Valid(pan)
  {
    assert pan[..|pan|] == pan;
    var sum, alt := 0, false;
    var i := |pan| - 1;
    while i >= 0
      invariant -1 <= i < |pan|
      invariant sum + Sum(pan[..i + 1], alt) == Sum(pan, false)
    {
      var d := (pan[i] as int - '0' as int) % 256;
      if alt {
        d := d * 2;
        if d > 9 {
          d := d - 9;
        }
      }
      assert pan[..i + 1][..i] == pan[..i];
      sum := sum + d;
      alt := !alt;
      i := i - 1;
    }
    ok := sum % 10 == 0;
  }

  /** `luhnCheckDigit`. */
  method LuhnCheckDigit(digits: string) returns (c: nat)
    requires AllDigits(digits)
    ensures c <= 9 && c == (10 - Sum(digits, true) % 10) % 10
  {
    assert digits[..|digits|] == digits;
    var sum, alt := 0, true;
    var i := |digits| - 1;
    while i >= 0
      invariant -1 <= i < |digits|
      invariant sum + Sum(digits[..i + 1], alt) == Sum(digits, true)
    {
      var n := digits[i] as int - '0' as int;
      if alt {
        n := n * 2;
        if n > 9 {
          n := n - 9;
        }
      }
      assert digits[..i + 1][..i] == digits[..i];
      sum := sum + n;
      alt := !alt;
      i := i - 1;
    }
    c := (10 - sum % 10) % 10;
  }

  /** One digit, and no other, completes a number to a valid one: the generator's check digit. */
  lemma CheckDigitUnique(digits: string, c: char)
    requires AllDigits(digits) && IsDigit(c)
    ensures Valid(digits + [c]) <==> ValueOf(c) == (10 - Sum(digits, true) % 10) % 10
  {
    assert (digits + [c])[..|digits|] == digits;
    assert Sum(digits + [c], false) == ValueOf(c) + Sum(digits, true);
  }

  /** Whether the digit at i is doubled when a number is validated. */
  predicate DoubledAt(s: string, i: nat)
    requires i < |s|
  {
    (|s| - 1 - i) % 2 == 1
  }

  lemma {:induction false} SumChange(s: string, doubled: bool, i: nat, c: char)
    requires AllBytes(s) && i < |s| && c as int < 256
    ensures var there := DoubledAt(s, i) != doubled;
            Sum(s[i := c], doubled) == Sum(s, doubled) - Share(ValueOf(s[i]), there) + Share(ValueOf(c), there)
  {
    hide Share, ValueOf;
    var last := |s| - 1;
    if i < last {
      SumChange(s[..last], !doubled, i, c);
      assert s[i := c][..last] == s[..last][i := c];
    } else {
      assert s[i := c][..last] == s[..last];
    }
  }

  lemma SharesDiffer(x: int, y: int, doubled: bool)
    requires 0 <= x <= 9 && 0 <= y <= 9 && x != y
    ensures var d := Share(y, doubled) - Share(x, doubled); d != 0 && -9 <= d <= 9
  {
  }

  /** What swapping two neighbours adds to the sum when the first is the doubled one. */
  lemma SwapDifference(x: int, y: int)
    requires 0 <= x <= 9 && 0 <= y <= 9 && x != y
    ensures var d := Share(y, true) - Share(x, true) + x - y;
            -9 <= d <= 9 && (d == 0 <==> (x == 0 && y == 9) || (x == 9 && y == 0))
  {
  }

  lemma SmallChange(sum: int, d: int)
    requires sum % 10 == 0 && -9 <= d <= 9
    ensures (sum + d) % 10 == 0 <==> d == 0
  {
  }

  /** Every mistyped digit is noticed. */
  lemma SingleErrorDetected(pan: string, i: nat, c: char)
    requires AllDigits(pan) && Valid(pan) && i < |pan| && IsDigit(c) && c != pan[i]
    ensures !Valid(pan[i := c])
  {
    var there := DoubledAt(pan, i);
    SumChange(pan, false, i, c);
    SharesDiffer(ValueOf(pan[i]), ValueOf(c), there);
    SmallChange(Sum(pan, false), Share(ValueOf(c), there) - Share(ValueOf(pan[i]), there));
  }

  lemma Alternates(s: string, i: nat)
    requires i + 1 < |s|
    ensures DoubledAt(s, i) != DoubledAt(s, i + 1)
  {
  }

  /** Two different neighbouring digits swapped by mistake are noticed unless they are 0 and 9. */
  lemma TranspositionDetectedIff(pan: string, i: nat)
    requires AllDigits(pan) && Valid(pan) && i + 1 < |pan| && pan[i] != pan[i + 1]
    ensures Valid(pan[i := pan[i + 1]][i + 1 := pan[i]]) <==>
            (pan[i] == '0' && pan[i + 1] == '9') || (pan[i] == '9' && pan[i + 1] == '0')
  {
    var a, b := pan[i], pan[i + 1];
    var once := pan[i := b];
    var x, y := ValueOf(a), ValueOf(b);
    SumChange(pan, false, i, b);
    SumChange(once, false, i + 1, a);
    var d := if DoubledAt(pan, i) then Share(y, true) - Share(x, true) + x - y
             else y - x + Share(x, true) - Share(y, true);
    Alternates(pan, i);
    assert Sum(once[i + 1 := a], false) == Sum(pan, false) + d;
    SwapDifference(x, y);
    SmallChange(Sum(pan, false), d);
  }

  /** `generatePAN` for a prefix and a length: random digits in between and a check digit at the end. */
  method GeneratePan(prefix: string, length: nat, random: nat -> nat) returns (pan: string)
    requires AllDigits(prefix) && |prefix| < length && forall i :: random(i) <= 9
    ensures |pan| == length && prefix <= pan
    ensures AllDigits(pan) && Valid(pan)
  {
    var d := prefix;
    while |d| < length - 1
      invariant |prefix| <= |d| <= length - 1 && prefix <= d && AllDigits(d)
    {
      d := d + [DigitChar(random(|d|))];
    }
    var c := LuhnCheckDigit(d);
    pan := d + [DigitChar(c)];
    CheckDigitUnique(d, DigitChar(c));
  }
}
