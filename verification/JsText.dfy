/** The text functions of JavaScript that the web client reads messages with. They give a result for every text. */
module JsText {
  import opened Base
  import Rules

  // ----- numbers -----

  datatype Number = NaN | Int(v: int)

  function Plus(a: Number, b: Number): Number {
    if a.NaN? || b.NaN? then NaN else Int(a.v + b.v)
  }

  /** What `parseInt` skips in front of a number. */
  predicate IsSpace(c: char) {
    c in {'\t', '\n', '\U{B}', '\U{C}', '\r', ' ', '\U{A0}', '\U{1680}', '\U{2028}', '\U{2029}', '\U{202F}', '\U{205F}',
          '\U{3000}', '\U{FEFF}'}
    || '\U{2000}' <= c <= '\U{200A}'
  }

  function SkipSpaces(s: string): string {
    if s != "" && IsSpace(s[0]) then SkipSpaces(s[1..]) else s
  }

  predicate IsDigit(c: char, radix: nat) {
    DigitValue(c).Some? && DigitValue(c).value < radix
  }

  /** How many digits a text begins with. */
  function LeadingDigits(s: string, radix: nat): (k: nat)
    ensures k <= |s|
  {
    if s != "" && IsDigit(s[0], radix) then 1 + LeadingDigits(s[1..], radix) else 0
  }

  function ValueOf(digits: string, radix: nat): nat {
    if digits == "" then 0
    else ValueOf(digits[..|digits| - 1], radix) * radix + DigitValue(digits[|digits| - 1]).GetOr(0)
  }

  function ReadDigits(s: string, radix: nat): Number {
    var k := LeadingDigits(s, radix);
    if k == 0 then NaN else Int(ValueOf(s[..k], radix))
  }

  /** Behind the sign; `0x` makes the number hexadecimal. */
  function ReadUnsigned(s: string, radix: nat): Number {
    if |s| >= 2 && s[0] == '0' && s[1] in {'x', 'X'} then ReadDigits(s[2..], 16) else ReadDigits(s, radix)
  }

  /** `parseInt` in base 16, and without a base in base 10: as far as there are digits, behind blanks and a sign. */
  function ParseInt(s: string, radix: nat := 10): Number {
    var t := SkipSpaces(s);
    if t != "" && t[0] == '-' then
      var n := ReadUnsigned(t[1..], radix);
      if n.NaN? then NaN else Int(-n.v)
    else ReadUnsigned(if t != "" && t[0] == '+' then t[1..] else t, radix)
  }

  lemma OneValue(c: char, radix: nat)
    requires IsDigit(c, radix)
    ensures ValueOf([c], radix) == DigitValue(c).value
  {
    assert [c][..0] == "" && ValueOf("", radix) == 0;
  }

  lemma OneDigit(c: char, radix: nat)
    ensures ReadDigits([c], radix) == if IsDigit(c, radix) then Int(DigitValue(c).value) else NaN
  {
    if IsDigit(c, radix) {
      OneValue(c, radix);
      assert [c][1..] == "" && [c][..1] == [c];
    }
  }

  lemma TwoDigits(a: char, b: char, radix: nat)
    requires IsDigit(a, radix)
    ensures ReadDigits([a, b], radix) ==
            Int(if IsDigit(b, radix) then DigitValue(a).value * radix + DigitValue(b).value else DigitValue(a).value)
  {
    OneValue(a, radix);
    assert [a, b][1..] == [b] && [b][1..] == "";
    assert [a, b][..1] == [a] && [a, b][..2] == [a, b];
    assert LeadingDigits([b], radix) == if IsDigit(b, radix) then 1 else 0;
    assert ValueOf([a, b], radix) == ValueOf([a], radix) * radix + DigitValue(b).GetOr(0);
  }

  lemma UnsignedOne(c: char)
    ensures ReadUnsigned([c], 16) == if IsDigit(c, 16) then Int(DigitValue(c).value) else NaN
  {
    OneDigit(c, 16);
  }

  /** A pair's value, with NaN as 0: two digits, or one in front of something else or behind a blank or a sign. */
  function PairValue(a: char, b: char): (v: int)
    ensures -16 < v < 256
  {
    var first, second := DigitValue(a), DigitValue(b);
    if first.Some? then if second.Some? then first.value * 16 + second.value else first.value
    else if second.None? then 0
    else if IsSpace(a) || a == '+' then second.value
    else if a == '-' then -(second.value as int)
    else 0
  }

  lemma PairMeans(a: char, b: char)
    ensures var n := ParseInt([a, b], 16); PairValue(a, b) == if n.NaN? then 0 else n.v
  {
    assert [a, b][1..] == [b] && [b][1..] == "";
    UnsignedOne(b);
    if IsSpace(a) {
      assert SkipSpaces([a, b]) == SkipSpaces([b]) == if IsSpace(b) then SkipSpaces("") else [b];
      assert ReadUnsigned("", 16) == NaN;
    } else {
      assert SkipSpaces([a, b]) == [a, b];
      if IsDigit(a, 16) {
        if a == '0' && b in {'x', 'X'} {
          assert [a, b][2..] == "";
        } else {
          TwoDigits(a, b, 16);
        }
      }
    }
  }

  lemma SingleMeans(c: char)
    ensures ParseInt([c], 16) == if DigitValue(c).Some? then Int(DigitValue(c).value) else NaN
  {
    assert [c][1..] == "" && SkipSpaces("") == "";
    assert ReadUnsigned("", 16) == NaN;
    UnsignedOne(c);
  }

  lemma {:induction false} DigitsJoin(s: string, c: char)
    requires LeadingDigits(s, 10) == |s|
    ensures LeadingDigits(s + [c], 10) == |s| + if IsDigit(c, 10) then 1 else 0
  {
    if s == "" {
      assert (s + [c])[1..] == "";
    } else {
      assert (s + [c])[1..] == s[1..] + [c];
      DigitsJoin(s[1..], c);
    }
  }

  lemma {:induction false} AllDecimal(s: string)
    requires Rules.Decimal(s).Some?
    ensures LeadingDigits(s, 10) == |s| && ValueOf(s, 10) == Rules.Decimal(s).value
    ensures forall i :: 0 <= i < |s| ==> '0' <= s[i] <= '9'
  {
    if s == "" {
    } else {
      var front := s[..|s| - 1];
      AllDecimal(front);
      assert s == front + [s[|s| - 1]];
      DigitsJoin(front, s[|s| - 1]);
    }
  }

  /** Decimal digits are read as the number that they denote. */
  lemma DecimalRead(s: string)
    requires s != "" && Rules.Decimal(s).Some?
    ensures ParseInt(s) == Int(Rules.Decimal(s).value)
  {
    AllDecimal(s);
    assert s[..|s|] == s;
  }

  // ----- what `parseInt` makes of a text -----

  /** The blanks, one by one: those of the language, which differ from Go's in U+0085 and U+FEFF. */
  lemma Blanks(c: char)
    ensures IsSpace(c) <==>
            c as int in {0x9, 0xA, 0xB, 0xC, 0xD, 0x20, 0xA0, 0x1680, 0x2000, 0x2001, 0x2002, 0x2003, 0x2004, 0x2005, 0x2006,
                         0x2007, 0x2008, 0x2009, 0x200A, 0x2028, 0x2029, 0x202F, 0x205F, 0x3000, 0xFEFF}
  {
  }

  lemma {:induction false} BlanksSkipped(blanks: string, s: string)
    requires (forall i :: 0 <= i < |blanks| ==> IsSpace(blanks[i])) && (s == "" || !IsSpace(s[0]))
    ensures SkipSpaces(blanks + s) == s
  {
    hide IsSpace;
    if blanks == "" {
      assert blanks + s == s;
    } else {
      assert (blanks + s)[1..] == blanks[1..] + s;
      BlanksSkipped(blanks[1..], s);
    }
  }

  lemma {:induction false} DigitsThenOther(digits: string, rest: string, radix: nat)
    requires LeadingDigits(digits, radix) == |digits| && (rest == "" || !IsDigit(rest[0], radix))
    ensures LeadingDigits(digits + rest, radix) == |digits|
  {
    if digits == "" {
      assert digits + rest == rest;
    } else {
      assert (digits + rest)[1..] == digits[1..] + rest;
      DigitsThenOther(digits[1..], rest, radix);
    }
  }

  function Signed(sign: string, v: nat): int {
    if sign == "-" then -(v as int) else v
  }

  /** Blanks and a sign in front of text that is neither. */
  lemma BehindTheSign(blanks: string, sign: string, s: string, radix: nat)
    requires forall i :: 0 <= i < |blanks| ==> IsSpace(blanks[i])
    requires sign in {"", "+", "-"} && (s == "" || (!IsSpace(s[0]) && s[0] != '+' && s[0] != '-'))
    ensures var n := ReadUnsigned(s, radix);
            ParseInt(blanks + sign + s, radix) == if n.NaN? then NaN else Int(if sign == "-" then -n.v else n.v)
  {
    hide ReadUnsigned, LeadingDigits;
    assert blanks + sign + s == blanks + (sign + s);
    BlanksSkipped(blanks, sign + s);
    if sign == "" {
      assert sign + s == s;
    } else {
      assert (sign + s)[1..] == s;
    }
  }

  /** Decimal digits are read as far as they go. */
  lemma ParseDecimal(blanks: string, sign: string, digits: string, rest: string)
    requires forall i :: 0 <= i < |blanks| ==> IsSpace(blanks[i])
    requires sign in {"", "+", "-"} && digits != "" && Rules.Decimal(digits).Some?
    requires rest == "" || !('0' <= rest[0] <= '9' || (digits == "0" && rest[0] in {'x', 'X'}))
    ensures ParseInt(blanks + sign + (digits + rest)) == Int(Signed(sign, Rules.Decimal(digits).value))
  {
    AllDecimal(digits);
    BehindTheSign(blanks, sign, digits + rest, 10);
    DigitsThenOther(digits, rest, 10);
    hide LeadingDigits, ValueOf, ParseInt, Rules.Decimal;
    assert (digits + rest)[..|digits|] == digits;
    if |digits| >= 2 {
      assert (digits + rest)[1] == digits[1];
    }
  }

  lemma ReadHexadecimal(s: string, digits: string, rest: string, radix: nat)
    requires |s| >= 2 && s[0] == '0' && s[1] in {'x', 'X'} && s[2..] == digits + rest
    requires digits != "" && LeadingDigits(digits, 16) == |digits| && (rest == "" || DigitValue(rest[0]).None?)
    ensures ReadUnsigned(s, radix) == Int(ValueOf(digits, 16))
  {
    DigitsThenOther(digits, rest, 16);
    hide LeadingDigits, ValueOf, DigitValue;
    assert (digits + rest)[..|digits|] == digits;
  }

  /** Behind `0x` they are hexadecimal. */
  lemma ParseHexadecimal(blanks: string, sign: string, prefix: string, digits: string, rest: string, radix: nat)
    requires forall i :: 0 <= i < |blanks| ==> IsSpace(blanks[i])
    requires sign in {"", "+", "-"} && prefix in {"0x", "0X"} && digits != "" && LeadingDigits(digits, 16) == |digits|
    requires rest == "" || DigitValue(rest[0]).None?
    ensures ParseInt(blanks + sign + (prefix + (digits + rest)), radix) == Int(Signed(sign, ValueOf(digits, 16)))
  {
    hide LeadingDigits, ValueOf, ParseInt, ReadUnsigned, DigitValue;
    var s := prefix + (digits + rest);
    assert s[2..] == digits + rest && s[0] == '0' && s[1] == prefix[1];
    assert !IsSpace('0');
    ReadHexadecimal(s, digits, rest, radix);
    BehindTheSign(blanks, sign, s, radix);
  }

  /** And without a digit there is no number. */
  lemma ParseNothing(blanks: string, sign: string, rest: string)
    requires forall i :: 0 <= i < |blanks| ==> IsSpace(blanks[i])
    requires sign in {"", "+", "-"} && (rest == "" || !(IsSpace(rest[0]) || rest[0] in {'+', '-'} || '0' <= rest[0] <= '9'))
    ensures ParseInt(blanks + sign + rest) == NaN
  {
    BehindTheSign(blanks, sign, rest, 10);
  }

  /** Nor is `0x` with no hexadecimal digit behind it one. */
  lemma ParseEmptyHexadecimal(blanks: string, sign: string, prefix: string, rest: string, radix: nat)
    requires forall i :: 0 <= i < |blanks| ==> IsSpace(blanks[i])
    requires sign in {"", "+", "-"} && prefix in {"0x", "0X"} && (rest == "" || DigitValue(rest[0]).None?)
    ensures ParseInt(blanks + sign + (prefix + rest), radix) == NaN
  {
    hide ParseInt;
    var s := prefix + rest;
    assert s[2..] == rest && s[0] == '0' && s[1] == prefix[1];
    assert !IsSpace('0');
    BehindTheSign(blanks, sign, s, radix);
  }

  /** A hexadecimal number, digit by digit. */
  lemma HexadecimalValue(digits: string, c: char)
    requires DigitValue(c).Some?
    ensures ValueOf("", 16) == 0 && ValueOf(digits + [c], 16) == 16 * ValueOf(digits, 16) + DigitValue(c).value
  {
    assert (digits + [c])[..|digits|] == digits;
  }

  // ----- parts of a text -----

  function Clamp(n: Number, size: nat): (k: nat)
    ensures k <= size
  {
    if n.NaN? || n.v < 0 then 0 else if n.v > size then size else n.v
  }

  /** `substring`: NaN counts as 0, bounds are clamped to the text and swapped where they are the wrong way round. */
  function Substring(s: string, from: Number, to: Number): string {
    var a, b := Clamp(from, |s|), Clamp(to, |s|);
    if a <= b then s[a..b] else s[b..a]
  }

  /** Its bounds: in the text as they are, either way round; before it or NaN its beginning; behind it its end. */
  lemma SubstringMeans(s: string, from: Number, to: Number, a: nat, b: nat)
    requires a <= b <= |s|
    requires from == Int(a) || (a == 0 && (from.NaN? || from.v < 0)) || (a == |s| && from.Int? && from.v > |s|)
    requires to == Int(b) || (b == 0 && (to.NaN? || to.v < 0)) || (b == |s| && to.Int? && to.v > |s|)
    ensures Substring(s, from, to) == Substring(s, to, from) == s[a..b]
  {
  }

  /** The same between two places in order. */
  function Slice(s: string, from: nat, to: nat): string
    requires from <= to
  {
    Substring(s, Int(from), Int(to))
  }

  // ----- characters in hexadecimal -----

  /** `String.fromCharCode(parseInt(pair, 16))`, which takes NaN for 0 and a negative number modulo 2^16. */
  function CharOf(pair: string): char
    requires 1 <= |pair| <= 2
  {
    var v := if |pair| == 1 then DigitValue(pair[0]).GetOr(0) else PairValue(pair[0], pair[1]);
    (v % 0x1_0000) as char
  }

  lemma CharMeans(pair: string)
    requires 1 <= |pair| <= 2
    ensures var n := ParseInt(pair, 16); CharOf(pair) as int == if n.NaN? then 0 else n.v % 0x1_0000
  {
    hide ParseInt, PairValue, IsSpace;
    if |pair| == 1 {
      SingleMeans(pair[0]);
      assert pair == [pair[0]];
    } else {
      assert pair == [pair[0], pair[1]];
      PairMeans(pair[0], pair[1]);
    }
  }

  /** A character for every two; an odd digit at the end is a character of its own. */
  function HexToString(h: string): (s: string)
    ensures |s| == (|h| + 1) / 2
  {
    if h == "" then ""
    else
      var k := if |h| == 1 then 1 else 2;
      [CharOf(h[..k])] + HexToString(h[k..])
  }

  method HexToStringLoop(hex: string) returns (str: string)
    ensures str == HexToString(hex)
  {
    hide CharOf;
    str := "";
    var i := 0;
    assert hex[0..] == hex && "" + HexToString(hex) == HexToString(hex);
    while i < |hex|
      invariant i <= |hex| && HexToString(hex) == str + HexToString(hex[i..])
      decreases |hex| - i
    {
      var next := if i + 2 <= |hex| then i + 2 else |hex|;
      assert hex[i..][..next - i] == hex[i..next] && hex[i..][next - i..] == hex[next..];
      var c := CharOf(hex[i..next]);
      assert str + ([c] + HexToString(hex[next..])) == (str + [c]) + HexToString(hex[next..]);
      str := str + [c];
      i := next;
    }
    assert hex[i..] == "" && str + "" == str;
  }
}
