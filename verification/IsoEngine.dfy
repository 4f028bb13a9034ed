/** The ISO 8583 engine of the web client: a spec-driven encoder and decoder over hexadecimal text. */
module IsoEngine {
  import opened Base
  import opened Bitmap
  import opened JsText
  import Rules

  // ----- text and hexadecimal -----

  function Repeat(c: char, n: nat): (s: string)
    ensures |s| == n
  {
    seq(n, _ => c)
  }

  function PadStart(s: string, n: nat, c: char): string {
    if |s| < n then Repeat(c, n - |s|) + s else s
  }

  function PadEnd(s: string, n: nat, c: char): string {
    if |s| < n then s + Repeat(c, n - |s|) else s
  }

  /** A number in base 16, without leading zeros. */
  function HexNumber(n: nat): string {
    if n < 16 then [Digit(n, Upper)] else HexNumber(n / 16) + [Digit(n % 16, Upper)]
  }

  /** A character above 255 takes three digits or more. */
  function HexOfChar(c: char): string {
    PadStart(HexNumber(c as int), 2, '0')
  }

  function StringToHex(s: string): string {
    if s == "" then "" else HexOfChar(s[0]) + StringToHex(s[1..])
  }

  method StringToHexLoop(str: string) returns (hex: string)
    ensures hex == StringToHex(str)
  {
    hex := "";
    var i := 0;
    while i < |str|
      invariant i <= |str| && hex + StringToHex(str[i..]) == StringToHex(str)
    {
      assert str[i..][1..] == str[i + 1..];
      assert hex + (HexOfChar(str[i]) + StringToHex(str[i + 1..]))
          == (hex + HexOfChar(str[i])) + StringToHex(str[i + 1..]);
      hex := hex + HexOfChar(str[i]);
      i := i + 1;
    }
  }

  predicate OneByte(s: string) {
    forall i :: 0 <= i < |s| ==> s[i] as int < 256
  }

  lemma NarrowChar(c: char)
    requires c as int < 256
    ensures HexOfChar(c) == [Digit(c as int / 16, Upper), Digit(c as int % 16, Upper)]
  {
    var n := c as int;
    if n < 16 {
      assert Repeat('0', 1) == "0";
      assert Digit(0, Upper) == '0';
    } else {
      assert HexNumber(n / 16) == [Digit(n / 16, Upper)];
    }
  }

  lemma HexNumberSome(n: nat)
    ensures |HexNumber(n)| >= 1
  {
  }

  lemma WideChar(c: char)
    requires c as int >= 256
    ensures |HexOfChar(c)| >= 3
  {
    var n := c as int;
    assert HexNumber(n) == HexNumber(n / 16) + [Digit(n % 16, Upper)];
    assert HexNumber(n / 16) == HexNumber(n / 16 / 16) + [Digit(n / 16 % 16, Upper)];
    HexNumberSome(n / 16 / 16);
  }

  lemma {:induction false} HexLength(s: string)
    ensures |StringToHex(s)| >= 2 * |s|
    ensures |StringToHex(s)| == 2 * |s| <==> OneByte(s)
  {
    hide HexOfChar;
    if s == "" {
    } else {
      HexLength(s[1..]);
      if s[0] as int < 256 {
        NarrowChar(s[0]);
      } else {
        WideChar(s[0]);
      }
      assert OneByte(s) <==> s[0] as int < 256 && OneByte(s[1..]) by {
        assert forall i :: 1 <= i < |s| ==> s[i] == s[1..][i - 1];
      }
    }
  }

  lemma NarrowCharBack(c: char)
    requires c as int < 256
    ensures |HexOfChar(c)| == 2 && CharOf(HexOfChar(c)) == c
  {
    NarrowChar(c);
    hide HexOfChar;
  }

  /** One-byte text comes back from its hexadecimal form. */
  lemma {:induction false} TextBack(s: string)
    requires OneByte(s)
    ensures HexToString(StringToHex(s)) == s
  {
    hide HexOfChar, CharOf;
    if s == "" {
    } else {
      var h := StringToHex(s);
      NarrowCharBack(s[0]);
      assert h[..2] == HexOfChar(s[0]) && h[2..] == StringToHex(s[1..]);
      TextBack(s[1..]);
      assert s == [s[0]] + s[1..];
    }
  }

  lemma {:induction false} HexJoin(a: string, b: string)
    ensures StringToHex(a + b) == StringToHex(a) + StringToHex(b)
  {
    hide HexOfChar;
    if a == "" {
      assert a + b == b;
    } else {
      assert (a + b)[1..] == a[1..] + b;
      HexJoin(a[1..], b);
    }
  }

  /** Two digits a character are read back, whatever follows. */
  lemma TextStartBack(s: string, k: nat, behind: string)
    requires OneByte(s) && k <= |s|
    ensures 2 * k <= |StringToHex(s)| && HexToString(Slice(StringToHex(s) + behind, 0, 2 * k)) == s[..k]
  {
    hide StringToHex, HexToString;
    assert s == s[..k] + s[k..];
    HexJoin(s[..k], s[k..]);
    HexLength(s[..k]);
    HexLength(s[k..]);
    TextBack(s[..k]);
    assert Slice(StringToHex(s) + behind, 0, 2 * k) == StringToHex(s[..k]);
  }

  lemma {:induction false} HexNumberDigits(n: nat)
    ensures AllHex(HexNumber(n))
  {
    if n < 16 {
    } else {
      HexNumberDigits(n / 16);
    }
  }

  lemma HexOfCharDigits(c: char)
    ensures |HexOfChar(c)| >= 2 && AllHex(HexOfChar(c))
  {
    HexNumberDigits(c as int);
  }

  lemma DigitsNarrow(pair: string)
    requires 1 <= |pair| <= 2 && AllHex(pair)
    ensures CharOf(pair) as int < 256
  {
  }

  /** Text that is read from the beginning of its own hexadecimal form, with anything behind, is one-byte text. */
  lemma {:induction false} ReadIsOneByte(s: string, behind: string, h: string)
    requires h <= StringToHex(s) + behind && HexToString(h) == s
    ensures OneByte(s)
  {
    hide HexOfChar, CharOf;
    if s == "" {
    } else {
      HexOfCharDigits(s[0]);
      var k := if |h| == 1 then 1 else 2;
      assert forall i :: 0 <= i < k ==> h[..k][i] == HexOfChar(s[0])[i];
      DigitsNarrow(h[..k]);
      if |h| > 2 {
        NarrowChar(s[0]);
        assert StringToHex(s) + behind == HexOfChar(s[0]) + (StringToHex(s[1..]) + behind);
        assert h[2..] <= StringToHex(s[1..]) + behind;
        ReadIsOneByte(s[1..], behind, h[2..]);
      }
      assert s == [s[0]] + s[1..];
    }
  }

  // ----- decimal lengths -----

  function ToDecimal(n: nat): string {
    if n < 10 then [n as char + '0'] else ToDecimal(n / 10) + [(n % 10) as char + '0']
  }

  lemma {:induction false} ZeroDigits(n: nat)
    ensures Rules.Digits(0, n) == Repeat('0', n)
  {
    if n == 0 {
    } else {
      ZeroDigits(n - 1);
    }
  }

  /** A number padded with zeros to a width that holds it is its digits to that width. */
  lemma {:induction false} PaddedDigits(n: nat, width: nat)
    requires width >= 1 && n < Rules.Pow10(width)
    ensures |ToDecimal(n)| <= width && PadStart(ToDecimal(n), width, '0') == Rules.Digits(n, width)
  {
    if n < 10 {
      ZeroDigits(width - 1);
    } else {
      assert width >= 2 by {
        assert Rules.Pow10(1) == 10 * Rules.Pow10(0) == 10;
      }
      PaddedDigits(n / 10, width - 1);
    }
  }

  lemma {:induction false} DecimalText(n: nat)
    ensures Rules.Decimal(ToDecimal(n)) == Some(n)
  {
    if n < 10 {
      assert ToDecimal(n)[..0] == "" && Rules.Decimal("") == Some(0);
    } else {
      DecimalText(n / 10);
      assert ToDecimal(n)[..|ToDecimal(n)| - 1] == ToDecimal(n / 10);
    }
  }

  // ----- field specifications -----

  datatype FieldName =
    | MTI | PAN | ProcCode | AmountTrn | AmountSet | AmountBil | TransDateTime | ConvRateSet | ConvRateBil | STAN
    | LocalTime | LocalDate | ExpDate | DateSet | DateConv | MerchantType | POSEntryMode | POSCondCode | POSPinCode
    | AcqInstID | Track2Data | RRN | AuthRespID | RespCode | TerminalID | MerchantID | MerchantLoc | AddDataNat
    | AddDataPriv | CurCodeTrn | CurCodeBil | PinData | SecurityData | AddAmounts | ICCData | Priv2 | ReservedPriv
    | NwManagementInf | ReservedPriv125

  datatype Format = Fixed | Llvar | Lllvar

  datatype Padding = NoPadding | Left | Right

  datatype FieldSpec =
    FieldSpec(name: FieldName, length: nat, format: Format, padding: Padding := NoPadding, padChar: Option<char> := None)

  type Spec = nat -> Option<FieldSpec>

  /** Field numbers end below this. */
  const LIMIT: nat := 129

  /** What the engine relies on: distinct names, no empty fixed field, no data element 1. */
  ghost predicate SpecOk(spec: Spec) {
    && (forall n: nat :: spec(n).Some? ==> n < LIMIT && n != 1 && spec(n).value.length > 0)
    && (forall a: nat, b: nat :: spec(a).Some? && spec(b).Some? && spec(a).value.name == spec(b).value.name ==> a == b)
  }

  // ----- one field -----

  /** The value as it goes on the wire: a fixed field padded or cut to its length. */
  function Normal(value: string, f: FieldSpec): string {
    if f.format.Fixed? then
      var padded :=
        match f.padding
        case NoPadding => value
        case Left => PadStart(value, f.length, f.padChar.GetOr('0'))
        case Right => PadEnd(value, f.length, f.padChar.GetOr(' '));
      if |padded| > f.length then padded[..f.length] else padded
    else value
  }

  function Width(f: FieldSpec): nat {
    match f.format
    case Fixed => 0
    case Llvar => 2
    case Lllvar => 3
  }

  function LengthPrefix(n: nat, f: FieldSpec): string {
    if f.format.Fixed? then "" else PadStart(ToDecimal(n), Width(f), '0')
  }

  function FormatField(value: string, f: FieldSpec): string {
    StringToHex(LengthPrefix(|Normal(value, f)|, f)) + StringToHex(Normal(value, f))
  }

  /** A field's value, and where the next field begins; NaN, or before the text, where a length says so. */
  datatype Piece = Piece(value: string, next: Number)

  function ParseField(hex: string, pos: Number, f: FieldSpec): Piece {
    var start := Plus(pos, Int(2 * Width(f)));
    var length := if f.format.Fixed? then Int(f.length) else ParseInt(HexToString(Substring(hex, pos, start)));
    var end := if length.NaN? then NaN else Plus(start, Int(2 * length.v));
    Piece(HexToString(Substring(hex, start, end)), end)
  }

  /**
   Whether a field can be read back: one byte a character, a variable length its prefix can say, a fixed value
   of full length unless nothing follows it.
   */
  predicate FieldOk(value: string, f: FieldSpec, last: bool) {
    var v := Normal(value, f);
    OneByte(v) && if f.format.Fixed? then |v| == f.length || last else |v| < Rules.Pow10(Width(f))
  }

  lemma NormalLength(value: string, f: FieldSpec)
    requires value != "" && f.length > 0
    ensures Normal(value, f) != "" && (f.format.Fixed? ==> |Normal(value, f)| <= f.length)
  {
  }

  lemma NormalTwice(value: string, f: FieldSpec)
    ensures Normal(Normal(value, f), f) == Normal(value, f)
  {
  }

  lemma SliceShift(s: string, pos: nat, from: nat, to: nat)
    requires pos <= |s| && from <= to
    ensures Slice(s, pos + from, pos + to) == Slice(s[pos..], from, to)
  {
  }

  lemma SliceShort(s: string, from: nat, size: nat)
    ensures |Slice(s, from, from + size)| <= size
  {
  }

  lemma SliceStart(s: string, to: nat)
    ensures Slice(s, 0, to) <= s
  {
  }

  lemma SliceFirst(a: string, b: string)
    ensures Slice(a + b, 0, |a|) == a
  {
  }

  lemma SliceSecond(a: string, b: string, to: nat)
    ensures Slice(a + b, |a|, |a| + to) == Slice(b, 0, to)
  {
  }

  lemma {:induction false} Pow10Grows(a: nat, b: nat)
    requires a <= b
    ensures Rules.Pow10(a) <= Rules.Pow10(b)
  {
    if a < b {
      Pow10Grows(a, b - 1);
    }
  }

  /** The decimal digits of a length prefix: at least as many as its width. */
  lemma PrefixText(n: nat, f: FieldSpec)
    requires !f.format.Fixed?
    ensures var t, w := LengthPrefix(n, f), Width(f);
            && |t| >= w && Rules.Decimal(t).Some?
            && (n < Rules.Pow10(w) ==> |t| == w && Rules.Decimal(t) == Some(n))
  {
    hide ToDecimal, Rules.Decimal, Rules.Pow10;
    var w := Width(f);
    DecimalText(n);
    if n < Rules.Pow10(w) {
      PaddedDigits(n, w);
      Rules.DigitsRoundTrip(n, w);
    } else {
      Rules.DecimalBound(ToDecimal(n));
      if |ToDecimal(n)| < w {
        Pow10Grows(|ToDecimal(n)|, w);
      }
    }
  }

  /** What a reader makes of a length prefix: a number its width can hold, and the length if that is one. */
  lemma PrefixRead(n: nat, f: FieldSpec, behind: string)
    requires !f.format.Fixed?
    ensures var h, w := StringToHex(LengthPrefix(n, f)), Width(f);
            var read := ParseInt(HexToString(Slice(h + behind, 0, 2 * w)));
            && read.Int? && 0 <= read.v < Rules.Pow10(w)
            && (n < Rules.Pow10(w) ==> |h| == 2 * w && read.v == n)
  {
    hide StringToHex, HexToString, Slice, LengthPrefix, ParseInt, Rules.Pow10, Rules.Decimal;
    var t, w := LengthPrefix(n, f), Width(f);
    PrefixText(n, f);
    AllDecimal(t);
    HexLength(t);
    TextStartBack(t, w, behind);
    Rules.DecimalPrefix(t, w);
    Rules.DecimalBound(t[..w]);
    DecimalRead(t[..w]);
    if |t| == w {
      assert t[..w] == t;
    }
  }

  /** Reading a field at a place depends only on the text from there on. */
  lemma ParseAt(hex: string, pos: nat, f: FieldSpec, length: nat)
    requires pos <= |hex|
    requires if f.format.Fixed? then length == f.length
             else ParseInt(HexToString(Slice(hex[pos..], 0, 2 * Width(f)))) == Int(length)
    ensures var w := 2 * Width(f);
            ParseField(hex, Int(pos), f) == Piece(HexToString(Slice(hex[pos..], w, w + length * 2)), Int(pos + w + length * 2))
  {
    hide HexToString, ParseInt, Substring;
    var w := 2 * Width(f);
    SliceShift(hex, pos, 0, w);
    SliceShift(hex, pos, w, w + length * 2);
  }

  lemma NoPrefix(n: nat, f: FieldSpec)
    requires f.format.Fixed?
    ensures StringToHex(LengthPrefix(n, f)) == ""
  {
  }

  /** A good field in front of other text is read whole. */
  lemma GoodFieldBack(hex: string, pos: nat, value: string, f: FieldSpec, behind: string)
    requires FieldOk(value, f, false) && pos <= |hex| && hex[pos..] == FormatField(value, f) + behind
    ensures ParseField(hex, Int(pos), f) == Piece(Normal(value, f), Int(pos + |FormatField(value, f)|))
  {
    hide ParseField, ParseInt, HexToString, Slice, StringToHex, Normal, LengthPrefix;
    var v := Normal(value, f);
    var head, body := StringToHex(LengthPrefix(|v|, f)), StringToHex(v);
    HexLength(v);
    TextBack(v);
    SliceFirst(body, behind);
    assert FormatField(value, f) + behind == head + (body + behind);
    if f.format.Fixed? {
      NoPrefix(|v|, f);
      assert head + (body + behind) == body + behind;
    } else {
      PrefixRead(|v|, f, body + behind);
      SliceSecond(head, body + behind, |body|);
    }
    ParseAt(hex, pos, f, |v|);
  }

  /** A short fixed field at the end is cut off by the end of the text. */
  lemma ShortLastBack(hex: string, pos: nat, value: string, f: FieldSpec)
    requires f.length > 0 && value != "" && f.format.Fixed? && FieldOk(value, f, true)
    requires pos <= |hex| && hex[pos..] == FormatField(value, f)
    ensures ParseField(hex, Int(pos), f).value == Normal(value, f)
  {
    hide ParseField, HexToString, StringToHex, Normal, LengthPrefix;
    var v := Normal(value, f);
    NormalLength(value, f);
    HexLength(v);
    TextBack(v);
    NoPrefix(|v|, f);
    var body := StringToHex(v);
    assert FormatField(value, f) == body;
    assert Slice(body, 0, f.length * 2) == body;
    ParseAt(hex, pos, f, f.length);
  }

  /** A fixed field that comes back was good. */
  lemma FixedReadIsGood(hex: string, pos: nat, value: string, f: FieldSpec, behind: string)
    requires f.length > 0 && value != "" && f.format.Fixed?
    requires pos <= |hex| && hex[pos..] == FormatField(value, f) + behind
    requires ParseField(hex, Int(pos), f).value == Normal(value, f)
    ensures FieldOk(value, f, behind == "")
  {
    hide ParseField, HexToString, StringToHex, Normal, LengthPrefix;
    var v := Normal(value, f);
    var s := StringToHex(v) + behind;
    NoPrefix(|v|, f);
    NormalLength(value, f);
    assert hex[pos..] == s;
    ParseAt(hex, pos, f, f.length);
    var piece := Slice(s, 0, f.length * 2);
    ReadIsOneByte(v, behind, piece);
    HexLength(v);
    assert |s| == 2 * |v| + |behind|;
  }

  /** So was a variable one. */
  lemma VariableReadIsGood(hex: string, pos: nat, value: string, f: FieldSpec, behind: string)
    requires !f.format.Fixed? && pos <= |hex| && hex[pos..] == FormatField(value, f) + behind
    requires ParseField(hex, Int(pos), f).value == Normal(value, f)
    ensures FieldOk(value, f, behind == "")
  {
    hide ParseField, ParseInt, HexToString, StringToHex, Normal, LengthPrefix, Substring, Rules.Pow10;
    var v := Normal(value, f);
    var head, body, w := StringToHex(LengthPrefix(|v|, f)), StringToHex(v), 2 * Width(f);
    assert hex[pos..] == head + (body + behind);
    PrefixRead(|v|, f, body + behind);
    var length := ParseInt(HexToString(Slice(hex[pos..], 0, w))).v;
    ParseAt(hex, pos, f, length);
    var piece := Slice(hex[pos..], w, w + length * 2);
    SliceShort(hex[pos..], w, length * 2);
    SliceSecond(head, body + behind, length * 2);
    SliceStart(body + behind, length * 2);
    ReadIsOneByte(v, behind, piece);
  }

  /** A field is read back exactly when it is good, and then what follows it starts where it ends. */
  lemma FieldBackIff(hex: string, pos: nat, value: string, f: FieldSpec, behind: string)
    requires f.length > 0 && value != ""
    requires pos <= |hex| && hex[pos..] == FormatField(value, f) + behind
    ensures var p := ParseField(hex, Int(pos), f);
            && (p.value == Normal(value, f) <==> FieldOk(value, f, behind == ""))
            && (FieldOk(value, f, false) ==> p.next == Int(pos + |FormatField(value, f)|))
  {
    hide ParseField, FormatField, Normal;
    if FieldOk(value, f, false) {
      GoodFieldBack(hex, pos, value, f, behind);
    } else if FieldOk(value, f, behind == "") {
      assert FormatField(value, f) + behind == FormatField(value, f);
      ShortLastBack(hex, pos, value, f);
    } else if ParseField(hex, Int(pos), f).value == Normal(value, f) {
      if f.format.Fixed? {
        FixedReadIsGood(hex, pos, value, f, behind);
      } else {
        VariableReadIsGood(hex, pos, value, f, behind);
      }
    }
  }

  lemma TenPowers()
    ensures Rules.Pow10(2) == 100 && Rules.Pow10(3) == 1000
  {
    assert Rules.Pow10(1) == 10 * Rules.Pow10(0) == 10;
  }

  lemma VariableBackIff(hex: string, pos: nat, value: string, f: FieldSpec, behind: string)
    requires !f.format.Fixed? && OneByte(value)
    requires pos <= |hex| && hex[pos..] == FormatField(value, f) + behind
    ensures var w, n := Width(f), |value|;
            && (n < Rules.Pow10(w) ==>
                  && FormatField(value, f) == StringToHex(Rules.Digits(n, w) + value)
                  && |FormatField(value, f)| == 2 * w + 2 * n
                  && ParseField(hex, Int(pos), f) == Piece(value, Int(pos + 2 * w + 2 * n)))
            && (n >= Rules.Pow10(w) ==> ParseField(hex, Int(pos), f).value != value)
  {
    hide ParseField, StringToHex, Rules.Digits, Rules.Pow10, ToDecimal;
    var w, n := Width(f), |value|;
    if n < Rules.Pow10(w) {
      PaddedDigits(n, w);
      HexJoin(Rules.Digits(n, w), value);
      PrefixRead(n, f, "");
      HexLength(value);
      GoodFieldBack(hex, pos, value, f, behind);
    } else if ParseField(hex, Int(pos), f).value == value {
      VariableReadIsGood(hex, pos, value, f, behind);
    }
  }

  /** A one-byte value in an `llvar` field goes out behind two decimal digits and comes back exactly up to 99 characters. */
  lemma LlvarBackIff(hex: string, pos: nat, value: string, f: FieldSpec, behind: string)
    requires f.format.Llvar? && OneByte(value)
    requires pos <= |hex| && hex[pos..] == FormatField(value, f) + behind
    ensures |value| <= 99 ==>
              && FormatField(value, f) == StringToHex(Rules.Digits(|value|, 2) + value)
              && |FormatField(value, f)| == 4 + 2 * |value|
              && ParseField(hex, Int(pos), f) == Piece(value, Int(pos + 4 + 2 * |value|))
    ensures |value| > 99 ==> ParseField(hex, Int(pos), f).value != value
  {
    hide ParseField, FormatField, StringToHex, Rules.Digits, Rules.Pow10;
    VariableBackIff(hex, pos, value, f, behind);
    TenPowers();
  }

  /** In an `lllvar` field it goes out behind three digits and comes back exactly up to 999. */
  lemma LllvarBackIff(hex: string, pos: nat, value: string, f: FieldSpec, behind: string)
    requires f.format.Lllvar? && OneByte(value)
    requires pos <= |hex| && hex[pos..] == FormatField(value, f) + behind
    ensures |value| <= 999 ==>
              && FormatField(value, f) == StringToHex(Rules.Digits(|value|, 3) + value)
              && |FormatField(value, f)| == 6 + 2 * |value|
              && ParseField(hex, Int(pos), f) == Piece(value, Int(pos + 6 + 2 * |value|))
    ensures |value| > 999 ==> ParseField(hex, Int(pos), f).value != value
  {
    hide ParseField, FormatField, StringToHex, Rules.Digits, Rules.Pow10;
    VariableBackIff(hex, pos, value, f, behind);
    TenPowers();
  }

  // ----- messages -----

  /** A message by field number. Values that are empty count as absent. */
  datatype Message = Message(mti: string, fields: map<nat, string>)

  function MtiOf(m: Message): string {
    if m.mti == "" then "0100" else m.mti
  }

  function Present(spec: Spec, fields: map<nat, string>): set<nat> {
    set n | n in fields && fields[n] != "" && spec(n).Some?
  }

  predicate AllPresent(spec: Spec, fields: map<nat, string>, list: seq<nat>) {
    forall n :: n in list ==> n in fields && fields[n] != "" && spec(n).Some?
  }

  /** The formatted fields of a list, one after another. */
  function Body(spec: Spec, fields: map<nat, string>, list: seq<nat>): string
    requires AllPresent(spec, fields, list)
  {
    if list == [] then ""
    else FormatField(fields[list[0]], spec(list[0]).value) + Body(spec, fields, list[1..])
  }

  /** The present fields in ascending order. */
  function Order(spec: Spec, fields: map<nat, string>): (list: seq<nat>)
    ensures AllPresent(spec, fields, list)
  {
    ListingMembers(Present(spec, fields), LIMIT);
    Listing(Present(spec, fields), LIMIT)
  }

  function EncodeHex(spec: Spec, m: Message): string {
    StringToHex(MtiOf(m)) + BitmapHex(Present(spec, m.fields)) + Body(spec, m.fields, Order(spec, m.fields))
  }

  /** A decoded message: its fields go by name. */
  datatype Decoded = Decoded(mti: string, fields: map<FieldName, string>)

  /** The fields of a list, read one after another; the first one that the spec lacks ends the reading. */
  function FieldsFrom(spec: Spec, hex: string, pos: Number, list: seq<nat>): map<FieldName, string>
    decreases |list|
  {
    if list == [] || spec(list[0]).None? then map[]
    else
      var p := ParseField(hex, pos, spec(list[0]).value);
      map[spec(list[0]).value.name := p.value] + FieldsFrom(spec, hex, p.next, list[1..])
  }

  function DecodeHex(spec: Spec, hex: string): Decoded {
    Decoded(HexToString(Slice(hex, 0, 8)), FieldsFrom(spec, hex, Int(24), Listing(Marked(Slice(hex, 8, 24)), 65)))
  }

  // ----- what decoding should give -----

  function Named(spec: Spec, fields: map<nat, string>, list: seq<nat>): map<FieldName, string>
    requires AllPresent(spec, fields, list)
  {
    if list == [] then map[]
    else
      var f := spec(list[0]).value;
      map[f.name := Normal(fields[list[0]], f)] + Named(spec, fields, list[1..])
  }

  /** The message as it should come back: every present field under its name, in its normal form. */
  function Expected(spec: Spec, m: Message): Decoded {
    Decoded(MtiOf(m), Named(spec, m.fields, Order(spec, m.fields)))
  }

  function NamesOf(spec: Spec, list: seq<nat>): set<FieldName> {
    set n | n in list && spec(n).Some? :: spec(n).value.name
  }

  lemma {:induction false} NamedKeys(spec: Spec, fields: map<nat, string>, list: seq<nat>)
    requires AllPresent(spec, fields, list)
    ensures Named(spec, fields, list).Keys == NamesOf(spec, list)
  {
    hide Normal;
    if list == [] {
    } else {
      NamedKeys(spec, fields, list[1..]);
      assert list == [list[0]] + list[1..];
    }
  }

  lemma {:induction false} FieldsFromKeys(spec: Spec, hex: string, pos: Number, list: seq<nat>)
    ensures FieldsFrom(spec, hex, pos, list).Keys <= NamesOf(spec, list)
    decreases |list|
  {
    hide ParseField;
    if list != [] && spec(list[0]).Some? {
      FieldsFromKeys(spec, hex, ParseField(hex, pos, spec(list[0]).value).next, list[1..]);
      assert list == [list[0]] + list[1..];
    }
  }

  predicate Ascending(list: seq<nat>) {
    forall i, j :: 0 <= i < j < |list| ==> list[i] < list[j]
  }

  /** Under distinct names, the name of the first field of an ascending list is not a name of the others. */
  lemma FirstNameNew(spec: Spec, list: seq<nat>)
    requires SpecOk(spec) && list != [] && Ascending(list) && spec(list[0]).Some?
    ensures spec(list[0]).value.name !in NamesOf(spec, list[1..])
  {
  }

  /** The map says for every present field what it should, and nothing else. */
  lemma {:induction false} NamedSays(spec: Spec, fields: map<nat, string>, list: seq<nat>, n: nat)
    requires SpecOk(spec) && AllPresent(spec, fields, list) && Ascending(list) && n in list
    ensures var named, f := Named(spec, fields, list), spec(n).value;
            f.name in named && named[f.name] == Normal(fields[n], f)
  {
    hide Normal;
    FirstNameNew(spec, list);
    NamedKeys(spec, fields, list[1..]);
    if n != list[0] {
      assert list == [list[0]] + list[1..];
      NamedSays(spec, fields, list[1..], n);
    }
  }

  // ----- the fields of a message are read back -----

  predicate FieldsOk(spec: Spec, fields: map<nat, string>, list: seq<nat>)
    requires AllPresent(spec, fields, list)
  {
    forall k :: 0 <= k < |list| ==> FieldOk(fields[list[k]], spec(list[k]).value, k == |list| - 1)
  }

  lemma FieldsOkStep(spec: Spec, fields: map<nat, string>, list: seq<nat>)
    requires AllPresent(spec, fields, list) && list != []
    ensures FieldsOk(spec, fields, list) <==>
            FieldOk(fields[list[0]], spec(list[0]).value, |list| == 1) && FieldsOk(spec, fields, list[1..])
  {
    hide FieldOk;
    if FieldsOk(spec, fields, list) {
      forall k | 0 <= k < |list| - 1
        ensures FieldOk(fields[list[1..][k]], spec(list[1..][k]).value, k == |list| - 2)
      {
        assert FieldOk(fields[list[k + 1]], spec(list[k + 1]).value, k + 1 == |list| - 1);
      }
    }
    if FieldOk(fields[list[0]], spec(list[0]).value, |list| == 1) && FieldsOk(spec, fields, list[1..]) {
      forall k | 0 <= k < |list|
        ensures FieldOk(fields[list[k]], spec(list[k]).value, k == |list| - 1)
      {
        if k > 0 {
          assert FieldOk(fields[list[1..][k - 1]], spec(list[1..][k - 1]).value, k - 1 == |list| - 2);
        }
      }
    }
  }

  lemma BodyNotEmpty(spec: Spec, fields: map<nat, string>, list: seq<nat>)
    requires SpecOk(spec) && AllPresent(spec, fields, list)
    ensures Body(spec, fields, list) == "" <==> list == []
  {
    hide Normal, StringToHex, LengthPrefix;
    if list != [] {
      var v, f := fields[list[0]], spec(list[0]).value;
      NormalLength(v, f);
      HexLength(Normal(v, f));
    }
  }

  /** One entry put in front of maps that do not have it. */
  lemma FrontEntry(name: FieldName, v: string, w: string, a: map<FieldName, string>, b: map<FieldName, string>)
    requires name !in a && name !in b
    ensures map[name := v] + a == map[name := w] + b <==> v == w && a == b
  {
    var l, r := map[name := v] + a, map[name := w] + b;
    assert l[name] == v && r[name] == w;
    if l == r {
      assert a.Keys == l.Keys - {name} && b.Keys == r.Keys - {name};
      forall k | k in a
        ensures k in b && a[k] == b[k]
      {
        assert l[k] == a[k] && r[k] == b[k];
      }
    }
  }

  /** A list of fields is read back as it should be exactly when every field in it is good. */
  lemma {:induction false} FieldsBackIff(spec: Spec, fields: map<nat, string>, hex: string, pos: nat, list: seq<nat>)
    requires SpecOk(spec) && AllPresent(spec, fields, list) && Ascending(list)
    requires pos <= |hex| && hex[pos..] == Body(spec, fields, list)
    ensures FieldsFrom(spec, hex, Int(pos), list) == Named(spec, fields, list) <==> FieldsOk(spec, fields, list)
    decreases |list|
  {
    hide ParseField, FormatField, Normal, FieldOk, NamesOf;
    if list == [] {
    } else {
      var n, rest := list[0], list[1..];
      var v, f := fields[n], spec(n).value;
      var behind := Body(spec, fields, rest);
      BodyNotEmpty(spec, fields, rest);
      FieldBackIff(hex, pos, v, f, behind);
      FieldsOkStep(spec, fields, list);
      FirstNameNew(spec, list);
      NamedKeys(spec, fields, rest);
      var p := ParseField(hex, Int(pos), f);
      FieldsFromKeys(spec, hex, p.next, rest);
      FrontEntry(f.name, p.value, Normal(v, f), FieldsFrom(spec, hex, p.next, rest), Named(spec, fields, rest));
      if rest != [] && FieldOk(v, f, false) {
        var next := pos + |FormatField(v, f)|;
        assert hex[next..] == hex[pos..][|FormatField(v, f)|..] == behind;
        FieldsBackIff(spec, fields, hex, next, rest);
      }
    }
  }

  // ----- whole messages -----

  predicate MtiOk(mti: string) {
    |mti| == 4 && OneByte(mti)
  }

  /** What a message must be to be read back. */
  predicate Readable(spec: Spec, m: Message) {
    && MtiOk(MtiOf(m))
    && (forall n :: n in Present(spec, m.fields) ==> 2 <= n <= 64)
    && FieldsOk(spec, m.fields, Order(spec, m.fields))
  }

  lemma Parts(a: string, b: string, c: string)
    ensures var s := a + b + c;
            s[..|a|] == a && s[|a|..|a| + |b|] == b && s[|a| + |b|..] == c
  {
  }

  lemma HeadBack(mti: string, bits: string, body: string)
    requires |bits| == 16
    ensures var h := StringToHex(mti) + bits + body;
            && (HexToString(Slice(h, 0, 8)) == mti <==> MtiOk(mti))
            && (MtiOk(mti) ==> |h| >= 24 && Slice(h, 8, 24) == bits && h[24..] == body)
  {
    hide StringToHex, HexToString;
    var h := StringToHex(mti) + bits + body;
    HexLength(mti);
    Parts(StringToHex(mti), bits, body);
    if MtiOk(mti) {
      TextBack(mti);
      assert Slice(h, 0, 8) == h[..8];
    }
    if HexToString(Slice(h, 0, 8)) == mti {
      assert h == StringToHex(mti) + (bits + body);
      ReadIsOneByte(mti, bits + body, Slice(h, 0, 8));
    }
  }

  lemma OrderAscends(spec: Spec, fields: map<nat, string>)
    requires SpecOk(spec)
    ensures Ascending(Order(spec, fields)) && forall n :: n in Order(spec, fields) <==> n in Present(spec, fields)
  {
    ListingAscends(Present(spec, fields), LIMIT);
    ListingMembers(Present(spec, fields), LIMIT);
  }

  /** The fields announced by the bitmap of a message: those of it between 2 and 64. */
  lemma Announced(spec: Spec, fields: map<nat, string>)
    requires SpecOk(spec)
    ensures var present := Present(spec, fields);
            var list := Listing(Marked(BitmapHex(present)), 65);
            && (forall n :: n in list ==> n in present && 2 <= n <= 64)
            && ((forall n :: n in present ==> 2 <= n <= 64) ==> list == Order(spec, fields))
  {
    hide Marked, BitmapHex;
    var present := Present(spec, fields);
    var primary := set n | n in present && 2 <= n <= 64;
    ReadBuilt(present);
    ListingMembers(primary, 65);
    if forall n :: n in present ==> 2 <= n <= 64 {
      assert primary == present;
      ListingBeyond(present, 65, LIMIT);
    }
  }

  /** A field outside 2..64 is written but never read. */
  lemma OutsideLost(spec: Spec, fields: map<nat, string>, hex: string, n: nat)
    requires SpecOk(spec) && n in Present(spec, fields) && !(2 <= n <= 64)
    ensures var list := Listing(Marked(BitmapHex(Present(spec, fields))), 65);
            FieldsFrom(spec, hex, Int(24), list) != Named(spec, fields, Order(spec, fields))
  {
    hide Marked, BitmapHex, FieldsFrom, Named, Listing;
    var list := Listing(Marked(BitmapHex(Present(spec, fields))), 65);
    Announced(spec, fields);
    OrderAscends(spec, fields);
    NamedSays(spec, fields, Order(spec, fields), n);
    FieldsFromKeys(spec, hex, Int(24), list);
  }

  lemma SixteenDigits(s: set<nat>)
    ensures |BitmapHex(s)| == 16
  {
  }

  /**
   Decoding an encoded message gives every present field in its normal form exactly when the message type is
   four one-byte characters, all present fields are numbered 2 to 64, and each of them is good.
   */
  lemma RoundTripIff(spec: Spec, m: Message)
    requires SpecOk(spec)
    ensures DecodeHex(spec, EncodeHex(spec, m)) == Expected(spec, m) <==> Readable(spec, m)
  {
    hide StringToHex, HexToString, Slice, BitmapHex, Marked, Listing, FieldsFrom, Named, Body, FieldsOk, Order;
    var present, list := Present(spec, m.fields), Order(spec, m.fields);
    var bits, body := BitmapHex(present), Body(spec, m.fields, list);
    var hex := EncodeHex(spec, m);
    SixteenDigits(present);
    HeadBack(MtiOf(m), bits, body);
    if MtiOk(MtiOf(m)) {
      OrderAscends(spec, m.fields);
      Announced(spec, m.fields);
      if n :| n in present && !(2 <= n <= 64) {
        OutsideLost(spec, m.fields, hex, n);
      } else {
        FieldsBackIff(spec, m.fields, hex, 24, list);
      }
    }
  }

  // ----- encoding again what was decoded -----

  /** A decoded message by number again. */
  function ByNumber(spec: Spec, named: map<FieldName, string>): map<nat, string> {
    map n: nat | n < LIMIT && spec(n).Some? && spec(n).value.name in named :: named[spec(n).value.name]
  }

  lemma SameBody(spec: Spec, a: map<nat, string>, b: map<nat, string>, list: seq<nat>)
    requires AllPresent(spec, a, list) && AllPresent(spec, b, list)
    requires forall n :: n in list ==> b[n] == Normal(a[n], spec(n).value)
    ensures Body(spec, a, list) == Body(spec, b, list)
  {
    hide Normal, StringToHex, LengthPrefix;
    if list != [] {
      NormalTwice(a[list[0]], spec(list[0]).value);
      SameBody(spec, a, b, list[1..]);
    }
  }

  lemma ByNumberSays(spec: Spec, fields: map<nat, string>)
    requires SpecOk(spec)
    ensures var back := ByNumber(spec, Named(spec, fields, Order(spec, fields)));
            && back.Keys == Present(spec, fields)
            && Present(spec, back) == Present(spec, fields)
            && forall n :: n in back ==> back[n] == Normal(fields[n], spec(n).value)
  {
    hide Normal, Named, Order;
    var order := Order(spec, fields);
    var named := Named(spec, fields, order);
    var back := ByNumber(spec, named);
    OrderAscends(spec, fields);
    NamedKeys(spec, fields, order);
    forall n: nat
      ensures n in back <==> n in Present(spec, fields)
      ensures n in back ==> back[n] == Normal(fields[n], spec(n).value) && back[n] != ""
    {
      if n in order {
        NamedSays(spec, fields, order, n);
        NormalLength(fields[n], spec(n).value);
      }
    }
  }

  /** Whatever the message, encoding what should come back gives the same text. */
  lemma EncodeExpected(spec: Spec, m: Message)
    requires SpecOk(spec)
    ensures var d := Expected(spec, m); EncodeHex(spec, Message(d.mti, ByNumber(spec, d.fields))) == EncodeHex(spec, m)
  {
    hide Named, Body, StringToHex, BitmapHex, ByNumber;
    var back := ByNumber(spec, Expected(spec, m).fields);
    ByNumberSays(spec, m.fields);
    OrderAscends(spec, m.fields);
    assert Order(spec, back) == Order(spec, m.fields);
    SameBody(spec, m.fields, back, Order(spec, m.fields));
  }

  /** A readable message goes out, comes back, and goes out again as the same text. */
  lemma ReencodeSame(spec: Spec, m: Message)
    requires SpecOk(spec) && Readable(spec, m)
    ensures var d := DecodeHex(spec, EncodeHex(spec, m));
            EncodeHex(spec, Message(d.mti, ByNumber(spec, d.fields))) == EncodeHex(spec, m)
  {
    RoundTripIff(spec, m);
    EncodeExpected(spec, m);
  }

  // ----- a second bitmap -----

  lemma {:induction false} ListingFrom(s: set<nat>, bound: nat)
    requires 0 !in s && 1 in s && bound >= 2
    ensures Listing(s, bound) != [] && Listing(s, bound)[0] == 1
  {
    if bound == 2 {
      assert Listing(s, 1) == Listing(s, 0) == [];
    } else {
      ListingFrom(s, bound - 1);
    }
  }

  /** A message that announces a second bitmap is decoded to its type alone. */
  lemma SecondBitmapStops(spec: Spec, hex: string)
    requires spec(1).None? && 1 in Marked(Slice(hex, 8, 24))
    ensures DecodeHex(spec, hex) == Decoded(HexToString(Slice(hex, 0, 8)), map[])
  {
    hide HexToString, Slice;
    ListingFrom(Marked(Slice(hex, 8, 24)), 65);
  }

  // ----- the engine's loops -----

  datatype Reply<T> = NotReady | Reply(value: T)

  /** What `extractBitmap` reports; the second bitmap is empty unless the first announces one. */
  datatype BitmapView = BitmapView(mti: string, primary: string, secondary: string, presentFields: seq<nat>)

  /** The entries of a message object in order. */
  type Entries = seq<(string, string)>

  function MtiEntry(entries: Entries): string {
    if entries == [] then ""
    else
      var (key, value) := entries[|entries| - 1];
      if key == "MTI" then value else MtiEntry(entries[..|entries| - 1])
  }

  /** The field number that a key names, if it can be one. */
  function NumberOf(key: string): Option<nat> {
    var n := ParseInt(key);
    if n.Int? && n.v >= 0 then Some(n.v) else None
  }

  predicate Skipped(spec: Spec, key: string, value: string) {
    key == "MTI" || value == "" || NumberOf(key).None? || spec(NumberOf(key).value).None?
  }

  /** The fields that the entries name; a later spelling of the same number wins. */
  function FieldEntries(spec: Spec, entries: Entries): (fields: map<nat, string>)
    ensures forall n :: n in fields ==> fields[n] != "" && spec(n).Some?
  {
    if entries == [] then map[]
    else
      var fields := FieldEntries(spec, entries[..|entries| - 1]);
      var (key, value) := entries[|entries| - 1];
      if Skipped(spec, key, value) then fields else fields[NumberOf(key).value := value]
  }

  function MessageOf(spec: Spec, entries: Entries): Message {
    Message(MtiEntry(entries), FieldEntries(spec, entries))
  }

  /** An entry that gives the n-th field a value. */
  predicate Names(spec: Spec, entry: (string, string), n: nat) {
    entry.0 != "MTI" && entry.1 != "" && ParseInt(entry.0) == Int(n) && spec(n).Some?
  }

  lemma LastEntry(spec: Spec, entries: Entries, n: nat)
    requires entries != []
    ensures var fields, front, last := FieldEntries(spec, entries), FieldEntries(spec, entries[..|entries| - 1]), entries[|entries| - 1];
            && (n in fields <==> n in front || Names(spec, last, n))
            && (n in fields ==> fields[n] == if Names(spec, last, n) then last.1 else front[n])
  {
    hide ParseInt;
  }

  /** A field has the value of the last entry that names it. */
  lemma {:induction false} EntryValue(spec: Spec, entries: Entries, n: nat, i: nat)
    requires i < |entries| && Names(spec, entries[i], n)
    requires forall j :: i < j < |entries| ==> !Names(spec, entries[j], n)
    ensures n in FieldEntries(spec, entries) && FieldEntries(spec, entries)[n] == entries[i].1
  {
    hide Names, FieldEntries;
    LastEntry(spec, entries, n);
    if i < |entries| - 1 {
      EntryValue(spec, entries[..|entries| - 1], n, i);
    }
  }

  /** The fields of an object are those that an entry names. */
  lemma {:induction false} EntriesMean(spec: Spec, entries: Entries, n: nat)
    ensures n in FieldEntries(spec, entries) <==> exists i :: 0 <= i < |entries| && Names(spec, entries[i], n)
  {
    if entries == [] {
    } else {
      hide Names, FieldEntries;
      var last := |entries| - 1;
      LastEntry(spec, entries, n);
      EntriesMean(spec, entries[..last], n);
      if i :| 0 <= i < last && Names(spec, entries[i], n) {
        assert Names(spec, entries[..last][i], n);
      }
    }
  }

  /** The type is the value of the entry of that name; an object without one, or with an empty one, has the type 0100. */
  lemma {:induction false} TypeMeans(spec: Spec, entries: Entries, i: nat)
    requires i <= |entries| && (i < |entries| ==> entries[i].0 == "MTI")
    requires forall j :: i < j < |entries| ==> entries[j].0 != "MTI"
    requires i == |entries| ==> forall j :: 0 <= j < |entries| ==> entries[j].0 != "MTI"
    ensures MtiOf(MessageOf(spec, entries)) ==
            if i == |entries| || entries[i].1 == "" then "0100" else entries[i].1
  {
    hide FieldEntries;
    if entries == [] {
    } else if i == |entries| {
      TypeMeans(spec, entries[..|entries| - 1], |entries| - 1);
    } else if i < |entries| - 1 {
      TypeMeans(spec, entries[..|entries| - 1], i);
    }
  }

  /** The first loop of `encode`: every entry with a value and a place in the spec is formatted. */
  method FormatFields(spec: Spec, entries: Entries) returns (fields: map<nat, string>)
    ensures var named := FieldEntries(spec, entries);
            && fields.Keys == Present(spec, named) == named.Keys
            && forall n :: n in fields ==> fields[n] == FormatField(named[n], spec(n).value)
  {
    hide FormatField;
    fields := map[];
    var i := 0;
    while i < |entries|
      invariant i <= |entries|
      invariant var named := FieldEntries(spec, entries[..i]);
                fields.Keys == named.Keys && forall n :: n in fields ==> fields[n] == FormatField(named[n], spec(n).value)
    {
      var (key, value) := entries[i];
      assert entries[..i + 1][..i] == entries[..i];
      if !Skipped(spec, key, value) {
        var fieldNum := NumberOf(key).value;
        fields := fields[fieldNum := FormatField(value, spec(fieldNum).value)];
      }
      i := i + 1;
    }
    assert entries[..i] == entries;
  }

  /** The second loop of `encode`: the formatted fields in the order of their numbers. */
  method JoinFields(spec: Spec, ghost entries: map<nat, string>, fields: map<nat, string>, sortedFields: seq<nat>)
    returns (hex: string)
    requires AllPresent(spec, entries, sortedFields)
    requires forall n :: n in sortedFields ==> n in fields && fields[n] == FormatField(entries[n], spec(n).value)
    ensures hex == Body(spec, entries, sortedFields)
  {
    hide FormatField;
    hex := "";
    var i := 0;
    assert sortedFields[0..] == sortedFields;
    assert "" + Body(spec, entries, sortedFields) == Body(spec, entries, sortedFields);
    while i < |sortedFields|
      invariant i <= |sortedFields|
      invariant hex + Body(spec, entries, sortedFields[i..]) == Body(spec, entries, sortedFields)
    {
      assert sortedFields[i..][1..] == sortedFields[i + 1..];
      var field := fields[sortedFields[i]];
      ghost var behind := Body(spec, entries, sortedFields[i + 1..]);
      assert hex + (field + behind) == (hex + field) + behind;
      hex := hex + field;
      i := i + 1;
    }
    assert hex + "" == hex;
  }

  lemma FrontMore(fields: map<FieldName, string>, name: FieldName, v: string, rest: map<FieldName, string>)
    ensures fields + (map[name := v] + rest) == fields[name := v] + rest
  {
  }

  class Engine {
    var spec: Spec
    var ready: bool

    constructor ()
      ensures !ready
    {
      spec := _ => None;
      ready := false;
    }

    /** The specification has arrived. */
    method Init(loaded: Spec)
      modifies this
      ensures ready && spec == loaded
    {
      spec := loaded;
      ready := true;
    }

    method Encode(entries: Entries) returns (r: Reply<string>)
      requires ready ==> SpecOk(spec)
      ensures r == if ready then Reply(EncodeHex(spec, MessageOf(spec, entries))) else NotReady
    {
      hide StringToHex, BitmapHex, FormatField, Listing, Body, FieldEntries;
      if !ready {
        return NotReady;
      }
      var fields := FormatFields(spec, entries);
      var mti := MtiEntry(entries);
      var mtiHex := StringToHexLoop(if mti == "" then "0100" else mti);
      var bitmapHex := BuildBitmap(fields.Keys);
      var sortedFields := Listing(fields.Keys, LIMIT);
      ghost var named := FieldEntries(spec, entries);
      assert sortedFields == Order(spec, named);
      var data := JoinFields(spec, named, fields, sortedFields);
      return Reply(mtiHex + bitmapHex + data);
    }

    method Decode(hexString: string) returns (r: Reply<Decoded>)
      ensures r == if ready then Reply(DecodeHex(spec, hexString)) else NotReady
    {
      hide HexToString, ParseField, Listing, Marked, Slice;
      if !ready {
        return NotReady;
      }
      var mti := HexToStringLoop(Slice(hexString, 0, 8));
      var presentFields := ParseBitmap(Slice(hexString, 8, 24));
      var fields: map<FieldName, string> := map[];
      var pos, i := Int(24), 0;
      assert presentFields[0..] == presentFields;
      ghost var all := FieldsFrom(spec, hexString, Int(24), presentFields);
      assert map[] + all == all;
      while i < |presentFields|
        invariant i <= |presentFields|
        invariant all == fields + FieldsFrom(spec, hexString, pos, presentFields[i..])
      {
        var fieldSpec := spec(presentFields[i]);
        if fieldSpec.None? {
          break;
        }
        var result := ParseField(hexString, pos, fieldSpec.value);
        assert presentFields[i..][1..] == presentFields[i + 1..];
        FrontMore(fields, fieldSpec.value.name, result.value,
                  FieldsFrom(spec, hexString, result.next, presentFields[i + 1..]));
        fields := fields[fieldSpec.value.name := result.value];
        pos := result.next;
        i := i + 1;
      }
      assert fields + map[] == fields;
      return Reply(Decoded(mti, fields));
    }

    /** The engine lists no field above 64, also where it takes a second bitmap along. */
    method ExtractBitmap(hexString: string) returns (r: Reply<BitmapView>)
      ensures r == if !ready then NotReady
                   else
                     var primary := Slice(hexString, 8, 24);
                     Reply(BitmapView(HexToString(Slice(hexString, 0, 8)), primary,
                                      if Marks(primary, 1) then Slice(hexString, 24, 40) else "",
                                      Listing(Marked(primary), 65)))
    {
      hide HexToString, Listing, Marked;
      if !ready {
        return NotReady;
      }
      var mti := HexToStringLoop(Slice(hexString, 0, 8));
      var primary := Slice(hexString, 8, 24);
      var firstNibble := if primary == "" then None else DigitValue(primary[0]);
      var secondary, total := "", primary;
      if firstNibble.Some? && firstNibble.value / 8 % 2 != 0 {
        secondary := Slice(hexString, 24, 40);
        total := primary + secondary;
      }
      var presentFields := ParseBitmap(total);
      if |primary| == 16 {
        SecondBitmapUnlisted(primary, secondary);
      }
      assert primary + "" == primary;
      return Reply(BitmapView(mti, primary, secondary, presentFields));
    }
  }

  // ----- what the normal form and the expected message say -----

  /** A value of a variable field is kept; a fixed one is cut on the right or filled up on the side of its padding. */
  lemma NormalMeans(value: string, f: FieldSpec)
    ensures var v := Normal(value, f);
            if !f.format.Fixed? then v == value
            else if |value| >= f.length then v == value[..f.length]
            else match f.padding
              case NoPadding => v == value
              case Left => |v| == f.length && v[f.length - |value|..] == value
                           && forall i :: 0 <= i < f.length - |value| ==> v[i] == f.padChar.GetOr('0')
              case Right => |v| == f.length && v[..|value|] == value
                            && forall i :: |value| <= i < f.length ==> v[i] == f.padChar.GetOr(' ')
  {
  }

  lemma ExpectedExactly(spec: Spec, m: Message)
    requires SpecOk(spec)
    ensures forall name :: name in Expected(spec, m).fields <==>
                           exists n :: n in Present(spec, m.fields) && spec(n).value.name == name
    ensures forall n :: n in Present(spec, m.fields) ==>
                          var f := spec(n).value;
                          f.name in Expected(spec, m).fields
                          && Expected(spec, m).fields[f.name] == Normal(m.fields[n], f)
  {
    hide Normal, Named, Order;
    var order := Order(spec, m.fields);
    OrderAscends(spec, m.fields);
    NamedKeys(spec, m.fields, order);
    forall n | n in Present(spec, m.fields)
      ensures var f := spec(n).value;
              f.name in Expected(spec, m).fields && Expected(spec, m).fields[f.name] == Normal(m.fields[n], f)
    {
      NamedSays(spec, m.fields, order, n);
    }
  }
}
