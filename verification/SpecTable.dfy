/** The field table that both the web client and the servers load, and what follows from it. */
module SpecTable {
  import opened Base
  import opened Bitmap
  import opened IsoEngine
  import Framing
  import Rules

  function SpecJson(n: nat): Option<FieldSpec> {
    match n
    case 0 => Some(FieldSpec(MTI, 4, Fixed))
    case 2 => Some(FieldSpec(PAN, 19, Llvar))
    case 3 => Some(FieldSpec(ProcCode, 6, Fixed))
    case 4 => Some(FieldSpec(AmountTrn, 12, Fixed, Left, Some('0')))
    case 5 => Some(FieldSpec(AmountSet, 12, Fixed, Left, Some('0')))
    case 6 => Some(FieldSpec(AmountBil, 12, Fixed, Left, Some('0')))
    case 7 => Some(FieldSpec(TransDateTime, 10, Fixed))
    case 9 => Some(FieldSpec(ConvRateSet, 8, Fixed))
    case 10 => Some(FieldSpec(ConvRateBil, 8, Fixed))
    case 11 => Some(FieldSpec(STAN, 6, Fixed, Left, Some('0')))
    case 12 => Some(FieldSpec(LocalTime, 6, Fixed))
    case 13 => Some(FieldSpec(LocalDate, 4, Fixed))
    case 14 => Some(FieldSpec(ExpDate, 4, Fixed))
    case 15 => Some(FieldSpec(DateSet, 4, Fixed))
    case 16 => Some(FieldSpec(DateConv, 4, Fixed))
    case 18 => Some(FieldSpec(MerchantType, 4, Fixed))
    case 22 => Some(FieldSpec(POSEntryMode, 3, Fixed))
    case 25 => Some(FieldSpec(POSCondCode, 2, Fixed))
    case 26 => Some(FieldSpec(POSPinCode, 2, Fixed))
    case 32 => Some(FieldSpec(AcqInstID, 11, Llvar))
    case 35 => Some(FieldSpec(Track2Data, 37, Llvar))
    case 37 => Some(FieldSpec(RRN, 12, Fixed))
    case 38 => Some(FieldSpec(AuthRespID, 6, Fixed))
    case 39 => Some(FieldSpec(RespCode, 2, Fixed))
    case 41 => Some(FieldSpec(TerminalID, 8, Fixed))
    case 42 => Some(FieldSpec(MerchantID, 15, Fixed))
    case 43 => Some(FieldSpec(MerchantLoc, 40, Fixed))
    case 47 => Some(FieldSpec(AddDataNat, 999, Lllvar))
    case 48 => Some(FieldSpec(AddDataPriv, 999, Lllvar))
    case 49 => Some(FieldSpec(CurCodeTrn, 3, Fixed))
    case 51 => Some(FieldSpec(CurCodeBil, 3, Fixed))
    case 52 => Some(FieldSpec(PinData, 16, Fixed))
    case 53 => Some(FieldSpec(SecurityData, 16, Fixed))
    case 54 => Some(FieldSpec(AddAmounts, 120, Lllvar))
    case 55 => Some(FieldSpec(ICCData, 999, Lllvar))
    case 61 => Some(FieldSpec(Priv2, 999, Lllvar))
    case 63 => Some(FieldSpec(ReservedPriv, 999, Lllvar))
    case 70 => Some(FieldSpec(NwManagementInf, 3, Fixed))
    case 125 => Some(FieldSpec(ReservedPriv125, 999, Lllvar))
    case _ => None
  }

  function NumberOf(name: FieldName): nat {
    match name
    case MTI => 0
    case PAN => 2
    case ProcCode => 3
    case AmountTrn => 4
    case AmountSet => 5
    case AmountBil => 6
    case TransDateTime => 7
    case ConvRateSet => 9
    case ConvRateBil => 10
    case STAN => 11
    case LocalTime => 12
    case LocalDate => 13
    case ExpDate => 14
    case DateSet => 15
    case DateConv => 16
    case MerchantType => 18
    case POSEntryMode => 22
    case POSCondCode => 25
    case POSPinCode => 26
    case AcqInstID => 32
    case Track2Data => 35
    case RRN => 37
    case AuthRespID => 38
    case RespCode => 39
    case TerminalID => 41
    case MerchantID => 42
    case MerchantLoc => 43
    case AddDataNat => 47
    case AddDataPriv => 48
    case CurCodeTrn => 49
    case CurCodeBil => 51
    case PinData => 52
    case SecurityData => 53
    case AddAmounts => 54
    case ICCData => 55
    case Priv2 => 61
    case ReservedPriv => 63
    case NwManagementInf => 70
    case ReservedPriv125 => 125
  }

  predicate RowOk(n: nat) {
    SpecJson(n).Some? ==>
      n < LIMIT && n != 1 && SpecJson(n).value.length > 0 && NumberOf(SpecJson(n).value.name) == n
  }

  lemma RowsUpTo11(n: nat)
    requires n <= 11
    ensures RowOk(n)
  {
  }

  lemma RowsUpTo32(n: nat)
    requires 11 < n <= 32
    ensures RowOk(n)
  {
  }

  lemma RowsUpTo48(n: nat)
    requires 32 < n <= 48
    ensures RowOk(n)
  {
  }

  lemma RowsFrom49(n: nat)
    requires 48 < n
    ensures RowOk(n)
  {
  }

  lemma OwnNumber(n: nat)
    ensures RowOk(n)
  {
    hide RowOk;
    if n <= 11 {
      RowsUpTo11(n);
    } else if n <= 32 {
      RowsUpTo32(n);
    } else if n <= 48 {
      RowsUpTo48(n);
    } else {
      RowsFrom49(n);
    }
  }

  /** The table meets what the engine relies on. */
  lemma SpecJsonOk()
    ensures SpecOk(SpecJson)
  {
    hide SpecJson, NumberOf;
    forall n: nat
      ensures SpecJson(n).Some? ==> n < LIMIT && n != 1 && SpecJson(n).value.length > 0
    {
      OwnNumber(n);
    }
    forall a: nat, b: nat | SpecJson(a).Some? && SpecJson(b).Some? && SpecJson(a).value.name == SpecJson(b).value.name
      ensures a == b
    {
      OwnNumber(a);
      OwnNumber(b);
    }
  }

  predicate HasField(n: nat, format: Format, length: nat) {
    SpecJson(n).Some? && SpecJson(n).value.format == format && SpecJson(n).value.length == length
  }

  /** The table the other way round: which elements have a length and a format, and which are filled up with zeros. */
  lemma TableByLength(n: nat)
    ensures HasField(n, Fixed, 2) <==> n in {25, 26, 39}
    ensures HasField(n, Fixed, 3) <==> n in {22, 49, 51, 70}
    ensures HasField(n, Fixed, 4) <==> n in {0, 13, 14, 15, 16, 18}
    ensures HasField(n, Fixed, 6) <==> n in {3, 11, 12, 38}
    ensures HasField(n, Fixed, 8) <==> n in {9, 10, 41}
    ensures HasField(n, Fixed, 10) <==> n == 7
    ensures HasField(n, Fixed, 12) <==> n in {4, 5, 6, 37}
    ensures HasField(n, Fixed, 15) <==> n == 42
    ensures HasField(n, Fixed, 16) <==> n in {52, 53}
    ensures HasField(n, Fixed, 40) <==> n == 43
    ensures HasField(n, Llvar, 11) <==> n == 32
    ensures HasField(n, Llvar, 19) <==> n == 2
    ensures HasField(n, Llvar, 37) <==> n == 35
    ensures HasField(n, Lllvar, 120) <==> n == 54
    ensures HasField(n, Lllvar, 999) <==> n in {47, 48, 55, 61, 63, 125}
    ensures SpecJson(n).Some? ==>
              var f := SpecJson(n).value;
              if n in {4, 5, 6, 11} then f.padding.Left? && f.padChar == Some('0') else f.padding.NoPadding? && f.padChar.None?
  {
  }

  /** With this table the round trip is exact: it works for the readable messages and no others. */
  lemma TableRoundTrip(m: Message)
    ensures DecodeHex(SpecJson, EncodeHex(SpecJson, m)) == Expected(SpecJson, m) <==> Readable(SpecJson, m)
  {
    hide SpecJson;
    SpecJsonOk();
    RoundTripIff(SpecJson, m);
  }

  lemma NothingMarked(s: set<nat>)
    requires forall n :: n in s ==> n > 64
    ensures BitmapHex(s) == BitmapHex({})
  {
    hide Digit;
    assert forall i :: 0 <= i < 16 ==> Nibble(s, i) == Nibble({}, i);
  }

  lemma {:induction false} ListingOne(n: nat, bound: nat)
    ensures Listing({n}, bound) == if n < bound then [n] else []
  {
    if bound == 0 {
    } else {
      ListingOne(n, bound - 1);
    }
  }

  lemma OneField(n: nat, value: string)
    requires SpecJson(n).Some? && value != ""
    ensures var fields, f := map[n := value], SpecJson(n).value;
            && Present(SpecJson, fields) == {n}
            && Order(SpecJson, fields) == [n]
            && Body(SpecJson, fields, [n]) == FormatField(value, f)
  {
    hide SpecJson, FormatField;
    var fields := map[n := value];
    assert n in Present(SpecJson, fields);
    SpecJsonOk();
    ListingOne(n, LIMIT);
    assert Body(SpecJson, fields, [n][1..]) == "";
  }

  lemma NetworkManagementText()
    ensures SpecJson(70).Some? && FormatField("301", SpecJson(70).value) == StringToHex("301")
  {
    hide StringToHex;
    var f := SpecJson(70).value;
    NoPrefix(3, f);
    assert Normal("301", f) == "301";
    assert "" + StringToHex("301") == StringToHex("301");
  }

  /** Data element 70 is in the table; a message that carries it has its data but no bit for it, and loses it. */
  lemma NetworkManagementLost()
    ensures var m := Message("0800", map[70 := "301"]);
            && EncodeHex(SpecJson, m) == StringToHex("0800") + BitmapHex({}) + StringToHex("301")
            && DecodeHex(SpecJson, EncodeHex(SpecJson, m)) != Expected(SpecJson, m)
  {
    hide SpecJson, StringToHex, FormatField, Order, Body, BitmapHex, DecodeHex, Expected, FieldsOk;
    var m := Message("0800", map[70 := "301"]);
    NetworkManagementText();
    OneField(70, "301");
    NothingMarked({70});
    TableRoundTrip(m);
    assert 70 in Present(SpecJson, m.fields);
  }

  // ----- the longest message -----

  predicate WithinLengths(fields: map<nat, string>) {
    forall n :: n in fields ==> n >= 2 && SpecJson(n).Some? && |fields[n]| <= SpecJson(n).value.length
  }

  /** Bytes of the fields below a number: each with its length prefix, if it has one. */
  function SizeBelow(fields: map<nat, string>, n: nat): nat {
    if n == 0 then 0
    else
      SizeBelow(fields, n - 1)
      + if n - 1 in fields && SpecJson(n - 1).Some? then Width(SpecJson(n - 1).value) + |fields[n - 1]| else 0
  }

  /** A packed message: type, first bitmap, second bitmap when a field above 64 is there, and the fields. */
  function PackedSize(fields: map<nat, string>): nat {
    4 + 8 + (if exists n :: n in fields && n > 64 then 8 else 0) + SizeBelow(fields, LIMIT)
  }

  function Past(n: nat, mark: nat, size: nat): nat {
    if n > mark then size else 0
  }

  /** A number that the fields below n do not exceed together. */
  function Ceiling(n: nat): nat {
    21 * Min(n, 32) + 43 * Min(n - Min(n, 32), 23)
    + Past(n, 47, 959) + Past(n, 48, 959) + Past(n, 54, 80)
    + Past(n, 55, 1002) + Past(n, 61, 1002) + Past(n, 63, 1002) + Past(n, 70, 3) + Past(n, 125, 1002)
  }

  lemma CeilingStep(n: nat)
    requires n < LIMIT
    ensures Ceiling(n) + (if n >= 2 && SpecJson(n).Some? then Width(SpecJson(n).value) + SpecJson(n).value.length else 0)
         <= Ceiling(n + 1)
  {
  }

  lemma CeilingFromZero()
    ensures Ceiling(0) == 0 && Ceiling(LIMIT) + 20 <= Framing.MAX_PACKET - Framing.HEADER_LENGTH
  {
  }

  lemma {:induction false} SizeBelowCeiling(fields: map<nat, string>, n: nat)
    requires WithinLengths(fields) && n <= LIMIT
    ensures SizeBelow(fields, n) <= Ceiling(n)
  {
    hide SpecJson, Ceiling;
    if n > 0 {
      SizeBelowCeiling(fields, n - 1);
      CeilingStep(n - 1);
    } else {
      CeilingFromZero();
    }
  }

  lemma {:induction false} BodyLonger(fields: map<nat, string>, list: seq<nat>, n: nat)
    requires AllPresent(SpecJson, fields, list + [n])
    ensures AllPresent(SpecJson, fields, list) && n in fields && SpecJson(n).Some?
    ensures Body(SpecJson, fields, list + [n]) == Body(SpecJson, fields, list) + FormatField(fields[n], SpecJson(n).value)
  {
    hide SpecJson, FormatField;
    assert n in list + [n];
    assert forall k :: k in list ==> k in list + [n];
    if list == [] {
      assert [] + [n] == [n] && [n][1..] == [];
      assert Body(SpecJson, fields, []) == "";
    } else {
      assert (list + [n])[1..] == list[1..] + [n] && (list + [n])[0] == list[0];
      BodyLonger(fields, list[1..], n);
    }
  }

  /** A value in its normal form is one byte a character, and a length prefix can say its length. */
  predicate Sendable(value: string, f: FieldSpec) {
    OneByte(Normal(value, f)) && (!f.format.Fixed? ==> |Normal(value, f)| < Rules.Pow10(Width(f)))
  }

  lemma FieldSize(value: string, f: FieldSpec)
    requires Sendable(value, f)
    ensures |FormatField(value, f)| == 2 * (Width(f) + |Normal(value, f)|)
  {
    hide Normal, StringToHex, LengthPrefix;
    var v := Normal(value, f);
    HexLength(v);
    if f.format.Fixed? {
      NoPrefix(|v|, f);
    } else {
      PrefixRead(|v|, f, "");
    }
  }

  /** The values of a message as they are sent. */
  function SentValues(fields: map<nat, string>): map<nat, string> {
    map n | n in Present(SpecJson, fields) :: Normal(fields[n], SpecJson(n).value)
  }

  lemma EmptyBody(fields: map<nat, string>)
    ensures Body(SpecJson, fields, []) == ""
  {
  }

  lemma {:induction false} BodySize(fields: map<nat, string>, n: nat)
    requires forall k :: k in Present(SpecJson, fields) ==> Sendable(fields[k], SpecJson(k).value)
    ensures AllPresent(SpecJson, fields, Listing(Present(SpecJson, fields), n))
    ensures |Body(SpecJson, fields, Listing(Present(SpecJson, fields), n))| == 2 * SizeBelow(SentValues(fields), n)
  {
    hide SpecJson, FormatField, Normal, Sendable, Body;
    var present := Present(SpecJson, fields);
    ListingMembers(present, n);
    if n == 0 {
      EmptyBody(fields);
    } else {
      BodySize(fields, n - 1);
      var front := Listing(present, n - 1);
      if n - 1 in present {
        assert Listing(present, n) == front + [n - 1];
        BodyLonger(fields, front, n - 1);
        FieldSize(fields[n - 1], SpecJson(n - 1).value);
      } else {
        assert Listing(present, n) == front + [] == front;
      }
    }
  }

  /**
   The packed message and the client's text of it agree: two digits a byte, except that the client never writes the
   second bitmap, which the packed message has when a field above 64 is there.
   */
  lemma EncodedSize(m: Message)
    requires MtiOk(MtiOf(m))
    requires forall n :: n in Present(SpecJson, m.fields) ==> Sendable(m.fields[n], SpecJson(n).value)
    ensures |EncodeHex(SpecJson, m)| == 2 * PackedSize(SentValues(m.fields))
                                        - if exists n :: n in Present(SpecJson, m.fields) && n > 64 then 16 else 0
  {
    hide SpecJson, StringToHex, Body, BitmapHex, SizeBelow, Sendable, Normal;
    HexLength(MtiOf(m));
    SixteenDigits(Present(SpecJson, m.fields));
    BodySize(m.fields, LIMIT);
    if n :| n in Present(SpecJson, m.fields) && n > 64 {
      assert n in SentValues(m.fields);
    }
  }

  /** Every message whose fields keep to the lengths of the table makes a packet that both readers accept. */
  lemma MessagesFit(fields: map<nat, string>, header: Bytes, iso: Bytes)
    requires WithinLengths(fields) && |header| == Framing.HEADER_LENGTH && |iso| == PackedSize(fields)
    ensures Framing.Fits(Framing.Frame(header, iso))
  {
    hide SpecJson, Ceiling;
    SizeBelowCeiling(fields, LIMIT);
    CeilingFromZero();
  }
}
