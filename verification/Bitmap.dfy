/** Field numbers and the hexadecimal bitmap that announces them, in the three forms the web client has. */
module Bitmap {
  import opened Base
  import opened JsText

  // ----- sets of field numbers in ascending order -----

  /** The members of a set below a bound, ascending. */
  function Listing(s: set<nat>, bound: nat): seq<nat> {
    if bound == 0 then [] else Listing(s, bound - 1) + if bound - 1 in s then [bound - 1] else []
  }

  lemma {:induction false} ListingMembers(s: set<nat>, bound: nat)
    ensures forall n: nat :: n in Listing(s, bound) <==> n in s && n < bound
  {
    if bound == 0 {
    } else {
      ListingMembers(s, bound - 1);
    }
  }

  lemma {:induction false} ListingAscends(s: set<nat>, bound: nat)
    ensures forall i, j :: 0 <= i < j < |Listing(s, bound)| ==> Listing(s, bound)[i] < Listing(s, bound)[j]
  {
    if bound == 0 {
    } else {
      ListingAscends(s, bound - 1);
      ListingMembers(s, bound - 1);
      var r := Listing(s, bound - 1);
      forall i | 0 <= i < |r|
        ensures r[i] < bound - 1
      {
        assert r[i] in r;
      }
    }
  }

  lemma {:induction false} ListingSame(s: set<nat>, t: set<nat>, bound: nat)
    requires forall n: nat :: n < bound ==> (n in s <==> n in t)
    ensures Listing(s, bound) == Listing(t, bound)
  {
    if bound == 0 {
    } else {
      ListingSame(s, t, bound - 1);
    }
  }

  lemma {:induction false} ListingBeyond(s: set<nat>, bound: nat, more: nat)
    requires bound <= more && forall n :: n in s ==> n < bound
    ensures Listing(s, more) == Listing(s, bound)
  {
    if bound < more {
      ListingBeyond(s, bound, more - 1);
    }
  }

  // ----- bits -----

  /** The place value of the k-th bit from the left of a group of four. */
  function Weight(k: nat): (w: nat)
    requires k < 4
    ensures w > 0
  {
    if k == 0 then 8 else if k == 1 then 4 else if k == 2 then 2 else 1
  }

  predicate BitOf(v: nat, k: nat)
    requires k < 4
  {
    v / Weight(k) % 2 == 1
  }

  /** Whether a bitmap in hexadecimal marks a field; a character that is no digit marks nothing. */
  predicate Marks(h: string, n: nat) {
    1 <= n <= 4 * |h| && var d := DigitValue(h[(n - 1) / 4]); d.Some? && BitOf(d.value, (n - 1) % 4)
  }

  function Marked(h: string): set<nat> {
    set n: nat | n <= 4 * |h| && Marks(h, n)
  }

  function On(s: set<nat>, n: nat): nat {
    if n in s && 2 <= n <= 64 then 1 else 0
  }

  function Nibble(s: set<nat>, i: nat): (v: nat)
    ensures v < 16
  {
    8 * On(s, 4 * i + 1) + 4 * On(s, 4 * i + 2) + 2 * On(s, 4 * i + 3) + On(s, 4 * i + 4)
  }

  /** The sixteen digits that mark the members of a set between 2 and 64. */
  function BitmapHex(s: set<nat>): string {
    seq(16, i requires 0 <= i < 16 => Digit(Nibble(s, i), Upper))
  }

  // ----- the two directions are inverse -----

  lemma NibbleBit(s: set<nat>, i: nat, k: nat)
    requires k < 4
    ensures BitOf(Nibble(s, i), k) <==> On(s, 4 * i + k + 1) == 1
  {
  }

  lemma BuiltMarks(s: set<nat>, n: nat)
    ensures Marks(BitmapHex(s), n) <==> n in s && 2 <= n <= 64
  {
    if 1 <= n <= 64 {
      var i, k := (n - 1) / 4, (n - 1) % 4;
      assert n == 4 * i + k + 1;
      NibbleBit(s, i, k);
      assert BitmapHex(s)[i] == Digit(Nibble(s, i), Upper);
    }
  }

  /** Reading a built bitmap gives the members of the set between 2 and 64, ascending. */
  lemma ReadBuilt(s: set<nat>)
    ensures Listing(Marked(BitmapHex(s)), 65) == Listing(set n | n in s && 2 <= n <= 64, 65)
  {
    var t := set n | n in s && 2 <= n <= 64;
    forall n: nat
      ensures n in Marked(BitmapHex(s)) <==> n in t
    {
      BuiltMarks(s, n);
    }
    ListingSame(Marked(BitmapHex(s)), t, 65);
  }

  /** Sixteen hexadecimal digits in capitals. */
  predicate Canonical(h: string) {
    |h| == 16 && forall i :: 0 <= i < 16 ==> DigitValue(h[i]).Some? && h[i] == Digit(DigitValue(h[i]).value, Upper)
  }

  lemma FourBits(v: nat)
    requires v < 16
    ensures v == (if BitOf(v, 0) then 8 else 0) + (if BitOf(v, 1) then 4 else 0)
                 + (if BitOf(v, 2) then 2 else 0) + (if BitOf(v, 3) then 1 else 0)
  {
  }

  function DigitOf(h: string, i: nat): nat
    requires Canonical(h) && i < 16
  {
    DigitValue(h[i]).value
  }

  lemma MarksAt(h: string, i: nat, k: nat)
    requires Canonical(h) && i < 16 && k < 4
    ensures 4 * i + k + 1 in Marked(h) <==> BitOf(DigitValue(h[i]).value, k)
  {
    var n := 4 * i + k + 1;
    assert (n - 1) / 4 == i && (n - 1) % 4 == k;
  }

  lemma OnMarked(h: string, i: nat, k: nat)
    requires Canonical(h) && i < 16 && k < 4
    ensures On(Marked(h), 4 * i + k + 1) == if BitOf(DigitOf(h, i), k) && !(i == 0 && k == 0) then 1 else 0
  {
    hide Marked, BitOf;
    MarksAt(h, i, k);
  }

  lemma FirstBit(v: nat)
    requires v < 16
    ensures v % 8 == if BitOf(v, 0) then v - 8 else v
  {
  }

  lemma NibbleOfMarked(h: string, i: nat)
    requires Canonical(h) && i < 16
    ensures var v := DigitValue(h[i]).value; Nibble(Marked(h), i) == if i == 0 then v % 8 else v
  {
    hide Marked, BitOf, DigitValue;
    var v := DigitOf(h, i);
    FourBits(v);
    FirstBit(v);
    OnMarked(h, i, 0);
    OnMarked(h, i, 1);
    OnMarked(h, i, 2);
    OnMarked(h, i, 3);
    hide On;
  }

  /** The bitmap with the bit for a secondary bitmap cleared. */
  function WithoutFirst(h: string): string
    requires Canonical(h)
  {
    h[0 := Digit(DigitValue(h[0]).value % 8, Upper)]
  }

  /** Building from what was read gives the bitmap back with its first bit cleared. */
  lemma BuildRead(h: string)
    requires Canonical(h)
    ensures BitmapHex(Marked(h)) == WithoutFirst(h)
  {
    hide Marked, Nibble;
    forall i | 0 <= i < 16
      ensures BitmapHex(Marked(h))[i] == WithoutFirst(h)[i]
    {
      NibbleOfMarked(h, i);
    }
  }

  lemma BuiltIsCanonical(s: set<nat>)
    ensures Canonical(BitmapHex(s)) && 1 !in Marked(BitmapHex(s))
  {
    BuiltMarks(s, 1);
  }

  /** Reading and building again changes nothing exactly for sixteen capital digits that do not mark field 1. */
  lemma StableIff(h: string)
    ensures BitmapHex(Marked(h)) == h <==> Canonical(h) && 1 !in Marked(h)
  {
    hide Marked, Nibble;
    if Canonical(h) {
      BuildRead(h);
      MarksAt(h, 0, 0);
      FirstBit(DigitValue(h[0]).value);
    }
    if BitmapHex(Marked(h)) == h {
      BuiltIsCanonical(Marked(h));
    }
  }

  // ----- the loops of the client -----

  lemma NibbleFrom(s: set<nat>, i: nat, cells: seq<nat>)
    requires |cells| == 64 && i < 64 && i % 4 == 0 && forall j :: 0 <= j < 64 ==> cells[j] == On(s, j + 1)
    ensures 8 * cells[i] + 4 * cells[i + 1] + 2 * cells[i + 2] + cells[i + 3] == Nibble(s, i / 4)
  {
    hide On;
    assert 4 * (i / 4) == i;
  }

  lemma Sixteen(s: set<nat>, hex: string)
    requires |hex| == 16 && forall j :: 0 <= j < 16 ==> hex[j] == Digit(Nibble(s, j), Upper)
    ensures hex == BitmapHex(s)
  {
  }

  /** `_buildBitmap`: cells set one by one, then read off in groups of four. */
  method BuildBitmap(fieldNumbers: set<nat>) returns (hex: string)
    ensures hex == BitmapHex(fieldNumbers)
  {
    hide BitmapHex, Nibble;
    var bitmap := new nat[64](_ => 0);
    var rest := fieldNumbers;
    while rest != {}
      invariant rest <= fieldNumbers
      invariant forall j :: 0 <= j < 64 ==> bitmap[j] == On(fieldNumbers - rest, j + 1)
      decreases |rest|
    {
      var fieldNum :| fieldNum in rest;
      if fieldNum >= 2 && fieldNum <= 64 {
        bitmap[fieldNum - 1] := 1;
      }
      rest := rest - {fieldNum};
    }
    assert fieldNumbers - rest == fieldNumbers;
    ghost var cells := bitmap[..];
    assert forall j :: 0 <= j < 64 ==> cells[j] == On(fieldNumbers, j + 1);
    hex := "";
    var i := 0;
    while i < 64
      invariant 0 <= i <= 64 && i % 4 == 0 && bitmap[..] == cells
      invariant |hex| == i / 4 && forall j :: 0 <= j < i / 4 ==> hex[j] == Digit(Nibble(fieldNumbers, j), Upper)
    {
      var nibble := 8 * bitmap[i] + 4 * bitmap[i + 1] + 2 * bitmap[i + 2] + bitmap[i + 3];
      assert nibble == 8 * cells[i] + 4 * cells[i + 1] + 2 * cells[i + 2] + cells[i + 3];
      NibbleFrom(fieldNumbers, i, cells);
      hex := hex + [Digit(nibble, Upper)];
      i := i + 4;
    }
    Sixteen(fieldNumbers, hex);
  }

  function Min(a: nat, b: nat): nat {
    if a < b then a else b
  }

  lemma FirstField(h: string)
    ensures Listing(Marked(h), 1) == []
  {
    assert Listing(Marked(h), 0) == [];
  }

  lemma NextField(h: string, i: nat, k: nat)
    requires i < |h| && k < 4
    ensures var n, d := 4 * i + k + 1, DigitValue(h[i]);
            Listing(Marked(h), n + 1) == Listing(Marked(h), n) + if d.Some? && BitOf(d.value, k) then [n] else []
  {
    hide BitOf, DigitValue;
    var n := 4 * i + k + 1;
    assert (n - 1) / 4 == i && (n - 1) % 4 == k;
  }

  lemma PastTheEnd(h: string, bound: nat)
    ensures 4 * |h| + 1 <= bound ==> Listing(Marked(h), bound) == Listing(Marked(h), 4 * |h| + 1)
  {
    hide Marks;
    if 4 * |h| + 1 <= bound {
      ListingBeyond(Marked(h), 4 * |h| + 1, bound);
    }
  }

  /** `_parseBitmap`: fields above 64 are dropped. The list comes out ascending, so its sort changes nothing. */
  method ParseBitmap(bitmapHex: string) returns (fields: seq<nat>)
    ensures fields == Listing(Marked(bitmapHex), 65)
    ensures forall i, j :: 0 <= i < j < |fields| ==> fields[i] < fields[j]
  {
    hide Marks, Marked, Listing, BitOf;
    fields := [];
    var i := 0;
    FirstField(bitmapHex);
    while i < |bitmapHex|
      invariant i <= |bitmapHex|
      invariant fields == Listing(Marked(bitmapHex), Min(4 * i + 1, 65))
    {
      var nibble := DigitValue(bitmapHex[i]);
      var k := 0;
      while k < 4
        invariant k <= 4 && fields == Listing(Marked(bitmapHex), Min(4 * i + k + 1, 65))
      {
        var fieldNum := i * 4 + k + 1;
        NextField(bitmapHex, i, k);
        if fieldNum <= 64 && nibble.Some? && BitOf(nibble.value, k) {
          fields := fields + [fieldNum];
        }
        k := k + 1;
      }
      i := i + 1;
    }
    PastTheEnd(bitmapHex, 65);
    ListingAscends(Marked(bitmapHex), 65);
  }

  // ----- the inspector's own reading -----

  predicate AllHex(h: string) {
    forall i :: 0 <= i < |h| ==> DigitValue(h[i]).Some?
  }

  /** The low eight bits of `parseInt` of two characters in base 16; where it gives no number, no bit is set. */
  function ParsedByte(a: char, b: char): (v: nat)
    ensures v < 256
  {
    PairValue(a, b) % 256
  }

  function BytesOf(h: string): (bytes: seq<nat>)
    ensures |bytes| == |h| / 2
  {
    seq(|h| / 2, i requires 0 <= i < |h| / 2 => ParsedByte(h[2 * i], h[2 * i + 1]))
  }

  function Power2(n: nat): (p: nat)
    ensures p > 0
  {
    if n == 0 then 1 else 2 * Power2(n - 1)
  }

  lemma HighBit(hi: nat, lo: nat, k: nat)
    requires hi < 16 && lo < 16 && k < 4
    ensures (hi * 16 + lo) / (16 * Weight(k)) == hi / Weight(k)
  {
    var w := Weight(k);
    var q, r := hi / w, hi % w;
    assert hi * 16 + lo == q * (16 * w) + (r * 16 + lo);
    RemainderUnique(hi * 16 + lo, q, r * 16 + lo, 16 * w);
  }

  lemma EvenPlus(half: nat, q: nat)
    ensures (half * 2 + q) % 2 == q % 2
  {
  }

  lemma LowDigit(hi: nat, lo: nat, w: nat, half: nat)
    requires w > 0 && half * 2 * w == hi * 16
    ensures (hi * 16 + lo) / w % 2 == lo / w % 2
  {
    var q, r := lo / w, lo % w;
    assert (half * 2 + q) * w == hi * 16 + q * w;
    RemainderUnique(hi * 16 + lo, half * 2 + q, r, w);
    EvenPlus(half, q);
  }

  lemma LowBit(hi: nat, lo: nat, k: nat)
    requires hi < 16 && lo < 16 && 4 <= k < 8
    ensures (hi * 16 + lo) / Weight(k - 4) % 2 == lo / Weight(k - 4) % 2
  {
    if k == 4 {
      LowDigit(hi, lo, 8, hi);
    } else if k == 5 {
      LowDigit(hi, lo, 4, 2 * hi);
    } else if k == 6 {
      LowDigit(hi, lo, 2, 4 * hi);
    } else {
      LowDigit(hi, lo, 1, 8 * hi);
    }
  }

  /** Bit `7 - k` of a byte is a bit of one of its two digits. */
  lemma ByteBit(hi: nat, lo: nat, k: nat)
    requires hi < 16 && lo < 16 && k < 8
    ensures (hi * 16 + lo) / Power2(7 - k) % 2 == 1 <==> BitOf(if k < 4 then hi else lo, k % 4)
  {
    assert Power2(0) == 1 && Power2(1) == 2 && Power2(2) == 4 && Power2(3) == 8;
    assert Power2(4) == 16 && Power2(5) == 32 && Power2(6) == 64 && Power2(7) == 128;
    if k < 4 {
      HighBit(hi, lo, k);
    } else {
      LowBit(hi, lo, k);
    }
  }

  predicate ByteMarks(bytes: seq<nat>, n: nat) {
    1 <= n <= 8 * |bytes| && bytes[(n - 1) / 8] / Power2(7 - (n - 1) % 8) % 2 == 1
  }

  function BytesMarked(bytes: seq<nat>): set<nat> {
    set n: nat | n <= 8 * |bytes| && ByteMarks(bytes, n)
  }

  /** The bytes of both bitmaps where the first announces a second and the text is long enough for it. */
  function BitmapBytes(h: string): seq<nat>
    requires |h| >= 24
  {
    var first := BytesOf(h[8..24]);
    if first[0] / 128 % 2 != 0 && |h| >= 40 then first + BytesOf(h[24..40]) else first
  }

  method ParseBytes(h: string) returns (bytes: seq<nat>)
    requires |h| % 2 == 0
    ensures bytes == BytesOf(h)
  {
    bytes := [];
    var i := 0;
    while i < |h|
      invariant i <= |h| && i % 2 == 0
      invariant bytes == BytesOf(h)[..i / 2]
    {
      bytes := bytes + [ParsedByte(h[i], h[i + 1])];
      i := i + 2;
    }
  }

  lemma FirstOther(bytes: seq<nat>)
    ensures Listing(BytesMarked(bytes) - {1}, 1) == []
  {
    assert Listing(BytesMarked(bytes) - {1}, 0) == [];
  }

  lemma NextOther(bytes: seq<nat>, b: nat, k: nat)
    requires b < |bytes| && k < 8
    ensures var n, others := 8 * b + k + 1, BytesMarked(bytes) - {1};
            Listing(others, n + 1) == Listing(others, n) + if bytes[b] / Power2(7 - k) % 2 == 1 && n > 1 then [n] else []
  {
    hide Power2;
    var n := 8 * b + k + 1;
    assert (n - 1) / 8 == b && (n - 1) % 8 == k;
  }

  lemma OthersEnd(bytes: seq<nat>)
    requires |bytes| <= 16
    ensures Listing(BytesMarked(bytes) - {1}, 129) == Listing(BytesMarked(bytes) - {1}, 8 * |bytes| + 1)
  {
    hide ByteMarks;
    ListingBeyond(BytesMarked(bytes) - {1}, 8 * |bytes| + 1, 129);
  }

  /** The loops over bytes and bits. */
  method SetBits(allBytes: seq<nat>) returns (setBits: seq<nat>)
    requires |allBytes| <= 16
    ensures setBits == Listing(BytesMarked(allBytes) - {1}, 129)
  {
    hide Listing, BytesMarked, Power2;
    FirstOther(allBytes);
    setBits := [];
    var b := 0;
    while b < |allBytes|
      invariant b <= |allBytes| && setBits == Listing(BytesMarked(allBytes) - {1}, 8 * b + 1)
    {
      var k := 0;
      while k < 8
        invariant k <= 8 && setBits == Listing(BytesMarked(allBytes) - {1}, 8 * b + k + 1)
      {
        NextOther(allBytes, b, k);
        if allBytes[b] / Power2(7 - k) % 2 == 1 {
          var de := b * 8 + (k + 1);
          if de > 1 {
            setBits := setBits + [de];
          }
        }
        k := k + 1;
      }
      b := b + 1;
    }
    OthersEnd(allBytes);
  }

  /** What the inspector shows of a message. */
  datatype Inspected = Inspected(mti: string, setBits: seq<nat>)

  /**
   `parseISO8583Hex`: of any text long enough, the type, and the marked bits in ascending order, without bit 1 and
   with those of a second bitmap behind the first's.
   */
  method ParseIso8583Hex(h: string) returns (r: Option<Inspected>)
    ensures r.None? <==> |h| < 24
    ensures r.Some? ==> r.value == Inspected(HexToString(h[..8]), Listing(BytesMarked(BitmapBytes(h)) - {1}, 129))
  {
    hide Listing, BytesMarked, ParsedByte, HexToString;
    if |h| < 24 {
      return None;
    }
    var mtiStr := HexToStringLoop(h[..8]);
    var pb := ParseBytes(h[8..24]);
    var hasSec := pb[0] / 128 % 2 != 0;
    var allBytes := pb;
    if hasSec && |h| >= 40 {
      var sb := ParseBytes(h[24..40]);
      allBytes := pb + sb;
    }
    var setBits := SetBits(allBytes);
    return Some(Inspected(mtiStr, setBits));
  }

  // ----- the inspector and the engine -----

  lemma HexByte(a: char, b: char)
    requires DigitValue(a).Some? && DigitValue(b).Some?
    ensures ParsedByte(a, b) == DigitValue(a).value * 16 + DigitValue(b).value
  {
  }

  lemma HexMark(h: string, n: nat)
    requires AllHex(h) && |h| % 2 == 0
    ensures ByteMarks(BytesOf(h), n) <==> Marks(h, n)
  {
    hide BitOf, Power2, ParsedByte, DigitValue;
    if 1 <= n <= 4 * |h| {
      var b, k := (n - 1) / 8, (n - 1) % 8;
      HexByte(h[2 * b], h[2 * b + 1]);
      ByteBit(DigitValue(h[2 * b]).value, DigitValue(h[2 * b + 1]).value, k);
      assert (n - 1) / 4 == 2 * b + k / 4 && (n - 1) % 4 == k % 4;
      assert BytesOf(h)[b] == DigitValue(h[2 * b]).value * 16 + DigitValue(h[2 * b + 1]).value;
    }
  }

  /** In hexadecimal text the inspector's bytes mark what the engine's digits do. */
  lemma HexMarked(h: string)
    requires AllHex(h) && |h| % 2 == 0
    ensures BytesMarked(BytesOf(h)) == Marked(h)
  {
    hide ByteMarks, Marks, BytesOf;
    forall n: nat
      ensures ByteMarks(BytesOf(h), n) <==> Marks(h, n)
    {
      HexMark(h, n);
    }
  }

  /** Both bitmaps in hexadecimal, where the first announces a second and the text is long enough for it. */
  function BitmapsOf(h: string): string
    requires |h| >= 24
  {
    if Marks(h[8..24], 1) && |h| >= 40 then h[8..40] else h[8..24]
  }

  lemma TopBit(bytes: seq<nat>)
    requires bytes != [] && bytes[0] < 256
    ensures ByteMarks(bytes, 1) <==> bytes[0] / 128 % 2 != 0
  {
    assert Power2(7) == 128 by {
      assert Power2(4) == 16;
    }
  }

  /** In hexadecimal text the inspector lists what both bitmaps mark, without bit 1. */
  lemma InspectorOnHex(h: string)
    requires |h| >= 24 && AllHex(h)
    ensures BytesMarked(BitmapBytes(h)) == Marked(BitmapsOf(h))
  {
    hide Marked, BytesMarked, Marks, ParsedByte;
    var first := BytesOf(h[8..24]);
    HexMark(h[8..24], 1);
    TopBit(first);
    if Marks(h[8..24], 1) && |h| >= 40 {
      assert BytesOf(h[8..40]) == first + BytesOf(h[24..40]);
    }
    HexMarked(BitmapsOf(h));
  }

  /** Where no second bitmap is announced, the inspector and the engine list the same fields of hexadecimal text. */
  lemma InspectorAgrees(h: string)
    requires |h| >= 24 && AllHex(h) && !Marks(h[8..24], 1)
    ensures Listing(BytesMarked(BitmapBytes(h)) - {1}, 129) == Listing(Marked(h[8..24]), 65)
  {
    hide Marks, BytesMarked, BitmapBytes;
    InspectorOnHex(h);
    var m := Marked(h[8..24]);
    ListingBeyond(m, 65, 129);
    assert m - {1} == m;
  }

  lemma MarkedLonger(h: string, more: string, n: nat)
    requires n <= 4 * |h|
    ensures Marks(h + more, n) <==> Marks(h, n)
  {
  }

  /** A second bitmap appended to the first adds nothing to the engine's list, which ends at 64. */
  lemma SecondBitmapUnlisted(h: string, more: string)
    requires |h| == 16
    ensures Listing(Marked(h + more), 65) == Listing(Marked(h), 65)
  {
    forall n: nat | n < 65
      ensures n in Marked(h + more) <==> n in Marked(h)
    {
      MarkedLonger(h, more, n);
    }
    ListingSame(Marked(h + more), Marked(h), 65);
  }
}
