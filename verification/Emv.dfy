/**
 The EMV TLV codec: the parser and the builder of field 55. Lengths are Go's 64-bit `int` and wrap,
 which matters for length fields of eight bytes and more.
 */
module Emv {
  import opened Base

  const TWO63: int := 0x8000_0000_0000_0000
  const TWO64: int := 0x1_0000_0000_0000_0000

  /** Bytes that a Go string of hexadecimal digits can stand for: half of what an `int` can count. */
  const MAX_DATA: int := 0x4000_0000_0000_0000

  /** A 64-bit signed sum or shift. */
  function Wrap(x: int): int {
    (x + TWO63) % TWO64 - TWO63
  }

  lemma WrapSmall(x: int)
    requires -TWO63 <= x < TWO63
    ensures Wrap(x) == x
  {
  }

  // ----- items -----

  /** One TLV item as it lies in the data. */
  datatype Item = Item(tag: Bytes, lengthField: Bytes, value: Bytes)

  function Raw(i: Item): Bytes {
    i.tag + i.lengthField + i.value
  }

  function RawAll(items: seq<Item>): Bytes {
    if items == [] then [] else Raw(items[0]) + RawAll(items[1..])
  }

  /** A tag has a second byte exactly when the low five bits of the first are all set. */
  predicate TagOk(tag: Bytes) {
    |tag| > 0 && |tag| == if tag[0] % 32 == 31 then 2 else 1
  }

  /** The bytes of a long-form length, accumulated as the parser does. */
  function Length64(bytes: Bytes): int {
    if bytes == [] then 0 else Wrap(Length64(bytes[..|bytes| - 1]) * 256 + bytes[|bytes| - 1])
  }

  /** What a length field says: itself below 128, or the bytes whose number the low seven bits give. */
  function LengthOf(field: Bytes): Option<int> {
    if field == [] then None
    else if field[0] < 128 then if |field| == 1 then Some(field[0]) else None
    else if |field| == 1 + (field[0] - 128) then Some(Length64(field[1..])) else None
  }

  predicate ItemOk(i: Item) {
    TagOk(i.tag) && LengthOf(i.lengthField) == Some(|i.value|)
  }

  predicate AllOk(items: seq<Item>) {
    forall k :: 0 <= k < |items| ==> ItemOk(items[k])
  }

  // ----- parsing -----

  datatype Header = NoHeader | Header(tag: Bytes, lengthField: Bytes, length: int)

  /** The tag and length at a position, if the data holds them whole. */
  function HeaderAt(data: Bytes, pos: nat): Header
    requires pos <= |data|
  {
    if pos == |data| then NoHeader
    else
      var t := if data[pos] % 32 == 31 then 2 else 1;
      if pos + t >= |data| then NoHeader
      else
        var p := pos + t;
        var n: int := if data[p] < 128 then 0 else data[p] - 128;
        if p + 1 + n > |data| then NoHeader
        else
          Header(data[pos..p], data[p..p + 1 + n],
                 if data[p] < 128 then data[p] else Length64(data[p + 1..p + 1 + n]))
  }

  datatype Read = Stop | Got(item: Item, next: nat) | OutOfRange

  /** One turn of the parser's loop. `OutOfRange` is a slice expression that Go refuses at run time. */
  function ReadItem(data: Bytes, pos: nat): (r: Read)
    requires pos <= |data|
    ensures r.Got? ==> pos < r.next <= |data|
  {
    match HeaderAt(data, pos)
    case NoHeader => Stop
    case Header(tag, field, length) =>
      var start := pos + |tag| + |field|;
      var end := Wrap(start + length);
      if end > |data| then Stop
      else if end < start then OutOfRange
      else Got(Item(tag, field, data[start..end]), end)
  }

  datatype Parsed = Parsed(items: seq<Item>, end: nat, outOfRange: bool)

  function ParseFrom(data: Bytes, pos: nat): (r: Parsed)
    requires pos <= |data|
    ensures pos <= r.end <= |data|
    decreases |data| - pos
  {
    match ReadItem(data, pos)
    case Stop => Parsed([], pos, false)
    case OutOfRange => Parsed([], pos, true)
    case Got(item, next) =>
      var r := ParseFrom(data, next);
      r.(items := [item] + r.items)
  }

  // ----- reading back what was written -----

  lemma Pieces(a: Bytes, b: Bytes, c: Bytes)
    ensures var s := a + b + c; s[..|a|] == a && s[|a|..|a| + |b|] == b && s[|a| + |b|..] == c
  {
  }

  lemma Within(data: Bytes, pos: nat, s: Bytes, from: nat, to: nat)
    requires pos + |s| <= |data| && data[pos..pos + |s|] == s && from <= to <= |s|
    ensures data[pos + from..pos + to] == s[from..to]
  {
    assert s[from..to] == data[pos + from..pos + to] by {
      forall k | 0 <= k < to - from
        ensures s[from..to][k] == data[pos + from..pos + to][k]
      {
        assert data[pos..pos + |s|][from + k] == s[from + k];
      }
    }
  }

  lemma HeaderOfItem(data: Bytes, pos: nat, i: Item)
    requires pos + |Raw(i)| <= |data| && data[pos..pos + |Raw(i)|] == Raw(i)
    requires TagOk(i.tag) && LengthOf(i.lengthField).Some?
    ensures HeaderAt(data, pos) == Header(i.tag, i.lengthField, LengthOf(i.lengthField).value)
  {
    hide Length64;
    var t, f := |i.tag|, |i.lengthField|;
    var s := Raw(i);
    Pieces(i.tag, i.lengthField, i.value);
    Within(data, pos, s, 0, t);
    Within(data, pos, s, t, t + f);
    assert data[pos..pos + t] == i.tag;
    assert data[pos + t..pos + t + f] == i.lengthField;
    assert data[pos] == data[pos..pos + t][0];
    assert data[pos + t] == data[pos + t..pos + t + f][0];
    assert data[pos + t + 1..pos + t + f] == data[pos + t..pos + t + f][1..];
  }

  /** An item that lies in the data is read as itself. */
  lemma ReadBack(data: Bytes, pos: nat, i: Item)
    requires |data| <= MAX_DATA && pos + |Raw(i)| <= |data| && data[pos..pos + |Raw(i)|] == Raw(i) && ItemOk(i)
    ensures ReadItem(data, pos) == Got(i, pos + |Raw(i)|)
  {
    hide HeaderAt, LengthOf, TagOk;
    HeaderOfItem(data, pos, i);
    var t := |i.tag| + |i.lengthField|;
    WrapSmall(pos + t + |i.value|);
    Pieces(i.tag, i.lengthField, i.value);
    Within(data, pos, Raw(i), t, |Raw(i)|);
    assert Raw(i)[t..|Raw(i)|] == Raw(i)[t..];
  }

  lemma FirstAndRest(data: Bytes, pos: nat, items: seq<Item>)
    requires items != [] && pos + |RawAll(items)| <= |data| && data[pos..pos + |RawAll(items)|] == RawAll(items)
    ensures var first, rest := Raw(items[0]), RawAll(items[1..]);
            && |RawAll(items)| == |first| + |rest|
            && data[pos..pos + |first|] == first
            && data[pos + |first|..pos + |first| + |rest|] == rest
  {
    hide Raw;
    var first, rest := Raw(items[0]), RawAll(items[1..]);
    var s := first + rest;
    Within(data, pos, s, 0, |first|);
    Within(data, pos, s, |first|, |s|);
    assert s[0..|first|] == first && s[|first|..|s|] == rest;
  }

  lemma NoItems(items: seq<Item>)
    requires items == []
    ensures RawAll(items) == []
  {
  }

  lemma AllOkTail(items: seq<Item>)
    requires items != [] && AllOk(items)
    ensures ItemOk(items[0]) && AllOk(items[1..])
  {
  }

  lemma ParseStep(data: Bytes, pos: nat)
    requires pos <= |data| && ReadItem(data, pos).Got?
    ensures var read := ReadItem(data, pos);
            var r := ParseFrom(data, read.next);
            ParseFrom(data, pos) == r.(items := [read.item] + r.items)
  {
  }

  /** Well-formed items at a position are parsed as they are, and parsing goes on behind them. */
  lemma {:induction false} ParseItems(data: Bytes, pos: nat, items: seq<Item>)
    requires |data| <= MAX_DATA && AllOk(items)
    requires pos + |RawAll(items)| <= |data| && data[pos..pos + |RawAll(items)|] == RawAll(items)
    ensures var r := ParseFrom(data, pos + |RawAll(items)|);
            ParseFrom(data, pos) == r.(items := items + r.items)
    decreases |items|
  {
    hide *;
    if items == [] {
      NoItems(items);
      assert items + ParseFrom(data, pos).items == ParseFrom(data, pos).items;
    } else {
      FirstAndRest(data, pos, items);
      assert ItemOk(items[0]) && AllOk(items[1..]) by {
        AllOkTail(items);
      }
      ReadBack(data, pos, items[0]);
      ParseStep(data, pos);
      var next := pos + |Raw(items[0])|;
      ParseItems(data, next, items[1..]);
      assert next + |RawAll(items[1..])| == pos + |RawAll(items)|;
      var r, r1 := ParseFrom(data, pos + |RawAll(items)|), ParseFrom(data, next);
      assert r1.items == items[1..] + r.items;
      assert [items[0]] + r1.items == items + r.items;
    }
  }

  // ----- tiling -----

  lemma HeaderIsWhole(data: Bytes, pos: nat)
    requires pos <= |data| && HeaderAt(data, pos).Header?
    ensures var h := HeaderAt(data, pos);
            && TagOk(h.tag) && LengthOf(h.lengthField) == Some(h.length)
            && pos + |h.tag| + |h.lengthField| <= |data|
            && data[pos..pos + |h.tag| + |h.lengthField|] == h.tag + h.lengthField
  {
    var h := HeaderAt(data, pos);
    var p := pos + |h.tag|;
    hide Length64;
    assert data[p..p + |h.lengthField|][1..] == data[p + 1..p + |h.lengthField|];
    assert data[pos..p + |h.lengthField|] == data[pos..p] + data[p..p + |h.lengthField|];
  }

  lemma Length64Range(bytes: Bytes)
    ensures -TWO63 <= Length64(bytes) < TWO63
  {
  }

  /** The sum of a position and a length that does not pass the end of the data did not wrap, or went below. */
  lemma SumInside(start: nat, length: int, size: nat)
    requires start <= size <= MAX_DATA && -TWO63 <= length < TWO63
    ensures start <= Wrap(start + length) <= size ==> Wrap(start + length) == start + length
  {
    if start + length >= TWO63 {
      assert Wrap(start + length) == start + length - TWO64;
    }
  }

  lemma LengthFieldRange(field: Bytes)
    ensures LengthOf(field).Some? ==> -TWO63 <= LengthOf(field).value < TWO63
  {
    if LengthOf(field).Some? && field[0] >= 128 {
      Length64Range(field[1..]);
    }
  }

  lemma GotIsItem(data: Bytes, pos: nat)
    requires pos <= |data| <= MAX_DATA && ReadItem(data, pos).Got?
    ensures var r := ReadItem(data, pos);
            ItemOk(r.item) && r.next == pos + |Raw(r.item)| && data[pos..r.next] == Raw(r.item)
  {
    HeaderIsWhole(data, pos);
    hide HeaderAt, LengthOf, TagOk;
    var h := HeaderAt(data, pos);
    var start := pos + |h.tag| + |h.lengthField|;
    LengthFieldRange(h.lengthField);
    SumInside(start, h.length, |data|);
    assert data[pos..start + h.length] == data[pos..start] + data[start..start + h.length];
  }

  /**
   The parsed items tile a prefix of the data in order: they are well formed, their bytes one after
   another are exactly what was consumed, and at the end no further item can be read.
   */
  lemma {:induction false} ItemsTile(data: Bytes, pos: nat)
    requires pos <= |data| <= MAX_DATA
    ensures var r := ParseFrom(data, pos);
            && AllOk(r.items)
            && data[pos..r.end] == RawAll(r.items)
            && !ReadItem(data, r.end).Got? && (r.outOfRange <==> ReadItem(data, r.end).OutOfRange?)
    decreases |data| - pos
  {
    var r := ParseFrom(data, pos);
    match ReadItem(data, pos)
    case Got(item, next) =>
      GotIsItem(data, pos);
      ItemsTile(data, next);
      assert r.items[1..] == ParseFrom(data, next).items;
      assert data[pos..r.end] == data[pos..next] + data[next..r.end];
    case _ =>
  }

  lemma LengthInRange(data: Bytes, pos: nat)
    requires pos <= |data|
    ensures var h := HeaderAt(data, pos); h.Header? ==> -TWO63 <= h.length < TWO63
  {
    if HeaderAt(data, pos).Header? {
      HeaderIsWhole(data, pos);
      LengthFieldRange(HeaderAt(data, pos).lengthField);
    }
  }

  function Power256(n: nat): nat {
    if n == 0 then 1 else 256 * Power256(n - 1)
  }

  lemma {:induction false} Power256Grows(a: nat, b: nat)
    requires a <= b
    ensures Power256(a) <= Power256(b)
  {
    if a < b {
      Power256Grows(a, b - 1);
    }
  }

  /** A long-form length of at most seven bytes cannot overflow. */
  lemma {:induction false} SevenBytesFit(bytes: Bytes)
    requires |bytes| <= 7
    ensures 0 <= Length64(bytes) < Power256(|bytes|) <= Power256(7) == 0x100_0000_0000_0000
  {
    if bytes != [] {
      SevenBytesFit(bytes[..|bytes| - 1]);
      WrapSmall(Length64(bytes[..|bytes| - 1]) * 256 + bytes[|bytes| - 1]);
    }
    Power256Grows(|bytes|, 7);
  }

  /** A position the parser comes to: well-formed items lie before it. */
  ghost predicate Reached(data: Bytes, pos: nat) {
    pos <= |data| && exists items :: AllOk(items) && data[..pos] == RawAll(items)
  }

  /** From a reached position the parser goes on, with what it read before in front. */
  lemma ParseFromReached(data: Bytes, pos: nat)
    requires |data| <= MAX_DATA && Reached(data, pos)
    ensures ParseFrom(data, 0).end == ParseFrom(data, pos).end
            && ParseFrom(data, 0).outOfRange == ParseFrom(data, pos).outOfRange
  {
    hide ParseFrom, ItemOk, RawAll;
    var items :| AllOk(items) && data[..pos] == RawAll(items);
    assert |data[..pos]| == pos;
    assert data[0..0 + |RawAll(items)|] == data[..pos];
    ParseItems(data, 0, items);
  }

  lemma EndIsReached(data: Bytes)
    requires |data| <= MAX_DATA
    ensures Reached(data, ParseFrom(data, 0).end)
  {
    hide ParseFrom, ItemOk, RawAll, ReadItem;
    var r := ParseFrom(data, 0);
    ItemsTile(data, 0);
    assert data[0..r.end] == data[..r.end];
  }

  lemma ReachedInside(data: Bytes, pos: nat)
    requires Reached(data, pos)
    ensures pos <= |data|
  {
  }

  /** A header whose length is negative in 64 bits, or takes the position behind the header past the largest `int`. */
  predicate LeadsBackwards(data: Bytes, pos: nat)
    requires pos <= |data|
  {
    var h := HeaderAt(data, pos);
    h.Header? && (h.length < 0 || pos + |h.tag| + |h.lengthField| + h.length >= TWO63)
  }

  lemma WrapsBelow(start: nat, length: int, size: nat)
    requires start <= size <= MAX_DATA && -TWO63 <= length < TWO63
    ensures Wrap(start + length) < start <==> length < 0 || start + length >= TWO63
    ensures length < 0 || start + length >= TWO63 ==> Wrap(start + length) <= size
  {
    if start + length >= TWO63 {
      assert Wrap(start + length) == start + length - TWO64;
    } else {
      WrapSmall(start + length);
    }
  }

  /** One turn slices out of range exactly at such a header. */
  lemma ItemOutOfRangeIff(data: Bytes, pos: nat)
    requires pos <= |data| <= MAX_DATA
    ensures ReadItem(data, pos).OutOfRange? <==> LeadsBackwards(data, pos)
  {
    hide Length64, Wrap;
    if HeaderAt(data, pos).Header? {
      HeaderIsWhole(data, pos);
      LengthInRange(data, pos);
      var h := HeaderAt(data, pos);
      hide HeaderAt, LengthOf, TagOk;
      WrapsBelow(pos + |h.tag| + |h.lengthField|, h.length, |data|);
    }
  }

  /** Parsing slices out of range exactly when it comes to a header whose length takes it backwards. */
  lemma OutOfRangeIff(data: Bytes)
    requires |data| <= MAX_DATA
    ensures ParseFrom(data, 0).outOfRange <==> exists pos: nat :: Reached(data, pos) && LeadsBackwards(data, pos)
  {
    hide Reached, ReadItem, LeadsBackwards;
    var r := ParseFrom(data, 0);
    EndIsReached(data);
    ReachedInside(data, r.end);
    ItemsTile(data, 0);
    ItemOutOfRangeIff(data, r.end);
    forall pos: nat | Reached(data, pos)
      ensures pos <= |data| && (LeadsBackwards(data, pos) ==> r.outOfRange)
    {
      ReachedInside(data, pos);
      ItemOutOfRangeIff(data, pos);
      ParseFromReached(data, pos);
    }
  }

  /** A length field of at most eight bytes, its first included, never takes the parser backwards. */
  lemma ShortFieldsInRange(data: Bytes, pos: nat)
    requires pos <= |data| <= MAX_DATA
    requires HeaderAt(data, pos).Header? ==> |HeaderAt(data, pos).lengthField| <= 8
    ensures !LeadsBackwards(data, pos)
  {
    if HeaderAt(data, pos).Header? {
      HeaderIsWhole(data, pos);
      var h := HeaderAt(data, pos);
      if h.lengthField[0] >= 128 {
        SevenBytesFit(h.lengthField[1..]);
      }
    }
  }

  /** So data whose headers all have such length fields, as far as the parser comes, is parsed without one. */
  lemma ShortFieldsParse(data: Bytes)
    requires |data| <= MAX_DATA
    requires forall pos: nat :: Reached(data, pos) ==>
               (HeaderAt(data, pos).Header? ==> |HeaderAt(data, pos).lengthField| <= 8)
    ensures !ParseFrom(data, 0).outOfRange
  {
    hide Reached, LeadsBackwards, ParseFrom, HeaderAt;
    OutOfRangeIff(data);
    forall pos: nat | Reached(data, pos)
      ensures pos <= |data| && !LeadsBackwards(data, pos)
    {
      ReachedInside(data, pos);
      ShortFieldsInRange(data, pos);
    }
  }

  lemma {:induction false} AllOnes(bytes: Bytes, n: nat)
    requires |bytes| == n <= 8 && forall i :: 0 <= i < n ==> bytes[i] == 0xFF
    ensures Length64(bytes) == if n == 8 then -1 else Power256(n) - 1
  {
    if n == 0 {
    } else {
      AllOnes(bytes[..n - 1], n - 1);
      Power256Grows(n, 8);
      assert Power256(7) == 0x100_0000_0000_0000;
      Power256Grows(n - 1, 7);
      if n < 8 {
        Power256Grows(n, 7);
        WrapSmall(Power256(n) - 1);
      }
    }
  }

  /** The shortest data that does it: a length of eight bytes with all bits set reads as -1. */
  lemma EightByteLength()
    ensures var data: Bytes := [0x82, 0x88, 0xFF, 0xFF, 0xFF, 0xFF, 0xFF, 0xFF, 0xFF, 0xFF];
            LeadsBackwards(data, 0) && ParseFrom(data, 0).outOfRange
  {
    var data: Bytes := [0x82, 0x88, 0xFF, 0xFF, 0xFF, 0xFF, 0xFF, 0xFF, 0xFF, 0xFF];
    var ones := data[2..10];
    AllOnes(ones, 8);
    assert data[0..1] == [0x82];
    ItemOutOfRangeIff(data, 0);
  }

  // ----- building -----

  /** The builder's length field. Above 65535 the high byte of the length is cut off. */
  function LengthField(n: nat): (f: Bytes)
    ensures |f| == if n < 128 then 1 else if n < 256 then 2 else 3
  {
    if n < 128 then [n] else if n < 256 then [0x81, n] else [0x82, n / 256 % 256, n % 256]
  }

  function Built(tag: Bytes, value: Bytes): Item {
    Item(tag, LengthField(|value|), value)
  }

  lemma OneByte(b: Bytes)
    requires |b| == 1
    ensures Length64(b) == b[0]
  {
    assert b[..0] == [];
    WrapSmall(b[0]);
  }

  lemma TwoBytes(b: Bytes)
    requires |b| == 2
    ensures Length64(b) == b[0] as int * 256 + b[1]
  {
    OneByte(b[..1]);
    WrapSmall(b[0] as int * 256 + b[1]);
  }

  lemma LowSixteenBits(n: nat)
    ensures n / 256 % 256 * 256 + n % 256 == n % 0x1_0000
  {
    var q := n / 0x1_0000;
    var high := n / 256;
    assert high == q * 256 + high % 256 by {
      assert high / 256 == q;
    }
    RemainderUnique(n, q, high % 256 * 256 + n % 256, 0x1_0000);
  }

  lemma LengthFieldSays(n: nat)
    ensures LengthOf(LengthField(n)) == Some(if n < 0x1_0000 then n else n % 0x1_0000)
  {
    hide Length64;
    var f := LengthField(n);
    if 128 <= n < 256 {
      assert f[1..] == [n];
      OneByte([n]);
    } else if n >= 256 {
      var b: Bytes := [n / 256 % 256, n % 256];
      assert f[1..] == b;
      TwoBytes(b);
      LowSixteenBits(n);
    }
  }

  lemma BuiltOkIff(tag: Bytes, value: Bytes)
    requires TagOk(tag)
    ensures ItemOk(Built(tag, value)) <==> |value| < 0x1_0000
  {
    LengthFieldSays(|value|);
  }

  /** The builder's form is never longer than another that says the same. */
  lemma BuiltIsShortest(i: Item)
    requires ItemOk(i)
    ensures |LengthField(|i.value|)| <= |i.lengthField|
  {
    var f := i.lengthField;
    if f[0] >= 128 {
      if |f| == 1 {
        assert f[1..] == [];
      } else if |f| == 2 {
        OneByte(f[1..]);
      }
    }
  }

  /** The items as the builder would write them. */
  function Rebuild(items: seq<Item>): seq<Item> {
    seq(|items|, k requires 0 <= k < |items| => Built(items[k].tag, items[k].value))
  }

  lemma RebuildTail(items: seq<Item>)
    requires items != []
    ensures Rebuild(items)[1..] == Rebuild(items[1..]) && Rebuild(items)[0] == Built(items[0].tag, items[0].value)
  {
  }

  lemma {:induction false} RebuildNotLonger(items: seq<Item>)
    requires AllOk(items)
    ensures |RawAll(Rebuild(items))| <= |RawAll(items)|
  {
    if items == [] {
    } else {
      BuiltIsShortest(items[0]);
      RebuildTail(items);
      RebuildNotLonger(items[1..]);
    }
  }

  lemma {:induction false} RebuildSameIff(items: seq<Item>)
    requires AllOk(items)
    ensures RawAll(Rebuild(items)) == RawAll(items) <==>
            forall k :: 0 <= k < |items| ==> items[k].lengthField == LengthField(|items[k].value|)
  {
    if items == [] {
    } else {
      var i, rest := items[0], items[1..];
      var b := Built(i.tag, i.value);
      RebuildTail(items);
      RebuildSameIff(rest);
      BuiltIsShortest(i);
      RebuildNotLonger(rest);
      if RawAll(Rebuild(items)) == RawAll(items) {
        assert |Raw(b)| == |Raw(i)|;
        assert RawAll(items)[..|Raw(i)|] == Raw(i) == Raw(b);
        assert RawAll(items)[|Raw(i)|..] == RawAll(rest) == RawAll(Rebuild(rest));
        assert Raw(i)[|i.tag|..|i.tag| + |i.lengthField|] == i.lengthField;
        assert Raw(b)[|i.tag|..|i.tag| + |b.lengthField|] == b.lengthField;
        assert forall k :: 1 <= k < |items| ==> items[k] == rest[k - 1];
      }
      if forall k :: 0 <= k < |items| ==> items[k].lengthField == LengthField(|items[k].value|) {
        assert forall k :: 0 <= k < |rest| ==> rest[k] == items[k + 1];
        assert b == i;
      }
    }
  }

  /**
   Building what was parsed gives the data back exactly when all of it was consumed and every length
   was written the way the builder writes it.
   */
  lemma RebuildIff(data: Bytes)
    requires |data| <= MAX_DATA
    ensures var r := ParseFrom(data, 0);
            RawAll(Rebuild(r.items)) == data <==>
            && r.end == |data|
            && forall k :: 0 <= k < |r.items| ==> r.items[k].lengthField == LengthField(|r.items[k].value|)
  {
    var r := ParseFrom(data, 0);
    ItemsTile(data, 0);
    RebuildNotLonger(r.items);
    RebuildSameIff(r.items);
    assert |RawAll(r.items)| == r.end;
    if r.end == |data| {
      assert data[0..r.end] == data;
    }
  }

  // ----- tags as text -----

  /** A tag as the rest of the program sees it: tag and value in hexadecimal. */
  datatype EmvTag = EmvTag(tag: string, length: int, value: string)

  function TagOf(i: Item): EmvTag {
    EmvTag(ToHex(i.tag, Upper), |i.value|, ToHex(i.value, Lower))
  }

  function TagsOf(items: seq<Item>): seq<EmvTag> {
    seq(|items|, k requires 0 <= k < |items| => TagOf(items[k]))
  }

  datatype Parse = InvalidHex | SliceOutOfRange | Tags(tags: seq<EmvTag>)

  /** What parsing a text comes to. */
  function Parsing(hexData: string): Parse {
    match FromHex(hexData)
    case None => InvalidHex
    case Some(data) =>
      var p := ParseFrom(data, 0);
      if p.outOfRange then SliceOutOfRange else Tags(TagsOf(p.items))
  }

  /** The tags read so far, followed by those still to come from a position, are the tags of the data. */
  ghost predicate SoFar(data: Bytes, pos: nat, tags: seq<EmvTag>) {
    && pos <= |data|
    && ParseFrom(data, 0).outOfRange == ParseFrom(data, pos).outOfRange
    && TagsOf(ParseFrom(data, 0).items) == tags + TagsOf(ParseFrom(data, pos).items)
  }

  lemma EndStops(data: Bytes)
    ensures ReadItem(data, |data|).Stop?
  {
  }

  lemma NothingSoFar(data: Bytes)
    ensures SoFar(data, 0, [])
  {
  }

  lemma SoFarGot(data: Bytes, pos: nat, tags: seq<EmvTag>)
    requires SoFar(data, pos, tags)
    ensures var r := ReadItem(data, pos); r.Got? ==> SoFar(data, r.next, tags + [TagOf(r.item)])
  {
    hide ReadItem, TagOf;
    var r := ReadItem(data, pos);
    if r.Got? {
      var rest := ParseFrom(data, r.next).items;
      ParseStep(data, pos);
      assert TagsOf([r.item] + rest) == [TagOf(r.item)] + TagsOf(rest);
      assert tags + ([TagOf(r.item)] + TagsOf(rest)) == tags + [TagOf(r.item)] + TagsOf(rest);
    }
  }

  lemma SoFarEnd(data: Bytes, pos: nat, tags: seq<EmvTag>)
    requires SoFar(data, pos, tags)
    ensures !ReadItem(data, pos).Got? ==>
              && ParseFrom(data, 0).outOfRange == ReadItem(data, pos).OutOfRange?
              && TagsOf(ParseFrom(data, 0).items) == tags
  {
    hide ReadItem;
    assert TagsOf([]) == [];
  }

  /** The long-form length bytes from `pos`, shifted in one by one. */
  method LongLength(data: Bytes, pos: nat, count: nat) returns (length: int)
    requires pos + count <= |data|
    ensures length == Length64(data[pos..pos + count])
  {
    length := 0;
    var i := 0;
    assert data[pos..pos] == [];
    while i < count
      invariant i <= count && length == Length64(data[pos..pos + i])
    {
      assert data[pos..pos + i + 1][..i] == data[pos..pos + i];
      length := Wrap(length * 256 + data[pos + i]);
      i := i + 1;
    }
  }

  /** The tag and the length at a position; `whole` is false where the parser's loop breaks off. */
  method ReadHeader(data: Bytes, at: nat) returns (whole: bool, tag: Bytes, length: int, pos: nat)
    requires at < |data|
    ensures whole <==> HeaderAt(data, at).Header?
    ensures whole ==> at + |tag| < pos <= |data|
    ensures whole ==> HeaderAt(data, at) == Header(tag, data[at + |tag|..pos], length)
  {
    hide Length64;
    whole, tag, length, pos := false, [], 0, at;
    if data[pos] % 32 == 31 {
      if pos + 1 >= |data| {
        return;
      }
      tag := [data[pos], data[pos + 1]];
      pos := pos + 2;
    } else {
      tag := [data[pos]];
      pos := pos + 1;
    }
    assert tag == data[at..pos];
    if pos >= |data| {
      return;
    }
    if data[pos] < 128 {
      length := data[pos];
      pos := pos + 1;
    } else {
      var numLengthBytes := data[pos] - 128;
      pos := pos + 1;
      if pos + numLengthBytes > |data| {
        return;
      }
      length := LongLength(data, pos, numLengthBytes);
      pos := pos + numLengthBytes;
    }
    whole := true;
  }

  method ParseEmvData(hexData: string) returns (r: Parse)
    requires |hexData| / 2 <= MAX_DATA
    ensures r == Parsing(hexData)
    ensures r.InvalidHex? <==> FromHex(hexData).None?
    ensures r.SliceOutOfRange? <==> FromHex(hexData).Some? && ParseFrom(FromHex(hexData).value, 0).outOfRange
  {
    hide ParseFrom, TagsOf, ToHex, Length64, Wrap, HeaderAt, SoFar;
    if hexData == "" {
      NothingSoFar([]);
      SoFarEnd([], 0, []);
      EndStops([]);
      return Tags([]);
    }
    var decoded := FromHex(hexData);
    if decoded.None? {
      return InvalidHex;
    }
    var data := decoded.value;
    hide FromHex;
    var tags, pos := [], 0;
    NothingSoFar(data);
    while pos < |data|
      invariant pos <= |data| && SoFar(data, pos, tags)
      decreases |data| - pos
    {
      SoFarEnd(data, pos, tags);
      SoFarGot(data, pos, tags);
      LengthInRange(data, pos);
      var whole, tag, length, next := ReadHeader(data, pos);
      if !whole {
        break;
      }
      SumInside(next, length, |data|);
      var end := Wrap(next + length);
      if end > |data| {
        break;
      }
      if end < next {
        return SliceOutOfRange;
      }
      var value := data[next..end];
      tags := tags + [EmvTag(ToHex(tag, Upper), length, ToHex(value, Lower))];
      pos := end;
    }
    if pos == |data| && SoFar(data, pos, tags) {
      SoFarEnd(data, pos, tags);
      EndStops(data);
    }
    return Tags(tags);
  }

  // ----- building from text -----

  datatype Build = InvalidTag(tag: string) | InvalidValue(tag: string) | Text(hexData: string)

  predicate Clean(t: EmvTag) {
    FromHex(t.tag).Some? && FromHex(t.value).Some?
  }

  /** The item the builder writes for a tag; its declared length is not looked at. */
  function ItemFor(t: EmvTag): Item
    requires Clean(t)
  {
    Built(FromHex(t.tag).value, FromHex(t.value).value)
  }

  predicate AllClean(tags: seq<EmvTag>) {
    forall k :: 0 <= k < |tags| ==> Clean(tags[k])
  }

  function ItemsFor(tags: seq<EmvTag>): seq<Item>
    requires AllClean(tags)
  {
    seq(|tags|, k requires 0 <= k < |tags| => ItemFor(tags[k]))
  }

  function Refusal(t: EmvTag): Build
    requires !Clean(t)
  {
    if FromHex(t.tag).None? then InvalidTag(t.tag) else InvalidValue(t.tag)
  }

  lemma {:induction false} RawAllConcat(a: seq<Item>, b: seq<Item>)
    ensures RawAll(a + b) == RawAll(a) + RawAll(b)
  {
    hide Raw;
    if a == [] {
      assert a + b == b;
    } else {
      RawAllConcat(a[1..], b);
      assert (a + b)[1..] == a[1..] + b && (a + b)[0] == a[0];
      assert Raw(a[0]) + (RawAll(a[1..]) + RawAll(b)) == (Raw(a[0]) + RawAll(a[1..])) + RawAll(b);
    }
  }

  lemma RawAllSnoc(a: seq<Item>, i: Item)
    ensures RawAll(a + [i]) == RawAll(a) + Raw(i)
  {
    hide Raw;
    RawAllConcat(a, [i]);
    assert RawAll([i]) == Raw(i);
  }

  /** The first tag that is not clean hexadecimal is refused; otherwise all tags are written in order. */
  method BuildEmvData(tags: seq<EmvTag>) returns (r: Build)
    ensures AllClean(tags) ==> r == Text(ToHex(RawAll(ItemsFor(tags)), Lower))
    ensures forall k ::
              && 0 <= k < |tags| && !Clean(tags[k])
              && (forall j :: 0 <= j < k ==> Clean(tags[j]))
              ==> r == Refusal(tags[k])
                  && r == if FromHex(tags[k].tag).None? then InvalidTag(tags[k].tag) else InvalidValue(tags[k].tag)
  {
    hide ToHex, FromHex, RawAll;
    var result: Bytes := [];
    var i := 0;
    NoItems(ItemsFor(tags[..0]));
    while i < |tags|
      invariant i <= |tags| && forall j :: 0 <= j < i ==> Clean(tags[j])
      invariant result == RawAll(ItemsFor(tags[..i]))
    {
      var t := tags[i];
      var tagBytes := FromHex(t.tag);
      if tagBytes.None? {
        return InvalidTag(t.tag);
      }
      var before := result;
      result := result + tagBytes.value;
      var valueBytes := FromHex(t.value);
      if valueBytes.None? {
        return InvalidValue(t.tag);
      }
      var length := |valueBytes.value|;
      if length < 128 {
        result := result + [length];
      } else if length < 256 {
        result := result + [0x81, length];
      } else {
        result := result + [0x82, length / 256 % 256, length % 256];
      }
      result := result + valueBytes.value;
      assert result == before + Raw(ItemFor(t));
      assert ItemsFor(tags[..i + 1]) == ItemsFor(tags[..i]) + [ItemFor(t)];
      RawAllSnoc(ItemsFor(tags[..i]), ItemFor(t));
      i := i + 1;
    }
    assert tags[..i] == tags;
    return Text(ToHex(result, Lower));
  }

  // ----- the round trip -----

  /** A tag in the form the parser gives: one or two bytes in capitals, the value in small letters. */
  predicate WellFormed(t: EmvTag) {
    && Clean(t)
    && TagOk(FromHex(t.tag).value)
    && t.tag == ToHex(FromHex(t.tag).value, Upper)
    && t.value == ToHex(FromHex(t.value).value, Lower)
  }

  predicate AllWellFormed(tags: seq<EmvTag>) {
    AllClean(tags) && forall k :: 0 <= k < |tags| ==> WellFormed(tags[k])
  }

  function Size(t: EmvTag): nat
    requires Clean(t)
  {
    |FromHex(t.value).value|
  }

  /** The same tags, each with the number of bytes of its value for length. */
  function Counted(tags: seq<EmvTag>): seq<EmvTag>
    requires AllClean(tags)
  {
    seq(|tags|, k requires 0 <= k < |tags| => tags[k].(length := Size(tags[k])))
  }

  lemma TagsOfItemsFor(tags: seq<EmvTag>)
    requires AllWellFormed(tags)
    ensures TagsOf(ItemsFor(tags)) == Counted(tags)
  {
    hide ToHex, FromHex, TagOk;
    forall k | 0 <= k < |tags|
      ensures TagOf(ItemsFor(tags)[k]) == Counted(tags)[k]
    {
      assert WellFormed(tags[k]);
    }
  }

  lemma ItemForOk(t: EmvTag)
    requires WellFormed(t)
    ensures |ItemFor(t).value| == Size(t)
    ensures ItemOk(ItemFor(t)) <==> Size(t) < 0x1_0000
    ensures TagOk(ItemFor(t).tag) && LengthOf(ItemFor(t).lengthField) == Some(if Size(t) < 0x1_0000 then Size(t) else Size(t) % 0x1_0000)
  {
    hide ToHex, FromHex, TagOk;
    BuiltOkIff(FromHex(t.tag).value, FromHex(t.value).value);
    LengthFieldSays(Size(t));
  }

  lemma NothingAtEnd(data: Bytes)
    ensures ParseFrom(data, |data|) == Parsed([], |data|, false)
  {
  }

  /** Tags whose values are all short enough come back. */
  lemma ShortTagsComeBack(tags: seq<EmvTag>)
    requires AllWellFormed(tags) && forall k :: 0 <= k < |tags| ==> Size(tags[k]) < 0x1_0000
    requires |RawAll(ItemsFor(tags))| <= MAX_DATA
    ensures Parsing(ToHex(RawAll(ItemsFor(tags)), Lower)) == Tags(Counted(tags))
  {
    hide ToHex, FromHex, RawAll, TagOk, ItemOk, WellFormed, Size, ParseFrom, ReadItem, TagsOf, Counted;
    var items := ItemsFor(tags);
    var data := RawAll(items);
    HexRoundTrip(data, Lower);
    forall k | 0 <= k < |items|
      ensures ItemOk(items[k])
    {
      ItemForOk(tags[k]);
    }
    assert data[0..0 + |data|] == data;
    ParseItems(data, 0, items);
    NothingAtEnd(data);
    assert items + [] == items;
    TagsOfItemsFor(tags);
  }

  lemma SplitAt(items: seq<Item>, k: nat)
    requires k < |items|
    ensures var data, pos := RawAll(items), |RawAll(items[..k])|;
            && pos + |Raw(items[k])| <= |data|
            && data[..pos] == RawAll(items[..k]) && data[pos..pos + |Raw(items[k])|] == Raw(items[k])
  {
    hide RawAll, Raw;
    assert items == items[..k] + ([items[k]] + items[k + 1..]);
    RawAllConcat(items[..k], [items[k]] + items[k + 1..]);
    RawAllConcat([items[k]], items[k + 1..]);
    RawAllSnoc([], items[k]);
    NoItems([]);
    assert [] + [items[k]] == [items[k]];
    Pieces(RawAll(items[..k]), Raw(items[k]), RawAll(items[k + 1..]));
  }

  lemma CutRead(data: Bytes, pos: nat, item: Item, length: nat)
    requires pos + |Raw(item)| <= |data| <= MAX_DATA && length <= |item.value|
    requires HeaderAt(data, pos) == Header(item.tag, item.lengthField, length)
    ensures var r := ReadItem(data, pos); r.Got? && |r.item.value| == length
  {
    hide HeaderAt;
    WrapSmall(pos + |item.tag| + |item.lengthField| + length);
  }

  /** A value of 65536 bytes or more is read with its length cut to 16 bits, whatever follows it. */
  lemma LongTagIsCut(tags: seq<EmvTag>, k: nat)
    requires AllWellFormed(tags)
    requires k < |tags| && Size(tags[k]) >= 0x1_0000 && forall j :: 0 <= j < k ==> Size(tags[j]) < 0x1_0000
    requires |RawAll(ItemsFor(tags))| <= MAX_DATA
    ensures var items := ParseFrom(RawAll(ItemsFor(tags)), 0).items;
            && |items| > k
            && |items[k].value| == Size(tags[k]) % 0x1_0000
            && forall j :: 0 <= j < k ==> items[j] == ItemsFor(tags)[j]
  {
    hide ToHex, FromHex, RawAll, TagOk, ItemOk, WellFormed, Size, ParseFrom, LengthOf, HeaderAt, Raw;
    var items := ItemsFor(tags);
    var data := RawAll(items);
    var before, item, behind := items[..k], items[k], items[k + 1..];
    var pos := |RawAll(before)|;
    SplitAt(items, k);
    forall j | 0 <= j < k
      ensures ItemOk(before[j])
    {
      ItemForOk(tags[j]);
    }
    assert data[0..0 + pos] == RawAll(before);
    ParseItems(data, 0, before);
    ItemForOk(tags[k]);
    HeaderOfItem(data, pos, item);
    CutRead(data, pos, item, Size(tags[k]) % 0x1_0000);
    ParseStep(data, pos);
  }

  lemma {:induction false} FirstLong(tags: seq<EmvTag>, n: nat) returns (k: nat)
    requires n < |tags| && AllClean(tags) && Size(tags[n]) >= 0x1_0000
    ensures k < |tags| && Size(tags[k]) >= 0x1_0000 && forall j :: 0 <= j < k ==> Size(tags[j]) < 0x1_0000
  {
    hide Size;
    if j: nat :| j < n && Size(tags[j]) >= 0x1_0000 {
      k := FirstLong(tags, j);
    } else {
      k := n;
    }
  }

  /**
   Well-formed tags come back from the text built for them, in order and with the right lengths,
   exactly when every value is shorter than 65536 bytes.
   */
  lemma TagsRoundTripIff(tags: seq<EmvTag>)
    requires AllWellFormed(tags)
    requires |RawAll(ItemsFor(tags))| <= MAX_DATA
    ensures Parsing(ToHex(RawAll(ItemsFor(tags)), Lower)) == Tags(Counted(tags)) <==>
            forall k :: 0 <= k < |tags| ==> Size(tags[k]) < 0x1_0000
  {
    hide ToHex, FromHex, RawAll, TagOk, ItemsFor, Size, ParseFrom;
    if forall k :: 0 <= k < |tags| ==> Size(tags[k]) < 0x1_0000 {
      ShortTagsComeBack(tags);
    } else {
      var n: nat :| n < |tags| && Size(tags[n]) >= 0x1_0000;
      var k := FirstLong(tags, n);
      var data := RawAll(ItemsFor(tags));
      LongTagIsCut(tags, k);
      HexRoundTrip(data, Lower);
      assert TagsOf(ParseFrom(data, 0).items)[k].length != Counted(tags)[k].length;
    }
  }
}
