/** Values shared by the modules: optional values, bytes, big-endian integers and hexadecimal text. */
module Base {

  datatype Option<+T> = None | Some(value: T) {
    function GetOr(default: T): T {
      if Some? then value else default
    }
  }

  type Byte = x: int | 0 <= x < 256

  type Bytes = seq<Byte>

  /** A 16-bit length as two big-endian bytes. */
  function Be16(n: nat): (b: Bytes)
    requires n < 0x1_0000
    ensures |b| == 2
  {
    [n / 256, n % 256]
  }

  function FromBe16(b: Bytes): nat
    requires |b| == 2
  {
    b[0] as int * 256 + b[1]
  }

  /** A 32-bit number as four big-endian bytes. */
  function Be32(n: nat): (b: Bytes)
    requires n < 0x1_0000_0000
    ensures |b| == 4
  {
    [n / 0x100_0000, n / 0x1_0000 % 256, n / 256 % 256, n % 256]
  }

  function FromBe32(b: Bytes): nat
    requires |b| == 4
  {
    ((b[0] as int * 256 + b[1]) * 256 + b[2]) * 256 + b[3]
  }

  lemma Be16RoundTrip(n: nat)
    requires n < 0x1_0000
    ensures FromBe16(Be16(n)) == n
  {
  }

  lemma Be32RoundTrip(n: nat)
    requires n < 0x1_0000_0000
    ensures FromBe32(Be32(n)) == n
  {
    assert n / 0x1_0000 == n / 0x100_0000 * 256 + n / 0x1_0000 % 256;
    assert n / 256 == n / 0x1_0000 * 256 + n / 256 % 256;
  }

  // ----- remainders -----

  lemma Multiple(d: int, size: nat)
    ensures d >= 1 ==> d * size >= size
    ensures d <= -1 ==> d * size <= -(size as int)
  {
  }

  lemma RemainderUnique(n: int, q: int, r: nat, size: nat)
    requires r < size && n == q * size + r
    ensures n % size == r && n / size == q
  {
    var d := n / size;
    assert (q - d) * size == n % size - r;
    Multiple(q - d, size);
  }

  lemma NextQuotient(k: nat, size: nat)
    requires size > 0
    ensures (k + 1) % size == if k % size + 1 == size then 0 else k % size + 1
    ensures (k + 1) / size == if k % size + 1 == size then k / size + 1 else k / size
  {
    var q, r := k / size, k % size;
    assert k == q * size + r;
    if r + 1 < size {
      RemainderUnique(k + 1, q, r + 1, size);
    } else {
      assert (q + 1) * size == q * size + size;
      RemainderUnique(k + 1, q + 1, 0, size);
    }
  }

  // ----- hexadecimal text -----

  datatype Case = Lower | Upper

  /** The value of a hexadecimal digit of either case. */
  function DigitValue(c: char): (v: Option<nat>)
    ensures v.Some? ==> v.value < 16
  {
    if '0' <= c <= '9' then Some(c as int - '0' as int)
    else if 'a' <= c <= 'f' then Some(c as int - 'a' as int + 10)
    else if 'A' <= c <= 'F' then Some(c as int - 'A' as int + 10)
    else None
  }

  /** The hexadecimal digit of a value below 16. */
  function Digit(v: nat, letters: Case): (c: char)
    requires v < 16
    ensures DigitValue(c) == Some(v)
  {
    if v < 10 then v as char + '0' else (v - 10) as char + if letters.Upper? then 'A' else 'a'
  }

  lemma DigitTable(v: nat)
    requires v < 16
    ensures Digit(v, Upper) == "0123456789ABCDEF"[v] && Digit(v, Lower) == "0123456789abcdef"[v]
  {
  }

  lemma DigitsOfBothCases(c: char)
    ensures DigitValue(c).Some? <==> c in "0123456789abcdefABCDEF"
  {
    if v: nat :| DigitValue(c) == Some(v) {
      DigitTable(v);
      assert c == Digit(v, Upper) || c == Digit(v, Lower);
    }
  }

  /** Two hexadecimal digits a byte, high digit first. */
  function ToHex(b: Bytes, letters: Case): (s: string)
    ensures |s| == 2 * |b|
  {
    if b == [] then "" else [Digit(b[0] / 16, letters), Digit(b[0] % 16, letters)] + ToHex(b[1..], letters)
  }

  /** Go's `hex.DecodeString`: both cases are accepted, an odd length or another character is an error. */
  function FromHex(s: string): (r: Option<Bytes>)
    ensures r.Some? ==> 2 * |r.value| == |s|
  {
    if s == "" then Some([])
    else if |s| == 1 then None
    else
      var hi, lo, rest := DigitValue(s[0]), DigitValue(s[1]), FromHex(s[2..]);
      if hi.Some? && lo.Some? && rest.Some? then Some([hi.value * 16 + lo.value] + rest.value) else None
  }

  lemma {:induction false} HexRoundTrip(b: Bytes, letters: Case)
    ensures FromHex(ToHex(b, letters)) == Some(b)
  {
    if b == [] {
    } else {
      var s := ToHex(b, letters);
      assert s[2..] == ToHex(b[1..], letters);
      HexRoundTrip(b[1..], letters);
      assert b == [b[0]] + b[1..];
    }
  }

  /** The digits of the i-th byte. */
  lemma {:induction false} ToHexAt(b: Bytes, letters: Case, i: nat)
    requires i < |b|
    ensures ToHex(b, letters)[2 * i] == Digit(b[i] / 16, letters) && ToHex(b, letters)[2 * i + 1] == Digit(b[i] % 16, letters)
  {
    hide Digit;
    if i == 0 {
    } else {
      ToHexAt(b[1..], letters, i - 1);
    }
  }

  /** Text is decoded exactly when it is pairs of digits. */
  lemma {:induction false} FromHexIff(s: string)
    ensures FromHex(s).Some? <==> |s| % 2 == 0 && forall i :: 0 <= i < |s| ==> DigitValue(s[i]).Some?
  {
    hide DigitValue;
    if |s| >= 2 {
      FromHexIff(s[2..]);
      assert forall i :: 2 <= i < |s| ==> s[i] == s[2..][i - 2];
    }
  }

  lemma {:induction false} HexConcat(a: Bytes, b: Bytes, letters: Case)
    ensures ToHex(a + b, letters) == ToHex(a, letters) + ToHex(b, letters)
  {
    if a == [] {
      assert a + b == b;
    } else {
      assert (a + b)[1..] == a[1..] + b;
      HexConcat(a[1..], b, letters);
    }
  }
}
