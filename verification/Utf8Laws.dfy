// Which byte strings are text: exactly the UTF-8 encodings of lists of Unicode
// scalar values.
module Utf8Laws {
  import opened ByteStrings

  predicate IsScalar(n: nat) {
    n <= 0x10FFFF && !(0xD800 <= n <= 0xDFFF)
  }

  /** The encoding of one scalar value, six bits to a continuation byte. */
  function EncodeScalar(n: nat): (s: Bytes)
    requires IsScalar(n)
    ensures s != []
  {
    if n < 0x80 then [n as char]
    else if n < 0x800 then [(0xC0 + n / 0x40) as char, (0x80 + n % 0x40) as char]
    else if n < 0x10000 then
      [(0xE0 + n / 0x1000) as char, (0x80 + n / 0x40 % 0x40) as char, (0x80 + n % 0x40) as char]
    else
      [(0xF0 + n / 0x40000) as char, (0x80 + n / 0x1000 % 0x40) as char,
       (0x80 + n / 0x40 % 0x40) as char, (0x80 + n % 0x40) as char]
  }

  function EncodeText(scalars: seq<nat>): Bytes
    requires forall n <- scalars :: IsScalar(n)
  {
    if scalars == [] then [] else EncodeScalar(scalars[0]) + EncodeText(scalars[1..])
  }

  lemma ShortEncoded(n: nat, rest: Bytes)
    requires n < 0x800
    ensures ScalarLength(EncodeScalar(n) + rest) == |EncodeScalar(n)|
  {
  }

  lemma MiddleEncoded(n: nat, rest: Bytes)
    requires IsScalar(n) && 0x800 <= n < 0x10000
    ensures ScalarLength(EncodeScalar(n) + rest) == |EncodeScalar(n)|
  {
    assert n / 0x1000 == 0 ==> n / 0x40 % 0x40 >= 0x20;
    assert n / 0x1000 == 0xD ==> n / 0x40 % 0x40 <= 0x1F;
  }

  lemma LongEncoded(n: nat, rest: Bytes)
    requires IsScalar(n) && 0x10000 <= n
    ensures ScalarLength(EncodeScalar(n) + rest) == |EncodeScalar(n)|
  {
    assert n / 0x40000 == 0 ==> n / 0x1000 % 0x40 >= 0x10;
    assert n / 0x40000 == 4 ==> n / 0x1000 % 0x40 <= 0xF;
  }

  lemma ScalarEncoded(n: nat, rest: Bytes)
    requires IsScalar(n)
    ensures ScalarLength(EncodeScalar(n) + rest) == |EncodeScalar(n)|
  {
    hide EncodeScalar, ScalarLength;
    if n < 0x800 {
      ShortEncoded(n, rest);
    } else if n < 0x10000 {
      MiddleEncoded(n, rest);
    } else {
      LongEncoded(n, rest);
    }
  }

  // The scalar values of encodings of two, three and four bytes.

  lemma TwoBytes(c: nat, d: nat) returns (n: nat)
    requires 0xC2 <= c <= 0xDF && 0x80 <= d <= 0xBF
    ensures IsScalar(n) && EncodeScalar(n) == [c as char, d as char]
  {
    n := (c - 0xC0) * 0x40 + (d - 0x80);
    assert n / 0x40 == c - 0xC0 && n % 0x40 == d - 0x80;
  }

  lemma ThreeBytes(c: nat, d: nat, e: nat) returns (n: nat)
    requires 0xE0 <= c <= 0xEF && 0x80 <= d <= 0xBF && 0x80 <= e <= 0xBF
    requires (c == 0xE0 ==> d >= 0xA0) && (c == 0xED ==> d <= 0x9F)
    ensures IsScalar(n) && EncodeScalar(n) == [c as char, d as char, e as char]
  {
    var high := (c - 0xE0) * 0x40 + (d - 0x80);
    n := high * 0x40 + (e - 0x80);
    assert n / 0x40 == high && n % 0x40 == e - 0x80;
    assert high / 0x40 == c - 0xE0 && high % 0x40 == d - 0x80;
    assert n / 0x1000 == c - 0xE0;
  }

  lemma FourBytes(c: nat, d: nat, e: nat, f: nat) returns (n: nat)
    requires 0xF0 <= c <= 0xF4 && 0x80 <= d <= 0xBF && 0x80 <= e <= 0xBF && 0x80 <= f <= 0xBF
    requires (c == 0xF0 ==> d >= 0x90) && (c == 0xF4 ==> d <= 0x8F)
    ensures IsScalar(n) && EncodeScalar(n) == [c as char, d as char, e as char, f as char]
  {
    var top := (c - 0xF0) * 0x40 + (d - 0x80);
    var high := top * 0x40 + (e - 0x80);
    n := high * 0x40 + (f - 0x80);
    assert n / 0x40 == high && n % 0x40 == f - 0x80;
    assert high / 0x40 == top && high % 0x40 == e - 0x80;
    assert top / 0x40 == c - 0xF0 && top % 0x40 == d - 0x80;
    assert n / 0x1000 == top && n / 0x40000 == c - 0xF0;
  }

  /** The scalar value at the front of some text. */
  lemma FirstScalar(s: Bytes) returns (n: nat)
    requires s != [] && ScalarLength(s) > 0
    ensures IsScalar(n) && EncodeScalar(n) == s[..ScalarLength(s)]
  {
    hide EncodeScalar;
    var c := s[0] as int;
    var length := ScalarLength(s);
    if length == 1 {
      n := c;
      OneByte(n);
    } else if length == 2 {
      n := TwoBytes(c, s[1] as int);
    } else if length == 3 {
      n := ThreeBytes(c, s[1] as int, s[2] as int);
    } else {
      n := FourBytes(c, s[1] as int, s[2] as int, s[3] as int);
    }
  }

  lemma OneByte(n: nat)
    requires n < 0x80
    ensures IsScalar(n) && EncodeScalar(n) == [n as char]
  {
  }

  lemma {:induction false} EncodedIsText(scalars: seq<nat>)
    requires forall n <- scalars :: IsScalar(n)
    ensures ValidUtf8(EncodeText(scalars))
  {
    hide ScalarLength, EncodeScalar;
    if scalars != [] {
      var first, rest := EncodeScalar(scalars[0]), EncodeText(scalars[1..]);
      ScalarEncoded(scalars[0], rest);
      EncodedIsText(scalars[1..]);
      assert (first + rest)[|first|..] == rest;
    }
  }

  lemma {:induction false} TextIsEncoded(s: Bytes) returns (scalars: seq<nat>)
    requires ValidUtf8(s)
    ensures (forall n <- scalars :: IsScalar(n)) && EncodeText(scalars) == s
    decreases |s|
  {
    hide ScalarLength, EncodeScalar;
    if s == [] {
      scalars := [];
    } else {
      var length := ScalarLength(s);
      var rest := TextIsEncoded(s[length..]);
      var first := FirstScalar(s);
      scalars := [first] + rest;
      assert scalars[1..] == rest;
      assert s == s[..length] + s[length..];
    }
  }

  /** A byte string is text if and only if it encodes some scalar values. */
  lemma TextIff(s: Bytes)
    ensures ValidUtf8(s) <==>
            exists scalars: seq<nat> :: (forall n <- scalars :: IsScalar(n)) && EncodeText(scalars) == s
  {
    if ValidUtf8(s) {
      var scalars := TextIsEncoded(s);
    }
    if scalars: seq<nat> :| (forall n <- scalars :: IsScalar(n)) && EncodeText(scalars) == s {
      EncodedIsText(scalars);
    }
  }
}
