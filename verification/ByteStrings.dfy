// Byte strings and the text conversions the program takes from its standard
// library: decimal integers, ASCII case, ASCII whitespace and UTF-8 validity.
//
// A byte is written as the char with that code, so that wire text can be given
// as string literals. `ValidUtf8` rejects any char above 0xFF. A statement that
// holds of all strings holds of byte strings; where one says that something does
// not hold of all strings, it is bounded by `AllBytes`.
module ByteStrings {
  import opened Wrappers

  type Bytes = seq<char>

  const I64_MIN: int := -0x8000_0000_0000_0000
  const I64_MAX: int := 0x7FFF_FFFF_FFFF_FFFF
  const U64_MAX: int := 0xFFFF_FFFF_FFFF_FFFF

  type i64 = x: int | I64_MIN <= x <= I64_MAX
  type u64 = x: int | 0 <= x <= U64_MAX

  predicate InI64(x: int) {
    I64_MIN <= x <= I64_MAX
  }

  // --- Decimal integers -------------------------------------------------

  predicate IsDigit(c: char) {
    '0' <= c <= '9'
  }

  predicate AllDigits(s: Bytes) {
    forall i :: 0 <= i < |s| ==> IsDigit(s[i])
  }

  function DigitChar(d: nat): (c: char)
    requires d < 10
    ensures IsDigit(c) && DigitValue(c) == d
  {
    (d + '0' as int) as char
  }

  function DigitValue(c: char): (d: nat)
    requires IsDigit(c)
    ensures d < 10
  {
    c as int - '0' as int
  }

  /** The decimal digits of n, most significant first, without leading zeros. */
  function Digits(n: nat): (s: Bytes)
    ensures |s| > 0 && AllDigits(s)
    ensures n != 0 ==> s[0] != '0'
  {
    if n < 10 then [DigitChar(n)] else Digits(n / 10) + [DigitChar(n % 10)]
  }

  function DigitsValue(s: Bytes): nat
    requires AllDigits(s)
  {
    if s == [] then 0
    else DigitsValue(s[..|s| - 1]) * 10 + DigitValue(s[|s| - 1])
  }

  function PrintInt(n: int): (s: Bytes)
    ensures |s| > 0 && forall i :: 0 <= i < |s| ==> IsDigit(s[i]) || s[i] == '-'
  {
    if n < 0 then "-" + Digits(-n) else Digits(n)
  }

  function ParseDigits(s: Bytes): Option<nat> {
    if s != [] && AllDigits(s) then Some(DigitsValue(s)) else None
  }

  /** Integer parsing with an optional sign and no bound on the value. */
  function ParseInt(s: Bytes): Option<int> {
    var negative := s != [] && s[0] == '-';
    var digits := if negative || (s != [] && s[0] == '+') then s[1..] else s;
    match ParseDigits(digits)
    case Some(n) => Some(if negative then -(n as int) else n as int)
    case None => None
  }

  /** `str::parse::<i64>`. */
  function ParseI64(s: Bytes): Option<i64> {
    match ParseInt(s)
    case Some(n) => if InI64(n) then Some(n) else None
    case None => None
  }

  /** `str::parse::<u64>` (and `usize`): a plus sign is accepted, a minus is not. */
  function ParseU64(s: Bytes): Option<u64> {
    var digits := if s != [] && s[0] == '+' then s[1..] else s;
    match ParseDigits(digits)
    case Some(n) => if n <= U64_MAX then Some(n) else None
    case None => None
  }

  lemma {:induction false} DigitsRoundTrip(n: nat)
    ensures DigitsValue(Digits(n)) == n
  {
    if n < 10 {
      assert Digits(n)[..0] == [];
    } else {
      DigitsRoundTrip(n / 10);
      assert Digits(n)[..|Digits(n)| - 1] == Digits(n / 10);
    }
  }

  /** Printing then parsing an integer gives it back, for every value of the width. */
  lemma PrintParse(n: int)
    ensures ParseInt(PrintInt(n)) == Some(n)
    ensures InI64(n) ==> ParseI64(PrintInt(n)) == Some(n)
    ensures 0 <= n <= U64_MAX ==> ParseU64(PrintInt(n)) == Some(n)
  {
    if n < 0 {
      DigitsRoundTrip(-n);
      assert PrintInt(n)[1..] == Digits(-n);
    } else {
      DigitsRoundTrip(n);
      assert IsDigit(Digits(n)[0]);
    }
  }

  /** Every non-empty prefix of a positive numeral is a positive numeral no larger than it. */
  lemma {:induction false} DigitsPrefix(n: nat, k: nat)
    requires n > 0 && 0 < k <= |Digits(n)|
    ensures AllDigits(Digits(n)[..k]) && 0 < DigitsValue(Digits(n)[..k]) <= n
  {
    var s := Digits(n);
    DigitsRoundTrip(n);
    if k == |s| {
      assert s[..k] == s;
    } else {
      assert n >= 10;
      DigitsPrefix(n / 10, k);
      assert s[..k] == Digits(n / 10)[..k];
    }
  }

  // --- ASCII case and whitespace ----------------------------------------

  function UpperChar(c: char): char {
    if 'a' <= c <= 'z' then (c as int - 32) as char else c
  }

  function LowerChar(c: char): char {
    if 'A' <= c <= 'Z' then (c as int + 32) as char else c
  }

  function Upper(s: Bytes): (r: Bytes)
    ensures |r| == |s|
  {
    seq(|s|, i requires 0 <= i < |s| => UpperChar(s[i]))
  }

  function Lower(s: Bytes): (r: Bytes)
    ensures |r| == |s|
  {
    seq(|s|, i requires 0 <= i < |s| => LowerChar(s[i]))
  }

  predicate EqIgnoreCase(a: Bytes, b: Bytes) {
    Upper(a) == Upper(b)
  }

  predicate IsSpace(c: char) {
    c == ' ' || '\t' <= c <= '\r'
  }

  function TrimEnd(s: Bytes): (r: Bytes)
    ensures r <= s
    ensures r != [] ==> !IsSpace(r[|r| - 1])
  {
    if s != [] && IsSpace(s[|s| - 1]) then TrimEnd(s[..|s| - 1]) else s
  }

  /** The maximal runs of non-space bytes, in order. `word` is the run being read. */
  function SplitSpaces(s: Bytes, word: Bytes := []): (r: seq<Bytes>)
    decreases |s|
  {
    if s == [] then
      if word == [] then [] else [word]
    else if IsSpace(s[0]) then
      (if word == [] then [] else [word]) + SplitSpaces(s[1..], [])
    else
      SplitSpaces(s[1..], word + [s[0]])
  }

  predicate IsByte(c: char) {
    c as int <= 0xFF
  }

  predicate AllBytes(s: Bytes) {
    forall i :: 0 <= i < |s| ==> IsByte(s[i])
  }

  // --- UTF-8 --------------------------------------------------------------

  predicate Within(c: char, lo: int, hi: int) {
    lo <= c as int <= hi
  }

  predicate Continuation(s: Bytes, i: nat) {
    i < |s| && Within(s[i], 0x80, 0xBF)
  }

  /** Length of the well-formed UTF-8 sequence at the front of s, 0 if there is
      none (table 3-7 of the Unicode standard). */
  function ScalarLength(s: Bytes): (n: nat)
    requires s != []
    ensures n <= |s|
  {
    var c := s[0];
    if Within(c, 0, 0x7F) then 1
    else if |s| < 2 then 0
    else if Within(c, 0xC2, 0xDF) && Continuation(s, 1) then 2
    else if Continuation(s, 1) && Continuation(s, 2) && (
         || (Within(c, 0xE0, 0xE0) && Within(s[1], 0xA0, 0xBF))
         || Within(c, 0xE1, 0xEC)
         || (Within(c, 0xED, 0xED) && Within(s[1], 0x80, 0x9F))
         || Within(c, 0xEE, 0xEF)) then 3
    else if Continuation(s, 1) && Continuation(s, 2) && Continuation(s, 3) && (
         || (Within(c, 0xF0, 0xF0) && Within(s[1], 0x90, 0xBF))
         || Within(c, 0xF1, 0xF3)
         || (Within(c, 0xF4, 0xF4) && Within(s[1], 0x80, 0x8F))) then 4
    else 0
  }

  predicate ValidUtf8(s: Bytes)
    decreases |s|
  {
    s == [] || (ScalarLength(s) > 0 && ValidUtf8(s[ScalarLength(s)..]))
  }

  predicate Ascii(s: Bytes) {
    forall i :: 0 <= i < |s| ==> Within(s[i], 0, 0x7F)
  }

  lemma {:induction false} AsciiIsUtf8(s: Bytes)
    requires Ascii(s)
    ensures ValidUtf8(s)
  {
    if s != [] {
      assert Within(s[0], 0, 0x7F);
      AsciiIsUtf8(s[1..]);
    }
  }

  /** The first scalar stands on its own, whatever follows it. */
  lemma ScalarAlone(s: Bytes, rest: Bytes)
    requires s != [] && ScalarLength(s) > 0
    ensures ScalarLength(s + rest) == ScalarLength(s)
    ensures ValidUtf8(s[..ScalarLength(s)])
  {
    var scalar := s[..ScalarLength(s)];
    assert ScalarLength(scalar) == |scalar| && scalar[|scalar|..] == [];
  }

  lemma {:induction false} Utf8Append(a: Bytes, b: Bytes)
    requires ValidUtf8(a) && ValidUtf8(b)
    ensures ValidUtf8(a + b)
    decreases |a|
  {
    hide ScalarLength;
    if a == [] {
      assert a + b == b;
    } else {
      var n := ScalarLength(a);
      ScalarAlone(a, b);
      assert (a + b)[n..] == a[n..] + b;
      Utf8Append(a[n..], b);
    }
  }

  /** Dropping a final white space keeps text text. */
  lemma {:induction false} Utf8DropSpace(s: Bytes, c: char)
    requires IsSpace(c) && ValidUtf8(s + [c])
    ensures ValidUtf8(s)
    decreases |s|
  {
    if s != [] {
      var n := ScalarLength(s + [c]);
      assert n <= |s| && ScalarLength(s) == n by { ScalarBeforeSpace(s, c); }
      assert (s + [c])[n..] == s[n..] + [c];
      Utf8DropSpace(s[n..], c);
    }
  }

  lemma ScalarBeforeSpace(s: Bytes, c: char)
    requires s != [] && IsSpace(c) && ScalarLength(s + [c]) > 0
    ensures ScalarLength(s + [c]) == ScalarLength(s) <= |s|
  {
    assert forall i :: 0 <= i < |s| ==> (s + [c])[i] == s[i];
  }

  lemma {:induction false} TrimUtf8(s: Bytes)
    requires ValidUtf8(s)
    ensures ValidUtf8(TrimEnd(s))
  {
    hide ValidUtf8, IsSpace;
    if s != [] && IsSpace(s[|s| - 1]) {
      assert s == s[..|s| - 1] + [s[|s| - 1]];
      Utf8DropSpace(s[..|s| - 1], s[|s| - 1]);
      TrimUtf8(s[..|s| - 1]);
    }
  }

  lemma {:induction false} SplitSkips(s: Bytes, n: nat, word: Bytes)
    requires n <= |s| && forall i :: 0 <= i < n ==> !IsSpace(s[i])
    ensures SplitSpaces(s, word) == SplitSpaces(s[n..], word + s[..n])
    decreases n
  {
    if n == 0 {
      assert word + s[..0] == word && s[0..] == s;
    } else {
      SplitSkips(s[1..], n - 1, word + [s[0]]);
      assert s[1..][n - 1..] == s[n..] && word + [s[0]] + s[1..][..n - 1] == word + s[..n];
    }
  }

  lemma ScalarOfSpace(s: Bytes)
    requires s != [] && ScalarLength(s) > 0
    ensures IsSpace(s[0]) ==> ScalarLength(s) == 1
    ensures !IsSpace(s[0]) ==> forall i :: 0 <= i < ScalarLength(s) ==> !IsSpace(s[i])
  {
  }

  /** Splitting text at white space gives text. */
  lemma {:induction false} SplitUtf8(s: Bytes, word: Bytes)
    requires ValidUtf8(s) && ValidUtf8(word)
    ensures forall part <- SplitSpaces(s, word) :: ValidUtf8(part)
    decreases |s|
  {
    hide ScalarLength, IsSpace;
    if s != [] {
      var n := ScalarLength(s);
      ScalarOfSpace(s);
      if IsSpace(s[0]) {
        SplitUtf8(s[1..], []);
      } else {
        ScalarAlone(s, []);
        Utf8Append(word, s[..n]);
        SplitSkips(s, n, word);
        SplitUtf8(s[n..], word + s[..n]);
      }
    }
  }
}
