// Text, numbers and frames in terms of their bytes (src/resp.rs,
// src/server/mod.rs and the standard library they use).
module TextLaws {
  import opened Wrappers
  import opened ByteStrings
  import opened Resp
  import opened Request

  // --- Decimal numbers ----------------------------------------------------------

  function PowerOfTen(n: nat): nat {
    if n == 0 then 1 else 10 * PowerOfTen(n - 1)
  }

  lemma TenTimes(a: nat, p: nat)
    ensures a * (10 * p) == (a * p) * 10
  {
  }

  /** Decimal notation: the ten digits, and places that count tenfold. */
  lemma {:induction false} Places(a: Bytes, b: Bytes)
    requires AllDigits(a) && AllDigits(b)
    ensures AllDigits(a + b) && DigitsValue(a + b) == DigitsValue(a) * PowerOfTen(|b|) + DigitsValue(b)
  {
    if b == [] {
      assert a + b == a;
    } else {
      var n := |b| - 1;
      assert (a + b)[..|a + b| - 1] == a + b[..n];
      Places(a, b[..n]);
      TenTimes(DigitsValue(a), PowerOfTen(n));
      assert (a + b)[|a + b| - 1] == b[n];
    }
  }

  lemma TheDigits()
    ensures forall d :: 0 <= d < 10 ==>
              AllDigits(["0123456789"[d]]) && DigitsValue(["0123456789"[d]]) == d
  {
    forall d | 0 <= d < 10 ensures AllDigits(["0123456789"[d]]) && DigitsValue(["0123456789"[d]]) == d {
      var s := ["0123456789"[d]];
      assert s[..0] == [];
    }
  }

  /** Signed numbers: a minus negates, a plus is allowed; unsigned ones take no
      minus. Both are bounded by their width. */
  lemma Signs(digits: Bytes)
    requires digits != [] && AllDigits(digits)
    ensures var n := DigitsValue(digits);
            && ParseI64(digits) == ParseI64("+" + digits) == (if n <= 9223372036854775807 then Some(n) else None)
            && ParseI64("-" + digits) == (if n <= 9223372036854775808 then Some(-(n as int)) else None)
            && ParseU64(digits) == ParseU64("+" + digits) == (if n <= 18446744073709551615 then Some(n) else None)
            && ParseU64("-" + digits) == None
  {
    assert ("+" + digits)[1..] == digits && ("-" + digits)[1..] == digits;
    assert IsDigit(digits[0]) && !IsDigit('-') && ("-" + digits)[0] == '-';
  }

  /** Nothing else is a number. */
  lemma OnlyNumbers(s: Bytes)
    ensures ParseI64(s) != None ==>
              exists digits :: digits != [] && AllDigits(digits) && s in {digits, "+" + digits, "-" + digits}
    ensures ParseU64(s) != None ==>
              exists digits :: digits != [] && AllDigits(digits) && s in {digits, "+" + digits}
  {
    if s != [] {
      assert s == [s[0]] + s[1..];
      assert s[0] == '-' ==> s == "-" + s[1..];
      assert s[0] == '+' ==> s == "+" + s[1..];
    }
  }

  // --- Case and white space -------------------------------------------------------

  const SMALL: Bytes := "abcdefghijklmnopqrstuvwxyz"
  const CAPITAL: Bytes := "ABCDEFGHIJKLMNOPQRSTUVWXYZ"

  /** The letters change case in the order of the alphabet. */
  lemma LetterCase(s: Bytes, i: nat, k: nat)
    requires i < |s| && k < 26 && (s[i] == SMALL[k] || s[i] == CAPITAL[k])
    ensures Upper(s)[i] == CAPITAL[k] && Lower(s)[i] == SMALL[k]
  {
  }

  /** Nothing else has case. */
  lemma OnlyLetters(s: Bytes, i: nat)
    requires i < |s| && (Upper(s)[i] != s[i] || Lower(s)[i] != s[i])
    ensures exists k :: 0 <= k < 26 && (s[i] == SMALL[k] || s[i] == CAPITAL[k])
  {
    LettersInOrder();
    if Upper(s)[i] != s[i] {
      assert SMALL[s[i] as int - 'a' as int] == s[i];
    } else {
      assert CAPITAL[s[i] as int - 'A' as int] == s[i];
    }
  }

  lemma LettersInOrder()
    ensures forall k :: 0 <= k < 26 ==> SMALL[k] as int == 'a' as int + k && CAPITAL[k] as int == 'A' as int + k
  {
  }

  lemma TheSpaces(c: char)
    ensures IsSpace(c) <==> c as int in {9, 10, 11, 12, 13, 32}
  {
  }

  /** An empty line has no words, and space in front does not count. */
  lemma SplitSpaced(c: char, s: Bytes)
    requires IsSpace(c)
    ensures SplitSpaces("") == []
    ensures SplitSpaces([c] + s) == SplitSpaces(s)
  {
    assert ([c] + s)[1..] == s;
  }

  /** A word ends at the next space or at the end of the line. */
  lemma SplitWord(word: Bytes, c: char, s: Bytes)
    requires word != [] && (forall x <- word :: !IsSpace(x)) && IsSpace(c)
    ensures SplitSpaces(word) == [word]
    ensures SplitSpaces(word + [c] + s) == [word] + SplitSpaces(s)
  {
    var all := word + [c] + s;
    SplitSkips(all, |word|, []);
    assert all[|word|..] == [c] + s && [] + all[..|word|] == word;
    assert ([c] + s)[1..] == s;
    SplitSkips(word, |word|, []);
    assert word[|word|..] == [] && [] + word[..|word|] == word;
  }

  /** A line that does not begin with a star is split into words; the line break
      and the space before it do not count. */
  lemma InlineRequest(line: Bytes, gap: Bytes, rest: Bytes)
    requires line != [] && line[0] != '*' && !IsSpace(line[|line| - 1]) && (forall c <- line :: c != '\n')
    requires (forall c <- gap :: IsSpace(c) && c != '\n') && ValidUtf8(line + gap + "\n")
    ensures ReadRequest(line + gap + "\n" + rest) == Tokens(SplitSpaces(line), rest)
  {
    hide ValidUtf8, SplitSpaces, ReadBulks;
    var text := line + gap;
    forall i | 0 <= i < |text| ensures text[i] != '\n' {
      assert text[i] in line || text[i] in gap;
    }
    LineEnds(text, rest);
    var b := text + "\n" + rest;
    assert b[..|text| + 1] == text + "\n" && b[|text| + 1..] == rest;
    assert line + gap + "\n" == line + (gap + "\n");
    TrimGap(line, gap + "\n");
  }

  lemma {:induction false} TrimGap(line: Bytes, gap: Bytes)
    requires line != [] && !IsSpace(line[|line| - 1]) && forall c <- gap :: IsSpace(c)
    ensures TrimEnd(line + gap) == line
  {
    if gap == [] {
      assert line + gap == line;
    } else {
      var n := |gap| - 1;
      assert (line + gap)[..|line + gap| - 1] == line + gap[..n];
      TrimGap(line, gap[..n]);
    }
  }

  /** A request is read if its texts are and there are not too many, and none is
      too long. */
  lemma RequestLimits(tokens: seq<Bytes>, rest: Bytes)
    requires forall t <- tokens :: ValidUtf8(t)
    ensures ReadRequest(Array(tokens) + rest) == Tokens(tokens, rest) <==>
            |tokens| <= 1048576 && forall t <- tokens :: |t| <= 536870912
  {
    hide ReadRequest, Array, ValidUtf8;
    RequestRoundTrip(tokens, rest);
    assert forall i :: 0 <= i < |tokens| ==> tokens[i] in tokens;
  }

  // --- Frames ---------------------------------------------------------------------

  /** The frames of RESP2, byte for byte. */
  lemma LineFrames(text: Bytes)
    requires OneLine(text)
    ensures Encode(SimpleReply(text)) == "+" + text + "\r\n"
    ensures Encode(ErrorReply(text)) == "-" + text + "\r\n"
    ensures Encode(IntegerReply(-1)) == ":-1\r\n" && Encode(NullReply) == "$-1\r\n"
  {
  }

  /** A bulk string is preceded by its length in decimal, without leading zeros. */
  lemma BulkFrames(data: Bytes) returns (length: Bytes)
    ensures length != [] && AllDigits(length) && DigitsValue(length) == |data|
    ensures length[0] == '0' ==> length == "0"
    ensures Encode(BulkReply(data)) == "$" + length + "\r\n" + data + "\r\n"
  {
    length := Digits(|data|);
    DigitsRoundTrip(|data|);
    assert Digits(0) == "0";
  }

  lemma ArrayFrames(a: Reply, b: Reply)
    ensures Encode(ArrayReply([])) == "*0\r\n"
    ensures Encode(ArrayReply([a, b])) == "*2\r\n" + Encode(a) + Encode(b)
  {
    EncodeTwo(a, b);
    assert Header(2) == "*2\r\n" && Header(0) == "*0\r\n";
    assert "*2\r\n" + (Encode(a) + Encode(b)) == "*2\r\n" + Encode(a) + Encode(b);
    assert Encode(ArrayReply([])) == "*0\r\n" + [];
  }

  lemma EncodeTwo(a: Reply, b: Reply)
    ensures EncodeAll([a, b]) == Encode(a) + Encode(b)
  {
    hide Encode;
    assert [a, b][1..] == [b] && [b][1..] == [];
    assert EncodeAll([b]) == Encode(b) + EncodeAll([]);
  }
}
