// RESP2 framing (src/resp.rs). The encoders follow the source; `Decode` is an
// independent reader of RESP2 values, against which the encoders are proved.
module Resp {
  import opened Wrappers
  import opened ByteStrings

  const CRLF: Bytes := "\r\n"

  // --- The encoders of the source ----------------------------------------

  function SimpleString(value: Bytes): Bytes {
    "+" + value + CRLF
  }

  function SanitizeChar(c: char): char {
    if c == '\r' || c == '\n' then ' ' else c
  }

  /** Line breaks become spaces; every other byte stays where it is. */
  function Sanitize(message: Bytes): (s: Bytes)
    ensures |s| == |message|
    ensures OneLine(s)
    ensures OneLine(message) ==> s == message
  {
    seq(|message|, i requires 0 <= i < |message| => SanitizeChar(message[i]))
  }

  function Error(message: Bytes): Bytes {
    "-" + Sanitize(message) + CRLF
  }

  function Integer(value: int): Bytes {
    ":" + PrintInt(value) + CRLF
  }

  function BulkString(value: Bytes): Bytes {
    "$" + Digits(|value|) + CRLF + value + CRLF
  }

  function Null(): Bytes {
    "$-1" + CRLF
  }

  function Header(count: nat): Bytes {
    "*" + Digits(count) + CRLF
  }

  function BulkStrings(items: seq<Bytes>): Bytes {
    if items == [] then [] else BulkString(items[0]) + BulkStrings(items[1..])
  }

  /** The encoding of a request or of a list of strings. */
  function Array(items: seq<Bytes>): Bytes {
    Header(|items|) + BulkStrings(items)
  }

  lemma {:induction false} BulkStringsAppend(items: seq<Bytes>, item: Bytes)
    ensures BulkStrings(items + [item]) == BulkStrings(items) + BulkString(item)
  {
    if items != [] {
      assert (items + [item])[1..] == items[1..] + [item];
      BulkStringsAppend(items[1..], item);
    }
  }

  /** `array`: the header, then every item appended in order. */
  method EncodeArray(items: seq<Bytes>) returns (out: Bytes)
    ensures out == Array(items)
  {
    out := Header(|items|);
    for i := 0 to |items|
      invariant out == Header(|items|) + BulkStrings(items[..i])
    {
      BulkStringsAppend(items[..i], items[i]);
      assert items[..i + 1] == items[..i] + [items[i]];
      out := out + BulkString(items[i]);
    }
    assert items[..|items|] == items;
  }

  // --- RESP2 values --------------------------------------------------------

  datatype Reply =
    | SimpleReply(text: Bytes)
    | ErrorReply(message: Bytes)
    | IntegerReply(number: int)
    | BulkReply(data: Bytes)
    | NullReply
    | ArrayReply(items: seq<Reply>)
  {
    /** No line-framed text in the value contains a line break. */
    predicate WellFormed() {
      match this
      case SimpleReply(text) => OneLine(text)
      case ErrorReply(message) => OneLine(message)
      case ArrayReply(items) => forall r <- items :: r.WellFormed()
      case _ => true
    }
  }

  predicate OneLine(s: Bytes) {
    forall i :: 0 <= i < |s| ==> s[i] != '\r' && s[i] != '\n'
  }

  /** The wire form of a value, written with the source's encoders. */
  function Encode(r: Reply): (b: Bytes)
    ensures b != []
    ensures b[0] == '-' <==> r.ErrorReply?
  {
    match r
    case SimpleReply(text) => SimpleString(text)
    case ErrorReply(message) => Error(message)
    case IntegerReply(number) => Integer(number)
    case BulkReply(data) => BulkString(data)
    case NullReply => Null()
    case ArrayReply(items) => Header(|items|) + EncodeAll(items)
  }

  function EncodeAll(rs: seq<Reply>): Bytes {
    if rs == [] then [] else Encode(rs[0]) + EncodeAll(rs[1..])
  }

  // --- An independent reader of RESP2 values -------------------------------

  /** Splits b at its first CR, which must be followed by LF. */
  function Line(b: Bytes): (r: Option<(Bytes, Bytes)>)
    ensures r.Some? ==> |r.value.1| < |b|
  {
    if b == [] || b[0] == '\n' then None
    else if b[0] == '\r' then
      if |b| > 1 && b[1] == '\n' then Some(([], b[2..])) else None
    else
      match Line(b[1..])
      case None => None
      case Some((line, rest)) => Some(([b[0]] + line, rest))
  }

  function DecodeBulk(length: Bytes, rest: Bytes): (r: Option<(Reply, Bytes)>)
    ensures r.Some? ==> |r.value.1| <= |rest|
  {
    match ParseDigits(length)
    case None => if length == "-1" then Some((NullReply, rest)) else None
    case Some(n) =>
      if n + 2 <= |rest| && rest[n..n + 2] == CRLF then Some((BulkReply(rest[..n]), rest[n + 2..]))
      else None
  }

  /** Reads one value from the front of b, returning it with the bytes left over. */
  function Decode(b: Bytes): (r: Option<(Reply, Bytes)>)
    ensures r.Some? ==> |r.value.1| < |b|
    decreases |b|, 0
  {
    match Line(b)
    case None => None
    case Some((line, rest)) =>
      if line == [] then None
      else
        match line[0]
        case '+' => Some((SimpleReply(line[1..]), rest))
        case '-' => Some((ErrorReply(line[1..]), rest))
        case ':' =>
          (match ParseInt(line[1..])
           case Some(n) => Some((IntegerReply(n), rest))
           case None => None)
        case '$' => DecodeBulk(line[1..], rest)
        case '*' =>
          (match ParseDigits(line[1..])
           case None => None
           case Some(n) =>
             match DecodeMany(n, rest)
             case None => None
             case Some((items, left)) => Some((ArrayReply(items), left)))
        case _ => None
  }

  function DecodeMany(n: nat, b: Bytes): (r: Option<(seq<Reply>, Bytes)>)
    ensures r.Some? ==> |r.value.0| == n && |r.value.1| <= |b|
    decreases |b|, 1
  {
    if n == 0 then Some(([], b))
    else
      match Decode(b)
      case None => None
      case Some((first, rest)) =>
        match DecodeMany(n - 1, rest)
        case None => None
        case Some((others, left)) => Some(([first] + others, left))
  }

  lemma {:induction false} LineOf(text: Bytes, rest: Bytes)
    requires OneLine(text)
    ensures Line(text + CRLF + rest) == Some((text, rest))
  {
    var b := text + CRLF + rest;
    if text == [] {
      assert b[2..] == rest;
    } else {
      assert b[1..] == text[1..] + CRLF + rest;
      LineOf(text[1..], rest);
      assert [b[0]] + text[1..] == text;
    }
  }

  /** The first line of a frame: its type byte and the text that follows it. */
  lemma FrameLine(tag: char, text: Bytes, rest: Bytes)
    requires OneLine([tag] + text)
    ensures Line([tag] + text + CRLF + rest) == Some(([tag] + text, rest))
    ensures ([tag] + text)[1..] == text
  {
    LineOf([tag] + text, rest);
  }

  lemma SimpleFrame(text: Bytes, rest: Bytes)
    requires OneLine(text)
    ensures Decode(SimpleString(text) + rest) == Some((SimpleReply(text), rest))
  {
    assert SimpleString(text) + rest == ['+'] + text + CRLF + rest;
    FrameLine('+', text, rest);
  }

  lemma ErrorFrame(message: Bytes, rest: Bytes)
    ensures Decode(Error(message) + rest) == Some((ErrorReply(Sanitize(message)), rest))
  {
    assert Error(message) + rest == ['-'] + Sanitize(message) + CRLF + rest;
    FrameLine('-', Sanitize(message), rest);
  }

  lemma IntegerFrame(number: int, rest: Bytes)
    ensures Decode(Integer(number) + rest) == Some((IntegerReply(number), rest))
  {
    assert Integer(number) + rest == [':'] + PrintInt(number) + CRLF + rest;
    FrameLine(':', PrintInt(number), rest);
    PrintParse(number);
  }

  lemma NullFrame(rest: Bytes)
    ensures Decode(Null() + rest) == Some((NullReply, rest))
  {
    assert Null() + rest == ['$'] + "-1" + CRLF + rest;
    FrameLine('$', "-1", rest);
    assert "-1"[0] == '-' && !AllDigits("-1");
  }

  lemma BulkFrame(data: Bytes, rest: Bytes)
    ensures Decode(BulkString(data) + rest) == Some((BulkReply(data), rest))
  {
    var tail := data + CRLF + rest;
    assert BulkString(data) + rest == ['$'] + Digits(|data|) + CRLF + tail;
    FrameLine('$', Digits(|data|), tail);
    DigitsRoundTrip(|data|);
    assert tail[|data|..|data| + 2] == CRLF;
    assert tail[..|data|] == data && tail[|data| + 2..] == rest;
  }

  lemma ArrayFrame(items: seq<Reply>, tail: Bytes, rest: Bytes)
    requires DecodeMany(|items|, tail) == Some((items, rest))
    ensures Decode(Header(|items|) + tail) == Some((ArrayReply(items), rest))
  {
    assert Header(|items|) + tail == ['*'] + Digits(|items|) + CRLF + tail;
    FrameLine('*', Digits(|items|), tail);
    DigitsRoundTrip(|items|);
  }

  /** Reading the wire form of a value gives the value and exactly the bytes
      after it, so a reply is one frame whatever follows it. */
  lemma {:induction false} DecodeEncode(r: Reply, rest: Bytes)
    requires r.WellFormed()
    ensures Decode(Encode(r) + rest) == Some((r, rest))
    decreases r, 0
  {
    match r
    case SimpleReply(text) => SimpleFrame(text, rest);
    case ErrorReply(message) => ErrorFrame(message, rest);
    case IntegerReply(number) => IntegerFrame(number, rest);
    case BulkReply(data) => BulkFrame(data, rest);
    case NullReply => NullFrame(rest);
    case ArrayReply(items) =>
      DecodeEncodeAll(items, rest);
      ArrayFrame(items, EncodeAll(items) + rest, rest);
      assert Encode(r) + rest == Header(|items|) + (EncodeAll(items) + rest);
  }

  lemma {:induction false} DecodeEncodeAll(rs: seq<Reply>, rest: Bytes)
    requires forall r <- rs :: r.WellFormed()
    ensures DecodeMany(|rs|, EncodeAll(rs) + rest) == Some((rs, rest))
    decreases rs, 1
  {
    if rs == [] {
      assert EncodeAll(rs) + rest == rest;
    } else {
      assert EncodeAll(rs) + rest == Encode(rs[0]) + (EncodeAll(rs[1..]) + rest);
      DecodeEncode(rs[0], EncodeAll(rs[1..]) + rest);
      DecodeEncodeAll(rs[1..], rest);
      assert [rs[0]] + rs[1..] == rs;
    }
  }

  /** A stream that begins with a well-formed value begins with no other, and
      what comes after it is determined too. */
  lemma EncodeInjective(a: Reply, b: Reply, afterA: Bytes, afterB: Bytes)
    requires a.WellFormed() && b.WellFormed() && Encode(a) + afterA == Encode(b) + afterB
    ensures a == b && afterA == afterB
  {
    DecodeEncode(a, afterA);
    DecodeEncode(b, afterB);
  }

  function Bulks(items: seq<Bytes>): (rs: seq<Reply>)
    ensures |rs| == |items|
    ensures forall i :: 0 <= i < |rs| ==> rs[i] == BulkReply(items[i])
    ensures ArrayReply(rs).WellFormed()
  {
    if items == [] then [] else [BulkReply(items[0])] + Bulks(items[1..])
  }

  /** The list of strings the source encodes with `array` is the array value of them. */
  lemma {:induction false} ArrayIsEncoding(items: seq<Bytes>)
    ensures BulkStrings(items) == EncodeAll(Bulks(items))
    ensures Array(items) == Encode(ArrayReply(Bulks(items)))
  {
    if items != [] {
      ArrayIsEncoding(items[1..]);
      assert Bulks(items)[1..] == Bulks(items[1..]);
    }
  }

  function NullableItem(item: Option<Bytes>): Reply {
    match item
    case Some(value) => BulkReply(value)
    case None => NullReply
  }

  function Nullables(items: seq<Option<Bytes>>): (rs: seq<Reply>)
    ensures |rs| == |items|
    ensures forall i :: 0 <= i < |rs| ==> rs[i] == NullableItem(items[i])
    ensures ArrayReply(rs).WellFormed()
  {
    if items == [] then [] else [NullableItem(items[0])] + Nullables(items[1..])
  }

  lemma AppendLast(a: Bytes, b: Bytes, c: Bytes)
    ensures (a + b) + c == a + (b + c)
  {
  }

  lemma EncodeItem(item: Option<Bytes>)
    ensures Encode(NullableItem(item)) == match item case Some(value) => BulkString(value) case None => Null()
  {
  }

  lemma {:induction false} EncodeAllAppend(rs: seq<Reply>, r: Reply)
    ensures EncodeAll(rs + [r]) == EncodeAll(rs) + Encode(r)
  {
    if rs == [] {
      assert rs + [r] == [r];
    } else {
      assert (rs + [r])[1..] == rs[1..] + [r];
      EncodeAllAppend(rs[1..], r);
    }
  }

  /** `nullable_array`: absent items keep their place as null bulk strings. */
  method EncodeNullableArray(items: seq<Option<Bytes>>) returns (out: Bytes)
    ensures out == Encode(ArrayReply(Nullables(items)))
  {
    out := Header(|items|);
    ghost var all := Nullables(items);
    for i := 0 to |items|
      invariant out == Header(|items|) + EncodeAll(all[..i])
    {
      hide BulkString, Null, Header, EncodeAll, Nullables, NullableItem, Encode;
      var part: Bytes;
      match items[i] {
        case Some(value) => part := BulkString(value);
        case None => part := Null();
      }
      EncodeItem(items[i]);
      EncodeAllAppend(all[..i], all[i]);
      assert all[..i + 1] == all[..i] + [all[i]];
      AppendLast(Header(|items|), EncodeAll(all[..i]), part);
      out := out + part;
    }
    assert all[..|items|] == all;
  }
}
