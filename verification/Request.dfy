// Request decoding (src/server/mod.rs) from an in-memory byte buffer, and its
// agreement with the encoder of the append-only log.
module Request {
  import opened Wrappers
  import opened ByteStrings
  import Resp

  const MAX_MULTIBULK: nat := 1024 * 1024
  const MAX_BULK_BYTES: nat := 512 * 1024 * 1024

  /** Outcome of reading one request: end of stream, a token list with the
      bytes after it, or a framing error. */
  datatype ReadResult =
    | EndOfStream
    | Tokens(tokens: seq<Bytes>, rest: Bytes)
    | Malformed

  /** Length of the first line of b, its newline included if there is one. */
  function LineLength(b: Bytes): (n: nat)
    ensures n <= |b|
    ensures b != [] ==> n > 0
    ensures forall i :: 0 <= i < n - 1 ==> b[i] != '\n'
    ensures n < |b| ==> n > 0 && b[n - 1] == '\n'
  {
    if b == [] then 0
    else if b[0] == '\n' then 1
    else 1 + LineLength(b[1..])
  }

  function ReadBulk(b: Bytes): (r: Option<(Bytes, Bytes)>)
    ensures r.Some? ==> |r.value.1| < |b|
  {
    var n := LineLength(b);
    var header := TrimEnd(b[..n]);
    var rest := b[n..];
    if b == [] || !ValidUtf8(b[..n]) || header == [] || header[0] != '$' then None
    else
      match ParseU64(header[1..])
      case None => None
      case Some(length) =>
        if length > MAX_BULK_BYTES || length + 2 > |rest| || !ValidUtf8(rest[..length]) then None
        else Some((rest[..length], rest[length + 2..]))
  }

  function ReadBulks(count: nat, b: Bytes): (r: Option<(seq<Bytes>, Bytes)>)
    ensures r.Some? ==> |r.value.0| == count && |r.value.1| <= |b|
  {
    if count == 0 then Some(([], b))
    else
      match ReadBulk(b)
      case None => None
      case Some((token, rest)) =>
        match ReadBulks(count - 1, rest)
        case None => None
        case Some((tokens, left)) => Some(([token] + tokens, left))
  }

  function ReadRequest(b: Bytes): (r: ReadResult)
    ensures r.EndOfStream? <==> b == []
    ensures r.Tokens? ==> |r.rest| < |b|
  {
    var n := LineLength(b);
    var line := TrimEnd(b[..n]);
    if b == [] then EndOfStream
    else if !ValidUtf8(b[..n]) then Malformed
    else if line == [] || line[0] != '*' then Tokens(SplitSpaces(line), b[n..])
    else
      match ParseU64(line[1..])
      case None => Malformed
      case Some(count) =>
        if count > MAX_MULTIBULK then Malformed
        else
          match ReadBulks(count, b[n..])
          case None => Malformed
          case Some((tokens, rest)) => Tokens(tokens, rest)
  }

  // --- The reader of the source --------------------------------------------

  /** A buffered reader: the bytes and how many of them have been consumed. */
  class Reader {
    const buffer: Bytes
    var position: nat

    constructor (bytes: Bytes)
      ensures buffer == bytes && Valid() && Remaining() == bytes
    {
      buffer, position := bytes, 0;
    }

    ghost predicate Valid()
      reads this
    {
      position <= |buffer|
    }

    function Remaining(): Bytes
      requires Valid()
      reads this
    {
      buffer[position..]
    }

    /** `read_line`: consumes a line; fails on text that is not UTF-8. */
    method ReadLine() returns (line: Option<Bytes>)
      requires Valid()
      modifies this
      ensures Valid()
      ensures var n := LineLength(old(Remaining()));
              && Remaining() == old(Remaining())[n..]
              && line == if ValidUtf8(old(Remaining())[..n]) then Some(old(Remaining())[..n]) else None
    {
      var n := LineLength(Remaining());
      var text := Remaining()[..n];
      position := position + n;
      line := if ValidUtf8(text) then Some(text) else None;
    }

    /** `read_exact`: fails when fewer than n bytes are left. */
    method ReadExact(n: nat) returns (bytes: Option<Bytes>)
      requires Valid()
      modifies this
      ensures Valid()
      ensures n <= |old(Remaining())| ==>
                bytes == Some(old(Remaining())[..n]) && Remaining() == old(Remaining())[n..]
      ensures n > |old(Remaining())| ==> bytes == None
    {
      if n <= |Remaining()| {
        bytes := Some(Remaining()[..n]);
        position := position + n;
      } else {
        bytes := None;
      }
    }

    method ReadBulkString() returns (token: Option<Bytes>)
      requires Valid()
      modifies this
      ensures Valid()
      ensures match ReadBulk(old(Remaining()))
              case Some((t, rest)) => token == Some(t) && Remaining() == rest
              case None => token == None
    {
      hide TrimEnd, ValidUtf8, ParseU64, LineLength;
      if Remaining() == [] {
        return None;
      }
      var line := ReadLine();
      if line == None {
        return None;
      }
      var header := TrimEnd(line.value);
      if header == [] || header[0] != '$' {
        return None;
      }
      var length := ParseU64(header[1..]);
      if length == None || length.value > MAX_BULK_BYTES {
        return None;
      }
      ghost var rest := Remaining();
      var bytes := ReadExact(length.value + 2);
      if bytes == None {
        return None;
      }
      var data := bytes.value[..length.value];
      assert data == rest[..length.value];
      token := if ValidUtf8(data) then Some(data) else None;
    }

    method ReadMultibulk(header: Bytes) returns (tokens: Option<seq<Bytes>>)
      requires Valid()
      modifies this
      ensures Valid()
      ensures match ParseU64(header)
              case None => tokens == None
              case Some(count) =>
                if count > MAX_MULTIBULK then tokens == None
                else
                  match ReadBulks(count, old(Remaining()))
                  case Some((ts, rest)) => tokens == Some(ts) && Remaining() == rest
                  case None => tokens == None
    {
      hide ReadBulk;
      var count := ParseU64(header);
      if count == None || count.value > MAX_MULTIBULK {
        return None;
      }
      var read: seq<Bytes> := [];
      assert forall r: Option<(seq<Bytes>, Bytes)> :: Prepend([], r) == r by {
        forall r: Option<(seq<Bytes>, Bytes)> ensures Prepend([], r) == r {
          if r.Some? {
            assert [] + r.value.0 == r.value.0;
          }
        }
      }
      for i := 0 to count.value
        invariant Valid()
        invariant |read| == i
        invariant Prepend(read, ReadBulks(count.value - i, Remaining())) == ReadBulks(count.value, old(Remaining()))
      {
        PrependStep(read, count.value - i, Remaining());
        var token := ReadBulkString();
        if token == None {
          return None;
        }
        read := read + [token.value];
      }
      assert read + [] == read;
      tokens := Some(read);
    }

    method ReadOne() returns (result: ReadResult)
      requires Valid()
      modifies this
      ensures Valid()
      ensures result == ReadRequest(old(Remaining()))
      ensures result.Tokens? ==> Remaining() == result.rest
    {
      if Remaining() == [] {
        return EndOfStream;
      }
      var text := ReadLine();
      if text == None {
        return Malformed;
      }
      var line := TrimEnd(text.value);
      if line == [] || line[0] != '*' {
        return Tokens(SplitSpaces(line), Remaining());
      }
      var tokens := ReadMultibulk(line[1..]);
      result := if tokens == None then Malformed else Tokens(tokens.value, Remaining());
    }
  }

  /** The result of reading further tokens after those in `read`. */
  function Prepend(read: seq<Bytes>, more: Option<(seq<Bytes>, Bytes)>): Option<(seq<Bytes>, Bytes)> {
    match more
    case None => None
    case Some((tokens, rest)) => Some((read + tokens, rest))
  }

  lemma PrependStep(read: seq<Bytes>, count: nat, b: Bytes)
    requires count > 0
    ensures Prepend(read, ReadBulks(count, b)) ==
            match ReadBulk(b)
            case None => None
            case Some((token, rest)) => Prepend(read + [token], ReadBulks(count - 1, rest))
  {
    hide ReadBulk;
    if ReadBulk(b).Some? && ReadBulks(count - 1, ReadBulk(b).value.1).Some? {
      var (token, rest) := ReadBulk(b).value;
      var (tokens, left) := ReadBulks(count - 1, rest).value;
      assert read + ([token] + tokens) == (read + [token]) + tokens;
    }
  }

  // --- Round trip ----------------------------------------------------------

  predicate TokenSendable(t: Bytes) {
    |t| <= MAX_BULK_BYTES && ValidUtf8(t)
  }

  /** The token lists that both limits and the text encoding admit. */
  predicate Sendable(tokens: seq<Bytes>) {
    |tokens| <= MAX_MULTIBULK && AllSendable(tokens)
  }

  predicate AllSendable(tokens: seq<Bytes>) {
    forall i :: 0 <= i < |tokens| ==> TokenSendable(tokens[i])
  }

  /** A header line: its tag, the count and the line break. */
  function HeaderText(tag: char, n: nat): (line: Bytes)
    ensures |line| == |Digits(n)| + 3
  {
    [tag] + Digits(n) + Resp.CRLF
  }

  /** A header line and everything the decoder extracts from it, whatever follows. */
  lemma HeaderLine(tag: char, n: nat, rest: Bytes)
    requires tag == '*' || tag == '$'
    ensures var line := HeaderText(tag, n);
            && LineLength(line + rest) == |line|
            && (line + rest)[..|line|] == line && (line + rest)[|line|..] == rest
            && ValidUtf8(line)
            && TrimEnd(line) == [tag] + Digits(n)
            && ParseU64(TrimEnd(line)[1..]) == if n <= U64_MAX then Some(n) else None
  {
    var line := HeaderText(tag, n);
    LineEnds([tag] + Digits(n) + "\r", rest);
    assert line == [tag] + Digits(n) + "\r" + "\n";
    AsciiIsUtf8(line);
    TrimHeader([tag] + Digits(n));
    DigitsRoundTrip(n);
  }

  lemma {:induction false} LineEnds(text: Bytes, rest: Bytes)
    requires forall i :: 0 <= i < |text| ==> text[i] != '\n'
    ensures LineLength(text + "\n" + rest) == |text| + 1
  {
    if text != [] {
      assert (text + "\n" + rest)[1..] == text[1..] + "\n" + rest;
      LineEnds(text[1..], rest);
    }
  }

  lemma TrimHeader(text: Bytes)
    requires text != [] && !IsSpace(text[|text| - 1])
    ensures TrimEnd(text) == text
    ensures TrimEnd(text + "\r") == text
    ensures TrimEnd(text + Resp.CRLF) == text
  {
    assert (text + "\r")[..|text|] == text;
    assert (text + Resp.CRLF)[..|text| + 1] == text + "\r";
  }

  lemma BulkRoundTrip(t: Bytes, rest: Bytes)
    ensures ReadBulk(Resp.BulkString(t) + rest) == if TokenSendable(t) then Some((t, rest)) else None
  {
    var tail := t + Resp.CRLF + rest;
    var line := HeaderText('$', |t|);
    assert Resp.BulkString(t) + rest == line + tail;
    HeaderLine('$', |t|, tail);
    assert tail[..|t|] == t && tail[|t| + 2..] == rest;
  }

  lemma AllSendableSplit(items: seq<Bytes>)
    requires items != []
    ensures AllSendable(items) <==> TokenSendable(items[0]) && AllSendable(items[1..])
  {
  }

  lemma ReadBulksCons(items: seq<Bytes>, b: Bytes, tail: Bytes, rest: Bytes, first: bool, others: bool)
    requires items != []
    requires ReadBulk(b) == if first then Some((items[0], tail)) else None
    requires ReadBulks(|items| - 1, tail) == if others then Some((items[1..], rest)) else None
    ensures ReadBulks(|items|, b) == if first && others then Some((items, rest)) else None
  {
    hide ReadBulk;
    assert items == [items[0]] + items[1..];
  }

  lemma {:induction false} BulksRoundTrip(items: seq<Bytes>, rest: Bytes)
    ensures ReadBulks(|items|, Resp.BulkStrings(items) + rest)
         == if AllSendable(items) then Some((items, rest)) else None
  {
    if items == [] {
      assert Resp.BulkStrings(items) + rest == rest;
    } else {
      var tail := Resp.BulkStrings(items[1..]) + rest;
      assert Resp.BulkStrings(items) + rest == Resp.BulkString(items[0]) + tail;
      BulkRoundTrip(items[0], tail);
      BulksRoundTrip(items[1..], rest);
      ReadBulksCons(items, Resp.BulkStrings(items) + rest, tail, rest,
                    TokenSendable(items[0]), AllSendable(items[1..]));
      AllSendableSplit(items);
    }
  }

  /** Reading an encoded token list gives back exactly that list and the bytes
      after it when it is within the limits, and is refused otherwise. */
  lemma RequestRoundTrip(tokens: seq<Bytes>, rest: Bytes)
    ensures ReadRequest(Resp.Array(tokens) + rest)
         == if Sendable(tokens) then Tokens(tokens, rest) else Malformed
  {
    var tail := Resp.BulkStrings(tokens) + rest;
    var line := HeaderText('*', |tokens|);
    assert Resp.Array(tokens) + rest == line + tail;
    HeaderLine('*', |tokens|, tail);
    BulksRoundTrip(tokens, rest);
  }

  lemma {:induction false} ReadBulksSendable(count: nat, b: Bytes)
    requires ReadBulks(count, b).Some?
    ensures AllSendable(ReadBulks(count, b).value.0)
  {
    hide ReadBulk, TokenSendable, AllSendable;
    if count == 0 {
      NoneSendable();
    } else {
      BulkReadSendable(b);
      var rest := ReadBulk(b).value.1;
      ReadBulksSendable(count - 1, rest);
      var tokens := ReadBulks(count, b).value.0;
      assert tokens[0] == ReadBulk(b).value.0 && tokens[1..] == ReadBulks(count - 1, rest).value.0;
      AllSendableSplit(tokens);
    }
  }

  lemma NoneSendable()
    ensures AllSendable([])
  {
  }

  lemma BulkReadSendable(b: Bytes)
    requires ReadBulk(b).Some?
    ensures TokenSendable(ReadBulk(b).value.0)
  {
  }

  /** Whether a request is in array form rather than an inline line. */
  predicate ArrayForm(b: Bytes) {
    var line := TrimEnd(b[..LineLength(b)]);
    line != [] && line[0] == '*'
  }

  /** Whatever the decoder accepts in array form, however it was framed, can be
      encoded again and read back unchanged. */
  lemma DecodedReencodes(b: Bytes, rest: Bytes)
    requires ArrayForm(b) && ReadRequest(b).Tokens?
    ensures Sendable(ReadRequest(b).tokens)
    ensures ReadRequest(Resp.Array(ReadRequest(b).tokens) + rest) == Tokens(ReadRequest(b).tokens, rest)
  {
    var n := LineLength(b);
    var count := ParseU64(TrimEnd(b[..n])[1..]);
    ReadBulksSendable(count.value, b[n..]);
    hide ReadRequest, ReadBulks;
    RequestRoundTrip(ReadRequest(b).tokens, rest);
  }

  // --- Torn requests --------------------------------------------------------

  /** What the decoder extracts from a header text that has lost digits. */
  lemma TornNumber(tag: char, n: nat, j: nat)
    requires tag == '*' || tag == '$'
    requires j <= |Digits(n)|
    ensures var text := [tag] + Digits(n)[..j];
            && TrimEnd(text) == text && TrimEnd(text + "\r") == text
            && (n > 0 ==> ParseU64(text[1..]) != Some(0))
  {
    var text := [tag] + Digits(n)[..j];
    TrimHeader(text);
    assert text[1..] == Digits(n)[..j];
    if n > 0 && j > 0 {
      DigitsPrefix(n, j);
    }
  }

  /** A line without its newline is read to the end of the input. */
  lemma OpenLine(b: Bytes)
    requires Ascii(b) && forall i :: 0 <= i < |b| ==> b[i] != '\n'
    ensures LineLength(b) == |b| && b[..|b|] == b && b[|b|..] == []
    ensures ValidUtf8(b)
  {
    AsciiIsUtf8(b);
  }

  /** A header line cut before its newline still parses, to a positive number
      at most as large, or does not parse at all. */
  lemma TornHeader(tag: char, n: nat, k: nat)
    requires tag == '*' || tag == '$'
    requires 0 < k <= |Digits(n)| + 2
    ensures var b := HeaderText(tag, n)[..k];
            && LineLength(b) == k && b[..k] == b && b[k..] == []
            && ValidUtf8(b)
            && TrimEnd(b) != [] && TrimEnd(b)[0] == tag
            && (n > 0 ==> ParseU64(TrimEnd(b)[1..]) != Some(0))
  {
    hide TrimEnd, ValidUtf8, ParseU64, LineLength, Digits;
    var b := HeaderText(tag, n)[..k];
    OpenLine(b);
    if k <= |Digits(n)| + 1 {
      TornNumber(tag, n, k - 1);
      assert b == [tag] + Digits(n)[..k - 1];
    } else {
      TornNumber(tag, n, k - 2);
      assert b == [tag] + Digits(n)[..k - 2] + "\r";
    }
  }

  lemma TornBulk(t: Bytes, k: nat)
    requires k < |Resp.BulkString(t)|
    ensures ReadBulk(Resp.BulkString(t)[..k]) == None
  {
    hide TrimEnd, ValidUtf8, ParseU64, LineLength, Digits;
    var line := HeaderText('$', |t|);
    var b := Resp.BulkString(t)[..k];
    assert Resp.BulkString(t) == line + t + Resp.CRLF;
    if 0 < k < |line| {
      TornHeader('$', |t|, k);
      assert b == line[..k];
    } else if |line| <= k {
      var rest := (t + Resp.CRLF)[..k - |line|];
      assert b == line + rest;
      HeaderLine('$', |t|, rest);
    }
  }

  lemma {:induction false} TornBulks(items: seq<Bytes>, k: nat)
    requires k < |Resp.BulkStrings(items)|
    ensures ReadBulks(|items|, Resp.BulkStrings(items)[..k]) == None
  {
    hide ReadBulk, Resp.BulkString;
    var first := Resp.BulkString(items[0]);
    var others := Resp.BulkStrings(items[1..]);
    if k < |first| {
      assert Resp.BulkStrings(items)[..k] == first[..k];
      TornBulk(items[0], k);
    } else {
      assert Resp.BulkStrings(items)[..k] == first + others[..k - |first|];
      BulkRoundTrip(items[0], others[..k - |first|]);
      TornBulks(items[1..], k - |first|);
    }
  }

  /** A request cut within its header line. */
  lemma TornCount(n: nat, k: nat)
    requires n > 0 && 0 < k < |HeaderText('*', n)|
    ensures ReadRequest(HeaderText('*', n)[..k]) == Malformed
  {
    hide ReadBulk, ValidUtf8, TrimEnd, LineLength, Digits, ParseU64;
    TornHeader('*', n, k);
  }

  /** A request cut after its header line. */
  lemma TornItems(tokens: seq<Bytes>, k: nat)
    requires k < |Resp.BulkStrings(tokens)|
    ensures ReadRequest(HeaderText('*', |tokens|) + Resp.BulkStrings(tokens)[..k]) == Malformed
  {
    hide ReadBulk, ReadBulks, ValidUtf8, TrimEnd, LineLength, Digits, ParseU64;
    HeaderLine('*', |tokens|, Resp.BulkStrings(tokens)[..k]);
    TornBulks(tokens, k);
  }

  /** Every proper non-empty prefix of a non-empty request is refused. */
  lemma TornRequest(tokens: seq<Bytes>, k: nat)
    requires tokens != []
    requires 0 < k < |Resp.Array(tokens)|
    ensures ReadRequest(Resp.Array(tokens)[..k]) == Malformed
  {
    hide ReadRequest, Digits, Resp.BulkStrings;
    var line := HeaderText('*', |tokens|);
    assert Resp.Array(tokens) == line + Resp.BulkStrings(tokens);
    if k < |line| {
      assert Resp.Array(tokens)[..k] == line[..k];
      TornCount(|tokens|, k);
    } else {
      assert Resp.Array(tokens)[..k] == line + Resp.BulkStrings(tokens)[..k - |line|];
      TornItems(tokens, k - |line|);
    }
  }

  /** The empty list is the one request whose encoding has prefixes that read
      as a request: its header line reads as `*0` with or without its line break. */
  lemma EmptyRequestPrefix(k: nat)
    requires 0 < k < |Resp.Array([])|
    ensures |Resp.Array([])| == 4
    ensures ReadRequest(Resp.Array([])[..k]) == if k == 1 then Malformed else Tokens([], [])
  {
    hide TrimEnd, ValidUtf8, LineLength;
    var b := Resp.Array([])[..k];
    assert Digits(0) == "0";
    assert Resp.Array([]) == "*0\r\n";
    OpenLine(b);
    if k == 1 {
      assert b == "*";
      TrimHeader("*");
    } else {
      assert b == if k == 2 then "*0" else "*0" + "\r";
      TrimHeader("*0");
      assert TrimEnd(b)[1..] == Digits(0);
      DigitsRoundTrip(0);
    }
  }

  // --- Inline requests ------------------------------------------------------

  predicate WithinLimits(tokens: seq<Bytes>) {
    && |tokens| <= MAX_MULTIBULK
    && forall t <- tokens :: |t| <= MAX_BULK_BYTES
  }

  /** Everything the decoder accepts is text, so that it reads back exactly when
      it is within the two limits. */
  lemma DecodedIsText(b: Bytes)
    requires ReadRequest(b).Tokens?
    ensures forall t <- ReadRequest(b).tokens :: ValidUtf8(t)
    ensures Sendable(ReadRequest(b).tokens) <==> WithinLimits(ReadRequest(b).tokens)
  {
    hide TrimEnd, ValidUtf8, LineLength, SplitSpaces, ReadBulks, ParseU64;
    var tokens := ReadRequest(b).tokens;
    if ArrayForm(b) {
      DecodedReencodes(b, []);
    } else {
      var line := b[..LineLength(b)];
      TrimUtf8(line);
      assert ValidUtf8([]) by { AsciiIsUtf8([]); }
      SplitUtf8(TrimEnd(line), []);
      assert tokens == SplitSpaces(TrimEnd(line), []);
    }
    assert forall i :: 0 <= i < |tokens| ==> tokens[i] in tokens;
  }

  /** n times a space and a one-letter key. */
  function SpacedKeys(n: nat): Bytes {
    if n == 0 then [] else " k" + SpacedKeys(n - 1)
  }

  function InlineKeys(n: nat): (keys: seq<Bytes>)
    ensures |keys| == n
  {
    if n == 0 then [] else ["k"] + InlineKeys(n - 1)
  }

  lemma {:induction false} SplitKeys(n: nat, word: Bytes)
    requires word != []
    ensures SplitSpaces(SpacedKeys(n), word) == [word] + InlineKeys(n)
  {
    if n == 0 {
      assert [word] + [] == [word];
    } else {
      var s := SpacedKeys(n);
      assert s[0] == ' ' && s[1..] == "k" + SpacedKeys(n - 1);
      SplitSkips(s[1..], 1, []);
      assert s[1..][1..] == SpacedKeys(n - 1) && [] + s[1..][..1] == "k";
      SplitKeys(n - 1, "k");
    }
  }

  lemma {:induction false} SpacedKeysText(n: nat)
    ensures Ascii(SpacedKeys(n)) && forall i :: 0 <= i < |SpacedKeys(n)| ==> SpacedKeys(n)[i] != '\n'
    ensures SpacedKeys(n) != [] ==> !IsSpace(SpacedKeys(n)[|SpacedKeys(n)| - 1])
  {
    if n > 0 {
      SpacedKeysText(n - 1);
    }
  }

  function DelRequest(n: nat): (tokens: seq<Bytes>)
    ensures |tokens| == n + 1
  {
    ["DEL"] + InlineKeys(n)
  }

  function InlineDel(n: nat): Bytes {
    "DEL" + SpacedKeys(n) + "\n"
  }

  /** An inline line is read with as many keys as it has. */
  lemma InlineDelReads(n: nat)
    ensures ReadRequest(InlineDel(n)) == Tokens(DelRequest(n), [])
  {
    hide TrimEnd, ValidUtf8, LineLength, SplitSpaces, SpacedKeys, InlineKeys;
    var text := "DEL" + SpacedKeys(n);
    var b := InlineDel(n);
    SpacedKeysText(n);
    assert Ascii(text) && Ascii(b);
    AsciiIsUtf8(b);
    LineEnds(text, []);
    assert text + "\n" + [] == b && b[..|b|] == b && b[|b|..] == [];
    assert TrimEnd(b) == text by { TrimLine(text); }
    SplitName(SpacedKeys(n));
    SplitKeys(n, "DEL");
  }

  lemma TrimLine(text: Bytes)
    requires text != [] && !IsSpace(text[|text| - 1])
    ensures TrimEnd(text + "\n") == text
  {
    assert (text + "\n")[..|text|] == text;
  }

  lemma SplitName(rest: Bytes)
    ensures SplitSpaces("DEL" + rest, []) == SplitSpaces(rest, "DEL")
  {
    var s := "DEL" + rest;
    SplitSkips(s, 3, []);
    assert s[3..] == rest && [] + s[..3] == "DEL";
  }

  /** Inline lines are bounded by neither limit: one with enough keys is accepted,
      and its encoding is refused. */
  lemma OversizedInline(n: nat, rest: Bytes)
    requires n >= MAX_MULTIBULK
    ensures ReadRequest(InlineDel(n)).Tokens?
    ensures var tokens := ReadRequest(InlineDel(n)).tokens;
            !Sendable(tokens) && ReadRequest(Resp.Array(tokens) + rest) == Malformed
  {
    hide ReadRequest;
    InlineDelReads(n);
    RequestRoundTrip(DelRequest(n), rest);
  }
}
