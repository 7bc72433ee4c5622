// The KEYS glob matcher (src/database/db.rs), against a declarative meaning of
// patterns.
module Glob {
  import opened ByteStrings

  // --- Patterns as token lists -------------------------------------------------

  /** The bytes from lo to hi; a single byte is a range of one. */
  datatype ClassItem = ClassItem(lo: char, hi: char)

  datatype Token =
    | AnyRun
    | AnyByte
    | Class(negate: bool, items: seq<ClassItem>)
    | Literal(c: char)

  function Ordered(a: char, b: char): ClassItem {
    if a <= b then ClassItem(a, b) else ClassItem(b, a)
  }

  /** The members of a class body and how many bytes it takes, its closing
      bracket included when there is one. */
  function ClassBody(body: Bytes): (r: (seq<ClassItem>, nat))
    ensures r.1 <= |body|
  {
    if body == [] then ([], 0)
    else if body[0] == ']' then ([], 1)
    else
      var (item, length) := FirstItem(body);
      var (items, consumed) := ClassBody(body[length..]);
      ([item] + items, length + consumed)
  }

  function FirstItem(body: Bytes): (r: (ClassItem, nat))
    requires body != []
    ensures 0 < r.1 <= |body|
  {
    if body[0] == '\\' && |body| > 1 then (ClassItem(body[1], body[1]), 2)
    else if |body| > 2 && body[1] == '-' && body[2] != ']' then (Ordered(body[0], body[2]), 3)
    else (ClassItem(body[0], body[0]), 1)
  }

  predicate Negated(rest: Bytes) {
    rest != [] && (rest[0] == '^' || rest[0] == '!')
  }

  /** The class whose opening bracket comes just before `rest`. */
  function ParseClass(rest: Bytes): (r: (Token, nat))
    ensures r.1 <= |rest|
  {
    var skip := if Negated(rest) then 1 else 0;
    var (items, consumed) := ClassBody(rest[skip..]);
    (Class(Negated(rest), items), skip + consumed)
  }

  /** The first token of a pattern and the bytes it takes. */
  function FirstToken(p: Bytes): (r: (Token, nat))
    requires p != []
    ensures 0 < r.1 <= |p|
  {
    match p[0]
    case '*' => (AnyRun, 1)
    case '?' => (AnyByte, 1)
    case '[' => var (token, consumed) := ParseClass(p[1..]); (token, 1 + consumed)
    case '\\' => if |p| > 1 then (Literal(p[1]), 2) else (Literal('\\'), 1)
    case c => (Literal(c), 1)
  }

  function Tokenize(p: Bytes): seq<Token>
    decreases |p|
  {
    if p == [] then []
    else [FirstToken(p).0] + Tokenize(p[FirstToken(p).1..])
  }

  // --- What a pattern means ------------------------------------------------------

  predicate InItems(items: seq<ClassItem>, c: char) {
    exists i :: 0 <= i < |items| && items[i].lo <= c <= items[i].hi
  }

  /** Whether a token other than AnyRun matches the one byte c. */
  predicate Admits(token: Token, c: char) {
    match token
    case AnyRun => false
    case AnyByte => true
    case Class(negate, items) => InItems(items, c) != negate
    case Literal(l) => l == c
  }

  predicate Denotes(token: Token, part: Bytes) {
    token.AnyRun? || (|part| == 1 && Admits(token, part[0]))
  }

  function Join(parts: seq<Bytes>): Bytes {
    if parts == [] then [] else parts[0] + Join(parts[1..])
  }

  /** A way of cutting the text into one part per token. */
  ghost predicate Cuts(tokens: seq<Token>, text: Bytes, parts: seq<Bytes>) {
    && |parts| == |tokens|
    && Join(parts) == text
    && forall i :: 0 <= i < |tokens| ==> Denotes(tokens[i], parts[i])
  }

  /** The meaning of a pattern: the text can be cut into parts, one for each
      token in order, that the tokens denote. */
  ghost predicate Matches(tokens: seq<Token>, text: Bytes) {
    exists parts :: Cuts(tokens, text, parts)
  }

  ghost predicate GlobMatches(pattern: Bytes, text: Bytes) {
    Matches(Tokenize(pattern), text)
  }

  // --- Token by token ----------------------------------------------------------------

  ghost predicate MatchesSuffix(tokens: seq<Token>, text: Bytes)
    decreases |text|
  {
    Matches(tokens, text) || (text != [] && MatchesSuffix(tokens, text[1..]))
  }

  lemma MatchesNone(text: Bytes)
    ensures Matches([], text) <==> text == []
  {
    assert Cuts([], [], []);
  }

  lemma CutsCons(token: Token, tokens: seq<Token>, part: Bytes, rest: Bytes)
    requires Denotes(token, part) && Matches(tokens, rest)
    ensures Matches([token] + tokens, part + rest)
  {
    var parts :| Cuts(tokens, rest, parts);
    assert ([part] + parts)[1..] == parts;
    assert Cuts([token] + tokens, part + rest, [part] + parts);
  }

  lemma CutsHead(token: Token, tokens: seq<Token>, text: Bytes) returns (k: nat)
    requires Matches([token] + tokens, text)
    ensures k <= |text| && Denotes(token, text[..k]) && Matches(tokens, text[k..])
  {
    var all := [token] + tokens;
    var parts :| Cuts(all, text, parts);
    k := |parts[0]|;
    assert text[..k] == parts[0] && text[k..] == Join(parts[1..]);
    assert forall i :: 0 <= i < |tokens| ==> all[i + 1] == tokens[i];
    assert Cuts(tokens, text[k..], parts[1..]);
  }

  lemma MatchesOne(token: Token, tokens: seq<Token>, text: Bytes)
    requires !token.AnyRun?
    ensures Matches([token] + tokens, text) <==>
            text != [] && Admits(token, text[0]) && Matches(tokens, text[1..])
  {
    if Matches([token] + tokens, text) {
      var k := CutsHead(token, tokens, text);
      assert k == 1;
    }
    if text != [] && Admits(token, text[0]) && Matches(tokens, text[1..]) {
      CutsCons(token, tokens, [text[0]], text[1..]);
      assert [text[0]] + text[1..] == text;
    }
  }

  lemma {:induction false} SuffixAt(tokens: seq<Token>, text: Bytes, k: nat)
    requires k <= |text| && Matches(tokens, text[k..])
    ensures MatchesSuffix(tokens, text)
  {
    if k == 0 {
      assert text[0..] == text;
    } else {
      assert text[1..][k - 1..] == text[k..];
      SuffixAt(tokens, text[1..], k - 1);
    }
  }

  lemma {:induction false} SuffixFind(tokens: seq<Token>, text: Bytes) returns (k: nat)
    requires MatchesSuffix(tokens, text)
    ensures k <= |text| && Matches(tokens, text[k..])
    decreases |text|
  {
    if Matches(tokens, text) {
      k := 0;
      assert text[0..] == text;
    } else {
      var j := SuffixFind(tokens, text[1..]);
      assert text[1..][j..] == text[j + 1..];
      k := j + 1;
    }
  }

  lemma MatchesRun(tokens: seq<Token>, text: Bytes)
    ensures Matches([AnyRun] + tokens, text) <==> MatchesSuffix(tokens, text)
  {
    if Matches([AnyRun] + tokens, text) {
      var k := CutsHead(AnyRun, tokens, text);
      SuffixAt(tokens, text, k);
    }
    if MatchesSuffix(tokens, text) {
      var k := SuffixFind(tokens, text);
      CutsCons(AnyRun, tokens, text[..k], text[k..]);
      assert text[..k] + text[k..] == text;
    }
  }

  /** A run of stars means the same as one star. */
  lemma {:induction false} StarsCollapse(tokens: seq<Token>, text: Bytes)
    ensures MatchesSuffix([AnyRun] + tokens, text) <==> MatchesSuffix(tokens, text)
    decreases |text|
  {
    MatchesRun(tokens, text);
    if text != [] {
      StarsCollapse(tokens, text[1..]);
    }
  }

  lemma {:induction false} EmptyTailMatches(text: Bytes)
    ensures MatchesSuffix([], text)
    decreases |text|
  {
    MatchesNone(text);
    if text != [] {
      EmptyTailMatches(text[1..]);
    }
  }

  // --- The matcher of the source -------------------------------------------------------

  lemma InItemsCons(item: ClassItem, items: seq<ClassItem>, c: char)
    ensures InItems([item] + items, c) <==> item.lo <= c <= item.hi || InItems(items, c)
  {
    var all := [item] + items;
    assert all[0] == item && forall i :: 0 <= i < |items| ==> all[i + 1] == items[i];
  }

  lemma ClassEnd(body: Bytes, c: char)
    requires body == [] || body[0] == ']'
    ensures ClassBody(body).1 == (if body == [] then 0 else 1) && !InItems(ClassBody(body).0, c)
  {
  }

  /** One item of a class body, and what the rest of the body adds. */
  lemma ClassStep(body: Bytes, c: char)
    requires body != [] && body[0] != ']'
    ensures var (item, length) := FirstItem(body);
            && ClassBody(body).1 == length + ClassBody(body[length..]).1
            && (InItems(ClassBody(body).0, c) <==>
                item.lo <= c <= item.hi || InItems(ClassBody(body[length..]).0, c))
  {
    var (item, length) := FirstItem(body);
    InItemsCons(item, ClassBody(body[length..]).0, c);
  }

  /** `match_class`: one byte against the class that starts at the front of `cls`. */
  method MatchClass(cls: Bytes, ch: char) returns (ok: bool, consumed: nat)
    ensures consumed == ParseClass(cls).1
    ensures ok <==> Admits(ParseClass(cls).0, ch)
  {
    hide InItems, ClassBody;
    var i := 0;
    var negate := cls != [] && (cls[0] == '^' || cls[0] == '!');
    if negate {
      i := i + 1;
    }
    ghost var start := i;
    var matched := false;
    while i < |cls| && cls[i] != ']'
      invariant start <= i <= |cls|
      invariant i + ClassBody(cls[i..]).1 == start + ClassBody(cls[start..]).1
      invariant matched || InItems(ClassBody(cls[i..]).0, ch) <==> InItems(ClassBody(cls[start..]).0, ch)
      decreases |cls| - i
    {
      ClassStep(cls[i..], ch);
      ghost var (item, length) := FirstItem(cls[i..]);
      assert cls[i..][length..] == cls[i + length..];
      if cls[i] == '\\' && i + 1 < |cls| {
        matched := matched || cls[i + 1] == ch;
        i := i + 2;
      } else if i + 2 < |cls| && cls[i + 1] == '-' && cls[i + 2] != ']' {
        var lo, hi := cls[i], cls[i + 2];
        if hi < lo {
          lo, hi := hi, lo;
        }
        matched := matched || lo <= ch <= hi;
        i := i + 3;
      } else {
        matched := matched || cls[i] == ch;
        i := i + 1;
      }
    }
    ClassEnd(cls[i..], ch);
    consumed := if i < |cls| then i + 1 else i;
    ok := matched != negate;
  }

  /** `glob_match_bytes`: sound and complete for the meaning of the pattern. */
  method GlobMatch(pattern0: Bytes, text0: Bytes) returns (matched: bool)
    ensures matched <==> GlobMatches(pattern0, text0)
    decreases |pattern0|, 0
  {
    var pattern, text := pattern0, text0;
    while pattern != []
      invariant |pattern| <= |pattern0|
      invariant GlobMatches(pattern0, text0) <==> GlobMatches(pattern, text)
      decreases |pattern|
    {
      ghost var (token, length) := FirstToken(pattern);
      assert Tokenize(pattern) == [token] + Tokenize(pattern[length..]);
      if !token.AnyRun? {
        MatchesOne(token, Tokenize(pattern[length..]), text);
      }
      var rest := pattern[1..];
      match pattern[0] {
        case '*' =>
          matched := MatchStar(rest, text);
          MatchesRun(Tokenize(rest), text);
          return;
        case '?' =>
          if text == [] {
            return false;
          }
          text := text[1..];
          pattern := rest;
        case '[' =>
          if text == [] {
            return false;
          }
          var ok, consumed := MatchClass(rest, text[0]);
          if !ok {
            return false;
          }
          assert pattern[length..] == rest[consumed..];
          pattern := rest[consumed..];
          text := text[1..];
        case '\\' =>
          var literal, next := '\\', rest;
          if rest != [] {
            literal, next := rest[0], rest[1..];
          }
          assert pattern[length..] == next;
          if text == [] || text[0] != literal {
            return false;
          }
          text := text[1..];
          pattern := next;
        case literal =>
          if text == [] || text[0] != literal {
            return false;
          }
          text := text[1..];
          pattern := rest;
      }
    }
    MatchesNone(text);
    return text == [];
  }

  /** The star arm: skip further stars, then try the tail at every position. */
  method MatchStar(rest: Bytes, text: Bytes) returns (matched: bool)
    ensures matched <==> MatchesSuffix(Tokenize(rest), text)
    decreases |rest|, 1
  {
    var tail := rest;
    while tail != [] && tail[0] == '*'
      invariant |tail| <= |rest|
      invariant MatchesSuffix(Tokenize(rest), text) <==> MatchesSuffix(Tokenize(tail), text)
      decreases |tail|
    {
      StarsCollapse(Tokenize(tail[1..]), text);
      assert Tokenize(tail) == [AnyRun] + Tokenize(tail[1..]);
      tail := tail[1..];
    }
    if tail == [] {
      EmptyTailMatches(text);
      return true;
    }
    var from := text;
    while true
      invariant MatchesSuffix(Tokenize(rest), text) <==> MatchesSuffix(Tokenize(tail), from)
      decreases |from|
    {
      var here := GlobMatch(tail, from);
      if here {
        return true;
      }
      if from == [] {
        return false;
      }
      from := from[1..];
    }
  }

  // --- Composition and quoting ------------------------------------------------------------

  lemma {:induction false} JoinAppend(a: seq<Bytes>, b: seq<Bytes>)
    ensures Join(a + b) == Join(a) + Join(b)
  {
    if a == [] {
      assert a + b == b;
    } else {
      assert (a + b)[1..] == a[1..] + b;
      JoinAppend(a[1..], b);
    }
  }

  /** A concatenation of token lists matches exactly the concatenations of what
      the two lists match. */
  lemma MatchesAppend(a: seq<Token>, b: seq<Token>, text: Bytes)
    ensures Matches(a + b, text) <==>
            exists k :: 0 <= k <= |text| && Matches(a, text[..k]) && Matches(b, text[k..])
  {
    hide Cuts;
    if Matches(a + b, text) {
      var parts :| Cuts(a + b, text, parts);
      CutsSplit(a, b, text, parts);
      var k := |Join(parts[..|a|])|;
      assert Matches(a, text[..k]) && Matches(b, text[k..]);
    }
    if k :| 0 <= k <= |text| && Matches(a, text[..k]) && Matches(b, text[k..]) {
      var p :| Cuts(a, text[..k], p);
      var q :| Cuts(b, text[k..], q);
      CutsJoin(a, b, text, k, p, q);
    }
  }

  lemma CutsSplit(a: seq<Token>, b: seq<Token>, text: Bytes, parts: seq<Bytes>)
    requires Cuts(a + b, text, parts)
    ensures |a| <= |parts| && |Join(parts[..|a|])| <= |text|
    ensures var k := |Join(parts[..|a|])|;
            Cuts(a, text[..k], parts[..|a|]) && Cuts(b, text[k..], parts[|a|..])
  {
    hide Denotes;
    assert parts == parts[..|a|] + parts[|a|..];
    JoinAppend(parts[..|a|], parts[|a|..]);
    assert forall i :: 0 <= i < |a| ==> (a + b)[i] == a[i];
    assert forall i :: 0 <= i < |b| ==> (a + b)[|a| + i] == b[i];
  }

  lemma CutsJoin(a: seq<Token>, b: seq<Token>, text: Bytes, k: nat, p: seq<Bytes>, q: seq<Bytes>)
    requires k <= |text| && Cuts(a, text[..k], p) && Cuts(b, text[k..], q)
    ensures Cuts(a + b, text, p + q)
  {
    hide Denotes;
    JoinAppend(p, q);
    assert text[..k] + text[k..] == text;
  }

  /** The class body ends with its closing bracket. */
  predicate ClosedBody(body: Bytes)
    decreases |body|
  {
    body != [] && (body[0] == ']' || ClosedBody(body[FirstItem(body).1..]))
  }

  /** The first token is neither a dangling escape nor an open class. */
  predicate FirstClosed(p: Bytes)
    requires p != []
  {
    && (p[0] == '[' ==> ClosedBody(p[if Negated(p[1..]) then 2 else 1..]))
    && (p[0] == '\\' ==> |p| > 1)
  }

  /** The pattern has no dangling escape and no open class. */
  predicate Closed(p: Bytes)
    decreases |p|
  {
    p == [] || (FirstClosed(p) && Closed(p[FirstToken(p).1..]))
  }

  lemma ClosedByOne(c: char)
    ensures ClosedBody([c]) <==> c == ']'
  {
  }

  lemma {:induction false} ClosedBodyExtends(body: Bytes, q: Bytes)
    requires ClosedBody(body)
    ensures ClassBody(body + q) == ClassBody(body)
    decreases |body|
  {
    if body[0] != ']' {
      var (item, length) := FirstItem(body);
      assert body[length..] != [];
      if |body| == 2 && length == 1 {
        assert body[1..] == [body[1]];
        ClosedByOne(body[1]);
      }
      assert FirstItem(body + q) == (item, length);
      assert (body + q)[length..] == body[length..] + q;
      ClosedBodyExtends(body[length..], q);
    }
  }

  lemma FirstTokenAppend(p: Bytes, q: Bytes)
    requires p != [] && FirstClosed(p)
    ensures FirstToken(p + q) == FirstToken(p)
  {
    assert (p + q)[1..] == p[1..] + q;
    if p[0] == '[' {
      var skip := if Negated(p[1..]) then 1 else 0;
      assert p[1..][skip..] == p[skip + 1..];
      assert (p[1..] + q)[skip..] == p[skip + 1..] + q;
      ClosedBodyExtends(p[skip + 1..], q);
    }
  }

  lemma {:induction false} TokenizeAppend(p: Bytes, q: Bytes)
    requires Closed(p)
    ensures Tokenize(p + q) == Tokenize(p) + Tokenize(q)
    decreases |p|
  {
    hide FirstToken, FirstClosed;
    if p == [] {
      assert p + q == q;
    } else {
      var length := FirstToken(p).1;
      FirstTokenAppend(p, q);
      assert (p + q)[length..] == p[length..] + q;
      TokenizeAppend(p[length..], q);
    }
  }

  /** A closed pattern followed by any pattern matches a text exactly when the
      text splits into a part for each. */
  lemma GlobAppend(p: Bytes, q: Bytes, text: Bytes)
    requires Closed(p)
    ensures GlobMatches(p + q, text) <==>
            exists k :: 0 <= k <= |text| && GlobMatches(p, text[..k]) && GlobMatches(q, text[k..])
  {
    TokenizeAppend(p, q);
    MatchesAppend(Tokenize(p), Tokenize(q), text);
  }

  /** Every byte preceded by a backslash. */
  function Quote(s: Bytes): Bytes {
    if s == [] then [] else ['\\', s[0]] + Quote(s[1..])
  }

  /** A quoted string is a pattern for that string and no other. */
  lemma {:induction false} QuoteMatchesOnly(s: Bytes, text: Bytes)
    ensures GlobMatches(Quote(s), text) <==> text == s
  {
    MatchesNone(text);
    if s != [] {
      assert Quote(s)[2..] == Quote(s[1..]);
      assert Tokenize(Quote(s)) == [Literal(s[0])] + Tokenize(Quote(s[1..]));
      MatchesOne(Literal(s[0]), Tokenize(Quote(s[1..])), text);
      if text != [] {
        QuoteMatchesOnly(s[1..], text[1..]);
        assert text == [text[0]] + text[1..] && s == [s[0]] + s[1..];
      }
    }
  }
}
