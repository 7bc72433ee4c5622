// Exactly which patterns compose: when appending to a glob pattern appends to
// its tokens, and when to its meaning.
module GlobComposition {
  import opened ByteStrings
  import opened Glob

  // --- Patterns that end in an open token -------------------------------------------

  /** The tokens before the first dangling escape or open class. */
  function HeadTokens(p: Bytes): seq<Token>
    requires !Closed(p)
    decreases |p|
  {
    if !FirstClosed(p) then [] else [FirstToken(p).0] + HeadTokens(p[FirstToken(p).1..])
  }

  /** The pattern from its first dangling escape or open class on. */
  function OpenTail(p: Bytes): (tail: Bytes)
    requires !Closed(p)
    ensures tail != [] && !FirstClosed(tail)
    decreases |p|
  {
    if !FirstClosed(p) then p else OpenTail(p[FirstToken(p).1..])
  }

  /** Whatever is appended joins the open token. */
  lemma {:induction false} OpenSplit(p: Bytes, q: Bytes)
    requires !Closed(p)
    ensures Tokenize(p + q) == HeadTokens(p) + Tokenize(OpenTail(p) + q)
    decreases |p|
  {
    hide FirstToken, FirstClosed;
    if FirstClosed(p) {
      var length := FirstToken(p).1;
      FirstTokenAppend(p, q);
      assert (p + q)[length..] == p[length..] + q;
      OpenSplit(p[length..], q);
    }
  }

  lemma {:induction false} OpenBodyTakesAll(body: Bytes)
    requires !ClosedBody(body)
    ensures ClassBody(body).1 == |body|
    decreases |body|
  {
    if body != [] {
      OpenBodyTakesAll(body[FirstItem(body).1..]);
    }
  }

  /** Bytes that close an open class body without changing its members. */
  function Closing(body: Bytes): (end: Bytes)
    requires !ClosedBody(body)
    ensures end != [] && end[|end| - 1] == ']' && AllBytes(end)
    decreases |body|
  {
    if body == [] then "]" else if body == "\\" then "\\]" else Closing(body[FirstItem(body).1..])
  }

  lemma DropPrefix(a: Bytes, b: Bytes, n: nat)
    requires n <= |a|
    ensures (a + b)[n..] == a[n..] + b
  {
  }

  lemma {:induction false} ClosingCloses(body: Bytes)
    requires !ClosedBody(body)
    ensures ClassBody(body + Closing(body)) == (ClassBody(body).0, |body| + |Closing(body)|)
    decreases |body|
  {
    var end := Closing(body);
    if body == [] {
      assert body + end == "]";
    } else if body == "\\" {
      assert body + end == "\\\\]" && (body + end)[2..] == "]";
      assert body[1..] == [];
    } else {
      hide FirstItem;
      var length := FirstItem(body).1;
      ClosingCloses(body[length..]);
      FirstItemClosing(body);
      DropPrefix(body, end, length);
    }
  }

  lemma FirstItemClosing(body: Bytes)
    requires body != [] && body != "\\" && !ClosedBody(body)
    ensures FirstItem(body + Closing(body)) == FirstItem(body)
  {
    var length := FirstItem(body).1;
    if |body| <= 2 && body[0] != '\\' {
      assert length == 1;
      if |body| == 2 && body[1] == '-' {
        assert body[1..] == "-" && "-"[1..] == [];
        assert Closing("-") == "]";
      } else if |body| == 1 {
        assert body[1..] == [];
      }
    }
  }

  /** An open token is the last of its pattern. */
  lemma OpenIsLast(tail: Bytes)
    requires tail != [] && !FirstClosed(tail)
    ensures Tokenize(tail) == [FirstToken(tail).0] && !FirstToken(tail).0.AnyRun?
  {
    if tail[0] == '[' {
      var skip := if Negated(tail[1..]) then 1 else 0;
      assert tail[1..][skip..] == tail[skip + 1..];
      OpenBodyTakesAll(tail[skip + 1..]);
    }
    assert tail[FirstToken(tail).1..] == [];
  }

  // --- Tokens -------------------------------------------------------------------------

  /** A byte that closes nothing by itself is swallowed by the open token. */
  lemma {:induction false} BracketSwallowed(body: Bytes)
    requires !ClosedBody(body)
    ensures ClassBody(body + "]").1 == |body| + 1
    decreases |body|
  {
    if body == [] {
      assert body + "]" == "]";
    } else if body == "\\" {
      assert (body + "]")[2..] == [];
    } else {
      var length := FirstItem(body).1;
      assert FirstItem(body + "]").1 == length;
      assert (body + "]")[length..] == body[length..] + "]";
      BracketSwallowed(body[length..]);
    }
  }

  lemma OpenSwallows(tail: Bytes)
    requires tail != [] && !FirstClosed(tail)
    ensures |Tokenize(tail + "]")| == 1
  {
    var p := tail + "]";
    if tail[0] == '[' {
      var skip := if Negated(tail[1..]) then 1 else 0;
      assert p[1..] == tail[1..] + "]" && tail[1..][skip..] == tail[skip + 1..];
      assert p[1..][skip..] == tail[skip + 1..] + "]";
      BracketSwallowed(tail[skip + 1..]);
    }
    assert p[FirstToken(p).1..] == [];
  }

  /** Appending to a pattern appends to its tokens, whatever is appended, exactly
      when the pattern is closed. */
  lemma ClosedIffTokensAppend(p: Bytes)
    ensures Closed(p) <==> forall q :: Tokenize(p + q) == Tokenize(p) + Tokenize(q)
  {
    if Closed(p) {
      forall q ensures Tokenize(p + q) == Tokenize(p) + Tokenize(q) {
        TokenizeAppend(p, q);
      }
    } else {
      hide FirstToken, FirstClosed;
      OpenSplit(p, "]");
      OpenSplit(p, []);
      assert p + [] == p && OpenTail(p) + [] == OpenTail(p);
      OpenSwallows(OpenTail(p));
      OpenIsLast(OpenTail(p));
      assert Tokenize("]") == [Literal(']')] by {
        assert "]"[1..] == [];
        BracketToken();
      }
      assert |Tokenize(p + "]")| != |Tokenize(p) + Tokenize("]")|;
    }
  }

  lemma BracketToken()
    ensures FirstToken("]") == (Literal(']'), 1)
  {
  }

  // --- Lengths -------------------------------------------------------------------------

  /** How many bytes a text must at least have to match. */
  function MinLength(tokens: seq<Token>): nat {
    if tokens == [] then 0 else (if tokens[0].AnyRun? then 0 else 1) + MinLength(tokens[1..])
  }

  lemma {:induction false} MinLengthAppend(a: seq<Token>, b: seq<Token>)
    ensures MinLength(a + b) == MinLength(a) + MinLength(b)
  {
    if a == [] {
      assert a + b == b;
    } else {
      assert (a + b)[1..] == a[1..] + b;
      MinLengthAppend(a[1..], b);
    }
  }

  lemma {:induction false} AtLeastMinLength(tokens: seq<Token>, text: Bytes)
    requires Matches(tokens, text)
    ensures |text| >= MinLength(tokens)
  {
    if tokens != [] {
      assert tokens == [tokens[0]] + tokens[1..];
      var k := CutsHead(tokens[0], tokens[1..], text);
      AtLeastMinLength(tokens[1..], text[k..]);
    }
  }

  /** A pattern that matches anything matches a text of its least length. */
  lemma {:induction false} MinLengthAttained(tokens: seq<Token>, text: Bytes) returns (least: Bytes)
    requires Matches(tokens, text)
    ensures Matches(tokens, least) && |least| == MinLength(tokens)
    ensures AllBytes(text) ==> AllBytes(least)
  {
    if tokens == [] {
      MatchesNone([]);
      least := [];
    } else {
      assert tokens == [tokens[0]] + tokens[1..];
      var k := CutsHead(tokens[0], tokens[1..], text);
      var rest := MinLengthAttained(tokens[1..], text[k..]);
      var first := if tokens[0].AnyRun? then [] else text[..k];
      CutsCons(tokens[0], tokens[1..], first, rest);
      least := first + rest;
    }
  }

  lemma {:induction false} NotOnlyStars(q: Bytes, i: nat)
    requires i < |q| && q[i] != '*'
    ensures MinLength(Tokenize(q)) >= 1
    decreases |q|
  {
    if q[0] == '*' {
      NotOnlyStars(q[1..], i - 1);
    }
  }

  // --- Extending an open token ------------------------------------------------------------

  /** The part of a closed class body up to its closing bracket is the whole of it. */
  lemma {:induction false} BodyEndsInBracket(body: Bytes)
    requires ClosedBody(body)
    ensures var n := ClassBody(body).1;
            && 0 < n && body[n - 1] == ']'
            && ClassBody(body[..n]) == ClassBody(body)
    decreases |body|
  {
    var n := ClassBody(body).1;
    if body[0] == ']' {
      assert body[..1] == "]";
    } else {
      var length := FirstItem(body).1;
      BodyEndsInBracket(body[length..]);
      assert n == length + ClassBody(body[length..]).1;
      FirstItemPrefix(body, n);
      assert body[..n][length..] == body[length..][..n - length];
      hide FirstItem;
    }
  }

  lemma FirstItemPrefix(body: Bytes, n: nat)
    requires body != [] && n <= |body| && FirstItem(body).1 < n && body[0] != ']' && body[n - 1] == ']'
    ensures FirstItem(body[..n]) == FirstItem(body)
  {
  }

  /** A class body that something appended closes reaches into what was appended. */
  lemma {:induction false} ReachesIn(body: Bytes, q: Bytes)
    requires !ClosedBody(body) && ClosedBody(body + q)
    ensures ClassBody(body + q).1 > |body|
    decreases |body|
  {
    if body != [] {
      var length := FirstItem(body + q).1;
      BodyEndsInBracket((body + q)[length..]);
      if length <= |body| && length == FirstItem(body).1 {
        DropPrefix(body, q, length);
        ReachesIn(body[length..], q);
      }
    }
  }

  /** An open class that some continuation completes to a class admitting c can be
      completed to one by bytes that end in a bracket and are all its own. */
  lemma ExtendBody(body: Bytes, q: Bytes) returns (e: Bytes)
    requires !ClosedBody(body)
    ensures e != [] && e[|e| - 1] == ']' && (AllBytes(q) ==> AllBytes(e))
    ensures ClassBody(body + e) == (ClassBody(body + q).0, |body + e|)
  {
    hide FirstItem, Closing;
    var all := body + q;
    if ClosedBody(all) {
      ReachesIn(body, q);
      BodyEndsInBracket(all);
      var n := ClassBody(all).1;
      e := q[..n - |body|];
      assert body + e == all[..n];
    } else {
      ClosingCloses(all);
      e := q + Closing(all);
      assert body + e == all + Closing(all);
    }
  }

  lemma ExtendClass(tail: Bytes, q: Bytes, text: Bytes) returns (e: Bytes, token: Token, c: char)
    requires |tail| >= 2 && tail[0] == '[' && !FirstClosed(tail) && Matches(Tokenize(tail + q), text)
    requires AllBytes(q) && AllBytes(text)
    ensures AllBytes(e) && IsByte(c) && e != [] && e[|e| - 1] == ']'
    ensures Tokenize(tail + e) == [token] && !token.AnyRun? && Admits(token, c)
  {
    hide FirstToken, ClassBody, FirstItem, ClosedBody, InItems, Matches;
    var skip := if Negated(tail[1..]) then 1 else 0;
    var body := tail[skip + 1..];
    assert !ClosedBody(body);
    e := ExtendBody(body, q);
    OpenClassToken(tail, q);
    OpenClassToken(tail, e);
    MatchesOne(FirstToken(tail + q).0, Tokenize((tail + q)[FirstToken(tail + q).1..]), text);
    token, c := FirstToken(tail + e).0, text[0];
    assert (tail + e)[FirstToken(tail + e).1..] == [];
  }

  lemma ExtendOpen(tail: Bytes, q: Bytes, text: Bytes) returns (e: Bytes, token: Token, c: char)
    requires tail != [] && !FirstClosed(tail) && Matches(Tokenize(tail + q), text)
    requires AllBytes(q) && AllBytes(text)
    ensures AllBytes(e) && IsByte(c)
    ensures Tokenize(tail + e) == [token] && !token.AnyRun? && Admits(token, c)
    ensures MinLength(Tokenize(e)) >= 1
  {
    if tail[0] == '\\' {
      e, token, c := "a", Literal('a'), 'a';
      assert tail + e == "\\a" && (tail + e)[2..] == [];
    } else if tail == "[" {
      e, token, c := "a]", Class(false, [ClassItem('a', 'a')]), 'a';
      ShortClass();
    } else {
      e, token, c := ExtendClass(tail, q, text);
    }
    NotOnlyStars(e, |e| - 1);
  }

  lemma ShortClass()
    ensures Tokenize("[" + "a]") == [Class(false, [ClassItem('a', 'a')])]
    ensures InItems([ClassItem('a', 'a')], 'a')
  {
    var p := "[" + "a]";
    assert p[1..] == "a]" && "a]"[0..] == "a]" && "a]"[1..] == "]";
    assert ClassBody("]") == ([], 1) && FirstItem("a]") == (ClassItem('a', 'a'), 1);
    assert [ClassItem('a', 'a')] + [] == [ClassItem('a', 'a')];
    assert ClassBody("a]") == ([ClassItem('a', 'a')] + [], 2);
    assert FirstToken(p) == (Class(false, [ClassItem('a', 'a')]), 3);
    assert p[3..] == [];
    assert [ClassItem('a', 'a')][0].lo <= 'a' <= [ClassItem('a', 'a')][0].hi;
  }

  lemma OpenClassToken(tail: Bytes, q: Bytes)
    requires |tail| >= 2 && tail[0] == '['
    ensures var skip := if Negated(tail[1..]) then 1 else 0;
            var (items, consumed) := ClassBody(tail[skip + 1..] + q);
            FirstToken(tail + q) == (Class(Negated(tail[1..]), items), 1 + skip + consumed)
  {
    var skip := if Negated(tail[1..]) then 1 else 0;
    assert (tail + q)[1..] == tail[1..] + q;
    assert (tail[1..] + q)[skip..] == tail[skip + 1..] + q;
  }

  // --- Meaning ---------------------------------------------------------------------------

  /** p followed by q matches the text exactly when the text splits into a part
      for each. */
  ghost predicate Composes(p: Bytes, q: Bytes, text: Bytes) {
    GlobMatches(p + q, text) <==>
      exists k :: 0 <= k <= |text| && GlobMatches(p, text[..k]) && GlobMatches(q, text[k..])
  }

  /** No continuation of the pattern matches anything. */
  ghost predicate Dead(p: Bytes) {
    forall q, text :: AllBytes(q) && AllBytes(text) ==> !GlobMatches(p + q, text)
  }

  /** An open pattern that can still match composes wrongly with something. */
  lemma OpenMiscomposes(p: Bytes, q0: Bytes, text0: Bytes) returns (q: Bytes, text: Bytes)
    requires !Closed(p) && GlobMatches(p + q0, text0)
    requires AllBytes(q0) && AllBytes(text0)
    ensures AllBytes(q) && AllBytes(text) && !Composes(p, q, text)
  {
    hide FirstToken, FirstClosed, Admits, Matches, Tokenize, HeadTokens;
    var head, tail := HeadTokens(p), OpenTail(p);
    OpenSplit(p, q0);
    MatchesAppend(head, Tokenize(tail + q0), text0);
    var cut :| 0 <= cut <= |text0| && Matches(head, text0[..cut]) && Matches(Tokenize(tail + q0), text0[cut..]);
    var least := MinLengthAttained(head, text0[..cut]);
    var e, token, c := ExtendOpen(tail, q0, text0[cut..]);
    q, text := e, least + [c];
    OpenSplit(p, q);
    MatchesNone([]);
    MatchesOne(token, [], [c]);
    assert [token] + [] == [token] && [c][1..] == [];
    assert text[..|least|] == least && text[|least|..] == [c];
    MatchesAppend(head, [token], text);
    assert GlobMatches(p + q, text);
    OpenSplit(p, []);
    assert p + [] == p && tail + [] == tail;
    OpenIsLast(tail);
    MinLengthAppend(head, Tokenize(tail));
    forall k | 0 <= k <= |text| && GlobMatches(p, text[..k]) && GlobMatches(q, text[k..]) ensures false {
      AtLeastMinLength(Tokenize(p), text[..k]);
      AtLeastMinLength(Tokenize(q), text[k..]);
    }
  }

  /** A pattern composes with every pattern on every text if and only if it is
      closed, or no continuation of it matches anything. */
  lemma ComposesIffDead(p: Bytes)
    ensures (forall q, text :: AllBytes(q) && AllBytes(text) ==> Composes(p, q, text)) <==> Closed(p) || Dead(p)
  {
    hide GlobMatches, Closed, AllBytes;
    assert AllBytes([]) by { NoBytes(); }
    if Closed(p) {
      forall q, text ensures Composes(p, q, text) {
        GlobAppend(p, q, text);
      }
    } else if Dead(p) {
      forall q, text | AllBytes(q) && AllBytes(text) ensures Composes(p, q, text) {
        DeadComposes(p, q, text);
      }
    } else {
      var q0, text0 :| AllBytes(q0) && AllBytes(text0) && GlobMatches(p + q0, text0);
      var q, text := OpenMiscomposes(p, q0, text0);
    }
  }

  lemma NoBytes()
    ensures AllBytes([])
  {
  }

  lemma DeadComposes(p: Bytes, q: Bytes, text: Bytes)
    requires Dead(p) && AllBytes(q) && AllBytes(text)
    ensures Composes(p, q, text)
  {
    hide GlobMatches;
    assert p + [] == p;
    forall k | 0 <= k <= |text| ensures !GlobMatches(p, text[..k]) {
      assert AllBytes([]) && AllBytes(text[..k]);
      assert !GlobMatches(p + [], text[..k]);
    }
  }

  // --- Which open patterns are beyond hope -----------------------------------------------

  /** The members that every completion of an open class body has. */
  function FixedItems(body: Bytes): seq<ClassItem>
    requires !ClosedBody(body)
    decreases |body|
  {
    if body == [] || body == "\\" then []
    else if |body| == 2 && body[0] != '\\' && body[1] == '-' then [ClassItem(body[0], body[0])]
    else [FirstItem(body).0] + FixedItems(body[FirstItem(body).1..])
  }

  lemma {:induction false} FixedKept(body: Bytes, q: Bytes, c: char)
    requires !ClosedBody(body) && InItems(FixedItems(body), c)
    ensures InItems(ClassBody(body + q).0, c)
    decreases |body|
  {
    var all := body + q;
    var (item, length) := FirstItem(all);
    InItemsCons(item, ClassBody(all[length..]).0, c);
    if |body| == 1 {
      assert body[1..] == [];
      InItemsCons(FirstItem(body).0, [], c);
      assert FixedItems(body) == [FirstItem(body).0] + [];
    } else if |body| > 2 || body[0] == '\\' || body[1] != '-' {
      assert FirstItem(all) == FirstItem(body);
      InItemsCons(item, FixedItems(body[length..]), c);
      DropPrefix(body, q, length);
      if !(item.lo <= c <= item.hi) {
        FixedKept(body[length..], q, c);
      }
    }
  }

  /** A completion of an open class body that leaves out a byte, if any does. */
  function Avoiding(body: Bytes, c: char): (end: Bytes)
    requires !ClosedBody(body)
    ensures AllBytes(body) ==> AllBytes(end)
    decreases |body|
  {
    if body == [] then "]"
    else if body == "\\" then (if c == 'a' then "b]" else "a]")
    else if |body| == 2 && body[0] != '\\' && body[1] == '-' then [body[0], ']']
    else Avoiding(body[FirstItem(body).1..], c)
  }

  lemma {:induction false} AvoidingAvoids(body: Bytes, c: char)
    requires !ClosedBody(body) && !InItems(FixedItems(body), c)
    ensures var (items, consumed) := ClassBody(body + Avoiding(body, c));
            consumed == |body + Avoiding(body, c)| && !InItems(items, c)
    decreases |body|
  {
    var end := Avoiding(body, c);
    var all := body + end;
    if body == [] {
      assert all == "]";
    } else {
      var (item, length) := FirstItem(all);
      InItemsCons(item, ClassBody(all[length..]).0, c);
      if body == "\\" {
        assert all[2..] == "]";
        NoItems(c);
      } else if |body| == 2 && body[0] != '\\' && body[1] == '-' {
        assert all[3..] == "]";
        NoItems(c);
        InItemsCons(item, [], c);
        assert FixedItems(body) == [item] + [];
      } else {
        FirstItemAvoiding(body, c);
        InItemsCons(item, FixedItems(body[length..]), c);
        DropPrefix(body, end, length);
        AvoidingAvoids(body[length..], c);
      }
    }
  }

  lemma NoItems(c: char)
    ensures ClassBody("]") == ([], 1) && !InItems([], c)
  {
  }

  lemma FirstItemAvoiding(body: Bytes, c: char)
    requires body != [] && body != "\\" && !ClosedBody(body)
    requires !(|body| == 2 && body[0] != '\\' && body[1] == '-')
    ensures FirstItem(body + Avoiding(body, c)) == FirstItem(body)
  {
    if |body| == 1 {
      assert body[1..] == [];
    }
  }

  /** Without negation an open class can be completed to one that admits an `a`. */
  lemma {:induction false} CompletedWithA(body: Bytes)
    requires !ClosedBody(body)
    ensures ClassBody(body + "a]").1 == |body| + 2 && InItems(ClassBody(body + "a]").0, 'a')
    decreases |body|
  {
    var all := body + "a]";
    var (item, length) := FirstItem(all);
    InItemsCons(item, ClassBody(all[length..]).0, 'a');
    NoItems('a');
    if body == [] || body == "\\" || (|body| == 2 && body[0] != '\\' && body[1] == '-') {
      assert all[length..] == "]";
    } else {
      assert FirstItem(all) == FirstItem(body);
      DropPrefix(body, "a]", length);
      CompletedWithA(body[length..]);
    }
  }

  /** The token matches no byte. */
  predicate NoByte(token: Token) {
    !token.AnyRun? && forall c: char | IsByte(c) :: !Admits(token, c)
  }

  /** A negated class whose fixed members are all the bytes there are. */
  predicate HopelessTail(tail: Bytes)
    requires tail != [] && !FirstClosed(tail)
  {
    && |tail| >= 2 && tail[0] == '[' && Negated(tail[1..])
    && forall c: char | IsByte(c) :: InItems(FixedItems(tail[2..]), c)
  }

  /** A token before the open one matches no byte, or no completion of the open
      one does. */
  predicate Hopeless(p: Bytes)
    requires !Closed(p)
  {
    || (exists i | 0 <= i < |HeadTokens(p)| :: NoByte(HeadTokens(p)[i]))
    || HopelessTail(OpenTail(p))
  }

  lemma {:induction false} NoByteBlocks(tokens: seq<Token>, i: nat, text: Bytes)
    requires i < |tokens| && NoByte(tokens[i]) && AllBytes(text)
    ensures !Matches(tokens, text)
  {
    hide Matches;
    if Matches(tokens, text) {
      assert tokens == [tokens[0]] + tokens[1..];
      var k := CutsHead(tokens[0], tokens[1..], text);
      if i > 0 {
        NoByteBlocks(tokens[1..], i - 1, text[k..]);
      }
    }
  }

  lemma {:induction false} SomeText(tokens: seq<Token>) returns (text: Bytes)
    requires forall i :: 0 <= i < |tokens| ==> !NoByte(tokens[i])
    ensures AllBytes(text) && Matches(tokens, text)
  {
    hide Matches;
    if tokens == [] {
      MatchesNone([]);
      text := [];
    } else {
      assert tokens == [tokens[0]] + tokens[1..];
      var rest := SomeText(tokens[1..]);
      var part := [];
      if !tokens[0].AnyRun? {
        var c :| IsByte(c) && Admits(tokens[0], c);
        part := [c];
      }
      CutsCons(tokens[0], tokens[1..], part, rest);
      text := part + rest;
    }
  }

  lemma CompleteClass(tail: Bytes) returns (q: Bytes, token: Token, c: char)
    requires |tail| >= 2 && tail[0] == '[' && !FirstClosed(tail) && !HopelessTail(tail) && AllBytes(tail)
    ensures AllBytes(q) && IsByte(c)
    ensures Tokenize(tail + q) == [token] && !token.AnyRun? && Admits(token, c)
  {
    hide FirstToken, ClassBody, FirstItem, ClosedBody, InItems, FixedItems;
    var skip := if Negated(tail[1..]) then 1 else 0;
    var body := tail[skip + 1..];
    assert !ClosedBody(body);
    if Negated(tail[1..]) {
      c :| IsByte(c) && !InItems(FixedItems(body), c);
      q := Avoiding(body, c);
      AvoidingAvoids(body, c);
    } else {
      q, c := "a]", 'a';
      CompletedWithA(body);
    }
    OpenClassToken(tail, q);
    token := FirstToken(tail + q).0;
    assert (tail + q)[FirstToken(tail + q).1..] == [];
  }

  /** The open token of a pattern that is not beyond hope can be completed to one
      that matches a byte. */
  lemma Complete(tail: Bytes) returns (q: Bytes, token: Token, c: char)
    requires tail != [] && !FirstClosed(tail) && !HopelessTail(tail) && AllBytes(tail)
    ensures AllBytes(q) && IsByte(c)
    ensures Tokenize(tail + q) == [token] && !token.AnyRun? && Admits(token, c)
  {
    if tail[0] == '\\' {
      q, token, c := "a", Literal('a'), 'a';
      assert tail + q == "\\a" && (tail + q)[2..] == [];
    } else if tail == "[" {
      q, token, c := "a]", Class(false, [ClassItem('a', 'a')]), 'a';
      ShortClass();
    } else {
      q, token, c := CompleteClass(tail);
    }
  }

  lemma HopelessIsDead(p: Bytes, q: Bytes, text: Bytes)
    requires !Closed(p) && Hopeless(p) && AllBytes(q) && AllBytes(text)
    ensures !GlobMatches(p + q, text)
  {
    hide Matches, Tokenize, FirstClosed, FirstToken;
    OpenSplit(p, q);
    var head, tail := HeadTokens(p), OpenTail(p);
    var tokens := Tokenize(p + q);
    if i :| 0 <= i < |head| && NoByte(head[i]) {
      assert tokens[i] == head[i];
      NoByteBlocks(tokens, i, text);
    } else {
      HopelessToken(tail, q);
      assert tokens[|head|] == Tokenize(tail + q)[0];
      NoByteBlocks(tokens, |head|, text);
    }
  }

  lemma HopelessToken(tail: Bytes, q: Bytes)
    requires tail != [] && !FirstClosed(tail) && HopelessTail(tail)
    ensures Tokenize(tail + q) != [] && NoByte(Tokenize(tail + q)[0])
  {
    OpenClassToken(tail, q);
    hide FirstItem, ClassBody, FixedItems, InItems, FirstClosed;
    var token := FirstToken(tail + q).0;
    forall c: char | IsByte(c) ensures !Admits(token, c) {
      FixedKept(tail[2..], q, c);
    }
  }

  lemma HopefulIsAlive(p: Bytes) returns (q: Bytes, text: Bytes)
    requires !Closed(p) && !Hopeless(p) && AllBytes(p)
    ensures AllBytes(q) && AllBytes(text) && GlobMatches(p + q, text)
  {
    hide Matches, Tokenize, FirstClosed, FirstToken, Admits, HopelessTail, NoByte;
    var head, tail := HeadTokens(p), OpenTail(p);
    TailOfBytes(p);
    var first := SomeText(head);
    var e, token, c := Complete(tail);
    q, text := e, first + [c];
    OpenSplit(p, q);
    MatchesNone([]);
    MatchesOne(token, [], [c]);
    assert [token] + [] == [token] && [c][1..] == [];
    assert text[..|first|] == first && text[|first|..] == [c];
    MatchesAppend(head, [token], text);
  }

  lemma {:induction false} TailOfBytes(p: Bytes)
    requires !Closed(p) && AllBytes(p)
    ensures AllBytes(OpenTail(p))
    decreases |p|
  {
    hide FirstToken, FirstClosed;
    if FirstClosed(p) {
      TailOfBytes(p[FirstToken(p).1..]);
    }
  }

  /** A pattern composes with every pattern on every text if and only if it is
      closed, or beyond hope, both of which can be read off the pattern. */
  lemma ComposesIff(p: Bytes)
    requires AllBytes(p)
    ensures (forall q, text :: AllBytes(q) && AllBytes(text) ==> Composes(p, q, text)) <==> Closed(p) || Hopeless(p)
  {
    hide GlobMatches, Closed, AllBytes, Hopeless, Composes;
    ComposesIffDead(p);
    if !Closed(p) {
      if Hopeless(p) {
        forall q, text | AllBytes(q) && AllBytes(text) ensures !GlobMatches(p + q, text) {
          HopelessIsDead(p, q, text);
        }
      } else {
        var q, text := HopefulIsAlive(p);
        assert !Dead(p);
      }
    }
  }

  /** The dangling escape: it matches itself, but escapes what is appended. */
  lemma EscapeMiscomposes()
    ensures GlobMatches("\\" + "a", "a") && !Composes("\\", "a", "a")
  {
    assert Quote("a") == "\\" + "a" by { assert "a"[1..] == []; }
    QuoteMatchesOnly("a", "a");
    forall k | 0 <= k <= 1 && GlobMatches("\\", "a"[..k]) && GlobMatches("a", "a"[k..]) ensures false {
      LoneEscape();
      AtLeastMinLength(Tokenize("\\"), "a"[..k]);
      AtLeastMinLength(Tokenize("a"), "a"[k..]);
    }
  }

  lemma LoneEscape()
    ensures MinLength(Tokenize("\\")) == 1 && MinLength(Tokenize("a")) == 1
  {
    assert "\\"[1..] == [] && "a"[1..] == [];
    assert Tokenize("\\") == [Literal('\\')] && Tokenize("a") == [Literal('a')];
  }
}
