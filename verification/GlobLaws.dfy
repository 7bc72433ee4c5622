// What KEYS patterns match, byte by byte of the pattern (src/database/db.rs).
module GlobLaws {
  import opened ByteStrings
  import opened Glob

  lemma FirstOf(p: Bytes, c: char, q: Bytes)
    requires p == [c] + q && c != '[' && c != '\\'
    ensures Tokenize(p) == [FirstToken(p).0] + Tokenize(q)
  {
    assert p[1..] == q;
  }

  lemma EmptyMatches(t: Bytes)
    ensures GlobMatches("", t) <==> t == ""
  {
    MatchesNone(t);
  }

  /** A question mark takes any one byte. */
  lemma QuestionMark(q: Bytes, t: Bytes)
    ensures GlobMatches("?" + q, t) <==> t != [] && GlobMatches(q, t[1..])
  {
    FirstOf("?" + q, '?', q);
    MatchesOne(AnyByte, Tokenize(q), t);
  }

  /** A star takes any prefix. */
  lemma Star(q: Bytes, t: Bytes)
    ensures GlobMatches("*" + q, t) <==> exists k :: 0 <= k <= |t| && GlobMatches(q, t[k..])
  {
    FirstOf("*" + q, '*', q);
    MatchesRun(Tokenize(q), t);
    if GlobMatches("*" + q, t) {
      var k := SuffixFind(Tokenize(q), t);
      assert GlobMatches(q, t[k..]);
    }
    if k :| 0 <= k <= |t| && GlobMatches(q, t[k..]) {
      SuffixAt(Tokenize(q), t, k);
    }
  }

  /** Any other byte but a bracket or a backslash takes itself. */
  lemma PlainByte(c: char, q: Bytes, t: Bytes)
    requires c !in "*?[\\"
    ensures GlobMatches([c] + q, t) <==> t != [] && t[0] == c && GlobMatches(q, t[1..])
  {
    assert "*?[\\"[0] == '*' && "*?[\\"[1] == '?' && "*?[\\"[2] == '[' && "*?[\\"[3] == '\\';
    FirstOf([c] + q, c, q);
    MatchesOne(Literal(c), Tokenize(q), t);
  }

  /** A backslash makes the byte after it take itself; at the end it is an
      ordinary byte. */
  lemma Escape(c: char, q: Bytes, t: Bytes)
    ensures GlobMatches(['\\', c] + q, t) <==> t != [] && t[0] == c && GlobMatches(q, t[1..])
    ensures GlobMatches("\\", t) <==> t == "\\"
  {
    assert (['\\', c] + q)[2..] == q;
    MatchesOne(Literal(c), Tokenize(q), t);
    assert Tokenize("\\") == [Literal('\\')] + [];
    MatchesOne(Literal('\\'), [], t);
    if t != [] {
      MatchesNone(t[1..]);
      assert t == [t[0]] + t[1..];
    }
  }

  // --- Classes ----------------------------------------------------------------------

  /** What may stand in a class: a byte, a byte after a backslash, or a range whose
      ends may come in either order. */
  datatype Member =
    | One(c: char)
    | Escaped(c: char)
    | Range(a: char, b: char)
  {
    function Text(): Bytes {
      match this
      case One(c) => [c]
      case Escaped(c) => ['\\', c]
      case Range(a, b) => [a, '-', b]
    }

    predicate Covers(x: char) {
      match this
      case One(c) => x == c
      case Escaped(c) => x == c
      case Range(a, b) => a <= x <= b || b <= x <= a
    }

    predicate Plain() {
      match this
      case One(c) => c != ']' && c != '\\'
      case Escaped(_) => true
      case Range(a, b) => a != ']' && a != '\\' && b != ']'
    }
  }

  function Spell(members: seq<Member>): Bytes {
    if members == [] then [] else members[0].Text() + Spell(members[1..])
  }

  /** The text spells these members and no others: none is taken for a closing
      bracket or an escape, and none for the start of a range. */
  predicate Unambiguous(members: seq<Member>) {
    members != [] ==>
      && members[0].Plain() && Unambiguous(members[1..])
      && (members[0].One? ==> var rest := Spell(members[1..]); !(|rest| >= 2 && rest[0] == '-'))
  }

  predicate Cover(members: seq<Member>, x: char) {
    exists i :: 0 <= i < |members| && members[i].Covers(x)
  }

  lemma CoverFirst(members: seq<Member>, x: char)
    requires members != []
    ensures Cover(members, x) <==> members[0].Covers(x) || Cover(members[1..], x)
  {
    if Cover(members, x) && !members[0].Covers(x) {
      var i :| 0 <= i < |members| && members[i].Covers(x);
      assert members[1..][i - 1].Covers(x);
    }
    if Cover(members[1..], x) {
      var i :| 0 <= i < |members| - 1 && members[1..][i].Covers(x);
      assert members[i + 1].Covers(x);
    }
  }

  lemma FirstIsOne(c: char, rest: Bytes)
    requires c != '\\' && !(|rest| >= 2 && rest[0] == '-' && rest[1] != ']')
    ensures FirstItem([c] + rest) == (ClassItem(c, c), 1)
  {
    assert |rest| >= 2 ==> ([c] + rest)[1] == rest[0] && ([c] + rest)[2] == rest[1];
  }

  lemma FirstIsEscaped(c: char, rest: Bytes)
    ensures FirstItem(['\\', c] + rest) == (ClassItem(c, c), 2)
  {
  }

  lemma FirstIsRange(a: char, b: char, rest: Bytes)
    requires a != '\\' && b != ']'
    ensures FirstItem([a, '-', b] + rest) == (Ordered(a, b), 3)
  {
  }

  lemma NoRangeFollows(spelled: Bytes, tail: Bytes)
    requires !(|spelled| >= 2 && spelled[0] == '-') && (tail == [] || tail[0] == ']')
    ensures var rest := spelled + tail;
            !(|rest| >= 2 && rest[0] == '-' && rest[1] != ']')
  {
  }

  lemma FirstMember(members: seq<Member>, tail: Bytes, x: char)
    requires members != [] && Unambiguous(members) && (tail == [] || tail[0] == ']')
    ensures var body, text := Spell(members) + tail, members[0].Text();
            && body != [] && body[0] != ']'
            && FirstItem(body).1 == |text| && body[|text|..] == Spell(members[1..]) + tail
            && (FirstItem(body).0.lo <= x <= FirstItem(body).0.hi <==> members[0].Covers(x))
  {
    hide FirstItem;
    var rest := Spell(members[1..]) + tail;
    assert Spell(members) + tail == members[0].Text() + rest;
    match members[0] {
      case One(c) =>
        NoRangeFollows(Spell(members[1..]), tail);
        FirstIsOne(c, rest);
      case Escaped(c) => FirstIsEscaped(c, rest);
      case Range(a, b) => FirstIsRange(a, b, rest);
    }
  }

  /** A spelled class body holds the bytes of its members, up to a closing bracket
      or the end of the pattern. */
  lemma {:induction false} BodyHolds(members: seq<Member>, tail: Bytes, x: char)
    requires Unambiguous(members) && (tail == [] || tail[0] == ']')
    ensures var (items, consumed) := ClassBody(Spell(members) + tail);
            && (InItems(items, x) <==> Cover(members, x))
            && consumed == |Spell(members)| + if tail == [] then 0 else 1
  {
    hide InItems, Cover, FirstItem, Unambiguous;
    var body := Spell(members) + tail;
    if members == [] {
      assert body == tail;
      NothingHeld(members, tail, x);
    } else {
      RestUnambiguous(members);
      FirstMember(members, tail, x);
      ClassStep(body, x);
      BodyHolds(members[1..], tail, x);
      CoverFirst(members, x);
      assert |Spell(members)| == |members[0].Text()| + |Spell(members[1..])|;
    }
  }

  lemma RestUnambiguous(members: seq<Member>)
    requires members != [] && Unambiguous(members)
    ensures Unambiguous(members[1..])
  {
  }

  lemma NothingHeld(members: seq<Member>, tail: Bytes, x: char)
    requires members == [] && (tail == [] || tail[0] == ']')
    ensures !InItems(ClassBody(tail).0, x) && !Cover(members, x)
    ensures ClassBody(tail).1 == if tail == [] then 0 else 1
  {
    ClassEnd(tail, x);
  }

  /** A caret or an exclamation mark after the opening bracket, or neither. */
  predicate IsMark(mark: Bytes, members: seq<Member>) {
    || mark == "^" || mark == "!"
    || (mark == "" && (members != [] ==> Spell(members)[..1] != "^" && Spell(members)[..1] != "!"))
  }

  lemma SpelledClass(mark: Bytes, members: seq<Member>, tail: Bytes, x: char)
    requires Unambiguous(members) && IsMark(mark, members) && (tail == [] || tail[0] == ']')
    ensures var (token, consumed) := ParseClass(mark + Spell(members) + tail);
            && (Admits(token, x) <==> (Cover(members, x) <==> mark == ""))
            && !token.AnyRun?
            && consumed == |mark + Spell(members)| + if tail == [] then 0 else 1
  {
    hide InItems, Cover, ClassBody, Unambiguous;
    var rest := mark + Spell(members) + tail;
    BodyHolds(members, tail, x);
    assert rest[|mark|..] == Spell(members) + tail;
    if mark == "" {
      SpelledFirst(members);
      assert rest == Spell(members) + tail;
    }
  }

  lemma SpelledFirst(members: seq<Member>)
    ensures members != [] ==> Spell(members) != [] && Spell(members)[..1] == [Spell(members)[0]]
    ensures members == [] ==> Spell(members) == []
  {
  }

  /** A class takes one byte, one of its members, or with a mark one that is not. */
  lemma ClosedClass(mark: Bytes, members: seq<Member>, q: Bytes, t: Bytes)
    requires Unambiguous(members) && IsMark(mark, members)
    ensures GlobMatches("[" + mark + Spell(members) + "]" + q, t) <==>
            t != [] && (Cover(members, t[0]) <==> mark == "") && GlobMatches(q, t[1..])
  {
    hide Cover, ParseClass, Unambiguous, IsMark, Admits;
    var p := "[" + mark + Spell(members) + "]" + q;
    var inner := mark + Spell(members) + ("]" + q);
    assert p[1..] == inner;
    var (token, consumed) := ParseClass(inner);
    forall x ensures Admits(token, x) <==> (Cover(members, x) <==> mark == "") {
      SpelledClass(mark, members, "]" + q, x);
    }
    SpelledClass(mark, members, "]" + q, 'x');
    assert p[1 + consumed..] == q;
    assert Tokenize(p) == [token] + Tokenize(q);
    MatchesOne(token, Tokenize(q), t);
  }

  /** A class without its closing bracket is taken as if it ended the pattern. */
  lemma OpenClass(mark: Bytes, members: seq<Member>, t: Bytes)
    requires Unambiguous(members) && IsMark(mark, members)
    ensures GlobMatches("[" + mark + Spell(members), t) <==> |t| == 1 && (Cover(members, t[0]) <==> mark == "")
  {
    hide Cover, ParseClass, Unambiguous, IsMark, Admits;
    var p := "[" + mark + Spell(members);
    var inner := mark + Spell(members) + [];
    assert p[1..] == inner;
    var (token, consumed) := ParseClass(inner);
    forall x ensures Admits(token, x) <==> (Cover(members, x) <==> mark == "") {
      SpelledClass(mark, members, [], x);
    }
    SpelledClass(mark, members, [], 'x');
    assert p[1 + consumed..] == [];
    assert Tokenize(p) == [token] + Tokenize([]);
    MatchesOne(token, [], t);
    if t != [] {
      MatchesNone(t[1..]);
    }
  }

  lemma CoverOne(member: Member, x: char)
    ensures Cover([member], x) <==> member.Covers(x)
  {
    assert [member][0] == member;
  }

  /** A range takes the bytes between its ends, whichever comes first. */
  lemma RangeClass(a: char, b: char, q: Bytes, t: Bytes)
    requires a != ']' && a != '\\' && b != ']' && a != '^' && a != '!'
    ensures GlobMatches(['[', a, '-', b, ']'] + q, t) <==>
            t != [] && (a <= t[0] <= b || b <= t[0] <= a) && GlobMatches(q, t[1..])
    ensures GlobMatches(['[', '^', a, '-', b, ']'] + q, t) <==>
            t != [] && !(a <= t[0] <= b || b <= t[0] <= a) && GlobMatches(q, t[1..])
    ensures GlobMatches(['[', '!', a, '-', b, ']'] + q, t) <==>
            t != [] && !(a <= t[0] <= b || b <= t[0] <= a) && GlobMatches(q, t[1..])
  {
    hide GlobMatches;
    var members := [Range(a, b)];
    assert members[1..] == [];
    assert Spell(members) == [a, '-', b];
    assert Unambiguous(members);
    ClosedClass("", members, q, t);
    ClosedClass("^", members, q, t);
    ClosedClass("!", members, q, t);
    if t != [] {
      CoverOne(Range(a, b), t[0]);
    }
    assert ['[', a, '-', b, ']'] + q == "[" + "" + Spell(members) + "]" + q;
    assert ['[', '^', a, '-', b, ']'] + q == "[" + "^" + Spell(members) + "]" + q;
    assert ['[', '!', a, '-', b, ']'] + q == "[" + "!" + Spell(members) + "]" + q;
  }
}
