// The sorted set with its two indexes (src/database/data_structure.rs).
module SortedSet {
  import opened Wrappers
  import opened ByteStrings
  import opened Ranges

  // --- Scores and their order ------------------------------------------------

  /** A floating-point score that is not NaN. */
  datatype Score = NegInf | Fin(value: real) | PosInf

  predicate ScoreLess(a: Score, b: Score) {
    match (a, b)
    case (NegInf, NegInf) => false
    case (NegInf, _) => true
    case (Fin(x), Fin(y)) => x < y
    case (Fin(_), PosInf) => true
    case _ => false
  }

  predicate ScoreAtMost(a: Score, b: Score) {
    a == b || ScoreLess(a, b)
  }

  /** Addition of scores; None where the sum is NaN. */
  function AddScores(a: Score, b: Score): Option<Score> {
    match (a, b)
    case (Fin(x), Fin(y)) => Some(Fin(x + y))
    case (PosInf, NegInf) => None
    case (NegInf, PosInf) => None
    case (Fin(_), _) => Some(b)
    case _ => Some(a)
  }

  /** Lexicographic order of byte strings. */
  predicate BytesLess(a: Bytes, b: Bytes) {
    b != [] && (a == [] || a[0] < b[0] || (a[0] == b[0] && BytesLess(a[1..], b[1..])))
  }

  lemma {:induction false} BytesTrichotomy(a: Bytes, b: Bytes)
    ensures !(BytesLess(a, b) && BytesLess(b, a))
    ensures a == b <==> !BytesLess(a, b) && !BytesLess(b, a)
  {
    if a != [] && b != [] {
      BytesTrichotomy(a[1..], b[1..]);
      assert a == [a[0]] + a[1..] && b == [b[0]] + b[1..];
    }
  }

  lemma {:induction false} BytesTransitive(a: Bytes, b: Bytes, c: Bytes)
    requires BytesLess(a, b) && BytesLess(b, c)
    ensures BytesLess(a, c)
  {
    if a != [] && a[0] == b[0] == c[0] {
      BytesTransitive(a[1..], b[1..], c[1..]);
    }
  }

  datatype SortedMember = SortedMember(member: Bytes, score: Score)

  /** `SortedMember::cmp` is Less: by score, then by member. */
  predicate Before(a: SortedMember, b: SortedMember) {
    ScoreLess(a.score, b.score) || (a.score == b.score && BytesLess(a.member, b.member))
  }

  lemma BeforeTrichotomy(a: SortedMember, b: SortedMember)
    ensures !(Before(a, b) && Before(b, a))
    ensures a == b <==> !Before(a, b) && !Before(b, a)
  {
    BytesTrichotomy(a.member, b.member);
  }

  lemma BeforeTransitive(a: SortedMember, b: SortedMember, c: SortedMember)
    requires Before(a, b) && Before(b, c)
    ensures Before(a, c)
  {
    if a.score == b.score == c.score {
      BytesTransitive(a.member, b.member, c.member);
    }
  }

  // --- The ordered index -----------------------------------------------------

  predicate StrictlySorted(s: seq<SortedMember>) {
    forall i, j :: 0 <= i < j < |s| ==> Before(s[i], s[j])
  }

  /** `BTreeSet::insert`. */
  function Insert(s: seq<SortedMember>, x: SortedMember): seq<SortedMember> {
    if s == [] || Before(x, s[0]) then [x] + s
    else if s[0] == x then s
    else [s[0]] + Insert(s[1..], x)
  }

  /** `BTreeSet::remove`. */
  function Remove(s: seq<SortedMember>, x: SortedMember): seq<SortedMember> {
    if s == [] then []
    else if s[0] == x then s[1..]
    else [s[0]] + Remove(s[1..], x)
  }

  lemma SortedCons(x: SortedMember, s: seq<SortedMember>)
    ensures StrictlySorted([x] + s) <==> StrictlySorted(s) && forall y <- s :: Before(x, y)
  {
    var t := [x] + s;
    assert forall i :: 0 <= i < |s| ==> s[i] == t[i + 1];
    if StrictlySorted(t) {
      forall y | y in s ensures Before(x, y) {
        var i :| 0 <= i < |s| && s[i] == y;
        assert Before(t[0], t[i + 1]);
      }
    }
  }

  lemma {:induction false} InsertSorted(s: seq<SortedMember>, x: SortedMember)
    requires StrictlySorted(s)
    ensures StrictlySorted(Insert(s, x))
    ensures forall y :: y in Insert(s, x) <==> y == x || y in s
  {
    if s == [] {
    } else {
      assert s == [s[0]] + s[1..];
      SortedCons(s[0], s[1..]);
      BeforeTrichotomy(x, s[0]);
      if Before(x, s[0]) {
        forall y | y in s ensures Before(x, y) {
          if y != s[0] { BeforeTransitive(x, s[0], y); }
        }
        SortedCons(x, s);
      } else if s[0] != x {
        InsertSorted(s[1..], x);
        SortedCons(s[0], Insert(s[1..], x));
      }
    }
  }

  lemma {:induction false} RemoveSorted(s: seq<SortedMember>, x: SortedMember)
    requires StrictlySorted(s)
    ensures StrictlySorted(Remove(s, x))
    ensures forall y :: y in Remove(s, x) <==> y in s && y != x
  {
    if s != [] {
      assert s == [s[0]] + s[1..];
      SortedCons(s[0], s[1..]);
      BeforeTrichotomy(s[0], s[0]);
      RemoveSorted(s[1..], x);
      if s[0] != x {
        SortedCons(s[0], Remove(s[1..], x));
      }
    }
  }

  lemma HasElement<T>(s: seq<T>)
    requires s != []
    ensures exists y :: y in s
  {
    assert s[0] in s;
  }

  /** A strictly sorted sequence is determined by its elements. */
  lemma {:induction false} SortedUnique(s: seq<SortedMember>, t: seq<SortedMember>)
    requires StrictlySorted(s) && StrictlySorted(t)
    requires forall y :: y in s <==> y in t
    ensures s == t
  {
    if s == [] {
      if t != [] { HasElement(t); }
    } else {
      assert s[0] in t && t[0] in s;
      BeforeTrichotomy(s[0], t[0]);
      assert s == [s[0]] + s[1..] && t == [t[0]] + t[1..];
      SortedCons(s[0], s[1..]);
      SortedCons(t[0], t[1..]);
      forall y ensures y in s[1..] <==> y in t[1..] {
        BeforeTrichotomy(s[0], s[0]);
        assert y in s <==> y == s[0] || y in s[1..];
        assert y in t <==> y == t[0] || y in t[1..];
      }
      SortedUnique(s[1..], t[1..]);
    }
  }

  // --- The two indexes together ----------------------------------------------

  /** A sorted set by value: score by member, and the members in order. */
  datatype ZSet = ZSet(scores: map<Bytes, Score>, order: seq<SortedMember>)
  {
    /** The ordered index is sorted and holds exactly the pairs of the map. */
    ghost predicate Agrees() {
      && StrictlySorted(order)
      && (forall x <- order :: x.member in scores && scores[x.member] == x.score)
      && (forall m <- scores :: SortedMember(m, scores[m]) in order)
    }

    function Add(score: Score, member: Bytes): ZSet {
      if member in scores && scores[member] == score then this
      else
        var kept := if member in scores then Remove(order, SortedMember(member, scores[member])) else order;
        ZSet(scores[member := score], Insert(kept, SortedMember(member, score)))
    }

    function Delete(member: Bytes): ZSet {
      if member in scores then ZSet(scores - {member}, Remove(order, SortedMember(member, scores[member])))
      else this
    }

    function Range(start: int, stop: int): seq<Bytes> {
      Members(Slice(order, start, stop))
    }

    /** Position of the first entry holding the member, as `zrank` searches it. */
    function Rank(member: Bytes): Option<nat> {
      RankIn(order, member)
    }

    function RangeByScore(bounds: Bounds): seq<Bytes> {
      Members(ScoredWithin(order, bounds))
    }
  }

  const EMPTY: ZSet := ZSet(map[], [])

  function Members(s: seq<SortedMember>): (r: seq<Bytes>)
    ensures |r| == |s|
    ensures forall i :: 0 <= i < |s| ==> r[i] == s[i].member
  {
    seq(|s|, i requires 0 <= i < |s| => s[i].member)
  }

  function RankIn(s: seq<SortedMember>, member: Bytes): (r: Option<nat>)
    ensures r.Some? ==> r.value < |s| && s[r.value].member == member
  {
    if s == [] then None
    else if s[0].member == member then Some(0)
    else
      match RankIn(s[1..], member)
      case Some(i) => Some(i + 1)
      case None => None
  }

  /** The two ends of a score range, each inclusive or exclusive. */
  datatype Bounds = Bounds(min: Score, minInclusive: bool, max: Score, maxInclusive: bool)

  predicate InBounds(score: Score, bounds: Bounds) {
    && (if bounds.minInclusive then ScoreAtMost(bounds.min, score) else ScoreLess(bounds.min, score))
    && (if bounds.maxInclusive then ScoreAtMost(score, bounds.max) else ScoreLess(score, bounds.max))
  }

  function ScoredWithin(s: seq<SortedMember>, bounds: Bounds): seq<SortedMember> {
    if s == [] then []
    else
      (if InBounds(s[0].score, bounds) then [s[0]] else [])
      + ScoredWithin(s[1..], bounds)
  }

  lemma AddAgrees(z: ZSet, score: Score, member: Bytes)
    requires z.Agrees()
    ensures z.Add(score, member).Agrees()
    ensures z.Add(score, member).scores == z.scores[member := score]
  {
    hide Before, Insert, Remove;
    if member in z.scores {
      RemoveSorted(z.order, SortedMember(member, z.scores[member]));
      InsertSorted(Remove(z.order, SortedMember(member, z.scores[member])), SortedMember(member, score));
    } else {
      InsertSorted(z.order, SortedMember(member, score));
    }
  }

  lemma DeleteAgrees(z: ZSet, member: Bytes)
    requires z.Agrees()
    ensures z.Delete(member).Agrees()
    ensures z.Delete(member).scores == z.scores - {member}
  {
    if member in z.scores {
      RemoveSorted(z.order, SortedMember(member, z.scores[member]));
    }
  }

  /** A step on a sorted set: `zadd` or `zrem`. */
  datatype ZStep = AddStep(score: Score, member: Bytes) | DeleteStep(member: Bytes)

  function RunSteps(z: ZSet, steps: seq<ZStep>): ZSet
    decreases |steps|
  {
    if steps == [] then z
    else
      var next := match steps[0]
                  case AddStep(score, member) => z.Add(score, member)
                  case DeleteStep(member) => z.Delete(member);
      RunSteps(next, steps[1..])
  }

  /** The indexes agree after any sequence of additions and removals. */
  lemma {:induction false} RunAgrees(z: ZSet, steps: seq<ZStep>)
    requires z.Agrees()
    ensures RunSteps(z, steps).Agrees()
    decreases |steps|
  {
    if steps != [] {
      match steps[0] {
        case AddStep(score, member) =>
          AddAgrees(z, score, member);
          RunAgrees(z.Add(score, member), steps[1..]);
        case DeleteStep(member) =>
          DeleteAgrees(z, member);
          RunAgrees(z.Delete(member), steps[1..]);
      }
    }
  }

  /** The order is a function of the map: two agreeing sets with the same
      scores are equal, however they were built. */
  lemma ScoresDetermine(a: ZSet, b: ZSet)
    requires a.Agrees() && b.Agrees() && a.scores == b.scores
    ensures a == b
  {
    forall y ensures y in a.order <==> y in b.order {
      assert y in a.order ==> SortedMember(y.member, a.scores[y.member]) == y;
      assert y in b.order ==> SortedMember(y.member, b.scores[y.member]) == y;
    }
    SortedUnique(a.order, b.order);
  }

  /** `zcard` counts the map; the ordered index has as many entries. */
  lemma {:induction false} CardIsOrderLength(z: ZSet)
    requires z.Agrees()
    ensures |z.scores| == |z.order|
    decreases |z.order|
  {
    if z.order == [] {
      assert z.scores == map[];
    } else {
      hide Before;
      var m := z.order[0].member;
      BeforeTrichotomy(z.order[0], z.order[0]);
      DeleteAgrees(z, m);
      assert z.Delete(m).order == z.order[1..];
      CardIsOrderLength(z.Delete(m));
      assert z.scores == z.Delete(m).scores[m := z.scores[m]];
    }
  }

  lemma {:induction false} RankInFirst(s: seq<SortedMember>, r: nat)
    requires r < |s| && forall i :: 0 <= i < r ==> s[i].member != s[r].member
    ensures RankIn(s, s[r].member) == Some(r)
  {
    if r > 0 {
      RankInFirst(s[1..], r - 1);
    }
  }

  /** Distinct positions of the order hold distinct members. */
  lemma MembersDistinct(z: ZSet, i: nat, j: nat)
    requires z.Agrees() && i < j < |z.order|
    ensures z.order[i].member != z.order[j].member
  {
    assert z.order[i] in z.order && z.order[j] in z.order;
    assert Before(z.order[i], z.order[j]);
    BeforeTrichotomy(z.order[i], z.order[j]);
  }

  /** A member has rank r exactly when the one-element range at r is that member. */
  lemma RankIffRange(z: ZSet, member: Bytes, r: nat)
    requires z.Agrees()
    ensures z.Rank(member) == Some(r) <==> z.Range(r, r) == [member]
    ensures z.Rank(member) == None <==> member !in z.scores
  {
    SliceOfIndex(z.order, r);
    if z.Range(r, r) == [member] {
      assert z.order[r].member == member;
      forall i | 0 <= i < r ensures z.order[i].member != z.order[r].member {
        MembersDistinct(z, i, r);
      }
      RankInFirst(z.order, r);
    }
    if z.Rank(member).Some? {
      assert z.order[z.Rank(member).value] in z.order;
    }
    if member in z.scores {
      RankInFinds(z.order, SortedMember(member, z.scores[member]));
    }
  }

  lemma {:induction false} RankInFinds(s: seq<SortedMember>, x: SortedMember)
    requires x in s
    ensures RankIn(s, x.member).Some?
  {
    if s[0].member != x.member {
      RankInFinds(s[1..], x);
    }
  }

  /** Whatever lies between two entries in bounds is in bounds. */
  lemma BoundsConvex(s: seq<SortedMember>, i: nat, j: nat, k: nat, bounds: Bounds)
    requires StrictlySorted(s) && i <= j <= k < |s|
    requires InBounds(s[i].score, bounds) && InBounds(s[k].score, bounds)
    ensures InBounds(s[j].score, bounds)
  {
  }

  lemma FirstInBoundsNext(s: seq<SortedMember>, l: nat, bounds: Bounds)
    requires StrictlySorted(s) && 1 + l < |s|
    requires InBounds(s[0].score, bounds) && InBounds(s[1 + l].score, bounds)
    ensures InBounds(s[1].score, bounds)
  {
    hide InBounds, Before;
    BoundsConvex(s, 0, 1, 1 + l, bounds);
  }

  /** The entries within score bounds are a contiguous slice of the order: the
      slice holds exactly the entries in bounds. */
  lemma {:induction false} ScoredWithinIsSlice(s: seq<SortedMember>, bounds: Bounds)
    returns (lo: nat, hi: nat)
    requires StrictlySorted(s)
    ensures lo <= hi <= |s|
    ensures ScoredWithin(s, bounds) == s[lo..hi]
    ensures forall i :: 0 <= i < |s| ==>
              (lo <= i < hi <==> InBounds(s[i].score, bounds))
  {
    hide InBounds, Before;
    if s == [] {
      return 0, 0;
    }
    if InBounds(s[0].score, bounds) {
      var l, h := ScoredWithinIsSlice(s[1..], bounds);
      assert forall i :: 0 < i < |s| ==> s[i] == s[1..][i - 1];
      if l == h {
        return 0, 1;
      }
      FirstInBoundsNext(s, l, bounds);
      assert s[0..h + 1] == [s[0]] + s[1..][0..h];
      return 0, h + 1;
    } else {
      var l, h := ScoredWithinIsSlice(s[1..], bounds);
      assert forall i :: 0 < i < |s| ==> s[i] == s[1..][i - 1];
      assert s[l + 1..h + 1] == s[1..][l..h];
      return l + 1, h + 1;
    }
  }

  /** `zrange_by_score` is one range of ranks: the members in bounds, in order,
      with none skipped. */
  lemma RangeByScoreContiguous(z: ZSet, bounds: Bounds)
    returns (lo: nat, hi: nat)
    requires z.Agrees()
    ensures lo <= hi <= |z.order|
    ensures z.RangeByScore(bounds) == Members(z.order[lo..hi])
    ensures forall m <- z.scores ::
              InBounds(z.scores[m], bounds) <==> m in Members(z.order[lo..hi])
  {
    lo, hi := ScoredWithinIsSlice(z.order, bounds);
    forall m | m in z.scores
      ensures InBounds(z.scores[m], bounds) <==> m in Members(z.order[lo..hi])
    {
      if InBounds(z.scores[m], bounds) {
        var i :| 0 <= i < |z.order| && z.order[i] == SortedMember(m, z.scores[m]);
        assert Members(z.order[lo..hi])[i - lo] == m;
      }
      if m in Members(z.order[lo..hi]) {
        var i :| 0 <= i < hi - lo && Members(z.order[lo..hi])[i] == m;
        assert z.order[lo + i] in z.order;
      }
    }
  }

  // --- RSortedSet ------------------------------------------------------------

  /** The mutable sorted set of the source, updating both indexes in place. */
  class RSortedSet {
    var members: map<Bytes, Score>
    var sorted: seq<SortedMember>

    constructor ()
      ensures Contents() == EMPTY
    {
      members, sorted := map[], [];
    }

    constructor Of(z: ZSet)
      ensures Contents() == z
    {
      members, sorted := z.scores, z.order;
    }

    function Contents(): ZSet
      reads this
    {
      ZSet(members, sorted)
    }

    method ZAdd(score: Score, member: Bytes) returns (isNew: bool)
      modifies this
      ensures Contents() == old(Contents()).Add(score, member)
      ensures isNew <==> member !in old(members)
    {
      isNew := true;
      if member in members {
        if members[member] == score {
          return false;
        }
        sorted := Remove(sorted, SortedMember(member, members[member]));
        isNew := false;
      }
      sorted := Insert(sorted, SortedMember(member, score));
      members := members[member := score];
    }

    method ZRem(member: Bytes) returns (present: bool)
      modifies this
      ensures Contents() == old(Contents()).Delete(member)
      ensures present <==> member in old(members)
    {
      if member in members {
        var score := members[member];
        members := members - {member};
        sorted := Remove(sorted, SortedMember(member, score));
        return true;
      }
      return false;
    }
  }

  /** Adding pairs one by one, later ones last. */
  function AddAll(z: ZSet, pairs: seq<(Score, Bytes)>): ZSet {
    if pairs == [] then z
    else
      var last := pairs[|pairs| - 1];
      AddAll(z, pairs[..|pairs| - 1]).Add(last.0, last.1)
  }

  function Named(pairs: seq<(Score, Bytes)>): set<Bytes> {
    set i | 0 <= i < |pairs| :: pairs[i].1
  }

  lemma NamedPrefix(pairs: seq<(Score, Bytes)>, i: nat)
    requires i < |pairs|
    ensures Named(pairs[..i + 1]) == Named(pairs[..i]) + {pairs[i].1}
  {
  }

  lemma MeetOneMore(a: set<Bytes>, b: set<Bytes>, x: Bytes)
    ensures |(a + {x}) * b| == |a * b| + (if x in b && x !in a then 1 else 0)
  {
    if x in b && x !in a {
      assert (a + {x}) * b == a * b + {x};
    } else {
      assert (a + {x}) * b == a * b;
    }
  }

  lemma LessOneMore(a: set<Bytes>, b: set<Bytes>, x: Bytes)
    ensures |(a + {x}) - b| == |a - b| + (if x !in b && x !in a then 1 else 0)
  {
    if x !in b && x !in a {
      assert (a + {x}) - b == (a - b) + {x};
    } else {
      assert (a + {x}) - b == a - b;
    }
  }

  lemma {:induction false} AddAllKeys(z: ZSet, pairs: seq<(Score, Bytes)>)
    ensures AddAll(z, pairs).scores.Keys == z.scores.Keys + Named(pairs)
  {
    if pairs != [] {
      var n := |pairs| - 1;
      AddAllKeys(z, pairs[..n]);
      NamedPrefix(pairs, n);
      assert pairs[..n + 1] == pairs;
    }
  }

  /** The loop of ZADD: every pair added in turn, and how many members were new. */
  method AddPairs(zset: RSortedSet, pairs: seq<(Score, Bytes)>) returns (added: nat)
    modifies zset
    ensures zset.Contents() == AddAll(old(zset.Contents()), pairs)
    ensures added == |Named(pairs) - old(zset.members).Keys|
  {
    added := 0;
    ghost var z := zset.Contents();
    for i := 0 to |pairs|
      invariant zset.Contents() == AddAll(z, pairs[..i])
      invariant added == |Named(pairs[..i]) - z.scores.Keys|
    {
      AddAllKeys(z, pairs[..i]);
      NamedPrefix(pairs, i);
      LessOneMore(Named(pairs[..i]), z.scores.Keys, pairs[i].1);
      AddAllLast(z, pairs, i);
      var isNew := zset.ZAdd(pairs[i].0, pairs[i].1);
      if isNew {
        added := added + 1;
      }
    }
    assert pairs[..|pairs|] == pairs;
  }

  lemma AddAllLast(z: ZSet, pairs: seq<(Score, Bytes)>, i: nat)
    requires i < |pairs|
    ensures AddAll(z, pairs[..i + 1]) == AddAll(z, pairs[..i]).Add(pairs[i].0, pairs[i].1)
  {
    assert pairs[..i + 1][..i] == pairs[..i];
  }

  lemma {:induction false} AddAllAgrees(z: ZSet, pairs: seq<(Score, Bytes)>)
    requires z.Agrees()
    ensures AddAll(z, pairs).Agrees()
  {
    if pairs != [] {
      var n := |pairs| - 1;
      AddAllAgrees(z, pairs[..n]);
      AddAgrees(AddAll(z, pairs[..n]), pairs[n].0, pairs[n].1);
    }
  }
}
