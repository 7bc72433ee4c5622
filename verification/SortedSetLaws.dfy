// What the sorted-set commands do, from the entry stored at the key to the value
// the client decodes (src/command/mod.rs, src/database/db.rs). The order of the
// members and the ranges of scores are those of ScoreOrder.
module SortedSetLaws {
  import opened Wrappers
  import opened ByteStrings
  import opened Ranges
  import opened SortedSet
  import opened Resp
  import opened Commands
  import opened Keyspace
  import opened ClientView
  import opened ListLaws

  predicate HasZSet(v: View, key: Bytes) {
    key in v.m && v.m[key].value.SortedSetValue?
  }

  predicate HasOther(v: View, key: Bytes) {
    key in v.m && !v.m[key].value.SortedSetValue?
  }

  /** The sorted set at the key, empty when there is none. */
  function ZSetOf(v: View, key: Bytes): ZSet {
    if HasZSet(v, key) then v.m[key].value.zset else ZSet(map[], [])
  }

  function WithZSet(v: View, key: Bytes, z: ZSet): Store {
    v.m[key := Entry(SortedSetValue(z), v.Deadline(key))]
  }

  predicate IsLastFor(pairs: seq<(Score, Bytes)>, i: nat, member: Bytes) {
    i < |pairs| && pairs[i].1 == member && forall j :: i < j < |pairs| ==> pairs[j].1 != member
  }

  /** Every pair set, the last one given for a member counting. */
  ghost predicate AreSet(scores: map<Bytes, Score>, before: map<Bytes, Score>, pairs: seq<(Score, Bytes)>) {
    && scores.Keys == before.Keys + Named(pairs)
    && (forall k, i: nat | k in scores && IsLastFor(pairs, i, k) :: scores[k] == pairs[i].0)
    && (forall k | k in before && k !in Named(pairs) :: scores[k] == before[k])
  }

  lemma {:induction false} AddAllSets(z: ZSet, pairs: seq<(Score, Bytes)>)
    requires z.Agrees()
    ensures AreSet(AddAll(z, pairs).scores, z.scores, pairs)
  {
    if pairs == [] {
      assert z.scores.Keys == z.scores.Keys + Named(pairs);
    } else {
      hide ZSet.Add, ZSet.Agrees, AreSet;
      var n := |pairs| - 1;
      AddAllSets(z, pairs[..n]);
      AddAllAgrees(z, pairs[..n]);
      AddAgrees(AddAll(z, pairs[..n]), pairs[n].0, pairs[n].1);
      OneMoreSet(AddAll(z, pairs[..n]).scores, z.scores, pairs);
    }
  }

  lemma OneMoreSet(scores: map<Bytes, Score>, before: map<Bytes, Score>, pairs: seq<(Score, Bytes)>)
    requires pairs != [] && AreSet(scores, before, pairs[..|pairs| - 1])
    ensures var last := pairs[|pairs| - 1];
            AreSet(scores[last.1 := last.0], before, pairs)
  {
    hide Named;
    var n := |pairs| - 1;
    var front, after := pairs[..n], scores[pairs[n].1 := pairs[n].0];
    NamedPrefix(pairs, n);
    assert pairs[..n + 1] == pairs;
    forall k, i: nat | k in after && IsLastFor(pairs, i, k) ensures after[k] == pairs[i].0 {
      if i < n {
        assert pairs[n].1 != k;
        assert IsLastFor(front, i, k);
      }
    }
  }

  /** ZADD sets the scores given, keeps the order agreeing with them, and answers
      how many members are new. */
  lemma ZAddLaw(v: View, key: Bytes, pairs: seq<(Score, Bytes)>) returns (z: ZSet)
    requires ZSetOf(v, key).Agrees()
    ensures z.Agrees() && AreSet(z.scores, ZSetOf(v, key).scores, pairs)
    ensures !HasOther(v, key) ==>
              v.Runs(ZAdd(key, pairs), WithZSet(v, key, z),
                     IntegerReply(|(set p | p in pairs :: p.1) - ZSetOf(v, key).scores.Keys|))
    ensures HasOther(v, key) ==> v.Refuses(ZAdd(key, pairs), WRONG_TYPE)
  {
    hide View.Runs, AddAll, ZSet.Agrees, AreSet;
    Performs(v, ZAdd(key, pairs));
    WrongTypeText();
    z := AddAll(ZSetOf(v, key), pairs);
    AddAllSets(ZSetOf(v, key), pairs);
    AddAllAgrees(ZSetOf(v, key), pairs);
    NamedOf(pairs);
  }

  lemma NamedOf(pairs: seq<(Score, Bytes)>)
    ensures Named(pairs) == set p | p in pairs :: p.1
  {
    forall p | p in pairs ensures p.1 in Named(pairs) {
      var i :| 0 <= i < |pairs| && pairs[i] == p;
    }
    assert forall i :: 0 <= i < |pairs| ==> pairs[i] in pairs;
  }

  lemma ZRemLaw(v: View, key: Bytes, member: Bytes) returns (z: ZSet)
    requires ZSetOf(v, key).Agrees()
    ensures z.Agrees() && z.scores == ZSetOf(v, key).scores - {member}
    ensures key !in v.m ==> v.Answers(ZRem(key, member), IntegerReply(0))
    ensures HasZSet(v, key) ==>
              v.Runs(ZRem(key, member), if z.scores == map[] then v.m - {key} else WithZSet(v, key, z),
                     IntegerReply(if member in ZSetOf(v, key).scores then 1 else 0))
    ensures HasOther(v, key) ==> v.Refuses(ZRem(key, member), WRONG_TYPE)
  {
    hide View.Runs, ZSet.Agrees, ZSet.Delete;
    Performs(v, ZRem(key, member));
    WrongTypeText();
    z := ZSetOf(v, key).Delete(member);
    DeleteAgrees(ZSetOf(v, key), member);
  }

  lemma ZScoreLaw(v: View, key: Bytes, member: Bytes)
    ensures var scores := ZSetOf(v, key).scores;
            !HasOther(v, key) ==>
              v.Answers(ZScore(key, member),
                        if member in scores then BulkReply(v.fp.show(scores[member])) else NullReply)
    ensures HasOther(v, key) ==> v.Refuses(ZScore(key, member), WRONG_TYPE)
  {
    hide View.Runs;
    Performs(v, ZScore(key, member));
    WrongTypeText();
  }

  lemma ZCardLaw(v: View, key: Bytes)
    ensures !HasOther(v, key) ==> v.Answers(ZCard(key), IntegerReply(|ZSetOf(v, key).scores|))
    ensures HasOther(v, key) ==> v.Refuses(ZCard(key), WRONG_TYPE)
  {
    hide View.Runs;
    Performs(v, ZCard(key));
    WrongTypeText();
  }

  /** ZRANK answers the position of the member in the order, from zero. */
  lemma ZRankLaw(v: View, key: Bytes, member: Bytes)
    requires ZSetOf(v, key).Agrees()
    ensures !HasOther(v, key) && member !in ZSetOf(v, key).scores ==> v.Answers(ZRank(key, member), NullReply)
    ensures HasZSet(v, key) && member in ZSetOf(v, key).scores ==>
              exists r :: 0 <= r < |ZSetOf(v, key).order| && ZSetOf(v, key).order[r].member == member
                && v.Answers(ZRank(key, member), IntegerReply(r))
    ensures HasOther(v, key) ==> v.Refuses(ZRank(key, member), WRONG_TYPE)
  {
    hide View.Runs, ZSet.Agrees;
    Performs(v, ZRank(key, member));
    WrongTypeText();
    RankIffRange(ZSetOf(v, key), member, 0);
  }

  /** The members alone, or each followed by its printed score. */
  predicate ListsMembers(texts: seq<Bytes>, s: seq<SortedMember>) {
    |texts| == |s| && forall i :: 0 <= i < |s| ==> texts[i] == s[i].member
  }

  predicate ListsScores(texts: seq<Bytes>, s: seq<SortedMember>, fp: FloatText) {
    && |texts| == 2 * |s|
    && forall i :: 0 <= i < |s| ==> texts[2 * i] == s[i].member && texts[2 * i + 1] == fp.show(s[i].score)
  }

  lemma {:induction false} InterleaveLists(s: seq<SortedMember>, fp: FloatText)
    ensures ListsScores(Interleave(s, fp), s, fp)
  {
    if s != [] {
      InterleaveLists(s[1..], fp);
      var rest, all := Interleave(s[1..], fp), Interleave(s, fp);
      assert all == [s[0].member, fp.show(s[0].score)] + rest;
      forall i | 0 <= i < |s| ensures all[2 * i] == s[i].member && all[2 * i + 1] == fp.show(s[i].score) {
        if i > 0 {
          assert rest[2 * (i - 1)] == s[1..][i - 1].member && rest[2 * (i - 1) + 1] == fp.show(s[1..][i - 1].score);
        }
      }
    }
  }

  lemma ZRangeLaw(v: View, key: Bytes, start: i64, stop: i64) returns (texts: seq<Bytes>)
    ensures ListsMembers(texts, Selected(ZSetOf(v, key).order, start, stop))
    ensures !HasOther(v, key) ==> v.Answers(ZRange(key, start, stop, false), Listed(texts))
    ensures HasOther(v, key) ==> v.Refuses(ZRange(key, start, stop, false), WRONG_TYPE)
  {
    hide View.Runs, Slice, Selected, Listed;
    Performs(v, ZRange(key, start, stop, false));
    WrongTypeText();
    texts := Members(Selected(ZSetOf(v, key).order, start, stop));
    SliceIsSelected(ZSetOf(v, key).order, start, stop);
    BulksAreListed(texts);
    SelectedOfNone(start, stop);
  }

  lemma ZRangeScoresLaw(v: View, key: Bytes, start: i64, stop: i64) returns (texts: seq<Bytes>)
    ensures ListsScores(texts, Selected(ZSetOf(v, key).order, start, stop), v.fp)
    ensures !HasOther(v, key) ==> v.Answers(ZRange(key, start, stop, true), Listed(texts))
    ensures HasOther(v, key) ==> v.Refuses(ZRange(key, start, stop, true), WRONG_TYPE)
  {
    hide View.Runs, Slice, Selected, Listed, ListsScores;
    Performs(v, ZRange(key, start, stop, true));
    WrongTypeText();
    texts := Interleave(Selected(ZSetOf(v, key).order, start, stop), v.fp);
    InterleaveLists(Selected(ZSetOf(v, key).order, start, stop), v.fp);
    SliceIsSelected(ZSetOf(v, key).order, start, stop);
    BulksAreListed(texts);
    SelectedOfNone(start, stop);
  }

  lemma SelectedOfNone(start: int, stop: int)
    ensures Selected<SortedMember>([], start, stop) == []
  {
  }

  /** ZRANGEBYSCORE answers one stretch of the order, holding exactly the members
      that the range of scores admits. */
  lemma ZRangeByScoreLaw(v: View, key: Bytes, bounds: Bounds) returns (lo: nat, hi: nat, texts: seq<Bytes>)
    requires ZSetOf(v, key).Agrees()
    ensures lo <= hi <= |ZSetOf(v, key).order| && ListsMembers(texts, ZSetOf(v, key).order[lo..hi])
    ensures texts == ZSetOf(v, key).RangeByScore(bounds)
    ensures !HasOther(v, key) ==> v.Answers(ZRangeByScore(key, bounds), Listed(texts))
    ensures HasOther(v, key) ==> v.Refuses(ZRangeByScore(key, bounds), WRONG_TYPE)
  {
    hide View.Runs, Listed, InBounds, ZSet.Agrees;
    Performs(v, ZRangeByScore(key, bounds));
    WrongTypeText();
    lo, hi := RangeByScoreContiguous(ZSetOf(v, key), bounds);
    texts := ZSetOf(v, key).RangeByScore(bounds);
    BulksAreListed(texts);
  }

  /** ZINCRBY adds to the score, which starts from zero; it refuses a sum that is
      not a number. */
  lemma ZIncrByLaw(v: View, key: Bytes, increment: Score, member: Bytes) returns (z: ZSet)
    requires ZSetOf(v, key).Agrees()
    ensures var scores := ZSetOf(v, key).scores;
            var sum := AddScores(if member in scores then scores[member] else Fin(0.0), increment);
            !HasOther(v, key) ==>
              if sum == None then v.Refuses(ZIncrBy(key, increment, member), NOT_A_NUMBER)
              else
                && z.Agrees() && z.scores == scores[member := sum.value]
                && v.Runs(ZIncrBy(key, increment, member), WithZSet(v, key, z), BulkReply(v.fp.show(sum.value)))
    ensures HasOther(v, key) ==> v.Refuses(ZIncrBy(key, increment, member), WRONG_TYPE)
  {
    hide View.Runs, ZSet.Agrees, ZSet.Add, AddScores;
    Performs(v, ZIncrBy(key, increment, member));
    WrongTypeText();
    ScoreNaNText();
    z := ZSetOf(v, key);
    var sum := AddScores(if member in z.scores then z.scores[member] else Fin(0.0), increment);
    if sum.Some? {
      AddAgrees(z, sum.value, member);
      z := z.Add(sum.value, member);
    }
  }
}
