// The order of a sorted set and its score ranges, in terms of numbers and bytes
// (src/database/data_structure.rs).
module ScoreOrder {
  import opened Wrappers
  import opened ByteStrings
  import opened SortedSet

  /** The dictionary order: at the first position where the two differ the byte
      is smaller, or the first string ends there. */
  ghost predicate InDictionaryOrder(a: Bytes, b: Bytes) {
    exists n: nat :: DiffersFirstAt(a, b, n)
  }

  predicate DiffersFirstAt(a: Bytes, b: Bytes, n: nat) {
    && n <= |a| && n < |b|
    && a[..n] == b[..n]
    && (n == |a| || a[n] < b[n])
  }

  lemma {:induction false} BytesLessIff(a: Bytes, b: Bytes)
    ensures BytesLess(a, b) <==> InDictionaryOrder(a, b)
  {
    if a == [] || b == [] {
      assert b != [] ==> DiffersFirstAt(a, b, 0);
    } else if a[0] != b[0] {
      assert a[0] < b[0] ==> DiffersFirstAt(a, b, 0);
      assert forall n :: 0 < n <= |a| && n < |b| ==> a[..n][0] != b[..n][0];
    } else {
      BytesLessIff(a[1..], b[1..]);
      if n: nat :| DiffersFirstAt(a, b, n) {
        assert a[1..][..n - 1] == a[..n][1..] && b[1..][..n - 1] == b[..n][1..];
        assert DiffersFirstAt(a[1..], b[1..], n - 1);
      }
      if n: nat :| DiffersFirstAt(a[1..], b[1..], n) {
        assert a[..n + 1] == [a[0]] + a[1..][..n] && b[..n + 1] == [b[0]] + b[1..][..n];
        assert DiffersFirstAt(a, b, n + 1);
      }
    }
  }

  /** Members stand from the lowest score to the highest, those with the same
      score in dictionary order. */
  lemma OrderAscends(z: ZSet, i: nat, j: nat)
    requires z.Agrees() && i < j < |z.order|
    ensures var a, b := z.order[i].score, z.order[j].score;
            && (a.Fin? && b.Fin? ==> a.value <= b.value)
            && (b.NegInf? ==> a.NegInf?)
            && (a.PosInf? ==> b.PosInf?)
            && (a == b ==> InDictionaryOrder(z.order[i].member, z.order[j].member))
  {
    hide BytesLess, InDictionaryOrder;
    assert Before(z.order[i], z.order[j]);
    BytesLessIff(z.order[i].member, z.order[j].member);
  }

  /** A sum of scores is a number except where the infinities cancel. */
  lemma SumOfScores(a: Score, b: Score)
    ensures a.Fin? && b.Fin? ==> AddScores(a, b) == Some(Fin(a.value + b.value))
    ensures AddScores(a, b) == None <==> {a, b} == {NegInf, PosInf}
    ensures AddScores(a, b) == Some(PosInf) <==> PosInf in {a, b} && NegInf !in {a, b}
    ensures AddScores(a, b) == Some(NegInf) <==> NegInf in {a, b} && PosInf !in {a, b}
  {
    assert a in {a, b} && b in {a, b};
    assert {a, b} == {NegInf, PosInf} ==> PosInf in {a, b} && NegInf in {a, b};
  }

  /** A member with a finite score is in a range with finite ends exactly when its
      score is between them, or at an end that is included. */
  lemma FiniteRange(z: ZSet, m: Bytes, lo: real, minInclusive: bool, hi: real, maxInclusive: bool)
    requires z.Agrees() && m in z.scores && z.scores[m].Fin?
    ensures var x := z.scores[m].value;
            m in z.RangeByScore(Bounds(Fin(lo), minInclusive, Fin(hi), maxInclusive)) <==>
              && (lo < x || (minInclusive && x == lo))
              && (x < hi || (maxInclusive && x == hi))
  {
    ListedInRange(z, m, Bounds(Fin(lo), minInclusive, Fin(hi), maxInclusive));
  }

  /** An infinite score is outside every range with a finite end on its side. */
  lemma InfiniteScores(z: ZSet, m: Bytes, bounds: Bounds)
    requires z.Agrees() && m in z.scores
    ensures z.scores[m].NegInf? ==>
              (m in z.RangeByScore(bounds) <==>
                 bounds.min.NegInf? && bounds.minInclusive && (bounds.max.NegInf? ==> bounds.maxInclusive))
    ensures z.scores[m].PosInf? ==>
              (m in z.RangeByScore(bounds) <==>
                 bounds.max.PosInf? && bounds.maxInclusive && (bounds.min.PosInf? ==> bounds.minInclusive))
  {
    ListedInRange(z, m, bounds);
  }

  /** An infinite end on its own side excludes no finite score, on the other side
      every one. */
  lemma InfiniteEnds(z: ZSet, m: Bytes, bounds: Bounds)
    requires z.Agrees() && m in z.scores && z.scores[m].Fin?
    requires !bounds.min.Fin? || !bounds.max.Fin?
    ensures var x := z.scores[m].value;
            m in z.RangeByScore(bounds) <==>
              && (bounds.min.NegInf? || (bounds.min.Fin? &&
                    (bounds.min.value < x || (bounds.minInclusive && x == bounds.min.value))))
              && (bounds.max.PosInf? || (bounds.max.Fin? &&
                    (x < bounds.max.value || (bounds.maxInclusive && x == bounds.max.value))))
  {
    ListedInRange(z, m, bounds);
  }

  lemma ListedInRange(z: ZSet, m: Bytes, bounds: Bounds)
    requires z.Agrees() && m in z.scores
    ensures m in z.RangeByScore(bounds) <==> InBounds(z.scores[m], bounds)
  {
    hide InBounds;
    var lo, hi := RangeByScoreContiguous(z, bounds);
  }
}
