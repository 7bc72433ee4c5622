// Redis index arithmetic and the list type
// (src/database/data_structure.rs).
module Ranges {
  import opened Wrappers
  import opened ByteStrings

  function Normalize(index: int, len: nat): int {
    if index < 0 then index + len else index
  }

  function Max(a: int, b: int): int { if a < b then b else a }

  function Min(a: int, b: int): int { if a < b then a else b }

  /** `resolve_range`: inclusive, possibly negative indices to in-bounds offsets. */
  function ResolveRange(start: int, stop: int, len: nat): (r: Option<(nat, nat)>)
    ensures r.Some? ==> r.value.0 <= r.value.1 < len
  {
    if len == 0 then None
    else
      var first := Max(Normalize(start, len), 0);
      var last := Min(Normalize(stop, len), len - 1);
      if first > last || first >= len then None else Some((first, last))
  }

  /** `normalize_index`. */
  function NormalizeIndex(index: int, len: nat): (r: Option<nat>)
    ensures r.Some? ==> r.value < len
  {
    if len == 0 then None
    else
      var resolved := Normalize(index, len);
      if 0 <= resolved < len then Some(resolved) else None
  }

  /** The elements in an inclusive range, as `lrange` and `zrange` select them. */
  function Slice<T>(items: seq<T>, start: int, stop: int): (r: seq<T>)
    ensures |r| <= |items|
  {
    match ResolveRange(start, stop, |items|)
    case Some((first, last)) => items[first..last + 1]
    case None => []
  }

  function Index<T>(items: seq<T>, index: int): (r: Option<T>) {
    match NormalizeIndex(index, |items|)
    case Some(i) => Some(items[i])
    case None => None
  }

  /** Every intermediate value of the index arithmetic fits in an i64, for all
      indices and all lengths a collection can have. */
  lemma NoOverflow(start: i64, stop: i64, len: nat)
    requires len <= I64_MAX
    ensures InI64(Normalize(start, len)) && InI64(Normalize(stop, len)) && InI64(len - 1)
    ensures InI64(Max(Normalize(start, len), 0)) && InI64(Min(Normalize(stop, len), len - 1))
  {
  }

  /** What a range selects: exactly the positions between the two normalised
      ends, and nothing outside the list. */
  lemma SliceSelects<T>(items: seq<T>, start: int, stop: int, i: nat)
    requires i < |items|
    ensures var lo, hi := Normalize(start, |items|), Normalize(stop, |items|);
            lo <= i <= hi ==>
              && 0 <= i - Max(lo, 0) < |Slice(items, start, stop)|
              && Slice(items, start, stop)[i - Max(lo, 0)] == items[i]
    ensures var lo, hi := Max(Normalize(start, |items|), 0), Min(Normalize(stop, |items|), |items| - 1);
            |Slice(items, start, stop)| == Max(hi - lo + 1, 0)
  {
  }

  /** A one-element range is the element at that index, or empty when there is none. */
  lemma SliceOfIndex<T>(items: seq<T>, i: int)
    ensures Slice(items, i, i) == match Index(items, i) case Some(x) => [x] case None => []
  {
  }

  /** Cutting a list after index k and joining the two ranges gives the list
      back for every k but -1, where the two ranges overlap completely. */
  lemma SliceCut<T>(items: seq<T>, k: i64)
    requires k < I64_MAX
    ensures Slice(items, 0, k) + Slice(items, k + 1, -1) == items <==> k != -1 || items == []
  {
  }

  // --- RList -----------------------------------------------------------------

  function Reverse<T>(s: seq<T>): (r: seq<T>)
    ensures |r| == |s|
    ensures forall i :: 0 <= i < |s| ==> r[i] == s[|s| - 1 - i]
  {
    seq(|s|, i requires 0 <= i < |s| => s[|s| - 1 - i])
  }

  /** A double-ended queue of strings. */
  class RList {
    var list: seq<Bytes>

    constructor ()
      ensures list == []
    {
      list := [];
    }

    constructor Of(items: seq<Bytes>)
      ensures list == items
    {
      list := items;
    }

    method LPush(value: Bytes)
      modifies this
      ensures list == [value] + old(list)
    {
      list := [value] + list;
    }

    method RPush(value: Bytes)
      modifies this
      ensures list == old(list) + [value]
    {
      list := list + [value];
    }

    method LPop() returns (value: Option<Bytes>)
      modifies this
      ensures old(list) == [] ==> value == None && list == []
      ensures old(list) != [] ==> value == Some(old(list)[0]) && list == old(list)[1..]
    {
      if list == [] {
        return None;
      }
      value := Some(list[0]);
      list := list[1..];
    }

    method RPop() returns (value: Option<Bytes>)
      modifies this
      ensures old(list) == [] ==> value == None && list == []
      ensures old(list) != [] ==>
                value == Some(old(list)[|old(list)| - 1]) && list == old(list)[..|old(list)| - 1]
    {
      if list == [] {
        return None;
      }
      value := Some(list[|list| - 1]);
      list := list[..|list| - 1];
    }

    /** Overwrites one element; false, and no change, when the index is out of range. */
    method LSet(index: int, value: Bytes) returns (ok: bool)
      modifies this
      ensures ok <==> Index(old(list), index).Some?
      ensures !ok ==> list == old(list)
      ensures ok ==> Index(list, index) == Some(value) && |list| == |old(list)|
      ensures ok ==> forall i :: 0 <= i < |list| && Some(i) != NormalizeIndex(index, |list|) ==> list[i] == old(list)[i]
    {
      var at := NormalizeIndex(index, |list|);
      ok := at.Some?;
      if ok {
        list := list[at.value := value];
      }
    }
  }

  /** The pushing loop of `LPUSH`: the last value given ends up first. */
  method PushAllFront(list: RList, values: seq<Bytes>)
    modifies list
    ensures list.list == Reverse(values) + old(list.list)
  {
    for i := 0 to |values|
      invariant list.list == Reverse(values[..i]) + old(list.list)
    {
      list.LPush(values[i]);
      assert Reverse(values[..i + 1]) == [values[i]] + Reverse(values[..i]);
    }
    assert values[..|values|] == values;
  }

  method PushAllBack(list: RList, values: seq<Bytes>)
    modifies list
    ensures list.list == old(list.list) + values
  {
    for i := 0 to |values|
      invariant list.list == old(list.list) + values[..i]
    {
      list.RPush(values[i]);
    }
    assert values[..|values|] == values;
  }
}
