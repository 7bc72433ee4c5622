// What the list commands do, from the entry stored at the key to the value the
// client decodes (src/command/mod.rs, src/database/db.rs).
module ListLaws {
  import opened Wrappers
  import opened ByteStrings
  import opened Ranges
  import opened Resp
  import opened Commands
  import opened Keyspace
  import opened ClientView

  predicate HasList(v: View, key: Bytes) {
    key in v.m && v.m[key].value.ListValue?
  }

  predicate HasOther(v: View, key: Bytes) {
    key in v.m && !v.m[key].value.ListValue?
  }

  /** The list at the key, empty when there is none. */
  function Items(v: View, key: Bytes): seq<Bytes> {
    if HasList(v, key) then v.m[key].value.items else []
  }

  /** The keyspace with this list at the key, under the deadline it had. */
  function WithList(v: View, key: Bytes, items: seq<Bytes>): Store {
    v.m[key := Entry(ListValue(items), v.Deadline(key))]
  }

  /** LPUSH puts the values in front one after the other: the last comes first. */
  lemma LPushLaw(v: View, key: Bytes, values: seq<Bytes>)
    ensures !HasOther(v, key) ==>
              var items := seq(|values|, i requires 0 <= i < |values| => values[|values| - 1 - i]) + Items(v, key);
              v.Runs(LPush(key, values), WithList(v, key, items), IntegerReply(|items|))
    ensures HasOther(v, key) ==> v.Refuses(LPush(key, values), WRONG_TYPE)
  {
    hide View.Runs;
    Performs(v, LPush(key, values));
    WrongTypeText();
    assert Reverse(values) == seq(|values|, i requires 0 <= i < |values| => values[|values| - 1 - i]);
  }

  /** RPUSH puts the values behind in the order given. */
  lemma RPushLaw(v: View, key: Bytes, values: seq<Bytes>)
    ensures !HasOther(v, key) ==>
              var items := Items(v, key) + values;
              v.Runs(RPush(key, values), WithList(v, key, items), IntegerReply(|items|))
    ensures HasOther(v, key) ==> v.Refuses(RPush(key, values), WRONG_TYPE)
  {
    hide View.Runs;
    Performs(v, RPush(key, values));
    WrongTypeText();
  }

  /** The keyspace after an element was taken: an emptied key is gone. */
  function WithRest(v: View, key: Bytes, rest: seq<Bytes>): Store {
    if rest == [] then v.m - {key} else WithList(v, key, rest)
  }

  lemma LPopLaw(v: View, key: Bytes)
    ensures key !in v.m ==> v.Answers(LPop(key), NullReply)
    ensures HasList(v, key) && Items(v, key) != [] ==>
              v.Runs(LPop(key), WithRest(v, key, Items(v, key)[1..]), BulkReply(Items(v, key)[0]))
    ensures HasOther(v, key) ==> v.Refuses(LPop(key), WRONG_TYPE)
  {
    hide View.Runs;
    Performs(v, LPop(key));
    WrongTypeText();
  }

  lemma RPopLaw(v: View, key: Bytes)
    ensures key !in v.m ==> v.Answers(RPop(key), NullReply)
    ensures HasList(v, key) && Items(v, key) != [] ==>
              var n := |Items(v, key)| - 1;
              v.Runs(RPop(key), WithRest(v, key, Items(v, key)[..n]), BulkReply(Items(v, key)[n]))
    ensures HasOther(v, key) ==> v.Refuses(RPop(key), WRONG_TYPE)
  {
    hide View.Runs;
    Performs(v, RPop(key));
    WrongTypeText();
  }

  lemma LLenLaw(v: View, key: Bytes)
    ensures !HasOther(v, key) ==> v.Answers(LLen(key), IntegerReply(|Items(v, key)|))
    ensures HasOther(v, key) ==> v.Refuses(LLen(key), WRONG_TYPE)
  {
    hide View.Runs;
    Performs(v, LLen(key));
    WrongTypeText();
  }

  /** LINDEX counts from zero at the front and from minus one at the back. */
  lemma LIndexLaw(v: View, key: Bytes, index: i64)
    ensures !HasOther(v, key) ==>
              var items := Items(v, key);
              v.Answers(LIndex(key, index),
                        if 0 <= index < |items| then BulkReply(items[index])
                        else if -|items| <= index < 0 then BulkReply(items[|items| + index])
                        else NullReply)
    ensures HasOther(v, key) ==> v.Refuses(LIndex(key, index), WRONG_TYPE)
  {
    hide View.Runs;
    Performs(v, LIndex(key, index));
    WrongTypeText();
  }

  lemma LSetLaw(v: View, key: Bytes, index: i64, value: Bytes)
    ensures key !in v.m ==> v.Refuses(LSet(key, index, value), NO_SUCH_KEY)
    ensures HasList(v, key) ==>
              var items := Items(v, key);
              if 0 <= index < |items| then
                v.Runs(LSet(key, index, value), WithList(v, key, items[index := value]), SimpleReply("OK"))
              else if -|items| <= index < 0 then
                v.Runs(LSet(key, index, value), WithList(v, key, items[|items| + index := value]), SimpleReply("OK"))
              else v.Refuses(LSet(key, index, value), OUT_OF_RANGE)
    ensures HasOther(v, key) ==> v.Refuses(LSet(key, index, value), WRONG_TYPE)
  {
    hide View.Runs;
    Performs(v, LSet(key, index, value));
    WrongTypeText();
    NoSuchKeyText();
    IndexOutOfRangeText();
  }

  /** What an inclusive range of indices selects: ends below zero count from the
      back, and what lies outside the list is cut off. */
  function Selected<T>(items: seq<T>, start: int, stop: int): seq<T> {
    var from := if start >= 0 then start else if start + |items| >= 0 then start + |items| else 0;
    var to := if stop < 0 then stop + |items| + 1 else if stop < |items| then stop + 1 else |items|;
    if from < to <= |items| then items[from..to] else []
  }

  lemma SliceIsSelected<T>(items: seq<T>, start: int, stop: int)
    ensures Slice(items, start, stop) == Selected(items, start, stop)
  {
  }

  lemma LRangeLaw(v: View, key: Bytes, start: i64, stop: i64)
    ensures !HasOther(v, key) ==> v.Answers(LRange(key, start, stop), Listed(Selected(Items(v, key), start, stop)))
    ensures HasOther(v, key) ==> v.Refuses(LRange(key, start, stop), WRONG_TYPE)
  {
    hide View.Runs, Slice, Selected, Listed;
    Performs(v, LRange(key, start, stop));
    WrongTypeText();
    SliceIsSelected(Items(v, key), start, stop);
    BulksAreListed(Selected(Items(v, key), start, stop));
    SelectedOfNothing(start, stop);
    assert key !in v.m ==> Items(v, key) == [];
  }

  lemma SelectedOfNothing(start: int, stop: int)
    ensures Selected<Bytes>([], start, stop) == []
  {
  }

  /** The last value pushed is the one next to its end. */
  lemma PushedIsAtItsEnd(v: View, key: Bytes, values: seq<Bytes>)
    requires !HasOther(v, key) && values != []
    ensures var last := values[|values| - 1];
            && (exists after :: v.Runs(LPush(key, values), after, IntegerReply(|Items(v, key)| + |values|))
                                && v.(m := after).Answers(LIndex(key, 0), BulkReply(last)))
            && (exists after :: v.Runs(RPush(key, values), after, IntegerReply(|Items(v, key)| + |values|))
                                && v.(m := after).Answers(LIndex(key, -1), BulkReply(last)))
  {
    hide View.Runs;
    LPushLaw(v, key, values);
    RPushLaw(v, key, values);
    var front := seq(|values|, i requires 0 <= i < |values| => values[|values| - 1 - i]) + Items(v, key);
    var back := Items(v, key) + values;
    LIndexLaw(v.(m := WithList(v, key, front)), key, 0);
    LIndexLaw(v.(m := WithList(v, key, back)), key, -1);
    assert Items(v.(m := WithList(v, key, front)), key) == front;
    assert Items(v.(m := WithList(v, key, back)), key) == back;
  }
}
