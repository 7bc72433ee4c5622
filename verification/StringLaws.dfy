// What the string and counter commands do, from the entry stored at the key to
// the value the client decodes (src/command/mod.rs, src/database/db.rs).
module StringLaws {
  import opened Wrappers
  import opened ByteStrings
  import opened Resp
  import opened Commands
  import opened Keyspace
  import opened ClientView

  predicate HasText(v: View, key: Bytes) {
    key in v.m && v.m[key].value.StringValue?
  }

  predicate HasOther(v: View, key: Bytes) {
    key in v.m && !v.m[key].value.StringValue?
  }

  /** SET replaces whatever is at the key, deadline included. */
  lemma SetLaw(v: View, key: Bytes, value: Bytes, seconds: u64)
    ensures v.Runs(Set(key, value, None), v.m[key := Entry(StringValue(value), None)], SimpleReply("OK"))
    ensures var at := v.env.now + seconds * TICKS;
            var deadline := if at <= v.env.clockMax then Some(at) else None;
            v.Runs(Set(key, value, Some(seconds)), v.m[key := Entry(StringValue(value), deadline)], SimpleReply("OK"))
  {
    hide View.Runs;
    Performs(v, Set(key, value, None));
    Performs(v, Set(key, value, Some(seconds)));
  }

  lemma GetLaw(v: View, key: Bytes)
    ensures key !in v.m ==> v.Answers(Get(key), NullReply)
    ensures HasText(v, key) ==> v.Answers(Get(key), BulkReply(v.m[key].value.text))
    ensures HasOther(v, key) ==> v.Refuses(Get(key), WRONG_TYPE)
  {
    hide View.Runs;
    Performs(v, Get(key));
    WrongTypeText();
  }

  lemma StrLenLaw(v: View, key: Bytes)
    ensures key !in v.m ==> v.Answers(StrLen(key), IntegerReply(0))
    ensures HasText(v, key) ==> v.Answers(StrLen(key), IntegerReply(|v.m[key].value.text|))
    ensures HasOther(v, key) ==> v.Refuses(StrLen(key), WRONG_TYPE)
  {
    hide View.Runs;
    Performs(v, StrLen(key));
    WrongTypeText();
  }

  /** APPEND adds at the end and keeps the deadline. */
  lemma AppendLaw(v: View, key: Bytes, suffix: Bytes)
    ensures key !in v.m ==>
              v.Runs(Append(key, suffix), v.m[key := Entry(StringValue(suffix), None)], IntegerReply(|suffix|))
    ensures HasText(v, key) ==>
              var text := v.m[key].value.text + suffix;
              v.Runs(Append(key, suffix), v.m[key := Entry(StringValue(text), v.m[key].expiresAt)],
                     IntegerReply(|text|))
    ensures HasOther(v, key) ==> v.Refuses(Append(key, suffix), WRONG_TYPE)
  {
    hide View.Runs;
    Performs(v, Append(key, suffix));
    WrongTypeText();
  }

  lemma SetNxLaw(v: View, key: Bytes, value: Bytes)
    ensures key in v.m ==> v.Answers(SetNx(key, value), IntegerReply(0))
    ensures key !in v.m ==>
              v.Runs(SetNx(key, value), v.m[key := Entry(StringValue(value), None)], IntegerReply(1))
  {
    hide View.Runs;
    Performs(v, SetNx(key, value));
  }

  /** GETSET answers the old text and leaves the new one without a deadline. */
  lemma GetSetLaw(v: View, key: Bytes, value: Bytes)
    ensures var after := v.m[key := Entry(StringValue(value), None)];
            && (key !in v.m ==> v.Runs(GetSet(key, value), after, NullReply))
            && (HasText(v, key) ==> v.Runs(GetSet(key, value), after, BulkReply(v.m[key].value.text)))
            && (HasOther(v, key) ==> v.Refuses(GetSet(key, value), WRONG_TYPE))
  {
    hide View.Runs;
    Performs(v, GetSet(key, value));
    WrongTypeText();
  }

  lemma {:induction false} NullablesAt(items: seq<Option<Bytes>>)
    ensures forall i :: 0 <= i < |items| ==>
              Nullables(items)[i] == match items[i] case Some(text) => BulkReply(text) case None => NullReply
  {
  }

  /** MGET answers one value for each key, nil for anything but a string. */
  lemma MGetLaw(v: View, keys: seq<Bytes>)
    ensures v.Answers(MGet(keys), ArrayReply(seq(|keys|, i requires 0 <= i < |keys| =>
              if HasText(v, keys[i]) then BulkReply(v.m[keys[i]].value.text) else NullReply)))
  {
    hide View.Runs;
    Performs(v, Command.MGet(keys));
    var items := Keyspace.MGet(v.m, keys);
    NullablesAt(items);
    assert Nullables(items) == seq(|keys|, i requires 0 <= i < |keys| =>
      if HasText(v, keys[i]) then BulkReply(v.m[keys[i]].value.text) else NullReply);
  }

  /** After MSET every key named has the last value given for it and no deadline,
      and no other key has changed. */
  lemma MSetLaw(v: View, pairs: seq<(Bytes, Bytes)>) returns (after: Store)
    ensures v.Runs(MSet(pairs), after, SimpleReply("OK"))
    ensures forall i :: 0 <= i < |pairs| && (forall j :: i < j < |pairs| ==> pairs[j].0 != pairs[i].0) ==>
              pairs[i].0 in after && after[pairs[i].0] == Entry(StringValue(pairs[i].1), None)
    ensures forall k :: (forall i :: 0 <= i < |pairs| ==> pairs[i].0 != k) ==>
              (k in after <==> k in v.m) && (k in v.m ==> after[k] == v.m[k])
  {
    hide View.Runs;
    Performs(v, MSet(pairs));
    after := MSetIn(v.m, pairs);
    MSetOthers(v.m, pairs);
    MSetLast(v.m, pairs);
  }

  lemma {:induction false} MSetOthers(m: Store, pairs: seq<(Bytes, Bytes)>)
    ensures forall k :: (forall i :: 0 <= i < |pairs| ==> pairs[i].0 != k) ==>
              (k in MSetIn(m, pairs) <==> k in m) && (k in m ==> MSetIn(m, pairs)[k] == m[k])
  {
    if pairs != [] {
      var front := pairs[..|pairs| - 1];
      MSetOthers(m, front);
      assert forall i :: 0 <= i < |front| ==> front[i] == pairs[i];
    }
  }

  lemma {:induction false} MSetLast(m: Store, pairs: seq<(Bytes, Bytes)>)
    ensures forall i :: 0 <= i < |pairs| && (forall j :: i < j < |pairs| ==> pairs[j].0 != pairs[i].0) ==>
              pairs[i].0 in MSetIn(m, pairs) && MSetIn(m, pairs)[pairs[i].0] == Entry(StringValue(pairs[i].1), None)
  {
    if pairs != [] {
      var n := |pairs| - 1;
      var front := pairs[..n];
      MSetLast(m, front);
      forall i | 0 <= i < |pairs| && forall j :: i < j < |pairs| ==> pairs[j].0 != pairs[i].0
        ensures pairs[i].0 in MSetIn(m, pairs)
        ensures MSetIn(m, pairs)[pairs[i].0] == Entry(StringValue(pairs[i].1), None)
      {
        if i < n {
          assert front[i] == pairs[i] && forall j :: i < j < n ==> front[j] == pairs[j];
        }
      }
    }
  }

  /** A counter command adds to the integer at the key, which starts from zero and
      keeps its deadline. */
  lemma IncrByLaw(v: View, key: Bytes, delta: i64)
    ensures key !in v.m ==>
              v.Runs(IncrBy(key, delta), v.m[key := Entry(StringValue(PrintInt(delta)), None)], IntegerReply(delta))
    ensures HasText(v, key) ==>
              match ParseI64(v.m[key].value.text)
              case None => v.Refuses(IncrBy(key, delta), NOT_INTEGER)
              case Some(n) =>
                if InI64(n + delta) then
                  v.Runs(IncrBy(key, delta),
                         v.m[key := Entry(StringValue(PrintInt(n + delta)), v.m[key].expiresAt)],
                         IntegerReply(n + delta))
                else v.Refuses(IncrBy(key, delta), OVERFLOW)
    ensures HasOther(v, key) ==> v.Refuses(IncrBy(key, delta), WRONG_TYPE)
  {
    hide View.Runs, ParseI64, PrintInt;
    Performs(v, IncrBy(key, delta));
    WrongTypeText();
    NotIntegerText();
    OverflowText();
  }
}
