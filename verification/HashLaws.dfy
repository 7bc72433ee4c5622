// What the hash commands do, from the entry stored at the key to the value the
// client decodes (src/command/mod.rs, src/database/db.rs).
module HashLaws {
  import opened Wrappers
  import opened ByteStrings
  import opened Resp
  import opened Commands
  import opened Keyspace
  import opened ClientView

  predicate HasHash(v: View, key: Bytes) {
    key in v.m && v.m[key].value.HashValue?
  }

  predicate HasOther(v: View, key: Bytes) {
    key in v.m && !v.m[key].value.HashValue?
  }

  /** The fields at the key, none when there is no hash. */
  function Fields(v: View, key: Bytes): map<Bytes, Bytes> {
    if HasHash(v, key) then v.m[key].value.fields else map[]
  }

  function WithHash(v: View, key: Bytes, fields: map<Bytes, Bytes>): Store {
    v.m[key := Entry(HashValue(fields), v.Deadline(key))]
  }

  lemma HSetLaw(v: View, key: Bytes, field: Bytes, value: Bytes)
    ensures !HasOther(v, key) ==>
              v.Runs(HSet(key, field, value), WithHash(v, key, Fields(v, key)[field := value]),
                     IntegerReply(if field in Fields(v, key) then 0 else 1))
    ensures HasOther(v, key) ==> v.Refuses(HSet(key, field, value), WRONG_TYPE)
  {
    hide View.Runs;
    Performs(v, HSet(key, field, value));
    WrongTypeText();
  }

  lemma HGetLaw(v: View, key: Bytes, field: Bytes)
    ensures !HasOther(v, key) ==>
              v.Answers(HGet(key, field),
                        if field in Fields(v, key) then BulkReply(Fields(v, key)[field]) else NullReply)
    ensures HasOther(v, key) ==> v.Refuses(HGet(key, field), WRONG_TYPE)
  {
    hide View.Runs;
    Performs(v, HGet(key, field));
    WrongTypeText();
  }

  /** HDEL takes a field out, and the key with the last one. */
  lemma HDelLaw(v: View, key: Bytes, field: Bytes)
    ensures key !in v.m ==> v.Answers(HDel(key, field), IntegerReply(0))
    ensures HasHash(v, key) ==>
              var rest := Fields(v, key) - {field};
              v.Runs(HDel(key, field), if rest == map[] then v.m - {key} else WithHash(v, key, rest),
                     IntegerReply(if field in Fields(v, key) then 1 else 0))
    ensures HasOther(v, key) ==> v.Refuses(HDel(key, field), WRONG_TYPE)
  {
    hide View.Runs;
    Performs(v, HDel(key, field));
    WrongTypeText();
  }

  lemma HLenLaw(v: View, key: Bytes)
    ensures !HasOther(v, key) ==> v.Answers(HLen(key), IntegerReply(|Fields(v, key)|))
    ensures HasOther(v, key) ==> v.Refuses(HLen(key), WRONG_TYPE)
  {
    hide View.Runs;
    Performs(v, HLen(key));
    WrongTypeText();
  }

  lemma HExistsLaw(v: View, key: Bytes, field: Bytes)
    ensures !HasOther(v, key) ==>
              v.Answers(HExists(key, field), IntegerReply(if field in Fields(v, key) then 1 else 0))
    ensures HasOther(v, key) ==> v.Refuses(HExists(key, field), WRONG_TYPE)
  {
    hide View.Runs;
    Performs(v, HExists(key, field));
    WrongTypeText();
  }

  /** HINCRBY adds to the integer in a field, which starts from zero. */
  lemma HIncrByLaw(v: View, key: Bytes, field: Bytes, delta: i64)
    ensures !HasOther(v, key) ==>
              match if field in Fields(v, key) then ParseI64(Fields(v, key)[field]) else Some(0)
              case None => v.Refuses(HIncrBy(key, field, delta), NOT_HASH_INTEGER)
              case Some(n) =>
                if InI64(n + delta) then
                  v.Runs(HIncrBy(key, field, delta),
                         WithHash(v, key, Fields(v, key)[field := PrintInt(n + delta)]), IntegerReply(n + delta))
                else v.Refuses(HIncrBy(key, field, delta), OVERFLOW)
    ensures HasOther(v, key) ==> v.Refuses(HIncrBy(key, field, delta), WRONG_TYPE)
  {
    hide View.Runs, ParseI64, PrintInt;
    Performs(v, HIncrBy(key, field, delta));
    WrongTypeText();
    NotHashIntegerText();
    OverflowText();
  }

  /** Names alternating with the values of their fields. */
  predicate Alternates(all: seq<Bytes>, names: seq<Bytes>, fields: map<Bytes, Bytes>) {
    && |all| == 2 * |names|
    && forall i :: 0 <= i < |names| ==>
         names[i] in fields && all[2 * i] == names[i] && all[2 * i + 1] == fields[names[i]]
  }

  predicate AreValues(values: seq<Bytes>, names: seq<Bytes>, fields: map<Bytes, Bytes>) {
    && |values| == |names|
    && forall i :: 0 <= i < |names| ==> names[i] in fields && values[i] == fields[names[i]]
  }

  lemma {:induction false} FlattenAlternates(fields: map<Bytes, Bytes>, names: seq<Bytes>)
    requires forall n <- names :: n in fields
    ensures Alternates(Flatten(fields, names), names, fields)
  {
    if names != [] {
      FlattenAlternates(fields, names[1..]);
      var rest := Flatten(fields, names[1..]);
      var all := Flatten(fields, names);
      assert all == [names[0], fields[names[0]]] + rest;
      forall i | 0 <= i < |names|
        ensures names[i] in fields && all[2 * i] == names[i] && all[2 * i + 1] == fields[names[i]]
      {
        if i > 0 {
          assert rest[2 * (i - 1)] == names[1..][i - 1] && rest[2 * (i - 1) + 1] == fields[names[1..][i - 1]];
        }
      }
    }
  }

  lemma {:induction false} ValuesAtAre(fields: map<Bytes, Bytes>, names: seq<Bytes>)
    requires forall n <- names :: n in fields
    ensures AreValues(ValuesAt(fields, names), names, fields)
  {
    if names != [] {
      ValuesAtAre(fields, names[1..]);
    }
  }

  lemma NoFields(fields: map<Bytes, Bytes>)
    requires fields == map[]
    ensures Enumerates([], fields.Keys) && Alternates([], [], fields) && AreValues([], [], fields)
  {
  }

  ghost predicate ListsFields(v: View, key: Bytes, names: seq<Bytes>, all: seq<Bytes>) {
    && Enumerates(names, Fields(v, key).Keys) && Alternates(all, names, Fields(v, key))
    && v.Answers(HGetAll(key), Listed(all))
  }

  ghost predicate ListsValues(v: View, key: Bytes, names: seq<Bytes>, values: seq<Bytes>) {
    && Enumerates(names, Fields(v, key).Keys) && AreValues(values, names, Fields(v, key))
    && v.Answers(HVals(key), Listed(values))
  }

  /** HGETALL lists each field once, followed by its value; HKEYS and HVALS list
      the two parts. */
  lemma HGetAllLaw(v: View, key: Bytes)
    requires v.env.Valid()
    ensures !HasOther(v, key) ==>
              exists names, all :: ListsFields(v, key, names, all)
    ensures HasOther(v, key) ==> v.Refuses(HGetAll(key), WRONG_TYPE)
  {
    hide View.Runs, Listed, Flatten, Alternates, Enumerates;
    Performs(v, HGetAll(key));
    WrongTypeText();
    if HasHash(v, key) {
      var names := v.env.order(Fields(v, key).Keys);
      ListedNames(names, Fields(v, key), v.env);
      FlattenAlternates(Fields(v, key), names);
      BulksAreListed(Flatten(Fields(v, key), names));
      assert ListsFields(v, key, names, Flatten(Fields(v, key), names));
    } else if key !in v.m {
      NoFields(Fields(v, key));
      BulksAreListed([]);
      assert ListsFields(v, key, [], []);
    }
  }

  lemma ListedNames(names: seq<Bytes>, fields: map<Bytes, Bytes>, env: Env)
    requires env.Valid() && names == env.order(fields.Keys)
    ensures Enumerates(names, fields.Keys) && forall n <- names :: n in fields
  {
  }

  lemma HKeysLaw(v: View, key: Bytes)
    requires v.env.Valid()
    ensures !HasOther(v, key) ==>
              exists names :: Enumerates(names, Fields(v, key).Keys) && v.Answers(HKeys(key), Listed(names))
    ensures HasOther(v, key) ==> v.Refuses(HKeys(key), WRONG_TYPE)
  {
    hide View.Runs, Listed;
    Performs(v, HKeys(key));
    WrongTypeText();
    if !HasOther(v, key) {
      var names := if HasHash(v, key) then v.env.order(Fields(v, key).Keys) else [];
      BulksAreListed(names);
      assert Enumerates(names, Fields(v, key).Keys) && v.Answers(HKeys(key), Listed(names));
    }
  }

  lemma HValsLaw(v: View, key: Bytes)
    requires v.env.Valid()
    ensures !HasOther(v, key) ==>
              exists names, values :: ListsValues(v, key, names, values)
    ensures HasOther(v, key) ==> v.Refuses(HVals(key), WRONG_TYPE)
  {
    hide View.Runs, Listed, ValuesAt, AreValues, Enumerates;
    Performs(v, HVals(key));
    WrongTypeText();
    if HasHash(v, key) {
      var names := v.env.order(Fields(v, key).Keys);
      ListedNames(names, Fields(v, key), v.env);
      ValuesAtAre(Fields(v, key), names);
      BulksAreListed(ValuesAt(Fields(v, key), names));
      assert ListsValues(v, key, names, ValuesAt(Fields(v, key), names));
    } else if key !in v.m {
      NoFields(Fields(v, key));
      BulksAreListed([]);
      assert ListsValues(v, key, [], []);
    }
  }
}
