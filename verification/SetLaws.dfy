// What the set commands do, from the entry stored at the key to the value the
// client decodes (src/command/mod.rs, src/database/db.rs).
module SetLaws {
  import opened Wrappers
  import opened ByteStrings
  import opened Resp
  import opened Commands
  import opened Keyspace
  import opened ClientView

  predicate HasSet(v: View, key: Bytes) {
    key in v.m && v.m[key].value.SetValue?
  }

  predicate HasOther(v: View, key: Bytes) {
    key in v.m && !v.m[key].value.SetValue?
  }

  /** The set at the key, empty when there is none. */
  function Elements(v: View, key: Bytes): set<Bytes> {
    if HasSet(v, key) then v.m[key].value.elements else {}
  }

  function WithSet(v: View, key: Bytes, elements: set<Bytes>): Store {
    v.m[key := Entry(SetValue(elements), v.Deadline(key))]
  }

  /** The keyspace after elements were taken: an emptied key is gone. */
  function WithRest(v: View, key: Bytes, rest: set<Bytes>): Store {
    if rest == {} then v.m - {key} else WithSet(v, key, rest)
  }

  /** The reply lists every element of the set once. */
  ghost predicate Lists(v: View, cmd: Command, elements: set<Bytes>) {
    exists names :: Enumerates(names, elements) && v.Answers(cmd, Listed(names))
  }

  lemma SAddLaw(v: View, key: Bytes, values: seq<Bytes>)
    ensures var given := set x | x in values;
            !HasOther(v, key) ==>
              v.Runs(SAdd(key, values), WithSet(v, key, Elements(v, key) + given),
                     IntegerReply(|given - Elements(v, key)|))
    ensures HasOther(v, key) ==> v.Refuses(SAdd(key, values), WRONG_TYPE)
  {
    hide View.Runs;
    Performs(v, SAdd(key, values));
    WrongTypeText();
    assert ToSet(values) == set x | x in values;
  }

  lemma SRemLaw(v: View, key: Bytes, values: seq<Bytes>)
    ensures key !in v.m ==> v.Answers(SRem(key, values), IntegerReply(0))
    ensures var given := set x | x in values;
            HasSet(v, key) ==>
              v.Runs(SRem(key, values), WithRest(v, key, Elements(v, key) - given),
                     IntegerReply(|given * Elements(v, key)|))
    ensures HasOther(v, key) ==> v.Refuses(SRem(key, values), WRONG_TYPE)
  {
    hide View.Runs;
    Performs(v, SRem(key, values));
    WrongTypeText();
    assert ToSet(values) == set x | x in values;
  }

  lemma SMembersLaw(v: View, key: Bytes)
    requires v.env.Valid()
    ensures !HasOther(v, key) ==> Lists(v, SMembers(key), Elements(v, key))
    ensures HasOther(v, key) ==> v.Refuses(SMembers(key), WRONG_TYPE)
  {
    hide View.Runs, Listed;
    Performs(v, SMembers(key));
    WrongTypeText();
    var names := if HasSet(v, key) then v.env.order(Elements(v, key)) else [];
    BulksAreListed(names);
    assert !HasOther(v, key) ==> Enumerates(names, Elements(v, key)) && v.Answers(SMembers(key), Listed(names));
  }

  lemma SIsMemberLaw(v: View, key: Bytes, value: Bytes)
    ensures !HasOther(v, key) ==>
              v.Answers(SIsMember(key, value), IntegerReply(if value in Elements(v, key) then 1 else 0))
    ensures HasOther(v, key) ==> v.Refuses(SIsMember(key, value), WRONG_TYPE)
  {
    hide View.Runs;
    Performs(v, SIsMember(key, value));
    WrongTypeText();
  }

  lemma SCardLaw(v: View, key: Bytes)
    ensures !HasOther(v, key) ==> v.Answers(SCard(key), IntegerReply(|Elements(v, key)|))
    ensures HasOther(v, key) ==> v.Refuses(SCard(key), WRONG_TYPE)
  {
    hide View.Runs;
    Performs(v, SCard(key));
    WrongTypeText();
  }

  /** SPOP answers some element and takes it out. */
  lemma SPopLaw(v: View, key: Bytes)
    requires v.env.Valid()
    ensures key !in v.m ==> v.Answers(SPop(key), NullReply)
    ensures HasSet(v, key) && Elements(v, key) != {} ==>
              exists x :: x in Elements(v, key)
                && v.Runs(SPop(key), WithRest(v, key, Elements(v, key) - {x}), BulkReply(x))
    ensures HasOther(v, key) ==> v.Refuses(SPop(key), WRONG_TYPE)
  {
    hide View.Runs;
    Performs(v, SPop(key));
    WrongTypeText();
    if HasSet(v, key) && Elements(v, key) != {} {
      var listed := v.env.order(Elements(v, key));
      assert Enumerates(listed, Elements(v, key));
      var some :| some in Elements(v, key);
      assert some in listed;
      assert listed[0] in Elements(v, key);
    }
  }

  /** The three set algebra commands treat a missing key as an empty set, and
      refuse if any key holds another type. */
  lemma SInterLaw(v: View, keys: seq<Bytes>)
    requires v.env.Valid() && keys != []
    ensures (forall k <- keys :: !HasOther(v, k)) ==>
              Lists(v, SInter(keys), set x | x in Elements(v, keys[0]) && forall k <- keys :: x in Elements(v, k))
    ensures (exists k <- keys :: HasOther(v, k)) ==> v.Refuses(SInter(keys), WRONG_TYPE)
  {
    hide View.Runs, Listed;
    Performs(v, Command.SInter(keys));
    WrongTypeText();
    OtherTypes(v, keys);
    var r := Keyspace.SInter(v.m, keys);
    if r.Ok? {
      ListedInOrder(v, r.value);
      MeetOf(v, keys, r.value);
    }
  }

  lemma MeetOf(v: View, keys: seq<Bytes>, meet: set<Bytes>)
    requires keys != [] && Keyspace.SInter(v.m, keys) == Ok(meet)
    ensures meet == set x | x in Elements(v, keys[0]) && forall k <- keys :: x in Elements(v, k)
  {
    forall x, k | x in meet && k in keys ensures x in Elements(v, k) {
      var i :| 0 <= i < |keys| && keys[i] == k;
      assert x in SetAt(v.m, keys[i]);
    }
    forall x | x in Elements(v, keys[0]) && forall k <- keys :: x in Elements(v, k) ensures x in meet {
      forall i | 0 <= i < |keys| ensures x in SetAt(v.m, keys[i]) {
        assert keys[i] in keys;
      }
    }
  }

  lemma SUnionLaw(v: View, keys: seq<Bytes>)
    requires v.env.Valid() && keys != []
    ensures (forall k <- keys :: !HasOther(v, k)) ==>
              Lists(v, SUnion(keys), set k, x | k in keys && x in Elements(v, k) :: x)
    ensures (exists k <- keys :: HasOther(v, k)) ==> v.Refuses(SUnion(keys), WRONG_TYPE)
  {
    hide View.Runs, Listed;
    Performs(v, Command.SUnion(keys));
    WrongTypeText();
    OtherTypes(v, keys);
    var r := Keyspace.SUnion(v.m, keys);
    if r.Ok? {
      ListedInOrder(v, r.value);
      UnionOf(v, keys, r.value);
    }
  }

  lemma UnionOf(v: View, keys: seq<Bytes>, union: set<Bytes>)
    requires Keyspace.SUnion(v.m, keys) == Ok(union)
    ensures union == set k, x | k in keys && x in Elements(v, k) :: x
  {
    forall k, x | k in keys && x in Elements(v, k) ensures x in union {
      var i :| 0 <= i < |keys| && keys[i] == k;
      assert x in SetAt(v.m, keys[i]);
    }
    forall x | x in union ensures exists k :: k in keys && x in Elements(v, k) {
      var i :| 0 <= i < |keys| && x in SetAt(v.m, keys[i]);
      assert keys[i] in keys && x in Elements(v, keys[i]);
    }
  }

  lemma SDiffLaw(v: View, keys: seq<Bytes>)
    requires v.env.Valid() && keys != []
    ensures (forall k <- keys :: !HasOther(v, k)) ==>
              Lists(v, SDiff(keys), set x | x in Elements(v, keys[0]) && forall k <- keys[1..] :: x !in Elements(v, k))
    ensures (exists k <- keys :: HasOther(v, k)) ==> v.Refuses(SDiff(keys), WRONG_TYPE)
  {
    hide View.Runs, Listed;
    Performs(v, Command.SDiff(keys));
    WrongTypeText();
    OtherTypes(v, keys);
    var r := Keyspace.SDiff(v.m, keys);
    if r.Ok? {
      ListedInOrder(v, r.value);
      DifferenceOf(v, keys, r.value);
    }
  }

  lemma DifferenceOf(v: View, keys: seq<Bytes>, left: set<Bytes>)
    requires keys != [] && Keyspace.SDiff(v.m, keys) == Ok(left)
    ensures left == set x | x in Elements(v, keys[0]) && forall k <- keys[1..] :: x !in Elements(v, k)
  {
    forall x, k | x in left && k in keys[1..] ensures x !in Elements(v, k) {
      var j :| 0 <= j < |keys| - 1 && keys[1..][j] == k;
      assert x !in SetAt(v.m, keys[j + 1]);
    }
    forall x | x in Elements(v, keys[0]) && forall k <- keys[1..] :: x !in Elements(v, k) ensures x in left {
      forall i | 1 <= i < |keys| ensures x !in SetAt(v.m, keys[i]) {
        assert keys[1..][i - 1] == keys[i] && keys[i] in keys[1..];
      }
    }
  }

  lemma OtherTypes(v: View, keys: seq<Bytes>)
    ensures AllSets(v.m, keys) <==> forall k <- keys :: !HasOther(v, k)
  {
    assert forall i :: 0 <= i < |keys| ==> keys[i] in keys;
  }

  lemma ListedInOrder(v: View, elements: set<Bytes>)
    requires v.env.Valid()
    ensures Enumerates(v.env.order(elements), elements)
    ensures ArrayReply(Bulks(v.env.order(elements))) == Listed(v.env.order(elements))
  {
    BulksAreListed(v.env.order(elements));
  }
}
