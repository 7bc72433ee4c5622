// What every reachable keyspace satisfies: no empty collection, and sorted
// sets whose two indexes agree.
module StoreInvariant {
  import opened ByteStrings
  import opened SortedSet
  import opened Resp
  import opened Commands
  import opened Keyspace
  import opened Dispatch
  import opened PubSubRegistry

  /** A stored value: never an empty collection, sorted-set indexes in
      agreement, and set elements that all satisfy p. */
  ghost predicate ValueOk(v: Value, p: Bytes -> bool) {
    match v
    case StringValue(_) => true
    case ListValue(items) => items != []
    case SetValue(elements) => elements != {} && forall x <- elements :: p(x)
    case SortedSetValue(z) => z.Agrees() && z.scores != map[]
    case HashValue(fields) => fields != map[]
  }

  ghost predicate StoreOk(m: Store, p: Bytes -> bool) {
    forall k <- m :: ValueOk(m[k].value, p)
  }

  predicate Anything(t: Bytes) { true }

  ghost predicate CommandOk(cmd: Command, p: Bytes -> bool) {
    cmd.HasArguments() && (cmd.SAdd? ==> forall i :: 0 <= i < |cmd.values| ==> p(cmd.values[i]))
  }

  lemma LiveOk(s: Store, now: int, p: Bytes -> bool)
    requires StoreOk(s, p)
    ensures StoreOk(Live(s, now), p)
  {
    hide ValueOk;
  }

  lemma PutOrDropKeepsOk(m: Store, key: Bytes, value: Value, empty: bool, p: Bytes -> bool)
    requires StoreOk(m, p) && (!empty ==> ValueOk(value, p))
    ensures StoreOk(PutOrDrop(m, key, value, empty), p)
  {
  }

  lemma {:induction false} MSetKeepsOk(m: Store, pairs: seq<(Bytes, Bytes)>, p: Bytes -> bool)
    requires StoreOk(m, p)
    ensures StoreOk(MSetIn(m, pairs), p)
  {
    if pairs != [] {
      MSetKeepsOk(m, pairs[..|pairs| - 1], p);
    }
  }

  lemma StringsKeepOk(cmd: Command, m: Store, env: Env, p: Bytes -> bool)
    requires cmd.OnStrings() && StoreOk(m, p)
    ensures StoreOk(ApplyToStrings(cmd, m, env).0, p)
  {
    hide ReplyOptional, ReplyNumber, Read, Nullables;
    if cmd.MSet? {
      MSetKeepsOk(m, cmd.pairs, p);
    }
  }

  lemma ListsKeepOk(cmd: Command, m: Store, p: Bytes -> bool)
    requires cmd.OnLists() && StoreOk(m, p) && CommandOk(cmd, p)
    ensures StoreOk(ApplyToLists(cmd, m).0, p)
  {
    hide ReplyNumber, ReplyOptional, ReplyStatus, ReplyArray, Read;
  }

  lemma SetsKeepOk(cmd: Command, m: Store, env: Env, p: Bytes -> bool)
    requires cmd.OnSets() && StoreOk(m, p) && CommandOk(cmd, p)
    ensures StoreOk(ApplyToSets(cmd, m, env).0, p)
  {
    hide ReplyNumber, ReplyOptional, ReplyArray, ReplyBool, ReplySet, Read;
    if !cmd.IsWrite() && !cmd.SPop? {
      SetsSound(cmd, m, env);
    } else {
      var before := SetAt(m, cmd.key);
      var after := if cmd.SAdd? then before + ToSet(cmd.values)
                   else if cmd.SRem? then before - ToSet(cmd.values)
                   else if env.order(before) == [] then before
                   else before - {env.order(before)[0]};
      if cmd.SAdd? {
        assert cmd.values[0] in ToSet(cmd.values);
      }
      PutOrDropKeepsOk(m, cmd.key, SetValue(after), after == {}, p);
      hide StoreOk, ValueOk, Put;
      assert cmd.key in m && m[cmd.key].value.SetValue? ==> m[cmd.key].value.elements == before;
    }
  }

  lemma ZSetAtAgrees(m: Store, key: Bytes, p: Bytes -> bool)
    requires StoreOk(m, p)
    ensures ZSetAt(m, key).Agrees()
  {
    EmptyAgrees();
  }

  lemma ZAddKeepsOk(m: Store, key: Bytes, pairs: seq<(Score, Bytes)>, p: Bytes -> bool)
    requires StoreOk(m, p) && pairs != []
    ensures StoreOk(ZAddIn(m, key, pairs).0, p)
  {
    hide ZSet.Agrees;
    var z := ZSetAt(m, key);
    ZSetAtAgrees(m, key, p);
    AddAllAgrees(z, pairs);
    AddAllKeys(z, pairs);
    assert pairs[0].1 in Named(pairs);
    PutOrDropKeepsOk(m, key, SortedSetValue(AddAll(z, pairs)), false, p);
  }

  lemma ZRemKeepsOk(m: Store, key: Bytes, member: Bytes, p: Bytes -> bool)
    requires StoreOk(m, p)
    ensures StoreOk(ZRemIn(m, key, member).0, p)
  {
    hide ZSet.Agrees, ZSet.Delete;
    var z := ZSetAt(m, key);
    ZSetAtAgrees(m, key, p);
    DeleteAgrees(z, member);
    PutOrDropKeepsOk(m, key, SortedSetValue(z.Delete(member)), z.Delete(member).scores == map[], p);
  }

  lemma ZIncrByKeepsOk(m: Store, key: Bytes, increment: Score, member: Bytes, p: Bytes -> bool)
    requires StoreOk(m, p)
    ensures StoreOk(ZIncrByIn(m, key, increment, member).0, p)
  {
    hide ZSet.Agrees, ZSet.Add;
    var z := ZSetAt(m, key);
    ZSetAtAgrees(m, key, p);
    var sum := AddScores(if member in z.scores then z.scores[member] else Fin(0.0), increment);
    if sum.Some? {
      AddAgrees(z, sum.value, member);
      PutOrDropKeepsOk(m, key, SortedSetValue(z.Add(sum.value, member)), false, p);
    }
  }

  lemma SortedSetsKeepOk(cmd: Command, m: Store, fp: FloatText, p: Bytes -> bool)
    requires cmd.OnSortedSets() && StoreOk(m, p) && CommandOk(cmd, p)
    ensures StoreOk(ApplyToSortedSets(cmd, m, fp).0, p)
  {
    hide ReplyNumber, ReplyOptional, ReplyArray, ReplyBool, ReplyRank, ReplyScore, Read;
    if !cmd.IsWrite() {
      SortedSetsSound(cmd, m, fp);
    } else {
      hide StoreOk, ZAddIn, ZRemIn, ZIncrByIn;
      if cmd.ZAdd? {
        ZAddKeepsOk(m, cmd.key, cmd.members, p);
      } else if cmd.ZRem? {
        ZRemKeepsOk(m, cmd.key, cmd.member, p);
      } else {
        ZIncrByKeepsOk(m, cmd.key, cmd.increment, cmd.member, p);
      }
    }
  }

  lemma EmptyAgrees()
    ensures EMPTY.Agrees()
  {
  }

  lemma HashesKeepOk(cmd: Command, m: Store, env: Env, p: Bytes -> bool)
    requires cmd.OnHashes() && StoreOk(m, p)
    ensures StoreOk(ApplyToHashes(cmd, m, env).0, p)
  {
    hide ReplyNumber, ReplyOptional, ReplyArray, ReplyBool, Read;
  }

  lemma KeysKeepOk(cmd: Command, m: Store, env: Env, p: Bytes -> bool)
    requires cmd.OnKeys() && StoreOk(m, p)
    ensures StoreOk(ApplyToKeys(cmd, m, env).0, p)
  {
    hide Read, MatchingKeys, Bulks, CountPresent, BoolReply, TypeOf, TtlOf, ToSet, Failure, ValueOk;
  }

  /** Every command keeps the invariant: creation relies on the parser's
      non-empty argument lists, removal on dropping a key with its last element. */
  lemma CommandsKeepOk(cmd: Command, m: Store, audience: nat, env: Env, fp: FloatText, p: Bytes -> bool)
    requires StoreOk(m, p) && CommandOk(cmd, p)
    ensures StoreOk(Apply(cmd, m, audience, env, fp).0, p)
  {
    hide ApplyToStrings, ApplyToLists, ApplyToSets, ApplyToSortedSets, ApplyToHashes, ApplyToKeys;
    hide StoreOk, CommandOk;
    if cmd.OnStrings() { StringsKeepOk(cmd, m, env, p); }
    else if cmd.OnLists() { ListsKeepOk(cmd, m, p); }
    else if cmd.OnSets() { SetsKeepOk(cmd, m, env, p); }
    else if cmd.OnSortedSets() { SortedSetsKeepOk(cmd, m, fp, p); }
    else if cmd.OnHashes() { HashesKeepOk(cmd, m, env, p); }
    else if cmd.OnKeys() { KeysKeepOk(cmd, m, env, p); }
  }

  /** The only values SADD puts in a set are tokens of its request. */
  lemma ParsedCommandOk(tokens: seq<Bytes>, fp: FloatText, p: Bytes -> bool)
    requires forall i :: 0 <= i < |tokens| ==> p(tokens[i])
    requires Parse(tokens, fp).Ok?
    ensures CommandOk(Parse(tokens, fp).value, p)
  {
    hide ParseNamed, VerbOf, Upper;
    var cmd, args := Parse(tokens, fp).value, tokens[1..];
    if cmd.SAdd? {
      forall i | 0 <= i < |cmd.values| ensures p(cmd.values[i]) {
        assert cmd.values[i] == args[i + 1] == tokens[i + 2];
      }
    }
  }

  /** Popping nothing changes nothing, in a keyspace without empty sets. */
  lemma PopNothing(m: Store, key: Bytes, env: Env, p: Bytes -> bool)
    requires StoreOk(m, p) && env.Valid()
    requires SPopIn(m, key, env).1.Err? || SPopIn(m, key, env).1.value.None?
    ensures SPopIn(m, key, env).0 == m
  {
    if SetAt(m, key) != {} {
      OrderNonEmpty(SetAt(m, key), env);
    }
  }

  lemma OrderNonEmpty(s: set<Bytes>, env: Env)
    requires env.Valid() && s != {}
    ensures env.order(s) != []
  {
    var x :| x in s;
    assert Enumerates(env.order(s), s);
  }

  /** Writes are classified correctly: a request that is not logged changes
      nothing. */
  lemma UnloggedUnchanged(tokens: seq<Bytes>, m: Store, registry: Registry, env: Env, fp: FloatText, p: Bytes -> bool)
    requires StoreOk(m, p) && env.Valid()
    ensures var h := Handle(tokens, m, registry, env, fp);
            h.entries == [] ==> h.store == m
  {
    hide Apply, Parse, StoreOk, SPopIn, Deliveries, Env.Valid;
    if tokens != [] && Parse(tokens, fp).Ok? {
      var cmd := Parse(tokens, fp).value;
      CommandsSound(cmd, m, Audience(cmd, registry), env, fp);
      if cmd.SPop? {
        ApplySPop(cmd, m, Audience(cmd, registry), env, fp);
        var popped := SPopIn(m, cmd.key, env).1;
        if popped.Err? || popped.value.None? {
          PopNothing(m, cmd.key, env, p);
        }
      }
    }
  }

  // --- Whole runs --------------------------------------------------------------------

  /** One request of a run, with what it took from outside. */
  datatype Event = Event(tokens: seq<Bytes>, env: Env)

  /** Where a run has got to: the keyspace, the registry and the log entries. */
  datatype Journal = Journal(store: Store, registry: Registry, entries: seq<seq<Bytes>>)

  const START: Journal := Journal(map[], NEW, [])

  ghost function StepRun(j: Journal, e: Event, fp: FloatText): Journal {
    var h := Handle(e.tokens, Live(j.store, e.env.now), j.registry, e.env, fp);
    Journal(h.store, h.registry, j.entries + h.entries)
  }

  ghost function RunAll(events: seq<Event>, fp: FloatText): Journal {
    if events == [] then START
    else StepRun(RunAll(events[..|events| - 1], fp), events[|events| - 1], fp)
  }

  ghost predicate TokensSatisfy(events: seq<Event>, p: Bytes -> bool) {
    forall i, j :: 0 <= i < |events| && 0 <= j < |events[i].tokens| ==> p(events[i].tokens[j])
  }

  lemma HandleKeepsOk(tokens: seq<Bytes>, m: Store, registry: Registry, env: Env, fp: FloatText, p: Bytes -> bool)
    requires StoreOk(m, p) && forall i :: 0 <= i < |tokens| ==> p(tokens[i])
    ensures StoreOk(Handle(tokens, m, registry, env, fp).store, p)
  {
    hide Apply, Parse, StoreOk, CommandOk;
    if tokens != [] {
      var parsed := Parse(tokens, fp);
      if parsed.Ok? {
        ParsedCommandOk(tokens, fp, p);
        CommandsKeepOk(parsed.value, m, Audience(parsed.value, registry), env, fp, p);
      }
    }
  }

  /** No reachable keyspace holds an empty list, set, sorted set or hash, and
      all its sorted sets are consistent. */
  lemma {:induction false} ReachableOk(events: seq<Event>, fp: FloatText, p: Bytes -> bool)
    requires TokensSatisfy(events, p)
    ensures StoreOk(RunAll(events, fp).store, p)
  {
    if events != [] {
      var n := |events| - 1;
      var before := RunAll(events[..n], fp);
      ReachableOk(events[..n], fp, p);
      HandleKeepsOk(events[n].tokens, Live(before.store, events[n].env.now), before.registry, events[n].env, fp, p);
    }
  }
}
