// What requests leave alone: the entries of keys they do not name, and the
// deadlines of keys they write in place (src/database/db.rs). And how long a
// deadline lets a key live.
module DeadlineLaws {
  import opened Wrappers
  import opened ByteStrings
  import opened Resp
  import opened SortedSet
  import opened Commands
  import opened CommandGrammar
  import opened Keyspace
  import opened Dispatch
  import opened PubSubRegistry
  import opened StoreInvariant
  import opened Counters
  import opened ClientView
  import opened StringLaws

  // --- Commands ------------------------------------------------------------------

  /** The commands that replace the deadline of a key. */
  predicate SetsDeadline(cmd: Command) {
    cmd.Set? || cmd.MSet? || cmd.GetSet? || cmd.Expire? || cmd.Persist? || cmd.Rename?
  }

  /** A key that was there keeps its deadline, and a new one has none. */
  ghost predicate KeepsDeadlines(m: Store, after: Store) {
    forall k <- after :: after[k].expiresAt == if k in m then m[k].expiresAt else None
  }

  ghost predicate SameAt(m: Store, after: Store, key: Bytes) {
    (key in after <==> key in m) && (key in m ==> after[key] == m[key])
  }

  predicate Names(cmd: Command, key: Bytes) {
    if cmd.Del? || cmd.Exists? || cmd.MGet? || cmd.SInter? || cmd.SUnion? || cmd.SDiff? then key in cmd.keys
    else if cmd.MSet? then exists i :: 0 <= i < |cmd.pairs| && cmd.pairs[i].0 == key
    else if cmd.Rename? then key == cmd.key || key == cmd.newKey
    else if cmd.FlushAll? then true
    else if cmd.Keys? || cmd.DbSize? || cmd.OnServer() then false
    else key == cmd.key
  }

  ghost predicate Frames(cmd: Command, m: Store, after: Store) {
    && (!SetsDeadline(cmd) ==> KeepsDeadlines(m, after))
    && (forall k :: !Names(cmd, k) ==> SameAt(m, after, k))
  }

  /** At most the entry of this key differs, and not in its deadline. */
  ghost predicate InPlace(m: Store, after: Store, key: Bytes) {
    KeepsDeadlines(m, after) && forall k :: k != key ==> SameAt(m, after, k)
  }

  lemma PutIsInPlace(m: Store, key: Bytes, value: Value)
    ensures InPlace(m, m, key) && InPlace(m, m - {key}, key) && InPlace(m, Put(m, key, value), key)
  {
  }

  lemma InPlaceFrames(cmd: Command, m: Store, after: Store)
    requires cmd.OnSets() || cmd.OnSortedSets()
    requires !cmd.SInter? && !cmd.SUnion? && !cmd.SDiff? && InPlace(m, after, cmd.key)
    ensures Frames(cmd, m, after)
  {
    hide Names;
    forall k ensures Names(cmd, k) <==> k == cmd.key {
      NamesOne(cmd, k);
    }
  }

  lemma NamesOne(cmd: Command, key: Bytes)
    requires cmd.OnSets() || cmd.OnSortedSets()
    requires !cmd.SInter? && !cmd.SUnion? && !cmd.SDiff?
    ensures Names(cmd, key) <==> key == cmd.key
  {
  }

  lemma UnchangedFrames(cmd: Command, m: Store)
    requires !SetsDeadline(cmd)
    ensures Frames(cmd, m, m)
  {
  }

  lemma StringsFrame(cmd: Command, m: Store, env: Env)
    requires cmd.OnStrings()
    ensures Frames(cmd, m, ApplyToStrings(cmd, m, env).0)
  {
    hide ReplyOptional, ReplyNumber, Nullables, Read, PrintInt, ParseI64;
    if cmd.MSet? {
      MSetOthers(m, cmd.pairs);
      assert forall k :: !Names(cmd, k) ==> forall i :: 0 <= i < |cmd.pairs| ==> cmd.pairs[i].0 != k;
    }
  }

  lemma ListsFrame(cmd: Command, m: Store)
    requires cmd.OnLists()
    ensures Frames(cmd, m, ApplyToLists(cmd, m).0)
  {
    if cmd.IsWrite() {
      hide ReplyOptional, ReplyNumber, ReplyStatus;
    } else {
      ListsSound(cmd, m);
      UnchangedFrames(cmd, m);
    }
  }

  lemma SetsFrame(cmd: Command, m: Store, env: Env)
    requires cmd.OnSets()
    ensures Frames(cmd, m, ApplyToSets(cmd, m, env).0)
  {
    if !cmd.IsWrite() && !cmd.SPop? {
      SetsSound(cmd, m, env);
      UnchangedFrames(cmd, m);
    } else {
      var before := SetAt(m, cmd.key);
      var after := if cmd.SAdd? then before + ToSet(cmd.values)
                   else if cmd.SRem? then before - ToSet(cmd.values)
                   else if env.order(before) == [] then before
                   else before - {env.order(before)[0]};
      PutIsInPlace(m, cmd.key, SetValue(after));
      hide InPlace, Frames, Put, ReplyOptional, ReplyNumber, ToSet;
      InPlaceFrames(cmd, m, ApplyToSets(cmd, m, env).0);
    }
  }

  lemma SortedSetsFrame(cmd: Command, m: Store, fp: FloatText)
    requires cmd.OnSortedSets()
    ensures Frames(cmd, m, ApplyToSortedSets(cmd, m, fp).0)
  {
    if !cmd.IsWrite() {
      SortedSetsSound(cmd, m, fp);
      UnchangedFrames(cmd, m);
    } else {
      SortedSetInPlace(cmd, m, fp);
      InPlaceFrames(cmd, m, ApplyToSortedSets(cmd, m, fp).0);
    }
  }

  lemma SortedSetInPlace(cmd: Command, m: Store, fp: FloatText)
    requires cmd.ZAdd? || cmd.ZRem? || cmd.ZIncrBy?
    ensures InPlace(m, ApplyToSortedSets(cmd, m, fp).0, cmd.key)
  {
    hide InPlace, Put, AddAll, ZSet.Add, ZSet.Delete, AddScores, ReplyNumber, ReplyBool, ReplyScore;
    PutIsInPlace(m, cmd.key, SortedSetValue(EMPTY));
    forall value ensures InPlace(m, Put(m, cmd.key, value), cmd.key) {
      PutIsInPlace(m, cmd.key, value);
    }
  }

  lemma HashesFrame(cmd: Command, m: Store, env: Env)
    requires cmd.OnHashes()
    ensures Frames(cmd, m, ApplyToHashes(cmd, m, env).0)
  {
    if cmd.IsWrite() {
      hide ReplyNumber, ReplyBool, PrintInt, ParseI64;
    } else {
      HashesSound(cmd, m, env);
      UnchangedFrames(cmd, m);
    }
  }

  lemma KeysFrame(cmd: Command, m: Store, env: Env)
    requires cmd.OnKeys()
    ensures Frames(cmd, m, ApplyToKeys(cmd, m, env).0)
  {
    if cmd.Del? {
      hide BoolReply, Failure;
    } else if cmd.IsWrite() {
      hide BoolReply, Failure, ToSet;
    } else {
      KeysSound(cmd, m, env);
      UnchangedFrames(cmd, m);
    }
  }

  /** No command but SET, MSET, GETSET, EXPIRE, PERSIST and RENAME changes a
      deadline or gives a new key one, and none touches a key it does not name. */
  lemma CommandFrame(cmd: Command, m: Store, audience: nat, env: Env, fp: FloatText)
    ensures Frames(cmd, m, Apply(cmd, m, audience, env, fp).0)
  {
    hide ApplyToStrings, ApplyToLists, ApplyToSets, ApplyToSortedSets, ApplyToHashes, ApplyToKeys;
    if cmd.OnStrings() { StringsFrame(cmd, m, env); }
    else if cmd.OnLists() { ListsFrame(cmd, m); }
    else if cmd.OnSets() { SetsFrame(cmd, m, env); }
    else if cmd.OnSortedSets() { SortedSetsFrame(cmd, m, fp); }
    else if cmd.OnHashes() { HashesFrame(cmd, m, env); }
    else if cmd.OnKeys() { KeysFrame(cmd, m, env); }
  }

  // --- Requests --------------------------------------------------------------------

  lemma OneType(cmd: Command)
    ensures cmd.OnStrings() ==> !(cmd.OnLists() || cmd.OnSets() || cmd.OnSortedSets() || cmd.OnHashes())
    ensures cmd.OnLists() ==> !(cmd.OnSets() || cmd.OnSortedSets() || cmd.OnHashes())
    ensures cmd.OnSets() ==> !(cmd.OnSortedSets() || cmd.OnHashes())
    ensures cmd.OnSortedSets() ==> !cmd.OnHashes()
  {
  }

  lemma OtherType(cmd: Command)
    ensures cmd.OnKeys() || cmd.OnServer() ==>
              !(cmd.OnStrings() || cmd.OnLists() || cmd.OnSets() || cmd.OnSortedSets() || cmd.OnHashes())
    ensures cmd.OnKeys() ==> !cmd.OnServer()
  {
  }

  lemma MeansArgs(cmd: Command, verb: Verb, args: seq<Bytes>, fp: FloatText)
    requires Means(cmd, verb, args, fp)
    ensures cmd.OnStrings() ==> StringArgs(cmd, verb, args)
    ensures cmd.OnLists() ==> ListArgs(cmd, verb, args)
    ensures cmd.OnSets() ==> SetArgs(cmd, verb, args)
    ensures cmd.OnSortedSets() ==> SortedSetArgs(cmd, verb, args, fp)
    ensures cmd.OnHashes() ==> HashArgs(cmd, verb, args)
    ensures cmd.OnKeys() ==> KeyArgs(cmd, verb, args)
    ensures cmd.OnServer() ==> ServerArgs(cmd, verb, args)
  {
    hide StringArgs, ListArgs, SetArgs, SortedSetArgs, HashArgs, KeyArgs, ServerArgs;
    hide Command.OnStrings, Command.OnLists, Command.OnSets, Command.OnSortedSets, Command.OnHashes, Command.OnKeys;
    hide Command.OnServer;
    OneType(cmd);
    OtherType(cmd);
    hide IsStringVerb, IsCounterVerb, IsListVerb, IsSetVerb, IsSortedSetVerb, IsHashVerb, IsKeyVerb, IsServerVerb;
  }

  lemma {:induction false} FlatHolds(pairs: seq<(Bytes, Bytes)>, key: Bytes)
    requires exists i :: 0 <= i < |pairs| && pairs[i].0 == key
    ensures key in Flat(pairs)
  {
    var i :| 0 <= i < |pairs| && pairs[i].0 == key;
    if i > 0 {
      assert pairs[1..][i - 1].0 == key;
      FlatHolds(pairs[1..], key);
    }
  }

  lemma StringNamesInArgs(cmd: Command, verb: Verb, args: seq<Bytes>, key: Bytes)
    requires cmd.OnStrings() && StringArgs(cmd, verb, args) && Names(cmd, key)
    ensures key in args
  {
    hide ParseI64, ParseU64, Upper, Flat;
    if cmd.MSet? {
      FlatHolds(cmd.pairs, key);
    }
  }

  lemma ListNamesInArgs(cmd: Command, verb: Verb, args: seq<Bytes>, key: Bytes)
    requires cmd.OnLists() && ListArgs(cmd, verb, args) && Names(cmd, key)
    ensures key in args
  {
    hide ParseI64;
  }

  lemma SetNamesInArgs(cmd: Command, verb: Verb, args: seq<Bytes>, key: Bytes)
    requires cmd.OnSets() && SetArgs(cmd, verb, args) && Names(cmd, key)
    ensures key in args
  {
  }

  lemma SortedSetNamesInArgs(cmd: Command, verb: Verb, args: seq<Bytes>, fp: FloatText, key: Bytes)
    requires cmd.OnSortedSets() && SortedSetArgs(cmd, verb, args, fp) && Names(cmd, key)
    ensures key in args
  {
    hide ParseI64, IsBound, AreMembers, Upper;
  }

  lemma HashNamesInArgs(cmd: Command, verb: Verb, args: seq<Bytes>, key: Bytes)
    requires cmd.OnHashes() && HashArgs(cmd, verb, args) && Names(cmd, key)
    ensures key in args
  {
    hide ParseI64;
  }

  lemma KeyNamesInArgs(cmd: Command, verb: Verb, args: seq<Bytes>, key: Bytes)
    requires cmd.OnKeys() && !cmd.FlushAll? && KeyArgs(cmd, verb, args) && Names(cmd, key)
    ensures key in args
  {
    hide ParseI64;
  }

  /** A command names only keys that its request spells out, FLUSHALL excepted. */
  lemma NamesInRequest(cmd: Command, tokens: seq<Bytes>, fp: FloatText, key: Bytes)
    requires IsRequest(tokens, cmd, fp) && !cmd.FlushAll? && Names(cmd, key)
    ensures key in tokens[1..]
  {
    hide Names, Means, VerbOf, Upper, StringArgs, ListArgs, SetArgs, SortedSetArgs, HashArgs, KeyArgs;
    var verb, args := VerbOf(Upper(tokens[0])), tokens[1..];
    MeansArgs(cmd, verb, args, fp);
    ServerNamesNothing(cmd, key);
    if cmd.OnStrings() {
      StringNamesInArgs(cmd, verb, args, key);
    } else if cmd.OnKeys() {
      KeyNamesInArgs(cmd, verb, args, key);
    } else if cmd.OnLists() {
      ListNamesInArgs(cmd, verb, args, key);
    } else if cmd.OnSets() {
      SetNamesInArgs(cmd, verb, args, key);
    } else if cmd.OnSortedSets() {
      SortedSetNamesInArgs(cmd, verb, args, fp, key);
    } else {
      HashNamesInArgs(cmd, verb, args, key);
    }
  }

  lemma ServerNamesNothing(cmd: Command, key: Bytes)
    requires Names(cmd, key)
    ensures !cmd.OnServer()
  {
  }

  lemma SettersByVerb(cmd: Command, verb: Verb, args: seq<Bytes>, fp: FloatText)
    requires Means(cmd, verb, args, fp)
    ensures SetsDeadline(cmd) ==>
              || verb.SetVerb? || verb.MsetVerb? || verb.GetsetVerb? || verb.ExpireVerb? || verb.PersistVerb?
              || verb.RenameVerb?
    ensures cmd.FlushAll? ==> verb.FlushallVerb?
  {
    hide Means, StringArgs, KeyArgs, ListArgs, SetArgs, SortedSetArgs, HashArgs;
    MeansArgs(cmd, verb, args, fp);
    if cmd.OnStrings() {
      StringSetters(cmd, verb, args);
    } else if cmd.OnKeys() {
      KeySetters(cmd, verb, args);
    }
  }

  lemma StringSetters(cmd: Command, verb: Verb, args: seq<Bytes>)
    requires cmd.OnStrings() && StringArgs(cmd, verb, args)
    ensures SetsDeadline(cmd) ==> verb.SetVerb? || verb.MsetVerb? || verb.GetsetVerb?
  {
    hide AreSetArgs, Flat;
  }

  lemma KeySetters(cmd: Command, verb: Verb, args: seq<Bytes>)
    requires cmd.OnKeys() && KeyArgs(cmd, verb, args)
    ensures SetsDeadline(cmd) ==> verb.ExpireVerb? || verb.PersistVerb? || verb.RenameVerb?
    ensures cmd.FlushAll? ==> verb.FlushallVerb?
  {
    hide IsInteger;
  }

  lemma NamesOfVerbs(upper: Bytes)
    ensures VerbOf(upper).SetVerb? ==> upper == "SET"
    ensures VerbOf(upper).ExpireVerb? ==> upper == "EXPIRE"
    ensures VerbOf(upper).PersistVerb? ==> upper == "PERSIST"
  {
  }

  lemma NamesOfLaterVerbs(upper: Bytes)
    ensures VerbOf(upper).MsetVerb? ==> upper == "MSET"
    ensures VerbOf(upper).GetsetVerb? ==> upper == "GETSET"
    ensures VerbOf(upper).RenameVerb? ==> upper == "RENAME"
    ensures VerbOf(upper).FlushallVerb? ==> upper == "FLUSHALL"
  {
  }

  predicate IsNamed(tokens: seq<Bytes>, names: set<Bytes>) {
    tokens != [] && Upper(tokens[0]) in names
  }

  /** What any request leaves alone, valid or not. */
  lemma RequestFrame(tokens: seq<Bytes>, m: Store, registry: Registry, env: Env, fp: FloatText)
    ensures var after := Handle(tokens, m, registry, env, fp).store;
            && (!IsNamed(tokens, {"SET", "MSET", "GETSET", "EXPIRE", "PERSIST", "RENAME"}) ==>
                  forall k <- after :: after[k].expiresAt == if k in m then m[k].expiresAt else None)
            && (tokens != [] && !IsNamed(tokens, {"FLUSHALL"}) ==>
                  forall k | k !in tokens[1..] :: (k in after <==> k in m) && (k in m ==> after[k] == m[k]))
  {
    hide Parse, Apply, VerbOf, Upper, Means, SetsDeadline, Names;
    if tokens != [] && Parse(tokens, fp).Ok? {
      var cmd := Parse(tokens, fp).value;
      var upper := Upper(tokens[0]);
      ParseIff(tokens, cmd, fp);
      CommandFrame(cmd, m, Audience(cmd, registry), env, fp);
      SettersByVerb(cmd, VerbOf(upper), tokens[1..], fp);
      NamesOfVerbs(upper);
      NamesOfLaterVerbs(upper);
      var after := Handle(tokens, m, registry, env, fp).store;
      if !IsNamed(tokens, {"FLUSHALL"}) {
        forall k | k !in tokens[1..] ensures SameAt(m, after, k) {
          if Names(cmd, k) {
            NamesInRequest(cmd, tokens, fp, k);
          }
        }
      }
    }
  }

  // --- Runs ------------------------------------------------------------------------

  /** The key is there when this request comes and after it, and the request is
      not one of those that replace deadlines. */
  ghost predicate StaysInPlace(events: seq<Event>, i: nat, key: Bytes, fp: FloatText)
    requires i < |events|
  {
    && key in Live(RunAll(events[..i], fp).store, events[i].env.now)
    && key in RunAll(events[..i + 1], fp).store
    && !IsNamed(events[i].tokens, {"SET", "MSET", "GETSET", "EXPIRE", "PERSIST", "RENAME"})
  }

  /** All requests from the n-th on are such. */
  ghost predicate OnlyInPlace(events: seq<Event>, n: nat, key: Bytes, fp: FloatText) {
    && n <= |events| && key in RunAll(events[..n], fp).store
    && forall i :: n <= i < |events| ==> StaysInPlace(events, i, key, fp)
  }

  /** However often a key is written in place, its deadline stays what it was. */
  lemma {:induction false} DeadlineKept(events: seq<Event>, n: nat, key: Bytes, fp: FloatText)
    requires OnlyInPlace(events, n, key, fp)
    ensures key in RunAll(events, fp).store
    ensures RunAll(events, fp).store[key].expiresAt == RunAll(events[..n], fp).store[key].expiresAt
  {
    hide RunAll, IsNamed;
    assert events[..|events|] == events;
    if n < |events| {
      var front := events[..|events| - 1];
      StillInPlace(events, n, key, fp);
      DeadlineKept(front, n, key, fp);
      assert front[..n] == events[..n];
      var j, e := RunAll(front, fp), events[|events| - 1];
      assert StaysInPlace(events, |events| - 1, key, fp);
      RequestFrame(e.tokens, Live(j.store, e.env.now), j.registry, e.env, fp);
      RunOneMore(events, fp);
    }
  }

  lemma StillInPlace(events: seq<Event>, n: nat, key: Bytes, fp: FloatText)
    requires n < |events| && OnlyInPlace(events, n, key, fp)
    ensures OnlyInPlace(events[..|events| - 1], n, key, fp)
  {
    hide RunAll, IsNamed, Live;
    var front := events[..|events| - 1];
    assert front[..n] == events[..n];
    forall i | n <= i < |front| ensures StaysInPlace(front, i, key, fp) {
      assert StaysInPlace(events, i, key, fp);
      assert front[..i] == events[..i] && front[..i + 1] == events[..i + 1];
    }
  }

  lemma RunOneMore(events: seq<Event>, fp: FloatText)
    requires events != []
    ensures var j, e := RunAll(events[..|events| - 1], fp), events[|events| - 1];
            RunAll(events, fp).store == Handle(e.tokens, Live(j.store, e.env.now), j.registry, e.env, fp).store
  {
    hide Handle;
  }

  /** SET key value EX seconds, in any case of letters; EXP does as well as EX. */
  predicate IsSetEx(tokens: seq<Bytes>, key: Bytes, value: Bytes, seconds: u64) {
    && |tokens| == 5 && Upper(tokens[0]) == "SET" && tokens[1] == key && tokens[2] == value
    && Upper(tokens[3]) in {"EX", "EXP"} && ParseU64(tokens[4]) == Some(seconds)
  }

  lemma SetExRequest(tokens: seq<Bytes>, key: Bytes, value: Bytes, seconds: u64, fp: FloatText)
    requires IsSetEx(tokens, key, value, seconds)
    ensures IsRequest(tokens, Set(key, value, Some(seconds)), fp)
  {
    hide ParseU64, VerbOf;
    StringNames();
  }

  lemma SetExStores(j: Journal, e: Event, key: Bytes, value: Bytes, seconds: u64, fp: FloatText)
    requires IsSetEx(e.tokens, key, value, seconds)
    ensures var at := e.env.now + seconds * TICKS;
            var deadline := if at <= e.env.clockMax then Some(at) else None;
            StepRun(j, e, fp).store == Live(j.store, e.env.now)[key := Entry(StringValue(value), deadline)]
  {
    hide IsRequest, IsSetEx, Handle, Decode;
    var v := View(Live(j.store, e.env.now), j.registry, e.env, fp);
    SetLaw(v, key, value, seconds);
    SetExRequest(e.tokens, key, value, seconds, fp);
  }

  /** After SET with EX, whatever is written to the key in place: it expires when
      the SET said. */
  lemma WritesKeepExpiry(events: seq<Event>, n: nat, key: Bytes, value: Bytes, seconds: u64, fp: FloatText)
    requires n > 0 && OnlyInPlace(events, n, key, fp)
    requires IsSetEx(events[n - 1].tokens, key, value, seconds)
    ensures var at := events[n - 1].env.now + seconds * TICKS;
            key in RunAll(events, fp).store
            && RunAll(events, fp).store[key].expiresAt == if at <= events[n - 1].env.clockMax then Some(at) else None
  {
    hide IsSetEx, RunAll, StaysInPlace, Handle;
    DeadlineKept(events, n, key, fp);
    assert events[..n][..n - 1] == events[..n - 1];
    RunOneMore(events[..n], fp);
    SetExStores(RunAll(events[..n - 1], fp), events[n - 1], key, value, seconds, fp);
  }

  /** Such a key is there until its deadline and gone from then on. */
  lemma GoneAtDeadline(j: Journal, setting: Event, get: Event, key: Bytes, value: Bytes, seconds: u64, fp: FloatText)
    requires IsSetEx(setting.tokens, key, value, seconds)
    requires |get.tokens| == 2 && Upper(get.tokens[0]) == "GET" && get.tokens[1] == key
    ensures var at := setting.env.now + seconds * TICKS;
            var seen := at > setting.env.clockMax || get.env.now < at;
            var answer := if seen then BulkReply(value) else NullReply;
            Decode(AnswerTo(StepRun(j, setting, fp), get, fp)) == Some((answer, []))
  {
    hide IsSetEx, Handle, Decode, IsRequest, StepRun;
    var j' := StepRun(j, setting, fp);
    SetExStores(j, setting, key, value, seconds, fp);
    var v := View(Live(j'.store, get.env.now), j'.registry, get.env, fp);
    GetLaw(v, key);
    GetRequest(get.tokens, key, fp);
  }

  lemma GetRequest(tokens: seq<Bytes>, key: Bytes, fp: FloatText)
    requires |tokens| == 2 && Upper(tokens[0]) == "GET" && tokens[1] == key
    ensures IsRequest(tokens, Get(key), fp)
  {
    hide VerbOf;
    StringNames();
  }
}
