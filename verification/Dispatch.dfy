// Running requests against the database (src/command/mod.rs) and replaying the
// append-only log (src/server/mod.rs).
module Dispatch {
  import opened Wrappers
  import opened ByteStrings
  import opened Resp
  import opened Request
  import opened Commands
  import opened Keyspace
  import opened Databases
  import opened PubSubRegistry

  // --- What one request does -----------------------------------------------------

  /** The outcome of a request: the keyspace and registry after it, the log
      entries it adds, and its reply bytes. */
  datatype Handled = Handled(store: Store, registry: Registry, entries: seq<seq<Bytes>>, reply: Bytes)

  ghost function Audience(cmd: Command, registry: Registry): nat {
    if cmd.Publish? then |registry.Subscribers(cmd.channel)| else 0
  }

  function Deliveries(cmd: Command, registry: Registry): Registry {
    if cmd.Publish? then registry.Publish(cmd.channel, cmd.payload) else registry
  }

  /** A request on the live keyspace m. SPOP is logged as the SREM of the
      member it removed; other writes are logged as they came, if they succeed. */
  ghost function Handle(tokens: seq<Bytes>, m: Store, registry: Registry, env: Env, fp: FloatText): Handled {
    if tokens == [] then Handled(m, registry, [], [])
    else
      match Parse(tokens, fp)
      case Err(error) => Handled(m, registry, [], Error(error.Text()))
      case Ok(cmd) => HandleCommand(cmd, tokens, m, registry, env, fp)
  }

  ghost function HandleCommand(cmd: Command, tokens: seq<Bytes>, m: Store, registry: Registry, env: Env,
          fp: FloatText): Handled {
    var (after, reply) := Apply(cmd, m, Audience(cmd, registry), env, fp);
    Handled(after, Deliveries(cmd, registry), Logged(cmd, tokens, m, reply, env), Encode(reply))
  }

  ghost function Logged(cmd: Command, tokens: seq<Bytes>, m: Store, reply: Reply, env: Env): seq<seq<Bytes>> {
    if cmd.SPop? then
      match SPopIn(m, cmd.key, env).1
      case Ok(Some(member)) => [["SREM", cmd.key, member]]
      case _ => []
    else if cmd.IsWrite() && !reply.ErrorReply? then [tokens]
    else []
  }

  function EncodeLog(entries: seq<seq<Bytes>>): Bytes {
    if entries == [] then [] else Array(entries[0]) + EncodeLog(entries[1..])
  }

  lemma {:induction false} EncodeLogAppend(a: seq<seq<Bytes>>, b: seq<seq<Bytes>>)
    ensures EncodeLog(a + b) == EncodeLog(a) + EncodeLog(b)
  {
    if a == [] {
      assert a + b == b;
    } else {
      assert (a + b)[1..] == a[1..] + b;
      EncodeLogAppend(a[1..], b);
    }
  }

  predicate IsError(reply: Bytes) {
    reply != [] && reply[0] == '-'
  }

  lemma EncodedError(reply: Reply)
    ensures IsError(Encode(reply)) <==> reply.ErrorReply?
  {
  }

  /** Failure atomicity: a request answered with an error has changed neither
      the keyspace nor the registry, and is not logged. */
  lemma FailureAtomic(tokens: seq<Bytes>, m: Store, registry: Registry, env: Env, fp: FloatText)
    ensures var h := Handle(tokens, m, registry, env, fp);
            IsError(h.reply) ==> h == Handled(m, registry, [], h.reply)
  {
    hide Parse, Apply, Encode, IsError, SPopIn;
    if tokens != [] && Parse(tokens, fp).Ok? {
      var cmd := Parse(tokens, fp).value;
      var reply := Apply(cmd, m, Audience(cmd, registry), env, fp).1;
      EncodedError(reply);
      CommandsSound(cmd, m, Audience(cmd, registry), env, fp);
      if cmd.SPop? {
        ApplySPop(cmd, m, Audience(cmd, registry), env, fp);
      }
      PublishSucceeds(cmd, m, Audience(cmd, registry), env, fp);
    }
  }

  lemma PublishSucceeds(cmd: Command, m: Store, audience: nat, env: Env, fp: FloatText)
    ensures cmd.Publish? ==> !Apply(cmd, m, audience, env, fp).1.ErrorReply?
  {
  }

  // --- The code of the source ----------------------------------------------------------

  method ExecuteStrings(cmd: Command, db: Database, env: Env) returns (reply: Reply)
    requires cmd.OnStrings()
    modifies db`store
    ensures var (after, r) := ApplyToStrings(cmd, old(Live(db.store, env.now)), env);
            Live(db.store, env.now) == Live(after, env.now) && reply == r
  {
    var now := env.now;
    LiveTwice(db.store, now, now);
    match cmd {
      case Set(key, value, ttl) =>
        db.Set(key, value, ttl, env);
        reply := OK;
      case Get(key) =>
        var r := db.ReadEntry(key, Ok(None), GetOf, now);
        reply := ReplyOptional(r);
      case IncrBy(key, delta) =>
        var r := db.IncrBy(key, delta, now);
        reply := ReplyNumber(r);
      case Append(key, value) =>
        var r := db.Append(key, value, now);
        reply := ReplyNumber(r);
      case StrLen(key) =>
        var r := db.ReadEntry(key, Ok(0), StrLenOf, now);
        reply := ReplyNumber(r);
      case MGet(keys) =>
        var values := db.MGet(keys, now);
        reply := ArrayReply(Nullables(values));
      case MSet(pairs) =>
        db.MSet(pairs, now);
        reply := OK;
      case SetNx(key, value) =>
        var ok := db.SetNx(key, value, now);
        reply := BoolReply(ok);
      case GetSet(key, value) =>
        var r := db.GetSet(key, value, now);
        reply := ReplyOptional(r);
    }
    LiveTwice(db.store, now, now);
  }

  method ExecuteLists(cmd: Command, db: Database, now: int) returns (reply: Reply)
    requires cmd.OnLists()
    modifies db`store
    ensures (Live(db.store, now), reply) == ApplyToLists(cmd, old(Live(db.store, now)))
  {
    match cmd {
      case LPush(key, values) =>
        var r := db.Push(key, values, true, now);
        reply := ReplyNumber(r);
      case RPush(key, values) =>
        var r := db.Push(key, values, false, now);
        reply := ReplyNumber(r);
      case LPop(key) =>
        var r := db.Pop(key, true, now);
        reply := ReplyOptional(r);
      case RPop(key) =>
        var r := db.Pop(key, false, now);
        reply := ReplyOptional(r);
      case LRange(key, start, stop) =>
        var r := db.ReadEntry(key, Ok([]), (e: Entry) => LRangeOf(e, start, stop), now);
        reply := ReplyArray(r);
      case LLen(key) =>
        var r := db.ReadEntry(key, Ok(0), LLenOf, now);
        reply := ReplyNumber(r);
      case LIndex(key, index) =>
        var r := db.ReadEntry(key, Ok(None), (e: Entry) => LIndexOf(e, index), now);
        reply := ReplyOptional(r);
      case LSet(key, index, value) =>
        var r := db.LSet(key, index, value, now);
        reply := ReplyStatus(r);
    }
  }

  method ExecuteSets(cmd: Command, db: Database, env: Env) returns (reply: Reply)
    requires cmd.OnSets()
    modifies db`store
    ensures (Live(db.store, env.now), reply) == ApplyToSets(cmd, old(Live(db.store, env.now)), env)
  {
    var now := env.now;
    match cmd {
      case SAdd(key, values) =>
        var r := db.SAdd(key, values, now);
        reply := ReplyNumber(r);
      case SRem(key, values) =>
        var r := db.SRem(key, values, now);
        reply := ReplyNumber(r);
      case SMembers(key) =>
        var r := db.ReadEntry(key, Ok([]), (e: Entry) => SMembersOf(e, env), now);
        reply := ReplyArray(r);
      case SIsMember(key, value) =>
        var r := db.ReadEntry(key, Ok(false), (e: Entry) => SIsMemberOf(e, value), now);
        reply := ReplyBool(r);
      case SCard(key) =>
        var r := db.ReadEntry(key, Ok(0), SCardOf, now);
        reply := ReplyNumber(r);
      case SPop(key) =>
        var r := db.SPop(key, env);
        reply := ReplyOptional(r);
      case SInter(keys) =>
        var r := db.SInter(keys, now);
        reply := ReplySet(r, env);
      case SUnion(keys) =>
        var r := db.SUnion(keys, now);
        reply := ReplySet(r, env);
      case SDiff(keys) =>
        var r := db.SDiff(keys, now);
        reply := ReplySet(r, env);
    }
  }

  method ExecuteSortedSets(cmd: Command, db: Database, now: int, fp: FloatText) returns (reply: Reply)
    requires cmd.OnSortedSets()
    modifies db`store
    ensures (Live(db.store, now), reply) == ApplyToSortedSets(cmd, old(Live(db.store, now)), fp)
  {
    match cmd {
      case ZAdd(key, members) =>
        var r := db.ZAdd(key, members, now);
        reply := ReplyNumber(r);
      case ZRem(key, member) =>
        var r := db.ZRem(key, member, now);
        reply := ReplyBool(r);
      case ZRange(key, start, stop, withScores) =>
        if withScores {
          var r := db.ReadEntry(key, Ok([]), (e: Entry) => ZRangeScoresOf(e, start, stop, fp), now);
          reply := ReplyArray(r);
        } else {
          var r := db.ReadEntry(key, Ok([]), (e: Entry) => ZRangeOf(e, start, stop), now);
          reply := ReplyArray(r);
        }
      case ZScore(key, member) =>
        var r := db.ReadEntry(key, Ok(None), (e: Entry) => ZScoreOf(e, member, fp), now);
        reply := ReplyOptional(r);
      case ZCard(key) =>
        var r := db.ReadEntry(key, Ok(0), ZCardOf, now);
        reply := ReplyNumber(r);
      case ZRank(key, member) =>
        var r := db.ReadEntry(key, Ok(None), (e: Entry) => ZRankOf(e, member), now);
        reply := ReplyRank(r);
      case ZIncrBy(key, increment, member) =>
        var r := db.ZIncrBy(key, increment, member, now);
        reply := ReplyScore(r, fp);
      case ZRangeByScore(key, bounds) =>
        var r := db.ReadEntry(key, Ok([]), (e: Entry) => ZRangeByScoreOf(e, bounds), now);
        reply := ReplyArray(r);
    }
  }

  method ExecuteHashes(cmd: Command, db: Database, env: Env) returns (reply: Reply)
    requires cmd.OnHashes()
    modifies db`store
    ensures (Live(db.store, env.now), reply) == ApplyToHashes(cmd, old(Live(db.store, env.now)), env)
  {
    var now := env.now;
    match cmd {
      case HSet(key, field, value) =>
        var r := db.HSet(key, field, value, now);
        reply := ReplyBool(r);
      case HGet(key, field) =>
        var r := db.ReadEntry(key, Ok(None), (e: Entry) => HGetOf(e, field), now);
        reply := ReplyOptional(r);
      case HDel(key, field) =>
        var r := db.HDel(key, field, now);
        reply := ReplyBool(r);
      case HGetAll(key) =>
        var r := db.ReadEntry(key, Ok([]), (e: Entry) => HGetAllOf(e, env), now);
        reply := ReplyArray(r);
      case HKeys(key) =>
        var r := db.ReadEntry(key, Ok([]), (e: Entry) => HKeysOf(e, env), now);
        reply := ReplyArray(r);
      case HVals(key) =>
        var r := db.ReadEntry(key, Ok([]), (e: Entry) => HValsOf(e, env), now);
        reply := ReplyArray(r);
      case HLen(key) =>
        var r := db.ReadEntry(key, Ok(0), HLenOf, now);
        reply := ReplyNumber(r);
      case HExists(key, field) =>
        var r := db.ReadEntry(key, Ok(false), (e: Entry) => HExistsOf(e, field), now);
        reply := ReplyBool(r);
      case HIncrBy(key, field, delta) =>
        var r := db.HIncrBy(key, field, delta, now);
        reply := ReplyNumber(r);
    }
  }

  method ExecuteKeys(cmd: Command, db: Database, env: Env) returns (reply: Reply)
    requires cmd.OnKeys()
    modifies db`store
    ensures (Live(db.store, env.now), reply) == ApplyToKeys(cmd, old(Live(db.store, env.now)), env)
  {
    var now := env.now;
    match cmd {
      case Del(keys) =>
        var removed := db.Del(keys, now);
        reply := IntegerReply(removed);
      case Exists(keys) =>
        var count := db.CountExisting(keys, now);
        reply := IntegerReply(count);
      case Type(key) =>
        var name := db.ReadEntry(key, "none", TypeOf, now);
        reply := SimpleReply(name);
      case Keys(pattern) =>
        var found := db.MatchingKeys(pattern, now);
        reply := ArrayReply(Bulks(env.order(found)));
      case Expire(key, seconds) =>
        var ok := db.Expire(key, seconds, env);
        reply := BoolReply(ok);
      case Ttl(key) =>
        var left := db.ReadEntry(key, -2, (e: Entry) => TtlOf(e, now), now);
        reply := IntegerReply(left);
      case Persist(key) =>
        var ok := db.Persist(key, now);
        reply := BoolReply(ok);
      case Rename(key, newKey) =>
        var ok := db.Rename(key, newKey, now);
        reply := if ok then OK else Failure("ERR no such key");
      case DbSize =>
        reply := IntegerReply(|Live(db.store, now)|);
      case FlushAll =>
        db.FlushAll();
        reply := OK;
    }
  }

  method ExecuteServer(cmd: Command, db: Database, env: Env) returns (reply: Reply)
    requires cmd.OnServer()
    modifies db.pubsub
    ensures var r := old(db.pubsub.Contents());
            && db.pubsub.Contents() == Deliveries(cmd, r)
            && reply == ApplyToServer(cmd, Live(db.store, env.now), Audience(cmd, r), env).1
  {
    match cmd {
      case Ping(message) =>
        reply := match message case Some(text) => BulkReply(text) case None => SimpleReply("PONG");
      case Echo(text) =>
        reply := BulkReply(text);
      case Info =>
        reply := BulkReply(InfoText(|Live(db.store, env.now)|, env));
      case Save =>
        reply := match env.saveError case None => OK case Some(cause) => Failure("ERR " + cause);
      case BgSave =>
        reply := SimpleReply("Background saving started");
      case Publish(channel, payload) =>
        var count := db.pubsub.Publish(channel, payload);
        reply := IntegerReply(count);
    }
  }

  /** `execute`: on the live view, every command does what Apply says. */
  method Execute(cmd: Command, db: Database, env: Env, fp: FloatText) returns (reply: Reply)
    modifies db`store, db.pubsub
    ensures var (after, r) :=
              Apply(cmd, old(Live(db.store, env.now)), Audience(cmd, old(db.pubsub.Contents())), env, fp);
            && Live(db.store, env.now) == Live(after, env.now)
            && reply == r
    ensures db.pubsub.Contents() == Deliveries(cmd, old(db.pubsub.Contents()))
  {
    hide ApplyToStrings, ApplyToLists, ApplyToSets, ApplyToSortedSets, ApplyToHashes, ApplyToKeys;
    if cmd.OnStrings() {
      reply := ExecuteStrings(cmd, db, env);
    } else if cmd.OnLists() {
      reply := ExecuteLists(cmd, db, env.now);
    } else if cmd.OnSets() {
      reply := ExecuteSets(cmd, db, env);
    } else if cmd.OnSortedSets() {
      reply := ExecuteSortedSets(cmd, db, env.now, fp);
    } else if cmd.OnHashes() {
      reply := ExecuteHashes(cmd, db, env);
    } else if cmd.OnKeys() {
      reply := ExecuteKeys(cmd, db, env);
    } else {
      reply := ExecuteServer(cmd, db, env);
    }
    LiveTwice(db.store, env.now, env.now);
  }

  /** `dispatch`: the reply, the log and the live keyspace are those of Handle. */
  method Run(tokens: seq<Bytes>, db: Database, env: Env, fp: FloatText) returns (reply: Bytes)
    modifies db`store, db`log, db.pubsub
    ensures var h := Handle(tokens, old(Live(db.store, env.now)), old(db.pubsub.Contents()), env, fp);
            && Live(db.store, env.now) == Live(h.store, env.now)
            && db.pubsub.Contents() == h.registry
            && db.log == old(db.log) + (if db.appendOnly && !db.replaying then EncodeLog(h.entries) else [])
            && reply == h.reply
    ensures IsError(reply) ==>
              && Live(db.store, env.now) == old(Live(db.store, env.now))
              && db.pubsub.Contents() == old(db.pubsub.Contents())
              && db.log == old(db.log)
  {
    hide Parse, IsError, Live;
    ghost var m, registry := Live(db.store, env.now), db.pubsub.Contents();
    FailureAtomic(tokens, m, registry, env, fp);
    assert EncodeLog([]) == [];
    LiveTwice(db.store, env.now, env.now);
    if tokens == [] {
      LiveTwice(db.store, env.now, env.now);
      return [];
    }
    var parsed := Parse(tokens, fp);
    match parsed {
      case Err(error) =>
        LiveTwice(db.store, env.now, env.now);
        return Error(error.Text());
      case Ok(cmd) =>
        reply := RunCommand(cmd, tokens, db, env, fp);
    }
  }

  method RunCommand(cmd: Command, tokens: seq<Bytes>, db: Database, env: Env, fp: FloatText) returns (reply: Bytes)
    modifies db`store, db`log, db.pubsub
    ensures var h := HandleCommand(cmd, tokens, old(Live(db.store, env.now)), old(db.pubsub.Contents()), env, fp);
            && Live(db.store, env.now) == Live(h.store, env.now)
            && db.pubsub.Contents() == h.registry
            && db.log == old(db.log) + (if db.appendOnly && !db.replaying then EncodeLog(h.entries) else [])
            && reply == h.reply
  {
    hide Apply, Command.IsWrite, SPopIn, Encode, Live, ReplyOptional, Array;
    ghost var m := Live(db.store, env.now);
    if cmd.SPop? {
      ApplySPop(cmd, m, 0, env, fp);
      var popped := db.SPop(cmd.key, env);
      LiveTwice(db.store, env.now, env.now);
      if popped.Ok? && popped.value.Some? {
        var entry := ["SREM", cmd.key, popped.value.value];
        db.LogWrite(entry);
        LogOfOne(entry);
      }
      return Encode(ReplyOptional(popped));
    }
    var isWrite := cmd.IsWrite();
    var value := Execute(cmd, db, env, fp);
    reply := Encode(value);
    if isWrite && reply[0] != '-' {
      db.LogWrite(tokens);
      LogOfOne(tokens);
    }
  }

  lemma ApplySPop(cmd: Command, m: Store, audience: nat, env: Env, fp: FloatText)
    requires cmd.SPop?
    ensures var (after, r) := SPopIn(m, cmd.key, env);
            Apply(cmd, m, audience, env, fp) == (after, ReplyOptional(r))
  {
    hide SPopIn, ReplyOptional;
  }

  lemma LogOfOne(entry: seq<Bytes>)
    ensures EncodeLog([entry]) == Array(entry)
  {
    assert EncodeLog([entry]) == Array(entry) + EncodeLog([]);
  }

  // --- Replay -------------------------------------------------------------------------------

  /** Successive requests happen no earlier than the ones before them. */
  ghost predicate Monotone(envs: nat -> Env) {
    forall i: nat, j: nat :: i <= j ==> envs(i).now <= envs(j).now
  }

  /** The keyspace and registry after replaying the readable part of a log,
      and the number of entries applied, counting from i. */
  ghost function Replay(log: Bytes, s: Store, registry: Registry, i: nat, envs: nat -> Env, fp: FloatText): (Store,
          Registry, nat)
    decreases |log|
  {
    match ReadRequest(log)
    case Tokens(tokens, rest) =>
      var h := Handle(tokens, Live(s, envs(i).now), registry, envs(i), fp);
      Replay(rest, h.store, h.registry, i + 1, envs, fp)
    case _ => (s, registry, i)
  }

  /** The two stores cannot be told apart at any time after the first n requests. */
  ghost predicate SameFrom(a: Store, b: Store, n: nat, envs: nat -> Env) {
    forall t :: (forall i :: 0 <= i < n ==> envs(i).now <= t) ==> Live(a, t) == Live(b, t)
  }

  lemma SameAlways(a: Store, n: nat, envs: nat -> Env)
    ensures SameFrom(a, a, n, envs)
  {
  }

  lemma SameNow(a: Store, b: Store, n: nat, envs: nat -> Env)
    requires Monotone(envs) && SameFrom(a, b, n, envs)
    ensures Live(a, envs(n).now) == Live(b, envs(n).now)
  {
  }

  lemma SameAfter(a: Store, b: Store, n: nat, envs: nat -> Env)
    requires Live(a, envs(n).now) == Live(b, envs(n).now)
    ensures SameFrom(a, b, n + 1, envs)
  {
    forall t | forall i :: 0 <= i < n + 1 ==> envs(i).now <= t ensures Live(a, t) == Live(b, t) {
      LiveLater(a, b, envs(n).now, t);
    }
  }

  /** `replay_aof`: re-dispatches entry after entry up to the end of the log or
      the first malformed one, logging nothing and leaving the replay flag
      cleared either way. */
  method ReplayAof(log: Bytes, db: Database, envs: nat -> Env, fp: FloatText) returns (count: nat)
    requires Monotone(envs)
    modifies db`store, db`log, db`replaying, db.pubsub
    ensures var (s, registry, n) := Replay(log, old(db.store), old(db.pubsub.Contents()), 0, envs, fp);
            && count == n
            && db.pubsub.Contents() == registry
            && SameFrom(db.store, s, n, envs)
    ensures db.log == old(db.log) && !db.replaying
  {
    hide Handle, ReadRequest, Live, Monotone, SameFrom;
    var reader := new Reader(log);
    db.BeginReplay();
    count := 0;
    ghost var s := db.store;
    assert SameFrom(s, s, 0, envs) by { SameAlways(s, 0, envs); }
    var request := reader.ReadOne();
    ghost var rest := log;
    while request.Tokens?
      invariant fresh(reader) && reader.Valid() && db.replaying && db.log == old(db.log)
      invariant request == ReadRequest(rest) && (request.Tokens? ==> reader.Remaining() == request.rest)
      invariant Replay(rest, s, db.pubsub.Contents(), count, envs, fp)
             == Replay(log, old(db.store), old(db.pubsub.Contents()), 0, envs, fp)
      invariant SameFrom(db.store, s, count, envs)
      decreases |rest|
    {
      SameNow(db.store, s, count, envs);
      ghost var h := Handle(request.tokens, Live(s, envs(count).now), db.pubsub.Contents(), envs(count), fp);
      var _ := Run(request.tokens, db, envs(count), fp);
      SameAfter(db.store, h.store, count, envs);
      s, rest := h.store, request.rest;
      count := count + 1;
      request := reader.ReadOne();
    }
    db.EndReplay();
  }
}
