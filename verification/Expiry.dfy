// Lazy expiry against eager expiry over whole interleaved runs
// (src/database/db.rs): requests, two-phase reads, evictions and sweeps.
module Expiry {
  import opened Wrappers
  import opened ByteStrings
  import opened Resp
  import opened Commands
  import opened Keyspace
  import opened Databases
  import opened Dispatch
  import opened PubSubRegistry

  /** One section under a lock. A read of one key may take two: the first under
      the shared lock, which fixes the answer, and a second under the exclusive
      lock when the first found an expired entry. Anything may happen in between. */
  datatype Act =
    | Request(tokens: seq<Bytes>, env: Env)
    | BeginRead(reader: nat, key: Bytes, absent: Reply, read: Entry -> Reply, at: int)
    | FinishRead(reader: nat, at: int)
    | Sweep(at: int)
  {
    function Time(): int {
      if Request? then env.now else at
    }

    /** Whether a client sees an answer to it. */
    predicate Visible() {
      Request? || BeginRead?
    }
  }

  /** The shared state: the store with whatever expired entries it still holds,
      and the readers that are about to evict a key. */
  datatype Machine = Machine(store: Store, registry: Registry, pending: map<nat, Bytes>)

  const START: Machine := Machine(map[], NEW, map[])

  /** One step. A request may leave any physical store with the right live view;
      the methods below take exactly these steps on a database. */
  ghost predicate Step(a: Machine, act: Act, b: Machine, reply: seq<Bytes>, fp: FloatText) {
    match act
    case Request(tokens, env) =>
      var h := Handle(tokens, Live(a.store, env.now), a.registry, env, fp);
      && Live(b.store, env.now) == Live(h.store, env.now)
      && b.registry == h.registry && b.pending == a.pending
      && reply == [h.reply]
    case BeginRead(reader, key, absent, read, now) =>
      && reader !in a.pending
      && (if key in a.store && !Expired(a.store[key], now) then b == a && reply == [Encode(read(a.store[key]))]
          else if key !in a.store then b == a && reply == [Encode(absent)]
          else b == a.(pending := a.pending[reader := key]) && reply == [Encode(absent)])
    case FinishRead(reader, now) =>
      && reader in a.pending
      && b == a.(store := Evict(a.store, a.pending[reader], now), pending := a.pending - {reader})
      && reply == []
    case Sweep(now) =>
      b == a.(store := Live(a.store, now)) && reply == []
  }

  /** An interleaved run: the states it goes through and the answers it gives. */
  ghost predicate IsRun(acts: seq<Act>, states: seq<Machine>, answers: seq<seq<Bytes>>, fp: FloatText) {
    && |states| == |acts| + 1 && |answers| == |acts|
    && states[0] == START
    && forall i :: 0 <= i < |acts| ==> Step(states[i], acts[i], states[i + 1], answers[i], fp)
  }

  function Replies(answers: seq<seq<Bytes>>): seq<Bytes> {
    if answers == [] then [] else Replies(answers[..|answers| - 1]) + answers[|answers| - 1]
  }

  // --- The steps on the database of the source --------------------------------------

  /** The machine is in the state of the database. */
  predicate Shows(a: Machine, db: Database)
    reads db, db.pubsub
  {
    a.store == db.store && a.registry == db.pubsub.Contents()
  }

  method ServeRequest(db: Database, ghost a: Machine, tokens: seq<Bytes>, env: Env, fp: FloatText)
    returns (reply: Bytes, ghost b: Machine)
    requires Shows(a, db)
    modifies db`store, db`log, db.pubsub
    ensures Shows(b, db) && Step(a, Request(tokens, env), b, [reply], fp)
  {
    hide Handle;
    reply := Run(tokens, db, env, fp);
    b := Machine(db.store, db.pubsub.Contents(), a.pending);
  }

  /** The first phase of `read_entry`; the reader still has to evict the key if
      it found it expired. */
  method BeginReadEntry(db: Database, ghost a: Machine, reader: nat, key: Bytes, absent: Reply,
          read: Entry -> Reply, now: int, fp: FloatText)
    returns (reply: Bytes, evict: bool, ghost b: Machine)
    requires Shows(a, db) && reader !in a.pending
    ensures Shows(b, db) && Step(a, BeginRead(reader, key, absent, read, now), b, [reply], fp)
    ensures evict <==> reader in b.pending
  {
    var answer;
    answer, evict := db.ReadShared(key, absent, read, now);
    reply := Encode(answer);
    b := if evict then a.(pending := a.pending[reader := key]) else a;
  }

  /** The second phase, however much later. */
  method FinishReadEntry(db: Database, ghost a: Machine, reader: nat, key: Bytes, now: int, fp: FloatText)
    returns (ghost b: Machine)
    requires Shows(a, db) && reader in a.pending && a.pending[reader] == key
    modifies db`store
    ensures Shows(b, db) && Step(a, FinishRead(reader, now), b, [], fp)
  {
    db.EvictExpired(key, now);
    b := a.(store := db.store, pending := a.pending - {reader});
  }

  method RunSweep(db: Database, ghost a: Machine, now: int, fp: FloatText) returns (ghost b: Machine)
    requires Shows(a, db)
    modifies db`store
    ensures Shows(b, db) && Step(a, Sweep(now), b, [], fp)
  {
    var _ := db.SweepExpired(now);
    b := a.(store := db.store);
  }

  // --- The eager reference ---------------------------------------------------------

  /** A server that drops every key at its deadline and reads atomically. */
  datatype Eager = Eager(store: Store, registry: Registry, replies: seq<Bytes>)

  ghost function EagerStep(e: Eager, act: Act, fp: FloatText): Eager {
    match act
    case Request(tokens, env) =>
      var h := Handle(tokens, Live(e.store, env.now), e.registry, env, fp);
      Eager(h.store, h.registry, e.replies + [h.reply])
    case BeginRead(_, key, absent, read, now) =>
      e.(replies := e.replies + [Encode(Read(Live(e.store, now), key, absent, read))])
    case _ => e
  }

  ghost function EagerRun(acts: seq<Act>, fp: FloatText): Eager {
    if acts == [] then Eager(map[], NEW, [])
    else EagerStep(EagerRun(acts[..|acts| - 1], fp), acts[|acts| - 1], fp)
  }

  ghost predicate InOrder(acts: seq<Act>) {
    forall i, j :: 0 <= i < j < |acts| ==> acts[i].Time() <= acts[j].Time()
  }

  /** The two stores look the same at every moment from the last act on. */
  ghost predicate SameSince(a: Store, b: Store, acts: seq<Act>) {
    forall t :: (forall i :: 0 <= i < |acts| ==> acts[i].Time() <= t) ==> Live(a, t) == Live(b, t)
  }

  lemma SameSinceLast(a: Store, b: Store, acts: seq<Act>)
    requires acts != [] && InOrder(acts)
    requires SameSince(a, b, acts[..|acts| - 1])
    ensures Live(a, acts[|acts| - 1].Time()) == Live(b, acts[|acts| - 1].Time())
  {
  }

  lemma SameSinceNow(a: Store, b: Store, acts: seq<Act>)
    requires acts != []
    requires Live(a, acts[|acts| - 1].Time()) == Live(b, acts[|acts| - 1].Time())
    ensures SameSince(a, b, acts)
  {
  }

  /** Finishing a read never removes a key a client can still observe, however
      much the store has changed since the read began. */
  lemma EvictionInvisible(s: Store, key: Bytes, now: int, t: int)
    requires now <= t
    ensures Live(Evict(s, key, now), t) == Live(s, t)
  {
  }

  lemma StepSimulates(a: Machine, act: Act, b: Machine, reply: seq<Bytes>, e: Eager, fp: FloatText)
    requires Step(a, act, b, reply, fp)
    requires a.registry == e.registry && Live(a.store, act.Time()) == Live(e.store, act.Time())
    ensures var e' := EagerStep(e, act, fp);
            && e'.replies == e.replies + reply
            && b.registry == e'.registry
            && Live(b.store, act.Time()) == Live(e'.store, act.Time())
  {
    hide Handle;
    match act {
      case Request(tokens, env) =>
      case BeginRead(_, key, absent, read, now) =>
        assert key in Live(a.store, now) <==> key in Live(e.store, now);
      case FinishRead(reader, now) =>
        EvictionInvisible(a.store, a.pending[reader], now, now);
        assert e.replies + [] == e.replies;
      case Sweep(now) =>
        LiveTwice(a.store, now, now);
        assert e.replies + [] == e.replies;
    }
  }

  /** Lazy expiry refines eager expiry: in every interleaving of requests,
      half-finished reads, evictions and sweeps, the replies are those of the
      server that drops keys at their deadlines, and so is the live keyspace
      from then on. */
  lemma {:induction false} LazyRefinesEager(acts: seq<Act>, states: seq<Machine>, answers: seq<seq<Bytes>>,
          fp: FloatText)
    requires InOrder(acts) && IsRun(acts, states, answers, fp)
    ensures Replies(answers) == EagerRun(acts, fp).replies
    ensures states[|acts|].registry == EagerRun(acts, fp).registry
    ensures SameSince(states[|acts|].store, EagerRun(acts, fp).store, acts)
    decreases |acts|
  {
    hide Step, EagerStep, SameSince, InOrder, Live;
    if acts == [] {
      SameSinceRefl(states[0].store, acts);
    } else {
      var n := |acts| - 1;
      InOrderPrefix(acts);
      assert IsRun(acts[..n], states[..n + 1], answers[..n], fp);
      LazyRefinesEager(acts[..n], states[..n + 1], answers[..n], fp);
      var e := EagerRun(acts[..n], fp);
      SameSinceLast(states[n].store, e.store, acts);
      StepSimulates(states[n], acts[n], states[n + 1], answers[n], e, fp);
      SameSinceNow(states[n + 1].store, EagerStep(e, acts[n], fp).store, acts);
    }
  }

  lemma SameSinceRefl(s: Store, acts: seq<Act>)
    ensures SameSince(s, s, acts)
  {
  }

  lemma InOrderPrefix(acts: seq<Act>)
    requires acts != [] && InOrder(acts)
    ensures InOrder(acts[..|acts| - 1])
  {
  }

  // --- Maintenance is unobservable ------------------------------------------------------

  ghost function VisibleActs(acts: seq<Act>): seq<Act> {
    if acts == [] then []
    else
      VisibleActs(acts[..|acts| - 1]) + (if acts[|acts| - 1].Visible() then [acts[|acts| - 1]] else [])
  }

  lemma {:induction false} EagerIgnoresMaintenance(acts: seq<Act>, fp: FloatText)
    ensures EagerRun(VisibleActs(acts), fp) == EagerRun(acts, fp)
  {
    hide Handle;
    if acts != [] {
      var n := |acts| - 1;
      var seen := VisibleActs(acts[..n]);
      EagerIgnoresMaintenance(acts[..n], fp);
      if acts[n].Visible() {
        assert (seen + [acts[n]])[..|seen|] == seen;
      } else {
        assert VisibleActs(acts) == seen;
      }
    }
  }

  /** Sweeps and evictions can be inserted, moved or left out anywhere: two runs
      with the same requests and reads at the same times give the same replies. */
  lemma MaintenanceUnobservable(acts1: seq<Act>, states1: seq<Machine>, answers1: seq<seq<Bytes>>,
                                acts2: seq<Act>, states2: seq<Machine>, answers2: seq<seq<Bytes>>, fp: FloatText)
    requires InOrder(acts1) && IsRun(acts1, states1, answers1, fp)
    requires InOrder(acts2) && IsRun(acts2, states2, answers2, fp)
    requires VisibleActs(acts1) == VisibleActs(acts2)
    ensures Replies(answers1) == Replies(answers2)
  {
    LazyRefinesEager(acts1, states1, answers1, fp);
    LazyRefinesEager(acts2, states2, answers2, fp);
    EagerIgnoresMaintenance(acts1, fp);
    EagerIgnoresMaintenance(acts2, fp);
  }

  // --- Commands read in two phases ----------------------------------------------------------

  /** What the source passes to `read_entry` for a command that reads one key. */
  datatype Reader = Reader(key: Bytes, absent: Reply, read: Entry -> Reply)

  function StringReader(cmd: Command): Option<Reader> {
    if cmd.Get? then Some(Reader(cmd.key, ReplyOptional(Ok(None)), (e: Entry) => ReplyOptional(GetOf(e))))
    else if cmd.StrLen? then Some(Reader(cmd.key, ReplyNumber(Ok(0)), (e: Entry) => ReplyNumber(StrLenOf(e))))
    else None
  }

  function ListReader(cmd: Command): Option<Reader> {
    if cmd.LRange? then
      Some(Reader(cmd.key, ReplyArray(Ok([])), (e: Entry) => ReplyArray(LRangeOf(e, cmd.start, cmd.stop))))
    else if cmd.LLen? then Some(Reader(cmd.key, ReplyNumber(Ok(0)), (e: Entry) => ReplyNumber(LLenOf(e))))
    else if cmd.LIndex? then
      Some(Reader(cmd.key, ReplyOptional(Ok(None)), (e: Entry) => ReplyOptional(LIndexOf(e, cmd.index))))
    else None
  }

  function SetReader(cmd: Command, env: Env): Option<Reader> {
    if cmd.SMembers? then Some(Reader(cmd.key, ReplyArray(Ok([])), (e: Entry) => ReplyArray(SMembersOf(e, env))))
    else if cmd.SIsMember? then
      Some(Reader(cmd.key, ReplyBool(Ok(false)), (e: Entry) => ReplyBool(SIsMemberOf(e, cmd.value))))
    else if cmd.SCard? then Some(Reader(cmd.key, ReplyNumber(Ok(0)), (e: Entry) => ReplyNumber(SCardOf(e))))
    else None
  }

  function SortedSetReader(cmd: Command, fp: FloatText): Option<Reader> {
    if cmd.ZRange? && cmd.withScores then
      Some(Reader(cmd.key, ReplyArray(Ok([])), (e: Entry) => ReplyArray(ZRangeScoresOf(e, cmd.start, cmd.stop, fp))))
    else if cmd.ZRange? then
      Some(Reader(cmd.key, ReplyArray(Ok([])), (e: Entry) => ReplyArray(ZRangeOf(e, cmd.start, cmd.stop))))
    else if cmd.ZScore? then
      Some(Reader(cmd.key, ReplyOptional(Ok(None)), (e: Entry) => ReplyOptional(ZScoreOf(e, cmd.member, fp))))
    else if cmd.ZCard? then Some(Reader(cmd.key, ReplyNumber(Ok(0)), (e: Entry) => ReplyNumber(ZCardOf(e))))
    else if cmd.ZRank? then
      Some(Reader(cmd.key, ReplyRank(Ok(None)), (e: Entry) => ReplyRank(ZRankOf(e, cmd.member))))
    else if cmd.ZRangeByScore? then
      Some(Reader(cmd.key, ReplyArray(Ok([])), (e: Entry) => ReplyArray(ZRangeByScoreOf(e, cmd.bounds))))
    else None
  }

  function HashReader(cmd: Command, env: Env): Option<Reader> {
    if cmd.HGet? then
      Some(Reader(cmd.key, ReplyOptional(Ok(None)), (e: Entry) => ReplyOptional(HGetOf(e, cmd.field))))
    else if cmd.HGetAll? then Some(Reader(cmd.key, ReplyArray(Ok([])), (e: Entry) => ReplyArray(HGetAllOf(e, env))))
    else if cmd.HKeys? then Some(Reader(cmd.key, ReplyArray(Ok([])), (e: Entry) => ReplyArray(HKeysOf(e, env))))
    else if cmd.HVals? then Some(Reader(cmd.key, ReplyArray(Ok([])), (e: Entry) => ReplyArray(HValsOf(e, env))))
    else if cmd.HLen? then Some(Reader(cmd.key, ReplyNumber(Ok(0)), (e: Entry) => ReplyNumber(HLenOf(e))))
    else if cmd.HExists? then
      Some(Reader(cmd.key, ReplyBool(Ok(false)), (e: Entry) => ReplyBool(HExistsOf(e, cmd.field))))
    else None
  }

  function KeyReader(cmd: Command, env: Env): Option<Reader> {
    if cmd.Type? then Some(Reader(cmd.key, SimpleReply("none"), (e: Entry) => SimpleReply(TypeOf(e))))
    else if cmd.Ttl? then Some(Reader(cmd.key, IntegerReply(-2), (e: Entry) => IntegerReply(TtlOf(e, env.now))))
    else None
  }

  function ReaderOf(cmd: Command, env: Env, fp: FloatText): Option<Reader> {
    if cmd.OnStrings() then StringReader(cmd)
    else if cmd.OnLists() then ListReader(cmd)
    else if cmd.OnSets() then SetReader(cmd, env)
    else if cmd.OnSortedSets() then SortedSetReader(cmd, fp)
    else if cmd.OnHashes() then HashReader(cmd, env)
    else if cmd.OnKeys() then KeyReader(cmd, env)
    else None
  }

  ghost predicate Answers(r: Option<Reader>, m: Store, outcome: (Store, Reply)) {
    r.Some? ==> outcome == (m, Read(m, r.value.key, r.value.absent, r.value.read))
  }

  lemma StringsAnswer(cmd: Command, m: Store, env: Env)
    requires cmd.OnStrings()
    ensures Answers(StringReader(cmd), m, ApplyToStrings(cmd, m, env))
  {
    hide GetOf, StrLenOf, ReplyOptional, ReplyNumber;
  }

  lemma ListsAnswer(cmd: Command, m: Store)
    requires cmd.OnLists()
    ensures Answers(ListReader(cmd), m, ApplyToLists(cmd, m))
  {
    hide LRangeOf, LLenOf, LIndexOf, ReplyOptional, ReplyNumber, ReplyArray;
  }

  lemma SetsAnswer(cmd: Command, m: Store, env: Env)
    requires cmd.OnSets()
    ensures Answers(SetReader(cmd, env), m, ApplyToSets(cmd, m, env))
  {
    hide SMembersOf, SIsMemberOf, SCardOf, ReplyBool, ReplyNumber, ReplyArray;
  }

  lemma SortedSetsAnswer(cmd: Command, m: Store, fp: FloatText)
    requires cmd.OnSortedSets()
    ensures Answers(SortedSetReader(cmd, fp), m, ApplyToSortedSets(cmd, m, fp))
  {
    hide ZRangeScoresOf, ZRangeOf, ZScoreOf, ZCardOf, ZRankOf, ZRangeByScoreOf, ReplyArray, ReplyOptional;
    hide ReplyNumber, ReplyRank;
  }

  lemma HashesAnswer(cmd: Command, m: Store, env: Env)
    requires cmd.OnHashes()
    ensures Answers(HashReader(cmd, env), m, ApplyToHashes(cmd, m, env))
  {
    hide HGetOf, HGetAllOf, HKeysOf, HValsOf, HLenOf, HExistsOf, ReplyArray, ReplyOptional, ReplyNumber, ReplyBool;
  }

  lemma KeysAnswer(cmd: Command, m: Store, env: Env)
    requires cmd.OnKeys()
    ensures Answers(KeyReader(cmd, env), m, ApplyToKeys(cmd, m, env))
  {
    hide TypeOf, TtlOf;
  }

  /** A command that reads one key answers what its reader reads, and changes
      nothing. */
  lemma ReadersAnswer(cmd: Command, m: Store, audience: nat, env: Env, fp: FloatText)
    ensures Answers(ReaderOf(cmd, env, fp), m, Apply(cmd, m, audience, env, fp))
  {
    hide ApplyToStrings, ApplyToLists, ApplyToSets, ApplyToSortedSets, ApplyToHashes, ApplyToKeys, Answers;
    hide StringReader, ListReader, SetReader, SortedSetReader, HashReader, KeyReader;
    if cmd.OnStrings() { StringsAnswer(cmd, m, env); }
    else if cmd.OnLists() { ListsAnswer(cmd, m); }
    else if cmd.OnSets() { SetsAnswer(cmd, m, env); }
    else if cmd.OnSortedSets() { SortedSetsAnswer(cmd, m, fp); }
    else if cmd.OnHashes() { HashesAnswer(cmd, m, env); }
    else if cmd.OnKeys() { KeysAnswer(cmd, m, env); }
    else { NoReader(None, m, Apply(cmd, m, audience, env, fp)); }
  }

  lemma NoReader(r: Option<Reader>, m: Store, outcome: (Store, Reply))
    requires r == None
    ensures Answers(r, m, outcome)
  {
  }

  /** The first phase of a read stands for the request it belongs to. */
  ghost predicate SplitRead(request: Act, begin: Act, fp: FloatText) {
    && request.Request? && begin.BeginRead?
    && begin.at == request.env.now
    && Parse(request.tokens, fp).Ok?
    && ReaderOf(Parse(request.tokens, fp).value, request.env, fp) == Some(Reader(begin.key, begin.absent, begin.read))
  }

  ghost predicate SplitReads(requests: seq<Act>, acts: seq<Act>, fp: FloatText) {
    && |acts| == |requests|
    && forall i :: 0 <= i < |acts| ==> acts[i] == requests[i] || SplitRead(requests[i], acts[i], fp)
  }

  ghost predicate SameEager(a: Eager, b: Eager, now: int) {
    a.replies == b.replies && a.registry == b.registry && Live(a.store, now) == Live(b.store, now)
  }

  lemma SplitStep(a: Eager, b: Eager, request: Act, act: Act, fp: FloatText)
    requires SameEager(a, b, act.Time())
    requires act == request || SplitRead(request, act, fp)
    ensures request.Time() == act.Time()
    ensures SameEager(EagerStep(a, request, fp), EagerStep(b, act, fp), act.Time())
  {
    hide Apply, Parse, ReaderOf, Encode, Live;
    if act != request {
      var m := Live(a.store, act.at);
      var cmd := Parse(request.tokens, fp).value;
      ReadersAnswer(cmd, m, Audience(cmd, a.registry), request.env, fp);
      ReadsAreNotWrites(cmd, request.env, fp);
      LiveTwice(a.store, act.at, act.at);
    }
  }

  lemma ReadsAreNotWrites(cmd: Command, env: Env, fp: FloatText)
    requires ReaderOf(cmd, env, fp).Some?
    ensures !cmd.Publish?
  {
  }

  lemma {:induction false} SplitReadsAgree(requests: seq<Act>, acts: seq<Act>, fp: FloatText)
    requires InOrder(requests) && SplitReads(requests, acts, fp)
    ensures EagerRun(requests, fp).replies == EagerRun(acts, fp).replies
    ensures EagerRun(requests, fp).registry == EagerRun(acts, fp).registry
    ensures SameSince(EagerRun(requests, fp).store, EagerRun(acts, fp).store, requests)
    decreases |requests|
  {
    hide EagerStep, SameSince, InOrder, Live, SplitRead;
    if requests == [] {
      SameSinceRefl(map[], requests);
    } else {
      var n := |requests| - 1;
      InOrderPrefix(requests);
      SplitReadsAgree(requests[..n], acts[..n], fp);
      var a, b := EagerRun(requests[..n], fp), EagerRun(acts[..n], fp);
      SameSinceLast(a.store, b.store, requests);
      assert acts[n] == requests[n] || SplitRead(requests[n], acts[n], fp);
      SplitTime(requests[n], acts[n], fp);
      SplitStep(a, b, requests[n], acts[n], fp);
      SameSinceNow(EagerStep(a, requests[n], fp).store, EagerStep(b, acts[n], fp).store, requests);
    }
  }

  lemma SplitTime(request: Act, act: Act, fp: FloatText)
    requires act == request || SplitRead(request, act, fp)
    ensures request.Time() == act.Time()
  {
  }

  /** A run of commands: whichever of the commands that read one key are read in
      two phases, and whatever happens between the phases, every command is
      answered as if it had run at once on a server that drops keys at their
      deadlines. */
  lemma TwoPhaseReads(requests: seq<Act>, acts: seq<Act>, states: seq<Machine>, answers: seq<seq<Bytes>>, fp: FloatText)
    requires InOrder(requests) && InOrder(acts) && IsRun(acts, states, answers, fp)
    requires SplitReads(requests, VisibleActs(acts), fp)
    ensures Replies(answers) == EagerRun(requests, fp).replies
  {
    hide IsRun, InOrder, SplitReads, EagerRun;
    LazyRefinesEager(acts, states, answers, fp);
    EagerIgnoresMaintenance(acts, fp);
    SplitReadsAgree(requests, VisibleActs(acts), fp);
  }
}
