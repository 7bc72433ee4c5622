// Per-connection state: transactions and subscribe mode (src/session.rs).
module Sessions {
  import opened Wrappers
  import opened ByteStrings
  import opened Resp
  import opened Commands
  import opened Keyspace
  import opened Databases
  import opened Dispatch
  import opened PubSubRegistry

  /** The commands queued since MULTI, and whether one was refused. */
  datatype Transaction = Transaction(commands: seq<seq<Bytes>>, dirty: bool)

  datatype SessionState = SessionState(id: nat, channels: set<Bytes>, transaction: Option<Transaction>)

  /** What sessions share: the keyspace, the registry and the log entries. */
  datatype World = World(store: Store, registry: Registry, entries: seq<seq<Bytes>>)

  /** One request through the dispatcher. */
  ghost function Dispatched(tokens: seq<Bytes>, w: World, env: Env, fp: FloatText): (World, Bytes) {
    var h := Handle(tokens, Live(w.store, env.now), w.registry, env, fp);
    (World(h.store, h.registry, w.entries + h.entries), h.reply)
  }

  /** Requests dispatched one after the other, the k-th under envs(i + k), and
      their replies run together. */
  ghost function DispatchedAll(commands: seq<seq<Bytes>>, w: World, i: nat, envs: nat -> Env, fp: FloatText): (World,
          Bytes) {
    if commands == [] then (w, [])
    else
      var (w1, reply) := Dispatched(commands[0], w, envs(i), fp);
      var (w2, replies) := DispatchedAll(commands[1..], w1, i + 1, envs, fp);
      (w2, reply + replies)
  }

  function SubscriptionReply(kind: Bytes, channel: Bytes, count: nat): Bytes {
    Encode(ArrayReply([BulkReply(kind), BulkReply(channel), IntegerReply(count)]))
  }

  function NullSubscriptionReply(kind: Bytes): Bytes {
    Encode(ArrayReply([BulkReply(kind), NullReply, IntegerReply(0)]))
  }

  /** Subscribing to channels in order: the channels held, the registry and the
      confirmations. */
  function SubscribeAll(id: nat, names: seq<Bytes>, channels: set<Bytes>, registry: Registry): (set<Bytes>, Registry,
          Bytes) {
    if names == [] then (channels, registry, [])
    else
      var n := |names| - 1;
      var (cs, r, reply) := SubscribeAll(id, names[..n], channels, registry);
      var held := cs + {names[n]};
      (held,
       if names[n] in cs then r else r.Subscribe(names[n], id),
       reply + SubscriptionReply("subscribe", names[n], |held|))
  }

  function UnsubscribeAll(id: nat, names: seq<Bytes>, channels: set<Bytes>, registry: Registry): (set<Bytes>,
          Registry, Bytes) {
    if names == [] then (channels, registry, [])
    else
      var n := |names| - 1;
      var (cs, r, reply) := UnsubscribeAll(id, names[..n], channels, registry);
      var held := cs - {names[n]};
      (held,
       if names[n] in cs then r.Unsubscribe(names[n], id) else r,
       reply + SubscriptionReply("unsubscribe", names[n], |held|))
  }

  predicate AllowedInSubscribeMode(name: Bytes) {
    name == "SUBSCRIBE" || name == "UNSUBSCRIBE" || name == "PING"
  }

  /** One request of a session: its new state, the shared state and the reply. */
  ghost function Answer(s: SessionState, tokens: seq<Bytes>, w: World, envs: nat -> Env,
          fp: FloatText): (SessionState, World, Bytes) {
    if tokens == [] then (s, w, [])
    else
      var name := Upper(tokens[0]);
      if Guarded(s, name) then
        (s, w, GuardReply(name))
      else if name == "MULTI" then
        if s.transaction.Some? then (s, w, Error("ERR MULTI calls can not be nested"))
        else (s.(transaction := Some(Transaction([], false))), w, SimpleString("OK"))
      else if name == "EXEC" then AnswerExec(s, w, envs, fp)
      else if name == "DISCARD" then
        if s.transaction.Some? then (s.(transaction := None), w, SimpleString("OK"))
        else (s, w, Error("ERR DISCARD without MULTI"))
      else if s.transaction.Some? then
        var (t, reply) := Queue(s.transaction.value, name, tokens, fp);
        (s.(transaction := Some(t)), w, reply)
      else if name == "SUBSCRIBE" then AnswerSubscribe(s, tokens[1..], w)
      else if name == "UNSUBSCRIBE" then AnswerUnsubscribe(s, tokens[1..], w, envs(0))
      else
        var (w', reply) := Dispatched(tokens, w, envs(0), fp);
        (s, w', reply)
  }

  ghost function AnswerExec(s: SessionState, w: World, envs: nat -> Env, fp: FloatText): (SessionState, World, Bytes) {
    match s.transaction
    case None => (s, w, Error("ERR EXEC without MULTI"))
    case Some(t) =>
      var closed := s.(transaction := None);
      if t.dirty then (closed, w, Error("EXECABORT Transaction discarded because of previous errors."))
      else
        var (w', replies) := DispatchedAll(t.commands, w, 0, envs, fp);
        (closed, w', Header(|t.commands|) + replies)
  }

  function Queue(t: Transaction, name: Bytes, tokens: seq<Bytes>, fp: FloatText): (Transaction, Bytes) {
    if name == "SUBSCRIBE" || name == "UNSUBSCRIBE" then
      (t.(dirty := true), Error("ERR " + name + " is not allowed in transactions"))
    else
      match Parse(tokens, fp)
      case Ok(_) => (t.(commands := t.commands + [tokens]), SimpleString("QUEUED"))
      case Err(error) => (t.(dirty := true), Error(error.Text()))
  }

  function AnswerSubscribe(s: SessionState, names: seq<Bytes>, w: World): (SessionState, World, Bytes) {
    if names == [] then (s, w, Error("ERR wrong number of arguments for 'subscribe' command"))
    else
      var (channels, registry, reply) := SubscribeAll(s.id, names, s.channels, w.registry);
      (s.(channels := channels), w.(registry := registry), reply)
  }

  function AnswerUnsubscribe(s: SessionState, names: seq<Bytes>, w: World, env: Env): (SessionState, World, Bytes) {
    var targets := if names == [] then env.order(s.channels) else names;
    if targets == [] then (s, w, NullSubscriptionReply("unsubscribe"))
    else
      var (channels, registry, reply) := UnsubscribeAll(s.id, targets, s.channels, w.registry);
      (s.(channels := channels), w.(registry := registry), reply)
  }

  /** The registry after an id is removed from the listed channels. */
  function UnsubscribeEach(id: nat, names: seq<Bytes>, registry: Registry): Registry {
    if names == [] then registry
    else UnsubscribeEach(id, names[..|names| - 1], registry).Unsubscribe(names[|names| - 1], id)
  }

  /** Appending one more command to a dispatched list. */
  lemma {:induction false} DispatchedMore(commands: seq<seq<Bytes>>, command: seq<Bytes>, w: World, i: nat,
          envs: nat -> Env, fp: FloatText)
    ensures var (w1, replies) := DispatchedAll(commands, w, i, envs, fp);
            var (w2, reply) := Dispatched(command, w1, envs(i + |commands|), fp);
            DispatchedAll(commands + [command], w, i, envs, fp) == (w2, replies + reply)
  {
    hide Dispatched;
    if commands == [] {
      var (w1, reply) := Dispatched(command, w, envs(i), fp);
      assert [command][1..] == [] && commands + [command] == [command];
      assert DispatchedAll([], w1, i + 1, envs, fp) == (w1, []);
      assert reply + [] == reply && [] + reply == reply;
    } else {
      var (w1, reply) := Dispatched(commands[0], w, envs(i), fp);
      assert (commands + [command])[1..] == commands[1..] + [command];
      DispatchedMore(commands[1..], command, w1, i + 1, envs, fp);
      var (w2, replies) := DispatchedAll(commands[1..], w1, i + 1, envs, fp);
      var (w3, last) := Dispatched(command, w2, envs(i + |commands|), fp);
      assert reply + (replies + last) == (reply + replies) + last;
    }
  }

  // What Answer is for each kind of request.

  predicate Guarded(s: SessionState, name: Bytes) {
    s.channels != {} && !AllowedInSubscribeMode(name)
  }

  function GuardReply(name: Bytes): Bytes {
    Error("ERR Can't execute '" + Lower(name)
          + "': only (UN)SUBSCRIBE / PING are allowed in subscribe mode")
  }

  predicate EndsOrBegins(name: Bytes) {
    name == "MULTI" || name == "EXEC" || name == "DISCARD"
  }

  lemma AnswerToControl(s: SessionState, tokens: seq<Bytes>, w: World, envs: nat -> Env, fp: FloatText)
    requires tokens != [] && !Guarded(s, Upper(tokens[0])) && EndsOrBegins(Upper(tokens[0]))
    ensures Answer(s, tokens, w, envs, fp) ==
            match Upper(tokens[0])
            case "MULTI" =>
              if s.transaction.Some? then (s, w, Error("ERR MULTI calls can not be nested"))
              else (s.(transaction := Some(Transaction([], false))), w, SimpleString("OK"))
            case "EXEC" => AnswerExec(s, w, envs, fp)
            case _ =>
              if s.transaction.Some? then (s.(transaction := None), w, SimpleString("OK"))
              else (s, w, Error("ERR DISCARD without MULTI"))
  {
    hide AnswerExec, Upper, Dispatched, Queue, AnswerSubscribe, AnswerUnsubscribe;
  }

  lemma AnswerToQueued(s: SessionState, tokens: seq<Bytes>, w: World, envs: nat -> Env, fp: FloatText)
    requires tokens != [] && !Guarded(s, Upper(tokens[0])) && !EndsOrBegins(Upper(tokens[0]))
    requires s.transaction.Some?
    ensures var (t, reply) := Queue(s.transaction.value, Upper(tokens[0]), tokens, fp);
            Answer(s, tokens, w, envs, fp) == (s.(transaction := Some(t)), w, reply)
  {
    hide AnswerExec, Upper, Dispatched, Queue, AnswerSubscribe, AnswerUnsubscribe;
  }

  lemma AnswerOutside(s: SessionState, tokens: seq<Bytes>, w: World, envs: nat -> Env, fp: FloatText)
    requires tokens != [] && !Guarded(s, Upper(tokens[0])) && !EndsOrBegins(Upper(tokens[0]))
    requires s.transaction.None?
    ensures Answer(s, tokens, w, envs, fp) ==
            match Upper(tokens[0])
            case "SUBSCRIBE" => AnswerSubscribe(s, tokens[1..], w)
            case "UNSUBSCRIBE" => AnswerUnsubscribe(s, tokens[1..], w, envs(0))
            case _ =>
              var (w', reply) := Dispatched(tokens, w, envs(0), fp);
              (s, w', reply)
  {
    hide AnswerExec, Upper, Dispatched, Queue, AnswerSubscribe, AnswerUnsubscribe;
  }

  // --- The session of the source ------------------------------------------------------

  class Session {
    const db: Database
    const id: nat
    var channels: set<Bytes>
    var transaction: Option<Transaction>

    constructor (db: Database)
      modifies db.pubsub
      ensures this.db == db
      ensures State() == SessionState(old(db.pubsub.nextId), {}, None)
      ensures db.pubsub.Contents() == old(db.pubsub.Contents()).(nextId := id + 1)
    {
      this.db := db;
      var next := db.pubsub.NextId();
      id := next;
      channels, transaction := {}, None;
    }

    function State(): SessionState
      reads this
    {
      SessionState(id, channels, transaction)
    }

    /** The shared state as this session finds it, with no entries logged yet. */
    function Shared(): World
      reads db, db.pubsub
    {
      World(db.store, db.pubsub.Contents(), [])
    }

    ghost predicate Logs(before: Bytes, entries: seq<seq<Bytes>>)
      reads db
    {
      db.log == before + (if db.appendOnly && !db.replaying then EncodeLog(entries) else [])
    }

    /** `handle`: state, registry, log and reply are those of Answer, and the
        keyspace cannot be told from its keyspace from now on. */
    method HandleRequest(tokens: seq<Bytes>, envs: nat -> Env, fp: FloatText) returns (reply: Bytes)
      requires Monotone(envs)
      modifies this, db`store, db`log, db.pubsub
      ensures var (s, w, r) := Answer(old(State()), tokens, old(Shared()), envs, fp);
              && State() == s && reply == r
              && db.pubsub.Contents() == w.registry
              && Logs(old(db.log), w.entries)
              && SameFrom(db.store, w.store, 1 + QueueLength(old(transaction)), envs)
    {
      hide Parse, Handle, Live, SameFrom, Monotone, Dispatched, AnswerExec, Queue;
      hide Upper, Lower, GuardReply;
      SameAlways(db.store, 1 + QueueLength(transaction), envs);
      SameAlways(db.store, 0, envs);
      assert EncodeLog([]) == [];
      if tokens == [] {
        return [];
      }
      var name := Upper(tokens[0]);
      if channels != {} && !AllowedInSubscribeMode(name) {
        return GuardReply(name);
      }
      hide Answer;
      ghost var s, shared := State(), Shared();
      if EndsOrBegins(name) {
        AnswerToControl(s, tokens, shared, envs, fp);
      } else if transaction.Some? {
        AnswerToQueued(s, tokens, shared, envs, fp);
      } else {
        AnswerOutside(s, tokens, shared, envs, fp);
      }
      if name == "MULTI" {
        reply := BeginMulti();
      } else if name == "EXEC" {
        reply := Exec(envs, fp);
      } else if name == "DISCARD" {
        reply := Discard();
      } else if transaction.Some? {
        reply := Enqueue(name, tokens, fp);
      } else if name == "SUBSCRIBE" {
        reply := Subscribe(tokens[1..]);
      } else if name == "UNSUBSCRIBE" {
        reply := Unsubscribe(tokens[1..], envs(0));
      } else {
        ghost var w := Shared();
        reply := RunNext(tokens, w, db.log, 0, envs, fp);
      }
    }

    method BeginMulti() returns (reply: Bytes)
      modifies `transaction
      ensures old(transaction).Some? ==>
                transaction == old(transaction) && reply == Error("ERR MULTI calls can not be nested")
      ensures old(transaction).None? ==> transaction == Some(Transaction([], false)) && reply == SimpleString("OK")
    {
      if transaction.Some? {
        return Error("ERR MULTI calls can not be nested");
      }
      transaction := Some(Transaction([], false));
      reply := SimpleString("OK");
    }

    method Discard() returns (reply: Bytes)
      modifies `transaction
      ensures transaction == None
      ensures reply == if old(transaction).Some? then SimpleString("OK") else Error("ERR DISCARD without MULTI")
    {
      if transaction == None {
        return Error("ERR DISCARD without MULTI");
      }
      transaction := None;
      reply := SimpleString("OK");
    }

    method Enqueue(name: Bytes, tokens: seq<Bytes>, fp: FloatText) returns (reply: Bytes)
      requires transaction.Some?
      modifies `transaction
      ensures transaction.Some? && (transaction.value, reply) == Queue(old(transaction).value, name, tokens, fp)
    {
      var t := transaction.value;
      if name == "SUBSCRIBE" || name == "UNSUBSCRIBE" {
        transaction := Some(t.(dirty := true));
        return Error("ERR " + name + " is not allowed in transactions");
      }
      var parsed := Parse(tokens, fp);
      match parsed {
        case Ok(_) =>
          transaction := Some(t.(commands := t.commands + [tokens]));
          reply := SimpleString("QUEUED");
        case Err(error) =>
          transaction := Some(t.(dirty := true));
          reply := Error(error.Text());
      }
    }

    /** `exec`: dispatches the queue in order and frames the replies as one array. */
    method Exec(envs: nat -> Env, fp: FloatText) returns (reply: Bytes)
      requires Monotone(envs)
      modifies `transaction, db`store, db`log, db.pubsub
      ensures var (s, w, r) := AnswerExec(old(State()), old(Shared()), envs, fp);
              && State() == s && reply == r
              && db.pubsub.Contents() == w.registry
              && Logs(old(db.log), w.entries)
              && SameFrom(db.store, w.store, 1 + QueueLength(old(transaction)), envs)
    {
      hide Handle, Live, SameFrom, Monotone;
      SameAlways(db.store, 1 + QueueLength(transaction), envs);
      assert EncodeLog([]) == [];
      if transaction == None {
        return Error("ERR EXEC without MULTI");
      }
      var t := transaction.value;
      transaction := None;
      if t.dirty {
        return Error("EXECABORT Transaction discarded because of previous errors.");
      }
      var replies := RunQueue(t.commands, envs, fp);
      reply := Header(|t.commands|) + replies;
    }

    /** The i-th dispatch of a request, continuing from the shared state w. */
    method RunNext(tokens: seq<Bytes>, ghost w: World, ghost before: Bytes, i: nat, envs: nat -> Env,
            fp: FloatText) returns (reply: Bytes)
      requires Monotone(envs)
      requires db.pubsub.Contents() == w.registry && SameFrom(db.store, w.store, i, envs)
      requires Logs(before, w.entries)
      modifies db`store, db`log, db.pubsub
      ensures var (w', r) := Dispatched(tokens, w, envs(i), fp);
              && reply == r
              && db.pubsub.Contents() == w'.registry
              && SameFrom(db.store, w'.store, i + 1, envs)
              && Logs(before, w'.entries)
    {
      hide Handle, Live, SameFrom, Monotone, EncodeLog, Registry.Publish, Registry.Subscribers;
      SameNow(db.store, w.store, i, envs);
      ghost var h := Handle(tokens, Live(w.store, envs(i).now), w.registry, envs(i), fp);
      EncodeLogAppend(w.entries, h.entries);
      ghost var log := db.log;
      reply := Run(tokens, db, envs(i), fp);
      if db.appendOnly && !db.replaying {
        assert log == before + EncodeLog(w.entries);
        assert (before + EncodeLog(w.entries)) + EncodeLog(h.entries)
            == before + (EncodeLog(w.entries) + EncodeLog(h.entries));
      }
      SameAfter(db.store, h.store, i, envs);
    }

    method RunQueue(commands: seq<seq<Bytes>>, envs: nat -> Env, fp: FloatText) returns (replies: Bytes)
      requires Monotone(envs)
      modifies db`store, db`log, db.pubsub
      ensures var (w, r) := DispatchedAll(commands, old(Shared()), 0, envs, fp);
              && replies == r
              && db.pubsub.Contents() == w.registry
              && Logs(old(db.log), w.entries)
              && SameFrom(db.store, w.store, 1 + |commands|, envs)
    {
      hide Handle, Live, SameFrom, Monotone;
      replies := [];
      ghost var start, w := Shared(), Shared();
      SameAlways(db.store, 0, envs);
      assert commands[..0] == [];
      for i := 0 to |commands|
        invariant (w, replies) == DispatchedAll(commands[..i], start, 0, envs, fp)
        invariant db.pubsub.Contents() == w.registry
        invariant Logs(old(db.log), w.entries)
        invariant SameFrom(db.store, w.store, i, envs)
      {
        DispatchedMore(commands[..i], commands[i], start, 0, envs, fp);
        assert commands[..i + 1] == commands[..i] + [commands[i]];
        var reply := RunNext(commands[i], w, old(db.log), i, envs, fp);
        replies := replies + reply;
        w := Dispatched(commands[i], w, envs(i), fp).0;
      }
      assert commands[..|commands|] == commands;
      SameLonger(db.store, w.store, |commands|, envs);
    }

    method Subscribe(names: seq<Bytes>) returns (reply: Bytes)
      modifies `channels, db.pubsub
      ensures var (s, w, r) := AnswerSubscribe(old(State()), names, old(Shared()));
              && State() == s && reply == r && db.pubsub.Contents() == w.registry
    {
      if names == [] {
        return Error("ERR wrong number of arguments for 'subscribe' command");
      }
      reply := [];
      for i := 0 to |names|
        invariant (channels, db.pubsub.Contents(), reply)
               == SubscribeAll(id, names[..i], old(channels), old(db.pubsub.Contents()))
      {
        assert names[..i + 1][..i] == names[..i];
        if names[i] !in channels {
          channels := channels + {names[i]};
          db.pubsub.Subscribe(names[i], id);
        } else {
          assert channels + {names[i]} == channels;
        }
        reply := reply + SubscriptionReply("subscribe", names[i], |channels|);
      }
      assert names[..|names|] == names;
    }

    method Unsubscribe(names: seq<Bytes>, env: Env) returns (reply: Bytes)
      modifies `channels, db.pubsub
      ensures var (s, w, r) := AnswerUnsubscribe(old(State()), names, old(Shared()), env);
              && State() == s && reply == r && db.pubsub.Contents() == w.registry
    {
      hide SubscriptionReply, Registry.Unsubscribe;
      var targets := if names == [] then env.order(channels) else names;
      if targets == [] {
        return NullSubscriptionReply("unsubscribe");
      }
      reply := [];
      for i := 0 to |targets|
        invariant (channels, db.pubsub.Contents(), reply)
               == UnsubscribeAll(id, targets[..i], old(channels), old(db.pubsub.Contents()))
      {
        assert targets[..i + 1][..i] == targets[..i];
        if targets[i] in channels {
          channels := channels - {targets[i]};
          db.pubsub.Unsubscribe(targets[i], id);
        } else {
          assert channels - {targets[i]} == channels;
        }
        reply := reply + SubscriptionReply("unsubscribe", targets[i], |channels|);
      }
      assert targets[..|targets|] == targets;
    }

    /** `cleanup`: drops every subscription still open. */
    method Cleanup(env: Env)
      modifies db.pubsub
      ensures db.pubsub.Contents() == UnsubscribeEach(id, env.order(channels), old(db.pubsub.Contents()))
    {
      var names := env.order(channels);
      for i := 0 to |names|
        invariant db.pubsub.Contents() == UnsubscribeEach(id, names[..i], old(db.pubsub.Contents()))
      {
        assert names[..i + 1][..i] == names[..i];
        db.pubsub.Unsubscribe(names[i], id);
      }
      assert names[..|names|] == names;
    }
  }

  function QueueLength(t: Option<Transaction>): nat {
    match t case None => 0 case Some(t) => |t.commands|
  }

  lemma SameLonger(a: Store, b: Store, n: nat, envs: nat -> Env)
    requires SameFrom(a, b, n, envs)
    ensures SameFrom(a, b, n + 1, envs)
  {
  }
}
