// Many sessions over one database and one registry (src/session.rs,
// src/database/pubsub.rs): what every reachable state satisfies, and which
// messages end up in which mailbox.
module SystemRuns {
  import opened Wrappers
  import opened ByteStrings
  import opened Resp
  import opened Commands
  import opened Keyspace
  import opened Databases
  import opened Dispatch
  import opened PubSubRegistry
  import opened Sessions
  import opened Transactions

  /** A connection opens, sends one request, or ends. */
  datatype Event =
    | Connect
    | Request(id: nat, tokens: seq<Bytes>, envs: nat -> Env)
    | Disconnect(id: nat, env: Env)

  datatype System = System(world: World, sessions: map<nat, SessionState>)

  const START: System := System(World(map[], NEW, []), map[])

  ghost function Step(sys: System, e: Event, fp: FloatText): System {
    var registry := sys.world.registry;
    match e
    case Connect =>
      var id := registry.nextId;
      System(sys.world.(registry := registry.(nextId := id + 1)), sys.sessions[id := SessionState(id, {}, None)])
    case Request(id, tokens, envs) =>
      if id !in sys.sessions then sys
      else
        var (s, w, _) := Answer(sys.sessions[id], tokens, sys.world, envs, fp);
        System(w, sys.sessions[id := s])
    case Disconnect(id, env) =>
      if id !in sys.sessions then sys
      else
        var left := UnsubscribeEach(id, env.order(sys.sessions[id].channels), registry);
        System(sys.world.(registry := left), sys.sessions - {id})
  }

  ghost function RunSystem(events: seq<Event>, fp: FloatText): System {
    if events == [] then START
    else Step(RunSystem(events[..|events| - 1], fp), events[|events| - 1], fp)
  }

  ghost predicate ValidEvents(events: seq<Event>) {
    forall i :: 0 <= i < |events| ==> ValidEvent(events[i])
  }

  /** Hash iteration lists every element once. */
  ghost predicate ValidEvent(e: Event) {
    (e.Disconnect? ==> e.env.Valid()) && (e.Request? ==> forall i :: e.envs(i).Valid())
  }

  // --- The registry and one session ---------------------------------------------------

  /** The registry lists the id on exactly these channels. */
  ghost predicate Holds(id: nat, channels: set<Bytes>, r: Registry) {
    forall c :: id in r.Subscribers(c) <==> c in channels
  }

  ghost predicate NoEmptyChannel(r: Registry) {
    forall c <- r.channels :: r.channels[c] != {}
  }

  /** Only the listings of this id differ between the registries. */
  ghost predicate OnlyTouches(id: nat, r: Registry, after: Registry) {
    && after.nextId == r.nextId
    && forall c, j :: j != id ==> (j in after.Subscribers(c) <==> j in r.Subscribers(c))
  }

  lemma SubscribeOne(id: nat, channels: set<Bytes>, c: Bytes, r: Registry)
    requires Holds(id, channels, r) && NoEmptyChannel(r)
    ensures var after := r.Subscribe(c, id);
            Holds(id, channels + {c}, after) && NoEmptyChannel(after) && OnlyTouches(id, r, after)
            && after.mailboxes == r.mailboxes
  {
  }

  lemma UnsubscribeOne(id: nat, channels: set<Bytes>, c: Bytes, r: Registry)
    requires Holds(id, channels, r) && NoEmptyChannel(r)
    ensures var after := r.Unsubscribe(c, id);
            Holds(id, channels - {c}, after) && NoEmptyChannel(after) && OnlyTouches(id, r, after)
            && after.mailboxes == r.mailboxes
  {
  }

  lemma {:induction false} SubscribeAllHolds(id: nat, names: seq<Bytes>, channels: set<Bytes>, r: Registry)
    requires Holds(id, channels, r) && NoEmptyChannel(r)
    ensures var (held, after, _) := SubscribeAll(id, names, channels, r);
            Holds(id, held, after) && NoEmptyChannel(after) && OnlyTouches(id, r, after)
            && after.mailboxes == r.mailboxes
  {
    hide NoEmptyChannel, Registry.Subscribe;
    if names != [] {
      var n := |names| - 1;
      SubscribeAllHolds(id, names[..n], channels, r);
      var (cs, mid, _) := SubscribeAll(id, names[..n], channels, r);
      SubscribeOne(id, cs, names[n], mid);
      assert names[n] in cs ==> cs + {names[n]} == cs;
    }
  }

  lemma {:induction false} UnsubscribeAllHolds(id: nat, names: seq<Bytes>, channels: set<Bytes>, r: Registry)
    requires Holds(id, channels, r) && NoEmptyChannel(r)
    ensures var (held, after, _) := UnsubscribeAll(id, names, channels, r);
            Holds(id, held, after) && NoEmptyChannel(after) && OnlyTouches(id, r, after)
            && after.mailboxes == r.mailboxes && held <= channels
  {
    hide NoEmptyChannel, Registry.Unsubscribe;
    if names != [] {
      var n := |names| - 1;
      UnsubscribeAllHolds(id, names[..n], channels, r);
      var (cs, mid, _) := UnsubscribeAll(id, names[..n], channels, r);
      UnsubscribeOne(id, cs, names[n], mid);
      assert names[n] !in cs ==> cs - {names[n]} == cs;
    }
  }

  lemma {:induction false} UnsubscribeEachHolds(id: nat, names: seq<Bytes>, channels: set<Bytes>, r: Registry)
    requires Holds(id, channels, r) && NoEmptyChannel(r)
    ensures var after := UnsubscribeEach(id, names, r);
            Holds(id, channels - ToSet(names), after) && NoEmptyChannel(after) && OnlyTouches(id, r, after)
            && after.mailboxes == r.mailboxes
  {
    hide NoEmptyChannel, Registry.Unsubscribe, ToSet;
    if names == [] {
      ToSetEmpty(names);
      assert channels - ToSet(names) == channels;
    } else {
      var n := |names| - 1;
      UnsubscribeEachHolds(id, names[..n], channels, r);
      var mid := UnsubscribeEach(id, names[..n], r);
      UnsubscribeOne(id, channels - ToSet(names[..n]), names[n], mid);
      ToSetPrefix(names, n);
      assert names[..n + 1] == names;
      assert channels - ToSet(names[..n]) - {names[n]} == channels - ToSet(names);
    }
  }

  /** Cleaning up removes the id from every channel. */
  lemma CleanupRemoves(id: nat, channels: set<Bytes>, r: Registry, env: Env)
    requires Holds(id, channels, r) && NoEmptyChannel(r) && env.Valid()
    ensures var after := UnsubscribeEach(id, env.order(channels), r);
            Holds(id, {}, after) && NoEmptyChannel(after) && OnlyTouches(id, r, after)
            && after.mailboxes == r.mailboxes
  {
    var names := env.order(channels);
    assert Enumerates(names, channels);
    UnsubscribeEachHolds(id, names, channels, r);
    assert channels - ToSet(names) == {} by {
      forall c | c in channels ensures c in ToSet(names) {
        assert c in names;
      }
    }
  }

  /** Dispatching commands leaves subscriptions alone. */
  lemma DispatchedRegistry(tokens: seq<Bytes>, w: World, env: Env, fp: FloatText)
    ensures var r := Dispatched(tokens, w, env, fp).0.registry;
            r.channels == w.registry.channels && r.nextId == w.registry.nextId
  {
    hide Parse, Apply;
  }

  lemma {:induction false} DispatchedAllRegistry(commands: seq<seq<Bytes>>, w: World, i: nat, envs: nat -> Env,
          fp: FloatText)
    ensures var r := DispatchedAll(commands, w, i, envs, fp).0.registry;
            r.channels == w.registry.channels && r.nextId == w.registry.nextId
  {
    hide Dispatched;
    if commands != [] {
      DispatchedRegistry(commands[0], w, envs(i), fp);
      DispatchedAllRegistry(commands[1..], Dispatched(commands[0], w, envs(i), fp).0, i + 1, envs, fp);
    }
  }

  // --- What every reachable state satisfies ----------------------------------------------

  ghost predicate SessionOk(id: nat, s: SessionState, r: Registry, fp: FloatText) {
    && s.id == id && id < r.nextId
    && (s.transaction.Some? ==> s.channels == {})
    && (s.transaction.Some? ==>
          forall k :: 0 <= k < |s.transaction.value.commands| ==> Accepted(s.transaction.value.commands[k], fp))
    && Holds(id, s.channels, r)
  }

  /** No session is both in a transaction and subscribed, queued commands all
      parse, a session is registered on exactly the channels it lists, nothing
      else is registered, and no channel entry is empty. */
  ghost predicate Inv(sys: System, fp: FloatText) {
    && (forall id <- sys.sessions :: SessionOk(id, sys.sessions[id], sys.world.registry, fp))
    && (forall c, id :: id in sys.world.registry.Subscribers(c) ==> id in sys.sessions)
    && NoEmptyChannel(sys.world.registry)
  }

  lemma HoldsByChannels(id: nat, channels: set<Bytes>, r: Registry, after: Registry)
    requires Holds(id, channels, r) && after.channels == r.channels
    ensures Holds(id, channels, after)
  {
    forall c ensures after.Subscribers(c) == r.Subscribers(c) {
    }
  }

  lemma SameChannels(id: nat, r: Registry, after: Registry)
    requires after.channels == r.channels && after.nextId == r.nextId
    ensures OnlyTouches(id, r, after)
    ensures NoEmptyChannel(r) ==> NoEmptyChannel(after)
  {
    forall c ensures after.Subscribers(c) == r.Subscribers(c) {
    }
  }

  /** One request keeps its own session consistent and touches no other. */
  lemma AnswerKeepsOk(s: SessionState, tokens: seq<Bytes>, w: World, envs: nat -> Env, fp: FloatText)
    requires SessionOk(s.id, s, w.registry, fp) && NoEmptyChannel(w.registry)
    ensures var (s', w', _) := Answer(s, tokens, w, envs, fp);
            && SessionOk(s.id, s', w'.registry, fp)
            && NoEmptyChannel(w'.registry)
            && OnlyTouches(s.id, w.registry, w'.registry)
  {
    hide Parse, Accepted, Dispatched, DispatchedAll, SubscribeAll, UnsubscribeAll, NoEmptyChannel, Holds;
    hide CommandError.Text, Lower, GuardReply, Error, SimpleString, NullSubscriptionReply, Header;
    var (s', w', _) := Answer(s, tokens, w, envs, fp);
    if tokens == [] {
      SameChannels(s.id, w.registry, w'.registry);
      return;
    }
    var name := Upper(tokens[0]);
    SameChannels(s.id, w.registry, w.registry);
    if s.channels != {} && !AllowedInSubscribeMode(name) {
    } else if name == "EXEC" {
      if s.transaction.Some? && !s.transaction.value.dirty {
        DispatchedAllRegistry(s.transaction.value.commands, w, 0, envs, fp);
        HoldsByChannels(s.id, s.channels, w.registry, w'.registry);
        SameChannels(s.id, w.registry, w'.registry);
      }
    } else if name == "MULTI" || name == "DISCARD" {
    } else if s.transaction.Some? {
      AcceptedIsParsed(tokens, fp);
    } else if name == "SUBSCRIBE" {
      SubscribeAllHolds(s.id, tokens[1..], s.channels, w.registry);
    } else if name == "UNSUBSCRIBE" {
      var targets := if tokens[1..] == [] then envs(0).order(s.channels) else tokens[1..];
      UnsubscribeAllHolds(s.id, targets, s.channels, w.registry);
    } else {
      DispatchedRegistry(tokens, w, envs(0), fp);
      HoldsByChannels(s.id, s.channels, w.registry, w'.registry);
      SameChannels(s.id, w.registry, w'.registry);
    }
  }

  lemma AcceptedIsParsed(tokens: seq<Bytes>, fp: FloatText)
    ensures Accepted(tokens, fp) <==> Parse(tokens, fp).Ok?
  {
  }

  lemma NextIdIsNew(sys: System, fp: FloatText)
    requires Inv(sys, fp)
    ensures sys.world.registry.nextId !in sys.sessions
  {
  }

  lemma StepKeepsInv(sys: System, e: Event, fp: FloatText)
    requires Inv(sys, fp) && ValidEvent(e)
    ensures Inv(Step(sys, e, fp), fp)
  {
    hide Answer, NoEmptyChannel, Accepted, Env.Valid, UnsubscribeEach;
    var after := Step(sys, e, fp);
    var r, r' := sys.world.registry, after.world.registry;
    match e {
      case Connect =>
        forall id | id in after.sessions ensures SessionOk(id, after.sessions[id], r', fp) {
          forall c ensures r'.Subscribers(c) == r.Subscribers(c) {
          }
          if id == r.nextId {
            NextIdIsNew(sys, fp);
          } else {
            assert SessionOk(id, sys.sessions[id], r, fp);
          }
        }
        forall c, id | id in r'.Subscribers(c) ensures id in after.sessions {
          assert id in r.Subscribers(c);
        }
        NoEmptyByChannels(r, r');
      case Request(id, tokens, envs) =>
        if id in sys.sessions {
          assert SessionOk(id, sys.sessions[id], r, fp);
          AnswerKeepsOk(sys.sessions[id], tokens, sys.world, envs, fp);
          OthersKeepOk(sys, after, id, fp);
        }
      case Disconnect(id, env) =>
        if id in sys.sessions {
          assert SessionOk(id, sys.sessions[id], r, fp);
          CleanupRemoves(id, sys.sessions[id].channels, r, env);
          OthersKeepOk(sys, after, id, fp);
        }
    }
  }

  lemma NoEmptyByChannels(r: Registry, after: Registry)
    requires NoEmptyChannel(r) && after.channels == r.channels
    ensures NoEmptyChannel(after)
  {
  }

  lemma OthersKeepOk(sys: System, after: System, id: nat, fp: FloatText)
    requires Inv(sys, fp) && OnlyTouches(id, sys.world.registry, after.world.registry)
    requires after.sessions - {id} == sys.sessions - {id}
    requires id in sys.sessions
    requires NoEmptyChannel(after.world.registry)
    requires id in after.sessions ==> SessionOk(id, after.sessions[id], after.world.registry, fp)
    requires id !in after.sessions ==> Holds(id, {}, after.world.registry)
    ensures Inv(after, fp)
  {
    hide NoEmptyChannel, Accepted;
    var r, r' := sys.world.registry, after.world.registry;
    forall j | j in after.sessions ensures SessionOk(j, after.sessions[j], r', fp) {
      if j != id {
        assert j in after.sessions - {id};
        assert SessionOk(j, sys.sessions[j], r, fp);
        assert after.sessions[j] == (after.sessions - {id})[j] == sys.sessions[j];
      }
    }
    forall c, j | j in r'.Subscribers(c) ensures j in after.sessions {
      if j != id {
        assert j in r.Subscribers(c);
        assert j in sys.sessions - {id};
      }
    }
  }

  /** The invariant of the registry and the sessions holds after every run. */
  lemma {:induction false} RunKeepsInv(events: seq<Event>, fp: FloatText)
    requires ValidEvents(events)
    ensures Inv(RunSystem(events, fp), fp)
  {
    hide Step, ValidEvent;
    if events == [] {
      StartOk(fp);
    } else {
      var n := |events| - 1;
      RunKeepsInv(events[..n], fp);
      StepKeepsInv(RunSystem(events[..n], fp), events[n], fp);
    }
  }

  lemma StartOk(fp: FloatText)
    ensures Inv(START, fp)
  {
  }

  /** The subscribers of a channel are the sessions that list it. */
  lemma SubscribersAreSessions(sys: System, c: Bytes, fp: FloatText)
    requires Inv(sys, fp)
    ensures sys.world.registry.Subscribers(c) == set id | id in sys.sessions && c in sys.sessions[id].channels
  {
    forall id
      ensures id in sys.world.registry.Subscribers(c) <==> id in sys.sessions && c in sys.sessions[id].channels
    {
      if id in sys.sessions {
        assert SessionOk(id, sys.sessions[id], sys.world.registry, fp);
      }
    }
  }

  // --- Delivery ---------------------------------------------------------------------------

  function PublishedBy(tokens: seq<Bytes>, fp: FloatText): seq<Note> {
    match Parse(tokens, fp)
    case Ok(Publish(channel, payload)) => [(channel, payload)]
    case _ => []
  }

  function PublishedByAll(commands: seq<seq<Bytes>>, fp: FloatText): seq<Note> {
    if commands == [] then [] else PublishedBy(commands[0], fp) + PublishedByAll(commands[1..], fp)
  }

  /** The messages a request of a session publishes, seen from the session alone. */
  function Sent(s: SessionState, tokens: seq<Bytes>, fp: FloatText): seq<Note> {
    if tokens == [] || s.channels != {} then []
    else if Named(tokens, "EXEC") then
      match s.transaction
      case Some(t) => if t.dirty then [] else PublishedByAll(t.commands, fp)
      case None => []
    else if s.transaction.Some? then []
    else PublishedBy(tokens, fp)
  }

  /** Those of the messages whose channel is among the given ones. */
  function Heard(notes: seq<Note>, channels: set<Bytes>): seq<Note> {
    if notes == [] then [] else (if notes[0].0 in channels then [notes[0]] else []) + Heard(notes[1..], channels)
  }

  /** What an event adds to the mailbox of a session: the messages published by
      it on the channels the session lists at that moment, in order. */
  ghost function Mail(id: nat, sys: System, e: Event, fp: FloatText): seq<Note> {
    if e.Request? && e.id in sys.sessions && id in sys.sessions then
      Heard(Sent(sys.sessions[e.id], e.tokens, fp), sys.sessions[id].channels)
    else []
  }

  ghost function MailHistory(id: nat, events: seq<Event>, fp: FloatText): seq<Note> {
    if events == [] then []
    else
      var n := |events| - 1;
      MailHistory(id, events[..n], fp) + Mail(id, RunSystem(events[..n], fp), events[n], fp)
  }

  lemma DispatchedMail(tokens: seq<Bytes>, w: World, env: Env, fp: FloatText, id: nat, channels: set<Bytes>)
    requires Holds(id, channels, w.registry)
    ensures Dispatched(tokens, w, env, fp).0.registry.Mailbox(id)
         == w.registry.Mailbox(id) + Letters(Heard(PublishedBy(tokens, fp), channels))
  {
    hide Parse, Apply, Message;
    if tokens == [] {
      NothingParsed(fp);
    } else {
      var parsed := Parse(tokens, fp);
      if parsed.Ok? && parsed.value.Publish? {
        var note := (parsed.value.channel, parsed.value.payload);
        assert Heard([note][1..], channels) == [];
        assert Heard([note], channels) == if note.0 in channels then [note] else [];
        assert id in w.registry.Subscribers(note.0) <==> note.0 in channels;
      }
    }
  }

  lemma NothingParsed(fp: FloatText)
    ensures Parse([], fp).Err?
  {
  }

  lemma {:induction false} HeardAppend(a: seq<Note>, b: seq<Note>, channels: set<Bytes>)
    ensures Heard(a + b, channels) == Heard(a, channels) + Heard(b, channels)
  {
    if a == [] {
      assert a + b == b;
    } else {
      assert (a + b)[1..] == a[1..] + b;
      HeardAppend(a[1..], b, channels);
    }
  }

  lemma {:induction false} DispatchedAllMail(commands: seq<seq<Bytes>>, w: World, i: nat, envs: nat -> Env,
          fp: FloatText, id: nat, channels: set<Bytes>)
    requires Holds(id, channels, w.registry)
    ensures DispatchedAll(commands, w, i, envs, fp).0.registry.Mailbox(id)
         == w.registry.Mailbox(id) + Letters(Heard(PublishedByAll(commands, fp), channels))
  {
    hide Dispatched, PublishedBy, Holds, Registry.Mailbox;
    if commands != [] {
      var w1 := Dispatched(commands[0], w, envs(i), fp).0;
      DispatchedMail(commands[0], w, envs(i), fp, id, channels);
      DispatchedRegistry(commands[0], w, envs(i), fp);
      HoldsByChannels(id, channels, w.registry, w1.registry);
      DispatchedAllMail(commands[1..], w1, i + 1, envs, fp, id, channels);
      var first, others := PublishedBy(commands[0], fp), PublishedByAll(commands[1..], fp);
      HeardAppend(first, others, channels);
      LettersAppend(Heard(first, channels), Heard(others, channels));
    }
  }

  lemma AnswerMail(s: SessionState, tokens: seq<Bytes>, w: World, envs: nat -> Env, fp: FloatText, id: nat,
          channels: set<Bytes>)
    requires SessionOk(s.id, s, w.registry, fp) && NoEmptyChannel(w.registry)
    requires Holds(id, channels, w.registry)
    ensures Answer(s, tokens, w, envs, fp).1.registry.Mailbox(id)
         == w.registry.Mailbox(id) + Letters(Heard(Sent(s, tokens, fp), channels))
  {
    hide Parse, Dispatched, DispatchedAll, SubscribeAll, UnsubscribeAll, Holds, NoEmptyChannel, PublishedBy, Accepted;
    hide CommandError.Text, Lower, GuardReply, Error, SimpleString, NullSubscriptionReply, Header;
    if tokens == [] || (s.channels != {} && !AllowedInSubscribeMode(Upper(tokens[0]))) {
      return;
    }
    var name := Upper(tokens[0]);
    if AllowedInSubscribeMode(name) || name == "MULTI" || name == "DISCARD" || name == "EXEC" {
      ControlNotPublish(tokens, fp);
    }
    if name == "EXEC" {
      if s.transaction.Some? && !s.transaction.value.dirty {
        DispatchedAllMail(s.transaction.value.commands, w, 0, envs, fp, id, channels);
      }
    } else if name == "MULTI" || name == "DISCARD" || s.transaction.Some? {
    } else if name == "SUBSCRIBE" {
      SubscribeAllHolds(s.id, tokens[1..], s.channels, w.registry);
    } else if name == "UNSUBSCRIBE" {
      var targets := if tokens[1..] == [] then envs(0).order(s.channels) else tokens[1..];
      UnsubscribeAllHolds(s.id, targets, s.channels, w.registry);
    } else {
      DispatchedMail(tokens, w, envs(0), fp, id, channels);
    }
  }

  /** None of the session's own commands, nor PING, publishes. */
  lemma ControlNotPublish(tokens: seq<Bytes>, fp: FloatText)
    requires tokens != []
    requires var name := Upper(tokens[0]);
             || AllowedInSubscribeMode(name)
             || name == "MULTI" || name == "DISCARD" || name == "EXEC"
    ensures PublishedBy(tokens, fp) == []
  {
    hide ParseNamed;
    TransactionVerbs();
    SubscriptionVerbs();
    PingNotPublish(tokens[0], tokens[1..], fp);
    UnknownFails(tokens[0], tokens[1..], fp);
  }

  lemma PingNotPublish(name: Bytes, args: seq<Bytes>, fp: FloatText)
    ensures VerbOf("PING") == PingVerb
    ensures ParseNamed(PingVerb, name, args, fp).Ok? ==> ParseNamed(PingVerb, name, args, fp).value.Ping?
  {
  }

  lemma UnknownMail(sys: System, id: nat, fp: FloatText)
    requires Inv(sys, fp) && id !in sys.sessions
    ensures Holds(id, {}, sys.world.registry)
  {
  }

  lemma {:induction false} MailboxIsLetters(events: seq<Event>, id: nat, fp: FloatText)
    requires ValidEvents(events)
    ensures RunSystem(events, fp).world.registry.Mailbox(id) == Letters(MailHistory(id, events, fp))
  {
    hide Answer, Sent, Inv, ValidEvent, Letters;
    if events == [] {
      NoLetters(id, fp);
    } else {
      var n := |events| - 1;
      var sys := RunSystem(events[..n], fp);
      MailboxIsLetters(events[..n], id, fp);
      RunKeepsInv(events[..n], fp);
      StepMail(sys, events[n], id, fp);
      LettersAppend(MailHistory(id, events[..n], fp), Mail(id, sys, events[n], fp));
    }
  }

  lemma NoLetters(id: nat, fp: FloatText)
    ensures RunSystem([], fp).world.registry.Mailbox(id) == Letters([])
  {
  }

  /** Delivery over whole runs: the mailbox of a session holds exactly the
      channels and payloads published on channels it listed at the time of
      publishing, in order and once each. */
  lemma MailboxIsHistory(events: seq<Event>, id: nat, fp: FloatText)
    requires ValidEvents(events)
    ensures Carries(RunSystem(events, fp).world.registry.Mailbox(id), MailHistory(id, events, fp))
  {
    hide RunSystem, MailHistory, Carries;
    MailboxIsLetters(events, id, fp);
    LettersCarry(MailHistory(id, events, fp));
  }

  lemma StepMail(sys: System, e: Event, id: nat, fp: FloatText)
    requires Inv(sys, fp) && ValidEvent(e)
    ensures Step(sys, e, fp).world.registry.Mailbox(id)
         == sys.world.registry.Mailbox(id) + Letters(Mail(id, sys, e, fp))
  {
    hide Answer, Sent, Accepted, Env.Valid;
    match e {
      case Connect =>
      case Request(from, tokens, envs) =>
        if from in sys.sessions {
          assert SessionOk(from, sys.sessions[from], sys.world.registry, fp);
          if id in sys.sessions {
            assert SessionOk(id, sys.sessions[id], sys.world.registry, fp);
            AnswerMail(sys.sessions[from], tokens, sys.world, envs, fp, id, sys.sessions[id].channels);
          } else {
            UnknownMail(sys, id, fp);
            AnswerMail(sys.sessions[from], tokens, sys.world, envs, fp, id, {});
            HeardNothing(Sent(sys.sessions[from], tokens, fp));
          }
        }
      case Disconnect(from, env) =>
        if from in sys.sessions {
          assert SessionOk(from, sys.sessions[from], sys.world.registry, fp);
          CleanupRemoves(from, sys.sessions[from].channels, sys.world.registry, env);
        }
    }
  }

  lemma {:induction false} HeardNothing(notes: seq<Note>)
    ensures Heard(notes, {}) == []
  {
    if notes != [] {
      HeardNothing(notes[1..]);
    }
  }

  /** No session hears what it publishes itself. */
  lemma NoEcho(sys: System, id: nat, tokens: seq<Bytes>, envs: nat -> Env, fp: FloatText)
    requires Inv(sys, fp) && id in sys.sessions && forall i :: envs(i).Valid()
    ensures Mail(id, sys, Request(id, tokens, envs), fp) == []
    ensures Step(sys, Request(id, tokens, envs), fp).world.registry.Mailbox(id) == sys.world.registry.Mailbox(id)
  {
    HeardNothing(Sent(sys.sessions[id], tokens, fp));
    StepMail(sys, Request(id, tokens, envs), id, fp);
  }

  /** PUBLISH answers with the number of sessions that list the channel. */
  lemma PublishCounts(sys: System, channel: Bytes, payload: Bytes, env: Env, fp: FloatText)
    requires Inv(sys, fp)
    ensures Apply(Publish(channel, payload), Live(sys.world.store, env.now),
                  Audience(Publish(channel, payload), sys.world.registry), env, fp).1
         == IntegerReply(|set id | id in sys.sessions && channel in sys.sessions[id].channels|)
  {
    SubscribersAreSessions(sys, channel, fp);
  }
}
