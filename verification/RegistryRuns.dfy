// The registry at the granularity of its lock: operations of many sessions in
// any interleaving, single channel updates of one request included
// (src/database/pubsub.rs, src/session.rs).
module RegistryRuns {
  import opened ByteStrings
  import opened Keyspace
  import opened Databases
  import opened PubSubRegistry
  import opened Sessions

  /** What is done under one acquisition of the registry's lock. */
  datatype RegistryOp =
    | Join(channel: Bytes, id: nat)
    | Leave(channel: Bytes, id: nat)
    | Send(channel: Bytes, payload: Bytes)

  function ApplyOp(r: Registry, op: RegistryOp): Registry {
    match op
    case Join(channel, id) => r.Subscribe(channel, id)
    case Leave(channel, id) => r.Unsubscribe(channel, id)
    case Send(channel, payload) => r.Publish(channel, payload)
  }

  function ApplyOps(r: Registry, ops: seq<RegistryOp>): Registry {
    if ops == [] then r else ApplyOp(ApplyOps(r, ops[..|ops| - 1]), ops[|ops| - 1])
  }

  // --- What the registry holds after any operations -------------------------------------

  /** The last thing the id did about the channel was to join it. */
  predicate Joined(id: nat, channel: Bytes, ops: seq<RegistryOp>) {
    ops != [] &&
    match ops[|ops| - 1]
    case Join(c, i) => (c == channel && i == id) || Joined(id, channel, ops[..|ops| - 1])
    case Leave(c, i) => !(c == channel && i == id) && Joined(id, channel, ops[..|ops| - 1])
    case Send(_, _) => Joined(id, channel, ops[..|ops| - 1])
  }

  /** What was sent on channels the id had joined at that time. */
  function Received(id: nat, ops: seq<RegistryOp>): seq<Note> {
    if ops == [] then []
    else
      var n := |ops| - 1;
      Received(id, ops[..n])
      + if ops[n].Send? && Joined(id, ops[n].channel, ops[..n]) then [(ops[n].channel, ops[n].payload)] else []
  }

  /** In every interleaving: the registry lists an id on a channel exactly when
      the last thing it did about it was to join, and no channel entry is empty. */
  lemma {:induction false} ListedIffJoined(ops: seq<RegistryOp>, id: nat, channel: Bytes)
    ensures id in ApplyOps(NEW, ops).Subscribers(channel) <==> Joined(id, channel, ops)
  {
    if ops != [] {
      ListedIffJoined(ops[..|ops| - 1], id, channel);
    }
  }

  lemma {:induction false} NoChannelEmpty(ops: seq<RegistryOp>)
    ensures forall c <- ApplyOps(NEW, ops).channels :: ApplyOps(NEW, ops).channels[c] != {}
  {
    if ops != [] {
      NoChannelEmpty(ops[..|ops| - 1]);
      KeepsNonEmpty(ApplyOps(NEW, ops[..|ops| - 1]), ops[|ops| - 1]);
    }
  }

  lemma KeepsNonEmpty(r: Registry, op: RegistryOp)
    requires forall c <- r.channels :: r.channels[c] != {}
    ensures forall c <- ApplyOp(r, op).channels :: ApplyOp(r, op).channels[c] != {}
  {
    hide Deliver, Message;
  }

  lemma {:induction false} MailboxIsLetters(ops: seq<RegistryOp>, id: nat)
    ensures ApplyOps(NEW, ops).Mailbox(id) == Letters(Received(id, ops))
  {
    if ops != [] {
      var n := |ops| - 1;
      MailboxIsLetters(ops[..n], id);
      if ops[n].Send? {
        ListedIffJoined(ops[..n], id, ops[n].channel);
        hide Message, Joined;
        var note := (ops[n].channel, ops[n].payload);
        LettersAppend(Received(id, ops[..n]), [note]);
        assert Received(id, ops[..n]) + [] == Received(id, ops[..n]);
      }
    }
  }

  /** In every interleaving: a mailbox holds exactly the channels and payloads sent
      on channels its owner had joined when they were sent, in order and once each. */
  lemma MailboxIsReceived(ops: seq<RegistryOp>, id: nat)
    ensures Carries(ApplyOps(NEW, ops).Mailbox(id), Received(id, ops))
  {
    MailboxIsLetters(ops, id);
    LettersCarry(Received(id, ops));
  }

  // --- One session among others ------------------------------------------------------------

  predicate Concerns(op: RegistryOp, id: nat) {
    !op.Send? && op.id == id
  }

  /** The operations of one id, in order. */
  function Own(id: nat, ops: seq<RegistryOp>): seq<RegistryOp> {
    if ops == [] then []
    else
      var n := |ops| - 1;
      Own(id, ops[..n]) + if Concerns(ops[n], id) then [ops[n]] else []
  }

  /** What an id has joined depends on its own operations alone. */
  lemma {:induction false} OwnDecides(id: nat, channel: Bytes, ops: seq<RegistryOp>)
    ensures Joined(id, channel, ops) <==> Joined(id, channel, Own(id, ops))
  {
    if ops != [] {
      var n := |ops| - 1;
      OwnDecides(id, channel, ops[..n]);
      var own := Own(id, ops[..n]);
      if Concerns(ops[n], id) {
        assert (own + [ops[n]])[..|own|] == own;
      } else {
        assert own + [] == own;
      }
    }
  }

  /** The operations of a SUBSCRIBE: one for every name not held yet. */
  function JoinOps(id: nat, names: seq<Bytes>, channels: set<Bytes>): seq<RegistryOp> {
    if names == [] then []
    else
      var n := |names| - 1;
      JoinOps(id, names[..n], channels)
      + if names[n] in channels + ToSet(names[..n]) then [] else [Join(names[n], id)]
  }

  /** The operations of an UNSUBSCRIBE, or of the cleanup of a session. */
  function LeaveOps(id: nat, names: seq<Bytes>, channels: set<Bytes>): seq<RegistryOp> {
    if names == [] then []
    else
      var n := |names| - 1;
      LeaveOps(id, names[..n], channels)
      + if names[n] in channels - ToSet(names[..n]) then [Leave(names[n], id)] else []
  }

  lemma ApplyMore(r: Registry, ops: seq<RegistryOp>, op: RegistryOp)
    ensures ApplyOps(r, ops + [op]) == ApplyOp(ApplyOps(r, ops), op)
  {
    assert (ops + [op])[..|ops|] == ops;
  }

  /** A request that runs without interruption does just these operations, so
      that the session protocol is the special case of an empty interleaving. */
  lemma {:induction false} SubscribeIsOps(id: nat, names: seq<Bytes>, channels: set<Bytes>, r: Registry)
    ensures var (held, after, _) := SubscribeAll(id, names, channels, r);
            held == channels + ToSet(names) && after == ApplyOps(r, JoinOps(id, names, channels))
  {
    hide ToSet, ApplyOp, SubscriptionReply;
    if names == [] {
      ToSetEmpty(names);
    } else {
      var n := |names| - 1;
      SubscribeIsOps(id, names[..n], channels, r);
      ToSetPrefix(names, n);
      assert names[..n + 1] == names;
      assert channels + ToSet(names[..n]) + {names[n]} == channels + ToSet(names);
      var front := JoinOps(id, names[..n], channels);
      ApplyMore(r, front, Join(names[n], id));
      assert front + [] == front;
      JoinIsSubscribe(ApplyOps(r, front), names[n], id);
    }
  }

  lemma JoinIsSubscribe(r: Registry, channel: Bytes, id: nat)
    ensures ApplyOp(r, Join(channel, id)) == r.Subscribe(channel, id)
    ensures ApplyOp(r, Leave(channel, id)) == r.Unsubscribe(channel, id)
  {
  }

  lemma {:induction false} UnsubscribeIsOps(id: nat, names: seq<Bytes>, channels: set<Bytes>, r: Registry)
    ensures var (held, after, _) := UnsubscribeAll(id, names, channels, r);
            held == channels - ToSet(names) && after == ApplyOps(r, LeaveOps(id, names, channels))
  {
    hide ToSet, ApplyOp, SubscriptionReply;
    if names == [] {
      ToSetEmpty(names);
    } else {
      var n := |names| - 1;
      UnsubscribeIsOps(id, names[..n], channels, r);
      ToSetPrefix(names, n);
      assert names[..n + 1] == names;
      assert channels - ToSet(names[..n]) - {names[n]} == channels - ToSet(names);
      var front := LeaveOps(id, names[..n], channels);
      ApplyMore(r, front, Leave(names[n], id));
      assert front + [] == front;
      JoinIsSubscribe(ApplyOps(r, front), names[n], id);
    }
  }

  // --- Requests of a session, interrupted anywhere ---------------------------------------------

  datatype ChannelRequest =
    | Subscribing(names: seq<Bytes>)
    | Unsubscribing(names: seq<Bytes>)

  /** The operations of a session's requests, and the channels it lists after them. */
  function Trace(id: nat, requests: seq<ChannelRequest>): (seq<RegistryOp>, set<Bytes>) {
    if requests == [] then ([], {})
    else
      var n := |requests| - 1;
      var (ops, channels) := Trace(id, requests[..n]);
      match requests[n]
      case Subscribing(names) => (ops + JoinOps(id, names, channels), channels + ToSet(names))
      case Unsubscribing(names) => (ops + LeaveOps(id, names, channels), channels - ToSet(names))
  }

  lemma {:induction false} JoinOpsJoin(id: nat, names: seq<Bytes>, channels: set<Bytes>, ops: seq<RegistryOp>, c: Bytes)
    requires Joined(id, c, ops) <==> c in channels
    ensures Joined(id, c, ops + JoinOps(id, names, channels)) <==> c in channels + ToSet(names)
  {
    hide ToSet;
    if names == [] {
      ToSetEmpty(names);
      assert ops + [] == ops;
    } else {
      var n := |names| - 1;
      JoinOpsJoin(id, names[..n], channels, ops, c);
      ToSetPrefix(names, n);
      assert names[..n + 1] == names;
      var front := JoinOps(id, names[..n], channels);
      assert front + [] == front;
      var op := Join(names[n], id);
      assert ops + (front + [op]) == (ops + front) + [op];
      assert ((ops + front) + [op])[..|ops + front|] == ops + front;
    }
  }

  lemma {:induction false} LeaveOpsLeave(id: nat, names: seq<Bytes>, channels: set<Bytes>, ops: seq<RegistryOp>,
          c: Bytes)
    requires Joined(id, c, ops) <==> c in channels
    ensures Joined(id, c, ops + LeaveOps(id, names, channels)) <==> c in channels - ToSet(names)
  {
    hide ToSet;
    if names == [] {
      ToSetEmpty(names);
      assert ops + [] == ops;
    } else {
      var n := |names| - 1;
      LeaveOpsLeave(id, names[..n], channels, ops, c);
      ToSetPrefix(names, n);
      assert names[..n + 1] == names;
      var front := LeaveOps(id, names[..n], channels);
      assert front + [] == front;
      var op := Leave(names[n], id);
      assert ops + (front + [op]) == (ops + front) + [op];
      assert ((ops + front) + [op])[..|ops + front|] == ops + front;
    }
  }

  lemma {:induction false} TraceJoins(id: nat, requests: seq<ChannelRequest>, c: Bytes)
    ensures Joined(id, c, Trace(id, requests).0) <==> c in Trace(id, requests).1
  {
    hide Joined;
    if requests == [] {
      NothingJoined(id, c);
    } else {
      var n := |requests| - 1;
      TraceJoins(id, requests[..n], c);
      var (ops, channels) := Trace(id, requests[..n]);
      if requests[n].Subscribing? {
        JoinOpsJoin(id, requests[n].names, channels, ops, c);
      } else {
        LeaveOpsLeave(id, requests[n].names, channels, ops, c);
      }
    }
  }

  lemma NothingJoined(id: nat, c: Bytes)
    ensures !Joined(id, c, [])
  {
  }

  /** However the operations of other sessions fall between those of one, even
      within a single request: whenever it has completed its requests, it is
      registered on exactly the channels it lists. */
  lemma ListedWhenComplete(id: nat, requests: seq<ChannelRequest>, ops: seq<RegistryOp>, c: Bytes)
    requires Own(id, ops) == Trace(id, requests).0
    ensures id in ApplyOps(NEW, ops).Subscribers(c) <==> c in Trace(id, requests).1
  {
    hide Joined;
    ListedIffJoined(ops, id, c);
    OwnDecides(id, c, ops);
    TraceJoins(id, requests, c);
  }

  /** A session that lists no channel, such as one in a transaction, hears
      nothing of what is sent then, by itself or by others in between. */
  lemma UnsubscribedHearsNothing(id: nat, requests: seq<ChannelRequest>, ops: seq<RegistryOp>, channel: Bytes,
          payload: Bytes)
    requires Own(id, ops) == Trace(id, requests).0 && Trace(id, requests).1 == {}
    ensures ApplyOps(NEW, ops + [Send(channel, payload)]).Mailbox(id) == ApplyOps(NEW, ops).Mailbox(id)
  {
    hide Message;
    ListedWhenComplete(id, requests, ops, channel);
    ApplyMore(NEW, ops, Send(channel, payload));
  }
}
