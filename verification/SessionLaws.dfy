// What a client sees of its session: subscribe mode and transactions, from the
// bytes it sends to the values it decodes (src/session.rs).
module SessionLaws {
  import opened Wrappers
  import opened ByteStrings
  import opened Resp
  import opened Commands
  import opened CommandGrammar
  import opened Keyspace
  import opened Databases
  import opened Dispatch
  import opened PubSubRegistry
  import opened Sessions
  import opened ClientView
  import opened KeyLaws
  import opened CommandErrors
  import opened SystemRuns
  import opened Transactions

  /** The request leaves the session and all that sessions share as they were,
      and the reply is this value. */
  ghost predicate OnlyAnswers(s: SessionState, w: World, result: (SessionState, World, Bytes), reply: Reply) {
    result.0 == s && result.1 == w && Decode(result.2) == Some((reply, []))
  }

  /** The reply is an error with this text, in one line. */
  ghost predicate IsErrorReply(reply: Bytes, text: Bytes) {
    exists line :: IsOneLineOf(line, text) && Decode(reply) == Some((ErrorReply(line), []))
  }

  ghost predicate OnlyRefused(s: SessionState, w: World, result: (SessionState, World, Bytes), text: Bytes) {
    result.0 == s && result.1 == w && IsErrorReply(result.2, text)
  }

  lemma ErrorDecodes(message: Bytes)
    ensures IsErrorReply(Error(message), message)
  {
    hide Decode, Error, Sanitize, IsOneLineOf;
    ErrorFrame(message, []);
    assert Error(message) + [] == Error(message);
    SanitizedIsOneLine(message, Sanitize(message));
  }

  lemma SimpleDecodes(text: Bytes)
    requires OneLine(text)
    ensures Decode(SimpleString(text)) == Some((SimpleReply(text), []))
  {
    hide Decode, SimpleString;
    SimpleFrame(text, []);
    assert SimpleString(text) + [] == SimpleString(text);
  }

  // --- Subscribe mode ------------------------------------------------------------------

  /** In subscribe mode every request but three is refused and does nothing. */
  lemma OthersAreRefused(s: SessionState, tokens: seq<Bytes>, w: World, envs: nat -> Env, fp: FloatText)
    requires s.channels != {} && tokens != []
    requires Upper(tokens[0]) !in {"PING", "SUBSCRIBE", "UNSUBSCRIBE"}
    ensures OnlyRefused(s, w, Answer(s, tokens, w, envs, fp),
              "ERR Can't execute '" + Lower(tokens[0]) + "': only (UN)SUBSCRIBE / PING are allowed in subscribe mode")
  {
    hide IsErrorReply, Error, Upper, Lower;
    hide AnswerExec, Dispatched, Queue, AnswerSubscribe, AnswerUnsubscribe;
    LowerOfUpper(tokens[0]);
    ErrorDecodes("ERR Can't execute '" + Lower(Upper(tokens[0]))
                 + "': only (UN)SUBSCRIBE / PING are allowed in subscribe mode");
  }

  lemma PingMeans(cmd: Command, args: seq<Bytes>, fp: FloatText)
    ensures Means(cmd, PingVerb, args, fp) <==>
            cmd.Ping? && args == (match cmd.message case None => [] case Some(text) => [text])
  {
    hide StringArgs, ListArgs, SetArgs, SortedSetArgs, HashArgs, KeyArgs;
  }

  /** What PING parses to, and that it does not parse with more than one argument. */
  lemma PingParses(tokens: seq<Bytes>, fp: FloatText)
    requires tokens != [] && Upper(tokens[0]) == "PING"
    ensures |tokens| == 1 ==> Parse(tokens, fp) == Ok(Ping(None))
    ensures |tokens| == 2 ==> Parse(tokens, fp) == Ok(Ping(Some(tokens[1])))
    ensures |tokens| > 2 ==> Parse(tokens, fp) == Err(WrongArity("PING"))
  {
    hide VerbOf, Upper, Parse, Means, ParseNamed;
    ServerNames();
    var args := tokens[1..];
    PingMeans(Ping(None), args, fp);
    ParseIff(tokens, Ping(None), fp);
    if |tokens| == 2 {
      PingMeans(Ping(Some(tokens[1])), args, fp);
      ParseIff(tokens, Ping(Some(tokens[1])), fp);
    } else if |tokens| > 2 {
      PingArity(tokens[0], args, fp);
      assert Parse(tokens, fp) == ParseNamed(PingVerb, tokens[0], args, fp) by { ParsedByVerb(tokens, fp); }
    }
  }

  lemma PingArity(name: Bytes, args: seq<Bytes>, fp: FloatText)
    requires |args| > 1
    ensures ParseNamed(PingVerb, name, args, fp) == Err(WrongArity("PING"))
  {
  }

  lemma ParsedByVerb(tokens: seq<Bytes>, fp: FloatText)
    requires tokens != []
    ensures Parse(tokens, fp) == ParseNamed(VerbOf(Upper(tokens[0])), tokens[0], tokens[1..], fp)
  {
  }

  lemma PingInLowerCase()
    ensures WrongArity("PING").Text() == "ERR wrong number of arguments for 'ping' command"
  {
    assert Lower("PING") == "ping";
  }

  lemma PingHandled(message: Option<Bytes>, tokens: seq<Bytes>, m: Store, registry: Registry, env: Env, fp: FloatText)
    ensures var reply := match message case None => SimpleReply("PONG") case Some(text) => BulkReply(text);
            && HandleCommand(Ping(message), tokens, m, registry, env, fp) == Handled(m, registry, [], Encode(reply))
            && Decode(Encode(reply)) == Some((reply, []))
  {
    hide Encode, Decode;
    var reply := match message case None => SimpleReply("PONG") case Some(text) => BulkReply(text);
    PongOneLine();
    DecodeEncode(reply, []);
    assert Encode(reply) + [] == Encode(reply);
  }

  lemma PingDispatched(tokens: seq<Bytes>, w: World, env: Env, fp: FloatText)
    requires tokens != [] && Upper(tokens[0]) == "PING"
    ensures var (w', reply) := Dispatched(tokens, w, env, fp);
            && w' == w.(store := Live(w.store, env.now))
            && (|tokens| == 1 ==> Decode(reply) == Some((SimpleReply("PONG"), [])))
            && (|tokens| == 2 ==> Decode(reply) == Some((BulkReply(tokens[1]), [])))
            && (|tokens| > 2 ==> IsErrorReply(reply, "ERR wrong number of arguments for 'ping' command"))
  {
    hide Decode, Upper, Parse, HandleCommand, Encode, IsErrorReply, Error, Live;
    PingInLowerCase();
    assert w.entries + [] == w.entries;
    PingParses(tokens, fp);
    if |tokens| > 2 {
      ErrorDecodes("ERR wrong number of arguments for 'ping' command");
    } else {
      var message := if |tokens| == 1 then None else Some(tokens[1]);
      PingHandled(message, tokens, Live(w.store, env.now), w.registry, env, fp);
    }
  }

  lemma PongOneLine()
    ensures OneLine("PONG")
  {
  }

  /** PING is answered as it is outside subscribe mode, and changes nothing. */
  lemma PingIsAnswered(s: SessionState, tokens: seq<Bytes>, w: World, envs: nat -> Env, fp: FloatText)
    requires s.channels != {} && s.transaction == None && tokens != [] && Upper(tokens[0]) == "PING"
    ensures var after := w.(store := Live(w.store, envs(0).now));
            var result := Answer(s, tokens, w, envs, fp);
            && (|tokens| == 1 ==> OnlyAnswers(s, after, result, SimpleReply("PONG")))
            && (|tokens| == 2 ==> OnlyAnswers(s, after, result, BulkReply(tokens[1])))
            && (|tokens| > 2 ==> OnlyRefused(s, after, result, "ERR wrong number of arguments for 'ping' command"))
  {
    hide Decode, Upper, Dispatched, IsErrorReply;
    PingDispatched(tokens, w, envs(0), fp);
  }

  /** The confirmations of a request on channels: for each name in order, what was
      done, the name, and the number of channels held after it. */
  function Confirmations(kind: Bytes, names: seq<Bytes>, counts: seq<nat>): seq<Reply>
    requires |names| == |counts|
  {
    seq(|names|, i requires 0 <= i < |names| =>
      ArrayReply([BulkReply(kind), BulkReply(names[i]), IntegerReply(counts[i])]))
  }

  function HeldAfter(held: set<Bytes>, names: seq<Bytes>): (counts: seq<nat>)
    ensures |counts| == |names|
  {
    seq(|names|, i requires 0 <= i < |names| => |held + ToSet(names[..i + 1])|)
  }

  function LeftAfter(held: set<Bytes>, names: seq<Bytes>): (counts: seq<nat>)
    ensures |counts| == |names|
  {
    seq(|names|, i requires 0 <= i < |names| => |held - ToSet(names[..i + 1])|)
  }

  lemma CountsMore(held: set<Bytes>, names: seq<Bytes>)
    requires names != []
    ensures var n := |names| - 1;
            && HeldAfter(held, names) == HeldAfter(held, names[..n]) + [|held + ToSet(names)|]
            && LeftAfter(held, names) == LeftAfter(held, names[..n]) + [|held - ToSet(names)|]
  {
    hide ToSet;
    var n := |names| - 1;
    assert names[..n + 1] == names;
    forall i | 0 <= i < n
      ensures HeldAfter(held, names)[i] == HeldAfter(held, names[..n])[i]
      ensures LeftAfter(held, names)[i] == LeftAfter(held, names[..n])[i]
    {
      assert names[..n][..i + 1] == names[..i + 1];
    }
  }

  lemma NoConfirmations(kind: Bytes, names: seq<Bytes>, counts: seq<nat>)
    requires names == [] && counts == []
    ensures Confirmations(kind, names, counts) == []
  {
  }

  lemma ConfirmationsMore(kind: Bytes, names: seq<Bytes>, counts: seq<nat>)
    requires |names| == |counts| > 0
    ensures var n := |names| - 1;
            var last := ArrayReply([BulkReply(kind), BulkReply(names[n]), IntegerReply(counts[n])]);
            Confirmations(kind, names, counts) == Confirmations(kind, names[..n], counts[..n]) + [last]
  {
  }

  lemma {:induction false} SubscribeAllReplies(id: nat, names: seq<Bytes>, channels: set<Bytes>, r: Registry)
    ensures var (held, _, reply) := SubscribeAll(id, names, channels, r);
            && held == channels + ToSet(names)
            && reply == EncodeAll(Confirmations("subscribe", names, HeldAfter(channels, names)))
  {
    hide ToSet, Encode, Confirmations, HeldAfter, LeftAfter;
    var counts := HeldAfter(channels, names);
    if names == [] {
      ToSetEmpty(names);
      assert counts == [];
      NoConfirmations("subscribe", names, counts);
    } else {
      var n := |names| - 1;
      SubscribeAllReplies(id, names[..n], channels, r);
      ToSetPrefix(names, n);
      assert names[..n + 1] == names;
      CountsMore(channels, names);
      assert channels + ToSet(names) == channels + ToSet(names[..n]) + {names[n]};
      ConfirmationsMore("subscribe", names, counts);
      EncodeAllAppend(Confirmations("subscribe", names[..n], counts[..n]),
                      ArrayReply([BulkReply("subscribe"), BulkReply(names[n]), IntegerReply(counts[n])]));
    }
  }

  lemma {:induction false} UnsubscribeAllReplies(id: nat, names: seq<Bytes>, channels: set<Bytes>, r: Registry)
    ensures var (held, _, reply) := UnsubscribeAll(id, names, channels, r);
            && held == channels - ToSet(names)
            && reply == EncodeAll(Confirmations("unsubscribe", names, LeftAfter(channels, names)))
  {
    hide ToSet, Encode, Confirmations, HeldAfter, LeftAfter;
    var counts := LeftAfter(channels, names);
    if names == [] {
      ToSetEmpty(names);
      assert counts == [];
      NoConfirmations("unsubscribe", names, counts);
    } else {
      var n := |names| - 1;
      UnsubscribeAllReplies(id, names[..n], channels, r);
      ToSetPrefix(names, n);
      assert names[..n + 1] == names;
      CountsMore(channels, names);
      assert channels - ToSet(names) == channels - ToSet(names[..n]) - {names[n]};
      ConfirmationsMore("unsubscribe", names, counts);
      EncodeAllAppend(Confirmations("unsubscribe", names[..n], counts[..n]),
                      ArrayReply([BulkReply("unsubscribe"), BulkReply(names[n]), IntegerReply(counts[n])]));
    }
  }

  lemma ConfirmationsDecode(kind: Bytes, names: seq<Bytes>, counts: seq<nat>)
    requires |names| == |counts|
    ensures var replies := Confirmations(kind, names, counts);
            DecodeMany(|names|, EncodeAll(replies)) == Some((replies, []))
  {
    hide DecodeMany, EncodeAll;
    var replies := Confirmations(kind, names, counts);
    DecodeEncodeAll(replies, []);
    assert EncodeAll(replies) + [] == EncodeAll(replies);
  }

  /** The request changes the channels of the session and of its id in the
      registry to these, and nothing else. */
  ghost predicate Lists(s: SessionState, w: World, result: (SessionState, World, Bytes), channels: set<Bytes>) {
    && result.0 == s.(channels := channels)
    && result.1 == w.(registry := result.1.registry)
    && result.1.registry.mailboxes == w.registry.mailboxes
    && forall c, id :: id in result.1.registry.Subscribers(c) <==>
                       if id == s.id then c in channels else id in w.registry.Subscribers(c)
  }

  lemma {:induction false} ToSetIs(names: seq<Bytes>)
    ensures ToSet(names) == set n | n in names
  {
  }

  lemma SubscribeNeedsNames(s: SessionState, tokens: seq<Bytes>, w: World, envs: nat -> Env, fp: FloatText)
    requires s.transaction == None && |tokens| == 1 && Upper(tokens[0]) == "SUBSCRIBE"
    ensures OnlyRefused(s, w, Answer(s, tokens, w, envs, fp), "ERR wrong number of arguments for 'subscribe' command")
  {
    hide IsErrorReply, Upper, SubscribeAll, Error;
    ErrorDecodes("ERR wrong number of arguments for 'subscribe' command");
  }

  /** SUBSCRIBE acts in subscribe mode as outside it: it adds the names and
      confirms each. */
  lemma SubscribeActs(s: SessionState, tokens: seq<Bytes>, w: World, envs: nat -> Env, fp: FloatText)
    requires s.transaction == None && |tokens| > 1 && Upper(tokens[0]) == "SUBSCRIBE"
    requires Holds(s.id, s.channels, w.registry) && NoEmptyChannel(w.registry)
    ensures var names := tokens[1..];
            var result := Answer(s, tokens, w, envs, fp);
            && Lists(s, w, result, s.channels + set n | n in names)
            && DecodeMany(|names|, result.2)
               == Some((Confirmations("subscribe", names, HeldAfter(s.channels, names)), []))
  {
    hide Decode, Upper, SubscribeAll, EncodeAll, Confirmations, HeldAfter, Error, ToSet;
    var names := tokens[1..];
    SubscribeAllReplies(s.id, names, s.channels, w.registry);
    SubscribeAllHolds(s.id, names, s.channels, w.registry);
    ConfirmationsDecode("subscribe", names, HeldAfter(s.channels, names));
    ToSetIs(names);
  }

  /** UNSUBSCRIBE drops the names, or without names every channel in some order. */
  lemma UnsubscribeActs(s: SessionState, tokens: seq<Bytes>, w: World, envs: nat -> Env, fp: FloatText)
      returns (names: seq<Bytes>)
    requires s.transaction == None && tokens != [] && Upper(tokens[0]) == "UNSUBSCRIBE"
    requires Holds(s.id, s.channels, w.registry) && NoEmptyChannel(w.registry) && envs(0).Valid()
    ensures if |tokens| > 1 then names == tokens[1..] else Enumerates(names, s.channels)
    ensures var result := Answer(s, tokens, w, envs, fp);
            && (names == [] ==>
                  OnlyAnswers(s, w, result, ArrayReply([BulkReply("unsubscribe"), NullReply, IntegerReply(0)])))
            && (names != [] ==>
                  && Lists(s, w, result, s.channels - set n | n in names)
                  && DecodeMany(|names|, result.2)
                     == Some((Confirmations("unsubscribe", names, LeftAfter(s.channels, names)), [])))
  {
    hide Decode, Upper, UnsubscribeAll, EncodeAll, Confirmations, LeftAfter, Encode, ToSet;
    names := if tokens[1..] == [] then envs(0).order(s.channels) else tokens[1..];
    var none := ArrayReply([BulkReply("unsubscribe"), NullReply, IntegerReply(0)]);
    DecodeEncode(none, []);
    assert Encode(none) + [] == Encode(none);
    UnsubscribeAllReplies(s.id, names, s.channels, w.registry);
    UnsubscribeAllHolds(s.id, names, s.channels, w.registry);
    ConfirmationsDecode("unsubscribe", names, LeftAfter(s.channels, names));
    ToSetIs(names);
  }

  // --- Transactions ------------------------------------------------------------------------

  /** MULTI opens an empty transaction, and does not nest. */
  lemma MultiOpens(s: SessionState, tokens: seq<Bytes>, w: World, envs: nat -> Env, fp: FloatText)
    requires s.channels == {} && tokens != [] && Upper(tokens[0]) == "MULTI"
    ensures var result := Answer(s, tokens, w, envs, fp);
            if s.transaction == None then
              OnlyAnswers(s.(transaction := Some(Transaction([], false))), w, result, SimpleReply("OK"))
            else OnlyRefused(s, w, result, "ERR MULTI calls can not be nested")
  {
    hide Decode, IsErrorReply, Upper, Error, SimpleString, Dispatched, Queue;
    ErrorDecodes("ERR MULTI calls can not be nested");
    SimpleDecodes("OK");
  }

  /** EXEC and DISCARD need a transaction; DISCARD, and EXEC on a spoiled one, end
      it and do nothing else. */
  lemma TransactionEnds(s: SessionState, tokens: seq<Bytes>, w: World, envs: nat -> Env, fp: FloatText)
    requires s.channels == {} && tokens != [] && Upper(tokens[0]) in {"EXEC", "DISCARD"}
    ensures var result := Answer(s, tokens, w, envs, fp);
            && (s.transaction == None ==> OnlyRefused(s, w, result, "ERR " + Upper(tokens[0]) + " without MULTI"))
            && (s.transaction != None && Upper(tokens[0]) == "DISCARD" ==>
                  OnlyAnswers(s.(transaction := None), w, result, SimpleReply("OK")))
            && (s.transaction != None && Upper(tokens[0]) == "EXEC" && s.transaction.value.dirty ==>
                  OnlyRefused(s.(transaction := None), w, result,
                              "EXECABORT Transaction discarded because of previous errors."))
  {
    hide Decode, IsErrorReply, Upper, Error, SimpleString, Dispatched, DispatchedAll, Queue;
    assert "ERR " + "EXEC" + " without MULTI" == "ERR EXEC without MULTI";
    assert "ERR " + "DISCARD" + " without MULTI" == "ERR DISCARD without MULTI";
    ErrorDecodes("ERR EXEC without MULTI");
    ErrorDecodes("ERR DISCARD without MULTI");
    ErrorDecodes("EXECABORT Transaction discarded because of previous errors.");
    SimpleDecodes("OK");
  }

  /** In a transaction any other request is queued if it parses, and otherwise
      refused and spoils it; nothing that sessions share changes. */
  lemma OthersAreQueued(s: SessionState, tokens: seq<Bytes>, w: World, envs: nat -> Env, fp: FloatText)
    requires s.channels == {} && s.transaction.Some? && tokens != []
    requires Upper(tokens[0]) !in {"MULTI", "EXEC", "DISCARD"}
    ensures var result, t := Answer(s, tokens, w, envs, fp), s.transaction.value;
            if Parse(tokens, fp).Ok? then
              OnlyAnswers(s.(transaction := Some(t.(commands := t.commands + [tokens]))), w, result,
                          SimpleReply("QUEUED"))
            else
              exists text :: ExplainsQueued(text, tokens)
                && OnlyRefused(s.(transaction := Some(t.(dirty := true))), w, result, text)
  {
    hide Decode, IsErrorReply, Upper, Parse, Error, SimpleString, Dispatched, CommandError.Text, Explains;
    var name := Upper(tokens[0]);
    if name == "SUBSCRIBE" || name == "UNSUBSCRIBE" {
      ErrorDecodes("ERR " + name + " is not allowed in transactions");
      SubscriptionFails(tokens, fp);
      assert ExplainsQueued("ERR " + name + " is not allowed in transactions", tokens);
    } else if Parse(tokens, fp).Err? {
      ErrorDecodes(Parse(tokens, fp).error.Text());
      ErrorExplains(tokens, fp);
      assert ExplainsQueued(Parse(tokens, fp).error.Text(), tokens);
    } else {
      SimpleDecodes("QUEUED");
    }
  }

  /** SUBSCRIBE and UNSUBSCRIBE are refused as such, other requests for what is
      wrong with them. */
  ghost predicate ExplainsQueued(text: Bytes, tokens: seq<Bytes>)
    requires tokens != []
  {
    var name := Upper(tokens[0]);
    if name == "SUBSCRIBE" || name == "UNSUBSCRIBE" then text == "ERR " + name + " is not allowed in transactions"
    else Explains(text, tokens)
  }

  lemma SubscriptionFails(tokens: seq<Bytes>, fp: FloatText)
    requires tokens != [] && Upper(tokens[0]) in {"SUBSCRIBE", "UNSUBSCRIBE"}
    ensures Parse(tokens, fp).Err?
  {
    hide Parse;
    if Accepted(tokens, fp) {
      ParsedIsNotControl(tokens, fp);
    }
  }
}
