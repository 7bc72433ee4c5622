// What MULTI, EXEC and DISCARD amount to (src/session.rs), and the framing of
// every dispatched reply.
module Transactions {
  import opened Wrappers
  import opened ByteStrings
  import opened Resp
  import opened Commands
  import opened Keyspace
  import opened Dispatch
  import opened PubSubRegistry
  import opened Sessions

  // --- Framing ------------------------------------------------------------------

  /** The value a non-empty request is answered with. */
  ghost function ReplyValue(tokens: seq<Bytes>, m: Store, registry: Registry, env: Env, fp: FloatText): Reply {
    match Parse(tokens, fp)
    case Err(error) => Failure(error.Text())
    case Ok(cmd) => Apply(cmd, m, Audience(cmd, registry), env, fp).1
  }

  lemma FailureText(message: Bytes)
    ensures Encode(Failure(message)) == Error(message) && Failure(message).WellFormed()
  {
    assert Sanitize(Sanitize(message)) == Sanitize(message);
  }

  /** The reply to a non-empty request is exactly one RESP value, whatever bytes
      the client sent and whatever follows on the connection. */
  lemma DispatchFraming(tokens: seq<Bytes>, m: Store, registry: Registry, env: Env, fp: FloatText, rest: Bytes)
    requires tokens != []
    ensures var h := Handle(tokens, m, registry, env, fp);
            var v := ReplyValue(tokens, m, registry, env, fp);
            && v.WellFormed() && h.reply == Encode(v)
            && Decode(h.reply + rest) == Some((v, rest))
  {
    hide Parse, Apply, Failure, CommandError.Text;
    var v := ReplyValue(tokens, m, registry, env, fp);
    var parsed := Parse(tokens, fp);
    match parsed {
      case Err(error) => FailureText(error.Text());
      case Ok(cmd) => CommandsSound(cmd, m, Audience(cmd, registry), env, fp);
    }
    DecodeEncode(v, rest);
  }

  /** The values answered by commands dispatched one after the other. */
  ghost function ReplyValues(commands: seq<seq<Bytes>>, w: World, i: nat, envs: nat -> Env,
          fp: FloatText): (vs: seq<Reply>)
    ensures |vs| == |commands|
  {
    if commands == [] then []
    else
      [ReplyValue(commands[0], Live(w.store, envs(i).now), w.registry, envs(i), fp)]
      + ReplyValues(commands[1..], Dispatched(commands[0], w, envs(i), fp).0, i + 1, envs, fp)
  }

  lemma {:induction false} RepliesFraming(commands: seq<seq<Bytes>>, w: World, i: nat, envs: nat -> Env, fp: FloatText)
    requires forall k :: 0 <= k < |commands| ==> commands[k] != []
    ensures var vs := ReplyValues(commands, w, i, envs, fp);
            && DispatchedAll(commands, w, i, envs, fp).1 == EncodeAll(vs)
            && ArrayReply(vs).WellFormed()
  {
    hide Handle, ReplyValue, Encode;
    if commands != [] {
      var m := Live(w.store, envs(i).now);
      DispatchFraming(commands[0], m, w.registry, envs(i), fp, []);
      var w1 := Dispatched(commands[0], w, envs(i), fp).0;
      RepliesFraming(commands[1..], w1, i + 1, envs, fp);
      var v := ReplyValue(commands[0], m, w.registry, envs(i), fp);
      var vs := ReplyValues(commands[1..], w1, i + 1, envs, fp);
      assert ([v] + vs)[1..] == vs;
      assert forall r <- [v] + vs :: r == v || r in vs;
    }
  }

  /** A clean EXEC is answered with one array that has exactly one element for
      each queued command, the value the command is answered with, and no byte
      of the reply is left over. */
  lemma ExecFraming(s: SessionState, w: World, envs: nat -> Env, fp: FloatText, rest: Bytes)
    requires s.transaction.Some? && !s.transaction.value.dirty
    requires forall k :: 0 <= k < |s.transaction.value.commands| ==> s.transaction.value.commands[k] != []
    ensures var commands := s.transaction.value.commands;
            var vs := ReplyValues(commands, w, 0, envs, fp);
            && |vs| == |commands|
            && Decode(AnswerExec(s, w, envs, fp).2 + rest) == Some((ArrayReply(vs), rest))
  {
    var commands := s.transaction.value.commands;
    RepliesFraming(commands, w, 0, envs, fp);
    DecodeEncode(ArrayReply(ReplyValues(commands, w, 0, envs, fp)), rest);
  }

  // --- The queue -----------------------------------------------------------------------

  /** Requests of one session without other sessions in between; request k
      takes its surroundings from envs(k). */
  ghost function AnswerAll(s: SessionState, requests: seq<seq<Bytes>>, w: World, envs: nat -> nat -> Env,
          fp: FloatText): (SessionState, World, seq<Bytes>) {
    if requests == [] then (s, w, [])
    else
      var n := |requests| - 1;
      var (s1, w1, replies) := AnswerAll(s, requests[..n], w, envs, fp);
      var (s2, w2, reply) := Answer(s1, requests[n], w1, envs(n), fp);
      (s2, w2, replies + [reply])
  }

  const QUEUED: Bytes := "+QUEUED\r\n"

  predicate Named(tokens: seq<Bytes>, name: Bytes) {
    tokens != [] && Upper(tokens[0]) == name
  }

  predicate Accepted(tokens: seq<Bytes>, fp: FloatText) {
    Parse(tokens, fp).Ok?
  }

  /** Answered with an error that spoils the transaction. */
  predicate Refused(tokens: seq<Bytes>, fp: FloatText) {
    tokens != [] && !Named(tokens, "MULTI") && !Accepted(tokens, fp)
  }

  predicate EndsTransaction(tokens: seq<Bytes>) {
    Named(tokens, "EXEC") || Named(tokens, "DISCARD")
  }

  function AcceptedOf(requests: seq<seq<Bytes>>, fp: FloatText): seq<seq<Bytes>> {
    if requests == [] then []
    else
      var n := |requests| - 1;
      AcceptedOf(requests[..n], fp) + (if Accepted(requests[n], fp) then [requests[n]] else [])
  }

  lemma TransactionVerbs()
    ensures VerbOf("MULTI") == VerbOf("EXEC") == VerbOf("DISCARD") == UnknownVerb
  {
  }

  lemma SubscriptionVerbs()
    ensures VerbOf("SUBSCRIBE") == VerbOf("UNSUBSCRIBE") == UnknownVerb
  {
  }

  lemma UnknownFails(name: Bytes, args: seq<Bytes>, fp: FloatText)
    ensures ParseNamed(UnknownVerb, name, args, fp).Err?
  {
  }

  /** The command layer does not know the session's own commands. */
  lemma ParsedIsNotControl(tokens: seq<Bytes>, fp: FloatText)
    requires Accepted(tokens, fp)
    ensures !Named(tokens, "MULTI") && !EndsTransaction(tokens)
    ensures !Named(tokens, "SUBSCRIBE") && !Named(tokens, "UNSUBSCRIBE")
  {
    hide VerbOf, ParseNamed, Upper;
    TransactionVerbs();
    SubscriptionVerbs();
    if tokens != [] {
      UnknownFails(tokens[0], tokens[1..], fp);
    }
  }

  lemma QueuedIsNotError(message: Bytes)
    ensures Error(message) != QUEUED
  {
    assert Error(message)[0] == '-' && QUEUED[0] == '+';
  }

  lemma AnswerWhileQueuing(s: SessionState, tokens: seq<Bytes>, w: World, envs: nat -> Env, fp: FloatText)
    requires s.channels == {} && s.transaction.Some? && !EndsTransaction(tokens)
    ensures var (s', w', reply) := Answer(s, tokens, w, envs, fp);
            var t := s.transaction.value;
            && w' == w
            && s' == s.(transaction := Some(Transaction(
                 t.commands + (if Accepted(tokens, fp) then [tokens] else []),
                 t.dirty || Refused(tokens, fp))))
            && (reply == QUEUED <==> Accepted(tokens, fp))
  {
    hide Parse, CommandError.Text, Lower, GuardReply, Dispatched, AnswerExec, AnswerSubscribe, AnswerUnsubscribe, Error;
    if Accepted(tokens, fp) {
      ParsedIsNotControl(tokens, fp);
    }
    forall message ensures Error(message) != QUEUED {
      QueuedIsNotError(message);
    }
    assert s.transaction.value.commands + [] == s.transaction.value.commands;
    assert SimpleString("QUEUED") == QUEUED;
  }

  /** After MULTI, and until EXEC or DISCARD, nothing is executed: the queue is
      exactly the requests answered +QUEUED, in order, all of which parse, and
      the transaction is dirty exactly when some request was refused. */
  lemma {:induction false} QueueIsWhatWasQueued(s: SessionState, requests: seq<seq<Bytes>>, w: World,
          envs: nat -> nat -> Env, fp: FloatText)
    requires s.channels == {} && s.transaction == Some(Transaction([], false))
    requires forall k :: 0 <= k < |requests| ==> !EndsTransaction(requests[k])
    ensures var (s', w', replies) := AnswerAll(s, requests, w, envs, fp);
            && w' == w && |replies| == |requests|
            && s'.id == s.id && s'.channels == {} && s'.transaction.Some?
            && s'.transaction.value.commands == AcceptedOf(requests, fp)
            && (s'.transaction.value.dirty <==> exists k :: 0 <= k < |requests| && Refused(requests[k], fp))
            && (forall k :: 0 <= k < |requests| ==> (replies[k] == QUEUED <==> Accepted(requests[k], fp)))
  {
    hide Answer, Accepted, Refused, EndsTransaction;
    if requests != [] {
      var n := |requests| - 1;
      var front := requests[..n];
      QueueIsWhatWasQueued(s, front, w, envs, fp);
      var (s1, w1, replies) := AnswerAll(s, front, w, envs, fp);
      AnswerWhileQueuing(s1, requests[n], w1, envs(n), fp);
      assert forall k :: 0 <= k < n ==> front[k] == requests[k];
    }
  }

  /** A refused request makes EXEC do nothing: neither keyspace, registry nor
      log change, as with DISCARD. */
  lemma AbortChangesNothing(s: SessionState, w: World, envs: nat -> Env, fp: FloatText)
    requires s.channels == {} && s.transaction.Some?
    ensures s.transaction.value.dirty ==>
              Answer(s, ["EXEC"], w, envs, fp)
              == (s.(transaction := None), w, Error("EXECABORT Transaction discarded because of previous errors."))
    ensures Answer(s, ["DISCARD"], w, envs, fp) == (s.(transaction := None), w, SimpleString("OK"))
  {
    hide Parse, Dispatched, DispatchedAll, Queue, AnswerSubscribe, AnswerUnsubscribe, Error;
    assert Upper("EXEC") == "EXEC" && Upper("DISCARD") == "DISCARD";
  }

  // --- Equivalence -------------------------------------------------------------------------

  function JoinReplies(replies: seq<Bytes>): Bytes {
    if replies == [] then [] else JoinReplies(replies[..|replies| - 1]) + replies[|replies| - 1]
  }

  /** Commands sent one by one outside a transaction. */
  lemma {:induction false} OneByOne(s: SessionState, commands: seq<seq<Bytes>>, w: World, envs: nat -> Env,
          fp: FloatText)
    requires s.channels == {} && s.transaction == None
    requires forall k :: 0 <= k < |commands| ==> Accepted(commands[k], fp)
    ensures var (s', w', replies) := AnswerAll(s, commands, w, k => (_ => envs(k)), fp);
            && s' == s
            && (w', JoinReplies(replies)) == DispatchedAll(commands, w, 0, envs, fp)
  {
    hide Answer, Dispatched, Accepted;
    if commands != [] {
      var n := |commands| - 1;
      var front := commands[..n];
      OneByOne(s, front, w, envs, fp);
      DispatchedMore(front, commands[n], w, 0, envs, fp);
      assert front + [commands[n]] == commands;
      var w1 := DispatchedAll(front, w, 0, envs, fp).0;
      AnswerDispatches(s, commands[n], w1, _ => envs(n), fp);
      var replies := AnswerAll(s, front, w, k => (_ => envs(k)), fp).2;
      var reply := Dispatched(commands[n], w1, envs(n), fp).1;
      assert (replies + [reply])[..|replies|] == replies;
    }
  }

  lemma AnswerDispatches(s: SessionState, tokens: seq<Bytes>, w: World, envs: nat -> Env, fp: FloatText)
    requires s.channels == {} && s.transaction == None && Accepted(tokens, fp)
    ensures var (w', reply) := Dispatched(tokens, w, envs(0), fp);
            Answer(s, tokens, w, envs, fp) == (s, w', reply)
  {
    hide Parse, Dispatched;
    ParsedIsNotControl(tokens, fp);
    assert tokens != [] by { NoneAccepted(fp); }
  }

  lemma NoneAccepted(fp: FloatText)
    ensures !Accepted([], fp)
  {
  }

  lemma {:induction false} AcceptedAll(commands: seq<seq<Bytes>>, fp: FloatText)
    requires forall k :: 0 <= k < |commands| ==> Accepted(commands[k], fp)
    ensures AcceptedOf(commands, fp) == commands
  {
    hide Accepted;
    if commands != [] {
      AcceptedAll(commands[..|commands| - 1], fp);
    }
  }

  /** MULTI, some commands that parse, EXEC: the keyspace, registry and log end
      up as if the commands had been sent one by one at the time of the EXEC,
      the session as it began, and the reply is the array header followed by
      the very replies the commands would have had. */
  lemma TransactionEquivalence(s: SessionState, commands: seq<seq<Bytes>>, w: World, queueing: nat -> nat -> Env,
          envs: nat -> Env, fp: FloatText)
    requires s.channels == {} && s.transaction == None
    requires forall k :: 0 <= k < |commands| ==> Accepted(commands[k], fp)
    ensures var (s1, w1, _) := Answer(s, ["MULTI"], w, queueing(0), fp);
            var (s2, w2, _) := AnswerAll(s1, commands, w1, queueing, fp);
            var (s3, w3, reply) := Answer(s2, ["EXEC"], w2, envs, fp);
            var (s', w', replies) := AnswerAll(s, commands, w, k => (_ => envs(k)), fp);
            && s3 == s' == s
            && w3 == w'
            && reply == Header(|commands|) + JoinReplies(replies)
  {
    hide Parse, Dispatched, Accepted, AnswerAll, DispatchedAll;
    assert Upper("MULTI") == "MULTI" && Upper("EXEC") == "EXEC";
    var (s1, w1, _) := Answer(s, ["MULTI"], w, queueing(0), fp);
    forall k | 0 <= k < |commands| ensures !EndsTransaction(commands[k]) && !Refused(commands[k], fp) {
      ParsedIsNotControl(commands[k], fp);
    }
    QueueIsWhatWasQueued(s1, commands, w1, queueing, fp);
    AcceptedAll(commands, fp);
    OneByOne(s, commands, w, envs, fp);
  }
}
