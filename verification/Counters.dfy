// Counters: INCR, DECR, INCRBY and DECRBY over whole runs
// (src/command/mod.rs, src/database/db.rs).
module Counters {
  import opened Wrappers
  import opened ByteStrings
  import opened Resp
  import opened Commands
  import opened Keyspace
  import opened Dispatch
  import opened StoreInvariant

  predicate CounterRequest(tokens: seq<Bytes>) {
    tokens != [] && Upper(tokens[0]) in {"INCR", "DECR", "INCRBY", "DECRBY"}
  }

  /** What a counter request asks to add to a key, read off its text; None when
      it has the wrong number of arguments or an amount out of range. An amount
      to subtract must have a negation of the same width. */
  function Asked(tokens: seq<Bytes>): Option<(Bytes, i64)> {
    if |tokens| == 2 && Upper(tokens[0]) == "INCR" then Some((tokens[1], 1))
    else if |tokens| == 2 && Upper(tokens[0]) == "DECR" then Some((tokens[1], -1))
    else if |tokens| == 3 && Upper(tokens[0]) == "INCRBY" then
      match ParseInt(tokens[2])
      case Some(n) => if InI64(n) then Some((tokens[1], n)) else None
      case None => None
    else if |tokens| == 3 && Upper(tokens[0]) == "DECRBY" then
      match ParseInt(tokens[2])
      case Some(n) => if InI64(n) && InI64(-n) then Some((tokens[1], -n)) else None
      case None => None
    else None
  }

  lemma CounterVerbs()
    ensures VerbOf("INCR") == IncrVerb && VerbOf("DECR") == DecrVerb
    ensures VerbOf("INCRBY") == IncrbyVerb && VerbOf("DECRBY") == DecrbyVerb
  {
  }

  lemma IncrArguments(name: Bytes, args: seq<Bytes>, fp: FloatText)
    ensures ParseNamed(IncrVerb, name, args, fp)
         == if |args| == 1 then Ok(IncrBy(args[0], 1)) else Err(WrongArity("INCR"))
  {
    hide ParseOnLists;
  }

  lemma DecrArguments(name: Bytes, args: seq<Bytes>, fp: FloatText)
    ensures ParseNamed(DecrVerb, name, args, fp)
         == if |args| == 1 then Ok(IncrBy(args[0], -1)) else Err(WrongArity("DECR"))
  {
    hide ParseOnLists;
  }

  lemma IncrbyArguments(name: Bytes, args: seq<Bytes>, fp: FloatText)
    ensures match ParseNamed(IncrbyVerb, name, args, fp)
            case Ok(cmd) => |args| == 2 && ParseI64(args[1]).Some? && cmd == IncrBy(args[0], ParseI64(args[1]).value)
            case Err(_) => |args| != 2 || ParseI64(args[1]).None?
  {
    hide ParseOnLists, ParseI64;
  }

  lemma DecrbyArguments(name: Bytes, args: seq<Bytes>, fp: FloatText)
    ensures match ParseNamed(DecrbyVerb, name, args, fp)
            case Ok(cmd) =>
              && |args| == 2 && ParseI64(args[1]).Some? && ParseI64(args[1]).value != I64_MIN
              && cmd == IncrBy(args[0], -ParseI64(args[1]).value)
            case Err(_) => |args| != 2 || ParseI64(args[1]).None? || ParseI64(args[1]).value == I64_MIN
  {
    hide ParseOnLists, ParseI64;
  }

  /** The parser turns a counter request into exactly the addition it asks for. */
  lemma CounterParse(tokens: seq<Bytes>, fp: FloatText)
    requires CounterRequest(tokens)
    ensures match Asked(tokens)
            case Some(asked) => Parse(tokens, fp) == Ok(IncrBy(asked.0, asked.1))
            case None => Parse(tokens, fp).Err?
  {
    hide VerbOf, ParseInt, Upper, ParseNamed;
    CounterVerbs();
    var name, args := tokens[0], tokens[1..];
    if Upper(name) == "INCR" {
      IncrArguments(name, args, fp);
    } else if Upper(name) == "DECR" {
      DecrArguments(name, args, fp);
    } else if Upper(name) == "INCRBY" {
      IncrbyArguments(name, args, fp);
    } else {
      DecrbyArguments(name, args, fp);
    }
  }

  /** The key is a counter without a deadline at this total, or absent at zero. */
  predicate CountsTo(m: Store, key: Bytes, total: int) {
    if key in m then m[key] == Entry(StringValue(PrintInt(total)), None) && InI64(total) else total == 0
  }

  ghost function AnswerTo(j: Journal, e: Event, fp: FloatText): Bytes {
    Handle(e.tokens, Live(j.store, e.env.now), j.registry, e.env, fp).reply
  }

  /** What an answered request adds to a counter: the amount it asked for, unless
      it asked for another key or was answered with an error. */
  ghost function Gained(key: Bytes, j: Journal, e: Event, fp: FloatText): int {
    match Asked(e.tokens)
    case Some(asked) => if asked.0 == key && !IsError(AnswerTo(j, e, fp)) then asked.1 else 0
    case None => 0
  }

  /** The sum of the amounts of all requests that succeeded on the key. */
  ghost function TotalGained(key: Bytes, events: seq<Event>, fp: FloatText): int {
    if events == [] then 0
    else
      var front := events[..|events| - 1];
      TotalGained(key, front, fp) + Gained(key, RunAll(front, fp), events[|events| - 1], fp)
  }

  /** Counter requests on any keys, requests that do not parse, and reads. */
  predicate CountsOrReads(tokens: seq<Bytes>, fp: FloatText) {
    var parsed := Parse(tokens, fp);
    CounterRequest(tokens) || (parsed.Ok? ==> !parsed.value.IsWrite() && !parsed.value.SPop?)
  }

  lemma CountedIsLive(m: Store, key: Bytes, total: int, now: int)
    requires CountsTo(m, key, total)
    ensures CountsTo(Live(m, now), key, total)
    ensures key in m <==> key in Live(m, now)
  {
  }

  /** Exactly which additions succeed, and what every one of them answers. */
  lemma IncrByExact(m: Store, key: Bytes, total: int, asked: Bytes, delta: i64)
    requires CountsTo(m, key, total)
    ensures var (after, r) := IncrByIn(m, asked, delta);
            && CountsTo(after, key, if asked == key && r.Ok? then total + delta else total)
            && (asked == key ==>
                  if InI64(total + delta) then r == Ok(total + delta) && key in after
                  else r == Err(Overflow) && after == m)
  {
    PrintParse(total);
  }

  lemma StepCounts(j: Journal, e: Event, key: Bytes, total: int, fp: FloatText)
    requires CountsTo(j.store, key, total) && CountsOrReads(e.tokens, fp)
    ensures CountsTo(StepRun(j, e, fp).store, key, total + Gained(key, j, e, fp))
  {
    hide Parse, Apply, ApplyToStrings, Encode, IsError, CountsTo, IncrByIn, Live, CommandError.Text;
    var m := Live(j.store, e.env.now);
    CountedIsLive(j.store, key, total, e.env.now);
    var parsed := Parse(e.tokens, fp);
    if CounterRequest(e.tokens) {
      CounterParse(e.tokens, fp);
      if parsed.Ok? {
        var (asked, delta) := Asked(e.tokens).value;
        IncrByAnswer(asked, delta, m, e, fp);
        IncrByExact(m, key, total, asked, delta);
      }
    } else {
      NothingAsked(e.tokens);
      if parsed.Ok? {
        CommandsSound(parsed.value, m, Audience(parsed.value, j.registry), e.env, fp);
      }
    }
  }

  lemma NothingAsked(tokens: seq<Bytes>)
    requires !CounterRequest(tokens)
    ensures Asked(tokens).None?
  {
  }

  lemma IncrByAnswer(key: Bytes, delta: i64, m: Store, e: Event, fp: FloatText)
    ensures var (after, reply) := Apply(IncrBy(key, delta), m, 0, e.env, fp);
            var (s, r) := IncrByIn(m, key, delta);
            && after == s && reply == ReplyNumber(r)
            && (IsError(Encode(reply)) <==> r.Err?)
  {
    hide Encode, IsError, IncrByIn;
    EncodedError(ReplyNumber(IncrByIn(m, key, delta).1));
  }

  /** Counter conservation: after any run of counter requests on any keys, with
      failing requests and reads in between, a key is either absent, with nothing
      gained, or holds the decimal text of the sum of the amounts that succeeded
      on it, which is in the range of the integer type and parses to itself. */
  lemma {:induction false} CounterConservation(key: Bytes, events: seq<Event>, fp: FloatText)
    requires forall i :: 0 <= i < |events| ==> CountsOrReads(events[i].tokens, fp)
    ensures var m := RunAll(events, fp).store;
            var total := TotalGained(key, events, fp);
            && CountsTo(m, key, total)
            && InI64(total)
            && (key in m ==> ParseI64(m[key].value.text) == Some(total))
  {
    hide StepRun, Gained, CountsOrReads, PrintInt, ParseI64;
    PrintParse(TotalGained(key, events, fp));
    if events != [] {
      var n := |events| - 1;
      var front := events[..n];
      CounterConservation(key, front, fp);
      assert forall i :: 0 <= i < n ==> front[i] == events[i];
      StepCounts(RunAll(front, fp), events[n], key, TotalGained(key, front, fp), fp);
    }
  }

  /** In such a run the next counter request on the key succeeds exactly when the
      new total fits the integer type, and is answered with that total. */
  lemma CounterAnswer(key: Bytes, events: seq<Event>, e: Event, fp: FloatText)
    requires forall i :: 0 <= i < |events| ==> CountsOrReads(events[i].tokens, fp)
    requires CounterRequest(e.tokens) && Asked(e.tokens).Some? && Asked(e.tokens).value.0 == key
    ensures var total := TotalGained(key, events, fp) + Asked(e.tokens).value.1;
            var reply := AnswerTo(RunAll(events, fp), e, fp);
            if InI64(total) then reply == Encode(IntegerReply(total)) else reply == Encode(Failure(Overflow.Text()))
  {
    hide Parse, Apply, Encode, IsError, CountsTo, IncrByIn, Live, Asked, StoreError.Text, AnswerTo, RunAll;
    hide TotalGained, CountsOrReads;
    var j := RunAll(events, fp);
    var total := TotalGained(key, events, fp);
    var m := Live(j.store, e.env.now);
    CounterConservation(key, events, fp);
    CountedIsLive(j.store, key, total, e.env.now);
    CounterParse(e.tokens, fp);
    var (asked, delta) := Asked(e.tokens).value;
    IncrByAnswer(asked, delta, m, e, fp);
    IncrByExact(m, key, total, asked, delta);
    HandledReply(IncrBy(asked, delta), j, e, fp);
  }

  lemma HandledReply(cmd: Command, j: Journal, e: Event, fp: FloatText)
    requires e.tokens != [] && Parse(e.tokens, fp) == Ok(cmd)
    ensures AnswerTo(j, e, fp)
         == Encode(Apply(cmd, Live(j.store, e.env.now), Audience(cmd, j.registry), e.env, fp).1)
  {
    hide Parse, Apply, Encode, Live;
  }
}
