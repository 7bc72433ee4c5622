// What a request that is no command is answered with, and which requests are
// logged, by the names they begin with (src/command/mod.rs).
module CommandErrors {
  import opened Wrappers
  import opened ByteStrings
  import opened SortedSet
  import opened Resp
  import opened Commands
  import opened CommandGrammar
  import opened Keyspace
  import opened Dispatch
  import opened PubSubRegistry
  import opened KeyLaws
  import opened DeadlineLaws

  // --- Errors of the parser -------------------------------------------------------

  /** The argument reported is the one at fault. DECRBY reports the amount it
      cannot negate. */
  predicate IsBadInteger(text: Bytes, verb: Verb, args: seq<Bytes>) {
    || (text in args && (ParseI64(text) == None || (verb.SetVerb? && ParseU64(text) == None)))
    || (verb.DecrbyVerb? && |args| == 2 && IsInteger(args[1], I64_MIN) && text == PrintInt(I64_MIN))
  }

  /** An error about a command names that command, or an argument it was given. */
  predicate Fits(error: CommandError, verb: Verb, args: seq<Bytes>) {
    match error
    case WrongArity(command) => !verb.UnknownVerb? && command == NameOf(verb)
    case NotAnInteger(text) => IsBadInteger(text, verb, args)
    case NotAFloat(text) => text in args
    case _ => false
  }

  predicate FitsIfError(parsed: Parsed<Command>, verb: Verb, args: seq<Bytes>) {
    parsed.Err? ==> Fits(parsed.error, verb, args)
  }

  lemma StringErrors(verb: Verb, name: Bytes, args: seq<Bytes>, fp: FloatText)
    requires IsStringVerb(verb)
    ensures FitsIfError(ParseNamed(verb, name, args, fp), verb, args)
  {
    hide ParseU64, ParseI64, ParseOnCounters, Pairs, Upper;
  }

  lemma CounterErrors(verb: Verb, name: Bytes, args: seq<Bytes>, fp: FloatText)
    requires IsCounterVerb(verb)
    ensures FitsIfError(ParseOnCounters(verb, name, args, fp), verb, args)
  {
    hide ParseI64, ParseOnLists, PrintInt;
  }

  lemma ListErrors(verb: Verb, name: Bytes, args: seq<Bytes>, fp: FloatText)
    requires IsListVerb(verb)
    ensures FitsIfError(ParseOnLists(verb, name, args, fp), verb, args)
  {
    hide ParseI64, ParseOnSets;
  }

  lemma SetErrors(verb: Verb, name: Bytes, args: seq<Bytes>, fp: FloatText)
    requires IsSetVerb(verb)
    ensures FitsIfError(ParseOnSets(verb, name, args, fp), verb, args)
  {
    hide ParseOnSortedSets;
  }

  lemma {:induction false} PairErrors(texts: seq<Bytes>, fp: FloatText)
    ensures var r := ParsePairs(texts, fp);
            r.Err? ==> r.error.NotAFloat? && r.error.text in texts
  {
    if |texts| >= 2 {
      PairErrors(texts[2..], fp);
    }
  }

  lemma SortedSetErrors(verb: Verb, name: Bytes, args: seq<Bytes>, fp: FloatText)
    requires IsSortedSetVerb(verb)
    ensures FitsIfError(ParseOnSortedSets(verb, name, args, fp), verb, args)
  {
    hide ParseOnSortedSets, FitsIfError;
    if verb.ZaddVerb? || verb.ZincrbyVerb? {
      ScoreErrors(verb, name, args, fp);
    } else if verb.ZrangebyscoreVerb? {
      RangeErrors(verb, name, args, fp);
    } else {
      MemberErrors(verb, name, args, fp);
    }
  }

  lemma ScoreErrors(verb: Verb, name: Bytes, args: seq<Bytes>, fp: FloatText)
    requires verb.ZaddVerb? || verb.ZincrbyVerb?
    ensures FitsIfError(ParseOnSortedSets(verb, name, args, fp), verb, args)
  {
    hide ParseOnHashes, ParsePairs;
    if args != [] {
      PairErrors(args[1..], fp);
    }
  }

  lemma RangeErrors(verb: Verb, name: Bytes, args: seq<Bytes>, fp: FloatText)
    requires verb.ZrangebyscoreVerb?
    ensures FitsIfError(ParseOnSortedSets(verb, name, args, fp), verb, args)
  {
    hide ParseOnHashes, ParseScoreBound;
    if |args| == 3 {
      BoundErrors(args[1], fp);
      BoundErrors(args[2], fp);
    }
  }

  lemma MemberErrors(verb: Verb, name: Bytes, args: seq<Bytes>, fp: FloatText)
    requires verb.ZremVerb? || verb.ZrangeVerb? || verb.ZscoreVerb? || verb.ZcardVerb? || verb.ZrankVerb?
    ensures FitsIfError(ParseOnSortedSets(verb, name, args, fp), verb, args)
  {
    hide ParseI64, ParseOnHashes, Upper;
  }

  lemma BoundErrors(text: Bytes, fp: FloatText)
    ensures ParseScoreBound(text, fp).Err? ==> ParseScoreBound(text, fp).error == NotAFloat(text)
  {
    hide Lower;
  }

  lemma HashErrors(verb: Verb, name: Bytes, args: seq<Bytes>, fp: FloatText)
    requires IsHashVerb(verb)
    ensures FitsIfError(ParseOnHashes(verb, name, args, fp), verb, args)
  {
    hide ParseI64, ParseOnKeys;
  }

  lemma KeyErrors(verb: Verb, name: Bytes, args: seq<Bytes>, fp: FloatText)
    requires IsKeyVerb(verb)
    ensures FitsIfError(ParseOnKeys(verb, name, args, fp), verb, args)
  {
    hide ParseI64, ParseOnServer;
  }

  lemma ServerErrors(verb: Verb, name: Bytes, args: seq<Bytes>, fp: FloatText)
    requires IsServerVerb(verb)
    ensures FitsIfError(ParseOnServer(verb, name, args, fp), verb, args)
  {
  }

  lemma FromSetErrors(verb: Verb, name: Bytes, args: seq<Bytes>, fp: FloatText)
    requires IsSetVerb(verb) || IsSortedSetVerb(verb) || IsHashVerb(verb) || IsKeyVerb(verb) || IsServerVerb(verb)
    ensures FitsIfError(ParseOnSets(verb, name, args, fp), verb, args)
  {
    hide FitsIfError, ParseOnSets, ParseOnSortedSets, ParseOnHashes, ParseOnKeys, ParseOnServer;
    hide IsSetVerb, IsSortedSetVerb, IsHashVerb, IsKeyVerb, IsServerVerb;
    if IsSetVerb(verb) {
      SetErrors(verb, name, args, fp);
    } else {
      SetFalls(verb, name, args, fp);
      if IsSortedSetVerb(verb) {
        SortedSetErrors(verb, name, args, fp);
      } else {
        SortedSetFalls(verb, name, args, fp);
        if IsHashVerb(verb) {
          HashErrors(verb, name, args, fp);
        } else {
          HashFalls(verb, name, args, fp);
          if IsKeyVerb(verb) {
            KeyErrors(verb, name, args, fp);
          } else {
            KeyFalls(verb, name, args, fp);
            ServerErrors(verb, name, args, fp);
          }
        }
      }
    }
  }

  lemma KnownErrors(verb: Verb, name: Bytes, args: seq<Bytes>, fp: FloatText)
    requires !verb.UnknownVerb?
    ensures FitsIfError(ParseNamed(verb, name, args, fp), verb, args)
  {
    hide FitsIfError, ParseNamed, ParseOnCounters, ParseOnLists, ParseOnSets;
    if IsStringVerb(verb) {
      StringErrors(verb, name, args, fp);
    } else {
      StringFalls(verb, name, args, fp);
      if IsCounterVerb(verb) {
        CounterErrors(verb, name, args, fp);
      } else {
        CounterFalls(verb, name, args, fp);
        if IsListVerb(verb) {
          ListErrors(verb, name, args, fp);
        } else {
          ListFalls(verb, name, args, fp);
          FromSetErrors(verb, name, args, fp);
        }
      }
    }
  }

  lemma UnknownError(name: Bytes, args: seq<Bytes>, fp: FloatText)
    ensures ParseNamed(UnknownVerb, name, args, fp) == Err(Unknown(name))
  {
  }

  lemma LowerOfUpper(s: Bytes)
    ensures Lower(Upper(s)) == Lower(s)
  {
  }

  /** What the text of an error says about the request. */
  ghost predicate Explains(text: Bytes, tokens: seq<Bytes>)
    requires tokens != []
  {
    var verb, args := VerbOf(Upper(tokens[0])), tokens[1..];
    if verb.UnknownVerb? then text == "ERR unknown command '" + tokens[0] + "'"
    else
      || text == "ERR wrong number of arguments for '" + Lower(tokens[0]) + "' command"
      || (exists arg :: IsBadInteger(arg, verb, args) && text == "ERR value '" + arg + "' is not a valid integer")
      || (exists arg :: arg in args && text == "ERR value '" + arg + "' is not a valid float")
  }

  lemma ErrorExplains(tokens: seq<Bytes>, fp: FloatText)
    requires tokens != [] && Parse(tokens, fp).Err?
    ensures Explains(Parse(tokens, fp).error.Text(), tokens)
  {
    hide VerbOf, Upper, Lower, ParseNamed, IsBadInteger, NameOf;
    var upper := Upper(tokens[0]);
    if VerbOf(upper).UnknownVerb? {
      UnknownError(tokens[0], tokens[1..], fp);
    } else {
      OnlyItsName(upper);
      LowerOfUpper(tokens[0]);
      KnownErrors(VerbOf(upper), tokens[0], tokens[1..], fp);
    }
  }

  /** A request that is no command is answered with an error in one line that
      explains it, and does nothing. */
  lemma RefusalSays(tokens: seq<Bytes>, m: Store, registry: Registry, env: Env, fp: FloatText)
      returns (line: Bytes, text: Bytes)
    requires tokens != [] && Parse(tokens, fp).Err?
    ensures Explains(text, tokens) && IsOneLineOf(line, text)
    ensures var h := Handle(tokens, m, registry, env, fp);
            && h == Handled(m, registry, [], h.reply)
            && Decode(h.reply) == Some((ErrorReply(line), []))
  {
    hide Parse, Explains, Decode, Error, Sanitize, CommandError.Text, IsOneLineOf;
    text := Parse(tokens, fp).error.Text();
    line := Sanitize(text);
    ErrorExplains(tokens, fp);
    SanitizedIsOneLine(text, line);
    ErrorFrame(text, []);
    assert Error(text) + [] == Error(text);
  }

  // --- The log ---------------------------------------------------------------------

  const LOGGED: set<Bytes> := {
    "SET", "DEL", "LPUSH", "RPUSH", "LPOP", "RPOP", "SADD", "SREM", "ZADD", "ZREM", "HSET", "HDEL", "HINCRBY",
    "EXPIRE", "PERSIST", "RENAME", "FLUSHALL", "INCR", "DECR", "INCRBY", "DECRBY", "APPEND", "MSET", "SETNX",
    "GETSET", "LSET", "ZINCRBY"
  }

  predicate IsWriteVerb(verb: Verb) {
    || verb.SetVerb? || verb.DelVerb? || verb.LpushVerb? || verb.RpushVerb? || verb.LpopVerb? || verb.RpopVerb?
    || verb.SaddVerb? || verb.SremVerb? || verb.ZaddVerb? || verb.ZremVerb? || verb.HsetVerb? || verb.HdelVerb?
    || verb.HincrbyVerb? || verb.ExpireVerb? || verb.PersistVerb? || verb.RenameVerb? || verb.FlushallVerb?
    || verb.IncrVerb? || verb.DecrVerb? || verb.IncrbyVerb? || verb.DecrbyVerb? || verb.AppendVerb?
    || verb.MsetVerb? || verb.SetnxVerb? || verb.GetsetVerb? || verb.LsetVerb? || verb.ZincrbyVerb?
  }

  lemma WriteNames(verb: Verb)
    requires IsWriteVerb(verb)
    ensures NameOf(verb) in LOGGED
  {
  }

  lemma NamesOfStringWrites(upper: Bytes)
    requires upper in {"SET", "APPEND", "MSET", "SETNX", "GETSET", "INCR", "DECR", "INCRBY", "DECRBY"}
    ensures IsWriteVerb(VerbOf(upper))
  {
    hide VerbOf;
    StringNames();
    MoreStringNames();
    ConditionalNames();
    CounterNames();
  }

  lemma NamesOfListWrites(upper: Bytes)
    requires upper in {"LPUSH", "RPUSH", "LPOP", "RPOP", "LSET", "SADD", "SREM", "ZADD", "ZREM", "ZINCRBY"}
    ensures IsWriteVerb(VerbOf(upper))
  {
    hide VerbOf;
    ListNames();
    MoreListNames();
    SetNames();
    SortedSetNames();
    ScoreNames();
  }

  lemma NamesOfOtherWrites(upper: Bytes)
    requires upper in {"HSET", "HDEL", "HINCRBY", "DEL", "EXPIRE", "PERSIST", "RENAME", "FLUSHALL"}
    ensures IsWriteVerb(VerbOf(upper))
  {
    hide VerbOf;
    HashNames();
    MoreHashNames();
    KeyNames();
    MoreKeyNames();
    ServerNames();
  }

  lemma NamesOfWrites(upper: Bytes)
    requires upper in LOGGED
    ensures IsWriteVerb(VerbOf(upper))
  {
    hide VerbOf, IsWriteVerb;
    if upper in {"SET", "APPEND", "MSET", "SETNX", "GETSET", "INCR", "DECR", "INCRBY", "DECRBY"} {
      NamesOfStringWrites(upper);
    } else if upper in {"HSET", "HDEL", "HINCRBY", "DEL", "EXPIRE", "PERSIST", "RENAME", "FLUSHALL"} {
      NamesOfOtherWrites(upper);
    } else {
      NamesOfListWrites(upper);
    }
  }

  lemma StringWrites(cmd: Command, verb: Verb, args: seq<Bytes>)
    requires cmd.OnStrings() && StringArgs(cmd, verb, args)
    ensures (cmd.IsWrite() <==> IsWriteVerb(verb)) && !verb.SpopVerb?
  {
    hide AreSetArgs, IsInteger, Flat;
  }

  lemma ListWrites(cmd: Command, verb: Verb, args: seq<Bytes>)
    requires cmd.OnLists() && ListArgs(cmd, verb, args)
    ensures (cmd.IsWrite() <==> IsWriteVerb(verb)) && !verb.SpopVerb?
  {
    hide IsInteger;
  }

  lemma SetWrites(cmd: Command, verb: Verb, args: seq<Bytes>)
    requires cmd.OnSets() && SetArgs(cmd, verb, args)
    ensures (cmd.IsWrite() <==> IsWriteVerb(verb)) && (cmd.SPop? <==> verb.SpopVerb?)
  {
  }

  lemma SortedSetWrites(cmd: Command, verb: Verb, args: seq<Bytes>, fp: FloatText)
    requires cmd.OnSortedSets() && SortedSetArgs(cmd, verb, args, fp)
    ensures (cmd.IsWrite() <==> IsWriteVerb(verb)) && !verb.SpopVerb?
  {
    hide IsInteger, IsBound, IsScore, AreMembers, Upper;
  }

  lemma HashWrites(cmd: Command, verb: Verb, args: seq<Bytes>)
    requires cmd.OnHashes() && HashArgs(cmd, verb, args)
    ensures (cmd.IsWrite() <==> IsWriteVerb(verb)) && !verb.SpopVerb?
  {
    hide IsInteger;
  }

  lemma KeyWrites(cmd: Command, verb: Verb, args: seq<Bytes>)
    requires cmd.OnKeys() && KeyArgs(cmd, verb, args)
    ensures (cmd.IsWrite() <==> IsWriteVerb(verb)) && !verb.SpopVerb?
  {
    hide IsInteger;
  }

  lemma ServerWrites(cmd: Command, verb: Verb, args: seq<Bytes>)
    requires cmd.OnServer() && ServerArgs(cmd, verb, args)
    ensures (cmd.IsWrite() <==> IsWriteVerb(verb)) && !verb.SpopVerb?
  {
  }

  lemma WritesByVerb(cmd: Command, verb: Verb, args: seq<Bytes>, fp: FloatText)
    requires Means(cmd, verb, args, fp)
    ensures (cmd.IsWrite() <==> IsWriteVerb(verb)) && (cmd.SPop? <==> verb.SpopVerb?)
  {
    hide Means, StringArgs, ListArgs, SetArgs, SortedSetArgs, HashArgs, KeyArgs, ServerArgs, IsWriteVerb;
    hide Command.IsWrite;
    MeansArgs(cmd, verb, args, fp);
    if cmd.OnStrings() { StringWrites(cmd, verb, args); }
    else if cmd.OnLists() { ListWrites(cmd, verb, args); }
    else if cmd.OnSets() { SetWrites(cmd, verb, args); }
    else if cmd.OnSortedSets() { SortedSetWrites(cmd, verb, args, fp); }
    else if cmd.OnHashes() { HashWrites(cmd, verb, args); }
    else if cmd.OnKeys() { KeyWrites(cmd, verb, args); }
    else { ServerWrites(cmd, verb, args); }
  }

  lemma ErrorIsError(text: Bytes)
    ensures IsError(Error(text))
  {
    hide Sanitize;
    assert Error(text)[0] == '-';
  }

  lemma KnownIfParsed(tokens: seq<Bytes>, fp: FloatText)
    requires tokens != [] && Parse(tokens, fp).Ok?
    ensures !VerbOf(Upper(tokens[0])).UnknownVerb?
  {
    hide VerbOf, Upper, ParseNamed;
    UnknownError(tokens[0], tokens[1..], fp);
  }

  lemma SpopName()
    ensures NameOf(SpopVerb) == "SPOP"
  {
  }

  /** A request is logged as it came exactly when it begins with one of these names
      and is not answered with an error; SPOP alone is logged as another. */
  lemma LoggedByName(tokens: seq<Bytes>, m: Store, registry: Registry, env: Env, fp: FloatText)
    requires tokens != [] && Upper(tokens[0]) != "SPOP"
    ensures var h := Handle(tokens, m, registry, env, fp);
            h.entries == if Upper(tokens[0]) in LOGGED && !IsError(h.reply) then [tokens] else []
  {
    hide Parse, Apply, VerbOf, Upper, Means, IsWriteVerb, Command.IsWrite, Encode, IsError, NameOf;
    FailureAtomic(tokens, m, registry, env, fp);
    var parsed := Parse(tokens, fp);
    if parsed.Err? {
      ErrorIsError(parsed.error.Text());
    } else {
      var cmd, upper := parsed.value, Upper(tokens[0]);
      ParseIff(tokens, cmd, fp);
      WritesByVerb(cmd, VerbOf(upper), tokens[1..], fp);
      EncodedError(Apply(cmd, m, Audience(cmd, registry), env, fp).1);
      KnownIfParsed(tokens, fp);
      OnlyItsName(upper);
      if IsWriteVerb(VerbOf(upper)) {
        WriteNames(VerbOf(upper));
      }
      if upper in LOGGED {
        NamesOfWrites(upper);
      }
      SpopName();
    }
  }
}
