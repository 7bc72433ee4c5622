// Commands and their parser (src/command/mod.rs).
module Commands {
  import opened Wrappers
  import opened ByteStrings
  import opened SortedSet

  /** What `f64::from_str` makes of a text. */
  datatype ParsedFloat = NotFloat | NaN | Number(score: Score)

  /** Reading and printing of floating-point numbers, which come from outside
      the program. */
  datatype FloatText = FloatText(parse: Bytes -> ParsedFloat, show: Score -> Bytes)

  datatype Command =
    | Set(key: Bytes, value: Bytes, ttl: Option<u64>)
    | Get(key: Bytes)
    | Del(keys: seq<Bytes>)
    | LPush(key: Bytes, values: seq<Bytes>)
    | RPush(key: Bytes, values: seq<Bytes>)
    | LPop(key: Bytes)
    | RPop(key: Bytes)
    | LRange(key: Bytes, start: i64, stop: i64)
    | SAdd(key: Bytes, values: seq<Bytes>)
    | SRem(key: Bytes, values: seq<Bytes>)
    | SMembers(key: Bytes)
    | SIsMember(key: Bytes, value: Bytes)
    | ZAdd(key: Bytes, members: seq<(Score, Bytes)>)
    | ZRem(key: Bytes, member: Bytes)
    | ZRange(key: Bytes, start: i64, stop: i64, withScores: bool)
    | ZScore(key: Bytes, member: Bytes)
    | HSet(key: Bytes, field: Bytes, value: Bytes)
    | HGet(key: Bytes, field: Bytes)
    | HDel(key: Bytes, field: Bytes)
    | HGetAll(key: Bytes)
    | HKeys(key: Bytes)
    | HVals(key: Bytes)
    | HLen(key: Bytes)
    | HExists(key: Bytes, field: Bytes)
    | HIncrBy(key: Bytes, field: Bytes, delta: i64)
    | Exists(keys: seq<Bytes>)
    | Type(key: Bytes)
    | Keys(pattern: Bytes)
    | Expire(key: Bytes, seconds: i64)
    | Ttl(key: Bytes)
    | Persist(key: Bytes)
    | Rename(key: Bytes, newKey: Bytes)
    | Ping(message: Option<Bytes>)
    | Echo(text: Bytes)
    | DbSize
    | FlushAll
    | Info
    | Save
    | BgSave
    | Publish(channel: Bytes, payload: Bytes)
    | IncrBy(key: Bytes, delta: i64)
    | Append(key: Bytes, value: Bytes)
    | StrLen(key: Bytes)
    | MGet(keys: seq<Bytes>)
    | MSet(pairs: seq<(Bytes, Bytes)>)
    | SetNx(key: Bytes, value: Bytes)
    | GetSet(key: Bytes, value: Bytes)
    | LLen(key: Bytes)
    | LIndex(key: Bytes, index: i64)
    | LSet(key: Bytes, index: i64, value: Bytes)
    | SCard(key: Bytes)
    | SPop(key: Bytes)
    | SInter(keys: seq<Bytes>)
    | SUnion(keys: seq<Bytes>)
    | SDiff(keys: seq<Bytes>)
    | ZCard(key: Bytes)
    | ZRank(key: Bytes, member: Bytes)
    | ZIncrBy(key: Bytes, increment: Score, member: Bytes)
    | ZRangeByScore(key: Bytes, bounds: Bounds)
  {
    /** The commands that are appended to the log when they succeed. */
    predicate IsWrite() {
      || Set? || Del? || LPush? || RPush? || LPop? || RPop? || SAdd? || SRem? || ZAdd? || ZRem?
      || HSet? || HDel? || HIncrBy? || Expire? || Persist? || Rename? || FlushAll? || IncrBy?
      || Append? || MSet? || SetNx? || GetSet? || LSet? || ZIncrBy?
    }

    predicate OnStrings() {
      Set? || Get? || IncrBy? || Append? || StrLen? || MGet? || MSet? || SetNx? || GetSet?
    }

    predicate OnLists() {
      LPush? || RPush? || LPop? || RPop? || LRange? || LLen? || LIndex? || LSet?
    }

    predicate OnSets() {
      SAdd? || SRem? || SMembers? || SIsMember? || SCard? || SPop? || SInter? || SUnion? || SDiff?
    }

    predicate OnSortedSets() {
      ZAdd? || ZRem? || ZRange? || ZScore? || ZCard? || ZRank? || ZIncrBy? || ZRangeByScore?
    }

    predicate OnHashes() {
      HSet? || HGet? || HDel? || HGetAll? || HKeys? || HVals? || HLen? || HExists? || HIncrBy?
    }

    predicate OnKeys() {
      || Del? || Exists? || Type? || Keys? || Expire? || Ttl? || Persist? || Rename? || DbSize?
      || FlushAll?
    }

    predicate OnServer() {
      Ping? || Echo? || Info? || Save? || BgSave? || Publish?
    }

    /** The commands whose argument lists the parser guarantees to be non-empty. */
    predicate HasArguments() {
      && (LPush? || RPush? || SAdd? || SRem? ==> values != [])
      && (ZAdd? ==> members != [])
    }

    /** Where the parser finds the elements that SADD stores and the key that
        SPOP pops from. */
    predicate ParsedFrom(verb: Verb, args: seq<Bytes>) {
      && (SAdd? ==> verb.SaddVerb? && args == [key] + values)
      && (SPop? ==> verb.SpopVerb? && args == [key])
    }
  }

  datatype CommandError =
    | EmptyCommand
    | Unknown(name: Bytes)
    | WrongArity(command: Bytes)
    | NotAnInteger(text: Bytes)
    | NotAFloat(text: Bytes)
  {
    function Text(): Bytes {
      match this
      case EmptyCommand => "ERR empty command"
      case Unknown(name) => "ERR unknown command '" + name + "'"
      case WrongArity(command) => "ERR wrong number of arguments for '" + Lower(command) + "' command"
      case NotAnInteger(text) => "ERR value '" + text + "' is not a valid integer"
      case NotAFloat(text) => "ERR value '" + text + "' is not a valid float"
    }
  }

  type Parsed<T> = Result<T, CommandError>

  function SingleKey(args: seq<Bytes>, command: Bytes): Parsed<Bytes> {
    if |args| == 1 then Ok(args[0]) else Err(WrongArity(command))
  }

  function KeyValue(args: seq<Bytes>, command: Bytes): Parsed<(Bytes, Bytes)> {
    if |args| == 2 then Ok((args[0], args[1])) else Err(WrongArity(command))
  }

  function NonEmptyArgs(args: seq<Bytes>, command: Bytes): Parsed<seq<Bytes>> {
    if args == [] then Err(WrongArity(command)) else Ok(args)
  }

  function KeyAndValues(args: seq<Bytes>, command: Bytes): Parsed<(Bytes, seq<Bytes>)> {
    if |args| >= 2 then Ok((args[0], args[1..])) else Err(WrongArity(command))
  }

  function ParseInteger(raw: Bytes): Parsed<i64> {
    match ParseI64(raw)
    case Some(n) => Ok(n)
    case None => Err(NotAnInteger(raw))
  }

  function ParseSeconds(raw: Bytes): Parsed<u64> {
    match ParseU64(raw)
    case Some(n) => Ok(n)
    case None => Err(NotAnInteger(raw))
  }

  function ParseScore(raw: Bytes, fp: FloatText): Parsed<Score> {
    match fp.parse(raw)
    case Number(score) => Ok(score)
    case _ => Err(NotAFloat(raw))
  }

  function Negate(value: i64): Parsed<i64> {
    if value == I64_MIN then Err(NotAnInteger(PrintInt(value))) else Ok(-value)
  }

  function ParseScoreBound(raw: Bytes, fp: FloatText): Parsed<(Score, bool)> {
    var exclusive := raw != [] && raw[0] == '(';
    var number := Lower(if exclusive then raw[1..] else raw);
    if number == "+inf" || number == "inf" then Ok((PosInf, !exclusive))
    else if number == "-inf" then Ok((NegInf, !exclusive))
    else
      match fp.parse(number)
      case Number(score) => Ok((score, !exclusive))
      case _ => Err(NotAFloat(raw))
  }

  /** The score/member pairs of ZADD, in order; the first bad score is reported. */
  function ParsePairs(rest: seq<Bytes>, fp: FloatText): (r: Parsed<seq<(Score, Bytes)>>)
    ensures r.Ok? ==> |r.value| == |rest| / 2
  {
    if |rest| < 2 then Ok([])
    else
      var score :- ParseScore(rest[0], fp);
      var pairs :- ParsePairs(rest[2..], fp);
      Ok([(score, rest[1])] + pairs)
  }

  function Pairs(args: seq<Bytes>): seq<(Bytes, Bytes)> {
    if |args| < 2 then [] else [(args[0], args[1])] + Pairs(args[2..])
  }

  function Parse(tokens: seq<Bytes>, fp: FloatText): (r: Parsed<Command>)
    ensures tokens == [] ==> r.Err?
  {
    if tokens == [] then Err(EmptyCommand)
    else ParseNamed(VerbOf(Upper(tokens[0])), tokens[0], tokens[1..], fp)
  }

  function ParseSet(args: seq<Bytes>): (r: Parsed<Command>)
    ensures r.Ok? ==> r.value.Set?
  {
    if |args| == 2 then Ok(Set(args[0], args[1], None))
    else if |args| == 4 && (EqIgnoreCase(args[2], "EX") || EqIgnoreCase(args[2], "EXP")) then
      var ttl :- ParseSeconds(args[3]);
      Ok(Set(args[0], args[1], Some(ttl)))
    else Err(WrongArity("SET"))
  }

  /** The command names, matched without regard to case. */
  datatype Verb =
    | SetVerb | GetVerb | DelVerb | LpushVerb | RpushVerb | LpopVerb | RpopVerb | LrangeVerb
    | SaddVerb | SremVerb | SmembersVerb | SismemberVerb | ZaddVerb | ZremVerb | ZrangeVerb
    | ZscoreVerb | HsetVerb | HgetVerb | HdelVerb | HgetallVerb | HkeysVerb | HvalsVerb | HlenVerb
    | HexistsVerb | HincrbyVerb | ExistsVerb | TypeVerb | KeysVerb | ExpireVerb | TtlVerb
    | PersistVerb | RenameVerb | PingVerb | EchoVerb | DbsizeVerb | FlushallVerb | InfoVerb
    | SaveVerb | BgsaveVerb | PublishVerb | IncrVerb | DecrVerb | IncrbyVerb | DecrbyVerb
    | AppendVerb | StrlenVerb | MgetVerb | MsetVerb | SetnxVerb | GetsetVerb | LlenVerb
    | LindexVerb | LsetVerb | ScardVerb | SpopVerb | SinterVerb | SunionVerb | SdiffVerb
    | ZcardVerb | ZrankVerb | ZincrbyVerb | ZrangebyscoreVerb
    | UnknownVerb

  /** The names in the second half of the parser's match. */
  function LaterVerbOf(upper: Bytes): Verb {
    match upper
    case "RENAME" => RenameVerb
    case "PING" => PingVerb
    case "ECHO" => EchoVerb
    case "DBSIZE" => DbsizeVerb
    case "FLUSHALL" => FlushallVerb
    case "INFO" => InfoVerb
    case "SAVE" => SaveVerb
    case "BGSAVE" => BgsaveVerb
    case "PUBLISH" => PublishVerb
    case "INCR" => IncrVerb
    case "DECR" => DecrVerb
    case "INCRBY" => IncrbyVerb
    case "DECRBY" => DecrbyVerb
    case "APPEND" => AppendVerb
    case "STRLEN" => StrlenVerb
    case "MGET" => MgetVerb
    case "MSET" => MsetVerb
    case "SETNX" => SetnxVerb
    case "GETSET" => GetsetVerb
    case "LLEN" => LlenVerb
    case "LINDEX" => LindexVerb
    case "LSET" => LsetVerb
    case "SCARD" => ScardVerb
    case "SPOP" => SpopVerb
    case "SINTER" => SinterVerb
    case "SUNION" => SunionVerb
    case "SDIFF" => SdiffVerb
    case "ZCARD" => ZcardVerb
    case "ZRANK" => ZrankVerb
    case "ZINCRBY" => ZincrbyVerb
    case "ZRANGEBYSCORE" => ZrangebyscoreVerb
    case _ => UnknownVerb
  }

  function VerbOf(upper: Bytes): Verb {
    match upper
    case "SET" => SetVerb
    case "GET" => GetVerb
    case "DEL" => DelVerb
    case "LPUSH" => LpushVerb
    case "RPUSH" => RpushVerb
    case "LPOP" => LpopVerb
    case "RPOP" => RpopVerb
    case "LRANGE" => LrangeVerb
    case "SADD" => SaddVerb
    case "SREM" => SremVerb
    case "SMEMBERS" => SmembersVerb
    case "SISMEMBER" => SismemberVerb
    case "ZADD" => ZaddVerb
    case "ZREM" => ZremVerb
    case "ZRANGE" => ZrangeVerb
    case "ZSCORE" => ZscoreVerb
    case "HSET" => HsetVerb
    case "HGET" => HgetVerb
    case "HDEL" => HdelVerb
    case "HGETALL" => HgetallVerb
    case "HKEYS" => HkeysVerb
    case "HVALS" => HvalsVerb
    case "HLEN" => HlenVerb
    case "HEXISTS" => HexistsVerb
    case "HINCRBY" => HincrbyVerb
    case "EXISTS" => ExistsVerb
    case "TYPE" => TypeVerb
    case "KEYS" => KeysVerb
    case "EXPIRE" => ExpireVerb
    case "TTL" => TtlVerb
    case "PERSIST" => PersistVerb
    case _ => LaterVerbOf(upper)
  }

  /** The commands on the server. */
  function ParseOnServer(verb: Verb, name: Bytes, args: seq<Bytes>, fp: FloatText): (r: Parsed<Command>)
    ensures r.Ok? ==> r.value.HasArguments() && r.value.ParsedFrom(verb, args)
  {
    match verb
    case PingVerb =>
      if args == [] then Ok(Ping(None))
      else if |args| == 1 then Ok(Ping(Some(args[0])))
      else Err(WrongArity("PING"))
    case EchoVerb => var text :- SingleKey(args, "ECHO"); Ok(Echo(text))
    case InfoVerb => Ok(Info)
    case SaveVerb => Ok(Save)
    case BgsaveVerb => Ok(BgSave)
    case PublishVerb => var p :- KeyValue(args, "PUBLISH"); Ok(Publish(p.0, p.1))
    case _ => Err(Unknown(name))
  }

  /** The commands on keys of any type, and those after them. */
  function ParseOnKeys(verb: Verb, name: Bytes, args: seq<Bytes>, fp: FloatText): (r: Parsed<Command>)
    ensures r.Ok? ==> r.value.HasArguments() && r.value.ParsedFrom(verb, args)
  {
    match verb
    case DelVerb => var keys :- NonEmptyArgs(args, "DEL"); Ok(Del(keys))
    case ExistsVerb => var keys :- NonEmptyArgs(args, "EXISTS"); Ok(Exists(keys))
    case TypeVerb => var key :- SingleKey(args, "TYPE"); Ok(Type(key))
    case KeysVerb => var pattern :- SingleKey(args, "KEYS"); Ok(Keys(pattern))
    case ExpireVerb =>
      if |args| != 2 then Err(WrongArity("EXPIRE"))
      else var seconds :- ParseInteger(args[1]); Ok(Expire(args[0], seconds))
    case TtlVerb => var key :- SingleKey(args, "TTL"); Ok(Ttl(key))
    case PersistVerb => var key :- SingleKey(args, "PERSIST"); Ok(Persist(key))
    case RenameVerb => var p :- KeyValue(args, "RENAME"); Ok(Rename(p.0, p.1))
    case DbsizeVerb => if args == [] then Ok(DbSize) else Err(WrongArity("DBSIZE"))
    case FlushallVerb => if args == [] then Ok(FlushAll) else Err(WrongArity("FLUSHALL"))
    case _ => ParseOnServer(verb, name, args, fp)
  }

  /** The hash commands, and those after them. */
  function ParseOnHashes(verb: Verb, name: Bytes, args: seq<Bytes>, fp: FloatText): (r: Parsed<Command>)
    ensures r.Ok? ==> r.value.HasArguments() && r.value.ParsedFrom(verb, args)
  {
    match verb
    case HsetVerb =>
      if |args| == 3 then Ok(HSet(args[0], args[1], args[2])) else Err(WrongArity("HSET"))
    case HgetVerb => var p :- KeyValue(args, "HGET"); Ok(HGet(p.0, p.1))
    case HdelVerb => var p :- KeyValue(args, "HDEL"); Ok(HDel(p.0, p.1))
    case HgetallVerb => var key :- SingleKey(args, "HGETALL"); Ok(HGetAll(key))
    case HkeysVerb => var key :- SingleKey(args, "HKEYS"); Ok(HKeys(key))
    case HvalsVerb => var key :- SingleKey(args, "HVALS"); Ok(HVals(key))
    case HlenVerb => var key :- SingleKey(args, "HLEN"); Ok(HLen(key))
    case HexistsVerb => var p :- KeyValue(args, "HEXISTS"); Ok(HExists(p.0, p.1))
    case HincrbyVerb =>
      if |args| != 3 then Err(WrongArity("HINCRBY"))
      else var delta :- ParseInteger(args[2]); Ok(HIncrBy(args[0], args[1], delta))
    case _ => ParseOnKeys(verb, name, args, fp)
  }

  /** The sorted-set commands, and those after them. */
  function ParseOnSortedSets(verb: Verb, name: Bytes, args: seq<Bytes>, fp: FloatText): (r: Parsed<Command>)
    ensures r.Ok? ==> r.value.HasArguments() && r.value.ParsedFrom(verb, args)
  {
    match verb
    case ZaddVerb =>
      if |args| < 3 || |args| % 2 == 0 then Err(WrongArity("ZADD"))
      else
        var members :- ParsePairs(args[1..], fp);
        Ok(ZAdd(args[0], members))
    case ZremVerb => var p :- KeyValue(args, "ZREM"); Ok(ZRem(p.0, p.1))
    case ZrangeVerb =>
      if |args| == 3 || (|args| == 4 && EqIgnoreCase(args[3], "WITHSCORES")) then
        var start :- ParseInteger(args[1]);
        var stop :- ParseInteger(args[2]);
        Ok(ZRange(args[0], start, stop, |args| == 4))
      else Err(WrongArity("ZRANGE"))
    case ZscoreVerb => var p :- KeyValue(args, "ZSCORE"); Ok(ZScore(p.0, p.1))
    case ZcardVerb => var key :- SingleKey(args, "ZCARD"); Ok(ZCard(key))
    case ZrankVerb => var p :- KeyValue(args, "ZRANK"); Ok(ZRank(p.0, p.1))
    case ZincrbyVerb =>
      if |args| != 3 then Err(WrongArity("ZINCRBY"))
      else var increment :- ParseScore(args[1], fp); Ok(ZIncrBy(args[0], increment, args[2]))
    case ZrangebyscoreVerb =>
      if |args| != 3 then Err(WrongArity("ZRANGEBYSCORE"))
      else
        var min :- ParseScoreBound(args[1], fp);
        var max :- ParseScoreBound(args[2], fp);
        Ok(ZRangeByScore(args[0], Bounds(min.0, min.1, max.0, max.1)))
    case _ => ParseOnHashes(verb, name, args, fp)
  }

  /** The set commands, and those after them. */
  function ParseOnSets(verb: Verb, name: Bytes, args: seq<Bytes>, fp: FloatText): (r: Parsed<Command>)
    ensures r.Ok? ==> r.value.HasArguments() && r.value.ParsedFrom(verb, args)
  {
    match verb
    case SaddVerb => var p :- KeyAndValues(args, "SADD"); Ok(SAdd(p.0, p.1))
    case SremVerb => var p :- KeyAndValues(args, "SREM"); Ok(SRem(p.0, p.1))
    case SmembersVerb => var key :- SingleKey(args, "SMEMBERS"); Ok(SMembers(key))
    case SismemberVerb => var p :- KeyValue(args, "SISMEMBER"); Ok(SIsMember(p.0, p.1))
    case ScardVerb => var key :- SingleKey(args, "SCARD"); Ok(SCard(key))
    case SpopVerb => var key :- SingleKey(args, "SPOP"); Ok(SPop(key))
    case SinterVerb => var keys :- NonEmptyArgs(args, "SINTER"); Ok(SInter(keys))
    case SunionVerb => var keys :- NonEmptyArgs(args, "SUNION"); Ok(SUnion(keys))
    case SdiffVerb => var keys :- NonEmptyArgs(args, "SDIFF"); Ok(SDiff(keys))
    case _ => ParseOnSortedSets(verb, name, args, fp)
  }

  /** The list commands, and those after them. */
  function ParseOnLists(verb: Verb, name: Bytes, args: seq<Bytes>, fp: FloatText): (r: Parsed<Command>)
    ensures r.Ok? ==> r.value.HasArguments() && r.value.ParsedFrom(verb, args)
  {
    match verb
    case LpushVerb => var p :- KeyAndValues(args, "LPUSH"); Ok(LPush(p.0, p.1))
    case RpushVerb => var p :- KeyAndValues(args, "RPUSH"); Ok(RPush(p.0, p.1))
    case LpopVerb => var key :- SingleKey(args, "LPOP"); Ok(LPop(key))
    case RpopVerb => var key :- SingleKey(args, "RPOP"); Ok(RPop(key))
    case LrangeVerb =>
      if |args| != 3 then Err(WrongArity("LRANGE"))
      else
        var start :- ParseInteger(args[1]);
        var stop :- ParseInteger(args[2]);
        Ok(LRange(args[0], start, stop))
    case LlenVerb => var key :- SingleKey(args, "LLEN"); Ok(LLen(key))
    case LindexVerb =>
      if |args| != 2 then Err(WrongArity("LINDEX"))
      else var index :- ParseInteger(args[1]); Ok(LIndex(args[0], index))
    case LsetVerb =>
      if |args| != 3 then Err(WrongArity("LSET"))
      else var index :- ParseInteger(args[1]); Ok(LSet(args[0], index, args[2]))
    case _ => ParseOnSets(verb, name, args, fp)
  }

  /** The counter commands, and those after them. */
  function ParseOnCounters(verb: Verb, name: Bytes, args: seq<Bytes>, fp: FloatText): (r: Parsed<Command>)
    ensures r.Ok? ==> r.value.HasArguments() && r.value.ParsedFrom(verb, args)
  {
    match verb
    case IncrVerb => var key :- SingleKey(args, "INCR"); Ok(IncrBy(key, 1))
    case DecrVerb => var key :- SingleKey(args, "DECR"); Ok(IncrBy(key, -1))
    case IncrbyVerb =>
      if |args| != 2 then Err(WrongArity("INCRBY"))
      else var delta :- ParseInteger(args[1]); Ok(IncrBy(args[0], delta))
    case DecrbyVerb =>
      if |args| != 2 then Err(WrongArity("DECRBY"))
      else
        var amount :- ParseInteger(args[1]);
        var delta :- Negate(amount);
        Ok(IncrBy(args[0], delta))
    case _ => ParseOnLists(verb, name, args, fp)
  }

  /** The string commands, and those after them. */
  function ParseNamed(verb: Verb, name: Bytes, args: seq<Bytes>, fp: FloatText): (r: Parsed<Command>)
    ensures r.Ok? ==> r.value.HasArguments() && r.value.ParsedFrom(verb, args)
  {
    match verb
    case SetVerb => ParseSet(args)
    case GetVerb => var key :- SingleKey(args, "GET"); Ok(Get(key))
    case AppendVerb => var p :- KeyValue(args, "APPEND"); Ok(Append(p.0, p.1))
    case StrlenVerb => var key :- SingleKey(args, "STRLEN"); Ok(StrLen(key))
    case MgetVerb => var keys :- NonEmptyArgs(args, "MGET"); Ok(MGet(keys))
    case MsetVerb =>
      if args == [] || |args| % 2 != 0 then Err(WrongArity("MSET")) else Ok(MSet(Pairs(args)))
    case SetnxVerb => var p :- KeyValue(args, "SETNX"); Ok(SetNx(p.0, p.1))
    case GetsetVerb => var p :- KeyValue(args, "GETSET"); Ok(GetSet(p.0, p.1))
    case _ => ParseOnCounters(verb, name, args, fp)
  }
}
