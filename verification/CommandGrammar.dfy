// The grammar of commands, from commands to requests: which token lists mean
// which command (src/command/mod.rs). The parser goes the other way.
module CommandGrammar {
  import opened Wrappers
  import opened ByteStrings
  import opened SortedSet
  import opened Commands

  // --- Names, which requests may write in any case ----------------------------------

  lemma StringNames()
    ensures VerbOf("SET") == SetVerb && VerbOf("GET") == GetVerb
    ensures VerbOf("APPEND") == AppendVerb && VerbOf("STRLEN") == StrlenVerb
  {
  }

  lemma MoreStringNames()
    ensures VerbOf("MGET") == MgetVerb && VerbOf("MSET") == MsetVerb
  {
  }

  lemma ConditionalNames()
    ensures VerbOf("SETNX") == SetnxVerb && VerbOf("GETSET") == GetsetVerb
  {
  }

  lemma ListNames()
    ensures VerbOf("LPUSH") == LpushVerb && VerbOf("RPUSH") == RpushVerb
    ensures VerbOf("LPOP") == LpopVerb && VerbOf("RPOP") == RpopVerb
  {
  }

  lemma MoreListNames()
    ensures VerbOf("LRANGE") == LrangeVerb && VerbOf("LLEN") == LlenVerb
    ensures VerbOf("LINDEX") == LindexVerb && VerbOf("LSET") == LsetVerb
  {
  }

  lemma SetNames()
    ensures VerbOf("SADD") == SaddVerb && VerbOf("SREM") == SremVerb
    ensures VerbOf("SMEMBERS") == SmembersVerb && VerbOf("SISMEMBER") == SismemberVerb
  {
  }

  lemma MoreSetNames()
    ensures VerbOf("SCARD") == ScardVerb && VerbOf("SPOP") == SpopVerb
  {
  }

  lemma SetAlgebraNames()
    ensures VerbOf("SINTER") == SinterVerb && VerbOf("SUNION") == SunionVerb
    ensures VerbOf("SDIFF") == SdiffVerb
  {
  }

  lemma SortedSetNames()
    ensures VerbOf("ZADD") == ZaddVerb && VerbOf("ZREM") == ZremVerb
    ensures VerbOf("ZRANGE") == ZrangeVerb && VerbOf("ZSCORE") == ZscoreVerb
  {
  }

  lemma RankNames()
    ensures VerbOf("ZCARD") == ZcardVerb && VerbOf("ZRANK") == ZrankVerb
  {
  }

  lemma ScoreNames()
    ensures VerbOf("ZINCRBY") == ZincrbyVerb && VerbOf("ZRANGEBYSCORE") == ZrangebyscoreVerb
  {
  }

  lemma HashNames()
    ensures VerbOf("HSET") == HsetVerb && VerbOf("HGET") == HgetVerb
    ensures VerbOf("HDEL") == HdelVerb && VerbOf("HGETALL") == HgetallVerb
    ensures VerbOf("HKEYS") == HkeysVerb && VerbOf("HVALS") == HvalsVerb
  {
  }

  lemma MoreHashNames()
    ensures VerbOf("HLEN") == HlenVerb && VerbOf("HEXISTS") == HexistsVerb
    ensures VerbOf("HINCRBY") == HincrbyVerb
  {
  }

  lemma KeyNames()
    ensures VerbOf("DEL") == DelVerb && VerbOf("EXISTS") == ExistsVerb
    ensures VerbOf("TYPE") == TypeVerb && VerbOf("KEYS") == KeysVerb
  {
  }

  lemma MoreKeyNames()
    ensures VerbOf("EXPIRE") == ExpireVerb && VerbOf("TTL") == TtlVerb
    ensures VerbOf("PERSIST") == PersistVerb && VerbOf("RENAME") == RenameVerb
  {
  }

  lemma ServerNames()
    ensures VerbOf("PING") == PingVerb && VerbOf("ECHO") == EchoVerb
    ensures VerbOf("DBSIZE") == DbsizeVerb && VerbOf("FLUSHALL") == FlushallVerb
  {
  }

  lemma MoreServerNames()
    ensures VerbOf("INFO") == InfoVerb && VerbOf("SAVE") == SaveVerb
    ensures VerbOf("BGSAVE") == BgsaveVerb && VerbOf("PUBLISH") == PublishVerb
  {
  }

  lemma CounterNames()
    ensures VerbOf("INCR") == IncrVerb && VerbOf("DECR") == DecrVerb
    ensures VerbOf("INCRBY") == IncrbyVerb && VerbOf("DECRBY") == DecrbyVerb
  {
  }

  /** The name of each verb. */
  function NameOf(verb: Verb): Bytes
    requires !verb.UnknownVerb?
  {
    match verb
    case SetVerb => "SET"
    case GetVerb => "GET"
    case DelVerb => "DEL"
    case LpushVerb => "LPUSH"
    case RpushVerb => "RPUSH"
    case LpopVerb => "LPOP"
    case RpopVerb => "RPOP"
    case LrangeVerb => "LRANGE"
    case SaddVerb => "SADD"
    case SremVerb => "SREM"
    case SmembersVerb => "SMEMBERS"
    case SismemberVerb => "SISMEMBER"
    case ZaddVerb => "ZADD"
    case ZremVerb => "ZREM"
    case ZrangeVerb => "ZRANGE"
    case ZscoreVerb => "ZSCORE"
    case HsetVerb => "HSET"
    case HgetVerb => "HGET"
    case HdelVerb => "HDEL"
    case HgetallVerb => "HGETALL"
    case HkeysVerb => "HKEYS"
    case HvalsVerb => "HVALS"
    case HlenVerb => "HLEN"
    case HexistsVerb => "HEXISTS"
    case HincrbyVerb => "HINCRBY"
    case ExistsVerb => "EXISTS"
    case TypeVerb => "TYPE"
    case KeysVerb => "KEYS"
    case ExpireVerb => "EXPIRE"
    case TtlVerb => "TTL"
    case PersistVerb => "PERSIST"
    case RenameVerb => "RENAME"
    case PingVerb => "PING"
    case EchoVerb => "ECHO"
    case DbsizeVerb => "DBSIZE"
    case FlushallVerb => "FLUSHALL"
    case InfoVerb => "INFO"
    case SaveVerb => "SAVE"
    case BgsaveVerb => "BGSAVE"
    case PublishVerb => "PUBLISH"
    case IncrVerb => "INCR"
    case DecrVerb => "DECR"
    case IncrbyVerb => "INCRBY"
    case DecrbyVerb => "DECRBY"
    case AppendVerb => "APPEND"
    case StrlenVerb => "STRLEN"
    case MgetVerb => "MGET"
    case MsetVerb => "MSET"
    case SetnxVerb => "SETNX"
    case GetsetVerb => "GETSET"
    case LlenVerb => "LLEN"
    case LindexVerb => "LINDEX"
    case LsetVerb => "LSET"
    case ScardVerb => "SCARD"
    case SpopVerb => "SPOP"
    case SinterVerb => "SINTER"
    case SunionVerb => "SUNION"
    case SdiffVerb => "SDIFF"
    case ZcardVerb => "ZCARD"
    case ZrankVerb => "ZRANK"
    case ZincrbyVerb => "ZINCRBY"
    case ZrangebyscoreVerb => "ZRANGEBYSCORE"
  }

  predicate IsLater(verb: Verb) {
    || verb.RenameVerb? || verb.PingVerb? || verb.EchoVerb? || verb.DbsizeVerb? || verb.FlushallVerb?
    || verb.InfoVerb? || verb.SaveVerb? || verb.BgsaveVerb? || verb.PublishVerb? || verb.IncrVerb?
    || verb.DecrVerb? || verb.IncrbyVerb? || verb.DecrbyVerb? || verb.AppendVerb? || verb.StrlenVerb?
    || verb.MgetVerb? || verb.MsetVerb? || verb.SetnxVerb? || verb.GetsetVerb? || verb.LlenVerb?
    || verb.LindexVerb? || verb.LsetVerb? || verb.ScardVerb? || verb.SpopVerb? || verb.SinterVerb?
    || verb.SunionVerb? || verb.SdiffVerb? || verb.ZcardVerb? || verb.ZrankVerb? || verb.ZincrbyVerb?
    || verb.ZrangebyscoreVerb?
  }

  predicate IsFirst(verb: Verb) {
    || verb.SetVerb? || verb.GetVerb? || verb.DelVerb? || verb.LpushVerb? || verb.RpushVerb? || verb.LpopVerb?
  }

  predicate IsSecond(verb: Verb) {
    || verb.RpopVerb? || verb.LrangeVerb? || verb.SaddVerb? || verb.SremVerb? || verb.SmembersVerb?
    || verb.SismemberVerb?
  }

  predicate IsThird(verb: Verb) {
    || verb.ZaddVerb? || verb.ZremVerb? || verb.ZrangeVerb? || verb.ZscoreVerb? || verb.HsetVerb?
    || verb.HgetVerb?
  }

  predicate IsFourth(verb: Verb) {
    || verb.HdelVerb? || verb.HgetallVerb? || verb.HkeysVerb? || verb.HvalsVerb? || verb.HlenVerb?
    || verb.HexistsVerb?
  }

  predicate IsFifth(verb: Verb) {
    || verb.HincrbyVerb? || verb.ExistsVerb? || verb.TypeVerb? || verb.KeysVerb? || verb.ExpireVerb?
    || verb.TtlVerb?
  }

  predicate IsSixth(verb: Verb) {
    || verb.PersistVerb?
  }

  predicate IsLaterFirst(verb: Verb) {
    || verb.RenameVerb? || verb.PingVerb? || verb.EchoVerb? || verb.DbsizeVerb? || verb.FlushallVerb?
    || verb.InfoVerb?
  }

  predicate IsLaterSecond(verb: Verb) {
    || verb.SaveVerb? || verb.BgsaveVerb? || verb.PublishVerb? || verb.IncrVerb? || verb.DecrVerb?
    || verb.IncrbyVerb?
  }

  predicate IsLaterThird(verb: Verb) {
    || verb.DecrbyVerb? || verb.AppendVerb? || verb.StrlenVerb? || verb.MgetVerb? || verb.MsetVerb?
    || verb.SetnxVerb?
  }

  predicate IsLaterFourth(verb: Verb) {
    || verb.GetsetVerb? || verb.LlenVerb? || verb.LindexVerb? || verb.LsetVerb? || verb.ScardVerb?
    || verb.SpopVerb?
  }

  predicate IsLaterFifth(verb: Verb) {
    || verb.SinterVerb? || verb.SunionVerb? || verb.SdiffVerb? || verb.ZcardVerb? || verb.ZrankVerb?
    || verb.ZincrbyVerb?
  }

  predicate IsLaterSixth(verb: Verb) {
    || verb.ZrangebyscoreVerb?
  }

  lemma LaterNames(upper: Bytes)
    ensures LaterVerbOf(upper).UnknownVerb? || IsLater(LaterVerbOf(upper))
  {
  }

  lemma FirstNames(upper: Bytes)
    ensures IsFirst(VerbOf(upper)) ==> upper == NameOf(VerbOf(upper))
  {
    LaterNames(upper);
    hide LaterVerbOf;
  }

  lemma SecondNames(upper: Bytes)
    ensures IsSecond(VerbOf(upper)) ==> upper == NameOf(VerbOf(upper))
  {
    LaterNames(upper);
    hide LaterVerbOf;
  }

  lemma ThirdNames(upper: Bytes)
    ensures IsThird(VerbOf(upper)) ==> upper == NameOf(VerbOf(upper))
  {
    LaterNames(upper);
    hide LaterVerbOf;
  }

  lemma FourthNames(upper: Bytes)
    ensures IsFourth(VerbOf(upper)) ==> upper == NameOf(VerbOf(upper))
  {
    LaterNames(upper);
    hide LaterVerbOf, IsLater;
    assert !IsFourth(LaterVerbOf(upper)) by { LaterIsNotFourth(LaterVerbOf(upper)); }
  }

  lemma LaterIsNotFourth(verb: Verb)
    requires verb.UnknownVerb? || IsLater(verb)
    ensures !IsFourth(verb)
  {
  }

  lemma FifthNames(upper: Bytes)
    ensures IsFifth(VerbOf(upper)) ==> upper == NameOf(VerbOf(upper))
  {
    LaterNames(upper);
    hide LaterVerbOf;
  }

  lemma SixthNames(upper: Bytes)
    ensures IsSixth(VerbOf(upper)) ==> upper == NameOf(VerbOf(upper))
  {
    LaterNames(upper);
    hide LaterVerbOf;
  }

  lemma LaterFirstNames(upper: Bytes)
    ensures IsLaterFirst(LaterVerbOf(upper)) ==> upper == NameOf(LaterVerbOf(upper))
  {
  }

  lemma LaterSecondNames(upper: Bytes)
    ensures IsLaterSecond(LaterVerbOf(upper)) ==> upper == NameOf(LaterVerbOf(upper))
  {
  }

  lemma LaterThirdNames(upper: Bytes)
    ensures IsLaterThird(LaterVerbOf(upper)) ==> upper == NameOf(LaterVerbOf(upper))
  {
  }

  lemma LaterFourthNames(upper: Bytes)
    ensures IsLaterFourth(LaterVerbOf(upper)) ==> upper == NameOf(LaterVerbOf(upper))
  {
  }

  lemma LaterFifthNames(upper: Bytes)
    ensures IsLaterFifth(LaterVerbOf(upper)) ==> upper == NameOf(LaterVerbOf(upper))
  {
  }

  lemma LaterSixthNames(upper: Bytes)
    ensures IsLaterSixth(LaterVerbOf(upper)) ==> upper == NameOf(LaterVerbOf(upper))
  {
  }

  lemma NotFirstHalf(upper: Bytes)
    ensures IsLater(VerbOf(upper)) ==> VerbOf(upper) == LaterVerbOf(upper)
  {
    hide LaterVerbOf;
  }

  /** A name is taken for a verb only if it is the name of that verb. */
  lemma OnlyItsName(upper: Bytes)
    requires !VerbOf(upper).UnknownVerb?
    ensures upper == NameOf(VerbOf(upper))
  {
    hide LaterVerbOf, VerbOf, NameOf;
    NotFirstHalf(upper);
    FirstNames(upper);
    SecondNames(upper);
    ThirdNames(upper);
    FourthNames(upper);
    FifthNames(upper);
    SixthNames(upper);
    LaterFirstNames(upper);
    LaterSecondNames(upper);
    LaterThirdNames(upper);
    LaterFourthNames(upper);
    LaterFifthNames(upper);
    LaterSixthNames(upper);
  }

  lemma FirstByName(verb: Verb)
    requires IsFirst(verb)
    ensures VerbOf(NameOf(verb)) == verb
  {
    hide VerbOf;
    StringNames();
    ListNames();
    KeyNames();
  }

  lemma SecondByName(verb: Verb)
    requires IsSecond(verb)
    ensures VerbOf(NameOf(verb)) == verb
  {
    hide VerbOf;
    ListNames();
    MoreListNames();
    SetNames();
  }

  lemma ThirdByName(verb: Verb)
    requires IsThird(verb)
    ensures VerbOf(NameOf(verb)) == verb
  {
    hide VerbOf;
    SortedSetNames();
    HashNames();
  }

  lemma FourthByName(verb: Verb)
    requires IsFourth(verb)
    ensures VerbOf(NameOf(verb)) == verb
  {
    hide VerbOf;
    HashNames();
    MoreHashNames();
  }

  lemma FifthByName(verb: Verb)
    requires IsFifth(verb)
    ensures VerbOf(NameOf(verb)) == verb
  {
    hide VerbOf;
    MoreHashNames();
    KeyNames();
    MoreKeyNames();
  }

  lemma SixthByName(verb: Verb)
    requires IsSixth(verb)
    ensures VerbOf(NameOf(verb)) == verb
  {
    hide VerbOf;
    MoreKeyNames();
  }

  lemma LaterFirstByName(verb: Verb)
    requires IsLaterFirst(verb)
    ensures VerbOf(NameOf(verb)) == verb
  {
    hide VerbOf;
    MoreKeyNames();
    ServerNames();
    MoreServerNames();
  }

  lemma LaterSecondByName(verb: Verb)
    requires IsLaterSecond(verb)
    ensures VerbOf(NameOf(verb)) == verb
  {
    hide VerbOf;
    MoreServerNames();
    CounterNames();
  }

  lemma LaterThirdByName(verb: Verb)
    requires IsLaterThird(verb)
    ensures VerbOf(NameOf(verb)) == verb
  {
    hide VerbOf;
    StringNames();
    MoreStringNames();
    ConditionalNames();
    CounterNames();
  }

  lemma LaterFourthByName(verb: Verb)
    requires IsLaterFourth(verb)
    ensures VerbOf(NameOf(verb)) == verb
  {
    hide VerbOf;
    ConditionalNames();
    MoreListNames();
    MoreSetNames();
  }

  lemma LaterFifthByName(verb: Verb)
    requires IsLaterFifth(verb)
    ensures VerbOf(NameOf(verb)) == verb
  {
    hide VerbOf;
    SetAlgebraNames();
    RankNames();
    ScoreNames();
  }

  lemma LaterSixthByName(verb: Verb)
    requires IsLaterSixth(verb)
    ensures VerbOf(NameOf(verb)) == verb
  {
    hide VerbOf;
    ScoreNames();
  }

  /** Every verb is requested by its name. */
  lemma ByItsName(verb: Verb)
    requires !verb.UnknownVerb?
    ensures VerbOf(NameOf(verb)) == verb
  {
    hide VerbOf, NameOf;
    if IsFirst(verb) {
      FirstByName(verb);
    } else if IsSecond(verb) {
      SecondByName(verb);
    } else if IsThird(verb) {
      ThirdByName(verb);
    } else if IsFourth(verb) {
      FourthByName(verb);
    } else if IsFifth(verb) {
      FifthByName(verb);
    } else if IsSixth(verb) {
      SixthByName(verb);
    } else if IsLaterFirst(verb) {
      LaterFirstByName(verb);
    } else if IsLaterSecond(verb) {
      LaterSecondByName(verb);
    } else if IsLaterThird(verb) {
      LaterThirdByName(verb);
    } else if IsLaterFourth(verb) {
      LaterFourthByName(verb);
    } else if IsLaterFifth(verb) {
      LaterFifthByName(verb);
    } else {
      LaterSixthByName(verb);
    }
  }

  // --- Arguments ------------------------------------------------------------------------

  /** Keys and values alternating. */
  function Flat(pairs: seq<(Bytes, Bytes)>): seq<Bytes> {
    if pairs == [] then [] else [pairs[0].0, pairs[0].1] + Flat(pairs[1..])
  }

  predicate IsInteger(text: Bytes, n: int) {
    ParseI64(text).Some? && ParseI64(text).value == n
  }

  predicate IsScore(text: Bytes, score: Score, fp: FloatText) {
    fp.parse(text) == Number(score)
  }

  /** A score bound: exclusive after an opening parenthesis, with names for the
      infinities in any case. */
  predicate IsBound(text: Bytes, score: Score, inclusive: bool, fp: FloatText) {
    if text != [] && text[0] == '(' then !inclusive && IsBoundNumber(Lower(text[1..]), score, fp)
    else inclusive && IsBoundNumber(Lower(text), score, fp)
  }

  predicate IsBoundNumber(text: Bytes, score: Score, fp: FloatText) {
    match text
    case "inf" => score == PosInf
    case "+inf" => score == PosInf
    case "-inf" => score == NegInf
    case _ => IsScore(text, score, fp)
  }

  /** Scores and members alternating. */
  predicate AreMembers(texts: seq<Bytes>, members: seq<(Score, Bytes)>, fp: FloatText) {
    if members == [] then texts == []
    else
      && |texts| >= 2 && IsScore(texts[0], members[0].0, fp) && texts[1] == members[0].1
      && AreMembers(texts[2..], members[1..], fp)
  }

  predicate AreSetArgs(args: seq<Bytes>, key: Bytes, value: Bytes, ttl: Option<u64>) {
    && |args| >= 2 && args[0] == key && args[1] == value
    && match ttl
       case None => |args| == 2
       case Some(seconds) =>
         |args| == 4 && Upper(args[2]) in {"EX", "EXP"} && ParseU64(args[3]) == Some(seconds)
  }

  predicate StringArgs(cmd: Command, verb: Verb, args: seq<Bytes>)
    requires cmd.OnStrings()
  {
    match cmd
    case Set(key, value, ttl) =>
      verb == SetVerb && AreSetArgs(args, key, value, ttl)
    case Get(key) => verb == GetVerb && args == [key]
    case IncrBy(key, delta) =>
      || (verb == IncrVerb && args == [key] && delta == 1)
      || (verb == DecrVerb && args == [key] && delta == -1)
      || (verb == IncrbyVerb && |args| == 2 && args[0] == key && IsInteger(args[1], delta))
      || (verb == DecrbyVerb && |args| == 2 && args[0] == key && IsInteger(args[1], -(delta as int)))
    case Append(key, value) => verb == AppendVerb && args == [key, value]
    case StrLen(key) => verb == StrlenVerb && args == [key]
    case MGet(keys) => verb == MgetVerb && args == keys && keys != []
    case MSet(pairs) => verb == MsetVerb && args == Flat(pairs) && pairs != []
    case SetNx(key, value) => verb == SetnxVerb && args == [key, value]
    case GetSet(key, value) => verb == GetsetVerb && args == [key, value]
  }

  predicate ListArgs(cmd: Command, verb: Verb, args: seq<Bytes>)
    requires cmd.OnLists()
  {
    match cmd
    case LPush(key, values) => verb == LpushVerb && args == [key] + values && values != []
    case RPush(key, values) => verb == RpushVerb && args == [key] + values && values != []
    case LPop(key) => verb == LpopVerb && args == [key]
    case RPop(key) => verb == RpopVerb && args == [key]
    case LRange(key, start, stop) =>
      verb == LrangeVerb && |args| == 3 && args[0] == key && IsInteger(args[1], start) && IsInteger(args[2], stop)
    case LLen(key) => verb == LlenVerb && args == [key]
    case LIndex(key, index) => verb == LindexVerb && |args| == 2 && args[0] == key && IsInteger(args[1], index)
    case LSet(key, index, value) =>
      verb == LsetVerb && |args| == 3 && args[0] == key && IsInteger(args[1], index) && args[2] == value
  }

  predicate SetArgs(cmd: Command, verb: Verb, args: seq<Bytes>)
    requires cmd.OnSets()
  {
    match cmd
    case SAdd(key, values) => verb == SaddVerb && args == [key] + values && values != []
    case SRem(key, values) => verb == SremVerb && args == [key] + values && values != []
    case SMembers(key) => verb == SmembersVerb && args == [key]
    case SIsMember(key, value) => verb == SismemberVerb && args == [key, value]
    case SCard(key) => verb == ScardVerb && args == [key]
    case SPop(key) => verb == SpopVerb && args == [key]
    case SInter(keys) => verb == SinterVerb && args == keys && keys != []
    case SUnion(keys) => verb == SunionVerb && args == keys && keys != []
    case SDiff(keys) => verb == SdiffVerb && args == keys && keys != []
  }

  predicate SortedSetArgs(cmd: Command, verb: Verb, args: seq<Bytes>, fp: FloatText)
    requires cmd.OnSortedSets()
  {
    match cmd
    case ZAdd(key, members) =>
      verb == ZaddVerb && members != [] && args != [] && args[0] == key && AreMembers(args[1..], members, fp)
    case ZRem(key, member) => verb == ZremVerb && args == [key, member]
    case ZRange(key, start, stop, withScores) =>
      verb == ZrangeVerb && |args| >= 3 && args[0] == key && IsInteger(args[1], start) && IsInteger(args[2], stop)
      && (if withScores then |args| == 4 && Upper(args[3]) == "WITHSCORES" else |args| == 3)
    case ZScore(key, member) => verb == ZscoreVerb && args == [key, member]
    case ZCard(key) => verb == ZcardVerb && args == [key]
    case ZRank(key, member) => verb == ZrankVerb && args == [key, member]
    case ZIncrBy(key, increment, member) =>
      verb == ZincrbyVerb && |args| == 3 && args[0] == key && IsScore(args[1], increment, fp) && args[2] == member
    case ZRangeByScore(key, bounds) =>
      verb == ZrangebyscoreVerb && |args| == 3 && args[0] == key
      && IsBound(args[1], bounds.min, bounds.minInclusive, fp)
      && IsBound(args[2], bounds.max, bounds.maxInclusive, fp)
  }

  predicate HashArgs(cmd: Command, verb: Verb, args: seq<Bytes>)
    requires cmd.OnHashes()
  {
    match cmd
    case HSet(key, field, value) => verb == HsetVerb && args == [key, field, value]
    case HGet(key, field) => verb == HgetVerb && args == [key, field]
    case HDel(key, field) => verb == HdelVerb && args == [key, field]
    case HGetAll(key) => verb == HgetallVerb && args == [key]
    case HKeys(key) => verb == HkeysVerb && args == [key]
    case HVals(key) => verb == HvalsVerb && args == [key]
    case HLen(key) => verb == HlenVerb && args == [key]
    case HExists(key, field) => verb == HexistsVerb && args == [key, field]
    case HIncrBy(key, field, delta) =>
      verb == HincrbyVerb && |args| == 3 && args[0] == key && args[1] == field && IsInteger(args[2], delta)
  }

  predicate KeyArgs(cmd: Command, verb: Verb, args: seq<Bytes>)
    requires cmd.OnKeys()
  {
    match cmd
    case Del(keys) => verb == DelVerb && args == keys && keys != []
    case Exists(keys) => verb == ExistsVerb && args == keys && keys != []
    case Type(key) => verb == TypeVerb && args == [key]
    case Keys(pattern) => verb == KeysVerb && args == [pattern]
    case Expire(key, seconds) => verb == ExpireVerb && |args| == 2 && args[0] == key && IsInteger(args[1], seconds)
    case Ttl(key) => verb == TtlVerb && args == [key]
    case Persist(key) => verb == PersistVerb && args == [key]
    case Rename(key, newKey) => verb == RenameVerb && args == [key, newKey]
    case DbSize => verb == DbsizeVerb && args == []
    case FlushAll => verb == FlushallVerb && args == []
  }

  /** INFO, SAVE and BGSAVE take any arguments and ignore them. */
  predicate ServerArgs(cmd: Command, verb: Verb, args: seq<Bytes>)
    requires cmd.OnServer()
  {
    match cmd
    case Ping(message) => verb == PingVerb && args == (match message case None => [] case Some(text) => [text])
    case Echo(text) => verb == EchoVerb && args == [text]
    case Info => verb == InfoVerb
    case Save => verb == SaveVerb
    case BgSave => verb == BgsaveVerb
    case Publish(channel, payload) => verb == PublishVerb && args == [channel, payload]
  }

  predicate IsStringVerb(verb: Verb) {
    || verb.SetVerb? || verb.GetVerb? || verb.AppendVerb? || verb.StrlenVerb?
    || verb.MgetVerb? || verb.MsetVerb? || verb.SetnxVerb? || verb.GetsetVerb?
  }

  predicate IsCounterVerb(verb: Verb) {
    || verb.IncrVerb? || verb.DecrVerb? || verb.IncrbyVerb? || verb.DecrbyVerb?
  }

  predicate IsListVerb(verb: Verb) {
    || verb.LpushVerb? || verb.RpushVerb? || verb.LpopVerb? || verb.RpopVerb?
    || verb.LrangeVerb? || verb.LlenVerb? || verb.LindexVerb? || verb.LsetVerb?
  }

  predicate IsSetVerb(verb: Verb) {
    || verb.SaddVerb? || verb.SremVerb? || verb.SmembersVerb? || verb.SismemberVerb?
    || verb.ScardVerb? || verb.SpopVerb? || verb.SinterVerb? || verb.SunionVerb?
    || verb.SdiffVerb?
  }

  predicate IsSortedSetVerb(verb: Verb) {
    || verb.ZaddVerb? || verb.ZremVerb? || verb.ZrangeVerb? || verb.ZscoreVerb?
    || verb.ZcardVerb? || verb.ZrankVerb? || verb.ZincrbyVerb? || verb.ZrangebyscoreVerb?
  }

  predicate IsHashVerb(verb: Verb) {
    || verb.HsetVerb? || verb.HgetVerb? || verb.HdelVerb? || verb.HgetallVerb?
    || verb.HkeysVerb? || verb.HvalsVerb? || verb.HlenVerb? || verb.HexistsVerb?
    || verb.HincrbyVerb?
  }

  predicate IsKeyVerb(verb: Verb) {
    || verb.DelVerb? || verb.ExistsVerb? || verb.TypeVerb? || verb.KeysVerb?
    || verb.ExpireVerb? || verb.TtlVerb? || verb.PersistVerb? || verb.RenameVerb?
    || verb.DbsizeVerb? || verb.FlushallVerb?
  }

  predicate IsServerVerb(verb: Verb) {
    || verb.PingVerb? || verb.EchoVerb? || verb.InfoVerb? || verb.SaveVerb?
    || verb.BgsaveVerb? || verb.PublishVerb?
  }

  // The verb with these arguments means the command: each type, and those after it.

  predicate MeansFromServer(cmd: Command, verb: Verb, args: seq<Bytes>, fp: FloatText) {
    if IsServerVerb(verb) then cmd.OnServer() && ServerArgs(cmd, verb, args)
    else false
  }

  predicate MeansFromKey(cmd: Command, verb: Verb, args: seq<Bytes>, fp: FloatText) {
    if IsKeyVerb(verb) then cmd.OnKeys() && KeyArgs(cmd, verb, args)
    else MeansFromServer(cmd, verb, args, fp)
  }

  predicate MeansFromHash(cmd: Command, verb: Verb, args: seq<Bytes>, fp: FloatText) {
    if IsHashVerb(verb) then cmd.OnHashes() && HashArgs(cmd, verb, args)
    else MeansFromKey(cmd, verb, args, fp)
  }

  predicate MeansFromSortedSet(cmd: Command, verb: Verb, args: seq<Bytes>, fp: FloatText) {
    if IsSortedSetVerb(verb) then cmd.OnSortedSets() && SortedSetArgs(cmd, verb, args, fp)
    else MeansFromHash(cmd, verb, args, fp)
  }

  predicate MeansFromSet(cmd: Command, verb: Verb, args: seq<Bytes>, fp: FloatText) {
    if IsSetVerb(verb) then cmd.OnSets() && SetArgs(cmd, verb, args)
    else MeansFromSortedSet(cmd, verb, args, fp)
  }

  predicate MeansFromList(cmd: Command, verb: Verb, args: seq<Bytes>, fp: FloatText) {
    if IsListVerb(verb) then cmd.OnLists() && ListArgs(cmd, verb, args)
    else MeansFromSet(cmd, verb, args, fp)
  }

  predicate MeansFromCounter(cmd: Command, verb: Verb, args: seq<Bytes>, fp: FloatText) {
    if IsCounterVerb(verb) then cmd.OnStrings() && StringArgs(cmd, verb, args)
    else MeansFromList(cmd, verb, args, fp)
  }

  /** The verb with these arguments means the command. */
  predicate Means(cmd: Command, verb: Verb, args: seq<Bytes>, fp: FloatText) {
    if IsStringVerb(verb) then cmd.OnStrings() && StringArgs(cmd, verb, args)
    else MeansFromCounter(cmd, verb, args, fp)
  }

  // --- The parser ------------------------------------------------------------------------

  lemma {:induction false} PairsOfFlat(pairs: seq<(Bytes, Bytes)>)
    ensures Pairs(Flat(pairs)) == pairs && |Flat(pairs)| == 2 * |pairs|
  {
    if pairs != [] {
      PairsOfFlat(pairs[1..]);
      assert Flat(pairs)[2..] == Flat(pairs[1..]);
    }
  }

  lemma {:induction false} FlatOfPairs(args: seq<Bytes>)
    requires |args| % 2 == 0
    ensures Flat(Pairs(args)) == args && 2 * |Pairs(args)| == |args|
  {
    if args != [] {
      FlatOfPairs(args[2..]);
      assert Pairs(args)[1..] == Pairs(args[2..]);
    }
  }

  lemma PairsMean(args: seq<Bytes>, pairs: seq<(Bytes, Bytes)>)
    ensures args == Flat(pairs) && pairs != [] <==> args != [] && |args| % 2 == 0 && Pairs(args) == pairs
  {
    PairsOfFlat(pairs);
    if |args| % 2 == 0 {
      FlatOfPairs(args);
    }
  }

  lemma {:induction false} ScoredPairsMean(texts: seq<Bytes>, members: seq<(Score, Bytes)>, fp: FloatText)
    requires |texts| % 2 == 0
    ensures ParsePairs(texts, fp) == Ok(members) <==> AreMembers(texts, members, fp)
  {
    if texts != [] {
      var score, rest := ParseScore(texts[0], fp), ParsePairs(texts[2..], fp);
      if members != [] {
        ScoredPairsMean(texts[2..], members[1..], fp);
        assert members == [members[0]] + members[1..];
      }
      if score.Ok? && rest.Ok? {
        ScoredPairsMean(texts[2..], rest.value, fp);
        assert ([(score.value, texts[1])] + rest.value)[1..] == rest.value;
      }
    }
  }

  lemma {:induction false} MembersAreEven(texts: seq<Bytes>, members: seq<(Score, Bytes)>, fp: FloatText)
    requires AreMembers(texts, members, fp)
    ensures |texts| == 2 * |members|
  {
    if members != [] {
      MembersAreEven(texts[2..], members[1..], fp);
    }
  }

  lemma BoundMeans(text: Bytes, score: Score, inclusive: bool, fp: FloatText)
    ensures ParseScoreBound(text, fp) == Ok((score, inclusive)) <==> IsBound(text, score, inclusive, fp)
  {
    hide Lower;
  }

  lemma SetMeans(args: seq<Bytes>, key: Bytes, value: Bytes, ttl: Option<u64>)
    ensures ParseSet(args) == Ok(Set(key, value, ttl)) <==> AreSetArgs(args, key, value, ttl)
    ensures ParseSet(args).Ok? ==> ParseSet(args).value.Set?
  {
    hide ParseU64, Upper;
    OptionWords();
  }

  lemma BoundsMean(args: seq<Bytes>, bounds: Bounds, fp: FloatText)
    requires |args| == 3
    ensures var min, max := ParseScoreBound(args[1], fp), ParseScoreBound(args[2], fp);
            && (min.Ok? && max.Ok? && Bounds(min.value.0, min.value.1, max.value.0, max.value.1) == bounds <==>
                  IsBound(args[1], bounds.min, bounds.minInclusive, fp)
                  && IsBound(args[2], bounds.max, bounds.maxInclusive, fp))
  {
    hide IsBound, ParseScoreBound;
    BoundMeans(args[1], bounds.min, bounds.minInclusive, fp);
    BoundMeans(args[2], bounds.max, bounds.maxInclusive, fp);
    assert bounds == Bounds(bounds.min, bounds.minInclusive, bounds.max, bounds.maxInclusive);
  }

  lemma MembersMean(args: seq<Bytes>, members: seq<(Score, Bytes)>, fp: FloatText)
    requires args != []
    ensures AreMembers(args[1..], members, fp) && members != [] <==>
            |args| >= 3 && |args| % 2 == 1 && ParsePairs(args[1..], fp) == Ok(members)
  {
    if AreMembers(args[1..], members, fp) {
      MembersAreEven(args[1..], members, fp);
    }
    if |args| % 2 == 1 {
      ScoredPairsMean(args[1..], members, fp);
      if AreMembers(args[1..], members, fp) {
        MembersAreEven(args[1..], members, fp);
      }
    }
  }

  // Type by type: the verbs, what the parser makes of them, and that it leaves the
  // others to the next type.

  lemma OptionWords()
    ensures Upper("EX") == "EX" && Upper("EXP") == "EXP" && Upper("WITHSCORES") == "WITHSCORES"
  {
  }

  lemma StringIff(cmd: Command, verb: Verb, name: Bytes, args: seq<Bytes>, fp: FloatText)
    requires IsStringVerb(verb)
    ensures ParseNamed(verb, name, args, fp) == Ok(cmd) <==> cmd.OnStrings() && StringArgs(cmd, verb, args)
  {
    hide ParseNamed, StringArgs;
    if verb.SetVerb? {
      SetCommandIff(cmd, verb, name, args, fp);
    } else if verb.MsetVerb? {
      MsetIff(cmd, verb, name, args, fp);
    } else {
      OneKeyStringIff(cmd, verb, name, args, fp);
    }
  }

  lemma SetCommandIff(cmd: Command, verb: Verb, name: Bytes, args: seq<Bytes>, fp: FloatText)
    requires verb.SetVerb?
    ensures ParseNamed(verb, name, args, fp) == Ok(cmd) <==> cmd.OnStrings() && StringArgs(cmd, verb, args)
  {
    hide ParseSet, ParseOnCounters, AreSetArgs;
    if cmd.Set? {
      SetMeans(args, cmd.key, cmd.value, cmd.ttl);
    }
  }

  lemma MsetIff(cmd: Command, verb: Verb, name: Bytes, args: seq<Bytes>, fp: FloatText)
    requires verb.MsetVerb?
    ensures ParseNamed(verb, name, args, fp) == Ok(cmd) <==> cmd.OnStrings() && StringArgs(cmd, verb, args)
  {
    hide ParseOnCounters, Pairs, Flat;
    if cmd.MSet? {
      PairsMean(args, cmd.pairs);
    }
  }

  lemma OneKeyStringIff(cmd: Command, verb: Verb, name: Bytes, args: seq<Bytes>, fp: FloatText)
    requires IsStringVerb(verb) && !verb.SetVerb? && !verb.MsetVerb?
    ensures ParseNamed(verb, name, args, fp) == Ok(cmd) <==> cmd.OnStrings() && StringArgs(cmd, verb, args)
  {
    hide ParseSet, ParseOnCounters, AreSetArgs, Pairs, Flat;
  }

  lemma StringFalls(verb: Verb, name: Bytes, args: seq<Bytes>, fp: FloatText)
    requires !IsStringVerb(verb)
    ensures ParseNamed(verb, name, args, fp) == ParseOnCounters(verb, name, args, fp)
  {
    hide ParseOnCounters;
  }

  lemma CounterIff(cmd: Command, verb: Verb, name: Bytes, args: seq<Bytes>, fp: FloatText)
    requires IsCounterVerb(verb)
    ensures ParseOnCounters(verb, name, args, fp) == Ok(cmd) <==> cmd.OnStrings() && StringArgs(cmd, verb, args)
  {
    hide ParseOnCounters, StringArgs;
    if verb.IncrVerb? || verb.DecrVerb? {
      ByOneIff(cmd, verb, name, args, fp);
    } else {
      ByAmountIff(cmd, verb, name, args, fp);
    }
  }

  lemma ByOneIff(cmd: Command, verb: Verb, name: Bytes, args: seq<Bytes>, fp: FloatText)
    requires verb.IncrVerb? || verb.DecrVerb?
    ensures ParseOnCounters(verb, name, args, fp) == Ok(cmd) <==> cmd.OnStrings() && StringArgs(cmd, verb, args)
  {
    hide ParseOnLists, IsInteger, AreSetArgs, Flat;
  }

  lemma ByAmountIff(cmd: Command, verb: Verb, name: Bytes, args: seq<Bytes>, fp: FloatText)
    requires verb.IncrbyVerb? || verb.DecrbyVerb?
    ensures ParseOnCounters(verb, name, args, fp) == Ok(cmd) <==> cmd.OnStrings() && StringArgs(cmd, verb, args)
  {
    hide ParseI64, ParseOnLists, AreSetArgs, Flat;
  }

  lemma CounterFalls(verb: Verb, name: Bytes, args: seq<Bytes>, fp: FloatText)
    requires !IsCounterVerb(verb)
    ensures ParseOnCounters(verb, name, args, fp) == ParseOnLists(verb, name, args, fp)
  {
    hide ParseOnLists;
  }

  lemma ListIff(cmd: Command, verb: Verb, name: Bytes, args: seq<Bytes>, fp: FloatText)
    requires IsListVerb(verb)
    ensures ParseOnLists(verb, name, args, fp) == Ok(cmd) <==> cmd.OnLists() && ListArgs(cmd, verb, args)
  {
    hide ParseI64, ParseOnSets;
  }

  lemma ListFalls(verb: Verb, name: Bytes, args: seq<Bytes>, fp: FloatText)
    requires !IsListVerb(verb)
    ensures ParseOnLists(verb, name, args, fp) == ParseOnSets(verb, name, args, fp)
  {
    hide ParseOnSets;
  }

  lemma SetIff(cmd: Command, verb: Verb, name: Bytes, args: seq<Bytes>, fp: FloatText)
    requires IsSetVerb(verb)
    ensures ParseOnSets(verb, name, args, fp) == Ok(cmd) <==> cmd.OnSets() && SetArgs(cmd, verb, args)
  {
    hide ParseOnSets, SetArgs;
    if verb.SinterVerb? || verb.SunionVerb? || verb.SdiffVerb? {
      SetAlgebraIff(cmd, verb, name, args, fp);
    } else {
      OneSetIff(cmd, verb, name, args, fp);
    }
  }

  lemma SetAlgebraIff(cmd: Command, verb: Verb, name: Bytes, args: seq<Bytes>, fp: FloatText)
    requires verb.SinterVerb? || verb.SunionVerb? || verb.SdiffVerb?
    ensures ParseOnSets(verb, name, args, fp) == Ok(cmd) <==> cmd.OnSets() && SetArgs(cmd, verb, args)
  {
    hide ParseOnSortedSets;
  }

  lemma OneSetIff(cmd: Command, verb: Verb, name: Bytes, args: seq<Bytes>, fp: FloatText)
    requires IsSetVerb(verb) && !verb.SinterVerb? && !verb.SunionVerb? && !verb.SdiffVerb?
    ensures ParseOnSets(verb, name, args, fp) == Ok(cmd) <==> cmd.OnSets() && SetArgs(cmd, verb, args)
  {
    hide ParseOnSortedSets;
  }

  lemma SetFalls(verb: Verb, name: Bytes, args: seq<Bytes>, fp: FloatText)
    requires !IsSetVerb(verb)
    ensures ParseOnSets(verb, name, args, fp) == ParseOnSortedSets(verb, name, args, fp)
  {
    hide ParseOnSortedSets;
  }

  lemma SortedSetIff(cmd: Command, verb: Verb, name: Bytes, args: seq<Bytes>, fp: FloatText)
    requires IsSortedSetVerb(verb)
    ensures ParseOnSortedSets(verb, name, args, fp) == Ok(cmd) <==>
            cmd.OnSortedSets() && SortedSetArgs(cmd, verb, args, fp)
  {
    hide ParseOnSortedSets, SortedSetArgs;
    if verb.ZaddVerb? || verb.ZrangeVerb? || verb.ZrangebyscoreVerb? {
      RangeIff(cmd, verb, name, args, fp);
    } else {
      OneMemberIff(cmd, verb, name, args, fp);
    }
  }

  lemma RangeIff(cmd: Command, verb: Verb, name: Bytes, args: seq<Bytes>, fp: FloatText)
    requires verb.ZaddVerb? || verb.ZrangeVerb? || verb.ZrangebyscoreVerb?
    ensures ParseOnSortedSets(verb, name, args, fp) == Ok(cmd) <==>
            cmd.OnSortedSets() && SortedSetArgs(cmd, verb, args, fp)
  {
    hide ParseOnSortedSets, SortedSetArgs;
    if verb.ZaddVerb? {
      ZaddIff(cmd, verb, name, args, fp);
    } else if verb.ZrangeVerb? {
      ZrangeIff(cmd, verb, name, args, fp);
    } else {
      ZrangebyscoreIff(cmd, verb, name, args, fp);
    }
  }

  lemma ZaddIff(cmd: Command, verb: Verb, name: Bytes, args: seq<Bytes>, fp: FloatText)
    requires verb.ZaddVerb?
    ensures ParseOnSortedSets(verb, name, args, fp) == Ok(cmd) <==>
            cmd.OnSortedSets() && SortedSetArgs(cmd, verb, args, fp)
  {
    hide AreMembers, ParsePairs, ParseOnHashes;
    if cmd.ZAdd? && args != [] {
      MembersMean(args, cmd.members, fp);
    }
  }

  lemma ZrangeIff(cmd: Command, verb: Verb, name: Bytes, args: seq<Bytes>, fp: FloatText)
    requires verb.ZrangeVerb?
    ensures ParseOnSortedSets(verb, name, args, fp) == Ok(cmd) <==>
            cmd.OnSortedSets() && SortedSetArgs(cmd, verb, args, fp)
  {
    hide ParseI64, Upper, ParseOnHashes;
    OptionWords();
  }

  lemma ZrangebyscoreIff(cmd: Command, verb: Verb, name: Bytes, args: seq<Bytes>, fp: FloatText)
    requires verb.ZrangebyscoreVerb?
    ensures ParseOnSortedSets(verb, name, args, fp) == Ok(cmd) <==>
            cmd.OnSortedSets() && SortedSetArgs(cmd, verb, args, fp)
  {
    hide ParseScoreBound, IsBound, ParseOnHashes;
    if cmd.ZRangeByScore? && |args| == 3 {
      BoundsMean(args, cmd.bounds, fp);
    }
  }

  lemma OneMemberIff(cmd: Command, verb: Verb, name: Bytes, args: seq<Bytes>, fp: FloatText)
    requires verb.ZremVerb? || verb.ZscoreVerb? || verb.ZcardVerb? || verb.ZrankVerb? || verb.ZincrbyVerb?
    ensures ParseOnSortedSets(verb, name, args, fp) == Ok(cmd) <==>
            cmd.OnSortedSets() && SortedSetArgs(cmd, verb, args, fp)
  {
    hide ParseI64, ParseScoreBound, IsBound, AreMembers, ParsePairs, ParseOnHashes;
  }

  lemma SortedSetFalls(verb: Verb, name: Bytes, args: seq<Bytes>, fp: FloatText)
    requires !IsSortedSetVerb(verb)
    ensures ParseOnSortedSets(verb, name, args, fp) == ParseOnHashes(verb, name, args, fp)
  {
    hide ParseOnHashes;
  }

  lemma HashIff(cmd: Command, verb: Verb, name: Bytes, args: seq<Bytes>, fp: FloatText)
    requires IsHashVerb(verb)
    ensures ParseOnHashes(verb, name, args, fp) == Ok(cmd) <==> cmd.OnHashes() && HashArgs(cmd, verb, args)
  {
    hide ParseI64, ParseOnKeys;
  }

  lemma HashFalls(verb: Verb, name: Bytes, args: seq<Bytes>, fp: FloatText)
    requires !IsHashVerb(verb)
    ensures ParseOnHashes(verb, name, args, fp) == ParseOnKeys(verb, name, args, fp)
  {
    hide ParseOnKeys;
  }

  lemma KeyIff(cmd: Command, verb: Verb, name: Bytes, args: seq<Bytes>, fp: FloatText)
    requires IsKeyVerb(verb)
    ensures ParseOnKeys(verb, name, args, fp) == Ok(cmd) <==> cmd.OnKeys() && KeyArgs(cmd, verb, args)
  {
    hide ParseOnKeys, KeyArgs;
    if verb.DelVerb? || verb.ExistsVerb? || verb.TypeVerb? || verb.KeysVerb? || verb.ExpireVerb? {
      ListingIff(cmd, verb, name, args, fp);
    } else {
      LifetimeIff(cmd, verb, name, args, fp);
    }
  }

  lemma ListingIff(cmd: Command, verb: Verb, name: Bytes, args: seq<Bytes>, fp: FloatText)
    requires verb.DelVerb? || verb.ExistsVerb? || verb.TypeVerb? || verb.KeysVerb? || verb.ExpireVerb?
    ensures ParseOnKeys(verb, name, args, fp) == Ok(cmd) <==> cmd.OnKeys() && KeyArgs(cmd, verb, args)
  {
    hide ParseI64, ParseOnServer;
  }

  lemma LifetimeIff(cmd: Command, verb: Verb, name: Bytes, args: seq<Bytes>, fp: FloatText)
    requires verb.TtlVerb? || verb.PersistVerb? || verb.RenameVerb? || verb.DbsizeVerb? || verb.FlushallVerb?
    ensures ParseOnKeys(verb, name, args, fp) == Ok(cmd) <==> cmd.OnKeys() && KeyArgs(cmd, verb, args)
  {
    hide ParseOnServer;
  }

  lemma KeyFalls(verb: Verb, name: Bytes, args: seq<Bytes>, fp: FloatText)
    requires !IsKeyVerb(verb)
    ensures ParseOnKeys(verb, name, args, fp) == ParseOnServer(verb, name, args, fp)
  {
    hide ParseOnServer;
  }

  lemma ServerIff(cmd: Command, verb: Verb, name: Bytes, args: seq<Bytes>, fp: FloatText)
    requires IsServerVerb(verb)
    ensures ParseOnServer(verb, name, args, fp) == Ok(cmd) <==> cmd.OnServer() && ServerArgs(cmd, verb, args)
  {
  }


  // --- Every request -------------------------------------------------------------------

  lemma FromServer(cmd: Command, verb: Verb, name: Bytes, args: seq<Bytes>, fp: FloatText)
    ensures ParseOnServer(verb, name, args, fp) == Ok(cmd) <==> MeansFromServer(cmd, verb, args, fp)
  {
    if IsServerVerb(verb) {
      ServerIff(cmd, verb, name, args, fp);
    }
  }

  lemma FromKey(cmd: Command, verb: Verb, name: Bytes, args: seq<Bytes>, fp: FloatText)
    ensures ParseOnKeys(verb, name, args, fp) == Ok(cmd) <==> MeansFromKey(cmd, verb, args, fp)
  {
    hide ParseOnKeys, ParseOnServer, IsKeyVerb, KeyArgs, MeansFromServer;
    if IsKeyVerb(verb) {
      KeyIff(cmd, verb, name, args, fp);
    } else {
      KeyFalls(verb, name, args, fp);
      FromServer(cmd, verb, name, args, fp);
    }
  }

  lemma FromHash(cmd: Command, verb: Verb, name: Bytes, args: seq<Bytes>, fp: FloatText)
    ensures ParseOnHashes(verb, name, args, fp) == Ok(cmd) <==> MeansFromHash(cmd, verb, args, fp)
  {
    hide ParseOnHashes, ParseOnKeys, IsHashVerb, HashArgs, MeansFromKey;
    if IsHashVerb(verb) {
      HashIff(cmd, verb, name, args, fp);
    } else {
      HashFalls(verb, name, args, fp);
      FromKey(cmd, verb, name, args, fp);
    }
  }

  lemma FromSortedSet(cmd: Command, verb: Verb, name: Bytes, args: seq<Bytes>, fp: FloatText)
    ensures ParseOnSortedSets(verb, name, args, fp) == Ok(cmd) <==> MeansFromSortedSet(cmd, verb, args, fp)
  {
    hide ParseOnSortedSets, ParseOnHashes, IsSortedSetVerb, SortedSetArgs, MeansFromHash;
    if IsSortedSetVerb(verb) {
      SortedSetIff(cmd, verb, name, args, fp);
    } else {
      SortedSetFalls(verb, name, args, fp);
      FromHash(cmd, verb, name, args, fp);
    }
  }

  lemma FromSet(cmd: Command, verb: Verb, name: Bytes, args: seq<Bytes>, fp: FloatText)
    ensures ParseOnSets(verb, name, args, fp) == Ok(cmd) <==> MeansFromSet(cmd, verb, args, fp)
  {
    hide ParseOnSets, ParseOnSortedSets, IsSetVerb, SetArgs, MeansFromSortedSet;
    if IsSetVerb(verb) {
      SetIff(cmd, verb, name, args, fp);
    } else {
      SetFalls(verb, name, args, fp);
      FromSortedSet(cmd, verb, name, args, fp);
    }
  }

  lemma FromList(cmd: Command, verb: Verb, name: Bytes, args: seq<Bytes>, fp: FloatText)
    ensures ParseOnLists(verb, name, args, fp) == Ok(cmd) <==> MeansFromList(cmd, verb, args, fp)
  {
    hide ParseOnLists, ParseOnSets, IsListVerb, ListArgs, MeansFromSet;
    if IsListVerb(verb) {
      ListIff(cmd, verb, name, args, fp);
    } else {
      ListFalls(verb, name, args, fp);
      FromSet(cmd, verb, name, args, fp);
    }
  }

  lemma FromCounter(cmd: Command, verb: Verb, name: Bytes, args: seq<Bytes>, fp: FloatText)
    ensures ParseOnCounters(verb, name, args, fp) == Ok(cmd) <==> MeansFromCounter(cmd, verb, args, fp)
  {
    hide ParseOnCounters, ParseOnLists, IsCounterVerb, StringArgs, MeansFromList;
    if IsCounterVerb(verb) {
      CounterIff(cmd, verb, name, args, fp);
    } else {
      CounterFalls(verb, name, args, fp);
      FromList(cmd, verb, name, args, fp);
    }
  }

  lemma FromString(cmd: Command, verb: Verb, name: Bytes, args: seq<Bytes>, fp: FloatText)
    ensures ParseNamed(verb, name, args, fp) == Ok(cmd) <==> Means(cmd, verb, args, fp)
  {
    hide ParseNamed, ParseOnCounters, IsStringVerb, StringArgs, MeansFromCounter;
    if IsStringVerb(verb) {
      StringIff(cmd, verb, name, args, fp);
    } else {
      StringFalls(verb, name, args, fp);
      FromCounter(cmd, verb, name, args, fp);
    }
  }

  /** A request is parsed as a command if and only if its name, in any case, and
      its arguments mean that command. */
  lemma ParseIff(tokens: seq<Bytes>, cmd: Command, fp: FloatText)
    ensures Parse(tokens, fp) == Ok(cmd) <==> tokens != [] && Means(cmd, VerbOf(Upper(tokens[0])), tokens[1..], fp)
  {
    hide VerbOf, Upper, ParseNamed, Means;
    if tokens != [] {
      FromString(cmd, VerbOf(Upper(tokens[0])), tokens[0], tokens[1..], fp);
    }
  }
}
