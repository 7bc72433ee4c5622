// What every command means on a keyspace without expired keys. The commands
// here never look at a deadline except to report or set it; the database of
// the source, which keeps expired entries until something evicts them, is
// proved against these definitions.
module Keyspace {
  import opened Wrappers
  import opened ByteStrings
  import opened Ranges
  import opened SortedSet
  import opened Resp
  import opened Commands
  import Glob

  datatype StoreError =
    | WrongType
    | NotInteger
    | NotHashInteger
    | Overflow
    | NoSuchKey
    | IndexOutOfRange
    | ScoreNaN
  {
    function Text(): Bytes {
      match this
      case WrongType => "WRONGTYPE Operation against " + "a key holding the wrong kind of value"
      case NotInteger => "ERR value is not an integer or out of range"
      case NotHashInteger => "ERR hash value is not an integer"
      case Overflow => "ERR increment or decrement would overflow"
      case NoSuchKey => "ERR no such key"
      case IndexOutOfRange => "ERR index out of range"
      case ScoreNaN => "ERR resulting score is not a number (NaN)"
    }
  }

  datatype Value =
    | StringValue(text: Bytes)
    | ListValue(items: seq<Bytes>)
    | SetValue(elements: set<Bytes>)
    | SortedSetValue(zset: ZSet)
    | HashValue(fields: map<Bytes, Bytes>)

  datatype Entry = Entry(value: Value, expiresAt: Option<int>)

  type Store = map<Bytes, Entry>

  type Outcome<T> = Result<T, StoreError>

  // --- Time --------------------------------------------------------------------

  /** Clock ticks (nanoseconds) in a second. */
  const SECOND: nat := 1_000_000_000

  /** What one command takes from outside: the clock, the last instant the clock
      can represent, the iteration order of hash tables, the server counters
      and the outcome of writing a snapshot file. */
  datatype Env = Env(
    now: int,
    clockMax: int,
    order: set<Bytes> -> seq<Bytes>,
    uptime: nat,
    clients: nat,
    saveError: Option<Bytes>)
  {
    /** The iteration order lists every element of a set exactly once. */
    ghost predicate Valid() {
      forall s: set<Bytes> :: Enumerates(order(s), s)
    }

    /** `deadline_after`: no deadline when the clock cannot represent it. */
    function Deadline(seconds: nat): Option<int> {
      var at := now + seconds * SECOND;
      if at <= clockMax then Some(at) else None
    }
  }

  ghost predicate Enumerates(list: seq<Bytes>, s: set<Bytes>) {
    && (forall x :: x in list <==> x in s)
    && (forall i, j :: 0 <= i < j < |list| ==> list[i] != list[j])
  }

  predicate Expired(e: Entry, now: int) {
    e.expiresAt.Some? && now >= e.expiresAt.value
  }

  /** The entries a client can still observe. */
  function Live(s: Store, now: int): (m: Store)
    ensures forall k :: k in m <==> k in s && !Expired(s[k], now)
    ensures forall k <- m :: m[k] == s[k]
  {
    map k | k in s && !Expired(s[k], now) :: s[k]
  }

  // --- Reading -------------------------------------------------------------------

  function Read<T>(m: Store, key: Bytes, absent: T, read: Entry -> T): T {
    if key in m then read(m[key]) else absent
  }

  function GetOf(e: Entry): Outcome<Option<Bytes>> {
    if e.value.StringValue? then Ok(Some(e.value.text)) else Err(WrongType)
  }

  function StrLenOf(e: Entry): Outcome<nat> {
    if e.value.StringValue? then Ok(|e.value.text|) else Err(WrongType)
  }

  function LRangeOf(e: Entry, start: int, stop: int): Outcome<seq<Bytes>> {
    if e.value.ListValue? then Ok(Slice(e.value.items, start, stop)) else Err(WrongType)
  }

  function LLenOf(e: Entry): Outcome<nat> {
    if e.value.ListValue? then Ok(|e.value.items|) else Err(WrongType)
  }

  function LIndexOf(e: Entry, index: int): Outcome<Option<Bytes>> {
    if e.value.ListValue? then Ok(Index(e.value.items, index)) else Err(WrongType)
  }

  function SMembersOf(e: Entry, env: Env): Outcome<seq<Bytes>> {
    if e.value.SetValue? then Ok(env.order(e.value.elements)) else Err(WrongType)
  }

  function SIsMemberOf(e: Entry, value: Bytes): Outcome<bool> {
    if e.value.SetValue? then Ok(value in e.value.elements) else Err(WrongType)
  }

  function SCardOf(e: Entry): Outcome<nat> {
    if e.value.SetValue? then Ok(|e.value.elements|) else Err(WrongType)
  }

  function ZRangeOf(e: Entry, start: int, stop: int): Outcome<seq<Bytes>> {
    if e.value.SortedSetValue? then Ok(e.value.zset.Range(start, stop)) else Err(WrongType)
  }

  /** Members and their printed scores alternating, as WITHSCORES replies. */
  function ZRangeScoresOf(e: Entry, start: int, stop: int, fp: FloatText): Outcome<seq<Bytes>> {
    if e.value.SortedSetValue? then Ok(Interleave(Slice(e.value.zset.order, start, stop), fp)) else Err(WrongType)
  }

  function Interleave(s: seq<SortedMember>, fp: FloatText): seq<Bytes> {
    if s == [] then [] else [s[0].member, fp.show(s[0].score)] + Interleave(s[1..], fp)
  }

  function ZScoreOf(e: Entry, member: Bytes, fp: FloatText): Outcome<Option<Bytes>> {
    if !e.value.SortedSetValue? then Err(WrongType)
    else if member in e.value.zset.scores then Ok(Some(fp.show(e.value.zset.scores[member])))
    else Ok(None)
  }

  function ZCardOf(e: Entry): Outcome<nat> {
    if e.value.SortedSetValue? then Ok(|e.value.zset.scores|) else Err(WrongType)
  }

  function ZRankOf(e: Entry, member: Bytes): Outcome<Option<nat>> {
    if e.value.SortedSetValue? then Ok(e.value.zset.Rank(member)) else Err(WrongType)
  }

  function ZRangeByScoreOf(e: Entry, bounds: Bounds): Outcome<seq<Bytes>> {
    if e.value.SortedSetValue? then Ok(e.value.zset.RangeByScore(bounds)) else Err(WrongType)
  }

  function HGetOf(e: Entry, field: Bytes): Outcome<Option<Bytes>> {
    if !e.value.HashValue? then Err(WrongType)
    else if field in e.value.fields then Ok(Some(e.value.fields[field]))
    else Ok(None)
  }

  function HGetAllOf(e: Entry, env: Env): Outcome<seq<Bytes>> {
    if e.value.HashValue? then Ok(Flatten(e.value.fields, env.order(e.value.fields.Keys))) else Err(WrongType)
  }

  /** Field, value, field, value, ... in the given order of fields. */
  function Flatten(fields: map<Bytes, Bytes>, names: seq<Bytes>): seq<Bytes> {
    if names == [] then []
    else
      (if names[0] in fields then [names[0], fields[names[0]]] else []) + Flatten(fields, names[1..])
  }

  function HKeysOf(e: Entry, env: Env): Outcome<seq<Bytes>> {
    if e.value.HashValue? then Ok(env.order(e.value.fields.Keys)) else Err(WrongType)
  }

  function HValsOf(e: Entry, env: Env): Outcome<seq<Bytes>> {
    if e.value.HashValue? then Ok(ValuesAt(e.value.fields, env.order(e.value.fields.Keys))) else Err(WrongType)
  }

  function ValuesAt(fields: map<Bytes, Bytes>, names: seq<Bytes>): seq<Bytes> {
    if names == [] then []
    else (if names[0] in fields then [fields[names[0]]] else []) + ValuesAt(fields, names[1..])
  }

  function HLenOf(e: Entry): Outcome<nat> {
    if e.value.HashValue? then Ok(|e.value.fields|) else Err(WrongType)
  }

  function HExistsOf(e: Entry, field: Bytes): Outcome<bool> {
    if e.value.HashValue? then Ok(field in e.value.fields) else Err(WrongType)
  }

  function TypeOf(e: Entry): (name: Bytes)
    ensures OneLine(name)
  {
    match e.value
    case StringValue(_) => "string"
    case ListValue(_) => "list"
    case SetValue(_) => "set"
    case SortedSetValue(_) => "zset"
    case HashValue(_) => "hash"
  }

  /** Whole seconds until the deadline, 0 when it has passed. */
  function SecondsLeft(e: Entry, now: int): Option<nat> {
    match e.expiresAt
    case Some(deadline) => Some(if deadline <= now then 0 else (deadline - now) / SECOND)
    case None => None
  }

  function TtlOf(e: Entry, now: int): int {
    match SecondsLeft(e, now) case Some(seconds) => seconds case None => -1
  }

  // --- Several keys at once ---------------------------------------------------------

  function ToSet(s: seq<Bytes>): set<Bytes> {
    set i | 0 <= i < |s| :: s[i]
  }

  /** How many positions of `keys` name a key of the store. */
  function CountPresent(m: Store, keys: seq<Bytes>): nat {
    if keys == [] then 0
    else CountPresent(m, keys[..|keys| - 1]) + (if keys[|keys| - 1] in m then 1 else 0)
  }

  function MGet(m: Store, keys: seq<Bytes>): (r: seq<Option<Bytes>>)
    ensures |r| == |keys|
  {
    seq(|keys|, i requires 0 <= i < |keys| =>
      if keys[i] in m && m[keys[i]].value.StringValue? then Some(m[keys[i]].value.text) else None)
  }

  /** The set stored at a key; a missing key is an empty set. */
  function SetAt(m: Store, key: Bytes): set<Bytes> {
    if key in m && m[key].value.SetValue? then m[key].value.elements else {}
  }

  predicate AllSets(m: Store, keys: seq<Bytes>) {
    forall i :: 0 <= i < |keys| && keys[i] in m ==> m[keys[i]].value.SetValue?
  }

  function SInter(m: Store, keys: seq<Bytes>): Outcome<set<Bytes>> {
    if !AllSets(m, keys) then Err(WrongType)
    else if keys == [] then Ok({})
    else Ok(set x | x in SetAt(m, keys[0]) && forall i :: 0 <= i < |keys| ==> x in SetAt(m, keys[i]))
  }

  function SUnion(m: Store, keys: seq<Bytes>): Outcome<set<Bytes>> {
    if !AllSets(m, keys) then Err(WrongType)
    else Ok(set i, x | 0 <= i < |keys| && x in SetAt(m, keys[i]) :: x)
  }

  function SDiff(m: Store, keys: seq<Bytes>): Outcome<set<Bytes>> {
    if !AllSets(m, keys) then Err(WrongType)
    else if keys == [] then Ok({})
    else Ok(set x | x in SetAt(m, keys[0]) && forall i :: 1 <= i < |keys| ==> x !in SetAt(m, keys[i]))
  }

  ghost function MatchingKeys(m: Store, pattern: Bytes): set<Bytes> {
    set k | k in m && Glob.GlobMatches(pattern, k)
  }

  // --- Writing -------------------------------------------------------------------------

  /** Replaces the value at a key, keeping its deadline. */
  function Put(m: Store, key: Bytes, value: Value): Store {
    m[key := Entry(value, if key in m then m[key].expiresAt else None)]
  }

  /** As Put, dropping the key when the collection it holds is left empty. */
  function PutOrDrop(m: Store, key: Bytes, value: Value, empty: bool): Store {
    if empty then m - {key} else Put(m, key, value)
  }

  function IncrByIn(m: Store, key: Bytes, delta: i64): (Store, Outcome<i64>) {
    if key !in m then (Put(m, key, StringValue(PrintInt(delta))), Ok(delta))
    else
      match m[key].value
      case StringValue(text) =>
        (match ParseI64(text)
         case None => (m, Err(NotInteger))
         case Some(value) =>
           if InI64(value + delta) then (Put(m, key, StringValue(PrintInt(value + delta))), Ok(value + delta))
           else (m, Err(Overflow)))
      case _ => (m, Err(WrongType))
  }

  function AppendIn(m: Store, key: Bytes, suffix: Bytes): (Store, Outcome<nat>) {
    if key !in m then (Put(m, key, StringValue(suffix)), Ok(|suffix|))
    else
      match m[key].value
      case StringValue(text) => (Put(m, key, StringValue(text + suffix)), Ok(|text| + |suffix|))
      case _ => (m, Err(WrongType))
  }

  /** Sets keys one pair after the other, so the last value given for a key stays. */
  function MSetIn(m: Store, pairs: seq<(Bytes, Bytes)>): Store {
    if pairs == [] then m
    else
      var last := pairs[|pairs| - 1];
      MSetIn(m, pairs[..|pairs| - 1])[last.0 := Entry(StringValue(last.1), None)]
  }

  function SetNxIn(m: Store, key: Bytes, value: Bytes): (Store, bool) {
    if key in m then (m, false) else (m[key := Entry(StringValue(value), None)], true)
  }

  function GetSetIn(m: Store, key: Bytes, value: Bytes): (Store, Outcome<Option<Bytes>>) {
    if key in m && !m[key].value.StringValue? then (m, Err(WrongType))
    else
      (m[key := Entry(StringValue(value), None)],
       Ok(if key in m then Some(m[key].value.text) else None))
  }

  function PushIn(m: Store, key: Bytes, values: seq<Bytes>, front: bool): (Store, Outcome<nat>) {
    if key in m && !m[key].value.ListValue? then (m, Err(WrongType))
    else
      var items := if key in m then m[key].value.items else [];
      var pushed := if front then Reverse(values) + items else items + values;
      (Put(m, key, ListValue(pushed)), Ok(|pushed|))
  }

  function PopIn(m: Store, key: Bytes, front: bool): (Store, Outcome<Option<Bytes>>) {
    if key !in m then (m, Ok(None))
    else
      match m[key].value
      case ListValue(items) =>
        if items == [] then (m - {key}, Ok(None))
        else
          var n := |items| - 1;
          var left := if front then items[1..] else items[..n];
          (PutOrDrop(m, key, ListValue(left), left == []), Ok(Some(if front then items[0] else items[n])))
      case _ => (m, Err(WrongType))
  }

  function LSetIn(m: Store, key: Bytes, index: int, value: Bytes): (Store, Outcome<()>) {
    if key !in m then (m, Err(NoSuchKey))
    else
      match m[key].value
      case ListValue(items) =>
        (match NormalizeIndex(index, |items|)
         case Some(i) => (Put(m, key, ListValue(items[i := value])), Ok(()))
         case None => (m, Err(IndexOutOfRange)))
      case _ => (m, Err(WrongType))
  }

  function SAddIn(m: Store, key: Bytes, values: seq<Bytes>): (Store, Outcome<nat>) {
    if key in m && !m[key].value.SetValue? then (m, Err(WrongType))
    else
      var before := SetAt(m, key);
      (Put(m, key, SetValue(before + ToSet(values))), Ok(|ToSet(values) - before|))
  }

  function SRemIn(m: Store, key: Bytes, values: seq<Bytes>): (Store, Outcome<nat>) {
    if key !in m then (m, Ok(0))
    else
      match m[key].value
      case SetValue(before) =>
        var after := before - ToSet(values);
        (PutOrDrop(m, key, SetValue(after), after == {}), Ok(|ToSet(values) * before|))
      case _ => (m, Err(WrongType))
  }

  /** Removes the first element in iteration order. */
  function SPopIn(m: Store, key: Bytes, env: Env): (Store, Outcome<Option<Bytes>>) {
    if key !in m then (m, Ok(None))
    else
      match m[key].value
      case SetValue(before) =>
        var listed := env.order(before);
        if listed == [] then (PutOrDrop(m, key, SetValue(before), before == {}), Ok(None))
        else
          var after := before - {listed[0]};
          (PutOrDrop(m, key, SetValue(after), after == {}), Ok(Some(listed[0])))
      case _ => (m, Err(WrongType))
  }

  function ZSetAt(m: Store, key: Bytes): ZSet {
    if key in m && m[key].value.SortedSetValue? then m[key].value.zset else EMPTY
  }

  function ZAddIn(m: Store, key: Bytes, pairs: seq<(Score, Bytes)>): (Store, Outcome<nat>) {
    if key in m && !m[key].value.SortedSetValue? then (m, Err(WrongType))
    else
      var z := ZSetAt(m, key);
      (Put(m, key, SortedSetValue(AddAll(z, pairs))), Ok(|Named(pairs) - z.scores.Keys|))
  }

  function ZRemIn(m: Store, key: Bytes, member: Bytes): (Store, Outcome<bool>) {
    if key !in m then (m, Ok(false))
    else
      match m[key].value
      case SortedSetValue(z) =>
        var after := z.Delete(member);
        (PutOrDrop(m, key, SortedSetValue(after), after.scores == map[]), Ok(member in z.scores))
      case _ => (m, Err(WrongType))
  }

  function ZIncrByIn(m: Store, key: Bytes, increment: Score, member: Bytes): (Store, Outcome<Score>) {
    if key in m && !m[key].value.SortedSetValue? then (m, Err(WrongType))
    else
      var z := ZSetAt(m, key);
      match AddScores(if member in z.scores then z.scores[member] else Fin(0.0), increment)
      case Some(score) => (Put(m, key, SortedSetValue(z.Add(score, member))), Ok(score))
      case None => (m, Err(ScoreNaN))
  }

  function HashAt(m: Store, key: Bytes): map<Bytes, Bytes> {
    if key in m && m[key].value.HashValue? then m[key].value.fields else map[]
  }

  function HSetIn(m: Store, key: Bytes, field: Bytes, value: Bytes): (Store, Outcome<bool>) {
    if key in m && !m[key].value.HashValue? then (m, Err(WrongType))
    else
      var fields := HashAt(m, key);
      (Put(m, key, HashValue(fields[field := value])), Ok(field !in fields))
  }

  function HDelIn(m: Store, key: Bytes, field: Bytes): (Store, Outcome<bool>) {
    if key !in m then (m, Ok(false))
    else
      match m[key].value
      case HashValue(fields) =>
        var after := fields - {field};
        (PutOrDrop(m, key, HashValue(after), after == map[]), Ok(field in fields))
      case _ => (m, Err(WrongType))
  }

  function HIncrByIn(m: Store, key: Bytes, field: Bytes, delta: i64): (Store, Outcome<i64>) {
    if key in m && !m[key].value.HashValue? then (m, Err(WrongType))
    else
      var fields := HashAt(m, key);
      match if field in fields then ParseI64(fields[field]) else Some(0)
      case None => (m, Err(NotHashInteger))
      case Some(current) =>
        if InI64(current + delta) then
          (Put(m, key, HashValue(fields[field := PrintInt(current + delta)])), Ok(current + delta))
        else (m, Err(Overflow))
  }

  function ExpireIn(m: Store, key: Bytes, seconds: i64, env: Env): (Store, bool) {
    if key !in m then (m, false)
    else if seconds <= 0 then (m - {key}, true)
    else (m[key := m[key].(expiresAt := env.Deadline(seconds))], true)
  }

  function PersistIn(m: Store, key: Bytes): (Store, bool) {
    if key in m && m[key].expiresAt.Some? then (m[key := m[key].(expiresAt := None)], true) else (m, false)
  }

  function RenameIn(m: Store, key: Bytes, newKey: Bytes): (Store, bool) {
    if key !in m then (m, false) else ((m - {key})[newKey := m[key]], true)
  }

  // --- Replies ---------------------------------------------------------------------------

  const OK: Reply := SimpleReply("OK")

  function Failure(message: Bytes): Reply {
    ErrorReply(Sanitize(message))
  }

  function ReplyOptional(r: Outcome<Option<Bytes>>): (reply: Reply)
    ensures reply.WellFormed() && (reply.ErrorReply? <==> r.Err?)
  {
    match r
    case Ok(Some(value)) => BulkReply(value)
    case Ok(None) => NullReply
    case Err(error) => Failure(error.Text())
  }

  function ReplyArray(r: Outcome<seq<Bytes>>): (reply: Reply)
    ensures reply.WellFormed() && (reply.ErrorReply? <==> r.Err?)
  {
    match r
    case Ok(values) => ArrayReply(Bulks(values))
    case Err(error) => Failure(error.Text())
  }

  function ReplySet(r: Outcome<set<Bytes>>, env: Env): (reply: Reply)
    ensures reply.WellFormed() && (reply.ErrorReply? <==> r.Err?)
  {
    match r
    case Ok(elements) => ArrayReply(Bulks(env.order(elements)))
    case Err(error) => Failure(error.Text())
  }

  function BoolReply(value: bool): Reply {
    IntegerReply(if value then 1 else 0)
  }

  function ReplyBool(r: Outcome<bool>): (reply: Reply)
    ensures reply.WellFormed() && (reply.ErrorReply? <==> r.Err?)
  {
    match r
    case Ok(value) => BoolReply(value)
    case Err(error) => Failure(error.Text())
  }

  function ReplyNumber(r: Outcome<int>): (reply: Reply)
    ensures reply.WellFormed() && (reply.ErrorReply? <==> r.Err?)
  {
    match r
    case Ok(value) => IntegerReply(value)
    case Err(error) => Failure(error.Text())
  }

  function ReplyRank(r: Outcome<Option<nat>>): (reply: Reply)
    ensures reply.WellFormed() && (reply.ErrorReply? <==> r.Err?)
  {
    match r
    case Ok(Some(rank)) => IntegerReply(rank)
    case Ok(None) => NullReply
    case Err(error) => Failure(error.Text())
  }

  function ReplyStatus(r: Outcome<()>): (reply: Reply)
    ensures reply.WellFormed() && (reply.ErrorReply? <==> r.Err?)
  {
    match r
    case Ok(_) => OK
    case Err(error) => Failure(error.Text())
  }

  function ReplyScore(r: Outcome<Score>, fp: FloatText): (reply: Reply)
    ensures reply.WellFormed() && (reply.ErrorReply? <==> r.Err?)
  {
    match r
    case Ok(score) => BulkReply(fp.show(score))
    case Err(error) => Failure(error.Text())
  }

  function InfoText(keys: nat, env: Env): Bytes {
    "# Server\r\nserver_name:redis_clone\r\nuptime_in_seconds:" + Digits(env.uptime)
    + "\r\n\r\n# Clients\r\nconnected_clients:" + Digits(env.clients)
    + "\r\n\r\n# Keyspace\r\nkeys:" + Digits(keys) + "\r\n"
  }

  // --- Every command -----------------------------------------------------------------------

  function ApplyToStrings(cmd: Command, m: Store, env: Env): (Store, Reply)
    requires cmd.OnStrings()
  {
    match cmd
    case Set(key, value, ttl) =>
      var deadline := if ttl.Some? then env.Deadline(ttl.value) else None;
      (m[key := Entry(StringValue(value), deadline)], OK)
    case Get(key) => (m, ReplyOptional(Read(m, key, Ok(None), GetOf)))
    case IncrBy(key, delta) => var (s, r) := IncrByIn(m, key, delta); (s, ReplyNumber(r))
    case Append(key, value) => var (s, r) := AppendIn(m, key, value); (s, ReplyNumber(r))
    case StrLen(key) => (m, ReplyNumber(Read(m, key, Ok(0), StrLenOf)))
    case MGet(keys) => (m, ArrayReply(Nullables(MGet(m, keys))))
    case MSet(pairs) => (MSetIn(m, pairs), OK)
    case SetNx(key, value) => var (s, ok) := SetNxIn(m, key, value); (s, BoolReply(ok))
    case GetSet(key, value) => var (s, r) := GetSetIn(m, key, value); (s, ReplyOptional(r))
  }

  function ApplyToLists(cmd: Command, m: Store): (Store, Reply)
    requires cmd.OnLists()
  {
    match cmd
    case LPush(key, values) => var (s, r) := PushIn(m, key, values, true); (s, ReplyNumber(r))
    case RPush(key, values) => var (s, r) := PushIn(m, key, values, false); (s, ReplyNumber(r))
    case LPop(key) => var (s, r) := PopIn(m, key, true); (s, ReplyOptional(r))
    case RPop(key) => var (s, r) := PopIn(m, key, false); (s, ReplyOptional(r))
    case LRange(key, start, stop) => (m, ReplyArray(Read(m, key, Ok([]), (e: Entry) => LRangeOf(e, start, stop))))
    case LLen(key) => (m, ReplyNumber(Read(m, key, Ok(0), LLenOf)))
    case LIndex(key, index) => (m, ReplyOptional(Read(m, key, Ok(None), (e: Entry) => LIndexOf(e, index))))
    case LSet(key, index, value) => var (s, r) := LSetIn(m, key, index, value); (s, ReplyStatus(r))
  }

  function ApplyToSets(cmd: Command, m: Store, env: Env): (Store, Reply)
    requires cmd.OnSets()
  {
    match cmd
    case SAdd(key, values) => var (s, r) := SAddIn(m, key, values); (s, ReplyNumber(r))
    case SRem(key, values) => var (s, r) := SRemIn(m, key, values); (s, ReplyNumber(r))
    case SMembers(key) => (m, ReplyArray(Read(m, key, Ok([]), (e: Entry) => SMembersOf(e, env))))
    case SIsMember(key, value) => (m, ReplyBool(Read(m, key, Ok(false), (e: Entry) => SIsMemberOf(e, value))))
    case SCard(key) => (m, ReplyNumber(Read(m, key, Ok(0), SCardOf)))
    case SPop(key) => var (s, r) := SPopIn(m, key, env); (s, ReplyOptional(r))
    case SInter(keys) => (m, ReplySet(SInter(m, keys), env))
    case SUnion(keys) => (m, ReplySet(SUnion(m, keys), env))
    case SDiff(keys) => (m, ReplySet(SDiff(m, keys), env))
  }

  function ApplyToSortedSets(cmd: Command, m: Store, fp: FloatText): (Store, Reply)
    requires cmd.OnSortedSets()
  {
    match cmd
    case ZAdd(key, members) => var (s, r) := ZAddIn(m, key, members); (s, ReplyNumber(r))
    case ZRem(key, member) => var (s, r) := ZRemIn(m, key, member); (s, ReplyBool(r))
    case ZRange(key, start, stop, withScores) =>
      if withScores then (m, ReplyArray(Read(m, key, Ok([]), (e: Entry) => ZRangeScoresOf(e, start, stop, fp))))
      else (m, ReplyArray(Read(m, key, Ok([]), (e: Entry) => ZRangeOf(e, start, stop))))
    case ZScore(key, member) => (m, ReplyOptional(Read(m, key, Ok(None), (e: Entry) => ZScoreOf(e, member, fp))))
    case ZCard(key) => (m, ReplyNumber(Read(m, key, Ok(0), ZCardOf)))
    case ZRank(key, member) => (m, ReplyRank(Read(m, key, Ok(None), (e: Entry) => ZRankOf(e, member))))
    case ZIncrBy(key, increment, member) =>
      var (s, r) := ZIncrByIn(m, key, increment, member); (s, ReplyScore(r, fp))
    case ZRangeByScore(key, bounds) =>
      (m, ReplyArray(Read(m, key, Ok([]), (e: Entry) => ZRangeByScoreOf(e, bounds))))
  }

  function ApplyToHashes(cmd: Command, m: Store, env: Env): (Store, Reply)
    requires cmd.OnHashes()
  {
    match cmd
    case HSet(key, field, value) => var (s, r) := HSetIn(m, key, field, value); (s, ReplyBool(r))
    case HGet(key, field) => (m, ReplyOptional(Read(m, key, Ok(None), (e: Entry) => HGetOf(e, field))))
    case HDel(key, field) => var (s, r) := HDelIn(m, key, field); (s, ReplyBool(r))
    case HGetAll(key) => (m, ReplyArray(Read(m, key, Ok([]), (e: Entry) => HGetAllOf(e, env))))
    case HKeys(key) => (m, ReplyArray(Read(m, key, Ok([]), (e: Entry) => HKeysOf(e, env))))
    case HVals(key) => (m, ReplyArray(Read(m, key, Ok([]), (e: Entry) => HValsOf(e, env))))
    case HLen(key) => (m, ReplyNumber(Read(m, key, Ok(0), HLenOf)))
    case HExists(key, field) => (m, ReplyBool(Read(m, key, Ok(false), (e: Entry) => HExistsOf(e, field))))
    case HIncrBy(key, field, delta) => var (s, r) := HIncrByIn(m, key, field, delta); (s, ReplyNumber(r))
  }

  ghost function ApplyToKeys(cmd: Command, m: Store, env: Env): (Store, Reply)
    requires cmd.OnKeys()
  {
    match cmd
    case Del(keys) => (m - ToSet(keys), IntegerReply(|ToSet(keys) * m.Keys|))
    case Exists(keys) => (m, IntegerReply(CountPresent(m, keys)))
    case Type(key) => (m, SimpleReply(Read(m, key, "none", TypeOf)))
    case Keys(pattern) => (m, ArrayReply(Bulks(env.order(MatchingKeys(m, pattern)))))
    case Expire(key, seconds) => var (s, ok) := ExpireIn(m, key, seconds, env); (s, BoolReply(ok))
    case Ttl(key) => (m, IntegerReply(Read(m, key, -2, (e: Entry) => TtlOf(e, env.now))))
    case Persist(key) => var (s, ok) := PersistIn(m, key); (s, BoolReply(ok))
    case Rename(key, newKey) =>
      var (s, ok) := RenameIn(m, key, newKey);
      (s, if ok then OK else Failure("ERR no such key"))
    case DbSize => (m, IntegerReply(|m|))
    case FlushAll => (map[], OK)
  }

  function ApplyToServer(cmd: Command, m: Store, audience: nat, env: Env): (Store, Reply)
    requires cmd.OnServer()
  {
    match cmd
    case Ping(message) => (m, match message case Some(text) => BulkReply(text) case None => SimpleReply("PONG"))
    case Echo(text) => (m, BulkReply(text))
    case Info => (m, BulkReply(InfoText(|m|, env)))
    case Save => (m, match env.saveError case None => OK case Some(cause) => Failure("ERR " + cause))
    case BgSave => (m, SimpleReply("Background saving started"))
    case Publish(channel, payload) => (m, IntegerReply(audience))
  }

  /** The keyspace after a command and its reply. `audience` is the number of
      subscribers a PUBLISH reaches. */
  ghost function Apply(cmd: Command, m: Store, audience: nat, env: Env, fp: FloatText): (Store, Reply) {
    if cmd.OnStrings() then ApplyToStrings(cmd, m, env)
    else if cmd.OnLists() then ApplyToLists(cmd, m)
    else if cmd.OnSets() then ApplyToSets(cmd, m, env)
    else if cmd.OnSortedSets() then ApplyToSortedSets(cmd, m, fp)
    else if cmd.OnHashes() then ApplyToHashes(cmd, m, env)
    else if cmd.OnKeys() then ApplyToKeys(cmd, m, env)
    else ApplyToServer(cmd, m, audience, env)
  }

  // --- What holds of every command -----------------------------------------------------------

  /** An error reply means nothing changed; commands that are not logged change
      nothing, SPOP excepted, which is logged in another form; and the reply is
      a well-formed RESP value whatever the clients stored. */
  ghost predicate Sound(cmd: Command, m: Store, r: (Store, Reply)) {
    && (r.1.ErrorReply? ==> r.0 == m)
    && (!cmd.IsWrite() && !cmd.SPop? ==> r.0 == m)
    && r.1.WellFormed()
  }

  lemma StringsSound(cmd: Command, m: Store, env: Env)
    requires cmd.OnStrings()
    ensures Sound(cmd, m, ApplyToStrings(cmd, m, env))
  {
    hide ReplyOptional, ReplyArray, ReplySet, ReplyBool, ReplyNumber, ReplyRank, ReplyStatus, ReplyScore;
    hide Bulks, Nullables, OneLine;
    FixedTexts();
  }

  lemma ListsSound(cmd: Command, m: Store)
    requires cmd.OnLists()
    ensures Sound(cmd, m, ApplyToLists(cmd, m))
  {
    hide ReplyOptional, ReplyArray, ReplySet, ReplyBool, ReplyNumber, ReplyRank, ReplyStatus, ReplyScore;
  }

  lemma SetsSound(cmd: Command, m: Store, env: Env)
    requires cmd.OnSets()
    ensures Sound(cmd, m, ApplyToSets(cmd, m, env))
  {
    hide ReplyOptional, ReplyArray, ReplySet, ReplyBool, ReplyNumber, ReplyRank, ReplyStatus, ReplyScore;
  }

  lemma SortedSetsSound(cmd: Command, m: Store, fp: FloatText)
    requires cmd.OnSortedSets()
    ensures Sound(cmd, m, ApplyToSortedSets(cmd, m, fp))
  {
    hide ReplyOptional, ReplyArray, ReplySet, ReplyBool, ReplyNumber, ReplyRank, ReplyStatus, ReplyScore;
  }

  lemma HashesSound(cmd: Command, m: Store, env: Env)
    requires cmd.OnHashes()
    ensures Sound(cmd, m, ApplyToHashes(cmd, m, env))
  {
    hide ReplyOptional, ReplyArray, ReplySet, ReplyBool, ReplyNumber, ReplyRank, ReplyStatus, ReplyScore;
  }

  lemma KeysSound(cmd: Command, m: Store, env: Env)
    requires cmd.OnKeys()
    ensures Sound(cmd, m, ApplyToKeys(cmd, m, env))
  {
    hide Bulks, Sanitize, Reply.WellFormed, ToSet, CountPresent, Read, MatchingKeys, TtlOf, TypeOf;
    KeysReplyWellFormed(cmd, m, env);
  }

  lemma FixedTexts()
    ensures OneLine("OK") && OneLine("none") && OneLine("PONG") && OneLine("Background saving started")
  {
  }

  lemma KeysReplyWellFormed(cmd: Command, m: Store, env: Env)
    requires cmd.OnKeys()
    ensures ApplyToKeys(cmd, m, env).1.WellFormed()
  {
    hide Bulks, ToSet, CountPresent, MatchingKeys, TtlOf, ExpireIn, PersistIn, RenameIn, TypeOf, OneLine, Sanitize;
    FixedTexts();
  }

  lemma ServerSound(cmd: Command, m: Store, audience: nat, env: Env)
    requires cmd.OnServer()
    ensures Sound(cmd, m, ApplyToServer(cmd, m, audience, env))
  {
    hide InfoText, Sanitize, OneLine;
    FixedTexts();
  }

  lemma CommandsSound(cmd: Command, m: Store, audience: nat, env: Env, fp: FloatText)
    ensures Sound(cmd, m, Apply(cmd, m, audience, env, fp))
  {
    hide ApplyToStrings, ApplyToLists, ApplyToSets, ApplyToSortedSets, ApplyToHashes, ApplyToKeys, ApplyToServer, Sound;
    if cmd.OnStrings() { StringsSound(cmd, m, env); }
    else if cmd.OnLists() { ListsSound(cmd, m); }
    else if cmd.OnSets() { SetsSound(cmd, m, env); }
    else if cmd.OnSortedSets() { SortedSetsSound(cmd, m, fp); }
    else if cmd.OnHashes() { HashesSound(cmd, m, env); }
    else if cmd.OnKeys() { KeysSound(cmd, m, env); }
    else { ServerSound(cmd, m, audience, env); }
  }
}
