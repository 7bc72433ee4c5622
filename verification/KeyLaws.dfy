// What the commands on keys of any type and on the server do, from the keyspace
// to the value the client decodes (src/command/mod.rs, src/database/db.rs).
module KeyLaws {
  import opened Wrappers
  import opened ByteStrings
  import opened Resp
  import opened Commands
  import opened Keyspace
  import opened ClientView
  import Glob

  /** DEL removes the keys named, and counts each that was there once. */
  lemma DelLaw(v: View, keys: seq<Bytes>)
    ensures v.Runs(Del(keys), map k | k in v.m && k !in keys :: v.m[k],
                   IntegerReply(|set k | k in v.m && k in keys|))
  {
    hide View.Runs, ToSet;
    Performs(v, Del(keys));
    Removed(v.m, keys);
  }

  lemma Removed(m: Store, keys: seq<Bytes>)
    ensures ToSet(keys) * m.Keys == set k | k in m && k in keys
    ensures m - ToSet(keys) == map k | k in m && k !in keys :: m[k]
  {
    assert forall k :: k in ToSet(keys) <==> k in keys;
  }

  /** The positions of the list before the n-th that name a key. */
  function Positions(m: Store, keys: seq<Bytes>, n: nat): set<nat>
    requires n <= |keys|
  {
    set i: nat | i < n && keys[i] in m
  }

  /** EXISTS counts a key as often as it is named. */
  lemma ExistsLaw(v: View, keys: seq<Bytes>)
    ensures v.Answers(Exists(keys), IntegerReply(|Positions(v.m, keys, |keys|)|))
  {
    hide View.Runs;
    Performs(v, Exists(keys));
    PresentPositions(v.m, keys, |keys|);
    assert keys[..|keys|] == keys;
  }

  lemma {:induction false} PresentPositions(m: Store, keys: seq<Bytes>, n: nat)
    requires n <= |keys|
    ensures CountPresent(m, keys[..n]) == |Positions(m, keys, n)|
  {
    if n == 0 {
      assert Positions(m, keys, n) == {};
    } else {
      PresentPositions(m, keys, n - 1);
      assert keys[..n][..n - 1] == keys[..n - 1];
      assert Positions(m, keys, n) == Positions(m, keys, n - 1) + if keys[n - 1] in m then {n - 1} else {};
    }
  }

  lemma TypeLaw(v: View, key: Bytes)
    ensures v.Answers(Type(key), SimpleReply(
              if key !in v.m then "none"
              else match v.m[key].value
                case StringValue(_) => "string"
                case ListValue(_) => "list"
                case SetValue(_) => "set"
                case HashValue(_) => "hash"
                case SortedSetValue(_) => "zset"))
  {
    hide View.Runs;
    Performs(v, Type(key));
  }

  /** KEYS lists once each key that the pattern matches. */
  lemma KeysLaw(v: View, pattern: Bytes)
    requires v.env.Valid()
    ensures exists names :: Enumerates(names, set k | k in v.m && Glob.GlobMatches(pattern, k))
              && v.Answers(Keys(pattern), Listed(names))
  {
    hide View.Runs, Listed;
    Performs(v, Keys(pattern));
    var names := v.env.order(MatchingKeys(v.m, pattern));
    BulksAreListed(names);
    assert Enumerates(names, set k | k in v.m && Glob.GlobMatches(pattern, k));
  }

  /** EXPIRE takes the key away at once if the time is not positive, and otherwise
      replaces its deadline; beyond the end of the clock it has none. */
  lemma ExpireLaw(v: View, key: Bytes, seconds: i64)
    ensures key !in v.m ==> v.Answers(Expire(key, seconds), IntegerReply(0))
    ensures key in v.m && seconds <= 0 ==> v.Runs(Expire(key, seconds), v.m - {key}, IntegerReply(1))
    ensures key in v.m && seconds > 0 ==>
              var at := v.env.now + seconds * TICKS;
              var deadline := if at <= v.env.clockMax then Some(at) else None;
              v.Runs(Expire(key, seconds), v.m[key := Entry(v.m[key].value, deadline)], IntegerReply(1))
  {
    hide View.Runs;
    Performs(v, Expire(key, seconds));
  }

  /** TTL answers the whole seconds left until the deadline. */
  lemma TtlLaw(v: View, key: Bytes)
    ensures key !in v.m ==> v.Answers(Ttl(key), IntegerReply(-2))
    ensures key in v.m && v.m[key].expiresAt == None ==> v.Answers(Ttl(key), IntegerReply(-1))
    ensures key in v.m && v.m[key].expiresAt.Some? && v.m[key].expiresAt.value > v.env.now ==>
              exists n: nat :: IsTimeLeft(v, key, n)
  {
    hide View.Runs;
    Performs(v, Ttl(key));
    if key in v.m && v.m[key].expiresAt.Some? && v.m[key].expiresAt.value > v.env.now {
      assert IsTimeLeft(v, key, (v.m[key].expiresAt.value - v.env.now) / TICKS);
    }
  }

  ghost predicate IsTimeLeft(v: View, key: Bytes, n: nat)
    requires key in v.m && v.m[key].expiresAt.Some?
  {
    && n * TICKS <= v.m[key].expiresAt.value - v.env.now < (n + 1) * TICKS
    && v.Answers(Ttl(key), IntegerReply(n))
  }

  lemma PersistLaw(v: View, key: Bytes)
    ensures v.Deadline(key) == None ==> v.Answers(Persist(key), IntegerReply(0))
    ensures v.Deadline(key) != None ==>
              v.Runs(Persist(key), v.m[key := Entry(v.m[key].value, None)], IntegerReply(1))
  {
    hide View.Runs;
    Performs(v, Persist(key));
  }

  /** RENAME moves the entry with its deadline over whatever is at the new key. */
  lemma RenameLaw(v: View, key: Bytes, newKey: Bytes)
    ensures key !in v.m ==> v.Refuses(Rename(key, newKey), NO_SUCH_KEY)
    ensures key in v.m ==> v.Runs(Rename(key, newKey), (v.m - {key})[newKey := v.m[key]], SimpleReply("OK"))
  {
    hide View.Runs;
    Performs(v, Rename(key, newKey));
    NoSuchKeyText();
  }

  lemma KeyspaceLaw(v: View)
    ensures v.Answers(DbSize, IntegerReply(|v.m.Keys|))
    ensures v.Runs(FlushAll, map[], SimpleReply("OK"))
  {
    hide View.Runs;
    Performs(v, DbSize);
    Performs(v, FlushAll);
  }

  lemma EchoLaw(v: View, text: Bytes)
    ensures v.Answers(Ping(None), SimpleReply("PONG"))
    ensures v.Answers(Ping(Some(text)), BulkReply(text))
    ensures v.Answers(Echo(text), BulkReply(text))
  {
    hide View.Runs;
    Performs(v, Ping(None));
    Performs(v, Ping(Some(text)));
    Performs(v, Echo(text));
  }

  /** SAVE answers what writing the file came to; BGSAVE does not wait for it. */
  lemma SaveLaw(v: View, line: Bytes)
    requires v.env.saveError.Some? ==> IsOneLineOf(line, "ERR " + v.env.saveError.value)
    ensures v.env.saveError == None ==> v.Answers(Save, SimpleReply("OK"))
    ensures v.env.saveError != None ==> v.Refuses(Save, line)
    ensures v.Answers(BgSave, SimpleReply("Background saving started"))
  {
    hide View.Runs, Sanitize, IsOneLineOf;
    Performs(v, Save);
    Performs(v, BgSave);
    if v.env.saveError.Some? {
      SanitizedIsOneLine("ERR " + v.env.saveError.value, line);
    }
  }

  /** The line is the text with a space for every line break. */
  predicate IsOneLineOf(line: Bytes, text: Bytes) {
    && |line| == |text|
    && forall i :: 0 <= i < |text| ==>
         (text[i] in "\r\n" ==> line[i] == ' ') && (text[i] !in "\r\n" ==> line[i] == text[i])
  }

  lemma SanitizedIsOneLine(text: Bytes, line: Bytes)
    ensures IsOneLineOf(line, text) <==> line == Sanitize(text)
  {
  }

  predicate IsInfo(text: Bytes, uptime: Bytes, clients: Bytes, keys: Bytes) {
    text == "# Server\r\nserver_name:redis_clone\r\nuptime_in_seconds:" + uptime
            + "\r\n\r\n# Clients\r\nconnected_clients:" + clients
            + "\r\n\r\n# Keyspace\r\nkeys:" + keys + "\r\n"
  }

  /** INFO reports the uptime, the clients and the number of keys. */
  lemma InfoLaw(v: View) returns (text: Bytes, uptime: Bytes, clients: Bytes, keys: Bytes)
    ensures v.Answers(Info, BulkReply(text)) && IsInfo(text, uptime, clients, keys)
    ensures ParseInt(uptime) == Some(v.env.uptime) && ParseInt(clients) == Some(v.env.clients)
    ensures ParseInt(keys) == Some(|v.m|)
  {
    hide View.Runs, PrintInt, ParseInt, Digits, InfoText, IsInfo;
    Performs(v, Info);
    uptime, clients, keys := Digits(v.env.uptime), Digits(v.env.clients), Digits(|v.m|);
    text := InfoText(|v.m|, v.env);
    DigitsParse(v.env.uptime);
    DigitsParse(v.env.clients);
    DigitsParse(|v.m|);
    InfoTextIsInfo(|v.m|, v.env);
  }

  lemma InfoTextIsInfo(n: nat, env: Env)
    ensures IsInfo(InfoText(n, env), Digits(env.uptime), Digits(env.clients), Digits(n))
  {
    hide Digits;
  }

  lemma DigitsParse(n: nat)
    ensures ParseInt(Digits(n)) == Some(n)
  {
    PrintParse(n);
  }

  /** PUBLISH answers how many ids the registry lists on the channel. */
  lemma PublishLaw(v: View, channel: Bytes, payload: Bytes)
    ensures var channels := v.registry.channels;
            v.Answers(Publish(channel, payload),
                      IntegerReply(if channel in channels then |channels[channel]| else 0))
  {
    hide View.Runs;
    Performs(v, Publish(channel, payload));
  }
}
