// The expiring store (src/database/db.rs). Expired entries stay in `store`
// until something evicts them; every method is proved against the meaning of
// its command on the live entries alone, so an entry that is still present
// after its deadline is never observable.
module Databases {
  import opened Wrappers
  import opened ByteStrings
  import opened Ranges
  import opened SortedSet
  import opened Resp
  import opened Keyspace
  import opened PubSubRegistry

  // --- Lemmas about the live view ---------------------------------------------

  function Evict(s: Store, key: Bytes, now: int): Store {
    if key in s && Expired(s[key], now) then s - {key} else s
  }

  lemma LiveTwice(s: Store, t: int, u: int)
    requires t <= u
    ensures Live(Live(s, t), u) == Live(s, u)
  {
  }

  /** What a client can observe later depends only on what it can observe now. */
  lemma LiveLater(a: Store, b: Store, t: int, u: int)
    requires t <= u && Live(a, t) == Live(b, t)
    ensures Live(a, u) == Live(b, u)
  {
    LiveTwice(a, t, u);
    LiveTwice(b, t, u);
  }

  lemma Swept(s: Store, gone: set<Bytes>, now: int)
    requires forall k :: k in gone <==> k in s && Expired(s[k], now)
    ensures s - gone == Live(s, now)
    ensures gone == s.Keys - Live(s, now).Keys
  {
  }

  lemma ToSetAppend(s: seq<Bytes>, x: Bytes)
    ensures ToSet(s + [x]) == ToSet(s) + {x}
  {
    var t := s + [x];
    assert t[|s|] == x && forall i :: 0 <= i < |s| ==> t[i] == s[i];
    forall y | y in ToSet(s) + {x} ensures y in ToSet(t) {
      if y in ToSet(s) {
        var i :| 0 <= i < |s| && s[i] == y;
        assert t[i] == y;
      }
    }
  }

  lemma ToSetEmpty(s: seq<Bytes>)
    requires s == []
    ensures ToSet(s) == {}
  {
  }

  lemma ToSetPrefix(s: seq<Bytes>, i: nat)
    requires i < |s|
    ensures ToSet(s[..i + 1]) == ToSet(s[..i]) + {s[i]}
  {
    assert s[..i + 1] == s[..i] + [s[i]];
    ToSetAppend(s[..i], s[i]);
  }

  lemma MinusOneMore(m: Store, gone: set<Bytes>, key: Bytes)
    ensures m - (gone + {key}) == m - gone - {key}
    ensures key !in m - gone ==> m - (gone + {key}) == m - gone
  {
  }

  lemma DelOneMore(m: Store, keys: seq<Bytes>, i: nat)
    requires i < |keys|
    ensures m - ToSet(keys[..i + 1]) == m - ToSet(keys[..i]) - {keys[i]}
    ensures keys[i] !in m - ToSet(keys[..i]) ==> m - ToSet(keys[..i + 1]) == m - ToSet(keys[..i])
    ensures |ToSet(keys[..i + 1]) * m.Keys|
         == |ToSet(keys[..i]) * m.Keys| + (if keys[i] in m - ToSet(keys[..i]) then 1 else 0)
  {
    hide ToSet;
    ToSetPrefix(keys, i);
    MeetOneMore(ToSet(keys[..i]), m.Keys, keys[i]);
    MinusOneMore(m, ToSet(keys[..i]), keys[i]);
  }

  /** The loop of SADD: the set with the values added, and how many were new. */
  method InsertAll(before: set<Bytes>, values: seq<Bytes>) returns (elements: set<Bytes>, added: nat)
    ensures elements == before + ToSet(values)
    ensures added == |ToSet(values) - before|
  {
    hide ToSet;
    elements, added := before, 0;
    assert ToSet(values[..0]) == {} by { ToSetEmpty(values[..0]); }
    for i := 0 to |values|
      invariant elements == before + ToSet(values[..i])
      invariant added == |ToSet(values[..i]) - before|
    {
      ToSetPrefix(values, i);
      LessOneMore(ToSet(values[..i]), before, values[i]);
      if values[i] !in elements {
        elements := elements + {values[i]};
        added := added + 1;
      }
    }
    assert values[..|values|] == values;
  }

  /** The loop of SREM: the set without the values, and how many were present. */
  method RemoveAll(before: set<Bytes>, values: seq<Bytes>) returns (elements: set<Bytes>, removed: nat)
    ensures elements == before - ToSet(values)
    ensures removed == |ToSet(values) * before|
  {
    hide ToSet;
    elements, removed := before, 0;
    assert ToSet(values[..0]) == {} by { ToSetEmpty(values[..0]); }
    for i := 0 to |values|
      invariant elements == before - ToSet(values[..i])
      invariant removed == |ToSet(values[..i]) * before|
    {
      ToSetPrefix(values, i);
      MeetOneMore(ToSet(values[..i]), before, values[i]);
      if values[i] in elements {
        elements := elements - {values[i]};
        removed := removed + 1;
      }
    }
    assert values[..|values|] == values;
  }

  class Database {
    var store: Store
    var log: Bytes
    var replaying: bool
    const appendOnly: bool
    const pubsub: PubSub

    /** An empty database; `appendOnly` says whether a log is kept. */
    constructor (appendOnly: bool, log: Bytes)
      ensures store == map[] && this.log == log && !replaying && this.appendOnly == appendOnly
      ensures fresh(pubsub) && pubsub.Contents() == NEW
    {
      store, this.log, replaying := map[], log, false;
      this.appendOnly := appendOnly;
      pubsub := new PubSub();
    }

    // --- Access to one key ----------------------------------------------------

    /** The first phase of `read_entry`, under the shared lock: the answer, and
        whether an expired entry is there to evict. */
    method ReadShared<T>(key: Bytes, absent: T, read: Entry -> T, now: int) returns (r: T, expired: bool)
      ensures r == Read(Live(store, now), key, absent, read)
      ensures expired <==> key in store && Expired(store[key], now)
    {
      if key !in store {
        return absent, false;
      }
      if !Expired(store[key], now) {
        return read(store[key]), false;
      }
      return absent, true;
    }

    /** The second phase, under the exclusive lock: the entry is checked again. */
    method EvictExpired(key: Bytes, now: int)
      modifies `store
      ensures store == Evict(old(store), key, now)
      ensures forall t :: t >= now ==> Live(store, t) == Live(old(store), t)
    {
      if key in store && Expired(store[key], now) {
        store := store - {key};
      }
    }

    /** `read_entry`: a shared read first; eviction only for an expired key. */
    method ReadEntry<T>(key: Bytes, absent: T, read: Entry -> T, now: int) returns (r: T)
      modifies `store
      ensures Live(store, now) == old(Live(store, now))
      ensures r == Read(old(Live(store, now)), key, absent, read)
    {
      var expired;
      r, expired := ReadShared(key, absent, read, now);
      if expired {
        EvictExpired(key, now);
      }
    }

    /** `live_entry`: evicts an expired key, then looks it up. */
    method LiveEntry(key: Bytes, now: int) returns (e: Option<Entry>)
      modifies `store
      ensures Live(store, now) == old(Live(store, now))
      ensures e == if key in Live(store, now) then Some(Live(store, now)[key]) else None
      ensures key in store <==> e.Some?
      ensures e.Some? ==> store[key] == e.value
    {
      if key in store && Expired(store[key], now) {
        store := store - {key};
        return None;
      }
      e := if key in store then Some(store[key]) else None;
    }

    /** The get-or-create accessors: the value at a live key, after creating an
        empty one where there was none. */
    method EntryOrCreate(key: Bytes, initial: Value, now: int) returns (value: Value)
      modifies `store
      ensures key in store && store[key].value == value
      ensures var m := old(Live(store, now));
              if key in m then Live(store, now) == m && value == m[key].value
              else Live(store, now) == Put(m, key, initial) && value == initial
      ensures !Expired(store[key], now)
    {
      if key in store && Expired(store[key], now) {
        store := store - {key};
      }
      if key !in store {
        store := store[key := Entry(initial, None)];
      }
      value := store[key].value;
    }

    /** Assignment through the reference that an accessor returned. */
    method Assign(key: Bytes, value: Value, now: int)
      requires key in store && !Expired(store[key], now)
      modifies `store
      ensures Live(store, now) == Put(old(Live(store, now)), key, value)
      ensures key in store && store[key].value == value
    {
      store := store[key := store[key].(value := value)];
    }

    /** `HashMap::insert`. */
    method Insert(key: Bytes, entry: Entry, now: int)
      modifies `store
      ensures Live(store, now) == Live(old(Live(store, now))[key := entry], now)
      ensures !Expired(entry, now) ==> Live(store, now) == old(Live(store, now))[key := entry]
    {
      store := store[key := entry];
    }

    method Remove(key: Bytes, now: int)
      modifies `store
      ensures Live(store, now) == old(Live(store, now)) - {key}
    {
      store := store - {key};
    }

    // --- Strings ----------------------------------------------------------------

    method Set(key: Bytes, value: Bytes, ttl: Option<u64>, env: Env)
      modifies `store
      ensures var deadline := if ttl.Some? then env.Deadline(ttl.value) else None;
              Live(store, env.now)
              == Live(old(Live(store, env.now))[key := Entry(StringValue(value), deadline)], env.now)
    {
      var expiresAt := match ttl case Some(seconds) => env.Deadline(seconds) case None => None;
      Insert(key, Entry(StringValue(value), expiresAt), env.now);
    }

    method IncrBy(key: Bytes, delta: i64, now: int) returns (r: Outcome<i64>)
      modifies `store
      ensures (Live(store, now), r) == IncrByIn(old(Live(store, now)), key, delta)
    {
      PrintParse(0);
      ghost var m := Live(store, now);
      var current := EntryOrCreate(key, StringValue(PrintInt(0)), now);
      if !current.StringValue? {
        return Err(WrongType);
      }
      var value := ParseI64(current.text);
      if value == None {
        return Err(NotInteger);
      }
      var next := value.value + delta;
      if !InI64(next) {
        return Err(Overflow);
      }
      Assign(key, StringValue(PrintInt(next)), now);
      assert Live(store, now) == Put(m, key, StringValue(PrintInt(next)));
      r := Ok(next);
    }

    method Append(key: Bytes, suffix: Bytes, now: int) returns (r: Outcome<nat>)
      modifies `store
      ensures (Live(store, now), r) == AppendIn(old(Live(store, now)), key, suffix)
    {
      ghost var m := Live(store, now);
      var current := EntryOrCreate(key, StringValue([]), now);
      if !current.StringValue? {
        return Err(WrongType);
      }
      var text := current.text + suffix;
      Assign(key, StringValue(text), now);
      assert [] + suffix == suffix;
      assert Live(store, now) == Put(m, key, StringValue(text));
      r := Ok(|text|);
    }

    method MSet(pairs: seq<(Bytes, Bytes)>, now: int)
      modifies `store
      ensures Live(store, now) == MSetIn(old(Live(store, now)), pairs)
    {
      for i := 0 to |pairs|
        invariant Live(store, now) == MSetIn(old(Live(store, now)), pairs[..i])
      {
        assert pairs[..i + 1][..i] == pairs[..i];
        Insert(pairs[i].0, Entry(StringValue(pairs[i].1), None), now);
      }
      assert pairs[..|pairs|] == pairs;
    }

    method SetNx(key: Bytes, value: Bytes, now: int) returns (ok: bool)
      modifies `store
      ensures (Live(store, now), ok) == SetNxIn(old(Live(store, now)), key, value)
    {
      var entry := LiveEntry(key, now);
      if entry.Some? {
        return false;
      }
      Insert(key, Entry(StringValue(value), None), now);
      ok := true;
    }

    method GetSet(key: Bytes, value: Bytes, now: int) returns (r: Outcome<Option<Bytes>>)
      modifies `store
      ensures (Live(store, now), r) == GetSetIn(old(Live(store, now)), key, value)
    {
      var entry := LiveEntry(key, now);
      var previous := None;
      if entry.Some? {
        if !entry.value.value.StringValue? {
          return Err(WrongType);
        }
        previous := Some(entry.value.value.text);
      }
      Insert(key, Entry(StringValue(value), None), now);
      r := Ok(previous);
    }

    method Del(keys: seq<Bytes>, now: int) returns (removed: nat)
      modifies `store
      ensures Live(store, now) == old(Live(store, now)) - ToSet(keys)
      ensures removed == |ToSet(keys) * old(Live(store, now)).Keys|
    {
      removed := 0;
      ghost var m := Live(store, now);
      assert m - ToSet(keys[..0]) == m;
      for i := 0 to |keys|
        invariant Live(store, now) == m - ToSet(keys[..i])
        invariant removed == |ToSet(keys[..i]) * m.Keys|
      {
        DelOneMore(m, keys, i);
        var entry := LiveEntry(keys[i], now);
        if entry.Some? {
          Remove(keys[i], now);
          removed := removed + 1;
        }
      }
      assert keys[..|keys|] == keys;
    }

    method CountExisting(keys: seq<Bytes>, now: int) returns (count: nat)
      ensures count == CountPresent(Live(store, now), keys)
    {
      count := 0;
      for i := 0 to |keys|
        invariant count == CountPresent(Live(store, now), keys[..i])
      {
        assert keys[..i + 1][..i] == keys[..i];
        if keys[i] in store && !Expired(store[keys[i]], now) {
          count := count + 1;
        }
      }
      assert keys[..|keys|] == keys;
    }

    method MGet(keys: seq<Bytes>, now: int) returns (values: seq<Option<Bytes>>)
      ensures values == Keyspace.MGet(Live(store, now), keys)
    {
      values := [];
      for i := 0 to |keys|
        invariant |values| == i
        invariant forall j :: 0 <= j < i ==> values[j] == Keyspace.MGet(Live(store, now), keys)[j]
      {
        var value := None;
        if keys[i] in store && !Expired(store[keys[i]], now) {
          match store[keys[i]].value {
            case StringValue(text) => value := Some(text);
            case _ =>
          }
        }
        values := values + [value];
      }
    }

    // --- Lists --------------------------------------------------------------------

    method Push(key: Bytes, values: seq<Bytes>, front: bool, now: int) returns (r: Outcome<nat>)
      modifies `store
      ensures (Live(store, now), r) == PushIn(old(Live(store, now)), key, values, front)
    {
      ghost var m := Live(store, now);
      var current := EntryOrCreate(key, ListValue([]), now);
      if !current.ListValue? {
        return Err(WrongType);
      }
      var list := new RList.Of(current.items);
      if front {
        PushAllFront(list, values);
      } else {
        PushAllBack(list, values);
      }
      Assign(key, ListValue(list.list), now);
      assert Live(store, now) == Put(m, key, ListValue(list.list));
      r := Ok(|list.list|);
    }

    method Pop(key: Bytes, front: bool, now: int) returns (r: Outcome<Option<Bytes>>)
      modifies `store
      ensures (Live(store, now), r) == PopIn(old(Live(store, now)), key, front)
    {
      ghost var m := Live(store, now);
      var entry := LiveEntry(key, now);
      if entry == None {
        return Ok(None);
      }
      if !entry.value.value.ListValue? {
        return Err(WrongType);
      }
      var list := new RList.Of(entry.value.value.items);
      var popped: Option<Bytes>;
      if front {
        popped := list.LPop();
      } else {
        popped := list.RPop();
      }
      Assign(key, ListValue(list.list), now);
      if list.list == [] {
        Remove(key, now);
        assert Live(store, now) == m - {key};
      }
      r := Ok(popped);
    }

    method LSet(key: Bytes, index: int, value: Bytes, now: int) returns (r: Outcome<()>)
      modifies `store
      ensures (Live(store, now), r) == LSetIn(old(Live(store, now)), key, index, value)
    {
      var entry := LiveEntry(key, now);
      if entry == None {
        return Err(NoSuchKey);
      }
      if !entry.value.value.ListValue? {
        return Err(WrongType);
      }
      var list := new RList.Of(entry.value.value.items);
      ghost var before := list.list;
      var ok := list.LSet(index, value);
      if !ok {
        return Err(IndexOutOfRange);
      }
      ghost var at := NormalizeIndex(index, |before|).value;
      assert list.list == before[at := value];
      Assign(key, ListValue(list.list), now);
      r := Ok(());
    }

    // --- Sets -----------------------------------------------------------------------

    method SAdd(key: Bytes, values: seq<Bytes>, now: int) returns (r: Outcome<nat>)
      modifies `store
      ensures (Live(store, now), r) == SAddIn(old(Live(store, now)), key, values)
    {
      ghost var m := Live(store, now);
      var current := EntryOrCreate(key, SetValue({}), now);
      if !current.SetValue? {
        return Err(WrongType);
      }
      var elements, added := InsertAll(current.elements, values);
      Assign(key, SetValue(elements), now);
      assert Live(store, now) == Put(m, key, SetValue(elements));
      r := Ok(added);
    }

    method SRem(key: Bytes, values: seq<Bytes>, now: int) returns (r: Outcome<nat>)
      modifies `store
      ensures (Live(store, now), r) == SRemIn(old(Live(store, now)), key, values)
    {
      ghost var m := Live(store, now);
      var entry := LiveEntry(key, now);
      if entry == None {
        return Ok(0);
      }
      if !entry.value.value.SetValue? {
        return Err(WrongType);
      }
      var elements, removed := RemoveAll(entry.value.value.elements, values);
      Assign(key, SetValue(elements), now);
      if elements == {} {
        Remove(key, now);
        assert Live(store, now) == m - {key};
      }
      r := Ok(removed);
    }

    /** Removes an arbitrary member: the first in iteration order. */
    method SPop(key: Bytes, env: Env) returns (r: Outcome<Option<Bytes>>)
      modifies `store
      ensures (Live(store, env.now), r) == SPopIn(old(Live(store, env.now)), key, env)
    {
      ghost var m := Live(store, env.now);
      var entry := LiveEntry(key, env.now);
      if entry == None {
        return Ok(None);
      }
      if !entry.value.value.SetValue? {
        return Err(WrongType);
      }
      var elements := entry.value.value.elements;
      var listed := env.order(elements);
      var popped := None;
      if listed != [] {
        elements := elements - {listed[0]};
        popped := Some(listed[0]);
      }
      Assign(key, SetValue(elements), env.now);
      if elements == {} {
        Remove(key, env.now);
        assert Live(store, env.now) == m - {key};
      }
      r := Ok(popped);
    }

    /** `set_members_of`. */
    method SetMembersOf(key: Bytes, now: int) returns (r: Outcome<set<Bytes>>)
      ensures r == if AllSets(Live(store, now), [key]) then Ok(SetAt(Live(store, now), key)) else Err(WrongType)
    {
      assert [key][0] == key;
      if key in store && !Expired(store[key], now) {
        match store[key].value {
          case SetValue(elements) => return Ok(elements);
          case _ => return Err(WrongType);
        }
      }
      r := Ok({});
    }

    method SInter(keys: seq<Bytes>, now: int) returns (r: Outcome<set<Bytes>>)
      ensures r == Keyspace.SInter(Live(store, now), keys)
    {
      if keys == [] {
        return Ok({});
      }
      ghost var m := Live(store, now);
      var first := SetMembersOf(keys[0], now);
      assert [keys[0]][0] == keys[0];
      if first.Err? {
        return first;
      }
      var result := first.value;
      for i := 1 to |keys|
        invariant AllSets(m, keys[..i])
        invariant result == set x | x in SetAt(m, keys[0]) && forall j :: 0 <= j < i ==> x in SetAt(m, keys[j])
      {
        var other := SetMembersOf(keys[i], now);
        assert [keys[i]][0] == keys[i];
        if other.Err? {
          return other;
        }
        result := set x | x in result && x in other.value;
      }
      assert keys[..|keys|] == keys;
      r := Ok(result);
    }

    method SUnion(keys: seq<Bytes>, now: int) returns (r: Outcome<set<Bytes>>)
      ensures r == Keyspace.SUnion(Live(store, now), keys)
    {
      ghost var m := Live(store, now);
      var result := {};
      for i := 0 to |keys|
        invariant AllSets(m, keys[..i])
        invariant result == set j, x | 0 <= j < i && x in SetAt(m, keys[j]) :: x
      {
        var other := SetMembersOf(keys[i], now);
        assert [keys[i]][0] == keys[i];
        if other.Err? {
          return other;
        }
        result := result + other.value;
      }
      assert keys[..|keys|] == keys;
      r := Ok(result);
    }

    method SDiff(keys: seq<Bytes>, now: int) returns (r: Outcome<set<Bytes>>)
      ensures r == Keyspace.SDiff(Live(store, now), keys)
    {
      if keys == [] {
        return Ok({});
      }
      ghost var m := Live(store, now);
      var first := SetMembersOf(keys[0], now);
      assert [keys[0]][0] == keys[0];
      if first.Err? {
        return first;
      }
      var result := first.value;
      for i := 1 to |keys|
        invariant AllSets(m, keys[..i])
        invariant result == set x | x in SetAt(m, keys[0]) && forall j :: 1 <= j < i ==> x !in SetAt(m, keys[j])
      {
        var other := SetMembersOf(keys[i], now);
        assert [keys[i]][0] == keys[i];
        if other.Err? {
          return other;
        }
        result := result - other.value;
      }
      assert keys[..|keys|] == keys;
      r := Ok(result);
    }

    // --- Sorted sets ------------------------------------------------------------------

    method ZAdd(key: Bytes, pairs: seq<(Score, Bytes)>, now: int) returns (r: Outcome<nat>)
      modifies `store
      ensures (Live(store, now), r) == ZAddIn(old(Live(store, now)), key, pairs)
    {
      hide AddAll, Live;
      ghost var m := Live(store, now);
      var current := EntryOrCreate(key, SortedSetValue(EMPTY), now);
      if !current.SortedSetValue? {
        return Err(WrongType);
      }
      var zset := new RSortedSet.Of(current.zset);
      var added := AddPairs(zset, pairs);
      Assign(key, SortedSetValue(zset.Contents()), now);
      assert Live(store, now) == Put(m, key, SortedSetValue(zset.Contents()));
      r := Ok(added);
    }

    method ZRem(key: Bytes, member: Bytes, now: int) returns (r: Outcome<bool>)
      modifies `store
      ensures (Live(store, now), r) == ZRemIn(old(Live(store, now)), key, member)
    {
      ghost var m := Live(store, now);
      var entry := LiveEntry(key, now);
      if entry == None {
        return Ok(false);
      }
      if !entry.value.value.SortedSetValue? {
        return Err(WrongType);
      }
      var zset := new RSortedSet.Of(entry.value.value.zset);
      var removed := zset.ZRem(member);
      Assign(key, SortedSetValue(zset.Contents()), now);
      if zset.members == map[] {
        Remove(key, now);
        assert Live(store, now) == m - {key};
      }
      r := Ok(removed);
    }

    method ZIncrBy(key: Bytes, increment: Score, member: Bytes, now: int) returns (r: Outcome<Score>)
      modifies `store
      ensures (Live(store, now), r) == ZIncrByIn(old(Live(store, now)), key, increment, member)
    {
      ghost var m := Live(store, now);
      var current := EntryOrCreate(key, SortedSetValue(EMPTY), now);
      if !current.SortedSetValue? {
        return Err(WrongType);
      }
      var zset := new RSortedSet.Of(current.zset);
      var newScore := AddScores(if member in zset.members then zset.members[member] else Fin(0.0), increment);
      if newScore == None {
        return Err(ScoreNaN);
      }
      var _ := zset.ZAdd(newScore.value, member);
      Assign(key, SortedSetValue(zset.Contents()), now);
      assert Live(store, now) == Put(m, key, SortedSetValue(zset.Contents()));
      r := Ok(newScore.value);
    }

    // --- Hashes -------------------------------------------------------------------------

    method HSet(key: Bytes, field: Bytes, value: Bytes, now: int) returns (r: Outcome<bool>)
      modifies `store
      ensures (Live(store, now), r) == HSetIn(old(Live(store, now)), key, field, value)
    {
      ghost var m := Live(store, now);
      var current := EntryOrCreate(key, HashValue(map[]), now);
      if !current.HashValue? {
        return Err(WrongType);
      }
      var fields := current.fields[field := value];
      Assign(key, HashValue(fields), now);
      assert Live(store, now) == Put(m, key, HashValue(fields));
      r := Ok(field !in current.fields);
    }

    method HDel(key: Bytes, field: Bytes, now: int) returns (r: Outcome<bool>)
      modifies `store
      ensures (Live(store, now), r) == HDelIn(old(Live(store, now)), key, field)
    {
      ghost var m := Live(store, now);
      var entry := LiveEntry(key, now);
      if entry == None {
        return Ok(false);
      }
      if !entry.value.value.HashValue? {
        return Err(WrongType);
      }
      var fields := entry.value.value.fields - {field};
      Assign(key, HashValue(fields), now);
      if fields == map[] {
        Remove(key, now);
        assert Live(store, now) == m - {key};
      }
      r := Ok(field in entry.value.value.fields);
    }

    method HIncrBy(key: Bytes, field: Bytes, delta: i64, now: int) returns (r: Outcome<i64>)
      modifies `store
      ensures (Live(store, now), r) == HIncrByIn(old(Live(store, now)), key, field, delta)
    {
      ghost var m := Live(store, now);
      var current := EntryOrCreate(key, HashValue(map[]), now);
      if !current.HashValue? {
        return Err(WrongType);
      }
      var value := Some(0);
      if field in current.fields {
        value := ParseI64(current.fields[field]);
        if value == None {
          return Err(NotHashInteger);
        }
      }
      var next := value.value + delta;
      if !InI64(next) {
        return Err(Overflow);
      }
      var fields := current.fields[field := PrintInt(next)];
      Assign(key, HashValue(fields), now);
      assert Live(store, now) == Put(m, key, HashValue(fields));
      r := Ok(next);
    }

    // --- Generic key operations ---------------------------------------------------------

    /** The live keys that match the pattern. */
    method MatchingKeys(pattern: Bytes, now: int) returns (found: set<Bytes>)
      ensures found == Keyspace.MatchingKeys(Live(store, now), pattern)
    {
      found := {};
      var todo := store.Keys;
      while todo != {}
        invariant todo <= store.Keys
        invariant found == Keyspace.MatchingKeys(Live(store, now), pattern) - todo
        decreases todo
      {
        var key :| key in todo;
        if !Expired(store[key], now) {
          var matched := Glob.GlobMatch(pattern, key);
          if matched {
            found := found + {key};
          }
        }
        todo := todo - {key};
      }
    }

    method Expire(key: Bytes, seconds: i64, env: Env) returns (ok: bool)
      modifies `store
      ensures (Live(store, env.now), ok) == ExpireIn(old(Live(store, env.now)), key, seconds, env)
    {
      var entry := LiveEntry(key, env.now);
      if entry == None {
        return false;
      }
      if seconds <= 0 {
        Remove(key, env.now);
      } else {
        Insert(key, store[key].(expiresAt := env.Deadline(seconds)), env.now);
      }
      ok := true;
    }

    method Persist(key: Bytes, now: int) returns (ok: bool)
      modifies `store
      ensures (Live(store, now), ok) == PersistIn(old(Live(store, now)), key)
    {
      var entry := LiveEntry(key, now);
      if entry.Some? && entry.value.expiresAt.Some? {
        Insert(key, store[key].(expiresAt := None), now);
        return true;
      }
      ok := false;
    }

    method Rename(key: Bytes, newKey: Bytes, now: int) returns (ok: bool)
      modifies `store
      ensures (Live(store, now), ok) == RenameIn(old(Live(store, now)), key, newKey)
    {
      var found := LiveEntry(key, now);
      if found == None {
        return false;
      }
      var entry := store[key];
      Remove(key, now);
      Insert(newKey, entry, now);
      ok := true;
    }

    method FlushAll()
      modifies `store
      ensures store == map[]
    {
      store := map[];
    }

    /** Evicts every expired key. Nothing a client can observe changes, at this
        moment or later. */
    method SweepExpired(now: int) returns (removed: nat)
      modifies `store
      ensures forall t :: t >= now ==> Live(store, t) == Live(old(store), t)
      ensures store == Live(old(store), now)
      ensures removed == |old(store).Keys - Live(old(store), now).Keys|
    {
      var gone := set k | k in store && Expired(store[k], now);
      Swept(store, gone, now);
      hide Live;
      forall t | t >= now ensures Live(Live(store, now), t) == Live(store, t) {
        LiveTwice(store, now, t);
      }
      store := store - gone;
      removed := |gone|;
    }

    // --- The append-only log --------------------------------------------------------------

    /** `log_write`: appends one entry, unless there is no log or it is being replayed. */
    method LogWrite(tokens: seq<Bytes>)
      modifies `log
      ensures log == old(log) + (if appendOnly && !replaying then Array(tokens) else [])
    {
      if replaying {
        return;
      }
      if appendOnly {
        var payload := EncodeArray(tokens);
        log := log + payload;
      }
    }

    method BeginReplay()
      modifies `replaying
      ensures replaying
    {
      replaying := true;
    }

    method EndReplay()
      modifies `replaying
      ensures !replaying
    {
      replaying := false;
    }
  }
}
