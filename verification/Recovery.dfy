// Crash recovery: what replaying any byte prefix of the append-only log rebuilds.
module Recovery {
  import opened Wrappers
  import opened ByteStrings
  import opened SortedSet
  import opened Resp
  import opened Request
  import opened Commands
  import opened Keyspace
  import opened Dispatch
  import opened PubSubRegistry
  import opened StoreInvariant

  // --- From bytes to entries ------------------------------------------------------

  /** An entry the decoder gives back unchanged. */
  predicate Loggable(entry: seq<Bytes>) {
    entry != [] && Sendable(entry)
  }

  predicate AllLoggable(entries: seq<seq<Bytes>>) {
    forall i :: 0 <= i < |entries| ==> Loggable(entries[i])
  }

  predicate NoneEmpty(entries: seq<seq<Bytes>>) {
    forall i :: 0 <= i < |entries| ==> entries[i] != []
  }

  /** How many entries lie completely within the first k bytes of the log. */
  function Complete(entries: seq<seq<Bytes>>, k: nat): (c: nat)
    ensures c <= |entries|
  {
    if entries == [] || k < |Array(entries[0])| then 0
    else 1 + Complete(entries[1..], k - |Array(entries[0])|)
  }

  /** How many entries a replay of the first k bytes reads: the complete ones up
      to the first that exceeds a limit of the decoder. */
  function Readable(entries: seq<seq<Bytes>>, k: nat): (c: nat)
    ensures c <= Complete(entries, k)
  {
    if entries == [] || k < |Array(entries[0])| || !Sendable(entries[0]) then 0
    else 1 + Readable(entries[1..], k - |Array(entries[0])|)
  }

  /** Replaying a list of entries, counting from i. */
  ghost function ReplayEntries(entries: seq<seq<Bytes>>, s: Store, registry: Registry, i: nat, envs: nat -> Env,
          fp: FloatText): (Store, Registry) {
    if entries == [] then (s, registry)
    else
      var h := Handle(entries[0], Live(s, envs(i).now), registry, envs(i), fp);
      ReplayEntries(entries[1..], h.store, h.registry, i + 1, envs, fp)
  }

  /** Replaying any byte prefix of a log applies exactly the entries that can be
      read from it, in order, and stops there. */
  lemma {:induction false} TornLogReplay(entries: seq<seq<Bytes>>, k: nat, s: Store, registry: Registry, i: nat,
          envs: nat -> Env, fp: FloatText)
    requires NoneEmpty(entries) && k <= |EncodeLog(entries)|
    ensures var c := Readable(entries, k);
            var (s', registry') := ReplayEntries(entries[..c], s, registry, i, envs, fp);
            Replay(EncodeLog(entries)[..k], s, registry, i, envs, fp) == (s', registry', i + c)
  {
    hide Handle, ReadRequest, Sendable, Array;
    var log := EncodeLog(entries)[..k];
    if k == 0 {
      assert log == [] && ReadRequest([]) == EndOfStream by { EmptyLog(); }
      assert entries != [] ==> |Array(entries[0])| > 0 by { if entries != [] { ArrayNonEmpty(entries[0]); } }
    } else {
      var first := Array(entries[0]);
      assert entries[0] != [];
      if k < |first| {
        assert log == first[..k];
        TornRequest(entries[0], k);
      } else {
        var others := EncodeLog(entries[1..])[..k - |first|];
        assert log == first + others;
        RequestRoundTrip(entries[0], others);
        if Sendable(entries[0]) {
          var h := Handle(entries[0], Live(s, envs(i).now), registry, envs(i), fp);
          TornLogReplay(entries[1..], k - |first|, h.store, h.registry, i + 1, envs, fp);
          var c := Readable(entries, k);
          assert entries[..c][0] == entries[0] && entries[..c][1..] == entries[1..][..c - 1];
        }
      }
    }
  }

  /** Every complete entry of a prefix is read exactly when all of them are
      within the limits. */
  lemma {:induction false} ReadableIffLoggable(entries: seq<seq<Bytes>>, k: nat)
    requires NoneEmpty(entries)
    ensures Readable(entries, k) == Complete(entries, k) <==> AllLoggable(entries[..Complete(entries, k)])
  {
    hide Sendable, Array;
    if entries != [] && k >= |Array(entries[0])| {
      assert entries[0] != [];
      var c := Complete(entries, k);
      ReadableIffLoggable(entries[1..], k - |Array(entries[0])|);
      assert entries[1..][..c - 1] == entries[..c][1..];
      AllLoggableSplit(entries[..c]);
    }
  }

  lemma AllLoggableSplit(entries: seq<seq<Bytes>>)
    requires entries != []
    ensures AllLoggable(entries) <==> Loggable(entries[0]) && AllLoggable(entries[1..])
  {
    hide Loggable;
  }

  lemma {:induction false} WholeLogComplete(entries: seq<seq<Bytes>>)
    ensures Complete(entries, |EncodeLog(entries)|) == |entries|
  {
    hide Array;
    if entries != [] {
      WholeLogComplete(entries[1..]);
    }
  }

  /** A whole log is replayed to its end if and only if every entry is within
      the limits; otherwise the first one that is not, and all after it, are lost. */
  lemma WholeLogReplay(entries: seq<seq<Bytes>>, s: Store, registry: Registry, i: nat, envs: nat -> Env, fp: FloatText)
    requires NoneEmpty(entries)
    ensures Replay(EncodeLog(entries), s, registry, i, envs, fp).2 == i + |entries| <==> AllLoggable(entries)
  {
    hide Replay, ReplayEntries, Readable, Complete;
    var n := |EncodeLog(entries)|;
    assert EncodeLog(entries)[..n] == EncodeLog(entries) && entries[..|entries|] == entries;
    TornLogReplay(entries, n, s, registry, i, envs, fp);
    WholeLogComplete(entries);
    ReadableIffLoggable(entries, n);
  }

  lemma EmptyLog()
    ensures ReadRequest([]) == EndOfStream
  {
  }

  lemma ArrayNonEmpty(entry: seq<Bytes>)
    ensures |Array(entry)| > 0
  {
  }

  /** A log can be cut into entries in only one way. */
  lemma {:induction false} LogDecodesUniquely(a: seq<seq<Bytes>>, b: seq<seq<Bytes>>)
    requires AllLoggable(a) && AllLoggable(b) && EncodeLog(a) == EncodeLog(b)
    ensures a == b
  {
    hide Sendable, Array;
    if a == [] || b == [] {
      if a != [] { ArrayNonEmpty(a[0]); }
      if b != [] { ArrayNonEmpty(b[0]); }
    } else {
      assert Loggable(a[0]) && Loggable(b[0]);
      RequestRoundTrip(a[0], EncodeLog(a[1..]));
      RequestRoundTrip(b[0], EncodeLog(b[1..]));
      LogDecodesUniquely(a[1..], b[1..]);
      assert a == [a[0]] + a[1..] && b == [b[0]] + b[1..];
    }
  }

  // --- The same values under other clocks -------------------------------------------

  /** Same keys, same values, and deadlines on the same keys; replay re-bases
      relative deadlines, so their instants differ. */
  ghost predicate SameValues(a: Store, b: Store) {
    && a.Keys == b.Keys
    && forall k <- a :: a[k].value == b[k].value && (a[k].expiresAt.Some? <==> b[k].expiresAt.Some?)
  }

  /** Both clocks can represent the deadline that a command sets, or neither can. */
  predicate SameReach(cmd: Command, m: Store, envA: Env, envB: Env) {
    && (cmd.Set? && cmd.ttl.Some? ==>
          (envA.Deadline(cmd.ttl.value).Some? <==> envB.Deadline(cmd.ttl.value).Some?))
    && (cmd.Expire? && cmd.seconds > 0 && cmd.key in m ==>
          (envA.Deadline(cmd.seconds).Some? <==> envB.Deadline(cmd.seconds).Some?))
  }

  predicate RequestReach(tokens: seq<Bytes>, m: Store, envA: Env, envB: Env, fp: FloatText) {
    Parse(tokens, fp).Ok? ==> SameReach(Parse(tokens, fp).value, m, envA, envB)
  }

  lemma {:induction false} MSetSame(a: Store, b: Store, pairs: seq<(Bytes, Bytes)>)
    requires SameValues(a, b)
    ensures SameValues(MSetIn(a, pairs), MSetIn(b, pairs))
  {
    if pairs != [] {
      MSetSame(a, b, pairs[..|pairs| - 1]);
    }
  }

  lemma IncrBySame(a: Store, b: Store, key: Bytes, delta: i64)
    requires SameValues(a, b)
    ensures SameValues(IncrByIn(a, key, delta).0, IncrByIn(b, key, delta).0)
  {
    hide PrintInt, ParseI64;
  }

  lemma AppendSame(a: Store, b: Store, key: Bytes, suffix: Bytes)
    requires SameValues(a, b)
    ensures SameValues(AppendIn(a, key, suffix).0, AppendIn(b, key, suffix).0)
  {
  }

  lemma SetNxSame(a: Store, b: Store, key: Bytes, value: Bytes)
    requires SameValues(a, b)
    ensures SameValues(SetNxIn(a, key, value).0, SetNxIn(b, key, value).0)
  {
  }

  lemma GetSetSame(a: Store, b: Store, key: Bytes, value: Bytes)
    requires SameValues(a, b)
    ensures SameValues(GetSetIn(a, key, value).0, GetSetIn(b, key, value).0)
  {
  }

  lemma StringsSame(cmd: Command, a: Store, b: Store, envA: Env, envB: Env)
    requires cmd.OnStrings() && cmd.IsWrite() && SameValues(a, b)
    requires SameReach(cmd, a, envA, envB)
    ensures SameValues(ApplyToStrings(cmd, a, envA).0, ApplyToStrings(cmd, b, envB).0)
  {
    hide IncrByIn, AppendIn, SetNxIn, GetSetIn, ReplyOptional, ReplyNumber, Read, Nullables;
    if cmd.MSet? {
      MSetSame(a, b, cmd.pairs);
    } else if cmd.IncrBy? {
      IncrBySame(a, b, cmd.key, cmd.delta);
    } else if cmd.Append? {
      AppendSame(a, b, cmd.key, cmd.value);
    } else if cmd.SetNx? {
      SetNxSame(a, b, cmd.key, cmd.value);
    } else if cmd.GetSet? {
      GetSetSame(a, b, cmd.key, cmd.value);
    }
  }

  // Each single-key write computes its new value from the old value alone.

  lemma PushSame(a: Store, b: Store, key: Bytes, values: seq<Bytes>, front: bool)
    requires SameValues(a, b)
    ensures SameValues(PushIn(a, key, values, front).0, PushIn(b, key, values, front).0)
  {
  }

  lemma PopSame(a: Store, b: Store, key: Bytes, front: bool)
    requires SameValues(a, b)
    ensures SameValues(PopIn(a, key, front).0, PopIn(b, key, front).0)
  {
  }

  lemma LSetSame(a: Store, b: Store, key: Bytes, index: int, value: Bytes)
    requires SameValues(a, b)
    ensures SameValues(LSetIn(a, key, index, value).0, LSetIn(b, key, index, value).0)
  {
  }

  lemma SAddSame(a: Store, b: Store, key: Bytes, values: seq<Bytes>)
    requires SameValues(a, b)
    ensures SameValues(SAddIn(a, key, values).0, SAddIn(b, key, values).0)
  {
  }

  lemma SRemSame(a: Store, b: Store, key: Bytes, values: seq<Bytes>)
    requires SameValues(a, b)
    ensures SameValues(SRemIn(a, key, values).0, SRemIn(b, key, values).0)
  {
  }

  lemma ZAddSame(a: Store, b: Store, key: Bytes, pairs: seq<(Score, Bytes)>)
    requires SameValues(a, b)
    ensures SameValues(ZAddIn(a, key, pairs).0, ZAddIn(b, key, pairs).0)
  {
  }

  lemma ZRemSame(a: Store, b: Store, key: Bytes, member: Bytes)
    requires SameValues(a, b)
    ensures SameValues(ZRemIn(a, key, member).0, ZRemIn(b, key, member).0)
  {
  }

  lemma ZIncrBySame(a: Store, b: Store, key: Bytes, increment: Score, member: Bytes)
    requires SameValues(a, b)
    ensures SameValues(ZIncrByIn(a, key, increment, member).0, ZIncrByIn(b, key, increment, member).0)
  {
  }

  lemma HSetSame(a: Store, b: Store, key: Bytes, field: Bytes, value: Bytes)
    requires SameValues(a, b)
    ensures SameValues(HSetIn(a, key, field, value).0, HSetIn(b, key, field, value).0)
  {
  }

  lemma HDelSame(a: Store, b: Store, key: Bytes, field: Bytes)
    requires SameValues(a, b)
    ensures SameValues(HDelIn(a, key, field).0, HDelIn(b, key, field).0)
  {
  }

  lemma HIncrBySame(a: Store, b: Store, key: Bytes, field: Bytes, delta: i64)
    requires SameValues(a, b)
    ensures SameValues(HIncrByIn(a, key, field, delta).0, HIncrByIn(b, key, field, delta).0)
  {
  }

  lemma ListsSame(cmd: Command, a: Store, b: Store)
    requires cmd.OnLists() && cmd.IsWrite() && SameValues(a, b)
    ensures SameValues(ApplyToLists(cmd, a).0, ApplyToLists(cmd, b).0)
  {
    hide SameValues, PushIn, PopIn, LSetIn, ReplyNumber, ReplyOptional, ReplyStatus, ReplyArray, Read;
    if cmd.LPush? {
      PushSame(a, b, cmd.key, cmd.values, true);
    } else if cmd.RPush? {
      PushSame(a, b, cmd.key, cmd.values, false);
    } else if cmd.LPop? {
      PopSame(a, b, cmd.key, true);
    } else if cmd.RPop? {
      PopSame(a, b, cmd.key, false);
    } else {
      LSetSame(a, b, cmd.key, cmd.index, cmd.value);
    }
  }

  lemma SetsSame(cmd: Command, a: Store, b: Store, envA: Env, envB: Env)
    requires cmd.OnSets() && cmd.IsWrite() && SameValues(a, b)
    ensures SameValues(ApplyToSets(cmd, a, envA).0, ApplyToSets(cmd, b, envB).0)
  {
    hide SameValues, SAddIn, SRemIn, SPopIn, ReplyNumber, ReplyOptional, ReplyArray, ReplyBool, ReplySet, Read;
    if cmd.SAdd? {
      SAddSame(a, b, cmd.key, cmd.values);
    } else {
      SRemSame(a, b, cmd.key, cmd.values);
    }
  }

  lemma SortedSetsSame(cmd: Command, a: Store, b: Store, fp: FloatText)
    requires cmd.OnSortedSets() && cmd.IsWrite() && SameValues(a, b)
    ensures SameValues(ApplyToSortedSets(cmd, a, fp).0, ApplyToSortedSets(cmd, b, fp).0)
  {
    hide SameValues, ZAddIn, ZRemIn, ZIncrByIn, ReplyNumber, ReplyOptional, ReplyArray, ReplyBool, ReplyRank;
    hide ReplyScore, Read;
    if cmd.ZAdd? {
      ZAddSame(a, b, cmd.key, cmd.members);
    } else if cmd.ZRem? {
      ZRemSame(a, b, cmd.key, cmd.member);
    } else {
      ZIncrBySame(a, b, cmd.key, cmd.increment, cmd.member);
    }
  }

  lemma HashesSame(cmd: Command, a: Store, b: Store, envA: Env, envB: Env)
    requires cmd.OnHashes() && cmd.IsWrite() && SameValues(a, b)
    ensures SameValues(ApplyToHashes(cmd, a, envA).0, ApplyToHashes(cmd, b, envB).0)
  {
    hide SameValues, HSetIn, HDelIn, HIncrByIn, ReplyNumber, ReplyOptional, ReplyArray, ReplyBool, Read;
    if cmd.HSet? {
      HSetSame(a, b, cmd.key, cmd.field, cmd.value);
    } else if cmd.HDel? {
      HDelSame(a, b, cmd.key, cmd.field);
    } else {
      HIncrBySame(a, b, cmd.key, cmd.field, cmd.delta);
    }
  }

  lemma DelSame(a: Store, b: Store, keys: seq<Bytes>)
    requires SameValues(a, b)
    ensures SameValues(a - ToSet(keys), b - ToSet(keys))
  {
    hide ToSet;
  }

  lemma SameEmpty()
    ensures SameValues(map[], map[])
  {
  }

  lemma ExpireSame(a: Store, b: Store, key: Bytes, seconds: i64, envA: Env, envB: Env)
    requires SameValues(a, b)
    requires seconds > 0 && key in a ==> (envA.Deadline(seconds).Some? <==> envB.Deadline(seconds).Some?)
    ensures SameValues(ExpireIn(a, key, seconds, envA).0, ExpireIn(b, key, seconds, envB).0)
  {
  }

  lemma PersistSame(a: Store, b: Store, key: Bytes)
    requires SameValues(a, b)
    ensures SameValues(PersistIn(a, key).0, PersistIn(b, key).0)
  {
  }

  lemma RenameSame(a: Store, b: Store, key: Bytes, newKey: Bytes)
    requires SameValues(a, b)
    ensures SameValues(RenameIn(a, key, newKey).0, RenameIn(b, key, newKey).0)
  {
  }

  lemma KeysSame(cmd: Command, a: Store, b: Store, envA: Env, envB: Env)
    requires cmd.OnKeys() && cmd.IsWrite() && SameValues(a, b)
    requires SameReach(cmd, a, envA, envB)
    ensures SameValues(ApplyToKeys(cmd, a, envA).0, ApplyToKeys(cmd, b, envB).0)
  {
    hide SameValues, ExpireIn, PersistIn, RenameIn, Read, MatchingKeys, Bulks, CountPresent, BoolReply;
    if cmd.Del? {
      DelSame(a, b, cmd.keys);
    } else if cmd.FlushAll? {
      SameEmpty();
    } else if cmd.Expire? {
      ExpireSame(a, b, cmd.key, cmd.seconds, envA, envB);
    } else if cmd.Persist? {
      PersistSame(a, b, cmd.key);
    } else if cmd.Rename? {
      RenameSame(a, b, cmd.key, cmd.newKey);
    }
  }

  /** Where one clock can represent the deadline and the other cannot, it shows. */
  lemma ReachShows(cmd: Command, a: Store, b: Store, envA: Env, envB: Env, fp: FloatText)
    requires SameValues(a, b) && !SameReach(cmd, a, envA, envB)
    ensures cmd.OnStrings() ==>
              !SameValues(ApplyToStrings(cmd, a, envA).0, ApplyToStrings(cmd, b, envB).0)
    ensures cmd.OnKeys() ==> !SameValues(ApplyToKeys(cmd, a, envA).0, ApplyToKeys(cmd, b, envB).0)
    ensures cmd.Set? || cmd.Expire?
  {
    hide IncrByIn, AppendIn, SetNxIn, GetSetIn, MSetIn, PersistIn, RenameIn, ReplyOptional, ReplyNumber, Read;
    hide Nullables, MatchingKeys, Bulks, CountPresent, BoolReply;
    if cmd.Set? {
      var after := ApplyToStrings(cmd, a, envA).0;
      assert cmd.key in after;
    } else {
      var after := ApplyToKeys(cmd, a, envA).0;
      assert cmd.key in after;
    }
  }

  /** A logged command has the same effect on stores with the same values,
      whatever the hash iteration order and the other surroundings, exactly when
      the two clocks agree on whether they can represent the deadline it sets. */
  lemma WritesSame(cmd: Command, a: Store, b: Store, audienceA: nat, audienceB: nat, envA: Env, envB: Env,
          fp: FloatText)
    requires cmd.IsWrite() && SameValues(a, b)
    ensures SameValues(Apply(cmd, a, audienceA, envA, fp).0, Apply(cmd, b, audienceB, envB, fp).0)
       <==> SameReach(cmd, a, envA, envB)
  {
    hide ApplyToStrings, ApplyToLists, ApplyToSets, ApplyToSortedSets, ApplyToHashes, ApplyToKeys;
    hide SameValues, SameReach;
    if !SameReach(cmd, a, envA, envB) { ReachShows(cmd, a, b, envA, envB, fp); }
    else if cmd.OnStrings() { StringsSame(cmd, a, b, envA, envB); }
    else if cmd.OnLists() { ListsSame(cmd, a, b); }
    else if cmd.OnSets() { SetsSame(cmd, a, b, envA, envB); }
    else if cmd.OnSortedSets() { SortedSetsSame(cmd, a, b, fp); }
    else if cmd.OnHashes() { HashesSame(cmd, a, b, envA, envB); }
    else { KeysSame(cmd, a, b, envA, envB); }
  }

  // --- SPOP and its logged form ---------------------------------------------------------

  lemma SRemParses(key: Bytes, member: Bytes, fp: FloatText)
    ensures Parse(["SREM", key, member], fp) == Ok(SRem(key, [member]))
  {
    var tokens := ["SREM", key, member];
    assert Upper("SREM") == "SREM";
    assert tokens[1..] == [key, member] && [key, member][1..] == [member];
  }

  /** Popping a member and removing that member leave the same values. */
  lemma PopIsRemove(a: Store, b: Store, key: Bytes, env: Env)
    requires SameValues(a, b) && env.Valid()
    requires SPopIn(a, key, env).1.Ok? && SPopIn(a, key, env).1.value.Some?
    ensures SameValues(SPopIn(a, key, env).0, SRemIn(b, key, [SPopIn(a, key, env).1.value.value]).0)
    ensures SPopIn(a, key, env).1.value.value in SetAt(a, key)
  {
    var before := a[key].value.elements;
    var member := env.order(before)[0];
    assert Enumerates(env.order(before), before);
    assert ToSet([member]) == {member} by { assert [member][0] == member; }
  }

  // --- One request against its log entry --------------------------------------------------

  /** A request either adds no entry and changes nothing, or adds one entry
      which, replayed on a store with the same values, has the same effect,
      unless the clocks disagree on whether a deadline can be represented. */
  lemma RequestAgainstEntry(tokens: seq<Bytes>, m: Store, registry: Registry, env: Env, b: Store,
          registryB: Registry, envB: Env, fp: FloatText)
    requires StoreOk(m, Anything) && env.Valid()
    ensures var h := Handle(tokens, m, registry, env, fp);
            || (h.entries == [] && h.store == m)
            || (&& |h.entries| == 1 && h.entries[0] != []
                && (SameValues(m, b) ==>
                      (SameValues(h.store, Handle(h.entries[0], b, registryB, envB, fp).store)
                       <==> RequestReach(tokens, m, env, envB, fp))))
  {
    hide Apply, Parse, SameValues, SameReach, StoreOk, SPopIn, SRemIn, Deliveries, Env.Valid;
    if tokens == [] || Parse(tokens, fp).Err? {
      return;
    }
    var cmd := Parse(tokens, fp).value;
    var (after, reply) := Apply(cmd, m, Audience(cmd, registry), env, fp);
    CommandsSound(cmd, m, Audience(cmd, registry), env, fp);
    if cmd.SPop? {
      ApplySPop(cmd, m, Audience(cmd, registry), env, fp);
      PopReach(cmd, m, env, envB);
      var popped := SPopIn(m, cmd.key, env).1;
      if popped.Ok? && popped.value.Some? {
        if SameValues(m, b) {
          PoppedEntry(cmd.key, m, env, b, registryB, envB, fp);
        }
      } else {
        PopNothing(m, cmd.key, env, Anything);
      }
    } else if cmd.IsWrite() && !reply.ErrorReply? {
      if SameValues(m, b) {
        WritesSame(cmd, m, b, Audience(cmd, registry), Audience(cmd, registryB), env, envB, fp);
      }
    }
  }

  lemma PopReach(cmd: Command, m: Store, envA: Env, envB: Env)
    requires cmd.SPop?
    ensures SameReach(cmd, m, envA, envB)
  {
  }

  /** What a request logs, if anything, is one write. */
  lemma LoggedIsWrite(tokens: seq<Bytes>, m: Store, registry: Registry, env: Env, fp: FloatText)
    ensures var h := Handle(tokens, m, registry, env, fp);
            || h.entries == []
            || (|h.entries| == 1 && h.entries[0] != []
                && Parse(h.entries[0], fp).Ok? && Parse(h.entries[0], fp).value.IsWrite())
  {
    hide Apply, Parse, SPopIn, Deliveries;
    if tokens != [] && Parse(tokens, fp).Ok? {
      var cmd := Parse(tokens, fp).value;
      if cmd.SPop? && SPopIn(m, cmd.key, env).1.Ok? && SPopIn(m, cmd.key, env).1.value.Some? {
        SRemParses(cmd.key, SPopIn(m, cmd.key, env).1.value.value, fp);
      }
    }
  }

  /** A write handled at one moment on stores with the same values. */
  lemma EntrySame(entry: seq<Bytes>, a: Store, b: Store, registryA: Registry, registryB: Registry, env: Env,
          fp: FloatText)
    requires SameValues(a, b) && entry != []
    requires Parse(entry, fp).Ok? && Parse(entry, fp).value.IsWrite()
    ensures SameValues(Handle(entry, a, registryA, env, fp).store, Handle(entry, b, registryB, env, fp).store)
  {
    hide Apply, Parse, SameValues, Deliveries;
    var cmd := Parse(entry, fp).value;
    WritesSame(cmd, a, b, Audience(cmd, registryA), Audience(cmd, registryB), env, env, fp);
  }

  lemma ApplySRem(key: Bytes, member: Bytes, m: Store, audience: nat, env: Env, fp: FloatText)
    ensures Apply(SRem(key, [member]), m, audience, env, fp).0 == SRemIn(m, key, [member]).0
  {
  }

  lemma PoppedEntry(key: Bytes, m: Store, env: Env, b: Store, registryB: Registry, envB: Env, fp: FloatText)
    requires SameValues(m, b) && env.Valid()
    requires SPopIn(m, key, env).1.Ok? && SPopIn(m, key, env).1.value.Some?
    ensures var entry := ["SREM", key, SPopIn(m, key, env).1.value.value];
            SameValues(SPopIn(m, key, env).0, Handle(entry, b, registryB, envB, fp).store)
  {
    hide Apply, Parse, SPopIn, SRemIn, Deliveries, SameValues;
    var member := SPopIn(m, key, env).1.value.value;
    SRemParses(key, member, fp);
    PopIsRemove(m, b, key, env);
    ApplySRem(key, member, b, 0, envB, fp);
  }

  // --- Whole runs ------------------------------------------------------------------------------

  lemma {:induction false} ReplayEntriesAppend(entries: seq<seq<Bytes>>, entry: seq<Bytes>, s: Store,
          registry: Registry, i: nat, envs: nat -> Env, fp: FloatText)
    ensures var (s', registry') := ReplayEntries(entries, s, registry, i, envs, fp);
            var env := envs(i + |entries|);
            var h := Handle(entry, Live(s', env.now), registry', env, fp);
            ReplayEntries(entries + [entry], s, registry, i, envs, fp) == (h.store, h.registry)
  {
    hide Handle;
    if entries == [] {
      assert entries + [entry] == [entry];
      assert [entry][1..] == [];
    } else {
      var h := Handle(entries[0], Live(s, envs(i).now), registry, envs(i), fp);
      assert (entries + [entry])[1..] == entries[1..] + [entry];
      ReplayEntriesAppend(entries[1..], entry, h.store, h.registry, i + 1, envs, fp);
    }
  }

  ghost function Recovered(entries: seq<seq<Bytes>>, envs: nat -> Env, fp: FloatText): Store {
    ReplayEntries(entries, map[], NEW, 0, envs, fp).0
  }

  lemma SameSymmetric(a: Store, b: Store)
    requires SameValues(a, b)
    ensures SameValues(b, a)
  {
  }

  lemma SameTransitive(a: Store, b: Store, c: Store)
    requires SameValues(a, b) && SameValues(b, c)
    ensures SameValues(a, c)
  {
  }

  /** The request and its log entry do the same to the keyspace, although the
      request no longer sees the keys that have expired by then, while its entry,
      at replay, no longer sees those in `gone`. */
  ghost predicate Blind(j: Journal, e: Event, gone: set<Bytes>, env: Env, fp: FloatText) {
    var h := Handle(e.tokens, Live(j.store, e.env.now), j.registry, e.env, fp);
    SameValues(h.store,
               if h.entries == [] then j.store
               else Handle(h.entries[0], j.store - gone, j.registry, env, fp).store)
  }

  /** The keys of a replay of these entries that have expired by the next one. */
  ghost function GoneAtReplay(entries: seq<seq<Bytes>>, envs: nat -> Env, fp: FloatText): set<Bytes> {
    var s := Recovered(entries, envs, fp);
    s.Keys - Live(s, envs(|entries|).now).Keys
  }

  /** The n-th request of a run is blind to what has expired. */
  ghost predicate BlindAt(events: seq<Event>, n: nat, envs: nat -> Env, fp: FloatText)
    requires n < |events|
  {
    var j := RunAll(events[..n], fp);
    Blind(j, events[n], GoneAtReplay(j.entries, envs, fp), envs(|j.entries|), fp)
  }

  /** After n requests of a run, replaying its log would rebuild its values. */
  ghost predicate RecoversAt(events: seq<Event>, n: nat, envs: nat -> Env, fp: FloatText)
    requires n <= |events|
  {
    var j := RunAll(events[..n], fp);
    SameValues(j.store, Recovered(j.entries, envs, fp))
  }

  /** What the replay of one more entry starts from. */
  lemma GoneIsExpired(a: Store, entries: seq<seq<Bytes>>, envs: nat -> Env, fp: FloatText)
    requires SameValues(a, Recovered(entries, envs, fp))
    ensures SameValues(a - GoneAtReplay(entries, envs, fp),
                       Live(Recovered(entries, envs, fp), envs(|entries|).now))
  {
    hide ReplayEntries;
  }

  /** One more request keeps the log faithful exactly when it is blind. */
  lemma StaysFaithful(j: Journal, e: Event, envs: nat -> Env, fp: FloatText)
    requires SameValues(j.store, Recovered(j.entries, envs, fp))
    ensures SameValues(StepRun(j, e, fp).store, Recovered(StepRun(j, e, fp).entries, envs, fp))
       <==> Blind(j, e, GoneAtReplay(j.entries, envs, fp), envs(|j.entries|), fp)
  {
    hide Handle, SameValues, Live, Parse;
    var gone, env := GoneAtReplay(j.entries, envs, fp), envs(|j.entries|);
    var m := Live(j.store, e.env.now);
    var h := Handle(e.tokens, m, j.registry, e.env, fp);
    var (b, registryB) := ReplayEntries(j.entries, map[], NEW, 0, envs, fp);
    LoggedIsWrite(e.tokens, m, j.registry, e.env, fp);
    var expected, replayed: Store;
    if h.entries == [] {
      assert j.entries + h.entries == j.entries;
      expected, replayed := j.store, b;
    } else {
      var entry := h.entries[0];
      assert h.entries == [entry];
      GoneIsExpired(j.store, j.entries, envs, fp);
      EntrySame(entry, j.store - gone, Live(b, env.now), j.registry, registryB, env, fp);
      ReplayEntriesAppend(j.entries, entry, map[], NEW, 0, envs, fp);
      expected := Handle(entry, j.store - gone, j.registry, env, fp).store;
      replayed := Handle(entry, Live(b, env.now), registryB, env, fp).store;
    }
    SameSymmetric(expected, replayed);
    if SameValues(h.store, expected) {
      SameTransitive(h.store, expected, replayed);
    }
    if SameValues(h.store, replayed) {
      SameTransitive(h.store, replayed, expected);
    }
  }

  /** Exactly when a log stays faithful throughout a run, deadlines and clocks
      whatever they are: after every request, replaying the log would rebuild the
      values of the run, if and only if every request was blind to what had
      expired before it in the run and before its entry at replay. */
  lemma {:induction false} RecoversIff(events: seq<Event>, envs: nat -> Env, fp: FloatText)
    ensures (forall n :: 0 <= n <= |events| ==> RecoversAt(events, n, envs, fp))
       <==> (forall n :: 0 <= n < |events| ==> BlindAt(events, n, envs, fp))
  {
    hide RunAll, Recovered, Blind, GoneAtReplay, SameValues;
    if events == [] {
      StartRecovers(envs, fp);
      assert events[..0] == [];
    } else {
      var n := |events| - 1;
      var front := events[..n];
      RecoversIff(front, envs, fp);
      forall i | 0 <= i <= n ensures RecoversAt(front, i, envs, fp) <==> RecoversAt(events, i, envs, fp) {
        assert front[..i] == events[..i];
      }
      forall i | 0 <= i < n ensures BlindAt(front, i, envs, fp) <==> BlindAt(events, i, envs, fp) {
        assert front[..i] == events[..i];
      }
      if RecoversAt(events, n, envs, fp) {
        LastRecoversIff(events, envs, fp);
      }
    }
  }

  lemma StartRecovers(envs: nat -> Env, fp: FloatText)
    ensures SameValues(RunAll([], fp).store, Recovered(RunAll([], fp).entries, envs, fp))
  {
  }

  lemma LastRecoversIff(events: seq<Event>, envs: nat -> Env, fp: FloatText)
    requires events != [] && RecoversAt(events, |events| - 1, envs, fp)
    ensures RecoversAt(events, |events|, envs, fp) <==> BlindAt(events, |events| - 1, envs, fp)
  {
    hide SameValues, Recovered, Blind, GoneAtReplay, StepRun;
    var n := |events| - 1;
    assert events[..|events|] == events;
    StaysFaithful(RunAll(events[..n], fp), events[n], envs, fp);
  }

  lemma {:induction false} EntriesNonEmpty(events: seq<Event>, fp: FloatText)
    ensures NoneEmpty(RunAll(events, fp).entries)
  {
    hide Handle, Parse;
    if events != [] {
      var n := |events| - 1;
      var j, e := RunAll(events[..n], fp), events[n];
      EntriesNonEmpty(events[..n], fp);
      LoggedIsWrite(e.tokens, Live(j.store, e.env.now), j.registry, e.env, fp);
    }
  }

  lemma {:induction false} EntriesGrow(events: seq<Event>, n: nat, fp: FloatText)
    requires n <= |events|
    ensures RunAll(events[..n], fp).entries <= RunAll(events, fp).entries
    decreases |events| - n
  {
    if n == |events| {
      assert events[..n] == events;
    } else {
      EntriesGrow(events, n + 1, fp);
      assert events[..n + 1][..n] == events[..n];
    }
  }

  /** Crash-consistent recovery. Take any run and any byte prefix of the log it
      wrote. Replaying the prefix applies exactly the entries that can be read
      from it, and the rebuilt keyspace has the values that the run had at every
      point where it had logged that many writes and every request so far was
      blind to what had expired. */
  lemma CrashRecovery(events: seq<Event>, k: nat, envs: nat -> Env, fp: FloatText)
    requires k <= |EncodeLog(RunAll(events, fp).entries)|
    ensures var entries := RunAll(events, fp).entries;
            var (store, _, count) := Replay(EncodeLog(entries)[..k], map[], NEW, 0, envs, fp);
            && count == Readable(entries, k)
            && forall n :: 0 <= n <= |events| && |RunAll(events[..n], fp).entries| == count ==>
                 && (RecoversAt(events, n, envs, fp) <==> SameValues(RunAll(events[..n], fp).store, store))
                 && ((forall i :: 0 <= i < n ==> BlindAt(events, i, envs, fp)) ==>
                       SameValues(RunAll(events[..n], fp).store, store))
  {
    hide RunAll, Replay, SameValues, BlindAt, NoneEmpty, Readable;
    var entries := RunAll(events, fp).entries;
    var c := Readable(entries, k);
    EntriesNonEmpty(events, fp);
    TornLogReplay(entries, k, map[], NEW, 0, envs, fp);
    forall n | 0 <= n <= |events| && |RunAll(events[..n], fp).entries| == c
      ensures RunAll(events[..n], fp).entries == entries[..c]
      ensures (forall i :: 0 <= i < n ==> BlindAt(events, i, envs, fp)) ==> RecoversAt(events, n, envs, fp)
    {
      EntriesGrow(events, n, fp);
      assert RunAll(events[..n], fp).entries == entries[..c];
      if forall i :: 0 <= i < n ==> BlindAt(events, i, envs, fp) {
        BlindSoFar(events, n, envs, fp);
      }
    }
  }

  lemma BlindSoFar(events: seq<Event>, n: nat, envs: nat -> Env, fp: FloatText)
    requires n <= |events| && forall i :: 0 <= i < n ==> BlindAt(events, i, envs, fp)
    ensures RecoversAt(events, n, envs, fp)
  {
    hide RunAll, SameValues, Recovered, Blind, GoneAtReplay;
    var front := events[..n];
    forall i | 0 <= i < n ensures BlindAt(front, i, envs, fp) {
      assert front[..i] == events[..i];
      assert BlindAt(events, i, envs, fp);
    }
    RecoversIff(front, envs, fp);
    assert RecoversAt(front, n, envs, fp);
    assert front[..n] == events[..n];
  }

  // --- Requests that are blind -------------------------------------------------------------

  /** Where nothing has expired, neither in the run nor at replay, a request is
      blind exactly when the two clocks agree on the deadline it sets. */
  lemma CalmIsBlind(j: Journal, e: Event, env: Env, fp: FloatText)
    requires StoreOk(j.store, Anything) && e.env.Valid()
    requires Live(j.store, e.env.now) == j.store
    ensures RequestReach(e.tokens, j.store, e.env, env, fp) ==> Blind(j, e, {}, env, fp)
    ensures Blind(j, e, {}, env, fp) && Handle(e.tokens, j.store, j.registry, e.env, fp).entries != [] ==>
              RequestReach(e.tokens, j.store, e.env, env, fp)
  {
    hide Handle, RequestReach, StoreOk, SameValues;
    SameItself(j.store);
    assert j.store - {} == j.store;
    RequestAgainstEntry(e.tokens, j.store, j.registry, e.env, j.store, j.registry, env, fp);
  }

  /** Nothing has expired when the n-th request runs, nor when its entry is
      replayed, and the clocks agree on the deadline it sets. */
  ghost predicate CalmAt(events: seq<Event>, n: nat, envs: nat -> Env, fp: FloatText)
    requires n < |events|
  {
    var j, e := RunAll(events[..n], fp), events[n];
    && e.env.Valid()
    && Live(j.store, e.env.now) == j.store
    && GoneAtReplay(j.entries, envs, fp) == {}
    && RequestReach(e.tokens, j.store, e.env, envs(|j.entries|), fp)
  }

  /** Replaying the log of a run in which no deadline passes rebuilds its values. */
  lemma ReplayRebuilds(events: seq<Event>, envs: nat -> Env, fp: FloatText)
    requires forall n :: 0 <= n < |events| ==> CalmAt(events, n, envs, fp)
    ensures RecoversAt(events, |events|, envs, fp)
  {
    hide RunAll, RequestReach, Blind, StoreOk, Env.Valid, Live, GoneAtReplay, RecoversAt;
    forall n | 0 <= n < |events| ensures BlindAt(events, n, envs, fp) {
      var j := RunAll(events[..n], fp);
      assert CalmAt(events, n, envs, fp);
      ReachableOk(events[..n], fp, Anything);
      CalmIsBlind(j, events[n], envs(|j.entries|), fp);
    }
    BlindSoFar(events, |events|, envs, fp);
  }

  /** A request that logs nothing is blind exactly when no key has expired. */
  lemma UnloggedBlind(j: Journal, e: Event, gone: set<Bytes>, env: Env, fp: FloatText)
    requires StoreOk(j.store, Anything) && e.env.Valid()
    requires Handle(e.tokens, Live(j.store, e.env.now), j.registry, e.env, fp).entries == []
    ensures Blind(j, e, gone, env, fp) <==> Live(j.store, e.env.now) == j.store
  {
    hide Handle, StoreOk, Env.Valid;
    LiveOk(j.store, e.env.now, Anything);
    UnloggedUnchanged(e.tokens, Live(j.store, e.env.now), j.registry, e.env, fp, Anything);
  }

  lemma SameItself(m: Store)
    ensures SameValues(m, m)
  {
  }

  /** Every number of entries up to the final one was reached at some point. */
  lemma {:induction false} PointOfEntry(events: seq<Event>, c: nat, fp: FloatText) returns (n: nat)
    requires c <= |RunAll(events, fp).entries|
    ensures n <= |events| && |RunAll(events[..n], fp).entries| == c
  {
    hide Parse, Apply;
    if c == |RunAll(events, fp).entries| {
      n := |events|;
      assert events[..n] == events;
    } else {
      var front := events[..|events| - 1];
      n := PointOfEntry(front, c, fp);
      assert front[..n] == events[..n];
    }
  }

  // --- Runs without deadlines ----------------------------------------------------------------

  ghost predicate NoDeadlines(m: Store) {
    forall k <- m :: m[k].expiresAt == None
  }

  predicate SetsNoDeadline(cmd: Command) {
    && (cmd.Set? ==> cmd.ttl == None)
    && (cmd.Expire? ==> cmd.seconds <= 0)
  }

  lemma {:induction false} MSetNoDeadlines(m: Store, pairs: seq<(Bytes, Bytes)>)
    requires NoDeadlines(m)
    ensures NoDeadlines(MSetIn(m, pairs))
  {
    if pairs != [] {
      MSetNoDeadlines(m, pairs[..|pairs| - 1]);
    }
  }

  lemma StringsNoDeadlines(cmd: Command, m: Store, env: Env)
    requires cmd.OnStrings() && NoDeadlines(m) && SetsNoDeadline(cmd)
    ensures NoDeadlines(ApplyToStrings(cmd, m, env).0)
  {
    hide ReplyOptional, ReplyNumber, Read, Nullables;
    if cmd.MSet? {
      MSetNoDeadlines(m, cmd.pairs);
    }
  }

  lemma ListsNoDeadlines(cmd: Command, m: Store)
    requires cmd.OnLists() && NoDeadlines(m) && SetsNoDeadline(cmd)
    ensures NoDeadlines(ApplyToLists(cmd, m).0)
  {
    hide ReplyNumber, ReplyOptional, ReplyStatus, ReplyArray, Read;
  }

  lemma SAddNoDeadlines(m: Store, key: Bytes, values: seq<Bytes>)
    requires NoDeadlines(m)
    ensures NoDeadlines(SAddIn(m, key, values).0)
  {
    hide ToSet;
  }

  lemma SRemNoDeadlines(m: Store, key: Bytes, values: seq<Bytes>)
    requires NoDeadlines(m)
    ensures NoDeadlines(SRemIn(m, key, values).0)
  {
    hide ToSet;
  }

  lemma SPopNoDeadlines(m: Store, key: Bytes, env: Env)
    requires NoDeadlines(m)
    ensures NoDeadlines(SPopIn(m, key, env).0)
  {
  }

  lemma SetsNoDeadlines(cmd: Command, m: Store, env: Env)
    requires cmd.OnSets() && NoDeadlines(m) && SetsNoDeadline(cmd)
    ensures NoDeadlines(ApplyToSets(cmd, m, env).0)
  {
    hide NoDeadlines, SAddIn, SRemIn, SPopIn;
    hide ReplyNumber, ReplyOptional, ReplyArray, ReplyBool, ReplySet, Read;
    if cmd.SAdd? {
      SAddNoDeadlines(m, cmd.key, cmd.values);
    } else if cmd.SRem? {
      SRemNoDeadlines(m, cmd.key, cmd.values);
    } else if cmd.SPop? {
      SPopNoDeadlines(m, cmd.key, env);
    }
  }

  lemma ZAddNoDeadlines(m: Store, key: Bytes, pairs: seq<(Score, Bytes)>)
    requires NoDeadlines(m)
    ensures NoDeadlines(ZAddIn(m, key, pairs).0)
  {
    hide AddAll;
  }

  lemma ZRemNoDeadlines(m: Store, key: Bytes, member: Bytes)
    requires NoDeadlines(m)
    ensures NoDeadlines(ZRemIn(m, key, member).0)
  {
    hide ZSet.Delete;
  }

  lemma ZIncrByNoDeadlines(m: Store, key: Bytes, increment: Score, member: Bytes)
    requires NoDeadlines(m)
    ensures NoDeadlines(ZIncrByIn(m, key, increment, member).0)
  {
    hide ZSet.Add, AddScores;
  }

  lemma SortedSetsNoDeadlines(cmd: Command, m: Store, fp: FloatText)
    requires cmd.OnSortedSets() && NoDeadlines(m) && SetsNoDeadline(cmd)
    ensures NoDeadlines(ApplyToSortedSets(cmd, m, fp).0)
  {
    hide NoDeadlines, ZAddIn, ZRemIn, ZIncrByIn;
    hide ReplyNumber, ReplyOptional, ReplyArray, ReplyBool, ReplyRank, ReplyScore, Read;
    if cmd.ZAdd? {
      ZAddNoDeadlines(m, cmd.key, cmd.members);
    } else if cmd.ZRem? {
      ZRemNoDeadlines(m, cmd.key, cmd.member);
    } else if cmd.ZIncrBy? {
      ZIncrByNoDeadlines(m, cmd.key, cmd.increment, cmd.member);
    }
  }

  lemma HashesNoDeadlines(cmd: Command, m: Store, env: Env)
    requires cmd.OnHashes() && NoDeadlines(m) && SetsNoDeadline(cmd)
    ensures NoDeadlines(ApplyToHashes(cmd, m, env).0)
  {
    hide ReplyNumber, ReplyOptional, ReplyArray, ReplyBool, Read;
  }

  lemma KeysNoDeadlines(cmd: Command, m: Store, env: Env)
    requires cmd.OnKeys() && NoDeadlines(m) && SetsNoDeadline(cmd)
    ensures NoDeadlines(ApplyToKeys(cmd, m, env).0)
  {
    hide Read, MatchingKeys, Bulks, CountPresent, BoolReply, TypeOf, TtlOf, ToSet, Failure;
  }

  lemma CommandNoDeadlines(cmd: Command, m: Store, audience: nat, env: Env, fp: FloatText)
    requires NoDeadlines(m) && SetsNoDeadline(cmd)
    ensures NoDeadlines(Apply(cmd, m, audience, env, fp).0)
  {
    hide ApplyToStrings, ApplyToLists, ApplyToSets, ApplyToSortedSets, ApplyToHashes, ApplyToKeys;
    hide NoDeadlines, SetsNoDeadline;
    if cmd.OnStrings() { StringsNoDeadlines(cmd, m, env); }
    else if cmd.OnLists() { ListsNoDeadlines(cmd, m); }
    else if cmd.OnSets() { SetsNoDeadlines(cmd, m, env); }
    else if cmd.OnSortedSets() { SortedSetsNoDeadlines(cmd, m, fp); }
    else if cmd.OnHashes() { HashesNoDeadlines(cmd, m, env); }
    else if cmd.OnKeys() { KeysNoDeadlines(cmd, m, env); }
  }

  predicate RequestSetsNoDeadline(tokens: seq<Bytes>, fp: FloatText) {
    Parse(tokens, fp).Ok? ==> SetsNoDeadline(Parse(tokens, fp).value)
  }

  /** A run whose requests set no deadline. */
  ghost predicate TtlFreeRun(events: seq<Event>, fp: FloatText) {
    forall n :: 0 <= n < |events| ==>
      events[n].env.Valid() && RequestSetsNoDeadline(events[n].tokens, fp)
  }

  lemma HandleNoDeadlines(tokens: seq<Bytes>, m: Store, registry: Registry, env: Env, fp: FloatText)
    requires NoDeadlines(m) && RequestSetsNoDeadline(tokens, fp)
    ensures var h := Handle(tokens, m, registry, env, fp);
            && NoDeadlines(h.store)
            && (forall i :: 0 <= i < |h.entries| ==> RequestSetsNoDeadline(h.entries[i], fp))
  {
    hide Parse, Apply, SetsNoDeadline, NoDeadlines, SPopIn;
    if tokens != [] && Parse(tokens, fp).Ok? {
      var cmd := Parse(tokens, fp).value;
      CommandNoDeadlines(cmd, m, Audience(cmd, registry), env, fp);
      if cmd.SPop? && SPopIn(m, cmd.key, env).1.Ok? && SPopIn(m, cmd.key, env).1.value.Some? {
        SRemParses(cmd.key, SPopIn(m, cmd.key, env).1.value.value, fp);
        SRemSetsNoDeadline(cmd.key, SPopIn(m, cmd.key, env).1.value.value);
      }
    }
  }

  lemma SRemSetsNoDeadline(key: Bytes, member: Bytes)
    ensures SetsNoDeadline(SRem(key, [member]))
  {
  }

  lemma NoDeadlinesLive(m: Store, now: int)
    requires NoDeadlines(m)
    ensures Live(m, now) == m
  {
  }

  ghost predicate NoneSetsDeadline(entries: seq<seq<Bytes>>, fp: FloatText) {
    forall i :: 0 <= i < |entries| ==> RequestSetsNoDeadline(entries[i], fp)
  }

  lemma {:induction false} RunNoDeadlines(events: seq<Event>, fp: FloatText)
    requires TtlFreeRun(events, fp)
    ensures NoDeadlines(RunAll(events, fp).store) && NoneSetsDeadline(RunAll(events, fp).entries, fp)
  {
    hide Handle, NoDeadlines, RequestSetsNoDeadline;
    if events == [] {
      EmptyNoDeadlines();
    } else {
      var n := |events| - 1;
      var before := RunAll(events[..n], fp);
      RunNoDeadlines(events[..n], fp);
      NoDeadlinesLive(before.store, events[n].env.now);
      HandleNoDeadlines(events[n].tokens, before.store, before.registry, events[n].env, fp);
    }
  }

  lemma EmptyNoDeadlines()
    ensures NoDeadlines(map[])
  {
  }

  lemma {:induction false} ReplayNoDeadlines(entries: seq<seq<Bytes>>, envs: nat -> Env, fp: FloatText)
    requires NoneSetsDeadline(entries, fp)
    ensures NoDeadlines(Recovered(entries, envs, fp))
  {
    hide Handle, NoDeadlines, RequestSetsNoDeadline;
    if entries == [] {
      EmptyNoDeadlines();
    } else {
      var n := |entries| - 1;
      var (s, registry) := ReplayEntries(entries[..n], map[], NEW, 0, envs, fp);
      ReplayNoDeadlines(entries[..n], envs, fp);
      NoDeadlinesLive(s, envs(n).now);
      HandleNoDeadlines(entries[n], s, registry, envs(n), fp);
      ReplayEntriesAppend(entries[..n], entries[n], map[], NEW, 0, envs, fp);
      assert entries[..n] + [entries[n]] == entries;
    }
  }

  lemma NoReachNeeded(tokens: seq<Bytes>, m: Store, envA: Env, envB: Env, fp: FloatText)
    requires RequestSetsNoDeadline(tokens, fp)
    ensures RequestReach(tokens, m, envA, envB, fp)
  {
    hide Parse;
  }

  lemma TtlFreeIsBlind(events: seq<Event>, n: nat, envs: nat -> Env, fp: FloatText)
    requires TtlFreeRun(events, fp) && n < |events|
    ensures BlindAt(events, n, envs, fp)
  {
    hide RunAll, ReplayEntries, Blind, RequestSetsNoDeadline, RequestReach, NoDeadlines, Env.Valid, StoreOk;
    var j, e := RunAll(events[..n], fp), events[n];
    assert TtlFreeRun(events[..n], fp);
    assert RequestSetsNoDeadline(e.tokens, fp) && e.env.Valid();
    RunNoDeadlines(events[..n], fp);
    ReplayNoDeadlines(j.entries, envs, fp);
    NoDeadlinesLive(j.store, e.env.now);
    NoDeadlinesLive(Recovered(j.entries, envs, fp), envs(|j.entries|).now);
    assert GoneAtReplay(j.entries, envs, fp) == {};
    ReachableOk(events[..n], fp, Anything);
    NoReachNeeded(e.tokens, j.store, e.env, envs(|j.entries|), fp);
    CalmIsBlind(j, e, envs(|j.entries|), fp);
  }

  lemma SameWithoutDeadlines(a: Store, b: Store)
    requires NoDeadlines(a) && NoDeadlines(b) && SameValues(a, b)
    ensures a == b
  {
    forall k | k in a ensures a[k] == b[k] {
      assert a[k].expiresAt == b[k].expiresAt;
    }
  }

  /** Exact recovery of runs that set no deadline: any requests whatever, any
      byte prefix of the log, any clocks and hash orders at replay. The replay
      ends in exactly the keyspace the run had after its c-th logged write, c
      being the number of entries that can be read from the prefix, and the run
      did have that many at some point. These are all its complete entries if and
      only if each of them is within the limits of the decoder. */
  lemma ExactRecovery(events: seq<Event>, k: nat, envs: nat -> Env, fp: FloatText)
    requires TtlFreeRun(events, fp)
    requires k <= |EncodeLog(RunAll(events, fp).entries)|
    ensures var entries := RunAll(events, fp).entries;
            var (store, _, count) := Replay(EncodeLog(entries)[..k], map[], NEW, 0, envs, fp);
            && count == Readable(entries, k)
            && (count == Complete(entries, k) <==> AllLoggable(entries[..Complete(entries, k)]))
            && (exists n :: 0 <= n <= |events| && |RunAll(events[..n], fp).entries| == count)
            && forall n :: 0 <= n <= |events| && |RunAll(events[..n], fp).entries| == count ==>
                 RunAll(events[..n], fp).store == store
  {
    hide RunAll, Replay, ReplayEntries, SameValues, NoDeadlines, RequestSetsNoDeadline, AllLoggable, NoneEmpty;
    hide BlindAt, RecoversAt;
    var entries := RunAll(events, fp).entries;
    var c := Readable(entries, k);
    CrashRecovery(events, k, envs, fp);
    EntriesNonEmpty(events, fp);
    TornLogReplay(entries, k, map[], NEW, 0, envs, fp);
    ReadableIffLoggable(entries, k);
    RunNoDeadlines(events, fp);
    var _ := PointOfEntry(events, c, fp);
    ReplayNoDeadlines(entries[..c], envs, fp);
    forall i | 0 <= i < |events| ensures BlindAt(events, i, envs, fp) {
      TtlFreeIsBlind(events, i, envs, fp);
    }
    forall n | 0 <= n <= |events| && |RunAll(events[..n], fp).entries| == c
      ensures RunAll(events[..n], fp).store == Recovered(entries[..c], envs, fp)
    {
      RunNoDeadlines(events[..n], fp);
      SameWithoutDeadlines(RunAll(events[..n], fp).store, Recovered(entries[..c], envs, fp));
    }
  }
}
