// Which runs leave a log that can be read to its end: the decoder bounds what it
// reads back, while inline requests are bounded by nothing.
module LogLimits {
  import opened Wrappers
  import opened ByteStrings
  import opened Resp
  import opened Request
  import opened Commands
  import opened Keyspace
  import opened Dispatch
  import opened PubSubRegistry
  import opened StoreInvariant
  import opened Recovery

  /** The n-th request of a run added to the log. */
  ghost predicate LoggedAt(events: seq<Event>, n: nat, fp: FloatText)
    requires n < |events|
  {
    RunAll(events[..n], fp).entries != RunAll(events[..n + 1], fp).entries
  }

  /** Every request that was logged was within the limits of the decoder. */
  ghost predicate LoggedWithinLimits(events: seq<Event>, fp: FloatText) {
    forall n :: 0 <= n < |events| && LoggedAt(events, n, fp) ==> Sendable(events[n].tokens)
  }

  lemma SPopKey(tokens: seq<Bytes>, fp: FloatText)
    requires Parse(tokens, fp).Ok? && Parse(tokens, fp).value.SPop?
    ensures |tokens| == 2 && Parse(tokens, fp).value.key == tokens[1] && Upper(tokens[0]) == "SPOP"
  {
    hide ParseNamed, Upper;
  }

  lemma NameSendable(name: Bytes)
    requires Upper(name) == "SPOP"
    ensures TokenSendable(name)
  {
    assert Ascii(name) by {
      forall i | 0 <= i < |name| ensures Within(name[i], 0, 0x7F) {
        assert UpperChar(name[i]) == Upper(name)[i];
      }
    }
    AsciiIsUtf8(name);
  }

  lemma SRemSendable()
    ensures TokenSendable("SREM")
  {
    AsciiIsUtf8("SREM");
  }

  lemma PoppedSendable(m: Store, key: Bytes, env: Env)
    requires StoreOk(m, TokenSendable) && env.Valid()
    requires SPopIn(m, key, env).1.Ok? && SPopIn(m, key, env).1.value.Some?
    ensures TokenSendable(SPopIn(m, key, env).1.value.value)
  {
    hide SPopIn, SRemIn, TokenSendable;
    SameItself(m);
    PopIsRemove(m, m, key, env);
    assert ValueOk(m[key].value, TokenSendable);
  }

  lemma PopEntrySendable(tokens: seq<Bytes>, member: Bytes)
    requires |tokens| == 2 && TokenSendable(tokens[0]) && TokenSendable(member)
    ensures Sendable(["SREM", tokens[1], member]) <==> Sendable(tokens)
  {
    hide TokenSendable;
    SRemSendable();
    var entry := ["SREM", tokens[1], member];
    assert AllSendable(tokens) <==> TokenSendable(tokens[1]);
    assert AllSendable(entry) <==> TokenSendable(entry[1]);
  }

  /** The entry of a request is within the limits exactly when the request is,
      in a keyspace whose set members are. */
  lemma EntryWithinLimits(tokens: seq<Bytes>, m: Store, registry: Registry, env: Env, fp: FloatText)
    requires StoreOk(m, TokenSendable) && env.Valid()
    ensures var h := Handle(tokens, m, registry, env, fp);
            h.entries == [] || (|h.entries| == 1 && (Loggable(h.entries[0]) <==> Sendable(tokens)))
  {
    hide Apply, Parse, SPopIn, TokenSendable, Env.Valid, StoreOk, Sendable;
    if tokens != [] && Parse(tokens, fp).Ok? {
      var cmd := Parse(tokens, fp).value;
      if cmd.SPop? && SPopIn(m, cmd.key, env).1.Ok? && SPopIn(m, cmd.key, env).1.value.Some? {
        SPopKey(tokens, fp);
        NameSendable(tokens[0]);
        PoppedSendable(m, cmd.key, env);
        PopEntrySendable(tokens, SPopIn(m, cmd.key, env).1.value.value);
      }
    }
  }

  lemma LoggedWithinLimitsStep(events: seq<Event>, fp: FloatText)
    requires events != []
    ensures var front, e := events[..|events| - 1], events[|events| - 1];
            LoggedWithinLimits(events, fp) <==>
              LoggedWithinLimits(front, fp)
              && (RunAll(front, fp).entries != RunAll(events, fp).entries ==> Sendable(e.tokens))
  {
    hide RunAll, Sendable;
    var n := |events| - 1;
    var front := events[..n];
    assert LoggedAt(events, n, fp) <==> RunAll(front, fp).entries != RunAll(events, fp).entries by {
      assert events[..n + 1] == events;
    }
    forall i | 0 <= i < n ensures LoggedAt(front, i, fp) <==> LoggedAt(events, i, fp) {
      assert front[..i] == events[..i] && front[..i + 1] == events[..i + 1];
    }
    hide LoggedAt;
    assert forall i :: 0 <= i < n ==> front[i] == events[i];
  }

  lemma AllLoggableAppend(a: seq<seq<Bytes>>, entry: seq<Bytes>)
    ensures AllLoggable(a + [entry]) <==> AllLoggable(a) && Loggable(entry)
  {
    hide Loggable;
    assert forall i :: 0 <= i < |a| ==> (a + [entry])[i] == a[i];
    assert (a + [entry])[|a|] == entry;
  }

  /** The log of a run can be read to its end if and only if every request that
      was logged was within the limits, whatever the requests that were not. */
  lemma {:induction false} ReadableIffWithinLimits(events: seq<Event>, fp: FloatText)
    requires forall n :: 0 <= n < |events| ==> events[n].env.Valid()
    ensures LoggedWithinLimits(events, fp) ==> StoreOk(RunAll(events, fp).store, TokenSendable)
    ensures AllLoggable(RunAll(events, fp).entries) <==> LoggedWithinLimits(events, fp)
  {
    hide Handle, TokenSendable, LoggedWithinLimits, AllLoggable, Loggable, Sendable, StoreOk, Env.Valid;
    if events == [] {
      NothingLogged(fp);
    } else {
      var n := |events| - 1;
      var front, e := events[..n], events[n];
      var before := RunAll(front, fp);
      var m := Live(before.store, e.env.now);
      var h := Handle(e.tokens, m, before.registry, e.env, fp);
      ReadableIffWithinLimits(front, fp);
      LoggedWithinLimitsStep(events, fp);
      assert RunAll(events, fp) == Journal(h.store, h.registry, before.entries + h.entries);
      if LoggedWithinLimits(front, fp) {
        LiveOk(before.store, e.env.now, TokenSendable);
        EntryWithinLimits(e.tokens, m, before.registry, e.env, fp);
        if h.entries == [] {
          UnloggedUnchanged(e.tokens, m, before.registry, e.env, fp, TokenSendable);
          assert before.entries + [] == before.entries;
        } else {
          AllLoggableAppend(before.entries, h.entries[0]);
          assert h.entries == [h.entries[0]];
          assert |before.entries + h.entries| != |before.entries|;
          if Sendable(e.tokens) {
            SentTokens(e.tokens);
            HandleKeepsOk(e.tokens, m, before.registry, e.env, fp, TokenSendable);
          }
        }
      } else {
        AllLoggablePrefix(before.entries, h.entries);
      }
    }
  }

  lemma NothingLogged(fp: FloatText)
    ensures LoggedWithinLimits([], fp) && AllLoggable([]) && StoreOk(map[], TokenSendable)
  {
  }

  lemma SentTokens(tokens: seq<Bytes>)
    requires Sendable(tokens)
    ensures forall i :: 0 <= i < |tokens| ==> TokenSendable(tokens[i])
  {
  }

  lemma AllLoggablePrefix(a: seq<seq<Bytes>>, b: seq<seq<Bytes>>)
    requires !AllLoggable(a)
    ensures !AllLoggable(a + b)
  {
    hide Loggable;
    var i :| 0 <= i < |a| && !Loggable(a[i]);
    assert (a + b)[i] == a[i];
  }

  /** Recovery of a whole run without deadlines: the replay applies every logged
      write, and ends in exactly the keyspace of the run, if every logged request
      was within the limits; it applies fewer otherwise. */
  lemma WholeRecovery(events: seq<Event>, envs: nat -> Env, fp: FloatText)
    requires TtlFreeRun(events, fp)
    ensures var entries := RunAll(events, fp).entries;
            var (store, _, count) := Replay(EncodeLog(entries), map[], NEW, 0, envs, fp);
            && (count == |entries| <==> LoggedWithinLimits(events, fp))
            && (LoggedWithinLimits(events, fp) ==> store == RunAll(events, fp).store)
  {
    hide RunAll, Replay, LoggedWithinLimits, RequestSetsNoDeadline, AllLoggable, NoneEmpty, Env.Valid, SameValues;
    var entries := RunAll(events, fp).entries;
    var n := |EncodeLog(entries)|;
    assert EncodeLog(entries)[..n] == EncodeLog(entries) && events[..|events|] == events;
    EntriesNonEmpty(events, fp);
    WholeLogReplay(entries, map[], NEW, 0, envs, fp);
    ReadableIffWithinLimits(events, fp);
    ExactRecovery(events, n, envs, fp);
  }

  // --- Every crash point -------------------------------------------------------------------

  /** A crash after k bytes of the log, when the run had made n requests and the
      entries that can be read are the ones it had logged: replay rebuilds the
      values of the run. */
  ghost predicate RebuildsAt(events: seq<Event>, n: nat, k: nat, envs: nat -> Env, fp: FloatText)
    requires n <= |events|
  {
    var log := EncodeLog(RunAll(events, fp).entries);
    k <= |log| && |RunAll(events[..n], fp).entries| == Readable(RunAll(events, fp).entries, k) ==>
      SameValues(RunAll(events[..n], fp).store, Replay(log[..k], map[], NEW, 0, envs, fp).0)
  }

  lemma {:induction false} ReadableFront(entries: seq<seq<Bytes>>, c: nat)
    requires AllLoggable(entries) && c <= |entries|
    ensures |EncodeLog(entries[..c])| <= |EncodeLog(entries)|
    ensures Readable(entries, |EncodeLog(entries[..c])|) == c
  {
    hide Sendable, Array;
    if c > 0 {
      assert Loggable(entries[0]);
      assert entries[..c][1..] == entries[1..][..c - 1] && entries[..c][0] == entries[0];
      ReadableFront(entries[1..], c - 1);
    } else if entries != [] {
      ArrayNonEmpty(entries[0]);
      assert entries[..0] == [];
    }
  }

  /** Exactly which runs recover from a crash at any byte of their log, whatever
      the deadlines, the clocks and the hash orders: those in which every request
      was blind to what had expired. Every logged request is to be within the
      limits, without which later points are not reached. */
  lemma RecoveryIff(events: seq<Event>, envs: nat -> Env, fp: FloatText)
    requires forall n :: 0 <= n < |events| ==> events[n].env.Valid()
    requires LoggedWithinLimits(events, fp)
    ensures (forall n, k: nat :: 0 <= n <= |events| ==> RebuildsAt(events, n, k, envs, fp))
       <==> (forall n :: 0 <= n < |events| ==> BlindAt(events, n, envs, fp))
  {
    hide RunAll, Replay, SameValues, BlindAt, RecoversAt, LoggedWithinLimits, AllLoggable, Readable, Env.Valid;
    var entries := RunAll(events, fp).entries;
    ReadableIffWithinLimits(events, fp);
    forall n, k: nat | 0 <= n <= |events| && RecoversAt(events, n, envs, fp)
      ensures RebuildsAt(events, n, k, envs, fp)
    {
      if k <= |EncodeLog(entries)| {
        CrashRecovery(events, k, envs, fp);
      }
    }
    forall n | 0 <= n <= |events| && (forall k: nat :: RebuildsAt(events, n, k, envs, fp))
      ensures RecoversAt(events, n, envs, fp)
    {
      EntriesGrow(events, n, fp);
      var c := |RunAll(events[..n], fp).entries|;
      assert RunAll(events[..n], fp).entries == entries[..c];
      ReadableFront(entries, c);
      var k := |EncodeLog(entries[..c])|;
      assert RebuildsAt(events, n, k, envs, fp);
      CrashRecovery(events, k, envs, fp);
    }
    RecoversIff(events, envs, fp);
  }

  // --- A run that loses data -------------------------------------------------------------

  lemma DelParses(n: nat, fp: FloatText)
    requires n > 0
    ensures Parse(DelRequest(n), fp) == Ok(Del(InlineKeys(n)))
  {
    hide InlineKeys;
    assert Upper("DEL") == "DEL";
    assert DelRequest(n)[1..] == InlineKeys(n);
  }

  lemma SetParses(fp: FloatText)
    ensures Parse(["SET", "a", "b"], fp) == Ok(Set("a", "b", None))
  {
    assert Upper("SET") == "SET";
    assert ["SET", "a", "b"][1..] == ["a", "b"];
  }

  /** The inline line above on an empty keyspace: nothing to delete, but logged. */
  lemma DelHandled(n: nat, env: Env, fp: FloatText)
    requires n > 0
    ensures var h := Handle(DelRequest(n), map[], NEW, env, fp);
            h == Handled(map[], NEW, [DelRequest(n)], h.reply)
  {
    hide Parse, DelRequest, InlineKeys, Encode;
    DelParses(n, fp);
    var nothing: Store := map[];
    assert nothing - ToSet(InlineKeys(n)) == nothing;
  }

  lemma SetHandled(env: Env, fp: FloatText)
    ensures var h := Handle(["SET", "a", "b"], map[], NEW, env, fp);
            h == Handled(map["a" := Entry(StringValue("b"), None)], NEW, [["SET", "a", "b"]], h.reply)
  {
    hide Parse, Encode;
    SetParses(fp);
  }

  /** An inline DEL with too many keys is accepted and logged, and the replay
      stops at it, before the SET that came after. */
  lemma OversizedRunLost(n: nat, env: Env, envs: nat -> Env, fp: FloatText)
    requires n >= MAX_MULTIBULK
    ensures ReadRequest(InlineDel(n)) == Tokens(DelRequest(n), [])
    ensures var events := [Event(DelRequest(n), env), Event(["SET", "a", "b"], env)];
            && RunAll(events, fp).store == map["a" := Entry(StringValue("b"), None)]
            && Replay(EncodeLog(RunAll(events, fp).entries), map[], NEW, 0, envs, fp) == (map[], NEW, 0)
  {
    hide ReadRequest, Handle, DelRequest, Array;
    var del, put := DelRequest(n), ["SET", "a", "b"];
    var events := [Event(del, env), Event(put, env)];
    InlineDelReads(n);
    DelHandled(n, env, fp);
    SetHandled(env, fp);
    assert Live(map[], env.now) == map[];
    assert events[..1] == [events[0]] && [events[0]][..0] == [];
    assert RunAll([events[0]], fp) == Journal(map[], NEW, [del]);
    assert RunAll(events, fp).entries == [del, put];
    assert [del, put][1..] == [put];
    RequestRoundTrip(del, EncodeLog([put]));
    ArrayNonEmpty(del);
  }
}
