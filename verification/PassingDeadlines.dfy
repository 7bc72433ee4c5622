// Runs in which a deadline passes: one whose log replays to another keyspace, and
// one whose log does not.
module PassingDeadlines {
  import opened Wrappers
  import opened ByteStrings
  import opened Resp
  import opened Commands
  import opened Keyspace
  import opened Dispatch
  import opened PubSubRegistry
  import opened StoreInvariant
  import opened Recovery

  const SET_BRIEFLY: seq<Bytes> := ["SET", "k", "v", "EX", "1"]
  const SET_IF_FREE: seq<Bytes> := ["SETNX", "k", "w"]
  const SET_OVER: seq<Bytes> := ["SET", "k", "w"]

  lemma BriefParses(fp: FloatText)
    ensures Parse(SET_BRIEFLY, fp) == Ok(Set("k", "v", Some(1)))
  {
    hide ParseOnCounters, ParseU64;
    assert Upper("SET") == "SET" && VerbOf("SET") == SetVerb;
    assert SET_BRIEFLY[1..] == ["k", "v", "EX", "1"];
    assert PrintInt(1) == "1";
    PrintParse(1);
  }

  lemma AgainParses(fp: FloatText)
    ensures Parse(SET_IF_FREE, fp) == Ok(SetNx("k", "w"))
  {
    hide ParseOnCounters;
    assert Upper("SETNX") == "SETNX" && VerbOf("SETNX") == SetnxVerb;
    assert SET_IF_FREE[1..] == ["k", "w"];
  }

  lemma OverParses(fp: FloatText)
    ensures Parse(SET_OVER, fp) == Ok(Set("k", "w", None))
  {
    hide ParseOnCounters;
    assert Upper("SET") == "SET" && VerbOf("SET") == SetVerb;
    assert SET_OVER[1..] == ["k", "w"];
  }

  /** On an empty keyspace, the first request sets the key for a second. */
  lemma BriefHandled(env: Env, fp: FloatText)
    ensures var h := Handle(SET_BRIEFLY, map[], NEW, env, fp);
            h == Handled(map["k" := Entry(StringValue("v"), env.Deadline(1))], NEW, [SET_BRIEFLY], h.reply)
  {
    hide Parse, Encode;
    BriefParses(fp);
  }

  /** The second request takes the key if it is free, and is logged either way. */
  lemma AgainHandled(m: Store, env: Env, fp: FloatText)
    ensures var h := Handle(SET_IF_FREE, m, NEW, env, fp);
            h == Handled(if "k" in m then m else m["k" := Entry(StringValue("w"), None)], NEW, [SET_IF_FREE], h.reply)
  {
    hide Parse, Encode;
    AgainParses(fp);
  }

  lemma OverHandled(m: Store, env: Env, fp: FloatText)
    ensures var h := Handle(SET_OVER, m, NEW, env, fp);
            h == Handled(m["k" := Entry(StringValue("w"), None)], NEW, [SET_OVER], h.reply)
  {
    hide Parse, Encode;
    OverParses(fp);
  }

  /** Both runs begin alike: a key set for a second, which replay sets as well. */
  lemma BriefRun(second: Event, start: Env, envs: nat -> Env, fp: FloatText)
    requires start.Deadline(1).Some? && envs(0).Deadline(1).Some?
    ensures var events := [Event(SET_BRIEFLY, start), second];
            && events[..1] == [Event(SET_BRIEFLY, start)]
            && RunAll(events[..1], fp)
            == Journal(map["k" := Entry(StringValue("v"), start.Deadline(1))], NEW, [SET_BRIEFLY])
            && RecoversAt(events, 0, envs, fp) && RecoversAt(events, 1, envs, fp)
    ensures ReplayEntries([SET_BRIEFLY], map[], NEW, 0, envs, fp)
         == (map["k" := Entry(StringValue("v"), envs(0).Deadline(1))], NEW)
  {
    hide Handle;
    var first := Event(SET_BRIEFLY, start);
    var events := [first, second];
    BriefHandled(start, fp);
    BriefHandled(envs(0), fp);
    assert Live(map[], start.now) == map[] && Live(map[], envs(0).now) == map[];
    assert events[..1] == [first] && [first][..0] == [] && events[..0] == [];
    assert RunAll([first], fp) == StepRun(START, first, fp);
    assert [SET_BRIEFLY][1..] == [];
    StartRecovers(envs, fp);
    assert RecoversAt(events, 0, envs, fp);
    var r: Store := map["k" := Entry(StringValue("v"), envs(0).Deadline(1))];
    assert ReplayEntries([SET_BRIEFLY], map[], NEW, 0, envs, fp) == ReplayEntries([], r, NEW, 1, envs, fp);
    assert Recovered([SET_BRIEFLY], envs, fp) == r;
    assert SameValues(RunAll(events[..1], fp).store, r);
  }

  /** A key expires during the run and is taken by the next request; at replay,
      where both requests follow at once, it has not expired, and the old value
      stays. The second request is not blind to what has expired. */
  lemma PassingDeadlineDiverges(start: Env, later: Env, envs: nat -> Env, fp: FloatText)
    requires start.Deadline(1).Some? && later.now >= start.now + SECOND
    requires envs(0).Deadline(1).Some? && envs(0).now <= envs(1).now < envs(0).now + SECOND
    ensures var events := [Event(SET_BRIEFLY, start), Event(SET_IF_FREE, later)];
            && RunAll(events, fp).entries == [SET_BRIEFLY, SET_IF_FREE]
            && RunAll(events, fp).store == map["k" := Entry(StringValue("w"), None)]
            && Recovered([SET_BRIEFLY, SET_IF_FREE], envs, fp)
            == map["k" := Entry(StringValue("v"), envs(0).Deadline(1))]
            && !BlindAt(events, 1, envs, fp)
  {
    hide Handle, BlindAt;
    var second := Event(SET_IF_FREE, later);
    var events := [Event(SET_BRIEFLY, start), second];
    BriefRun(second, start, envs, fp);
    var s, r: Store := RunAll(events[..1], fp).store, map["k" := Entry(StringValue("v"), envs(0).Deadline(1))];
    assert Live(s, later.now) == map[] && Live(r, envs(1).now) == r;
    AgainHandled(map[], later, fp);
    AgainHandled(r, envs(1), fp);
    assert RunAll(events, fp) == StepRun(RunAll(events[..1], fp), second, fp);
    ReplayEntriesAppend([SET_BRIEFLY], SET_IF_FREE, map[], NEW, 0, envs, fp);
    assert [SET_BRIEFLY] + [SET_IF_FREE] == [SET_BRIEFLY, SET_IF_FREE];
    assert events[..2] == events;
    assert !RecoversAt(events, 2, envs, fp) by {
      assert "k" in RunAll(events, fp).store;
    }
    LastRecoversIff(events, envs, fp);
  }

  /** The same, but the next request overwrites the key whether it has expired or
      not: it is blind, and the replay ends in exactly the keyspace of the run. */
  lemma PassingDeadlineOverwritten(start: Env, later: Env, envs: nat -> Env, fp: FloatText)
    requires start.Deadline(1).Some? && later.now >= start.now + SECOND
    requires envs(0).Deadline(1).Some? && envs(0).now <= envs(1).now < envs(0).now + SECOND
    ensures var events := [Event(SET_BRIEFLY, start), Event(SET_OVER, later)];
            && Live(RunAll(events[..1], fp).store, later.now) != RunAll(events[..1], fp).store
            && RunAll(events, fp).entries == [SET_BRIEFLY, SET_OVER]
            && RunAll(events, fp).store == map["k" := Entry(StringValue("w"), None)]
            && Recovered([SET_BRIEFLY, SET_OVER], envs, fp) == RunAll(events, fp).store
            && BlindAt(events, 1, envs, fp)
  {
    hide Handle, BlindAt;
    var second := Event(SET_OVER, later);
    var events := [Event(SET_BRIEFLY, start), second];
    BriefRun(second, start, envs, fp);
    var s, r: Store := RunAll(events[..1], fp).store, map["k" := Entry(StringValue("v"), envs(0).Deadline(1))];
    assert Live(s, later.now) == map[] && Live(r, envs(1).now) == r;
    assert "k" in s;
    OverHandled(map[], later, fp);
    OverHandled(r, envs(1), fp);
    assert RunAll(events, fp) == StepRun(RunAll(events[..1], fp), second, fp);
    ReplayEntriesAppend([SET_BRIEFLY], SET_OVER, map[], NEW, 0, envs, fp);
    assert [SET_BRIEFLY] + [SET_OVER] == [SET_BRIEFLY, SET_OVER];
    assert events[..2] == events;
    LastRecoversIff(events, envs, fp);
  }
}
