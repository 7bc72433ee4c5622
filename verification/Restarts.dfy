// A server that is killed and started again, on the database of the source
// (src/server/mod.rs, src/command/mod.rs).
module Restarts {
  import opened ByteStrings
  import opened Commands
  import opened Keyspace
  import opened Databases
  import opened Dispatch
  import opened PubSubRegistry
  import opened StoreInvariant
  import opened Recovery

  /** The requests of a run with the surroundings each of them finds. */
  ghost function EventsOf(requests: seq<seq<Bytes>>, envs: nat -> Env): (events: seq<Event>)
    ensures |events| == |requests|
  {
    seq(|requests|, i requires 0 <= i < |requests| => Event(requests[i], envs(i)))
  }

  lemma OneMoreEvent(requests: seq<seq<Bytes>>, i: nat, envs: nat -> Env, fp: FloatText)
    requires i < |requests|
    ensures RunAll(EventsOf(requests[..i + 1], envs), fp)
         == StepRun(RunAll(EventsOf(requests[..i], envs), fp), Event(requests[i], envs(i)), fp)
  {
    hide StepRun;
    var events := EventsOf(requests[..i + 1], envs);
    assert events[..i] == EventsOf(requests[..i], envs);
    assert events[i] == Event(requests[i], envs(i));
  }

  /** Serving requests on a new database: log, registry and live keyspace are
      those of the run. */
  method ServeAll(db: Database, requests: seq<seq<Bytes>>, envs: nat -> Env, fp: FloatText)
    requires Monotone(envs)
    requires db.store == map[] && db.log == [] && db.pubsub.Contents() == NEW
    requires db.appendOnly && !db.replaying
    modifies db`store, db`log, db.pubsub
    ensures var j := RunAll(EventsOf(requests, envs), fp);
            && db.log == EncodeLog(j.entries)
            && db.pubsub.Contents() == j.registry
            && SameFrom(db.store, j.store, |requests|, envs)
  {
    hide Handle, Live, SameFrom, Monotone, RunAll;
    ghost var j := RunAll(EventsOf(requests[..0], envs), fp);
    assert j == START by { NoEvents(requests[..0], envs, fp); }
    assert SameFrom(db.store, j.store, 0, envs) by { SameAlways(db.store, 0, envs); }
    for i := 0 to |requests|
      invariant j == RunAll(EventsOf(requests[..i], envs), fp)
      invariant db.log == EncodeLog(j.entries) && db.pubsub.Contents() == j.registry
      invariant SameFrom(db.store, j.store, i, envs)
      invariant db.appendOnly && !db.replaying
    {
      SameNow(db.store, j.store, i, envs);
      ghost var h := Handle(requests[i], Live(j.store, envs(i).now), j.registry, envs(i), fp);
      EncodeLogAppend(j.entries, h.entries);
      var _ := Run(requests[i], db, envs(i), fp);
      SameAfter(db.store, h.store, i, envs);
      OneMoreEvent(requests, i, envs, fp);
      j := StepRun(j, Event(requests[i], envs(i)), fp);
    }
    assert requests[..|requests|] == requests;
  }

  lemma NoEvents(requests: seq<seq<Bytes>>, envs: nat -> Env, fp: FloatText)
    requires requests == []
    ensures RunAll(EventsOf(requests, envs), fp) == START && EncodeLog(START.entries) == []
  {
  }

  /** A server takes requests that set no deadline, is killed when at most k bytes
      of its log have reached the file, and a new one replays them. What the new
      one shows is exactly the keyspace the old one had after as many logged writes
      as can be read. */
  method KillAndRestart(requests: seq<seq<Bytes>>, k: nat, envs: nat -> Env, replayEnvs: nat -> Env, fp: FloatText)
    returns (served: Database, restarted: Database, count: nat)
    requires Monotone(envs) && Monotone(replayEnvs)
    requires TtlFreeRun(EventsOf(requests, envs), fp)
    ensures var events := EventsOf(requests, envs);
            var j := RunAll(events, fp);
            && SameFrom(served.store, j.store, |requests|, envs)
            && served.log == EncodeLog(j.entries)
            && count == Readable(j.entries, if k <= |served.log| then k else |served.log|)
            && (exists n :: 0 <= n <= |events| && |RunAll(events[..n], fp).entries| == count)
            && (forall n :: 0 <= n <= |events| && |RunAll(events[..n], fp).entries| == count ==>
                  SameFrom(restarted.store, RunAll(events[..n], fp).store, count, replayEnvs))
    ensures restarted.log == served.log[..if k <= |served.log| then k else |served.log|] && !restarted.replaying
  {
    hide RunAll, Replay, Readable, TtlFreeRun, Monotone, SameFrom;
    served := new Database(true, []);
    ServeAll(served, requests, envs, fp);
    var survived := if k <= |served.log| then k else |served.log|;
    restarted := new Database(true, served.log[..survived]);
    count := ReplayAof(restarted.log, restarted, replayEnvs, fp);
    ExactRecovery(EventsOf(requests, envs), survived, replayEnvs, fp);
  }
}
