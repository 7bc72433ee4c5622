// Snapshots of the keyspace and their reload (src/database/snapshot.rs and the
// snapshot operations of src/database/db.rs).
module Snapshots {
  import opened Wrappers
  import opened ByteStrings
  import opened Ranges
  import opened SortedSet
  import opened Commands
  import opened Keyspace
  import opened Databases
  import opened Dispatch
  import opened PubSubRegistry
  import opened StoreInvariant

  /** A flat, serializable view of a value. Scores are kept as text. */
  datatype SerValue =
    | SerString(text: Bytes)
    | SerList(items: seq<Bytes>)
    | SerSet(elements: seq<Bytes>)
    | SerZSet(members: seq<(Bytes, Bytes)>)
    | SerHash(fields: seq<(Bytes, Bytes)>)

  datatype SnapshotEntry = SnapshotEntry(key: Bytes, ttlSecs: Option<nat>, value: SerValue)

  // --- Taking a snapshot -------------------------------------------------------

  function Serialize(v: Value, env: Env, fp: FloatText): SerValue {
    match v
    case StringValue(text) => SerString(text)
    case ListValue(items) => SerList(Slice(items, 0, -1))
    case SetValue(elements) => SerSet(env.order(elements))
    case SortedSetValue(z) => SerZSet(ShowMembers(Slice(z.order, 0, -1), fp))
    case HashValue(fields) => SerHash(PairsOf(fields, env.order(fields.Keys)))
  }

  function ShowMembers(s: seq<SortedMember>, fp: FloatText): (r: seq<(Bytes, Bytes)>)
    ensures |r| == |s|
  {
    seq(|s|, i requires 0 <= i < |s| => (s[i].member, fp.show(s[i].score)))
  }

  /** The entries of a map for the listed keys, in that order. */
  function PairsOf<V>(m: map<Bytes, V>, names: seq<Bytes>): seq<(Bytes, V)> {
    if names == [] then []
    else
      var n := |names| - 1;
      PairsOf(m, names[..n]) + (if names[n] in m then [(names[n], m[names[n]])] else [])
  }

  function SerializeAll(pairs: seq<(Bytes, Entry)>, env: Env, fp: FloatText): (r: seq<SnapshotEntry>)
    ensures |r| == |pairs|
  {
    seq(|pairs|, i requires 0 <= i < |pairs| =>
      SnapshotEntry(pairs[i].0, SecondsLeft(pairs[i].1, env.now), Serialize(pairs[i].1.value, env, fp)))
  }

  /** `snapshot`: every live key, in some order, with the seconds it has left. */
  function TakeSnapshot(s: Store, env: Env, fp: FloatText): seq<SnapshotEntry> {
    var m := Live(s, env.now);
    SerializeAll(PairsOf(m, env.order(m.Keys)), env, fp)
  }

  // --- Loading a snapshot --------------------------------------------------------

  /** The map built by inserting pairs one after the other. */
  function Build<V>(pairs: seq<(Bytes, V)>): map<Bytes, V> {
    if pairs == [] then map[]
    else Build(pairs[..|pairs| - 1])[pairs[|pairs| - 1].0 := pairs[|pairs| - 1].1]
  }

  /** The score in a snapshot, 0 where the text is not a number. */
  function ScoreOf(text: Bytes, fp: FloatText): Score {
    match fp.parse(text)
    case Number(score) => score
    case _ => Fin(0.0)
  }

  function ScoredPairs(members: seq<(Bytes, Bytes)>, fp: FloatText): (r: seq<(Score, Bytes)>)
    ensures |r| == |members|
  {
    seq(|members|, i requires 0 <= i < |members| => (ScoreOf(members[i].1, fp), members[i].0))
  }

  function Deserialize(v: SerValue, fp: FloatText): Value {
    match v
    case SerString(text) => StringValue(text)
    case SerList(items) => ListValue(items)
    case SerSet(elements) => SetValue(ToSet(elements))
    case SerZSet(members) => SortedSetValue(AddAll(EMPTY, ScoredPairs(members, fp)))
    case SerHash(fields) => HashValue(Build(fields))
  }

  function Restore(e: SnapshotEntry, env: Env, fp: FloatText): (Bytes, Entry) {
    var deadline := match e.ttlSecs case Some(seconds) => env.Deadline(seconds) case None => None;
    (e.key, Entry(Deserialize(e.value, fp), deadline))
  }

  function RestoreAll(entries: seq<SnapshotEntry>, env: Env, fp: FloatText): (r: seq<(Bytes, Entry)>)
    ensures |r| == |entries|
  {
    seq(|entries|, i requires 0 <= i < |entries| => Restore(entries[i], env, fp))
  }

  /** The keyspace a server finds after writing its own snapshot and loading it. */
  function Reloaded(s: Store, env: Env, later: Env, fp: FloatText): Store {
    Build(RestoreAll(TakeSnapshot(s, env, fp), later, fp))
  }

  /** The loops that rebuild one value. */
  method Rebuild(value: SerValue, fp: FloatText) returns (v: Value)
    ensures v == Deserialize(value, fp)
  {
    match value {
      case SerString(text) =>
        v := StringValue(text);
      case SerList(items) =>
        var list := new RList();
        PushAllBack(list, items);
        v := ListValue(list.list);
      case SerSet(elements) =>
        var all, _ := InsertAll({}, elements);
        v := SetValue(all);
      case SerZSet(members) =>
        var zset := new RSortedSet();
        var _ := AddPairs(zset, ScoredPairs(members, fp));
        v := SortedSetValue(zset.Contents());
      case SerHash(fields) =>
        var hash: map<Bytes, Bytes> := map[];
        for i := 0 to |fields|
          invariant hash == Build(fields[..i])
        {
          BuildMore(fields, i);
          hash := hash[fields[i].0 := fields[i].1];
        }
        assert fields[..|fields|] == fields;
        v := HashValue(hash);
    }
  }

  /** `load_snapshot`: replaces the whole keyspace. */
  method LoadSnapshot(db: Database, entries: seq<SnapshotEntry>, env: Env, fp: FloatText)
    modifies db`store
    ensures db.store == Build(RestoreAll(entries, env, fp))
  {
    db.store := map[];
    ghost var all := RestoreAll(entries, env, fp);
    for i := 0 to |entries|
      invariant db.store == Build(all[..i])
    {
      var value := Rebuild(entries[i].value, fp);
      var expiresAt := match entries[i].ttlSecs case Some(seconds) => env.Deadline(seconds) case None => None;
      BuildMore(all, i);
      db.store := db.store[entries[i].key := Entry(value, expiresAt)];
    }
    assert all[..|entries|] == all;
  }

  // --- Round trip -------------------------------------------------------------------

  lemma BuildMore<V>(pairs: seq<(Bytes, V)>, i: nat)
    requires i < |pairs|
    ensures Build(pairs[..i + 1]) == Build(pairs[..i])[pairs[i].0 := pairs[i].1]
  {
    assert pairs[..i + 1][..i] == pairs[..i];
  }

  /** Inserting entries of a map, each key at least once, in any order, builds the map. */
  lemma {:induction false} BuildSome<V>(pairs: seq<(Bytes, V)>, m: map<Bytes, V>)
    requires forall i :: 0 <= i < |pairs| ==> pairs[i].0 in m && m[pairs[i].0] == pairs[i].1
    ensures forall k <- Build(pairs) :: k in m && m[k] == Build(pairs)[k]
    ensures forall i :: 0 <= i < |pairs| ==> pairs[i].0 in Build(pairs)
  {
    if pairs != [] {
      BuildSome(pairs[..|pairs| - 1], m);
      assert forall i :: 0 <= i < |pairs| - 1 ==> pairs[..|pairs| - 1][i] == pairs[i];
    }
  }

  lemma {:induction false} PairsOfAre<V>(m: map<Bytes, V>, names: seq<Bytes>)
    requires forall i :: 0 <= i < |names| ==> names[i] in m
    ensures |PairsOf(m, names)| == |names|
    ensures forall i :: 0 <= i < |names| ==> PairsOf(m, names)[i] == (names[i], m[names[i]])
  {
    if names != [] {
      PairsOfAre(m, names[..|names| - 1]);
    }
  }

  lemma BuildListing<V>(m: map<Bytes, V>, names: seq<Bytes>)
    requires Enumerates(names, m.Keys)
    ensures Build(PairsOf(m, names)) == m
  {
    PairsOfAre(m, names);
    var pairs := PairsOf(m, names);
    BuildSome(pairs, m);
    forall k | k in m ensures k in Build(pairs) {
      var i :| 0 <= i < |names| && names[i] == k;
      assert pairs[i].0 == k;
    }
  }

  lemma ToSetListing(s: set<Bytes>, names: seq<Bytes>)
    requires Enumerates(names, s)
    ensures ToSet(names) == s
  {
  }

  function Flip(pairs: seq<(Score, Bytes)>): (r: seq<(Bytes, Score)>)
    ensures |r| == |pairs|
  {
    seq(|pairs|, i requires 0 <= i < |pairs| => (pairs[i].1, pairs[i].0))
  }

  lemma {:induction false} AddAllScores(pairs: seq<(Score, Bytes)>)
    ensures AddAll(EMPTY, pairs).Agrees()
    ensures AddAll(EMPTY, pairs).scores == Build(Flip(pairs))
  {
    EmptyAgrees();
    AddAllAgrees(EMPTY, pairs);
    if pairs != [] {
      var n := |pairs| - 1;
      AddAllScores(pairs[..n]);
      AddAgrees(AddAll(EMPTY, pairs[..n]), pairs[n].0, pairs[n].1);
      assert Flip(pairs)[..n] == Flip(pairs[..n]);
    }
  }

  /** Printing each score of the set and reading it back gives the score. */
  predicate ScoresReadBack(z: ZSet, fp: FloatText) {
    forall k <- z.scores :: fp.parse(fp.show(z.scores[k])) == Number(z.scores[k])
  }

  predicate ReadsBack(v: Value, fp: FloatText) {
    v.SortedSetValue? ==> ScoresReadBack(v.zset, fp)
  }

  /** Both indexes of a sorted set are rebuilt from its printed entries. */
  lemma ZSetRoundTrip(z: ZSet, fp: FloatText)
    requires z.Agrees() && ScoresReadBack(z, fp)
    ensures AddAll(EMPTY, ScoredPairs(ShowMembers(z.order, fp), fp)) == z
  {
    hide Build, AddAll, Before, StrictlySorted;
    var pairs := ScoredPairs(ShowMembers(z.order, fp), fp);
    forall i | 0 <= i < |pairs| ensures pairs[i] == (z.order[i].score, z.order[i].member) {
      assert z.order[i] in z.order;
    }
    AddAllScores(pairs);
    var flipped := Flip(pairs);
    forall i | 0 <= i < |flipped| ensures flipped[i].0 in z.scores && z.scores[flipped[i].0] == flipped[i].1 {
      assert z.order[i] in z.order;
    }
    BuildSome(flipped, z.scores);
    forall k | k in z.scores ensures k in Build(flipped) {
      var i :| 0 <= i < |z.order| && z.order[i] == SortedMember(k, z.scores[k]);
      assert flipped[i].0 == k;
    }
    assert Build(flipped) == z.scores;
    ScoresDetermine(AddAll(EMPTY, pairs), z);
  }

  lemma WholeSlice<T>(items: seq<T>)
    ensures Slice(items, 0, -1) == items
  {
  }

  lemma ValueRoundTrip(v: Value, env: Env, fp: FloatText, p: Bytes -> bool)
    requires ValueOk(v, p) && env.Valid() && ReadsBack(v, fp)
    ensures Deserialize(Serialize(v, env, fp), fp) == v
  {
    match v {
      case StringValue(_) =>
      case ListValue(items) =>
        WholeSlice(items);
      case SetValue(elements) =>
        assert Enumerates(env.order(elements), elements);
        ToSetListing(elements, env.order(elements));
      case SortedSetValue(z) =>
        WholeSlice(z.order);
        ZSetRoundTrip(z, fp);
      case HashValue(fields) =>
        assert Enumerates(env.order(fields.Keys), fields.Keys);
        BuildListing(fields, env.order(fields.Keys));
    }
  }

  /** What a restart makes of a deadline: a lifetime shorter by less than a
      second, and none at all where the later clock cannot represent its whole
      seconds. */
  ghost predicate Shortened(before: Entry, now: int, after: Entry, later: Env) {
    match before.expiresAt
    case None => after.expiresAt == None
    case Some(d) =>
      if later.now + (d - now) / SECOND * SECOND <= later.clockMax then
        after.expiresAt.Some? && 0 <= (d - now) - (after.expiresAt.value - later.now) < SECOND
      else after.expiresAt == None
  }

  /** The restart loses the entry: it had less than a second left. */
  predicate LostAtRestart(e: Entry, now: int, later: Env) {
    e.expiresAt.Some? && e.expiresAt.value - now < SECOND && later.now <= later.clockMax
  }

  predicate AllReadBack(m: Store, fp: FloatText) {
    forall k <- m :: ReadsBack(m[k].value, fp)
  }

  lemma EntryRoundTrip(key: Bytes, e: Entry, env: Env, later: Env, fp: FloatText, p: Bytes -> bool)
    requires ValueOk(e.value, p) && env.Valid() && ReadsBack(e.value, fp)
    requires !Expired(e, env.now)
    ensures var r := Restore(SnapshotEntry(key, SecondsLeft(e, env.now), Serialize(e.value, env, fp)), later, fp);
            && r.0 == key && r.1.value == e.value
            && Shortened(e, env.now, r.1, later)
            && (Expired(r.1, later.now) <==> LostAtRestart(e, env.now, later))
  {
    ValueRoundTrip(e.value, env, fp, p);
    hide Serialize, Deserialize;
  }

  /** The restored entry of every live key. */
  function Image(m: Store, env: Env, later: Env, fp: FloatText): Store {
    map k | k in m :: Restore(SnapshotEntry(k, SecondsLeft(m[k], env.now), Serialize(m[k].value, env, fp)), later, fp).1
  }

  lemma ReloadedIsImage(s: Store, env: Env, later: Env, fp: FloatText)
    requires env.Valid()
    ensures Reloaded(s, env, later, fp) == Image(Live(s, env.now), env, later, fp)
  {
    hide Restore, Serialize, SecondsLeft, Build;
    var m := Live(s, env.now);
    var names := env.order(m.Keys);
    assert Enumerates(names, m.Keys);
    PairsOfAre(m, names);
    var restored := RestoreAll(TakeSnapshot(s, env, fp), later, fp);
    var image := Image(m, env, later, fp);
    forall i | 0 <= i < |restored| ensures restored[i].0 in image && image[restored[i].0] == restored[i].1 {
      RestoredAt(m, names, i, env, later, fp);
    }
    BuildSome(restored, image);
    forall k | k in m ensures k in Build(restored) {
      var i :| 0 <= i < |names| && names[i] == k;
      RestoredAt(m, names, i, env, later, fp);
      assert restored[i].0 == k;
    }
    assert Build(restored) == image;
  }

  /** Loading a snapshot, at whatever time and under whatever hash order and
      clock, restores exactly the live keys it was taken of, with equal values;
      each lifetime is shortened by less than a second and never extended, or
      dropped where the clock cannot represent it. Of the restored keys all are
      live but those with less than a second left. */
  lemma SnapshotRoundTrip(s: Store, env: Env, later: Env, fp: FloatText, p: Bytes -> bool)
    requires StoreOk(Live(s, env.now), p) && env.Valid() && AllReadBack(Live(s, env.now), fp)
    ensures var m := Live(s, env.now);
            var r := Reloaded(s, env, later, fp);
            && r.Keys == m.Keys
            && (forall k <- m :: r[k].value == m[k].value && Shortened(m[k], env.now, r[k], later))
            && (forall k :: k in Live(r, later.now) <==> k in m && !LostAtRestart(m[k], env.now, later))
  {
    hide Restore, Serialize, SecondsLeft, Shortened, LostAtRestart, ReadsBack, ValueOk, Reloaded;
    var m := Live(s, env.now);
    var r := Image(m, env, later, fp);
    ReloadedIsImage(s, env, later, fp);
    forall k | k in m
      ensures r[k].value == m[k].value && Shortened(m[k], env.now, r[k], later)
      ensures Expired(r[k], later.now) <==> LostAtRestart(m[k], env.now, later)
    {
      EntryRoundTrip(k, m[k], env, later, fp, p);
    }
  }

  lemma RestoredAt(m: Store, names: seq<Bytes>, i: nat, env: Env, later: Env, fp: FloatText)
    requires Enumerates(names, m.Keys) && i < |names|
    requires |PairsOf(m, names)| == |names| && PairsOf(m, names)[i] == (names[i], m[names[i]])
    ensures var restored := RestoreAll(SerializeAll(PairsOf(m, names), env, fp), later, fp);
            var k := names[i];
            && restored[i]
            == Restore(SnapshotEntry(k, SecondsLeft(m[k], env.now), Serialize(m[k].value, env, fp)), later, fp)
            && restored[i].0 == k
  {
  }

  // --- Restarts in a run ---------------------------------------------------------------

  /** A restart keeps every value in shape, even one whose scores do not read back. */
  lemma ReloadedValueOk(v: Value, env: Env, fp: FloatText, p: Bytes -> bool)
    requires ValueOk(v, p) && env.Valid()
    ensures ValueOk(Deserialize(Serialize(v, env, fp), fp), p)
  {
    match v {
      case StringValue(_) =>
      case ListValue(items) =>
        WholeSlice(items);
      case SetValue(elements) =>
        assert Enumerates(env.order(elements), elements);
        ToSetListing(elements, env.order(elements));
      case SortedSetValue(z) =>
        WholeSlice(z.order);
        ReloadedZSetOk(z, fp);
      case HashValue(fields) =>
        assert Enumerates(env.order(fields.Keys), fields.Keys);
        BuildListing(fields, env.order(fields.Keys));
    }
  }

  lemma ReloadedZSetOk(z: ZSet, fp: FloatText)
    requires z.Agrees() && z.scores != map[]
    ensures var r := AddAll(EMPTY, ScoredPairs(ShowMembers(z.order, fp), fp)); r.Agrees() && r.scores != map[]
  {
    var pairs := ScoredPairs(ShowMembers(z.order, fp), fp);
    AddAllScores(pairs);
    var k :| k in z.scores;
    assert SortedMember(k, z.scores[k]) in z.order;
    assert Build(Flip(pairs)) != map[];
  }

  lemma {:induction false} BuildOk(pairs: seq<(Bytes, Entry)>, p: Bytes -> bool)
    requires forall i :: 0 <= i < |pairs| ==> ValueOk(pairs[i].1.value, p)
    ensures StoreOk(Build(pairs), p)
  {
    hide ValueOk;
    if pairs != [] {
      BuildOk(pairs[..|pairs| - 1], p);
    }
  }

  lemma ReloadKeepsOk(s: Store, env: Env, later: Env, fp: FloatText, p: Bytes -> bool)
    requires StoreOk(s, p) && env.Valid()
    ensures StoreOk(Reloaded(s, env, later, fp), p)
  {
    hide ValueOk, Restore, Serialize, Deserialize, SecondsLeft;
    var m := Live(s, env.now);
    var names := env.order(m.Keys);
    assert Enumerates(names, m.Keys);
    PairsOfAre(m, names);
    var restored := RestoreAll(TakeSnapshot(s, env, fp), later, fp);
    forall i | 0 <= i < |restored| ensures ValueOk(restored[i].1.value, p) {
      RestoredAt(m, names, i, env, later, fp);
      RestoredValue(names[i], m[names[i]], env, later, fp);
      ReloadedValueOk(m[names[i]].value, env, fp, p);
    }
    BuildOk(restored, p);
  }

  lemma RestoredValue(key: Bytes, e: Entry, env: Env, later: Env, fp: FloatText)
    ensures Restore(SnapshotEntry(key, SecondsLeft(e, env.now), Serialize(e.value, env, fp)), later, fp).1.value
         == Deserialize(Serialize(e.value, env, fp), fp)
  {
  }

  /** What a server goes through: requests, and restarts from its own snapshot. */
  datatype Stage =
    | Serve(event: Event)
    | Restart(env: Env, later: Env)

  ghost function Advance(j: Journal, stage: Stage, fp: FloatText): Journal {
    match stage
    case Serve(event) => StepRun(j, event, fp)
    case Restart(env, later) => Journal(Reloaded(j.store, env, later, fp), NEW, j.entries)
  }

  ghost function LiveThrough(stages: seq<Stage>, fp: FloatText): Journal {
    if stages == [] then StoreInvariant.START
    else Advance(LiveThrough(stages[..|stages| - 1], fp), stages[|stages| - 1], fp)
  }

  ghost predicate StageOk(stage: Stage, p: Bytes -> bool) {
    match stage
    case Serve(event) => forall i :: 0 <= i < |event.tokens| ==> p(event.tokens[i])
    case Restart(env, _) => env.Valid()
  }

  /** No keyspace reached by requests and restarts holds an empty collection or
      a sorted set whose indexes disagree. */
  lemma {:induction false} LifeKeepsOk(stages: seq<Stage>, fp: FloatText, p: Bytes -> bool)
    requires forall i :: 0 <= i < |stages| ==> StageOk(stages[i], p)
    ensures StoreOk(LiveThrough(stages, fp).store, p)
  {
    hide Handle, Reloaded;
    if stages != [] {
      var n := |stages| - 1;
      LifeKeepsOk(stages[..n], fp, p);
      var before := LiveThrough(stages[..n], fp);
      assert StageOk(stages[n], p);
      match stages[n] {
        case Serve(event) =>
          HandleKeepsOk(event.tokens, Live(before.store, event.env.now), before.registry, event.env, fp, p);
        case Restart(env, later) =>
          ReloadKeepsOk(before.store, env, later, fp, p);
      }
    }
  }
}
