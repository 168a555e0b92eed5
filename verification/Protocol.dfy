/** Versioning workers, any number of them, interleaved step by step over one store that
    admits each (type, id, version) once. */
module Protocol {
  import opened Prelude
  import opened Entities
  import opened Changes
  import opened Merge
  import opened DiffEngine
  import opened Records
  import opened Reconstruction
  import opened Histories
  import opened HashChain
  import Json
  import RoundTrip

  // ----- Pure pieces -----

  /** The strategy of the next version: a snapshot first, the override before the default,
      and in hybrid mode a snapshot whenever the version is 1 modulo the interval. */
  function SelectStrategy(default: Strategy, interval: int, next: int, override: Option<Strategy>): (s: Strategy)
    ensures !s.Hybrid?
    ensures s.Full? <==>
              || next <= 1 || Preferred(default, override).Full?
              || (Preferred(default, override).Hybrid? && next % EffectiveInterval(interval) == 1)
  {
    if next <= 1 then Full
    else
      match Preferred(default, override)
      case Hybrid => if next % EffectiveInterval(interval) == 1 then Full else DeltaOnly
      case DeltaOnly => DeltaOnly
      case Full => Full
  }

  /** The strategy asked for: a call may override the configured one. */
  function Preferred(default: Strategy, override: Option<Strategy>): Strategy {
    if override.Some? then override.value else default
  }

  /** In hybrid mode exactly one of any N versions in a row, N being the interval, is a snapshot
      (the first version of all apart). */
  lemma HybridPeriod(interval: int, next: int) returns (v: int)
    requires next >= 2
    ensures next <= v < next + EffectiveInterval(interval)
    ensures forall w :: next <= w < next + EffectiveInterval(interval) ==>
              (SelectStrategy(Hybrid, interval, w, None).Full? <==> w == v)
  {
    var n, r := EffectiveInterval(interval), next % EffectiveInterval(interval);
    v := next + (if r <= 1 then 1 - r else n + 1 - r);
    Remainder(v, if r <= 1 then next / n else next / n + 1, 1, n);
    forall w | next <= w < next + n ensures SelectStrategy(Hybrid, interval, w, None).Full? <==> w == v {
      if w % n == 1 { SameRemainder(v, w, n); }
    }
  }

  lemma SameRemainder(v: nat, w: nat, n: nat)
    requires n >= 1 && v % n == w % n && v < w + n && w < v + n
    ensures v == w
  {
    Distance(n, v / n, w / n, v % n);
  }

  lemma Distance(n: nat, q: nat, p: nat, r: nat)
    requires n >= 1 && n * q + r < n * p + r + n && n * p + r < n * q + r + n
    ensures p == q
  {
    Multiply(n, p + 1, q);
    Multiply(n, q + 1, p);
  }

  lemma Multiply(n: nat, p: nat, q: nat)
    ensures p <= q ==> n * p <= n * q
  {
    if p <= q { assert n * q == n * p + n * (q - p); }
  }

  function EffectiveInterval(interval: int): (n: nat)
    ensures n >= 2
  {
    if interval < 2 then 10 else interval
  }

  function NextVersion(h: seq<Record>): int {
    match LatestOf(h) case None => 1 case Some(r) => r.version + 1
  }

  /** A delta is kept only if it leads to the JSON of the new entity. */
  predicate ValidDelta(t: Ty, prev: Value, curr: Value, delta: Delta)
    requires HasType(prev, t)
  {
    delta == [] || (Replayed(t, prev, delta).Ok? && Json.Alike(Replayed(t, prev, delta).value, curr))
  }

  // ----- Workers and the world -----

  /** A call to Version (or to VersionInTx) with a clone of the entity. */
  datatype Job = Job(entityType: string, entityID: string, entity: Value, override: Option<Strategy>, inTx: bool)

  datatype Worker =
    | Ready(job: Job)
    | Numbered(job: Job, next: int, strategy: Strategy)
    | Prepared(job: Job, record: Record)
    | Hashed(job: Job, record: Record)
    | Finished(job: Job, record: Record)
    | Aborted(job: Job)

  datatype EntityKey = EntityKey(entityType: string, entityID: string)

  type Ledger = map<EntityKey, seq<Record>>

  datatype World = World(store: Ledger, workers: seq<Worker>)

  datatype Settings = Settings(types: map<string, Ty>, default: Strategy, interval: int, allowTx: bool,
    allowOverride: bool)

  /** How far the hash step of one worker gets. */
  datatype HashOutcome = HashOff | HashReadFailed | HashComputeFailed | HashDone

  datatype Event =
    | Spawn(job: Job)
    | ReadNumber(w: nat)
    | ReadPrevious(w: nat, id: string, readable: bool, diffable: bool)
    | ComputeHash(w: nat, outcome: HashOutcome)
    | Save(w: nat, accepted: bool)
    | Abort(w: nat)
    | CompactOne(key: EntityKey, i: nat)

  function KeyOf(j: Job): EntityKey {
    EntityKey(j.entityType, j.entityID)
  }

  function Stored(store: Ledger, key: EntityKey): seq<Record> {
    if key in store then store[key] else []
  }

  /** A job the auditor takes on: a registered type and an entity of it. */
  predicate Acceptable(s: Settings, j: Job) {
    && j.entityType in s.types && s.types[j.entityType].Struct? && HasType(j.entity, s.types[j.entityType])
    && (j.inTx ==> s.allowTx) && (j.override.Some? ==> s.allowOverride)
  }

  /** The strategy and delta settled on against the data of the version before. */
  ghost function SettleAgainst(t: Ty, j: Job, strategy: Strategy, prev: Value, diffable: bool)
    : (r: (Strategy, Option<Delta>))
    requires t.Struct? && HasType(j.entity, t) && HasType(prev, t)
    ensures r.0 == strategy || r.0.Full?
  {
    if !diffable || !Supported(t, prev, j.entity) then (Full, None)
    else
      var delta := DeltaOf(t, prev, j.entity);
      if delta == [] then (strategy, None)
      else if !j.inTx && !ValidDelta(t, prev, j.entity, delta) then (Full, None)
      else (strategy, Some(delta))
  }

  /** The delta and strategy a worker settles on, given the latest record it reads. */
  ghost function Settle(t: Ty, j: Job, strategy: Strategy, h: seq<Record>, readable: bool, diffable: bool)
    : (r: (Strategy, Option<Delta>))
    requires t.Struct? && HasType(j.entity, t)
    ensures r.0 == strategy || r.0.Full?
  {
    if strategy.Full? then (Full, None)
    else
      match LatestOf(h)
      case None => (Full, None)
      case Some(prev) =>
        if !readable || Decode(t, prev.data).Err? then (Full, None)
        else SettleAgainst(t, j, strategy, Decode(t, prev.data).value, diffable)
  }

  /** The hash step, on the history as it is when the step runs. */
  function WithHash(h: seq<Record>, hash: Hasher, r: Record, outcome: HashOutcome): Record {
    match outcome
    case HashOff | HashReadFailed => r
    case HashComputeFailed => Linking(h, hash, true, r).0
    case HashDone => Linking(h, hash, false, r).0
  }

  ghost function Advance(s: Settings, hash: Hasher, store: Ledger, w: Worker, e: Event): Worker {
    match (e, w)
    case (ReadNumber(_), Ready(j)) =>
      var next := NextVersion(Stored(store, KeyOf(j)));
      Numbered(j, next, SelectStrategy(s.default, s.interval, next, j.override))
    case (ReadPrevious(_, id, readable, diffable), Numbered(j, next, strategy)) =>
      if !Acceptable(s, j) then Aborted(j)
      else
        var (settled, delta) := Settle(s.types[j.entityType], j, strategy, Stored(store, KeyOf(j)), readable, diffable);
        Prepared(j, Record(id, j.entityType, j.entityID, next, settled, j.entity, delta, "", ""))
    case (ComputeHash(_, outcome), Prepared(j, r)) => Hashed(j, WithHash(Stored(store, KeyOf(j)), hash, r, outcome))
    case (Save(_, accepted), Hashed(j, r)) =>
      if accepted && FirstWith(Stored(store, KeyOf(j)), r.version).None? then Finished(j, r) else Aborted(j)
    case (Abort(_), Ready(j)) => Aborted(j)
    case (Abort(_), Numbered(j, _, _)) => Aborted(j)
    case (Abort(_), Prepared(j, _)) => Aborted(j)
    case _ => w
  }

  /** One step of one worker, a new call, or one update of a running compaction. */
  ghost function Step(s: Settings, hash: Hasher, world: World, e: Event): World {
    match e
    case Spawn(j) => if Acceptable(s, j) then world.(workers := world.workers + [Ready(j)]) else world
    case CompactOne(key, i) =>
      var h := Stored(world.store, key);
      if i < |h| && !h[i].strategy.Full? then world.(store := world.store[key := h[i := Snapshotted(h[i])]]) else world
    case _ =>
      if e.w >= |world.workers| then world
      else
        var old', new' := world.workers[e.w], Advance(s, hash, world.store, world.workers[e.w], e);
        var store :=
          if new'.Finished? && !old'.Finished?
          then world.store[KeyOf(new'.job) := Stored(world.store, KeyOf(new'.job)) + [new'.record]]
          else world.store;
        World(store, world.workers[e.w := new'])
  }

  /** What a compaction update makes of a delta record. */
  function Snapshotted(r: Record): Record {
    r.(strategy := Full, delta := None, hash := "", previousHash := "")
  }

  ghost function Run(s: Settings, hash: Hasher, world: World, events: seq<Event>): World
    decreases |events|
  {
    if events == [] then world else Run(s, hash, Step(s, hash, world, events[0]), events[1..])
  }

  const EMPTY := World(map[], [])

  // ----- The invariant -----

  ghost predicate Owns(key: EntityKey, r: Record) {
    r.entityType == key.entityType && r.entityID == key.entityID
  }

  /** The history of one entity. */
  ghost predicate HistoryOk(s: Settings, key: EntityKey, h: seq<Record>) {
    && key.entityType in s.types
    && Faithful(s.types[key.entityType], h)
    && (forall i :: 0 <= i < |h| ==> Owns(key, h[i]))
    && (!s.allowTx ==> AllValidated(s.types[key.entityType], h))
  }

  /** A record not yet saved: if its number is still free, it fits after the history. */
  ghost predicate RecordOk(s: Settings, h: seq<Record>, j: Job, r: Record) {
    && Acceptable(s, j) && Owns(KeyOf(j), r) && r.data == j.entity
    && 1 <= r.version <= |h| + 1
    && (r.version == |h| + 1 ==>
          && Follows(s.types[j.entityType], h, r)
          && (!s.allowTx && h != [] && !r.strategy.Full? ==> Validated(s.types[j.entityType], h[|h| - 1], r)))
  }

  ghost predicate WorkerOk(s: Settings, store: Ledger, w: Worker) {
    match w
    case Ready(j) => Acceptable(s, j)
    case Numbered(j, next, strategy) =>
      && Acceptable(s, j) && 1 <= next <= |Stored(store, KeyOf(j))| + 1 && !strategy.Hybrid? && (next == 1 ==>
        strategy.Full?)
    case Prepared(j, r) => RecordOk(s, Stored(store, KeyOf(j)), j, r)
    case Hashed(j, r) => RecordOk(s, Stored(store, KeyOf(j)), j, r)
    case _ => true
  }

  ghost predicate Inv(s: Settings, world: World) {
    && (forall key :: key in world.store ==> HistoryOk(s, key, world.store[key]))
    && (forall i :: 0 <= i < |world.workers| ==> WorkerOk(s, world.store, world.workers[i]))
  }

  // ----- It is kept -----

  /** A record with a free number is the one after the latest, so the latest read then is
      the version before it. */
  lemma SettleFollows(s: Settings, h: seq<Record>, j: Job, next: int, strategy: Strategy, r: Record, readable: bool,
      diffable: bool)
    requires Acceptable(s, j) && Faithful(s.types[j.entityType], h)
    requires next == |h| + 1 && !strategy.Hybrid? && (next == 1 ==> strategy.Full?)
    requires r.version == next && r.data == j.entity
    requires (r.strategy, r.delta) == Settle(s.types[j.entityType], j, strategy, h, readable, diffable)
    ensures Follows(s.types[j.entityType], h, r)
    ensures !j.inTx && h != [] && !r.strategy.Full? ==> Validated(s.types[j.entityType], h[|h| - 1], r)
  {
    GaplessLatest(h);
    if !r.strategy.Full? { SettledLinks(s, j, h[|h| - 1], r); }
  }

  /** A record that is no snapshot is linked to the version it was settled against. */
  lemma SettledLinks(s: Settings, j: Job, prev: Record, r: Record)
    requires Acceptable(s, j) && HasType(prev.data, s.types[j.entityType]) && r.data == j.entity && !r.strategy.Full?
    requires (r.strategy, r.delta) ==
             SettleAgainst(s.types[j.entityType], j, r.strategy, Held(s.types[j.entityType], prev), true)
    ensures Linked(s.types[j.entityType], prev, r)
    ensures !j.inTx ==> Validated(s.types[j.entityType], prev, r)
  {
    RoundTrip.EmptyDelta(s.types[j.entityType], Held(s.types[j.entityType], prev), j.entity);
  }

  lemma SettledOk(s: Settings, store: Ledger, j: Job, next: int, strategy: Strategy, id: string, readable: bool,
      diffable: bool)
    requires WorkerOk(s, store, Numbered(j, next, strategy))
    requires KeyOf(j) in store ==> HistoryOk(s, KeyOf(j), store[KeyOf(j)])
    ensures var h := Stored(store, KeyOf(j));
            var (settled, delta) := Settle(s.types[j.entityType], j, strategy, h, readable, diffable);
            RecordOk(s, h, j, Record(id, j.entityType, j.entityID, next, settled, j.entity, delta, "", ""))
  {
    var h := Stored(store, KeyOf(j));
    var (settled, delta) := Settle(s.types[j.entityType], j, strategy, h, readable, diffable);
    var r := Record(id, j.entityType, j.entityID, next, settled, j.entity, delta, "", "");
    assert Faithful(s.types[j.entityType], h);
    if next == |h| + 1 { SettleFollows(s, h, j, next, strategy, r, readable, diffable); }
  }

  /** Hashing changes nothing the invariant speaks of. */
  lemma HashedOk(s: Settings, h: seq<Record>, hash: Hasher, j: Job, r: Record, outcome: HashOutcome)
    requires RecordOk(s, h, j, r)
    ensures RecordOk(s, h, j, WithHash(h, hash, r, outcome))
  {
    var r' := WithHash(h, hash, r, outcome);
    assert r' == r.(hash := r'.hash, previousHash := r'.previousHash);
    if r.version == |h| + 1 && !r.strategy.Full? {
      assert Linked(s.types[j.entityType], h[|h| - 1], r) ==> Linked(s.types[j.entityType], h[|h| - 1], r');
    }
  }

  lemma AdvanceOk(s: Settings, hash: Hasher, world: World, e: Event, w: Worker)
    requires Inv(s, world) && WorkerOk(s, world.store, w)
    ensures WorkerOk(s, world.store, Advance(s, hash, world.store, w, e))
  {
    var w' := Advance(s, hash, world.store, w, e);
    if w'.Numbered? && w.Ready? {
      GaplessLatest(Stored(world.store, KeyOf(w.job)));
    } else if w'.Prepared? && w.Numbered? {
      SettledOk(s, world.store, w.job, w.next, w.strategy, e.id, e.readable, e.diffable);
    } else if w'.Hashed? && w.Prepared? {
      HashedOk(s, Stored(world.store, KeyOf(w.job)), hash, w.job, w.record, e.outcome);
    }
  }

  /** Saving a record whose number is free extends its history. */
  lemma SavedOk(s: Settings, store: Ledger, j: Job, r: Record)
    requires RecordOk(s, Stored(store, KeyOf(j)), j, r)
    requires KeyOf(j) in store ==> HistoryOk(s, KeyOf(j), store[KeyOf(j)])
    requires FirstWith(Stored(store, KeyOf(j)), r.version).None?
    ensures HistoryOk(s, KeyOf(j), Stored(store, KeyOf(j)) + [r])
  {
    var t, h := s.types[j.entityType], Stored(store, KeyOf(j));
    assert Faithful(t, h);
    GaplessFind(h, r.version);
    assert r.version == |h| + 1;
    FaithfulExtends(t, h, r);
    if !s.allowTx { ValidatedExtends(t, h, r); }
  }

  /** One more record, or as many as before with the same data at the end. */
  ghost predicate GrewOrKept(h: seq<Record>, h': seq<Record>) {
    |h'| == |h| + 1 || (|h'| == |h| && (h != [] ==> h'[|h| - 1].data == h[|h| - 1].data))
  }

  /** A record in flight that still has the next number fits as it did: the data before it are
      the same. */
  lemma OtherRecordOk(s: Settings, h: seq<Record>, h': seq<Record>, j: Job, r: Record)
    requires RecordOk(s, h, j, r) && GrewOrKept(h, h')
    ensures RecordOk(s, h', j, r)
  {
    if r.version == |h'| + 1 && !r.strategy.Full? {
      assert |h'| == |h|;
      SameBefore(s.types[j.entityType], h, h', r);
    }
  }

  lemma SameBefore(t: Ty, h: seq<Record>, h': seq<Record>, r: Record)
    requires h != [] && |h'| == |h| && h'[|h| - 1].data == h[|h| - 1].data && Linked(t, h[|h| - 1], r)
    ensures Linked(t, h'[|h| - 1], r)
    ensures Validated(t, h[|h| - 1], r) ==> Validated(t, h'[|h| - 1], r)
  {
  }

  /** A history that grew, or had deltas turned into snapshots, leaves other workers right. */
  lemma OtherWorkerOk(s: Settings, store: Ledger, key: EntityKey, h': seq<Record>, w: Worker)
    requires WorkerOk(s, store, w)
    requires GrewOrKept(Stored(store, key), h')
    ensures WorkerOk(s, store[key := h'], w)
  {
    if (w.Prepared? || w.Hashed?) && KeyOf(w.job) == key { OtherRecordOk(s, Stored(store, key), h', w.job, w.record); }
  }

  lemma SnapshotOk(s: Settings, key: EntityKey, h: seq<Record>, i: nat)
    requires HistoryOk(s, key, h) && i < |h| && !h[i].strategy.Full?
    ensures HistoryOk(s, key, h[i := Snapshotted(h[i])]) && GrewOrKept(h, h[i := Snapshotted(h[i])])
  {
    var t, h' := s.types[key.entityType], h[i := Snapshotted(h[i])];
    assert forall k :: 0 <= k < |h| ==> h'[k].data == h[k].data && h'[k].version == h[k].version;
    forall k | 0 <= k < |h'| ensures HasType(h'[k].data, t) && !h'[k].strategy.Hybrid? && Owns(key, h'[k]) {
      assert h'[k].data == h[k].data && Owns(key, h[k]);
    }
    forall k | 1 <= k < |h'| && !h'[k].strategy.Full?
      ensures Linked(t, h'[k - 1], h'[k]) && (!s.allowTx ==> Validated(t, h'[k - 1], h'[k]))
    {
      assert h'[k] == h[k] && Linked(t, h[k - 1], h[k]);
      assert !s.allowTx ==> Validated(t, h[k - 1], h[k]);
    }
  }

  lemma StoreChangeKeeps(s: Settings, world: World, key: EntityKey, h': seq<Record>)
    requires Inv(s, world) && HistoryOk(s, key, h')
    requires GrewOrKept(Stored(world.store, key), h')
    ensures Inv(s, world.(store := world.store[key := h']))
  {
    forall i | 0 <= i < |world.workers| ensures WorkerOk(s, world.store[key := h'], world.workers[i]) {
      OtherWorkerOk(s, world.store, key, h', world.workers[i]);
    }
  }

  lemma StepKeeps(s: Settings, hash: Hasher, world: World, e: Event)
    requires Inv(s, world)
    ensures Inv(s, Step(s, hash, world, e))
  {
    if e.CompactOne? {
      CompactStepKeeps(s, world, e.key, e.i);
    } else if !e.Spawn? && e.w < |world.workers| {
      WorkerStepKeeps(s, hash, world, e);
    }
  }

  lemma CompactStepKeeps(s: Settings, world: World, key: EntityKey, i: nat)
    requires Inv(s, world)
    ensures var h := Stored(world.store, key);
            i < |h| && !h[i].strategy.Full? ==> Inv(s, world.(store := world.store[key := h[i := Snapshotted(h[i])]]))
  {
    var h := Stored(world.store, key);
    if i < |h| && !h[i].strategy.Full? {
      SnapshotOk(s, key, h, i);
      StoreChangeKeeps(s, world, key, h[i := Snapshotted(h[i])]);
    }
  }

  lemma MoveKeeps(s: Settings, world: World, i: nat, w': Worker)
    requires Inv(s, world) && i < |world.workers| && WorkerOk(s, world.store, w')
    ensures Inv(s, World(world.store, world.workers[i := w']))
  {
  }

  lemma WorkerStepKeeps(s: Settings, hash: Hasher, world: World, e: Event)
    requires Inv(s, world) && !e.CompactOne? && !e.Spawn? && e.w < |world.workers|
    ensures Inv(s, Step(s, hash, world, e))
  {
    var w := world.workers[e.w];
    var w' := Advance(s, hash, world.store, w, e);
    AdvanceOk(s, hash, world, e, w);
    MoveKeeps(s, world, e.w, w');
    if w.Hashed? && w'.Finished? { SaveKeeps(s, World(world.store, world.workers[e.w := w']), w.job, w.record); }
  }

  lemma SaveKeeps(s: Settings, world: World, j: Job, r: Record)
    requires Inv(s, world) && RecordOk(s, Stored(world.store, KeyOf(j)), j, r)
    requires FirstWith(Stored(world.store, KeyOf(j)), r.version).None?
    ensures Inv(s, World(world.store[KeyOf(j) := Stored(world.store, KeyOf(j)) + [r]], world.workers))
  {
    SavedOk(s, world.store, j, r);
    StoreChangeKeeps(s, world, KeyOf(j), Stored(world.store, KeyOf(j)) + [r]);
  }

  /** Whatever the interleaving, however many workers, and whatever fails on the way. */
  lemma {:induction false} RunKeeps(s: Settings, hash: Hasher, world: World, events: seq<Event>)
    requires Inv(s, world)
    ensures Inv(s, Run(s, hash, world, events))
    decreases |events|
  {
    if events != [] {
      StepKeeps(s, hash, world, events[0]);
      RunKeeps(s, hash, Step(s, hash, world, events[0]), events[1..]);
    }
  }
}
