/** One versioning call from start to end, over the store, the diff engine and the hash
    chain; run alone it is the protocol's steps in a row. */
module Auditor {
  import opened Prelude
  import opened Entities
  import opened Changes
  import opened DiffEngine
  import opened Records
  import opened Reconstruction
  import opened HashChain
  import opened Protocol
  import Json

  datatype AuditError = NotRegistered | EmptyID | Refused | ReadFailed | StorageFailed

  /** What the surroundings do to one call: a hook or a size limit may refuse it, a read or
      the save may fail, the previous data may not decode, the hash step may not finish. */
  datatype Surroundings = Surroundings(
    refused: bool,
    numberReadable: bool,
    previousReadable: bool,
    tooLarge: bool,
    hashing: HashOutcome,
    saves: bool)

  function Chosen(s: Settings, h: seq<Record>, j: Job): Strategy {
    SelectStrategy(s.default, s.interval, NextVersion(h), j.override)
  }

  ghost function Unhashed(s: Settings, h: seq<Record>, j: Job, id: string, readable: bool, diffable: bool): (r: Record)
    requires Acceptable(s, j)
    ensures r.version == NextVersion(h) && r.entityType == j.entityType && r.entityID == j.entityID
  {
    var (settled, delta) := Settle(s.types[j.entityType], j, Chosen(s, h, j), h, readable, diffable);
    Record(id, j.entityType, j.entityID, NextVersion(h), settled, j.entity, delta, "", "")
  }

  /** The record a call comes to on a history. */
  ghost function Versioned(s: Settings, hash: Hasher, h: seq<Record>, j: Job, id: string, readable: bool,
      diffable: bool, outcome: HashOutcome): (r: Record)
    requires Acceptable(s, j)
    ensures r.version == NextVersion(h) && r.entityType == j.entityType && r.entityID == j.entityID
  {
    WithHash(h, hash, Unhashed(s, h, j, id, readable, diffable), outcome)
  }

  class Auditor {
    const settings: Settings
    const hash: Hasher
    const store: Store
    const engine: Engine

    constructor (settings: Settings, hash: Hasher, store: Store, engine: Engine)
      ensures this.settings == settings && this.hash == hash && this.store == store && this.engine == engine
    {
      this.settings, this.hash, this.store, this.engine := settings, hash, store, engine;
    }

    ghost function HistoryOf(j: Job): seq<Record>
      reads store
    {
      History(store.records, Key(j.entityType, j.entityID))
    }

    method Next(j: Job) returns (next: int)
      ensures next == NextVersion(HistoryOf(j))
    {
      var latest := store.GetLatest(j.entityType, j.entityID);
      match latest
      case None => next := 1;
      case Some(r) => next := r.version + 1;
    }

    /** The diff against the previous data, and its validation outside transactions. */
    method DiffAgainst(j: Job, chosen: Strategy, prev: Value)
      returns (strategy: Strategy, delta: Option<Delta>, ghost diffable: bool)
      requires Acceptable(settings, j) && HasType(prev, settings.types[j.entityType]) && engine.Valid()
      modifies engine`cache
      ensures engine.Valid()
      ensures (strategy, delta) == SettleAgainst(settings.types[j.entityType], j, chosen, prev, diffable)
      ensures old(engine.Room(StructTypes(settings.types[j.entityType]))) ==> diffable
    {
      var t := settings.types[j.entityType];
      var changes := engine.Diff(t, prev, t, j.entity);
      diffable := changes != Err(CacheFull);
      if changes.Err? { return Full, None, diffable; }
      if changes.value == [] { return chosen, None, true; }
      if !j.inTx {
        var replayed := engine.Apply(t, prev, changes.value);
        if replayed.Err? || !Json.Alike(replayed.value, j.entity) { return Full, None, true; }
      }
      strategy, delta := chosen, Some(changes.value);
    }

    /** The delta against the latest version, unless something stands in its way. */
    method Prepare(j: Job, chosen: Strategy, readable: bool)
      returns (strategy: Strategy, delta: Option<Delta>, ghost diffable: bool)
      requires Acceptable(settings, j) && engine.Valid()
      modifies engine`cache
      ensures engine.Valid()
      ensures (strategy, delta) == Settle(settings.types[j.entityType], j, chosen, HistoryOf(j), readable, diffable)
      ensures old(engine.Room(StructTypes(settings.types[j.entityType]))) ==> diffable
    {
      if chosen.Full? { return Full, None, true; }
      var latest := store.GetLatest(j.entityType, j.entityID);
      if latest.None? || !readable { return Full, None, true; }
      var prev := Decode(settings.types[j.entityType], latest.value.data);
      if prev.Err? { return Full, None, true; }
      strategy, delta, diffable := DiffAgainst(j, chosen, prev.value);
    }

    method Link(record: Record, outcome: HashOutcome) returns (r: Record)
      ensures r == WithHash(History(store.records, Key(record.entityType, record.entityID)), hash, record, outcome)
    {
      r := record;
      if outcome.HashComputeFailed? || outcome.HashDone? {
        var linked, error := ComputeAndStore(store, hash, outcome.HashComputeFailed?, record);
        r := linked;
      }
    }

    method Draft(j: Job, id: string, readable: bool) returns (r: Record, ghost diffable: bool)
      requires Acceptable(settings, j) && engine.Valid()
      modifies engine`cache
      ensures engine.Valid()
      ensures r == Unhashed(settings, HistoryOf(j), j, id, readable, diffable)
      ensures old(engine.Room(StructTypes(settings.types[j.entityType]))) ==> diffable
    {
      var next := Next(j);
      var chosen := SelectStrategy(settings.default, settings.interval, next, j.override);
      var strategy, delta, ok := Prepare(j, chosen, readable);
      r, diffable := Record(id, j.entityType, j.entityID, next, strategy, j.entity, delta, "", ""), ok;
    }

    /** The record of a call, up to the point where it is saved. */
    method Build(j: Job, id: string, env: Surroundings) returns (r: Record, ghost diffable: bool)
      requires Acceptable(settings, j) && engine.Valid()
      modifies engine`cache
      ensures engine.Valid()
      ensures r == Versioned(settings, hash, HistoryOf(j), j, id, env.previousReadable, diffable, env.hashing)
      ensures old(engine.Room(StructTypes(settings.types[j.entityType]))) ==> diffable
    {
      var draft, ok := Draft(j, id, env.previousReadable);
      r := Link(draft, env.hashing);
      diffable := ok;
    }

    /** A call that is not interleaved with others either saves the record its history calls
        for, as the next version, or changes nothing. */
    method Version(j: Job, id: string, env: Surroundings) returns (r: Result<Record, AuditError>, ghost diffable: bool)
      requires j.entityType in settings.types ==> Acceptable(settings, j)
      requires engine.Valid()
      modifies store, engine`cache
      ensures engine.Valid()
      ensures r.Ok? <==> j.entityType in settings.types && j.entityID != "" && !env.refused && env.numberReadable
                         && !env.tooLarge && env.saves
      ensures r.Err? ==> store.records == old(store.records)
      ensures r.Ok? ==>
                && r.value ==
                   Versioned(settings, hash, old(HistoryOf(j)), j, id, env.previousReadable, diffable, env.hashing)
                && store.records == old(store.records)[Key(j.entityType, j.entityID) := old(HistoryOf(j)) + [r.value]]
                && (old(engine.Room(StructTypes(settings.types[j.entityType]))) ==> diffable)
    {
      diffable := true;
      if j.entityType !in settings.types { return Err(NotRegistered), true; }
      if j.entityID == "" { return Err(EmptyID), true; }
      if env.refused { return Err(Refused), true; }
      if !env.numberReadable { return Err(ReadFailed), true; }
      var record, ok := Build(j, id, env);
      if env.tooLarge { return Err(Refused), true; }
      if !env.saves { return Err(StorageFailed), true; }
      store.Save(record);
      r, diffable := Ok(record), ok;
    }
  }

  /** The next number is free: alone, a call never runs into the unique key. */
  lemma NextIsFree(h: seq<Record>)
    ensures FirstWith(h, NextVersion(h)).None?
  {
    assert h != [] ==> IsLatest(h, LatestOf(h).value);
  }

  /** The protocol's five steps of one call, with nothing in between, come to the record of
      a call run alone. */
  lemma AloneIsARun(s: Settings, hash: Hasher, world: World, j: Job, id: string, readable: bool, diffable: bool,
      outcome: HashOutcome)
    requires Acceptable(s, j)
    ensures var n, h := |world.workers|, Stored(world.store, KeyOf(j));
            var r := Versioned(s, hash, h, j, id, readable, diffable, outcome);
            Run(s, hash, world,
                [Spawn(j), ReadNumber(n), ReadPrevious(n, id, readable, diffable), ComputeHash(n, outcome),
                 Save(n, true)])
            == World(world.store[KeyOf(j) := h + [r]], world.workers + [Finished(j, r)])
  {
    var n, h, ws := |world.workers|, Stored(world.store, KeyOf(j)), world.workers;
    var w2, w3 := Numbered(j, NextVersion(h), Chosen(s, h, j)), Prepared(j, Unhashed(s, h, j, id, readable, diffable));
    var r := Versioned(s, hash, h, j, id, readable, diffable, outcome);
    OwnStep(s, hash, world.store, ws, Ready(j), ReadNumber(n), w2);
    OwnStep(s, hash, world.store, ws, w2, ReadPrevious(n, id, readable, diffable), w3);
    OwnStep(s, hash, world.store, ws, w3, ComputeHash(n, outcome), Hashed(j, r));
    LastStep(s, hash, world.store, ws, j, r);
    RunFive(s, hash, world, Spawn(j), ReadNumber(n), ReadPrevious(n, id, readable, diffable), ComputeHash(n, outcome),
            Save(n, true));
  }

  lemma LastStep(s: Settings, hash: Hasher, store: Ledger, ws: seq<Worker>, j: Job, r: Record)
    requires r.version == NextVersion(Stored(store, KeyOf(j)))
    ensures Step(s, hash, World(store, ws + [Hashed(j, r)]), Save(|ws|, true)) ==
            World(store[KeyOf(j) := Stored(store, KeyOf(j)) + [r]], ws + [Finished(j, r)])
  {
    NextIsFree(Stored(store, KeyOf(j)));
    assert (ws + [Hashed(j, r)])[|ws| := Finished(j, r)] == ws + [Finished(j, r)];
  }

  /** A step of the worker spawned last, short of saving. */
  lemma OwnStep(s: Settings, hash: Hasher, store: Ledger, ws: seq<Worker>, w: Worker, e: Event, w': Worker)
    requires !e.Spawn? && !e.CompactOne? && e.w == |ws|
    requires w' == Advance(s, hash, store, w, e) && !w'.Finished?
    ensures Step(s, hash, World(store, ws + [w]), e) == World(store, ws + [w'])
  {
    assert (ws + [w])[|ws| := w'] == ws + [w'];
  }

  lemma RunFive(s: Settings, hash: Hasher, world: World, a: Event, b: Event, c: Event, d: Event, e: Event)
    ensures Run(s, hash, world, [a, b, c, d, e]) ==
            Step(s, hash, Step(s, hash, Step(s, hash, Step(s, hash, Step(s, hash, world, a), b), c), d), e)
  {
    RunOne(s, hash, world, a, [b, c, d, e]);
    var w1 := Step(s, hash, world, a);
    RunOne(s, hash, w1, b, [c, d, e]);
    var w2 := Step(s, hash, w1, b);
    RunOne(s, hash, w2, c, [d, e]);
    var w3 := Step(s, hash, w2, c);
    RunOne(s, hash, w3, d, [e]);
    RunOne(s, hash, Step(s, hash, w3, d), e, []);
  }

  lemma RunOne(s: Settings, hash: Hasher, world: World, e: Event, rest: seq<Event>)
    ensures Run(s, hash, world, [e] + rest) == Run(s, hash, Step(s, hash, world, e), rest)
  {
    assert ([e] + rest)[1..] == rest;
  }
}
