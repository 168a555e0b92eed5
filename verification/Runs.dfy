/** What holds of every history that any run of the versioning protocol leaves. */
module Runs {
  import opened Prelude
  import opened Entities
  import opened Changes
  import opened Merge
  import opened DiffEngine
  import opened Records
  import opened Reconstruction
  import opened Histories
  import opened HashChain
  import opened Protocol
  import Answers
  import Json

  lemma EmptyInv(s: Settings)
    ensures Inv(s, EMPTY)
  {
  }

  /** The history a run leaves for one entity. */
  ghost function HistoryOf(s: Settings, hash: Hasher, events: seq<Event>, key: EntityKey): seq<Record> {
    Stored(Run(s, hash, EMPTY, events).store, key)
  }

  lemma RunFaithful(s: Settings, hash: Hasher, events: seq<Event>, key: EntityKey)
    ensures HistoryOf(s, hash, events, key) != [] ==> HistoryOk(s, key, HistoryOf(s, hash, events, key))
  {
    EmptyInv(s);
    RunKeeps(s, hash, EMPTY, events);
  }

  /** Versions run from 1 without gaps or repeats, the first is a full snapshot, and each
      delta is the diff from what a reader gets of the version just before it. */
  lemma RunVersions(s: Settings, hash: Hasher, events: seq<Event>, key: EntityKey)
    ensures var h := HistoryOf(s, hash, events, key);
            h != [] ==>
              && key.entityType in s.types && Faithful(s.types[key.entityType], h)
              && (forall i :: 0 <= i < |h| ==> h[i].version == i + 1 && Owns(key, h[i]))
              && h[0].strategy.Full?
              && (forall i :: 1 <= i < |h| && h[i].delta.Some? && !h[i].strategy.Full? ==>
                    h[i].delta.value ==
                    DeltaOf(s.types[key.entityType], Held(s.types[key.entityType], h[i - 1]), h[i].data))
  {
    RunFaithful(s, hash, events, key);
    var h := HistoryOf(s, hash, events, key);
    if h != [] {
      var t := s.types[key.entityType];
      forall i | 1 <= i < |h| && h[i].delta.Some? && !h[i].strategy.Full?
        ensures h[i].delta.value == DeltaOf(t, Held(t, h[i - 1]), h[i].data)
      {
        assert Linked(t, h[i - 1], h[i]);
      }
    }
  }

  /** In every interleaving, transactions and compaction included. Where the records back to
      the nearest snapshot convey, a version is rebuilt to exactly what is carried to it from
      there, and that is right. Exactly then, and if something is carried, are all versions
      back to the snapshot rebuilt right, unless a change happens to carry into a hidden field. */
  lemma RunReconstructs(s: Settings, hash: Hasher, events: seq<Event>, key: EntityKey, v: nat)
    requires 1 <= v <= |HistoryOf(s, hash, events, key)|
    ensures key.entityType in s.types
    ensures var h, t := HistoryOf(s, hash, events, key), s.types[key.entityType];
            && Faithful(t, h) && (forall i :: 0 <= i < |h| ==> HasType(h[i].data, t)) && Nearest(h, v) >= 1
            && (ChainConveys(t, h, v) ==>
                  && RebuildsTo(t, h, v, Carried(t, h, Nearest(h, v), v))
                  && (Rebuild(t, h[..v]).Ok? ==> Right(t, h, v)))
            && (ChainUndisturbed(t, h, v) ==>
                  (AllRight(t, h, v) <==> ChainConveys(t, h, v) && Carried(t, h, Nearest(h, v), v).Some?))
  {
    RunFaithful(s, hash, events, key);
    var h, t := HistoryOf(s, hash, events, key), s.types[key.entityType];
    FaithfulTyped(t, h);
    if ChainConveys(t, h, v) {
      RebuildSound(t, h, v);
      RebuildCarried(t, h, v);
    }
    if ChainUndisturbed(t, h, v) { RebuildRight(t, h, v); }
  }

  /** Without nil maps what matters is that every delta fits the data before it. Without
      transactions deltas were validated: they fit, and they convey exactly what JSON keeps. */
  lemma RunSucceeds(s: Settings, hash: Hasher, events: seq<Event>, key: EntityKey, v: nat)
    requires 1 <= v <= |HistoryOf(s, hash, events, key)|
    ensures key.entityType in s.types
    ensures var h, t := HistoryOf(s, hash, events, key), s.types[key.entityType];
            && (AllAllocated(h) && ChainConveys(t, h, v) ==> (Rebuild(t, h[..v]).Ok? <==> ChainFits(t, h, v)))
            && (!s.allowTx && ChainConveys(t, h, v) ==> ChainFits(t, h, v))
            && (!s.allowTx && ChainUndisturbed(t, h, v) ==> (ChainConveys(t, h, v) <==> ChainPreserved(t, h, v)))
  {
    RunFaithful(s, hash, events, key);
    var h, t := HistoryOf(s, hash, events, key), s.types[key.entityType];
    if AllAllocated(h) && ChainConveys(t, h, v) { RebuildAllocated(t, h, v); }
    if !s.allowTx && ChainConveys(t, h, v) { ValidatedFits(t, h, v); }
    if !s.allowTx && ChainUndisturbed(t, h, v) { ValidatedConveys(t, h, v); }
  }

  /** Back to the nearest snapshot every version stored a change. */
  ghost predicate AllChanged(h: seq<Record>, v: nat)
    requires 1 <= v <= |h|
    decreases v
  {
    h[v - 1].strategy.Full? || (v > 1 && h[v - 1].delta.Some? && AllChanged(h, v - 1))
  }

  lemma {:induction false} ChangedExact(t: Ty, h: seq<Record>, v: nat)
    requires Faithful(t, h) && AllValidated(t, h) && 1 <= v <= |h| && AllChanged(h, v)
    ensures ExactChain(t, h, v)
    decreases v
  {
    if !h[v - 1].strategy.Full? {
      assert Linked(t, h[v - 2], h[v - 1]) && Validated(t, h[v - 2], h[v - 1]);
      ChangedExact(t, h, v - 1);
    }
  }

  /** Without transactions, a version whose chain has no empty delta is rebuilt to the very
      JSON that was stored, whatever its type and whatever is nil in it. */
  lemma RunReconstructsExactly(s: Settings, hash: Hasher, events: seq<Event>, key: EntityKey, v: nat)
    requires !s.allowTx && 1 <= v <= |HistoryOf(s, hash, events, key)| && AllChanged(HistoryOf(s, hash, events, key), v)
    ensures key.entityType in s.types
    ensures var r := Rebuild(s.types[key.entityType], HistoryOf(s, hash, events, key)[..v]);
            r.Ok? && Json.Alike(r.value, HistoryOf(s, hash, events, key)[v - 1].data)
  {
    RunFaithful(s, hash, events, key);
    var h, t := HistoryOf(s, hash, events, key), s.types[key.entityType];
    ChangedExact(t, h, v);
    RebuildExact(t, h, v);
  }

  // ----- Two reads -----

  lemma EvolvedTwice(h: seq<Record>, later: seq<Record>, last: seq<Record>)
    requires Evolved(h, later) && Evolved(later, last)
    ensures Evolved(h, last)
  {
    forall i | 0 <= i < |h| ensures EvolvedRecord(h[i], last[i]) {
      assert EvolvedRecord(h[i], later[i]) && EvolvedRecord(later[i], last[i]);
    }
  }

  lemma StepEvolves(s: Settings, hash: Hasher, world: World, e: Event, key: EntityKey)
    ensures Evolved(Stored(world.store, key), Stored(Step(s, hash, world, e).store, key))
  {
  }

  lemma {:induction false} RunEvolves(s: Settings, hash: Hasher, world: World, events: seq<Event>, key: EntityKey)
    ensures Evolved(Stored(world.store, key), Stored(Run(s, hash, world, events).store, key))
    decreases |events|
  {
    if events != [] {
      var next := Step(s, hash, world, events[0]);
      StepEvolves(s, hash, world, events[0], key);
      RunEvolves(s, hash, next, events[1..], key);
      EvolvedTwice(Stored(world.store, key), Stored(next.store, key), Stored(Run(s, hash, world, events).store, key));
    }
  }

  lemma {:induction false} RunBoth(s: Settings, hash: Hasher, w: World, es: seq<Event>, fs: seq<Event>)
    ensures Run(s, hash, w, es + fs) == Run(s, hash, Run(s, hash, w, es), fs)
    decreases |es|
  {
    if es == [] {
      assert es + fs == fs;
    } else {
      assert (es + fs)[0] == es[0] && (es + fs)[1..] == es[1..] + fs;
      RunBoth(s, hash, Step(s, hash, w, es[0]), es[1..], fs);
    }
  }

  /** Reconstruct reads twice, and the run goes on in between: it answers as it would at the
      second read, unless the version lies past the page and was compacted in between. */
  lemma RunAnswerBetween(
    s: Settings, hash: Hasher, events: seq<Event>, more: seq<Event>, key: EntityKey, registry: Registry, target: nat,
    limit: nat)
    requires 1 <= target <= |HistoryOf(s, hash, events, key)| && key.entityType in registry && key.entityType in s.types
    requires registry[key.entityType].ty == s.types[key.entityType]
    ensures var h, later := HistoryOf(s, hash, events, key), HistoryOf(s, hash, events + more, key);
            && Evolved(h, later)
            && AnswerBetween(registry, h, later, key.entityType, target, limit) ==
               if 0 < limit < target && later[target - 1].strategy.Full? && !h[target - 1].strategy.Full?
               then Rebuild(s.types[key.entityType], later[..limit])
               else Answer(registry, later, key.entityType, target, limit)
  {
    RunFaithful(s, hash, events, key);
    RunFaithful(s, hash, events + more, key);
    RunBoth(s, hash, EMPTY, events, more);
    RunEvolves(s, hash, Run(s, hash, EMPTY, events), more, key);
    AnswerEvolved(registry, HistoryOf(s, hash, events, key), HistoryOf(s, hash, events + more, key), key.entityType,
      target, limit);
  }

  /** What a run leaves is not found exactly under a number it did not give out, and the type
      is unknown exactly if it is not registered, whatever happens between the two reads. */
  lemma RunAnswerFaults(
    s: Settings, hash: Hasher, events: seq<Event>, more: seq<Event>, key: EntityKey, registry: Registry, target: int,
    limit: nat)
    ensures var h, later := HistoryOf(s, hash, events, key), HistoryOf(s, hash, events + more, key);
            var a := AnswerBetween(registry, h, later, key.entityType, target, limit);
            && (a == Err(UnknownType) <==> key.entityType !in registry)
            && (a == Err(NotFound) <==> key.entityType in registry && (target < 1 || target > |h|))
  {
    var h, later := HistoryOf(s, hash, events, key), HistoryOf(s, hash, events + more, key);
    RunFaithful(s, hash, events, key);
    RunFaithful(s, hash, events + more, key);
    RunBoth(s, hash, EMPTY, events, more);
    RunEvolves(s, hash, Run(s, hash, EMPTY, events), more, key);
    GaplessFind(h, target);
    if key.entityType in registry && 1 <= target <= |h| {
      assert later[0].strategy.Full?;
      FoundInRun(registry, h, later, key.entityType, target, limit);
    }
  }

  lemma FoundInRun(registry: Registry, h: seq<Record>, later: seq<Record>, entityType: string, target: nat, limit: nat)
    requires entityType in registry && Gapless(h) && Gapless(later) && 1 <= target <= |h| <= |later|
    requires later[0].strategy.Full?
    ensures var a := AnswerBetween(registry, h, later, entityType, target, limit);
            a != Err(UnknownType) && a != Err(NotFound)
  {
    GaplessFind(h, target);
    ShownPage(later, target, limit);
    var listed := later[..Shown(target, limit)];
    assert listed[0].strategy == Full;
    Answers.RebuildFaults(registry[entityType].ty, listed, FieldNotFound);
  }

  // ----- The hash chain of a run -----

  /** Record `i` has no hash, or comes after one without, or is linked to the one before it. */
  ghost predicate HashOk(hash: Hasher, h: seq<Record>, i: nat)
    requires i < |h|
  {
    h[i].hash == "" || (i > 0 && h[i - 1].hash == "") || LinkAt(hash, h, i)
  }

  ghost predicate HashesOk(hash: Hasher, h: seq<Record>) {
    forall i :: 0 <= i < |h| ==> HashOk(hash, h, i)
  }

  /** The same for a record not yet saved, as long as its number is free. */
  ghost predicate PendingHashOk(hash: Hasher, store: Ledger, w: Worker) {
    match w
    case Prepared(_, r) => r.hash == ""
    case Hashed(j, r) =>
      var h := Stored(store, KeyOf(j));
      r.version == |h| + 1 ==> HashOk(hash, h + [r], |h|)
    case _ => true
  }

  ghost predicate HashInv(hash: Hasher, world: World) {
    && (forall key :: key in world.store ==> HashesOk(hash, world.store[key]))
    && (forall i :: 0 <= i < |world.workers| ==> PendingHashOk(hash, world.store, world.workers[i]))
  }

  lemma HashStepOk(s: Settings, hash: Hasher, world: World, j: Job, r: Record, outcome: HashOutcome)
    requires Inv(s, world) && RecordOk(s, Stored(world.store, KeyOf(j)), j, r) && r.hash == ""
    ensures PendingHashOk(hash, world.store, Hashed(j, WithHash(Stored(world.store, KeyOf(j)), hash, r, outcome)))
  {
    var h := Stored(world.store, KeyOf(j));
    assert Gapless(h);
    if r.version == |h| + 1 { LinkedAtEnd(hash, h, r, outcome); }
  }

  lemma LinkedAtEnd(hash: Hasher, h: seq<Record>, r: Record, outcome: HashOutcome)
    requires Gapless(h) && r.version == |h| + 1 && r.hash == ""
    ensures HashOk(hash, h + [WithHash(h, hash, r, outcome)], |h|)
  {
    GaplessFind(h, r.version - 1);
    var r' := WithHash(h, hash, r, outcome);
    assert (h + [r'])[|h|] == r' && (|h| > 0 ==> (h + [r'])[|h| - 1] == h[|h| - 1]);
  }

  lemma SaveHashOk(hash: Hasher, h: seq<Record>, r: Record)
    requires HashesOk(hash, h) && HashOk(hash, h + [r], |h|)
    ensures HashesOk(hash, h + [r])
  {
    var g := h + [r];
    forall i | 0 <= i < |g| ensures HashOk(hash, g, i) {
      if i < |h| { assert HashOk(hash, h, i); }
    }
  }

  lemma AdvanceHashOk(s: Settings, hash: Hasher, world: World, w: Worker, e: Event)
    requires Inv(s, world) && WorkerOk(s, world.store, w) && PendingHashOk(hash, world.store, w)
    ensures PendingHashOk(hash, world.store, Advance(s, hash, world.store, w, e))
  {
    if w.Prepared? && e.ComputeHash? { HashStepOk(s, hash, world, w.job, w.record, e.outcome); }
  }

  lemma MoveKeepsHashes(hash: Hasher, world: World, i: nat, w': Worker)
    requires HashInv(hash, world) && i < |world.workers| && PendingHashOk(hash, world.store, w')
    ensures HashInv(hash, World(world.store, world.workers[i := w']))
  {
  }

  lemma SaveKeepsHashes(s: Settings, hash: Hasher, world: World, i: nat, w: Worker)
    requires Inv(s, world) && HashInv(hash, world) && i < |world.workers| && world.workers[i] == w && w.Hashed?
    requires FirstWith(Stored(world.store, KeyOf(w.job)), w.record.version).None?
    ensures HashInv(hash, World(world.store[KeyOf(w.job) := Stored(world.store, KeyOf(w.job)) + [w.record]],
                                world.workers[i := Finished(w.job, w.record)]))
  {
    var h := Stored(world.store, KeyOf(w.job));
    assert WorkerOk(s, world.store, w) && PendingHashOk(hash, world.store, w) && Gapless(h) && HashesOk(hash, h);
    GaplessFind(h, w.record.version);
    SaveHashOk(hash, h, w.record);
    SaveOthersHashOk(s, hash, world, KeyOf(w.job), w.record);
    HistoryKeepsHashes(hash, world, KeyOf(w.job), h + [w.record]);
    var saved := World(world.store[KeyOf(w.job) := h + [w.record]], world.workers);
    assert PendingHashOk(hash, saved.store, Finished(w.job, w.record));
    MoveKeepsHashes(hash, saved, i, Finished(w.job, w.record));
  }

  lemma HistoryKeepsHashes(hash: Hasher, world: World, key: EntityKey, h: seq<Record>)
    requires HashInv(hash, world) && HashesOk(hash, h)
    requires forall i :: 0 <= i < |world.workers| ==> PendingHashOk(hash, world.store[key := h], world.workers[i])
    ensures HashInv(hash, World(world.store[key := h], world.workers))
  {
  }

  lemma StepKeepsHashes(s: Settings, hash: Hasher, world: World, e: Event)
    requires Inv(s, world) && HashInv(hash, world)
    ensures HashInv(hash, Step(s, hash, world, e))
  {
    if e.CompactOne? {
      CompactKeepsHashes(hash, world, e.key, e.i);
    } else if !e.Spawn? && e.w < |world.workers| {
      var w := world.workers[e.w];
      assert WorkerOk(s, world.store, w) && PendingHashOk(hash, world.store, w);
      AdvanceHashOk(s, hash, world, w, e);
      var w' := Advance(s, hash, world.store, w, e);
      if w'.Finished? && !w.Finished? {
        SaveKeepsHashes(s, hash, world, e.w, w);
      } else {
        MoveKeepsHashes(hash, world, e.w, w');
      }
    }
  }

  /** A compacted record loses its hash, and the record after it its link. */
  lemma CompactKeepsHashes(hash: Hasher, world: World, key: EntityKey, i: nat)
    requires HashInv(hash, world)
    ensures var h := Stored(world.store, key);
            i < |h| ==> HashInv(hash, world.(store := world.store[key := h[i := Snapshotted(h[i])]]))
  {
    var h := Stored(world.store, key);
    if i < |h| {
      var h' := h[i := Snapshotted(h[i])];
      forall k | 0 <= k < |h'| ensures HashOk(hash, h', k) { assert HashOk(hash, h, k); }
      forall k | 0 <= k < |world.workers| ensures PendingHashOk(hash, world.store[key := h'], world.workers[k]) {
        assert PendingHashOk(hash, world.store, world.workers[k]);
        if world.workers[k].Hashed? && KeyOf(world.workers[k].job) == key {
          PendingAfterCompaction(hash, h, i, world.workers[k].record);
        }
      }
    }
  }

  lemma PendingAfterCompaction(hash: Hasher, h: seq<Record>, i: nat, r: Record)
    requires i < |h| && (r.version == |h| + 1 ==> HashOk(hash, h + [r], |h|))
    ensures var h' := h[i := Snapshotted(h[i])]; r.version == |h'| + 1 ==> HashOk(hash, h' + [r], |h'|)
  {
    var h' := h[i := Snapshotted(h[i])];
    if r.version == |h| + 1 {
      assert (h + [r])[|h|] == r && (h + [r])[|h| - 1] == h[|h| - 1];
      assert (h' + [r])[|h|] == r && (h' + [r])[|h| - 1] == h'[|h| - 1];
    }
  }

  /** A worker whose number has just been taken by another has nothing left to promise. */
  lemma SaveOthersHashOk(s: Settings, hash: Hasher, world: World, key: EntityKey, r: Record)
    requires Inv(s, world) && HashInv(hash, world)
    ensures forall i :: 0 <= i < |world.workers| ==>
              PendingHashOk(hash, world.store[key := Stored(world.store, key) + [r]], world.workers[i])
  {
    var store' := world.store[key := Stored(world.store, key) + [r]];
    forall i | 0 <= i < |world.workers| ensures PendingHashOk(hash, store', world.workers[i]) {
      var w := world.workers[i];
      assert WorkerOk(s, world.store, w) && PendingHashOk(hash, world.store, w);
      if w.Hashed? && KeyOf(w.job) == key {
        assert w.record.version <= |Stored(world.store, key)| + 1;
      }
    }
  }

  lemma {:induction false} RunKeepsHashes(s: Settings, hash: Hasher, world: World, events: seq<Event>)
    requires Inv(s, world) && HashInv(hash, world)
    ensures HashInv(hash, Run(s, hash, world, events))
    decreases |events|
  {
    if events != [] {
      StepKeeps(s, hash, world, events[0]);
      StepKeepsHashes(s, hash, world, events[0]);
      RunKeepsHashes(s, hash, Step(s, hash, world, events[0]), events[1..]);
    }
  }

  /** Verification accepts the result of a run exactly when every record has a hash: one that
      was saved without, or lost it to compaction, is something no later one can repair. */
  lemma RunVerifies(s: Settings, hash: Hasher, events: seq<Event>, key: EntityKey)
    requires Ideal(hash)
    ensures var h := Stored(Run(s, hash, EMPTY, events).store, key);
            Chained(hash, h) <==> forall i :: 0 <= i < |h| ==> h[i].hash != ""
  {
    EmptyInv(s);
    RunKeepsHashes(s, hash, EMPTY, events);
    var h := Stored(Run(s, hash, EMPTY, events).store, key);
    if forall i :: 0 <= i < |h| ==> h[i].hash != "" {
      forall i | 0 <= i < |h| ensures LinkAt(hash, h, i) { assert HashOk(hash, h, i); }
    }
    ChainedHashed(hash, h);
  }

  lemma ChainedHashed(hash: Hasher, h: seq<Record>)
    requires Ideal(hash)
    ensures Chained(hash, h) ==> forall i :: 0 <= i < |h| ==> h[i].hash != ""
  {
    if Chained(hash, h) {
      forall i | 0 <= i < |h| ensures h[i].hash != "" {
        assert LinkAt(hash, h, i) && hash(Covered(h[i])) != "";
      }
    }
  }

  /** Every hash step gets through, and nothing is compacted. */
  predicate Smooth(events: seq<Event>) {
    forall i :: 0 <= i < |events| ==> !events[i].CompactOne? && (events[i].ComputeHash? ==> events[i].outcome.HashDone?)
  }

  ghost predicate AllHashed(h: seq<Record>) {
    forall i :: 0 <= i < |h| ==> h[i].hash != ""
  }

  ghost predicate PendingHashed(store: Ledger, w: Worker) {
    w.Hashed? && w.record.version <= |Stored(store, KeyOf(w.job))| + 1 ==> w.record.hash != ""
  }

  ghost predicate HashedInv(world: World) {
    && (forall key :: key in world.store ==> AllHashed(world.store[key]))
    && (forall i :: 0 <= i < |world.workers| ==> PendingHashed(world.store, world.workers[i]))
  }

  lemma HashDoneHashes(s: Settings, hash: Hasher, h: seq<Record>, j: Job, r: Record)
    requires Ideal(hash) && RecordOk(s, h, j, r) && Gapless(h)
    ensures WithHash(h, hash, r, HashDone).hash != ""
  {
    GaplessFind(h, r.version - 1);
  }

  lemma AdvanceHashes(s: Settings, hash: Hasher, world: World, w: Worker, e: Event)
    requires Ideal(hash) && Inv(s, world) && WorkerOk(s, world.store, w) && PendingHashed(world.store, w)
    requires e.ComputeHash? ==> e.outcome.HashDone?
    ensures PendingHashed(world.store, Advance(s, hash, world.store, w, e))
  {
    if w.Prepared? && e.ComputeHash? {
      assert KeyOf(w.job) in world.store ==> HistoryOk(s, KeyOf(w.job), world.store[KeyOf(w.job)]);
      HashDoneHashes(s, hash, Stored(world.store, KeyOf(w.job)), w.job, w.record);
    }
  }

  lemma StepHashes(s: Settings, hash: Hasher, world: World, e: Event)
    requires Ideal(hash) && Inv(s, world) && HashedInv(world)
    requires !e.CompactOne? && (e.ComputeHash? ==> e.outcome.HashDone?)
    ensures HashedInv(Step(s, hash, world, e))
  {
    if !e.Spawn? && e.w < |world.workers| {
      var w := world.workers[e.w];
      assert WorkerOk(s, world.store, w) && PendingHashed(world.store, w);
      AdvanceHashes(s, hash, world, w, e);
      var w' := Advance(s, hash, world.store, w, e);
      if w'.Finished? && !w.Finished? {
        SaveHashes(s, world, e.w, w);
      } else {
        assert HashedInv(World(world.store, world.workers[e.w := w']));
      }
    }
  }

  lemma SaveHashes(s: Settings, world: World, i: nat, w: Worker)
    requires Inv(s, world) && HashedInv(world) && i < |world.workers| && world.workers[i] == w && w.Hashed?
    requires FirstWith(Stored(world.store, KeyOf(w.job)), w.record.version).None?
    ensures HashedInv(World(world.store[KeyOf(w.job) := Stored(world.store, KeyOf(w.job)) + [w.record]],
                            world.workers[i := Finished(w.job, w.record)]))
  {
    var key, h := KeyOf(w.job), Stored(world.store, KeyOf(w.job));
    assert WorkerOk(s, world.store, w) && PendingHashed(world.store, w);
    assert AllHashed(h + [w.record]);
    forall k | 0 <= k < |world.workers| ensures PendingHashed(world.store[key := h + [w.record]], world.workers[k]) {
      assert WorkerOk(s, world.store, world.workers[k]) && PendingHashed(world.store, world.workers[k]);
    }
  }

  lemma {:induction false} RunHashes(s: Settings, hash: Hasher, world: World, events: seq<Event>)
    requires Ideal(hash) && Inv(s, world) && HashedInv(world) && Smooth(events)
    ensures HashedInv(Run(s, hash, world, events))
    decreases |events|
  {
    if events != [] {
      StepKeeps(s, hash, world, events[0]);
      StepHashes(s, hash, world, events[0]);
      RunHashes(s, hash, Step(s, hash, world, events[0]), events[1..]);
    }
  }

  /** In every interleaving in which every hash step gets through and nothing is compacted,
      verification accepts the result. */
  lemma RunIsVerified(s: Settings, hash: Hasher, events: seq<Event>, key: EntityKey)
    requires Ideal(hash) && Smooth(events)
    ensures Chained(hash, HistoryOf(s, hash, events, key))
  {
    EmptyInv(s);
    RunHashes(s, hash, EMPTY, events);
    RunVerifies(s, hash, events, key);
    assert AllHashed(HistoryOf(s, hash, events, key));
  }

  /** A record without a hash never gets one. */
  lemma {:induction false} HashlessStays(s: Settings, hash: Hasher, world: World, events: seq<Event>, key: EntityKey,
      i: nat)
    requires i < |Stored(world.store, key)| && Stored(world.store, key)[i].hash == ""
    ensures var h := Stored(Run(s, hash, world, events).store, key); i < |h| && h[i].hash == ""
    decreases |events|
  {
    if events != [] {
      HashlessStep(s, hash, world, events[0], key, i);
      HashlessStays(s, hash, Step(s, hash, world, events[0]), events[1..], key, i);
    }
  }

  lemma HashlessStep(s: Settings, hash: Hasher, world: World, e: Event, key: EntityKey, i: nat)
    requires i < |Stored(world.store, key)| && Stored(world.store, key)[i].hash == ""
    ensures var h := Stored(Step(s, hash, world, e).store, key); i < |h| && h[i].hash == ""
  {
  }

  /** Once a delta record has been compacted, its history is never verified again. */
  lemma CompactedNeverVerifies(s: Settings, hash: Hasher, world: World, key: EntityKey, i: nat, events: seq<Event>)
    requires Ideal(hash) && i < |Stored(world.store, key)| && !Stored(world.store, key)[i].strategy.Full?
    ensures !Chained(hash, Stored(Run(s, hash, Step(s, hash, world, CompactOne(key, i)), events).store, key))
  {
    HashlessStays(s, hash, Step(s, hash, world, CompactOne(key, i)), events, key, i);
    var h := Stored(Run(s, hash, Step(s, hash, world, CompactOne(key, i)), events).store, key);
    ChainedHashed(hash, h);
  }

  // ----- The cost of rebuilding in hybrid mode -----

  /** A number that is 1 modulo the interval means a snapshot. */
  predicate OnSchedule(s: Settings, version: int, strategy: Strategy) {
    version % EffectiveInterval(s.interval) == 1 ==> strategy.Full?
  }

  ghost predicate ScheduleOk(s: Settings, h: seq<Record>) {
    forall i :: 0 <= i < |h| ==> OnSchedule(s, h[i].version, h[i].strategy)
  }

  ghost predicate PendingOnSchedule(s: Settings, w: Worker) {
    match w
    case Numbered(_, next, strategy) => OnSchedule(s, next, strategy)
    case Prepared(_, r) => OnSchedule(s, r.version, r.strategy)
    case Hashed(_, r) => OnSchedule(s, r.version, r.strategy)
    case _ => true
  }

  ghost predicate ScheduleInv(s: Settings, world: World) {
    && (forall key :: key in world.store ==> ScheduleOk(s, world.store[key]))
    && (forall i :: 0 <= i < |world.workers| ==> PendingOnSchedule(s, world.workers[i]))
  }

  lemma AdvanceOnSchedule(s: Settings, hash: Hasher, store: Ledger, w: Worker, e: Event)
    requires WorkerOk(s, store, w) && PendingOnSchedule(s, w) && s.default.Hybrid? && !s.allowOverride
    ensures PendingOnSchedule(s, Advance(s, hash, store, w, e))
  {
    if w.Prepared? && e.ComputeHash? {
      var r := WithHash(Stored(store, KeyOf(w.job)), hash, w.record, e.outcome);
      assert r.version == w.record.version && r.strategy == w.record.strategy;
    }
  }

  lemma StepKeepsSchedule(s: Settings, hash: Hasher, world: World, e: Event)
    requires Inv(s, world) && ScheduleInv(s, world) && s.default.Hybrid? && !s.allowOverride
    ensures ScheduleInv(s, Step(s, hash, world, e))
  {
    if e.CompactOne? {
      CompactKeepsSchedule(s, world, e.key, e.i);
    } else if !e.Spawn? && e.w < |world.workers| {
      WorkerKeepsSchedule(s, hash, world, e);
    }
  }

  lemma WorkerKeepsSchedule(s: Settings, hash: Hasher, world: World, e: Event)
    requires Inv(s, world) && ScheduleInv(s, world) && s.default.Hybrid? && !s.allowOverride
    requires !e.CompactOne? && !e.Spawn? && e.w < |world.workers|
    ensures ScheduleInv(s, Step(s, hash, world, e))
  {
    var w := world.workers[e.w];
    var w' := Advance(s, hash, world.store, w, e);
    assert WorkerOk(s, world.store, w) && PendingOnSchedule(s, w);
    AdvanceOnSchedule(s, hash, world.store, w, e);
    var moved := world.(workers := world.workers[e.w := w']);
    assert ScheduleInv(s, moved);
    if w.Hashed? && w'.Finished? { SaveKeepsSchedule(s, moved, KeyOf(w.job), w.record); }
  }

  lemma CompactKeepsSchedule(s: Settings, world: World, key: EntityKey, i: nat)
    requires ScheduleInv(s, world)
    ensures var h := Stored(world.store, key);
            i < |h| ==> ScheduleInv(s, world.(store := world.store[key := h[i := Snapshotted(h[i])]]))
  {
    var h := Stored(world.store, key);
    if i < |h| { assert ScheduleOk(s, h[i := Snapshotted(h[i])]); }
  }

  lemma SaveKeepsSchedule(s: Settings, world: World, key: EntityKey, r: Record)
    requires ScheduleInv(s, world) && OnSchedule(s, r.version, r.strategy)
    ensures ScheduleInv(s, world.(store := world.store[key := Stored(world.store, key) + [r]]))
  {
    assert ScheduleOk(s, Stored(world.store, key) + [r]);
  }

  lemma {:induction false} RunKeepsSchedule(s: Settings, hash: Hasher, world: World, events: seq<Event>)
    requires Inv(s, world) && ScheduleInv(s, world) && s.default.Hybrid? && !s.allowOverride
    ensures ScheduleInv(s, Run(s, hash, world, events))
    decreases |events|
  {
    if events != [] {
      StepKeeps(s, hash, world, events[0]);
      StepKeepsSchedule(s, hash, world, events[0]);
      RunKeepsSchedule(s, hash, Step(s, hash, world, events[0]), events[1..]);
    }
  }

  /** In a run that is hybrid throughout, Reconstruct applies fewer deltas than the interval
      to answer any version, whatever its page limit, and whatever fell back to a snapshot
      or was compacted on the way. */
  lemma RunHybridCost(
    s: Settings, hash: Hasher, events: seq<Event>, key: EntityKey, v: nat, registry: Registry, limit: nat)
    requires s.default.Hybrid? && !s.allowOverride
    requires 1 <= v <= |Stored(Run(s, hash, EMPTY, events).store, key)|
    ensures AnswerCost(registry, Stored(Run(s, hash, EMPTY, events).store, key), key.entityType, v, limit)
            <= EffectiveInterval(s.interval) - 1
  {
    EmptyInv(s);
    RunKeeps(s, hash, EMPTY, events);
    RunKeepsSchedule(s, hash, EMPTY, events);
    var h := Stored(Run(s, hash, EMPTY, events).store, key);
    forall i | 0 <= i < |h| && (i + 1) % EffectiveInterval(s.interval) == 1 ensures h[i].strategy.Full? {
      assert OnSchedule(s, h[i].version, h[i].strategy);
    }
    AnswerCosts(registry, h, key.entityType, v, limit);
    HybridCost(h, EffectiveInterval(s.interval), Shown(v, limit));
  }
}
