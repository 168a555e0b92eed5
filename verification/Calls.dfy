/** The record of one versioning call, field by field, told from what the call was given and
    what it found, and not by the steps that lead from the one to the other. */
module Calls {
  import opened Prelude
  import opened Entities
  import opened Changes
  import opened Merge
  import opened DiffEngine
  import opened Records
  import opened Reconstruction
  import opened HashChain
  import opened Protocol
  import opened Auditor
  import Documents
  import Runs
  import RoundTrip
  import Strandings

  /** Record `i` has the highest version, and no other has. */
  ghost predicate Last(h: seq<Record>, i: nat) {
    i < |h| && forall k :: 0 <= k < |h| && k != i ==> h[k].version < h[i].version
  }

  lemma LastIsLatest(h: seq<Record>, i: nat)
    requires Last(h, i)
    ensures LatestOf(h) == Some(h[i]) && NextVersion(h) == h[i].version + 1
    ensures FirstWith(h, h[i].version) == Some(h[i])
  {
    assert IsLatest(h, LatestOf(h).value);
    var k: nat :| k < |h| && h[k] == LatestOf(h).value;
    var j: nat :| j < |h| && h[j] == FirstWith(h, h[i].version).value;
  }

  /** The first call for an entity stores a snapshot as version 1, every later one the entity
      it was given under the next number. */
  lemma RecordOfCall(s: Settings, hash: Hasher, h: seq<Record>, j: Job, id: string, readable: bool, diffable: bool,
      outcome: HashOutcome)
    requires Acceptable(s, j)
    ensures var r := Versioned(s, hash, h, j, id, readable, diffable, outcome);
            && r.id == id && r.entityType == j.entityType && r.entityID == j.entityID && r.data == j.entity
            && (forall i: nat :: Last(h, i) ==> r.version == h[i].version + 1)
            && (h == [] ==> r.version == 1 && r.strategy == Full && r.delta == None)
  {
    forall i: nat | Last(h, i) ensures NextVersion(h) == h[i].version + 1 { LastIsLatest(h, i); }
  }

  /** A call asks for a snapshot if that is the strategy it names or, if it names none, the
      configured one, and in hybrid mode whenever the number is 1 modulo the interval, which
      is 10 unless at least 2 is configured. It then stores one, without a delta. Else it
      stores one only for want of a previous version it can read, decode and diff. */
  lemma StrategyOfCall(s: Settings, hash: Hasher, h: seq<Record>, i: nat, j: Job, id: string, readable: bool,
      diffable: bool, outcome: HashOutcome)
    requires Acceptable(s, j) && Last(h, i) && h[i].version >= 1
    ensures var r := Versioned(s, hash, h, j, id, readable, diffable, outcome);
            var t, wanted := s.types[j.entityType], if j.override.Some? then j.override.value else s.default;
            var interval: int := if s.interval >= 2 then s.interval else 10;
            (|| wanted == Full || (wanted == Hybrid && r.version % interval == 1)
             || !readable || !HasType(h[i].data, t) || !diffable
             || (HasType(Decoded(h[i].data), t) && !Supported(t, Decoded(h[i].data), j.entity))
             ==> r.strategy == Full && r.delta == None)
  {
    LastIsLatest(h, i);
    if HasType(h[i].data, s.types[j.entityType]) { DecodedTyped(h[i].data, s.types[j.entityType]); }
  }

  lemma DecodesTo(t: Ty, data: Value, p: Value)
    requires HasType(data, t) && p == Decoded(data)
    ensures Decode(t, data) == Ok(p)
  {
  }

  lemma AgainstPrevious(t: Ty, j: Job, p: Value)
    requires t.Struct? && HasType(j.entity, t) && HasType(p, t) && Supported(t, p, j.entity)
    ensures var d := DeltaOf(t, p, j.entity);
            var right := Replayed(t, p, d).Ok? && Decoded(Replayed(t, p, d).value) == Decoded(j.entity);
            SettleAgainst(t, j, DeltaOnly, p, true) ==
            if Same(t, false, p, j.entity) then (DeltaOnly, None)
            else if j.inTx || right then (DeltaOnly, Some(d))
            else (Full, None)
  {
    RoundTrip.EmptyDelta(t, p, j.entity);
  }

  /** Otherwise the diff decides. Nothing changed: it stores the strategy asked for and no
      delta. In a transaction: the delta. Outside: the delta if replaying it leads to the
      JSON of the entity, and a snapshot exactly if it fails or leads elsewhere. */
  lemma DeltaOfCall(s: Settings, hash: Hasher, h: seq<Record>, i: nat, j: Job, id: string, outcome: HashOutcome,
      p: Value)
    requires Acceptable(s, j) && Last(h, i) && h[i].version >= 1
    requires var wanted := if j.override.Some? then j.override.value else s.default;
             var interval: int := if s.interval >= 2 then s.interval else 10;
             wanted == DeltaOnly || (wanted == Hybrid && (h[i].version + 1) % interval != 1)
    requires HasType(h[i].data, s.types[j.entityType]) && p == Decoded(h[i].data) && HasType(p, s.types[j.entityType])
    requires Supported(s.types[j.entityType], p, j.entity)
    ensures var r := Versioned(s, hash, h, j, id, true, true, outcome);
            var t := s.types[j.entityType];
            var d := DeltaOf(t, p, j.entity);
            var right := Replayed(t, p, d).Ok? && Decoded(Replayed(t, p, d).value) == Decoded(j.entity);
            && (Same(t, false, p, j.entity) ==> r.strategy == DeltaOnly && r.delta == None)
            && (!Same(t, false, p, j.entity) && (j.inTx || right) ==> r.strategy == DeltaOnly && r.delta == Some(d))
            && (!Same(t, false, p, j.entity) && !j.inTx && !right ==> r.strategy == Full && r.delta == None)
  {
    var r, t := Versioned(s, hash, h, j, id, true, true, outcome), s.types[j.entityType];
    LastIsLatest(h, i);
    assert Chosen(s, h, j) == DeltaOnly;
    assert (r.strategy, r.delta) == SettleAgainst(t, j, DeltaOnly, p, true) by { DecodesTo(t, h[i].data, p); }
    AgainstPrevious(t, j, p);
  }

  /** What the hash step leaves in the record of a call, however far it gets. */
  lemma HashOfCall(s: Settings, hash: Hasher, h: seq<Record>, j: Job, id: string, readable: bool, diffable: bool,
      outcome: HashOutcome)
    requires Acceptable(s, j) && (h == [] || exists i: nat :: Last(h, i) && h[i].version >= 1)
    ensures var r := Versioned(s, hash, h, j, id, readable, diffable, outcome);
            && (outcome != HashDone ==> r.hash == "")
            && (outcome == HashOff || outcome == HashReadFailed ==> r.previousHash == "")
            && (outcome == HashComputeFailed || outcome == HashDone ==>
                  && (h == [] ==> r.previousHash == "")
                  && forall i: nat :: Last(h, i) ==> r.previousHash == h[i].hash)
            && (outcome == HashDone ==>
                  r.hash == hash(Payload(j.entityType, j.entityID, r.version, j.entity, r.previousHash)))
  {
    forall i: nat | Last(h, i)
      ensures LatestOf(h) == Some(h[i]) && NextVersion(h) == h[i].version + 1
      ensures FirstWith(h, h[i].version) == Some(h[i])
    {
      LastIsLatest(h, i);
    }
  }

  // ----- Steps on the store -----

  /** Saving goes through exactly if the store accepts it and no record of the number is there;
      the record then comes last, and nothing else changes. Otherwise nothing is stored. */
  lemma SaveOfCall(s: Settings, hash: Hasher, world: World, w: nat, accepted: bool, j: Job, r: Record)
    requires w < |world.workers| && world.workers[w] == Hashed(j, r)
    ensures var h := Stored(world.store, EntityKey(j.entityType, j.entityID));
            var after := Step(s, hash, world, Save(w, accepted));
            if accepted && (forall k :: 0 <= k < |h| ==> h[k].version != r.version)
            then after.store == world.store[EntityKey(j.entityType, j.entityID) := h + [r]]
                 && after.workers == world.workers[w := Finished(j, r)]
            else after.store == world.store && after.workers == world.workers[w := Aborted(j)]
  {
  }

  /** A compaction update makes a snapshot of one delta record: the delta, the hash and the
      previous hash go, everything else stays, in this record and in all others. A record
      that is a snapshot already, or is not there, is left alone. */
  lemma UpdateOfCompaction(s: Settings, hash: Hasher, world: World, key: EntityKey, i: nat)
    ensures var h, after := Stored(world.store, key), Step(s, hash, world, CompactOne(key, i));
            if i < |h| && h[i].strategy != Full then
              && after.workers == world.workers
              && after.store ==
                 world.store[key := h[i := Record(h[i].id, h[i].entityType, h[i].entityID, h[i].version, Full,
                                                  h[i].data, None, "", "")]]
            else after == world
  {
  }

  // ----- Two calls -----

  /** Settings and calls for which the second of two calls asks for a delta. */
  ghost predicate AsksForDelta(s: Settings, k: Job) {
    (if k.override.Some? then k.override.value else s.default) != Full
  }

  /** Two calls outside transactions, the second asking for a delta: the second record is
      stored as a delta exactly if nothing changed or replaying the changes leads to its JSON. */
  lemma TwoOrdinaryCalls(s: Settings, hash: Hasher, j: Job, k: Job, p: Value)
    requires Acceptable(s, j) && Acceptable(s, k) && KeyOf(j) == KeyOf(k) && !k.inTx && AsksForDelta(s, k)
    requires p == Decoded(j.entity) && HasType(p, s.types[j.entityType])
    requires Supported(s.types[j.entityType], p, k.entity)
    ensures var h := Runs.HistoryOf(s, hash, Strandings.Call(0, j) + Strandings.Call(1, k), KeyOf(j));
            var t := s.types[j.entityType];
            var d := DeltaOf(t, p, k.entity);
            var right := Replayed(t, p, d).Ok? && Decoded(Replayed(t, p, d).value) == Decoded(k.entity);
            && |h| == 2 && h[0].strategy == Full && h[0].data == j.entity && h[1].data == k.entity
            && (Same(t, false, p, k.entity) ==> h[1].strategy == DeltaOnly && h[1].delta == None)
            && (!Same(t, false, p, k.entity) && right ==> h[1].strategy == DeltaOnly && h[1].delta == Some(d))
            && (!Same(t, false, p, k.entity) && !right ==> h[1].strategy == Full && h[1].delta == None)
  {
    var first := Strandings.Saved(s, hash, [], j);
    BothSaved(s, hash, j, k, first);
    RecordOfCall(s, hash, [], j, "", true, true, HashOff);
    SecondOfTwo(s, hash, k, p, first);
  }

  lemma SecondOfTwo(s: Settings, hash: Hasher, k: Job, p: Value, first: Record)
    requires Acceptable(s, k) && !k.inTx && AsksForDelta(s, k) && first.version == 1
    requires HasType(first.data, s.types[k.entityType]) && p == Decoded(first.data) && HasType(p, s.types[k.entityType])
    requires Supported(s.types[k.entityType], p, k.entity)
    ensures var r := Strandings.Saved(s, hash, [first], k);
            var t := s.types[k.entityType];
            var d := DeltaOf(t, p, k.entity);
            var right := Replayed(t, p, d).Ok? && Decoded(Replayed(t, p, d).value) == Decoded(k.entity);
            && r.data == k.entity
            && (Same(t, false, p, k.entity) ==> r.strategy == DeltaOnly && r.delta == None)
            && (!Same(t, false, p, k.entity) && right ==> r.strategy == DeltaOnly && r.delta == Some(d))
            && (!Same(t, false, p, k.entity) && !right ==> r.strategy == Full && r.delta == None)
  {
    assert Last([first], 0);
    assert forall n :: n >= 2 ==> 2 % n != 1;
    RecordOfCall(s, hash, [first], k, "", true, true, HashOff);
    DeltaOfCall(s, hash, [first], 0, k, "", HashOff, p);
  }

  lemma BothSaved(s: Settings, hash: Hasher, j: Job, k: Job, first: Record)
    requires Acceptable(s, j) && Acceptable(s, k) && KeyOf(j) == KeyOf(k)
    requires first == Strandings.Saved(s, hash, [], j)
    ensures Runs.HistoryOf(s, hash, Strandings.Call(0, j) + Strandings.Call(1, k), KeyOf(j)) ==
            [first, Strandings.Saved(s, hash, [first], k)]
  {
    Runs.RunBoth(s, hash, EMPTY, Strandings.Call(0, j), Strandings.Call(1, k));
    Strandings.OneCall(s, hash, EMPTY, j);
    assert [] + [first] == [first];
    Strandings.OneCall(s, hash, Run(s, hash, EMPTY, Strandings.Call(0, j)), k);
    assert [first] + [Strandings.Saved(s, hash, [first], k)] == [first, Strandings.Saved(s, hash, [first], k)];
  }

  /** So of two versions of a document, the second with a new key, the second is a delta. */
  lemma NewKeyIsDelta(s: Settings, t: Ty, hash: Hasher, j: Job, k: Job, key: string, u: Value)
    requires s == Strandings.Deltas() && t == Documents.Document() && u.Atom? && '.' !in key
    requires j == Job("Doc", "e", Documents.Doc(Dict(map[])), None, false)
    requires k == Job("Doc", "e", Documents.Doc(Documents.Single(key, u)), None, false)
    ensures var h := Runs.HistoryOf(s, hash, Strandings.Call(0, j) + Strandings.Call(1, k), KeyOf(j));
            && |h| == 2 && h[0].strategy == Full && h[1].strategy == DeltaOnly
            && HasType(j.entity, t) && HasType(k.entity, t) && h[1].delta == Some(DeltaOf(t, j.entity, k.entity))
            && h[1].delta != Some([])
  {
    var x: Value, y := Dict(map[]), Documents.Single(key, u);
    Documents.SingleTyped(key, u);
    Documents.DocTyped(t, x);
    Documents.DocTyped(t, y);
    Documents.DocSame(t, x, y);
    assert key in Entries(y) && key !in Entries(x);
    RoundTrip.EmptyDelta(t, Documents.Doc(x), Documents.Doc(y));
    NewKeyReplays(t, x, y);
    DecodedPrintable(j.entity);
    assert s.types == map["Doc" := t];
    TwoOrdinaryCalls(s, hash, j, k, j.entity);
  }

  lemma NewKeyReplays(t: Ty, x: Value, y: Value)
    requires t == Documents.Document() && x == Dict(map[]) && y.Dict? && HasType(y, Map) && Undotted(y)
    ensures t.Struct? && HasType(Documents.Doc(x), t) && HasType(Documents.Doc(y), t)
    ensures Replayed(t, Documents.Doc(x), DeltaOf(t, Documents.Doc(x), Documents.Doc(y))) == Ok(Documents.Doc(y))
  {
    Documents.DocTyped(t, x);
    Documents.DocTyped(t, y);
    Documents.DocSame(t, x, y);
    Documents.DocConveys(t, x, y);
    Documents.DocMerge(t, x, y);
    RoundTrip.ExactMerge(t, Documents.Doc(x), Documents.Doc(y));
  }
}
