/** Rebuilding an entity at a version: the nearest snapshot, then every delta after it. */
module Reconstruction {
  import opened Prelude
  import opened Entities
  import opened Changes
  import opened Merge
  import opened DiffEngine
  import opened Records
  import RoundTrip
  import Equivalence

  datatype EntityConfig = EntityConfig(ty: Ty, idField: nat)

  type Registry = map<string, EntityConfig>

  datatype Failure = UnknownType | NotFound | BadData | DeltaFailed(fault: Fault)

  /** Stored data is the serialized entity; decoding it gives back what JSON keeps of it. */
  function Decode(t: Ty, data: Value): (r: Result<Value, Failure>)
    ensures r.Ok? ==> HasType(r.value, t)
    ensures HasType(data, t) && Printable(data) ==> r == Ok(data)
  {
    if HasType(data, t) then
      DecodedTyped(data, t);
      DecodedPrintable(data);
      Ok(Decoded(data))
    else Err(BadData)
  }

  /** A missing or empty delta leaves the entity unchanged. */
  function Patched(t: Ty, x: Value, delta: Option<Delta>): (r: Result<Value, Failure>)
    requires HasType(x, t)
    ensures r.Ok? ==> HasType(r.value, t)
  {
    if delta.None? || delta.value == [] then Ok(x)
    else match Replayed(t, x, delta.value) case Err(f) => Err(DeltaFailed(f)) case Ok(w) => Ok(w)
  }

  /** The meaning of a list of records: the state after the last of them. */
  function Rebuild(t: Ty, h: seq<Record>): (r: Result<Value, Failure>)
    ensures r.Ok? ==> HasType(r.value, t)
  {
    if h == [] then Err(NotFound)
    else
      var last := h[|h| - 1];
      if last.strategy.Full? then Decode(t, last.data)
      else match Rebuild(t, h[..|h| - 1]) case Err(f) => Err(f) case Ok(x) => Patched(t, x, last.delta)
  }

  /** The leading records up to a version. */
  function UpTo(h: seq<Record>, target: int): (k: nat)
    ensures k <= |h|
    ensures forall i :: 0 <= i < k ==> h[i].version <= target
    ensures k < |h| ==> h[k].version > target
  {
    if h == [] || h[0].version > target then 0 else 1 + UpTo(h[1..], target)
  }

  /** The record holds a delta that is applied on the way to its version. */
  predicate HasDelta(r: Record) {
    r.delta.Some? && r.delta.value != []
  }

  /** The deltas between the nearest snapshot and the last of the first `v` records. */
  function DeltaCost(h: seq<Record>, v: nat): nat
    requires v <= |h|
    decreases v
  {
    if v == 0 || h[v - 1].strategy.Full? then 0 else DeltaCost(h, v - 1) + (if HasDelta(h[v - 1]) then 1 else 0)
  }

  lemma {:induction false} DeltaCostGrows(h: seq<Record>, n: nat, k: nat)
    requires n <= k <= |h| && forall i :: n <= i < k ==> !h[i].strategy.Full?
    ensures DeltaCost(h, n) <= DeltaCost(h, k)
    decreases k
  {
    if n < k { DeltaCostGrows(h, n, k - 1); }
  }

  /** What Reconstruct answers when it finds the version in the history `h` of one entity and
      lists the history as it is later, `later`, at most `limit` records of it. */
  function AnswerBetween(
    registry: Registry, h: seq<Record>, later: seq<Record>, entityType: string, target: int, limit: nat)
    : Result<Value, Failure>
  {
    if entityType !in registry then Err(UnknownType)
    else
      var t := registry[entityType].ty;
      match FirstWith(h, target)
      case None => Err(NotFound)
      case Some(r) =>
        if r.strategy.Full? then Decode(t, r.data)
        else
          var page := Page(ByVersion(later, true), limit, 0);
          Rebuild(t, page[..UpTo(page, target)])
  }

  /** The deltas Reconstruct applies to answer that. */
  function CostBetween(
    registry: Registry, h: seq<Record>, later: seq<Record>, entityType: string, target: int, limit: nat): nat
  {
    if entityType !in registry then 0
    else
      match FirstWith(h, target)
      case None => 0
      case Some(r) =>
        if r.strategy.Full? then 0
        else
          var page := Page(ByVersion(later, true), limit, 0);
          DeltaCost(page, UpTo(page, target))
  }

  /** The same with nothing in between. */
  function Answer(registry: Registry, h: seq<Record>, entityType: string, target: int,
      limit: nat): Result<Value, Failure> {
    AnswerBetween(registry, h, h, entityType, target, limit)
  }

  function AnswerCost(registry: Registry, h: seq<Record>, entityType: string, target: int, limit: nat): nat {
    CostBetween(registry, h, h, entityType, target, limit)
  }

  lemma {:induction false} NoSnapshot(t: Ty, h: seq<Record>)
    requires forall i :: 0 <= i < |h| ==> !h[i].strategy.Full?
    ensures Rebuild(t, h) == Err(NotFound)
    decreases |h|
  {
    if h != [] { NoSnapshot(t, h[..|h| - 1]); }
  }

  lemma {:induction false} BadSnapshot(t: Ty, h: seq<Record>, s: nat, k: nat)
    requires s < k <= |h| && h[s].strategy.Full? && forall i :: s < i < k ==> !h[i].strategy.Full?
    requires Decode(t, h[s].data).Err?
    ensures Rebuild(t, h[..k]) == Decode(t, h[s].data)
    decreases k
  {
    if k > s + 1 {
      assert h[..k][..k - 1] == h[..k - 1];
      BadSnapshot(t, h, s, k - 1);
    }
  }

  lemma {:induction false} FailureStays(t: Ty, h: seq<Record>, s: nat, k: nat)
    requires s <= k <= |h| && Rebuild(t, h[..s]).Err? && forall i :: s <= i < k ==> !h[i].strategy.Full?
    ensures Rebuild(t, h[..k]) == Rebuild(t, h[..s])
    decreases k
  {
    if k > s {
      assert h[..k][..k - 1] == h[..k - 1];
      FailureStays(t, h, s, k - 1);
    }
  }

  /** The store is read twice, first as `store` and then as `later`. */
  method Reconstruct(
    store: Store, later: Store, registry: Registry, entityType: string, entityID: string, target: int, limit: nat)
    returns (r: Result<Value, Failure>, ghost applied: nat)
    ensures var k := Key(entityType, entityID);
            var h, h' := History(store.records, k), History(later.records, k);
            && r == AnswerBetween(registry, h, h', entityType, target, limit)
            && applied <= CostBetween(registry, h, h', entityType, target, limit)
            && (r.Ok? ==> applied == CostBetween(registry, h, h', entityType, target, limit))
  {
    if entityType !in registry { return Err(UnknownType), 0; }
    var t := registry[entityType].ty;
    var found := store.GetByVersion(entityType, entityID, target);
    if found.None? { return Err(NotFound), 0; }
    if found.value.strategy.Full? { return Decode(t, found.value.data), 0; }
    var records := later.ListVersions(entityType, entityID, true, limit, 0);
    ByVersionSorts(History(later.records, Key(entityType, entityID)), true);
    r, applied := Replay(t, records, target);
  }

  lemma RebuildNext(t: Ty, h: seq<Record>, n: nat)
    requires n < |h| && !h[n].strategy.Full? && Rebuild(t, h[..n]).Ok?
    ensures Rebuild(t, h[..n + 1]) == Patched(t, Rebuild(t, h[..n]).value, h[n].delta)
  {
    assert h[..n + 1][..n] == h[..n];
  }

  /** The two scans: backwards to the nearest snapshot, forwards through the deltas. */
  method Replay(t: Ty, records: seq<Record>, target: int) returns (r: Result<Value, Failure>, ghost applied: nat)
    requires Ordered(records, true)
    ensures r == Rebuild(t, records[..UpTo(records, target)])
    ensures applied <= DeltaCost(records, UpTo(records, target))
    ensures r.Ok? ==> applied == DeltaCost(records, UpTo(records, target))
  {
    ghost var k := UpTo(records, target);
    var i := NearestSnapshot(records, target);
    if i < 0 {
      NoSnapshot(t, records[..k]);
      return Err(NotFound), 0;
    }
    var snapshot := Decode(t, records[i].data);
    if snapshot.Err? {
      BadSnapshot(t, records, i, k);
      return snapshot, 0;
    }
    r, applied := Forward(t, records, target, i, snapshot.value);
  }

  method NearestSnapshot(records: seq<Record>, target: int) returns (i: int)
    requires Ordered(records, true)
    ensures -1 <= i < UpTo(records, target)
    ensures i >= 0 ==> records[i].strategy.Full?
    ensures forall j :: i < j < UpTo(records, target) ==> !records[j].strategy.Full?
  {
    i := |records| - 1;
    while i >= 0
      invariant -1 <= i < |records|
      invariant forall j :: i < j < UpTo(records, target) ==> !records[j].strategy.Full?
    {
      if records[i].version <= target && records[i].strategy.Full? { return; }
      i := i - 1;
    }
  }

  /** The state after the first `n` records, and the deltas applied since the snapshot. */
  ghost predicate ReadyAt(t: Ty, records: seq<Record>, n: nat, entity: Value, applied: nat)
    requires n <= |records|
  {
    Rebuild(t, records[..n]) == Ok(entity) && applied == DeltaCost(records, n)
  }

  /** What `Forward` keeps: up to the `n`th record all is done, up to the `k`th only deltas follow. */
  ghost predicate Forwarded(t: Ty, records: seq<Record>, n: nat, k: nat, entity: Value, applied: nat) {
    && n <= k <= |records| && HasType(entity, t) && ReadyAt(t, records, n, entity, applied)
    && forall j :: n <= j < k ==> !records[j].strategy.Full?
  }

  /** One more record: its delta is applied, or it has none, or it fails and so does the rest. */
  lemma OneDelta(t: Ty, records: seq<Record>, n: nat, k: nat, entity: Value, applied: nat)
    requires n < k && Forwarded(t, records, n, k, entity, applied)
    ensures !HasDelta(records[n]) ==> Forwarded(t, records, n + 1, k, entity, applied)
    ensures HasDelta(records[n]) && Patched(t, entity, records[n].delta).Ok? ==>
              Forwarded(t, records, n + 1, k, Patched(t, entity, records[n].delta).value, applied + 1)
    ensures HasDelta(records[n]) && Patched(t, entity, records[n].delta).Err? ==>
              Rebuild(t, records[..k]) == Patched(t, entity, records[n].delta) && applied + 1 <= DeltaCost(records, k)
  {
    RebuildNext(t, records, n);
    if Patched(t, entity, records[n].delta).Err? {
      FailureStays(t, records, n + 1, k);
      DeltaCostGrows(records, n + 1, k);
    }
  }

  /** One round of the forward scan. */
  method ApplyNext(t: Ty, records: seq<Record>, n: nat, ghost k: nat, entity: Value, ghost applied: nat)
    returns (r: Result<Value, Failure>, ghost count: nat)
    requires n < k && Forwarded(t, records, n, k, entity, applied)
    ensures r.Ok? ==> Forwarded(t, records, n + 1, k, r.value, count)
    ensures r.Err? ==> r == Rebuild(t, records[..k]) && count <= DeltaCost(records, k)
  {
    OneDelta(t, records, n, k, entity, applied);
    if !HasDelta(records[n]) { return Ok(entity), applied; }
    r, count := Patched(t, entity, records[n].delta), applied + 1;
  }

  /** The snapshot is the nearest, so only deltas follow it up to the target. */
  method Forward(t: Ty, records: seq<Record>, target: int, snapshot: nat, start: Value)
    returns (r: Result<Value, Failure>, ghost applied: nat)
    requires snapshot < UpTo(records, target) && records[snapshot].strategy.Full?
    requires forall j :: snapshot < j < UpTo(records, target) ==> !records[j].strategy.Full?
    requires Decode(t, records[snapshot].data) == Ok(start)
    ensures r == Rebuild(t, records[..UpTo(records, target)])
    ensures applied <= DeltaCost(records, UpTo(records, target))
    ensures r.Ok? ==> applied == DeltaCost(records, UpTo(records, target))
  {
    ghost var k := UpTo(records, target);
    var entity, n := start, snapshot + 1;
    applied := 0;
    while n < |records| && records[n].version <= target
      invariant Forwarded(t, records, n, k, entity, applied)
    {
      r, applied := ApplyNext(t, records, n, k, entity, applied);
      if r.Err? { return; }
      entity, n := r.value, n + 1;
    }
    r := Ok(entity);
  }
}
