/** When Reconstruct gives no answer, and which fault it gives instead. */
module Answers {
  import opened Prelude
  import opened Entities
  import opened Changes
  import opened DiffEngine
  import opened Records
  import opened Reconstruction

  /** Record `s` is a snapshot, and the last one. */
  ghost predicate LastSnapshot(h: seq<Record>, s: nat) {
    s < |h| && h[s].strategy == Full && forall k :: s < k < |h| ==> h[k].strategy != Full
  }

  /** The delta of record `m`, on top of a state that can be rebuilt, is the first to fail. */
  ghost predicate FailsAt(t: Ty, h: seq<Record>, m: nat, f: Fault) {
    && m < |h| && (forall k :: m <= k < |h| ==> h[k].strategy != Full)
    && Rebuild(t, h[..m]).Ok? && h[m].delta.Some? && h[m].delta.value != []
    && Replayed(t, Rebuild(t, h[..m]).value, h[m].delta.value) == Err(f)
  }

  ghost predicate NoneFull(h: seq<Record>) {
    forall k :: 0 <= k < |h| ==> h[k].strategy != Full
  }

  ghost predicate Undecodable(t: Ty, h: seq<Record>) {
    exists s: nat :: LastSnapshot(h, s) && !HasType(h[s].data, t)
  }

  ghost predicate Fails(t: Ty, h: seq<Record>, f: Fault) {
    exists m: nat :: FailsAt(t, h, m, f)
  }

  lemma FailsEarlier(t: Ty, h: seq<Record>, m: nat, f: Fault)
    requires h != [] && h[|h| - 1].strategy != Full && m < |h| - 1
    ensures FailsAt(t, h, m, f) <==> FailsAt(t, h[..|h| - 1], m, f)
  {
    var g := h[..|h| - 1];
    assert g[..m] == h[..m] && g[m] == h[m];
    assert (forall k :: m <= k < |h| ==> h[k].strategy != Full) <==> forall k :: m <= k < |g| ==> g[k].strategy != Full;
  }

  /** Rebuilding fails for want of a snapshot, on one that does not decode, or at the first
      delta after the last snapshot that cannot be replayed. */
  lemma {:induction false} RebuildFaults(t: Ty, h: seq<Record>, f: Fault)
    ensures Rebuild(t, h) != Err(UnknownType)
    ensures Rebuild(t, h) == Err(NotFound) <==> NoneFull(h)
    ensures Rebuild(t, h) == Err(BadData) <==> Undecodable(t, h)
    ensures Rebuild(t, h) == Err(DeltaFailed(f)) <==> Fails(t, h, f)
    decreases |h|
  {
    if h == [] {
    } else if h[|h| - 1].strategy.Full? {
      AtSnapshot(t, h, f);
    } else {
      var g := h[..|h| - 1];
      RebuildFaults(t, g, f);
      SnapshotsBefore(t, h);
      FaultsBefore(t, h, f);
      AtDelta(t, h, Rebuild(t, g), Rebuild(t, h), f);
    }
  }

  lemma AtSnapshot(t: Ty, h: seq<Record>, f: Fault)
    requires h != [] && h[|h| - 1].strategy.Full?
    ensures Rebuild(t, h) == Decode(t, h[|h| - 1].data)
    ensures Rebuild(t, h).Err? <==> Rebuild(t, h) == Err(BadData)
    ensures Rebuild(t, h).Err? <==> Undecodable(t, h)
    ensures !NoneFull(h) && !Fails(t, h, f)
  {
    assert LastSnapshot(h, |h| - 1);
  }

  lemma SnapshotsBefore(t: Ty, h: seq<Record>)
    requires h != [] && !h[|h| - 1].strategy.Full?
    ensures var g := h[..|h| - 1];
            && (NoneFull(h) <==> NoneFull(g))
            && (Undecodable(t, h) <==> Undecodable(t, g))
  {
    var g := h[..|h| - 1];
    assert forall k :: 0 <= k < |g| ==> g[k] == h[k];
    forall s: nat ensures LastSnapshot(h, s) <==> LastSnapshot(g, s) {
      if LastSnapshot(g, s) {
        forall k | s < k < |h| ensures h[k].strategy != Full { assert k < |g| ==> g[k] == h[k]; }
      }
    }
  }

  lemma FaultsBefore(t: Ty, h: seq<Record>, f: Fault)
    requires h != [] && !h[|h| - 1].strategy.Full?
    ensures Fails(t, h, f) <==> Fails(t, h[..|h| - 1], f) || FailsAt(t, h, |h| - 1, f)
  {
    if Fails(t, h[..|h| - 1], f) {
      var m: nat :| FailsAt(t, h[..|h| - 1], m, f);
      FailsEarlier(t, h, m, f);
    }
    if Fails(t, h, f) {
      var m: nat :| FailsAt(t, h, m, f);
      if m < |h| - 1 { FailsEarlier(t, h, m, f); }
    }
  }

  lemma AtDelta(t: Ty, h: seq<Record>, before: Result<Value, Failure>, after: Result<Value, Failure>, f: Fault)
    requires h != [] && !h[|h| - 1].strategy.Full? && before == Rebuild(t, h[..|h| - 1]) && after == Rebuild(t, h)
    ensures before.Err? ==> after == before && !FailsAt(t, h, |h| - 1, f)
    ensures before.Ok? && after.Err? ==> after.error.DeltaFailed?
    ensures before.Ok? ==> (after == Err(DeltaFailed(f)) <==> FailsAt(t, h, |h| - 1, f))
  {
  }

  /** Reconstruct fails exactly as follows: for a type that is not registered, and then for
      nothing else; if no record of the version is stored when it looks for that; if the
      record is a delta and no snapshot is listed up to it; if the snapshot it starts from does
      not decode; or with the fault of the first delta that fails. */
  lemma AnswerFaults(registry: Registry, h: seq<Record>, later: seq<Record>, entityType: string, target: int,
      limit: nat, f: Fault)
    ensures var a := AnswerBetween(registry, h, later, entityType, target, limit);
            a == Err(UnknownType) <==> entityType !in registry
    ensures entityType in registry && (forall k :: 0 <= k < |h| ==> h[k].version != target) ==>
              AnswerBetween(registry, h, later, entityType, target, limit) == Err(NotFound)
    ensures forall i: nat :: entityType in registry && FirstOf(h, i, target) && h[i].strategy == Full ==>
              AnswerBetween(registry, h, later, entityType, target, limit) ==
              if HasType(h[i].data, registry[entityType].ty) then Ok(Decoded(h[i].data)) else Err(BadData)
    ensures forall i: nat :: entityType in registry && FirstOf(h, i, target) && h[i].strategy != Full ==>
              var a := AnswerBetween(registry, h, later, entityType, target, limit);
              var t, page := registry[entityType].ty, Page(ByVersion(later, true), limit, 0);
              var listed := page[..UpTo(page, target)];
              && (a == Err(NotFound) <==> NoneFull(listed))
              && (a == Err(BadData) <==> Undecodable(t, listed))
              && (a == Err(DeltaFailed(f)) <==> Fails(t, listed, f))
  {
    var page := Page(ByVersion(later, true), limit, 0);
    if entityType in registry { RebuildFaults(registry[entityType].ty, page[..UpTo(page, target)], f); }
    forall i: nat | FirstOf(h, i, target) ensures FirstWith(h, target) == Some(h[i]) { FirstAt(h, h[i], i); }
  }

  /** The first record of a version. */
  ghost predicate FirstOf(h: seq<Record>, i: nat, version: int) {
    i < |h| && h[i].version == version && forall k :: 0 <= k < i ==> h[k].version != version
  }
}
