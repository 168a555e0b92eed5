/** What every stored history satisfies, and what reconstruction makes of one. */
module Histories {
  import opened Prelude
  import opened Entities
  import opened Changes
  import opened Merge
  import opened DiffEngine
  import opened Exactness
  import opened Records
  import opened Reconstruction
  import Json
  import RoundTrip
  import Equivalence

  /** What a reader gets of the entity in a record: what JSON gives back. */
  ghost function Held(t: Ty, r: Record): (v: Value)
    requires HasType(r.data, t)
    ensures HasType(v, t) && Printable(v) && v == Decoded(r.data) && Decode(t, r.data) == Ok(v)
  {
    DecodedTyped(r.data, t);
    Json.DecodedIsPrintable(r.data);
    Decoded(r.data)
  }

  /** JSON keeps the entity, as far as the engine can tell. */
  ghost predicate Preserved(t: Ty, r: Record) {
    HasType(r.data, t) && Same(t, false, Held(t, r), r.data)
  }

  /** A delta record refers to the version before it, as a reader gets that: its delta is the
      diff from there, or it has none because the diff found nothing. */
  ghost predicate Linked(t: Ty, prev: Record, r: Record) {
    && t.Struct? && HasType(prev.data, t) && HasType(r.data, t)
    && match r.delta
       case None => Same(t, false, Held(t, prev), r.data)
       case Some(d) => d != [] && Supported(t, Held(t, prev), r.data) && d == DeltaOf(t, Held(t, prev), r.data)
  }

  /** The run invariant: versions 1 to n, the first a full snapshot, every delta linked. */
  ghost predicate Faithful(t: Ty, h: seq<Record>) {
    && t.Struct? && Gapless(h)
    && (h != [] ==> h[0].strategy.Full?)
    && (forall i :: 0 <= i < |h| ==> HasType(h[i].data, t) && !h[i].strategy.Hybrid?)
    && (forall i :: 1 <= i < |h| && !h[i].strategy.Full? ==> Linked(t, h[i - 1], h[i]))
  }

  /** The stored delta was checked before it was saved: it leads to the JSON of the stored data. */
  ghost predicate Validated(t: Ty, prev: Record, r: Record) {
    r.delta.Some? ==>
      && HasType(prev.data, t) && Replayed(t, Held(t, prev), r.delta.value).Ok?
      && Json.Alike(Replayed(t, Held(t, prev), r.delta.value).value, r.data)
  }

  ghost predicate AllValidated(t: Ty, h: seq<Record>) {
    forall i :: 1 <= i < |h| && !h[i].strategy.Full? ==> Validated(t, h[i - 1], h[i])
  }

  /** What a record must be to come after a faithful history. */
  ghost predicate Follows(t: Ty, h: seq<Record>, r: Record) {
    && r.version == |h| + 1 && HasType(r.data, t) && !r.strategy.Hybrid?
    && (r.strategy.Full? || (h != [] && Linked(t, h[|h| - 1], r)))
  }

  lemma FaithfulExtends(t: Ty, h: seq<Record>, r: Record)
    requires Faithful(t, h) && Follows(t, h, r)
    ensures Faithful(t, h + [r])
  {
    var g := h + [r];
    forall i | 0 <= i < |g| ensures HasType(g[i].data, t) && !g[i].strategy.Hybrid? {
      if i < |h| { assert g[i] == h[i]; }
    }
    forall i | 1 <= i < |g| && !g[i].strategy.Full? ensures Linked(t, g[i - 1], g[i]) {
      if i < |h| { assert g[i] == h[i]; }
    }
  }

  lemma ValidatedExtends(t: Ty, h: seq<Record>, r: Record)
    requires AllValidated(t, h) && (h != [] && !r.strategy.Full? ==> Validated(t, h[|h| - 1], r))
    ensures AllValidated(t, h + [r])
  {
    var g := h + [r];
    forall i | 1 <= i < |g| && !g[i].strategy.Full? ensures Validated(t, g[i - 1], g[i]) {
      if i < |h| { assert g[i] == h[i]; }
    }
  }

  function ThenPatched(t: Ty, r: Result<Value, Failure>, delta: Option<Delta>): Result<Value, Failure>
    requires r.Ok? ==> HasType(r.value, t)
  {
    match r case Err(f) => Err(f) case Ok(x) => Patched(t, x, delta)
  }

  lemma RebuildLast(t: Ty, h: seq<Record>, v: nat)
    requires 1 <= v <= |h|
    ensures Rebuild(t, h[..v]) ==
            if h[v - 1].strategy.Full? then Decode(t, h[v - 1].data)
            else ThenPatched(t, Rebuild(t, h[..v - 1]), h[v - 1].delta)
  {
    assert h[..v][..v - 1] == h[..v - 1];
  }

  // ----- When it is right -----

  /** The paths of a delta locate every change, as Apply reads them. */
  ghost predicate Locates(t: Ty, prev: Record, r: Record) {
    HasType(prev.data, t) && HasType(r.data, t) && (r.delta.Some? ==> Located(t, Held(t, prev), r.data))
  }

  /** Back to the nearest snapshot, JSON keeps every entity and every delta locates its changes. */
  ghost predicate ChainConveys(t: Ty, h: seq<Record>, v: nat)
    requires 1 <= v <= |h|
    decreases v
  {
    && Preserved(t, h[v - 1])
    && (h[v - 1].strategy.Full? || (v > 1 && Locates(t, h[v - 2], h[v - 1]) && ChainConveys(t, h, v - 1)))
  }

  /** The version is rebuilt, and the engine cannot tell the result from the entity stored with it. */
  ghost predicate Right(t: Ty, h: seq<Record>, v: nat)
    requires 1 <= v <= |h|
  {
    HasType(h[v - 1].data, t) && Rebuild(t, h[..v]).Ok? && Same(t, false, Rebuild(t, h[..v]).value, h[v - 1].data)
  }

  /** One delta that locates its changes, replayed on any printable state equivalent to the
      version before: it fails exactly when it is not replayable there, and otherwise leads to
      an equivalent of its version. */
  lemma StepSound(t: Ty, x: Value, prev: Record, r: Record)
    requires Linked(t, prev, r) && Locates(t, prev, r) && Preserved(t, r)
    requires HasType(x, t) && Printable(x) && Same(t, false, x, prev.data)
    ensures Patched(t, x, r.delta).Ok? <==> (r.delta.Some? ==> Replayable(t, x, r.data))
    ensures Patched(t, x, r.delta).Ok? ==>
              Same(t, false, Patched(t, x, r.delta).value, r.data) && Printable(Patched(t, x, r.delta).value)
    ensures Patched(t, x, r.delta).Ok? && r.delta.Some? ==> Patched(t, x, r.delta).value == MergeIn(t, false, x, r.data)
  {
    Json.SameDecoded(t, false, x, prev.data);
    if r.delta.Some? {
      RoundTrip.DiffThenApply(t, x, Held(t, prev), r.data);
      Json.ExpressedKept(t, false, Held(t, prev), r.data);
      Json.MergePrintable(t, false, x, r.data);
    } else {
      Unchanged(t, x, prev, r);
    }
  }

  /** A version without a delta is equivalent to whatever the one before is. */
  lemma Unchanged(t: Ty, x: Value, prev: Record, r: Record)
    requires Linked(t, prev, r) && r.delta.None? && HasType(x, t) && Same(t, false, x, Held(t, prev))
    ensures Same(t, false, x, r.data)
  {
    Equivalence.SameReflexive(t, false, x);
    Equivalence.SameEuclidean(t, false, x, Held(t, prev), x);
    Equivalence.SameEuclidean(t, false, Held(t, prev), x, r.data);
  }

  /** On a chain that conveys, whatever reconstruction answers is right. */
  lemma {:induction false} RebuildSound(t: Ty, h: seq<Record>, v: nat)
    requires Faithful(t, h) && 1 <= v <= |h| && ChainConveys(t, h, v)
    ensures Rebuild(t, h[..v]).Ok? ==> Right(t, h, v) && Printable(Rebuild(t, h[..v]).value)
    decreases v
  {
    RebuildLast(t, h, v);
    if h[v - 1].strategy.Full? {
      assert Rebuild(t, h[..v]) == Ok(Held(t, h[v - 1]));
    } else if Rebuild(t, h[..v]).Ok? {
      RebuildSound(t, h, v - 1);
      StepSound(t, Rebuild(t, h[..v - 1]).value, h[v - 2], h[v - 1]);
    }
  }

  // ----- When it answers -----

  /** A delta version can be rebuilt exactly when the one before can and its changes are
      replayable on what that rebuilds to. */
  lemma RebuildProgress(t: Ty, h: seq<Record>, v: nat)
    requires Faithful(t, h) && 1 <= v <= |h| && ChainConveys(t, h, v)
    ensures Rebuild(t, h[..v]).Ok? <==>
            h[v - 1].strategy.Full? ||
            (Rebuild(t, h[..v - 1]).Ok? &&
             (h[v - 1].delta.Some? ==> Replayable(t, Rebuild(t, h[..v - 1]).value, h[v - 1].data)))
  {
    RebuildLast(t, h, v);
    if h[v - 1].strategy.Full? {
      assert Rebuild(t, h[..v]) == Ok(Held(t, h[v - 1]));
    } else if Rebuild(t, h[..v - 1]).Ok? {
      RebuildSound(t, h, v - 1);
      StepSound(t, Rebuild(t, h[..v - 1]).value, h[v - 2], h[v - 1]);
    }
  }

  ghost predicate AllAllocated(h: seq<Record>) {
    forall i :: 0 <= i < |h| ==> Allocated(h[i].data)
  }

  /** Back to the nearest snapshot, every delta can be replayed on the data it was computed from. */
  ghost predicate ChainFits(t: Ty, h: seq<Record>, v: nat)
    requires 1 <= v <= |h|
    decreases v
  {
    || h[v - 1].strategy.Full?
    || (v > 1 && ChainFits(t, h, v - 1) && DeltaFits(t, h[v - 2], h[v - 1]))
  }

  ghost predicate DeltaFits(t: Ty, prev: Record, r: Record) {
    r.delta.Some? && HasType(prev.data, t) && HasType(r.data, t) ==> Replayable(t, Held(t, prev), r.data)
  }

  /** With no nil map in any stored entity, a version can be rebuilt exactly when every delta
      since the nearest snapshot can be replayed on the stored data before it. */
  lemma {:induction false} RebuildAllocated(t: Ty, h: seq<Record>, v: nat)
    requires Faithful(t, h) && AllAllocated(h) && 1 <= v <= |h| && ChainConveys(t, h, v)
    ensures Rebuild(t, h[..v]).Ok? <==> ChainFits(t, h, v)
    ensures Rebuild(t, h[..v]).Ok? ==> Allocated(Rebuild(t, h[..v]).value)
    decreases v
  {
    RebuildLast(t, h, v);
    if h[v - 1].strategy.Full? {
      DecodedAllocated(h[v - 1].data);
      assert Rebuild(t, h[..v]) == Ok(Held(t, h[v - 1]));
    } else {
      assert Linked(t, h[v - 2], h[v - 1]);
      RebuildAllocated(t, h, v - 1);
      if Rebuild(t, h[..v - 1]).Ok? {
        RebuildSound(t, h, v - 1);
        StepAllocated(t, Rebuild(t, h[..v - 1]).value, h[v - 2], h[v - 1]);
      }
    }
  }

  lemma StepAllocated(t: Ty, x: Value, prev: Record, r: Record)
    requires Linked(t, prev, r) && Locates(t, prev, r) && Preserved(t, r)
    requires HasType(x, t) && Printable(x) && Same(t, false, x, prev.data)
    requires Allocated(x) && Allocated(prev.data) && Allocated(r.data)
    ensures Patched(t, x, r.delta).Ok? <==> DeltaFits(t, prev, r)
    ensures Patched(t, x, r.delta).Ok? ==> Allocated(Patched(t, x, r.delta).value)
  {
    StepSound(t, x, prev, r);
    if r.delta.Some? {
      Json.SameDecoded(t, false, x, prev.data);
      DecodedAllocated(prev.data);
      ReplayableAlike(t, x, Held(t, prev), r.data);
      Equivalence.MergeAllocated(t, false, x, r.data);
    }
  }

  lemma ReplayableAlike(t: Ty, x: Value, y: Value, b: Value)
    requires HasType(x, t) && HasType(y, t) && HasType(b, t) && Same(t, false, x, y) && Allocated(x) && Allocated(y)
    ensures Replayable(t, x, b) <==> Replayable(t, y, b)
  {
    Equivalence.SameReflexive(t, false, x);
    Equivalence.SameEuclidean(t, false, x, y, x);
    if Replayable(t, y, b) { Equivalence.ReplayableAllocated(t, false, x, y, b); }
    if Replayable(t, x, b) { Equivalence.ReplayableAllocated(t, false, y, x, b); }
  }

  /** Validated deltas fit. */
  lemma {:induction false} ValidatedFits(t: Ty, h: seq<Record>, v: nat)
    requires Faithful(t, h) && AllValidated(t, h) && 1 <= v <= |h| && ChainConveys(t, h, v)
    ensures ChainFits(t, h, v)
    decreases v
  {
    if !h[v - 1].strategy.Full? {
      var prev, r := h[v - 2], h[v - 1];
      assert Linked(t, prev, r) && Validated(t, prev, r);
      ValidatedFits(t, h, v - 1);
      if r.delta.Some? { RoundTrip.ExactMerge(t, Held(t, prev), r.data); }
    }
  }

  /** With validated deltas and no nil map in any stored entity, every version can be rebuilt. */
  lemma RebuildSucceeds(t: Ty, h: seq<Record>, v: nat)
    requires Faithful(t, h) && AllValidated(t, h) && AllAllocated(h) && 1 <= v <= |h| && ChainConveys(t, h, v)
    ensures Right(t, h, v) && Allocated(Rebuild(t, h[..v]).value)
  {
    ValidatedFits(t, h, v);
    RebuildAllocated(t, h, v);
    RebuildSound(t, h, v);
  }

  // ----- Which state is carried from version to version -----

  /** The version of the nearest snapshot. */
  function Nearest(h: seq<Record>, v: nat): (s: nat)
    requires v <= |h|
    ensures s <= v
    ensures forall i :: s <= i < v ==> !h[i].strategy.Full?
    ensures s > 0 ==> h[s - 1].strategy.Full?
    decreases v
  {
    if v == 0 || h[v - 1].strategy.Full? then v else Nearest(h, v - 1)
  }

  /** The state carried from version `s` to version `v`, by the stored data alone: a record
      without a delta keeps it, one with a delta merges its data in if that can be replayed. */
  ghost function Carried(t: Ty, h: seq<Record>, s: nat, v: nat): (x: Option<Value>)
    requires 1 <= s <= v <= |h| && forall i :: 0 <= i < |h| ==> HasType(h[i].data, t)
    ensures x.Some? ==> HasType(x.value, t)
    decreases v
  {
    if s == v then Some(Held(t, h[s - 1]))
    else
      match Carried(t, h, s, v - 1)
      case None => None
      case Some(x) =>
        if h[v - 1].delta.None? then Some(x)
        else if Replayable(t, x, h[v - 1].data) then Some(MergeIn(t, false, x, h[v - 1].data))
        else None
  }

  ghost predicate RebuildsTo(t: Ty, h: seq<Record>, v: nat, x: Option<Value>)
    requires v <= |h|
  {
    match x case None => Rebuild(t, h[..v]).Err? case Some(y) => Rebuild(t, h[..v]) == Ok(y)
  }

  lemma {:induction false} FaithfulTyped(t: Ty, h: seq<Record>)
    requires Faithful(t, h)
    ensures forall i :: 0 <= i < |h| ==> HasType(h[i].data, t)
    ensures forall v :: 1 <= v <= |h| ==> Nearest(h, v) >= 1
  {
    forall v | 1 <= v <= |h| ensures Nearest(h, v) >= 1 { assert h[0].strategy.Full?; }
  }

  /** On a chain that conveys, what is rebuilt is what is carried from the nearest snapshot: a
      version can be rebuilt exactly when its state is carried to it, and that is the answer. */
  lemma {:induction false} RebuildCarried(t: Ty, h: seq<Record>, v: nat)
    requires Faithful(t, h) && 1 <= v <= |h| && ChainConveys(t, h, v)
    ensures (forall i :: 0 <= i < |h| ==> HasType(h[i].data, t)) && Nearest(h, v) >= 1
    ensures RebuildsTo(t, h, v, Carried(t, h, Nearest(h, v), v))
    decreases v
  {
    FaithfulTyped(t, h);
    RebuildLast(t, h, v);
    if h[v - 1].strategy.Full? {
      assert Rebuild(t, h[..v]) == Ok(Held(t, h[v - 1]));
    } else {
      assert Linked(t, h[v - 2], h[v - 1]);
      RebuildCarried(t, h, v - 1);
      RebuildSound(t, h, v - 1);
      if Rebuild(t, h[..v - 1]).Ok? { StepSound(t, Rebuild(t, h[..v - 1]).value, h[v - 2], h[v - 1]); }
    }
  }

  // ----- Exactly when all is right -----

  /** All versions back to the nearest snapshot are rebuilt right. */
  ghost predicate AllRight(t: Ty, h: seq<Record>, v: nat)
    requires 1 <= v <= |h|
    decreases v
  {
    Right(t, h, v) && (h[v - 1].strategy.Full? || (v > 1 && AllRight(t, h, v - 1)))
  }

  /** Back to the nearest snapshot, no change happens to carry into a hidden field. */
  ghost predicate ChainUndisturbed(t: Ty, h: seq<Record>, v: nat)
    requires 1 <= v <= |h|
    decreases v
  {
    || h[v - 1].strategy.Full?
    || (v > 1 && ChainUndisturbed(t, h, v - 1) && LinkUndisturbed(t, h[v - 2], h[v - 1]))
  }

  ghost predicate LinkUndisturbed(t: Ty, prev: Record, r: Record) {
    HasType(prev.data, t) && HasType(r.data, t) && r.delta.Some? ==> Undisturbed(t, Held(t, prev), r.data)
  }

  /** Whether its deltas were validated or not: a chain is rebuilt right, at every version,
      exactly if every entity is one JSON keeps, every delta locates its changes, and these
      can be replayed on the state carried so far. */
  lemma {:induction false} RebuildRight(t: Ty, h: seq<Record>, v: nat)
    requires Faithful(t, h) && 1 <= v <= |h| && ChainUndisturbed(t, h, v)
    ensures (forall i :: 0 <= i < |h| ==> HasType(h[i].data, t)) && Nearest(h, v) >= 1
    ensures AllRight(t, h, v) <==> ChainConveys(t, h, v) && Carried(t, h, Nearest(h, v), v).Some?
    decreases v
  {
    FaithfulTyped(t, h);
    if !h[v - 1].strategy.Full? { RebuildRight(t, h, v - 1); }
    if AllRight(t, h, v) { RightConveys(t, h, v); }
    if ChainConveys(t, h, v) {
      RebuildCarried(t, h, v);
      RebuildSound(t, h, v);
      assert !h[v - 1].strategy.Full? ==> Nearest(h, v) == Nearest(h, v - 1);
    }
  }

  lemma RightConveys(t: Ty, h: seq<Record>, v: nat)
    requires Faithful(t, h) && 1 <= v <= |h| && ChainUndisturbed(t, h, v) && AllRight(t, h, v)
    requires !h[v - 1].strategy.Full? ==> ChainConveys(t, h, v - 1)
    ensures ChainConveys(t, h, v)
    ensures (forall i :: 0 <= i < |h| ==> HasType(h[i].data, t)) && Nearest(h, v) >= 1
    ensures Carried(t, h, Nearest(h, v), v).Some?
  {
    FaithfulTyped(t, h);
    RebuildLast(t, h, v);
    if h[v - 1].strategy.Full? {
      assert Rebuild(t, h[..v]) == Ok(Held(t, h[v - 1]));
    } else {
      RebuildSound(t, h, v - 1);
      assert Linked(t, h[v - 2], h[v - 1]);
      RightStep(t, Rebuild(t, h[..v - 1]).value, h[v - 2], h[v - 1]);
    }
    RebuildCarried(t, h, v);
  }

  /** A step that leads to the right state conveys all its changes. */
  lemma RightStep(t: Ty, x: Value, prev: Record, r: Record)
    requires Linked(t, prev, r) && LinkUndisturbed(t, prev, r) && HasType(x, t) && Printable(x)
    requires Same(t, false, x, prev.data)
    requires Patched(t, x, r.delta).Ok? && Same(t, false, Patched(t, x, r.delta).value, r.data)
    ensures Locates(t, prev, r) && Preserved(t, r)
  {
    Json.SameDecoded(t, false, x, prev.data);
    if r.delta.Some? {
      RoundTrip.DiffThenApply(t, x, Held(t, prev), r.data);
      Json.ExpressedKept(t, false, Held(t, prev), r.data);
    } else {
      Json.SameDecoded(t, false, Held(t, prev), r.data);
      Equivalence.SameEuclidean(t, false, Held(t, prev), Held(t, r), r.data);
    }
  }

  /** Back to the nearest snapshot, JSON keeps every entity. */
  ghost predicate ChainPreserved(t: Ty, h: seq<Record>, v: nat)
    requires 1 <= v <= |h|
    decreases v
  {
    Preserved(t, h[v - 1]) && (h[v - 1].strategy.Full? || (v > 1 && ChainPreserved(t, h, v - 1)))
  }

  /** Validated deltas locate all their changes. */
  lemma {:induction false} ValidatedConveys(t: Ty, h: seq<Record>, v: nat)
    requires Faithful(t, h) && AllValidated(t, h) && 1 <= v <= |h| && ChainUndisturbed(t, h, v)
    ensures ChainPreserved(t, h, v) <==> ChainConveys(t, h, v)
    decreases v
  {
    if !h[v - 1].strategy.Full? {
      var prev, r := h[v - 2], h[v - 1];
      assert Linked(t, prev, r) && Validated(t, prev, r);
      ValidatedConveys(t, h, v - 1);
      if r.delta.Some? && Preserved(t, r) { RoundTrip.CheckedIsConveyed(t, Held(t, prev), r.data); }
    }
  }

  // ----- When it is exact -----

  /** Back to the nearest snapshot, every record holds a delta that was validated. */
  ghost predicate ExactChain(t: Ty, h: seq<Record>, v: nat)
    requires 1 <= v <= |h|
    decreases v
  {
    HasType(h[v - 1].data, t) &&
    (h[v - 1].strategy.Full? ||
     (v > 1 && h[v - 1].delta.Some? && h[v - 1].delta.value != [] &&
      Validated(t, h[v - 2], h[v - 1]) && ExactChain(t, h, v - 1)))
  }

  /** What is rebuilt then has the very JSON that was stored. */
  lemma {:induction false} RebuildExact(t: Ty, h: seq<Record>, v: nat)
    requires 1 <= v <= |h| && ExactChain(t, h, v)
    ensures Rebuild(t, h[..v]).Ok? && Json.Alike(Rebuild(t, h[..v]).value, h[v - 1].data)
    decreases v
  {
    RebuildLast(t, h, v);
    if h[v - 1].strategy.Full? {
      assert Rebuild(t, h[..v]) == Ok(Held(t, h[v - 1]));
      Json.DecodedTwice(h[v - 1].data);
    } else {
      RebuildExact(t, h, v - 1);
      var x, prev, r := Rebuild(t, h[..v - 1]).value, h[v - 2], h[v - 1];
      Json.DecodedTwice(prev.data);
      RoundTrip.ReplayedAlike(t, x, Held(t, prev), r.delta.value);
    }
  }

  // ----- The page limit -----

  /** The last version a listing shows that is not past the target. */
  function Shown(target: nat, limit: nat): nat {
    if 0 < limit < target then limit else target
  }

  lemma AnswerFromPage(registry: Registry, h: seq<Record>, entityType: string, target: nat, limit: nat)
    requires entityType in registry && Gapless(h) && 1 <= target <= |h| && !h[target - 1].strategy.Full?
    ensures Answer(registry, h, entityType, target, limit) ==
            Rebuild(registry[entityType].ty, h[..Shown(target, limit)])
  {
    GaplessFind(h, target);
    ShownPage(h, target, limit);
  }

  /** How many records are listed. */
  function Listed(h: seq<Record>, limit: nat): (n: nat)
    ensures n <= |h|
  {
    if 0 < limit < |h| then limit else |h|
  }

  lemma ListedPage(h: seq<Record>, limit: nat)
    requires Gapless(h)
    ensures Page(ByVersion(h, true), limit, 0) == h[..Listed(h, limit)] && Gapless(h[..Listed(h, limit)])
  {
    GaplessPage(h, limit);
  }

  lemma ShownPage(h: seq<Record>, target: nat, limit: nat)
    requires Gapless(h) && 1 <= target <= |h|
    ensures Shown(target, limit) <= Listed(h, limit) && UpTo(h[..Listed(h, limit)], target) == Shown(target, limit)
    ensures var page := Page(ByVersion(h, true), limit, 0); page[..UpTo(page, target)] == h[..Shown(target, limit)]
  {
    var n, k := Listed(h, limit), Shown(target, limit);
    ListedPage(h, limit);
    GaplessUpTo(h[..n], target);
    assert h[..n][..k] == h[..k];
  }

  /** Equivalent values are equivalent to the same values. */
  lemma SameAlike(t: Ty, x: Value, p: Value, q: Value)
    requires HasType(x, t) && HasType(p, t) && HasType(q, t) && Same(t, false, x, p)
    ensures Same(t, false, x, q) <==> Same(t, false, p, q)
  {
    Equivalence.SameReflexive(t, false, x);
    Equivalence.SameEuclidean(t, false, x, p, x);
    if Same(t, false, x, q) { Equivalence.SameEuclidean(t, false, x, p, q); }
    if Same(t, false, p, q) { Equivalence.SameEuclidean(t, false, p, x, q); }
  }

  /** Listing shows `limit` records; past that, a delta version is answered with the state
      of the last record shown, which is right exactly if the engine cannot tell the two. */
  lemma AnswerWithinPage(registry: Registry, h: seq<Record>, entityType: string, target: nat, limit: nat)
    requires entityType in registry && Faithful(registry[entityType].ty, h) && 1 <= target <= |h|
    requires h[target - 1].strategy.Full? || ChainConveys(registry[entityType].ty, h, Shown(target, limit))
    ensures HasType(h[target - 1].data, registry[entityType].ty)
    ensures h[target - 1].strategy.Full? ==>
              Answer(registry, h, entityType, target, limit) == Ok(Held(registry[entityType].ty, h[target - 1]))
    ensures 0 < limit < target ==> HasType(h[limit - 1].data, registry[entityType].ty)
    ensures !h[target - 1].strategy.Full? && Answer(registry, h, entityType, target, limit).Ok? ==>
              (Same(registry[entityType].ty, false, Answer(registry, h, entityType, target, limit).value,
                h[target - 1].data) <==>
               (limit == 0 || target <= limit
                || Same(registry[entityType].ty, false, h[limit - 1].data, h[target - 1].data)))
    ensures Answer(registry, h, entityType, target, limit).Ok? <==>
              h[target - 1].strategy.Full? || Rebuild(registry[entityType].ty, h[..Shown(target, limit)]).Ok?
  {
    if h[target - 1].strategy.Full? {
      SnapshotAnswered(registry, h, entityType, target, limit);
    } else {
      DeltaAnswered(registry[entityType].ty, h, target, limit);
      AnswerFromPage(registry, h, entityType, target, limit);
    }
  }

  lemma SnapshotAnswered(registry: Registry, h: seq<Record>, entityType: string, target: nat, limit: nat)
    requires entityType in registry && Faithful(registry[entityType].ty, h) && 1 <= target <= |h|
    requires h[target - 1].strategy.Full?
    ensures HasType(h[target - 1].data, registry[entityType].ty)
    ensures Answer(registry, h, entityType, target, limit) == Ok(Held(registry[entityType].ty, h[target - 1]))
  {
    GaplessFind(h, target);
    assert Decode(registry[entityType].ty, h[target - 1].data) == Ok(Held(registry[entityType].ty, h[target - 1]));
  }

  /** What the records shown come to is as far from the version's data as the last of them. */
  lemma DeltaAnswered(t: Ty, h: seq<Record>, target: nat, limit: nat)
    requires Faithful(t, h) && 1 <= target <= |h| && ChainConveys(t, h, Shown(target, limit))
    ensures HasType(h[target - 1].data, t) && (0 < limit < target ==> HasType(h[limit - 1].data, t))
    ensures Rebuild(t, h[..Shown(target, limit)]).Ok? ==>
              (Same(t, false, Rebuild(t, h[..Shown(target, limit)]).value, h[target - 1].data) <==>
               (limit == 0 || target <= limit || Same(t, false, h[limit - 1].data, h[target - 1].data)))
  {
    PageRight(t, h, Shown(target, limit), h[target - 1].data);
    Equivalence.SameReflexive(t, false, h[target - 1].data);
  }

  /** What is rebuilt from a version is as far from any data as that version's own data. */
  lemma PageRight(t: Ty, h: seq<Record>, k: nat, data: Value)
    requires Faithful(t, h) && 1 <= k <= |h| && HasType(data, t) && ChainConveys(t, h, k)
    ensures HasType(h[k - 1].data, t)
    ensures Rebuild(t, h[..k]).Ok? ==> (Same(t, false, Rebuild(t, h[..k]).value, data) <==>
            Same(t, false, h[k - 1].data, data))
  {
    RebuildSound(t, h, k);
    if Rebuild(t, h[..k]).Ok? { SameAlike(t, Rebuild(t, h[..k]).value, h[k - 1].data, data); }
  }

  // ----- Two reads -----

  /** The history some time later: it may have grown, and deltas may have become snapshots. */
  ghost predicate Evolved(h: seq<Record>, later: seq<Record>) {
    |h| <= |later| && forall i :: 0 <= i < |h| ==> EvolvedRecord(h[i], later[i])
  }

  ghost predicate EvolvedRecord(r: Record, later: Record) {
    later == r || (later.version == r.version && later.data == r.data && later.strategy.Full?)
  }

  /** A version found before and listed later is answered as it would be later, unless it lies
      past the page and was compacted in between; then as a delta past the page is. */
  lemma AnswerEvolved(registry: Registry, h: seq<Record>, later: seq<Record>, entityType: string, target: nat,
      limit: nat)
    requires entityType in registry && Faithful(registry[entityType].ty, h) && Faithful(registry[entityType].ty, later)
    requires Evolved(h, later) && 1 <= target <= |h|
    ensures AnswerBetween(registry, h, later, entityType, target, limit) ==
            if 0 < limit < target && later[target - 1].strategy.Full? && !h[target - 1].strategy.Full?
            then Rebuild(registry[entityType].ty, later[..limit])
            else Answer(registry, later, entityType, target, limit)
  {
    GaplessFind(h, target);
    GaplessFind(later, target);
    assert EvolvedRecord(h[target - 1], later[target - 1]);
    ShownPage(later, target, limit);
    RebuildLast(registry[entityType].ty, later, target);
  }

  lemma {:induction false} GaplessUpToFrom(h: seq<Record>, base: int, target: int)
    requires forall i :: 0 <= i < |h| ==> h[i].version == base + i
    ensures UpTo(h, target) == if target < base then 0 else if target - base < |h| then target - base + 1 else |h|
    decreases |h|
  {
    if h != [] {
      assert forall i :: 0 <= i < |h| - 1 ==> h[1..][i] == h[i + 1];
      GaplessUpToFrom(h[1..], base + 1, target);
    }
  }

  lemma GaplessUpTo(h: seq<Record>, target: int)
    requires Gapless(h) && target >= 1
    ensures UpTo(h, target) == if target < |h| then target else |h|
  {
    GaplessUpToFrom(h, 1, target);
  }

  // ----- What reconstruction costs -----

  /** The count depends on the records up to the version only. */
  lemma {:induction false} DeltaCostPrefix(h: seq<Record>, k: nat, v: nat)
    requires v <= k <= |h|
    ensures DeltaCost(h[..k], v) == DeltaCost(h, v)
    decreases v
  {
    if v > 0 { DeltaCostPrefix(h, k, v - 1); }
  }

  /** The records from the `lo`th to before the `hi`th that hold a delta. */
  ghost function DeltasIn(h: seq<Record>, lo: nat, hi: nat): set<nat>
    requires hi <= |h|
  {
    set i: nat | lo <= i < hi && h[i].delta.Some? && h[i].delta.value != [] :: i
  }

  lemma DeltasNext(h: seq<Record>, lo: nat, hi: nat)
    requires lo <= hi < |h|
    ensures |DeltasIn(h, lo, hi + 1)| == |DeltasIn(h, lo, hi)| + if HasDelta(h[hi]) then 1 else 0
  {
    assert DeltasIn(h, lo, hi + 1) == DeltasIn(h, lo, hi) + if HasDelta(h[hi]) then {hi} else {};
  }

  /** The count is the number of deltas stored since the nearest snapshot. */
  lemma {:induction false} DeltaCostExact(h: seq<Record>, v: nat)
    requires v <= |h|
    ensures DeltaCost(h, v) == |DeltasIn(h, Nearest(h, v), v)|
    decreases v
  {
    if v > 0 && !h[v - 1].strategy.Full? {
      DeltaCostExact(h, v - 1);
      DeltasNext(h, Nearest(h, v), v - 1);
    } else {
      assert DeltasIn(h, v, v) == {};
    }
  }

  /** The deltas Reconstruct applies are those since the nearest snapshot shown. */
  lemma AnswerCosts(registry: Registry, h: seq<Record>, entityType: string, target: nat, limit: nat)
    requires Gapless(h) && 1 <= target <= |h|
    ensures AnswerCost(registry, h, entityType, target, limit) <= DeltaCost(h, Shown(target, limit))
    ensures entityType in registry && !h[target - 1].strategy.Full? ==>
              AnswerCost(registry, h, entityType, target, limit) == DeltaCost(h, Shown(target, limit))
  {
    GaplessFind(h, target);
    PageShown(h, target, limit);
    DeltaCostPrefix(h, |Page(ByVersion(h, true), limit, 0)|, Shown(target, limit));
  }

  lemma PageShown(h: seq<Record>, target: nat, limit: nat)
    requires Gapless(h) && 1 <= target <= |h|
    ensures var page := Page(ByVersion(h, true), limit, 0);
            |page| <= |h| && page == h[..|page|] && UpTo(page, target) == Shown(target, limit) <= |page|
  {
    ListedPage(h, limit);
    ShownPage(h, target, limit);
  }

  /** With a snapshot at every version that is 1 modulo the interval, at most interval - 1. */
  lemma {:induction false} HybridCost(h: seq<Record>, interval: nat, v: nat)
    requires interval >= 2 && Gapless(h) && 1 <= v <= |h|
    requires forall i :: 0 <= i < |h| && (i + 1) % interval == 1 ==> h[i].strategy.Full?
    ensures DeltaCost(h, v) <= (v - 1) % interval <= interval - 1
    decreases v
  {
    assert 1 % interval == 1;
    if !h[v - 1].strategy.Full? {
      assert v > 1 && v % interval != 1;
      HybridCost(h, interval, v - 1);
      NextRemainder(v - 2, interval);
      NextRemainder(v - 1, interval);
    }
  }

  lemma NextRemainder(n: nat, m: nat)
    requires m >= 2
    ensures (n + 1) % m == if n % m == m - 1 then 0 else n % m + 1
  {
    var q, r := n / m, n % m;
    assert n + 1 == q * m + (r + 1);
    if r == m - 1 {
      assert n + 1 == (q + 1) * m;
      Remainder(n + 1, q + 1, 0, m);
    } else {
      Remainder(n + 1, q, r + 1, m);
    }
  }

  lemma Remainder(n: nat, q: nat, r: nat, m: nat)
    requires r < m && n == q * m + r
    ensures n % m == r && n / m == q
  {
    var d := n / m - q;
    assert n % m - r == -d * m by { assert n == (n / m) * m + n % m; assert (n / m) * m == q * m + d * m; }
    Multiples(d, m);
  }

  lemma Multiples(d: int, m: nat)
    ensures d >= 1 ==> d * m >= m
    ensures d <= -1 ==> -d * m >= m
  {
  }
}
