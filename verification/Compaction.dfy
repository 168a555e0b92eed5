/** Compaction: turning every MaxDeltaChain-th delta of a run into a full snapshot. */
module Compaction {
  import opened Prelude
  import opened Entities
  import opened Changes
  import opened Merge
  import opened DiffEngine
  import opened Records
  import opened Reconstruction
  import opened Histories
  import Equivalence

  datatype CompactError = TypeUnknown | DataUnreadable | WriteFailed

  const DEFAULT_MAX_DELTA_CHAIN := 50

  /** NewCompactor replaces a bound that makes no sense by the default. */
  function ChainBound(configured: int): (n: nat)
    ensures n >= 1 && (configured >= 1 ==> n == configured)
  {
    if configured <= 0 then DEFAULT_MAX_DELTA_CHAIN else configured
  }

  /** Registered types are structs whose identifier field is a plain leaf. */
  predicate Registered(c: EntityConfig) {
    c.ty.Struct? && c.idField < |c.ty.fields| && c.ty.fields[c.idField].ty.Leaf?
  }

  function IdOf(c: EntityConfig, data: Value): string
    requires Registered(c) && HasType(data, c.ty)
  {
    assert HasType(data.fs[c.idField], c.ty.fields[c.idField].ty);
    data.fs[c.idField].text
  }

  /** The record rewritten as a snapshot: delta, hash and previous hash are dropped. */
  function Snapshot(entityType: string, entityID: string, r: Record): Record {
    Record(r.id, entityType, entityID, r.version, Full, r.data, None, "", "")
  }

  datatype Run = Run(out: seq<Record>, count: nat, error: Option<CompactError>)

  /** The walk over the listed records with `chain` deltas just seen, when the store
      accepts `writes` more updates before one fails. */
  function Walked(registry: Registry, entityType: string, recs: seq<Record>, max: nat, chain: nat,
      writes: nat): (r: Run)
    requires forall n :: n in registry ==> Registered(registry[n])
    ensures |r.out| == |recs|
  {
    if recs == [] then Run([], 0, None)
    else
      var r := recs[0];
      if r.strategy.Full? then Kept(r, Walked(registry, entityType, recs[1..], max, 0, writes))
      else if chain + 1 < max then Kept(r, Walked(registry, entityType, recs[1..], max, chain + 1, writes))
      else if entityType !in registry then Run(recs, 0, Some(TypeUnknown))
      else if !HasType(r.data, registry[entityType].ty) then Run(recs, 0, Some(DataUnreadable))
      else if writes == 0 then Run(recs, 0, Some(WriteFailed))
      else
        var rest := Walked(registry, entityType, recs[1..], max, 0, writes - 1);
        Run([Snapshot(entityType, IdOf(registry[entityType], r.data), r)] + rest.out, 1 + rest.count, rest.error)
  }

  function Kept(r: Record, rest: Run): Run {
    rest.(out := [r] + rest.out)
  }

  /** The identifier in a record's data is that of the entity it is stored under. */
  ghost predicate OwnData(registry: Registry, entityType: string, entityID: string, r: Record)
    requires forall n :: n in registry ==> Registered(registry[n])
  {
    entityType in registry && HasType(r.data, registry[entityType].ty) ==>
      IdOf(registry[entityType], r.data) == entityID
  }

  /** The records are those of one entity, in the order of their versions. */
  ghost predicate Owned(registry: Registry, entityType: string, entityID: string, h: seq<Record>)
    requires forall n :: n in registry ==> Registered(registry[n])
  {
    Increasing(h) && forall i :: 0 <= i < |h| ==> OwnData(registry, entityType, entityID, h[i])
  }

  /** What a compaction leaves of a history, and what it reports. */
  ghost predicate Compacted(
    registry: Registry, entityType: string, h: seq<Record>, h': seq<Record>, max: nat, limit: nat, writes: nat,
    count: nat, error: Option<CompactError>)
    requires forall n :: n in registry ==> Registered(registry[n])
  {
    var page := Page(ByVersion(h, true), limit, 0);
    && |h'| == |h| && h'[|page|..] == h[|page|..]
    && Walked(registry, entityType, page, max, 0, writes) == Run(h'[..|page|], count, error)
  }

  // ----- The same in the store -----

  datatype StoreRun = StoreRun(table: Table, count: nat, error: Option<CompactError>)

  /** The update of a record that has become a snapshot: it fails if the store refuses it or
      holds no record of that entity and version. */
  predicate Updates(table: Table, s: Record, writes: nat) {
    writes > 0 && FirstWith(History(table, Key(s.entityType, s.entityID)), s.version).Some?
  }

  function Updated(table: Table, s: Record): Table {
    var k := Key(s.entityType, s.entityID);
    table[k := Replaced(History(table, k), s)]
  }

  /** Why a record cannot be rewritten as a snapshot, if it cannot. */
  function RewriteError(table: Table, registry: Registry, entityType: string, r: Record, writes: nat)
    : (error: Option<CompactError>)
    requires forall n :: n in registry ==> Registered(registry[n])
    ensures error.None? ==> entityType in registry && HasType(r.data, registry[entityType].ty) && writes > 0
  {
    if entityType !in registry then Some(TypeUnknown)
    else if !HasType(r.data, registry[entityType].ty) then Some(DataUnreadable)
    else if Updates(table, Snapshot(entityType, IdOf(registry[entityType], r.data), r), writes) then None
    else Some(WriteFailed)
  }

  function Rewriting(table: Table, registry: Registry, entityType: string, r: Record): Table
    requires forall n :: n in registry ==> Registered(registry[n])
    requires entityType in registry && HasType(r.data, registry[entityType].ty)
  {
    Updated(table, Snapshot(entityType, IdOf(registry[entityType], r.data), r))
  }

  /** The walk over the listed records, on the whole store. */
  function StoreWalk(
    table: Table, registry: Registry, entityType: string, recs: seq<Record>, max: nat, chain: nat,
      writes: nat): StoreRun
    requires forall n :: n in registry ==> Registered(registry[n])
    decreases |recs|
  {
    if recs == [] then StoreRun(table, 0, None)
    else
      var r := recs[0];
      if r.strategy.Full? then StoreWalk(table, registry, entityType, recs[1..], max, 0, writes)
      else if chain + 1 < max then StoreWalk(table, registry, entityType, recs[1..], max, chain + 1, writes)
      else
        var error := RewriteError(table, registry, entityType, r, writes);
        if error.Some? then StoreRun(table, 0, error)
        else
          var next := Rewriting(table, registry, entityType, r);
          Counted(StoreWalk(next, registry, entityType, recs[1..], max, 0, writes - 1), 1)
  }

  /** A walk before which `n` records were rewritten. */
  function Counted(run: StoreRun, n: nat): StoreRun {
    run.(count := n + run.count)
  }

  /** Where `Compact` is: `n` records rewritten, and the rest of the walk still to come. */
  ghost predicate Midway(
    all: StoreRun, table: Table, registry: Registry, entityType: string, recs: seq<Record>, max: nat, chain: nat,
    writes: nat, n: nat)
    requires forall n :: n in registry ==> Registered(registry[n])
  {
    all == Counted(StoreWalk(table, registry, entityType, recs, max, chain, writes), n)
  }

  /** One more record of the walk. */
  lemma MidwayNext(
    all: StoreRun, table: Table, registry: Registry, entityType: string, recs: seq<Record>, i: nat, max: nat,
      chain: nat,
    writes: nat, n: nat)
    requires forall n :: n in registry ==> Registered(registry[n])
    requires i < |recs| && Midway(all, table, registry, entityType, recs[i..], max, chain, writes, n)
    ensures recs[i].strategy.Full? ==> Midway(all, table, registry, entityType, recs[i + 1..], max, 0, writes, n)
    ensures !recs[i].strategy.Full? && chain + 1 < max ==>
              Midway(all, table, registry, entityType, recs[i + 1..], max, chain + 1, writes, n)
    ensures !recs[i].strategy.Full? && chain + 1 >= max ==>
              var error := RewriteError(table, registry, entityType, recs[i], writes);
              if error.Some? then all == StoreRun(table, n, error)
              else
                var next := Rewriting(table, registry, entityType, recs[i]);
                Midway(all, next, registry, entityType, recs[i + 1..], max, 0, writes - 1, n + 1)
  {
    assert recs[i..][0] == recs[i] && recs[i..][1..] == recs[i + 1..];
  }

  method Compact(store: Store, registry: Registry, entityType: string, entityID: string, max: nat, limit: nat,
      writes: nat)
    returns (compacted: nat, error: Option<CompactError>)
    requires forall n :: n in registry ==> Registered(registry[n])
    modifies store
    ensures var page := Page(ByVersion(History(old(store.records), Key(entityType, entityID)), true), limit, 0);
            StoreRun(store.records, compacted, error) ==
            StoreWalk(old(store.records), registry, entityType, page, max, 0, writes)
  {
    var records := store.ListVersions(entityType, entityID, true, limit, 0);
    ghost var all := StoreWalk(store.records, registry, entityType, records, max, 0, writes);
    assert records[0..] == records && records[|records|..] == [];
    compacted := 0;
    error := None;
    var chainLen: nat, left: nat := 0, writes;
    for i := 0 to |records|
      invariant error.None?
      invariant Midway(all, store.records, registry, entityType, records[i..], max, chainLen, left, compacted)
    {
      compacted, chainLen, left, error :=
        Visit(store, registry, entityType, max, chainLen, left, compacted, all, records, i);
      if error.Some? { return; }
    }
  }

  /** One record of the walk. */
  method Visit(
    store: Store, registry: Registry, entityType: string, max: nat, chainLen: nat, left: nat, compacted: nat,
    ghost all: StoreRun, records: seq<Record>, i: nat)
    returns (compacted': nat, chainLen': nat, left': nat, error: Option<CompactError>)
    requires forall n :: n in registry ==> Registered(registry[n])
    requires i < |records|
    requires Midway(all, store.records, registry, entityType, records[i..], max, chainLen, left, compacted)
    modifies store
    ensures error.None? ==>
              Midway(all, store.records, registry, entityType, records[i + 1..], max, chainLen', left', compacted')
    ensures error.Some? ==> all == StoreRun(store.records, compacted', error)
  {
    MidwayNext(all, store.records, registry, entityType, records, i, max, chainLen, left, compacted);
    compacted', left', error := compacted, left, None;
    if records[i].strategy.Full? {
      chainLen' := 0;
      return;
    }
    chainLen' := chainLen + 1;
    if chainLen' >= max {
      error := Rewrite(store, registry, entityType, records[i], left);
      if error.None? { compacted', chainLen', left' := compacted + 1, 0, left - 1; }
    }
  }

  /** The record that completes a chain becomes a snapshot. */
  method Rewrite(store: Store, registry: Registry, entityType: string, r: Record, left: nat)
    returns (error: Option<CompactError>)
    requires forall n :: n in registry ==> Registered(registry[n])
    modifies store
    ensures error == RewriteError(old(store.records), registry, entityType, r, left)
    ensures store.records ==
            if error.None? then Rewriting(old(store.records), registry, entityType, r) else old(store.records)
  {
    if entityType !in registry { return Some(TypeUnknown); }
    if !HasType(r.data, registry[entityType].ty) { return Some(DataUnreadable); }
    if left == 0 { return Some(WriteFailed); }
    var found := store.Update(Snapshot(entityType, IdOf(registry[entityType], r.data), r));
    error := if found then None else Some(WriteFailed);
  }

  /** A walk over the store that comes to these records under `key`, and touches nothing else. */
  ghost predicate Leaves(table: Table, run: StoreRun, key: string, records: seq<Record>, count: nat,
      error: Option<CompactError>) {
    run.count == count && run.error == error && OnlyAt(table, run.table, key) && History(run.table, key) == records
  }

  /** From here on the walk over the store is the walk over the records `g[i..n]`. */
  ghost predicate SameWalk(
    table: Table, registry: Registry, entityType: string, entityID: string, recs: seq<Record>, max: nat, chain: nat,
    writes: nat, i: nat, n: nat)
    requires forall n :: n in registry ==> Registered(registry[n])
    requires i <= n <= |History(table, Key(entityType, entityID))|
  {
    var k := Key(entityType, entityID);
    var run, w, g :=
      StoreWalk(table, registry, entityType, recs, max, chain, writes),
      Walked(registry, entityType, recs, max, chain, writes), History(table, k);
    Leaves(table, run, k, g[..i] + w.out + g[n..], w.count, w.error)
  }

  /** The records of one entity in version order, those in `recs` being still to come. */
  ghost predicate StillToCome(
    table: Table, registry: Registry, entityType: string, entityID: string, recs: seq<Record>, i: nat, n: nat)
    requires forall n :: n in registry ==> Registered(registry[n])
  {
    var g := History(table, Key(entityType, entityID));
    Owned(registry, entityType, entityID, g) && i <= n <= |g| && recs == g[i..n]
  }

  lemma {:induction false} StoreWalkOwned(
    table: Table, registry: Registry, entityType: string, entityID: string, recs: seq<Record>, max: nat, chain: nat,
    writes: nat, i: nat, n: nat)
    requires forall n :: n in registry ==> Registered(registry[n])
    requires StillToCome(table, registry, entityType, entityID, recs, i, n)
    ensures SameWalk(table, registry, entityType, entityID, recs, max, chain, writes, i, n)
    decreases |recs|, 1
  {
    if recs != [] && (recs[0].strategy.Full? || chain + 1 < max) {
      KeptOwned(table, registry, entityType, entityID, recs, max, chain, writes, i, n);
    } else if recs != [] && entityType in registry && HasType(recs[0].data, registry[entityType].ty) && writes > 0 {
      RewrittenOwned(table, registry, entityType, entityID, recs, max, chain, writes, i, n);
    } else {
      Untouched(History(table, Key(entityType, entityID)), i, n);
    }
  }

  lemma {:induction false} KeptOwned(
    table: Table, registry: Registry, entityType: string, entityID: string, recs: seq<Record>, max: nat, chain: nat,
    writes: nat, i: nat, n: nat)
    requires forall n :: n in registry ==> Registered(registry[n])
    requires StillToCome(table, registry, entityType, entityID, recs, i, n)
    requires recs != [] && (recs[0].strategy.Full? || chain + 1 < max)
    ensures SameWalk(table, registry, entityType, entityID, recs, max, chain, writes, i, n)
    decreases |recs|, 0
  {
    var g, r := History(table, Key(entityType, entityID)), recs[0];
    var next := if r.strategy.Full? then 0 else chain + 1;
    assert g[i] == r && recs[1..] == g[i + 1..n];
    StoreWalkOwned(table, registry, entityType, entityID, recs[1..], max, next, writes, i + 1, n);
    Shifted(g, i, n, r, Walked(registry, entityType, recs[1..], max, next, writes).out);
  }

  lemma {:induction false} RewrittenOwned(
    table: Table, registry: Registry, entityType: string, entityID: string, recs: seq<Record>, max: nat, chain: nat,
    writes: nat, i: nat, n: nat)
    requires forall n :: n in registry ==> Registered(registry[n])
    requires StillToCome(table, registry, entityType, entityID, recs, i, n) && recs != [] && writes > 0
    requires !recs[0].strategy.Full? && chain + 1 >= max
    requires entityType in registry && HasType(recs[0].data, registry[entityType].ty)
    ensures SameWalk(table, registry, entityType, entityID, recs, max, chain, writes, i, n)
    decreases |recs|, 0
  {
    var g := History(table, Key(entityType, entityID));
    var s := Snapshot(entityType, IdOf(registry[entityType], recs[0].data), recs[0]);
    var next := Rewriting(table, registry, entityType, recs[0]);
    assert g[i] == recs[0] && recs[1..] == g[i + 1..n];
    UpdatedOwned(table, next, registry, entityType, entityID, i, n, s, writes);
    RestOwned(table, next, registry, entityType, entityID, recs[1..], g, s, max, writes - 1, i, n);
  }

  lemma Untouched(g: seq<Record>, i: nat, n: nat)
    requires i <= n <= |g|
    ensures g == g[..i] + g[i..n] + g[n..]
  {
  }

  lemma Shifted(g: seq<Record>, i: nat, n: nat, r: Record, out: seq<Record>)
    requires i < n <= |g|
    ensures g[i := r][..i + 1] + out + g[i := r][n..] == g[..i] + ([r] + out) + g[n..]
    ensures g[i := r][i + 1..n] == g[i + 1..n] && (g[i] == r ==> g[i := r] == g)
  {
  }

  lemma UpdatedOwned(
    table: Table, next: Table, registry: Registry, entityType: string, entityID: string, i: nat, n: nat, s: Record,
    writes: nat)
    requires forall n :: n in registry ==> Registered(registry[n])
    requires Owned(registry, entityType, entityID, History(table, Key(entityType, entityID)))
    requires i < n <= |History(table, Key(entityType, entityID))| && entityType in registry && writes > 0
    requires var r := History(table, Key(entityType, entityID))[i];
             && HasType(r.data, registry[entityType].ty)
             && s == Snapshot(entityType, IdOf(registry[entityType], r.data), r) && next == Updated(table, s)
    ensures var k := Key(entityType, entityID);
            var g, g' := History(table, k), History(next, k);
            && Updates(table, s, writes) && g' == g[i := s] && OnlyAt(table, next, k)
            && Owned(registry, entityType, entityID, g') && g'[i + 1..n] == g[i + 1..n]
  {
    var g := History(table, Key(entityType, entityID));
    assert OwnData(registry, entityType, entityID, g[i]);
    FirstAt(g, s, i);
    assert History(next, Key(entityType, entityID)) == g[i := s];
  }

  /** The rest of the walk, in the store `next` in which `g[i]` has become `s`. */
  lemma {:induction false} RestOwned(
    table: Table, next: Table, registry: Registry, entityType: string, entityID: string, rest: seq<Record>,
    g: seq<Record>, s: Record, max: nat, writes: nat, i: nat, n: nat)
    requires forall n :: n in registry ==> Registered(registry[n])
    requires i < n <= |g| && History(next, Key(entityType, entityID)) == g[i := s] && rest == g[i + 1..n]
    requires Owned(registry, entityType, entityID, g[i := s]) && OnlyAt(table, next, Key(entityType, entityID))
    ensures var w := Walked(registry, entityType, rest, max, 0, writes);
            Leaves(table, StoreWalk(next, registry, entityType, rest, max, 0, writes), Key(entityType, entityID),
                   g[..i] + ([s] + w.out) + g[n..], w.count, w.error)
    decreases |rest|, 2
  {
    var w := Walked(registry, entityType, rest, max, 0, writes);
    Shifted(g, i, n, s, w.out);
    StoreWalkOwned(next, registry, entityType, entityID, rest, max, 0, writes, i + 1, n);
    LeavesTwice(table, next, StoreWalk(next, registry, entityType, rest, max, 0, writes), Key(entityType, entityID),
                g[..i] + ([s] + w.out) + g[n..], w.count, w.error);
  }

  lemma LeavesTwice(
    before: Table, table: Table, run: StoreRun, key: string, records: seq<Record>, count: nat,
    error: Option<CompactError>)
    requires OnlyAt(before, table, key) && Leaves(table, run, key, records, count, error)
    ensures Leaves(before, run, key, records, count, error)
  {
    OnlyAtTwice(before, table, run.table, key);
  }

  lemma OnlyAtTwice(before: Table, table: Table, after: Table, key: string)
    requires OnlyAt(before, table, key) && OnlyAt(table, after, key)
    ensures OnlyAt(before, after, key)
  {
    forall k | k != key ensures History(before, k) == History(after, k) {
      assert History(before, k) == History(table, k);
    }
  }

  /** What Compact does to the records of one entity in version order. */
  lemma CompactOwned(
    table: Table, registry: Registry, entityType: string, entityID: string, max: nat, limit: nat, writes: nat)
    requires forall n :: n in registry ==> Registered(registry[n])
    requires Owned(registry, entityType, entityID, History(table, Key(entityType, entityID)))
    ensures var k := Key(entityType, entityID);
            var h := History(table, k);
            var run := StoreWalk(table, registry, entityType, Page(ByVersion(h, true), limit, 0), max, 0, writes);
            && Compacted(registry, entityType, h, History(run.table, k), max, limit, writes, run.count, run.error)
            && OnlyAt(table, run.table, k)
  {
    var h := History(table, Key(entityType, entityID));
    IncreasingPage(h, limit);
    var page := Page(ByVersion(h, true), limit, 0);
    assert page == h[0..|page|];
    StoreWalkOwned(table, registry, entityType, entityID, page, max, 0, writes, 0, |page|);
    var out := Walked(registry, entityType, page, max, 0, writes).out;
    assert (h[..0] + out + h[|page|..])[..|page|] == out;
    assert (h[..0] + out + h[|page|..])[|page|..] == h[|page|..];
  }

  // ----- What the walk does to the records -----

  /** Each record is kept or, if it was a delta, rewritten as a snapshot of itself. */
  ghost predicate Rewritten(registry: Registry, entityType: string, r: Record, r': Record)
    requires forall n :: n in registry ==> Registered(registry[n])
  {
    r' == r ||
    (!r.strategy.Full? && entityType in registry && HasType(r.data, registry[entityType].ty)
     && r' == Snapshot(entityType, IdOf(registry[entityType], r.data), r))
  }

  lemma {:induction false} WalkRewrites(registry: Registry, entityType: string, recs: seq<Record>, max: nat,
      chain: nat, writes: nat)
    requires forall n :: n in registry ==> Registered(registry[n])
    ensures forall i :: 0 <= i < |recs| ==>
              Rewritten(registry, entityType, recs[i], Walked(registry, entityType, recs, max, chain, writes).out[i])
    decreases |recs|
  {
    if recs != [] {
      WalkRewrites(registry, entityType, recs[1..], max, 0, writes);
      WalkRewrites(registry, entityType, recs[1..], max, chain + 1, writes);
      if writes > 0 { WalkRewrites(registry, entityType, recs[1..], max, 0, writes - 1); }
      var out := Walked(registry, entityType, recs, max, chain, writes).out;
      forall i | 0 <= i < |recs| ensures Rewritten(registry, entityType, recs[i], out[i]) {
        if i > 0 { assert recs[i] == recs[1..][i - 1] && out[i] == out[1..][i - 1]; }
      }
    }
  }

  /** Walking over the result again rewrites nothing, however many writes would be allowed. */
  lemma {:induction false} WalkTwice(
    registry: Registry, entityType: string, recs: seq<Record>, max: nat, chain: nat, writes: nat, again: nat)
    requires forall n :: n in registry ==> Registered(registry[n])
    requires Walked(registry, entityType, recs, max, chain, writes).error.None?
    ensures var out := Walked(registry, entityType, recs, max, chain, writes).out;
            Walked(registry, entityType, out, max, chain, again) == Run(out, 0, None)
    decreases |recs|
  {
    if recs != [] {
      var r := recs[0];
      if r.strategy.Full? {
        WalkTwice(registry, entityType, recs[1..], max, 0, writes, again);
      } else if chain + 1 < max {
        WalkTwice(registry, entityType, recs[1..], max, chain + 1, writes, again);
      } else {
        WalkTwice(registry, entityType, recs[1..], max, 0, writes - 1, again);
      }
      var out := Walked(registry, entityType, recs, max, chain, writes).out;
      assert out[1..] == Walked(registry, entityType, recs[1..], max,
        if r.strategy.Full? || chain + 1 >= max then 0 else chain + 1,
        if r.strategy.Full? || chain + 1 < max then writes else writes - 1).out;
    }
  }

  /** No snapshot among these records. */
  ghost predicate DeltaRun(recs: seq<Record>, i: nat, j: nat)
    requires i <= j <= |recs|
  {
    forall k :: i <= k < j ==> !recs[k].strategy.Full?
  }

  /** After a walk that was not stopped, every run of deltas is shorter than the bound. */
  lemma {:induction false} WalkBoundsRuns(
    registry: Registry, entityType: string, recs: seq<Record>, max: nat, chain: nat, writes: nat, i: nat, j: nat)
    requires forall n :: n in registry ==> Registered(registry[n])
    requires chain < max && i <= j <= |recs|
    requires Walked(registry, entityType, recs, max, chain, writes).error.None?
    requires DeltaRun(Walked(registry, entityType, recs, max, chain, writes).out, i, j)
    ensures j - i + (if i == 0 then chain else 0) < max
    decreases |recs|
  {
    var out := Walked(registry, entityType, recs, max, chain, writes).out;
    if i < j {
      var r := recs[0];
      var chain' := if r.strategy.Full? || chain + 1 >= max then 0 else chain + 1;
      var writes' := if r.strategy.Full? || chain + 1 < max then writes else writes - 1;
      assert out[1..] == Walked(registry, entityType, recs[1..], max, chain', writes').out;
      var i' := if i == 0 then 0 else i - 1;
      forall k | i' <= k < j - 1 ensures !out[1..][k].strategy.Full? { assert out[1..][k] == out[k + 1]; }
      assert i == 0 ==> !out[0].strategy.Full?;
      WalkBoundsRuns(registry, entityType, recs[1..], max, chain', writes', i', j - 1);
    }
  }

  /** Over the runs of deltas of the original records, the sum of their lengths each divided
      by the bound and rounded down; `run` deltas of the first run lie before `recs`. */
  function RunQuotas(recs: seq<Record>, max: nat, run: nat): nat
    requires max >= 1
  {
    if recs == [] then run / max
    else if recs[0].strategy.Full? then run / max + RunQuotas(recs[1..], max, 0)
    else RunQuotas(recs[1..], max, run + 1)
  }

  /** A walk that was not stopped reports exactly that many snapshots. */
  lemma {:induction false} WalkCounts(
    registry: Registry, entityType: string, recs: seq<Record>, max: nat, chain: nat, writes: nat, run: nat)
    requires forall n :: n in registry ==> Registered(registry[n])
    requires max >= 1 && chain == run % max
    requires Walked(registry, entityType, recs, max, chain, writes).error.None?
    ensures run / max + Walked(registry, entityType, recs, max, chain, writes).count == RunQuotas(recs, max, run)
    decreases |recs|
  {
    if recs != [] {
      if recs[0].strategy.Full? {
        Remainder(0, 0, 0, max);
        WalkCounts(registry, entityType, recs[1..], max, 0, writes, 0);
      } else {
        NextQuota(run, max);
        if chain + 1 < max {
          WalkCounts(registry, entityType, recs[1..], max, chain + 1, writes, run + 1);
        } else {
          WalkCounts(registry, entityType, recs[1..], max, 0, writes - 1, run + 1);
        }
      }
    }
  }

  lemma NextQuota(run: nat, max: nat)
    requires max >= 1
    ensures run % max + 1 < max ==> (run + 1) % max == run % max + 1 && (run + 1) / max == run / max
    ensures run % max + 1 >= max ==> (run + 1) % max == 0 && (run + 1) / max == run / max + 1
  {
    var q, c := run / max, run % max;
    assert run + 1 == q * max + (c + 1);
    if c + 1 < max {
      Remainder(run + 1, q, c + 1, max);
    } else {
      assert run + 1 == (q + 1) * max;
      Remainder(run + 1, q + 1, 0, max);
    }
  }

  /** When the listed records start with a snapshot and are no more than the bound, nothing
      is rewritten; the default bound is the default page size. */
  lemma {:induction false} ShortPageUntouched(
    registry: Registry, entityType: string, recs: seq<Record>, max: nat, chain: nat, writes: nat)
    requires forall n :: n in registry ==> Registered(registry[n])
    requires chain + |recs| < max || (recs != [] && recs[0].strategy.Full? && |recs| <= max)
    ensures Walked(registry, entityType, recs, max, chain, writes) == Run(recs, 0, None)
    decreases |recs|
  {
    if recs != [] {
      ShortPageUntouched(registry, entityType, recs[1..], max, if recs[0].strategy.Full? then 0 else chain + 1, writes);
      assert [recs[0]] + recs[1..] == recs;
    }
  }

  /** With both defaults, compaction never rewrites a record of a history that starts with
      a snapshot, however long its runs of deltas. */
  lemma DefaultsNeverCompact(
    registry: Registry, entityType: string, h: seq<Record>, h': seq<Record>, writes: nat, count: nat,
      error: Option<CompactError>)
    requires forall n :: n in registry ==> Registered(registry[n])
    requires Increasing(h) && (h != [] ==> h[0].strategy.Full?)
    requires Compacted(registry, entityType, h, h', ChainBound(0), DEFAULT_LIMIT, writes, count, error)
    ensures h' == h && count == 0 && error.None?
  {
    IncreasingPage(h, DEFAULT_LIMIT);
    var page := Page(ByVersion(h, true), DEFAULT_LIMIT, 0);
    var n := |page|;
    assert n <= 50 && page == h[..n];
    assert page != [] ==> page[0].strategy.Full?;
    ShortPageUntouched(registry, entityType, page, 50, 0, writes);
    SameHalves(h, h', n);
  }

  lemma SameHalves(h: seq<Record>, h': seq<Record>, n: nat)
    requires n <= |h| == |h'| && h[..n] == h'[..n] && h[n..] == h'[n..]
    ensures h == h'
  {
    assert h' == h'[..n] + h'[n..] && h == h[..n] + h[n..];
  }

  // ----- Meaning is kept -----

  /** `h'` is `h` with some deltas turned into snapshots. */
  ghost predicate SomeSnapshots(h: seq<Record>, h': seq<Record>) {
    |h'| == |h| &&
    forall i :: 0 <= i < |h| ==>
      h'[i] == h[i] ||
      (h'[i].version == h[i].version && h'[i].data == h[i].data && h'[i].strategy.Full?)
  }

  lemma CompactedSnapshots(
    registry: Registry, entityType: string, h: seq<Record>, h': seq<Record>, max: nat, limit: nat, writes: nat,
    count: nat, error: Option<CompactError>)
    requires forall n :: n in registry ==> Registered(registry[n])
    requires Increasing(h) && Compacted(registry, entityType, h, h', max, limit, writes, count, error)
    ensures SomeSnapshots(h, h')
  {
    IncreasingPage(h, limit);
    var page := Page(ByVersion(h, true), limit, 0);
    WalkRewrites(registry, entityType, page, max, 0, writes);
    forall i | 0 <= i < |h|
      ensures h'[i] == h[i] || (h'[i].version == h[i].version && h'[i].data == h[i].data && h'[i].strategy.Full?)
    {
      if i < |page| {
        assert h'[i] == h'[..|page|][i] && Rewritten(registry, entityType, page[i], h'[..|page|][i]);
      } else {
        assert h'[i] == h'[|page|..][i - |page|] && h[i] == h[|page|..][i - |page|];
      }
    }
  }

  lemma SnapshotsFaithful(t: Ty, h: seq<Record>, h': seq<Record>)
    requires Faithful(t, h) && SomeSnapshots(h, h')
    ensures Faithful(t, h')
    ensures AllAllocated(h) ==> AllAllocated(h')
  {
    forall i | 0 <= i < |h'| ensures HasType(h'[i].data, t) &&
      !h'[i].strategy.Hybrid? { assert h'[i].data == h[i].data; }
    forall i | 1 <= i < |h'| && !h'[i].strategy.Full? ensures Linked(t, h'[i - 1], h'[i]) {
      assert h'[i] == h[i] && Linked(t, h[i - 1], h[i]) && h'[i - 1].data == h[i - 1].data;
    }
    if AllAllocated(h) {
      forall i | 0 <= i < |h'| ensures Allocated(h'[i].data) { assert h'[i].data == h[i].data; }
    }
  }

  lemma SnapshotsValidated(t: Ty, h: seq<Record>, h': seq<Record>)
    requires AllValidated(t, h) && SomeSnapshots(h, h')
    ensures AllValidated(t, h')
  {
    forall i | 1 <= i < |h'| && !h'[i].strategy.Full? ensures Validated(t, h'[i - 1], h'[i]) {
      assert h'[i] == h[i] && Validated(t, h[i - 1], h[i]) && h'[i - 1].data == h[i - 1].data;
    }
  }

  /** A chain that conveys still does when some of its deltas become snapshots. */
  lemma {:induction false} SnapshotsConvey(t: Ty, h: seq<Record>, h': seq<Record>, v: nat)
    requires SomeSnapshots(h, h') && 1 <= v <= |h| && ChainConveys(t, h, v)
    ensures ChainConveys(t, h', v)
    decreases v
  {
    assert h'[v - 1].data == h[v - 1].data;
    if !h'[v - 1].strategy.Full? {
      assert h'[v - 1] == h[v - 1] && h'[v - 2].data == h[v - 2].data;
      SnapshotsConvey(t, h, h', v - 1);
    }
  }

  /** Turning deltas into snapshots: a version can be rebuilt afterwards exactly when its
      state is carried to it from the snapshot that is nearest then, by the old records, and
      all is right exactly when, besides, the records since that snapshot convey. */
  lemma SnapshotsCarry(t: Ty, h: seq<Record>, h': seq<Record>, v: nat)
    requires Faithful(t, h) && SomeSnapshots(h, h') && 1 <= v <= |h|
    ensures (forall i :: 0 <= i < |h| ==> HasType(h[i].data, t)) && Nearest(h', v) >= 1
    ensures ChainConveys(t, h', v) ==> RebuildsTo(t, h', v, Carried(t, h, Nearest(h', v), v))
    ensures ChainUndisturbed(t, h', v) ==>
              (AllRight(t, h', v) <==> ChainConveys(t, h', v) && Carried(t, h, Nearest(h', v), v).Some?)
  {
    FaithfulTyped(t, h);
    SnapshotsFaithful(t, h, h');
    FaithfulTyped(t, h');
    SameCarried(t, h, h', Nearest(h', v), v);
    if ChainConveys(t, h', v) { RebuildCarried(t, h', v); }
    if ChainUndisturbed(t, h', v) { RebuildRight(t, h', v); }
  }

  /** Records without a snapshot among them were not rewritten, and no data were. */
  lemma {:induction false} SameCarried(t: Ty, h: seq<Record>, h': seq<Record>, s: nat, v: nat)
    requires SomeSnapshots(h, h') && 1 <= s <= v <= |h| && forall i :: s <= i < v ==> !h'[i].strategy.Full?
    requires (forall i :: 0 <= i < |h| ==> HasType(h[i].data, t))
    requires (forall i :: 0 <= i < |h'| ==> HasType(h'[i].data, t))
    ensures Carried(t, h', s, v) == Carried(t, h, s, v)
    decreases v
  {
    assert h'[s - 1].data == h[s - 1].data;
    if s < v {
      SameCarried(t, h, h', s, v - 1);
      assert h'[v - 1] == h[v - 1];
    }
  }

  /** Compaction, finished or stopped by a failed write, keeps the run invariant and all
      data. What it leaves of a version is exact: before, its state is carried from the old
      nearest snapshot, afterwards from the new one, by the same records, as far as these
      convey. A version that can be rebuilt both times is rebuilt to states the engine cannot
      tell apart; without nil maps every version that could be rebuilt still can. */
  lemma CompactKeepsMeaning(
    registry: Registry, entityType: string, t: Ty, h: seq<Record>, h': seq<Record>, max: nat, limit: nat, writes: nat,
    count: nat, error: Option<CompactError>, v: nat)
    requires forall n :: n in registry ==> Registered(registry[n])
    requires Faithful(t, h) && Compacted(registry, entityType, h, h', max, limit, writes, count, error) && 1 <= v <= |h|
    ensures Faithful(t, h') && h'[v - 1].data == h[v - 1].data && (AllValidated(t, h) ==> AllValidated(t, h'))
    ensures (forall i :: 0 <= i < |h| ==> HasType(h[i].data, t)) && Nearest(h, v) >= 1 && Nearest(h', v) >= 1
    ensures ChainConveys(t, h, v) ==> RebuildsTo(t, h, v, Carried(t, h, Nearest(h, v), v)) && ChainConveys(t, h', v)
    ensures ChainConveys(t, h', v) ==> RebuildsTo(t, h', v, Carried(t, h, Nearest(h', v), v))
    ensures ChainUndisturbed(t, h', v) ==>
              (AllRight(t, h', v) <==> ChainConveys(t, h', v) && Carried(t, h, Nearest(h', v), v).Some?)
    ensures ChainConveys(t, h, v) && Rebuild(t, h[..v]).Ok? && Rebuild(t, h'[..v]).Ok? ==>
              Same(t, false, Rebuild(t, h[..v]).value, Rebuild(t, h'[..v]).value)
    ensures ChainConveys(t, h, v) && AllAllocated(h) && Rebuild(t, h[..v]).Ok? ==> Rebuild(t, h'[..v]).Ok?
  {
    GaplessPage(h, limit);
    CompactedSnapshots(registry, entityType, h, h', max, limit, writes, count, error);
    SnapshotsFaithful(t, h, h');
    if AllValidated(t, h) { SnapshotsValidated(t, h, h'); }
    SnapshotsCarry(t, h, h', v);
    FaithfulTyped(t, h);
    if ChainConveys(t, h, v) {
      SnapshotsConvey(t, h, h', v);
      RebuildCarried(t, h, v);
      BothSame(t, h, h', v);
      if AllAllocated(h) && Rebuild(t, h[..v]).Ok? { StillFits(t, h, h', v); }
    }
  }

  lemma BothSame(t: Ty, h: seq<Record>, h': seq<Record>, v: nat)
    requires Faithful(t, h) && Faithful(t, h') && 1 <= v <= |h| == |h'| && h'[v - 1].data == h[v - 1].data
    requires ChainConveys(t, h, v) && ChainConveys(t, h', v)
    ensures Rebuild(t, h[..v]).Ok? && Rebuild(t, h'[..v]).Ok? ==>
              Same(t, false, Rebuild(t, h[..v]).value, Rebuild(t, h'[..v]).value)
  {
    RebuildSound(t, h, v);
    RebuildSound(t, h', v);
    if Rebuild(t, h[..v]).Ok? && Rebuild(t, h'[..v]).Ok? {
      var x, y, d := Rebuild(t, h[..v]).value, Rebuild(t, h'[..v]).value, h[v - 1].data;
      SameAlike(t, y, d, y);
      Equivalence.SameReflexive(t, false, y);
      SameAlike(t, x, d, y);
    }
  }

  lemma StillFits(t: Ty, h: seq<Record>, h': seq<Record>, v: nat)
    requires Faithful(t, h) && SomeSnapshots(h, h') && 1 <= v <= |h| && ChainConveys(t, h, v)
    requires AllAllocated(h) && Rebuild(t, h[..v]).Ok?
    ensures Rebuild(t, h'[..v]).Ok?
  {
    SnapshotsFaithful(t, h, h');
    SnapshotsConvey(t, h, h', v);
    RebuildAllocated(t, h, v);
    SnapshotsFit(t, h, h', v);
    RebuildAllocated(t, h', v);
  }

  /** A chain of deltas that fits still fits when some of them become snapshots. */
  lemma {:induction false} SnapshotsFit(t: Ty, h: seq<Record>, h': seq<Record>, v: nat)
    requires SomeSnapshots(h, h') && 1 <= v <= |h| && ChainFits(t, h, v)
    ensures ChainFits(t, h', v)
    decreases v
  {
    if !h'[v - 1].strategy.Full? {
      assert h'[v - 1] == h[v - 1] && h'[v - 2].data == h[v - 2].data;
      SnapshotsFit(t, h, h', v - 1);
    }
  }

  // ----- A finished compaction -----

  /** A second compaction that is not refused a write leaves the history as it is. */
  lemma CompactTwice(
    registry: Registry, entityType: string, h: seq<Record>, h1: seq<Record>, h2: seq<Record>, max: nat, limit: nat,
    writes: nat, count: nat, again: nat, count2: nat, error2: Option<CompactError>)
    requires forall n :: n in registry ==> Registered(registry[n])
    requires Increasing(h) && Compacted(registry, entityType, h, h1, max, limit, writes, count, None)
    requires Compacted(registry, entityType, h1, h2, max, limit, again, count2, error2)
    ensures h2 == h1 && count2 == 0 && error2.None?
  {
    CompactedPages(registry, entityType, h, h1, max, limit, writes, count);
    var n := |Page(ByVersion(h, true), limit, 0)|;
    IncreasingPage(h1, limit);
    WalkTwice(registry, entityType, Page(ByVersion(h, true), limit, 0), max, 0, writes, again);
    SameHalves(h1, h2, n);
  }

  /** What a finished compaction leaves on the page listed. */
  lemma CompactedPages(
    registry: Registry, entityType: string, h: seq<Record>, h': seq<Record>, max: nat, limit: nat, writes: nat,
      count: nat)
    requires forall n :: n in registry ==> Registered(registry[n])
    requires Increasing(h) && Compacted(registry, entityType, h, h', max, limit, writes, count, None)
    ensures Increasing(h') && |h'| == |h|
    ensures var n := |Page(ByVersion(h, true), limit, 0)|;
            n == (if 0 < limit < |h| then limit else |h|) && Page(ByVersion(h', true), limit, 0) == h'[..n]
    ensures h'[..|Page(ByVersion(h, true), limit, 0)|] ==
            Walked(registry, entityType, Page(ByVersion(h, true), limit, 0), max, 0, writes).out
  {
    CompactedSnapshots(registry, entityType, h, h', max, limit, writes, count, None);
    IncreasingPage(h, limit);
    assert forall i :: 0 <= i < |h| ==> h'[i].version == h[i].version;
    IncreasingPage(h', limit);
  }

  /** After a finished compaction fewer than the bound deltas follow one another on the page,
      and the count reported is the sum of the quotas of the runs there were. */
  lemma CompactedRuns(
    registry: Registry, entityType: string, h: seq<Record>, h': seq<Record>, max: nat, limit: nat, writes: nat,
      count: nat,
    i: nat, j: nat)
    requires max >= 1 && forall n :: n in registry ==> Registered(registry[n])
    requires Increasing(h) && Compacted(registry, entityType, h, h', max, limit, writes, count, None)
    requires i <= j <= |Page(ByVersion(h, true), limit, 0)| <= |h'| && forall k :: i <= k < j ==> !h'[k].strategy.Full?
    ensures j - i < max
    ensures count == RunQuotas(Page(ByVersion(h, true), limit, 0), max, 0)
  {
    var page := Page(ByVersion(h, true), limit, 0);
    CompactedPages(registry, entityType, h, h', max, limit, writes, count);
    assert forall k :: i <= k < j ==> h'[..|page|][k] == h'[k];
    WalkBoundsRuns(registry, entityType, page, max, 0, writes, i, j);
    Remainder(0, 0, 0, max);
    WalkCounts(registry, entityType, page, max, 0, writes, 0);
  }

  lemma {:induction false} CostWithinRun(h: seq<Record>, v: nat)
    requires v <= |h|
    ensures DeltaCost(h, v) <= v - Nearest(h, v)
    decreases v
  {
    if v > 0 { CostWithinRun(h, v - 1); }
  }

  /** After a finished compaction, Reconstruct applies fewer deltas than the bound to answer
      any version on the page, whatever the page of the reader. */
  lemma CompactedCost(
    registry: Registry, entityType: string, h: seq<Record>, h': seq<Record>, max: nat, limit: nat, writes: nat,
      count: nat,
    v: nat, shown: nat)
    requires max >= 1 && forall n :: n in registry ==> Registered(registry[n])
    requires Gapless(h) && Compacted(registry, entityType, h, h', max, limit, writes, count, None)
    requires 1 <= v <= |Page(ByVersion(h, true), limit, 0)|
    ensures AnswerCost(registry, h', entityType, v, shown) < max
  {
    GaplessPage(h, limit);
    CompactedSnapshots(registry, entityType, h, h', max, limit, writes, count, None);
    assert Gapless(h') by { assert forall i :: 0 <= i < |h| ==> h'[i].version == h[i].version; }
    var k := Shown(v, shown);
    AnswerCosts(registry, h', entityType, v, shown);
    CostWithinRun(h', k);
    CompactedRuns(registry, entityType, h, h', max, limit, writes, count, Nearest(h', k), k);
  }
}
