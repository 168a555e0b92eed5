/** Which records a compaction rewrites, what it writes in their place, and where it stops:
    all of it told from the records as they were. */
module Rewrites {
  import opened Prelude
  import opened Entities
  import opened Records
  import opened Reconstruction
  import opened Compaction
  import Histories

  /** How many deltas in a row end with record `i`. */
  function InARow(recs: seq<Record>, i: nat): nat
    requires i < |recs|
    decreases i
  {
    if recs[i].strategy == Full then 0 else 1 + (if i == 0 then 0 else InARow(recs, i - 1))
  }

  /** A delta that completes a chain: the `max`th in a row, the one `max` later, and so on. */
  predicate Due(recs: seq<Record>, max: nat, i: nat)
    requires max >= 1 && i < |recs|
  {
    recs[i].strategy != Full && InARow(recs, i) % max == 0
  }

  /** The number of those among the first `n` records. */
  function DueBefore(recs: seq<Record>, max: nat, n: nat): nat
    requires max >= 1 && n <= |recs|
    decreases n
  {
    if n == 0 then 0 else DueBefore(recs, max, n - 1) + (if Due(recs, max, n - 1) then 1 else 0)
  }

  /** Why record `i`, if it is due, is not rewritten, and the walk stops there. */
  function Obstacle(registry: Registry, entityType: string, recs: seq<Record>, max: nat, writes: nat, i: nat)
    : Option<CompactError>
    requires max >= 1 && i < |recs|
  {
    if !Due(recs, max, i) then None
    else if entityType !in registry then Some(TypeUnknown)
    else if !HasType(recs[i].data, registry[entityType].ty) then Some(DataUnreadable)
    else if DueBefore(recs, max, i) >= writes then Some(WriteFailed)
    else None
  }

  /** What is written in the place of a record: a snapshot of the same data under the same
      number, for the identifier in the data, without delta, hash and previous hash. */
  ghost predicate Replaces(registry: Registry, entityType: string, r: Record, r': Record) {
    && entityType in registry && Registered(registry[entityType]) && HasType(r.data, registry[entityType].ty)
    && r.data.Rec? && registry[entityType].idField < |r.data.fs| && r.data.fs[registry[entityType].idField].Atom?
    && var id := r.data.fs[registry[entityType].idField].text;
       r' == Record(r.id, entityType, id, r.version, Full, r.data, None, "", "")
  }

  /** The walk stops at record `stop`, if there is one; from record `n` on, this is what it leaves. */
  ghost predicate Leaves(registry: Registry, entityType: string, recs: seq<Record>, max: nat, writes: nat, n: nat,
      stop: nat, run: Run)
    requires max >= 1
  {
    && n <= stop <= |recs| && |run.out| == |recs| - n
    && (forall i :: n <= i < stop ==> Obstacle(registry, entityType, recs, max, writes, i) == None)
    && (forall i :: n <= i < stop ==>
          if Due(recs, max, i) then Replaces(registry, entityType, recs[i], run.out[i - n])
          else run.out[i - n] == recs[i])
    && (forall i :: stop <= i < |recs| ==> run.out[i - n] == recs[i])
    && DueBefore(recs, max, n) + run.count == DueBefore(recs, max, stop)
    && run.error == (if stop == |recs| then None else Obstacle(registry, entityType, recs, max, writes, stop))
    && (stop < |recs| ==> run.error != None)
  }

  /** The deltas in a row before record `n`, of which the walk has seen the remainder. */
  function SeenBefore(recs: seq<Record>, n: nat): nat
    requires n <= |recs|
  {
    if n == 0 then 0 else InARow(recs, n - 1)
  }

  lemma KeepsOne(registry: Registry, entityType: string, recs: seq<Record>, max: nat, writes: nat, n: nat, stop: nat,
      rest: Run)
    requires max >= 1 && n < |recs| && !Due(recs, max, n)
    requires Leaves(registry, entityType, recs, max, writes, n + 1, stop, rest)
    ensures Leaves(registry, entityType, recs, max, writes, n, stop, Kept(recs[n], rest))
  {
    var run := Kept(recs[n], rest);
    assert forall k :: 1 <= k < |run.out| ==> run.out[k] == rest.out[k - 1];
  }

  lemma RewritesOne(registry: Registry, entityType: string, recs: seq<Record>, max: nat, writes: nat, n: nat,
      stop: nat, rest: Run, r: Record)
    requires max >= 1 && n < |recs| && Due(recs, max, n) && Replaces(registry, entityType, recs[n], r)
    requires Obstacle(registry, entityType, recs, max, writes, n) == None
    requires Leaves(registry, entityType, recs, max, writes, n + 1, stop, rest)
    ensures Leaves(registry, entityType, recs, max, writes, n, stop, Run([r] + rest.out, 1 + rest.count, rest.error))
  {
    var run := Run([r] + rest.out, 1 + rest.count, rest.error);
    assert forall k :: 1 <= k < |run.out| ==> run.out[k] == rest.out[k - 1];
  }

  lemma StopsHere(registry: Registry, entityType: string, recs: seq<Record>, max: nat, writes: nat, n: nat)
    requires max >= 1 && n < |recs| && Obstacle(registry, entityType, recs, max, writes, n).Some?
    ensures Leaves(registry, entityType, recs, max, writes, n, n,
                   Run(recs[n..], 0, Obstacle(registry, entityType, recs, max, writes, n)))
  {
  }

  /** One more record of the walk. */
  lemma WalkStep(registry: Registry, entityType: string, recs: seq<Record>, max: nat, writes: nat, n: nat, chain: nat,
      left: nat)
    requires forall r :: r in registry ==> Registered(registry[r])
    requires max >= 1 && n < |recs| && chain == SeenBefore(recs, n) % max
    requires left == writes - DueBefore(recs, max, n)
    ensures var run := Walked(registry, entityType, recs[n..], max, chain, left);
            var obstacle := Obstacle(registry, entityType, recs, max, writes, n);
            if !Due(recs, max, n) then
              var rest := Walked(registry, entityType, recs[n + 1..], max, SeenBefore(recs, n + 1) % max, left);
              run == Kept(recs[n], rest)
            else if obstacle.Some? then run == Run(recs[n..], 0, obstacle)
            else
              && SeenBefore(recs, n + 1) % max == 0 && left > 0 && entityType in registry
              && HasType(recs[n].data, registry[entityType].ty)
              && var rest := Walked(registry, entityType, recs[n + 1..], max, 0, left - 1);
                 var r := Snapshot(entityType, IdOf(registry[entityType], recs[n].data), recs[n]);
                 run == Run([r] + rest.out, 1 + rest.count, rest.error)
  {
    assert recs[n..][0] == recs[n] && recs[n..][1..] == recs[n + 1..];
    NextInARow(recs, max, n, chain);
  }

  lemma SnapshotReplaces(registry: Registry, entityType: string, r: Record)
    requires entityType in registry && Registered(registry[entityType]) && HasType(r.data, registry[entityType].ty)
    ensures Replaces(registry, entityType, r, Snapshot(entityType, IdOf(registry[entityType], r.data), r))
  {
  }

  lemma {:induction false} WalkFrom(registry: Registry, entityType: string, recs: seq<Record>, max: nat, writes: nat,
      n: nat, chain: nat, left: nat) returns (stop: nat)
    requires forall r :: r in registry ==> Registered(registry[r])
    requires max >= 1 && n <= |recs| && chain == SeenBefore(recs, n) % max
    requires left == writes - DueBefore(recs, max, n)
    ensures Leaves(registry, entityType, recs, max, writes, n, stop,
                   Walked(registry, entityType, recs[n..], max, chain, left))
    decreases |recs| - n
  {
    if n == |recs| {
      stop := n;
    } else {
      WalkStep(registry, entityType, recs, max, writes, n, chain, left);
      if !Due(recs, max, n) {
        var next := SeenBefore(recs, n + 1) % max;
        stop := WalkFrom(registry, entityType, recs, max, writes, n + 1, next, left);
        KeepsOne(registry, entityType, recs, max, writes, n, stop,
                 Walked(registry, entityType, recs[n + 1..], max, next, left));
      } else if Obstacle(registry, entityType, recs, max, writes, n).Some? {
        stop := n;
        StopsHere(registry, entityType, recs, max, writes, n);
      } else {
        stop := WalkFrom(registry, entityType, recs, max, writes, n + 1, 0, left - 1);
        SnapshotReplaces(registry, entityType, recs[n]);
        RewritesOne(registry, entityType, recs, max, writes, n, stop,
                    Walked(registry, entityType, recs[n + 1..], max, 0, left - 1),
                    Snapshot(entityType, IdOf(registry[entityType], recs[n].data), recs[n]));
      }
    }
  }

  lemma NextInARow(recs: seq<Record>, max: nat, n: nat, chain: nat)
    requires max >= 1 && n < |recs| && chain == SeenBefore(recs, n) % max
    ensures recs[n].strategy == Full ==> SeenBefore(recs, n + 1) % max == 0
    ensures recs[n].strategy != Full ==>
              SeenBefore(recs, n + 1) % max == if chain + 1 < max then chain + 1 else 0
    ensures Due(recs, max, n) <==> recs[n].strategy != Full && chain + 1 >= max
  {
    NextQuota(SeenBefore(recs, n), max);
    Histories.Remainder(0, 0, 0, max);
  }

  /** A compaction of a history in version order rewrites exactly the deltas that complete a
      chain, on the page it lists and up to the first that it cannot; it reports their number
      and what stopped it. Everything else stays as it was. */
  lemma CompactedExactly(
    registry: Registry, entityType: string, h: seq<Record>, h': seq<Record>, max: nat, limit: nat, writes: nat,
    count: nat, error: Option<CompactError>) returns (stop: nat)
    requires max >= 1 && forall r :: r in registry ==> Registered(registry[r])
    requires Increasing(h) && Compacted(registry, entityType, h, h', max, limit, writes, count, error)
    ensures |h'| == |h| && stop <= (if 0 < limit < |h| then limit else |h|)
    ensures forall i :: 0 <= i < |h| ==>
              if i < stop && Due(h, max, i) then Replaces(registry, entityType, h[i], h'[i]) else h'[i] == h[i]
    ensures count == DueBefore(h, max, stop)
    ensures error == None <==> stop == if 0 < limit < |h| then limit else |h|
    ensures error != None ==> error == Obstacle(registry, entityType, h, max, writes, stop)
    ensures forall i :: 0 <= i < stop ==> Obstacle(registry, entityType, h, max, writes, i) == None
  {
    IncreasingPage(h, limit);
    var page := Page(ByVersion(h, true), limit, 0);
    Histories.Remainder(0, 0, 0, max);
    assert page[0..] == page && page == h[..|page|];
    stop := WalkFrom(registry, entityType, page, max, writes, 0, 0, writes);
    FromPage(registry, entityType, h, h', |page|, max, writes, stop, Run(h'[..|page|], count, error));
  }

  /** What the walk leaves of the first `m` records, in terms of all of them. */
  lemma FromPage(registry: Registry, entityType: string, h: seq<Record>, h': seq<Record>, m: nat, max: nat,
      writes: nat, stop: nat, run: Run)
    requires max >= 1 && m <= |h| == |h'| && h'[m..] == h[m..] && run.out == h'[..m]
    requires Leaves(registry, entityType, h[..m], max, writes, 0, stop, run)
    ensures forall i :: 0 <= i < |h| ==>
              if i < stop && Due(h, max, i) then Replaces(registry, entityType, h[i], h'[i]) else h'[i] == h[i]
    ensures stop <= m && run.count == DueBefore(h, max, stop)
    ensures run.error == None <==> stop == m
    ensures run.error != None ==> run.error == Obstacle(registry, entityType, h, max, writes, stop)
    ensures forall i :: 0 <= i < stop ==> Obstacle(registry, entityType, h, max, writes, i) == None
  {
    DueOnPage(h, m, max, stop);
    forall i | 0 <= i < |h|
      ensures i < m ==> Obstacle(registry, entityType, h, max, writes, i) ==
                        Obstacle(registry, entityType, h[..m], max, writes, i)
      ensures if i < stop && Due(h, max, i) then Replaces(registry, entityType, h[i], h'[i]) else h'[i] == h[i]
    {
      if i < m { SameOnPage(registry, entityType, h, m, max, writes, i); }
      SplitAt(h, h', m, i);
    }
  }

  lemma SameOnPage(registry: Registry, entityType: string, h: seq<Record>, m: nat, max: nat, writes: nat, i: nat)
    requires max >= 1 && i < m <= |h|
    ensures Due(h, max, i) <==> Due(h[..m], max, i)
    ensures Obstacle(registry, entityType, h, max, writes, i) == Obstacle(registry, entityType, h[..m], max, writes, i)
  {
    InARowOnPage(h, m, i);
    DueOnPage(h, m, max, i);
  }

  lemma SplitAt(h: seq<Record>, h': seq<Record>, m: nat, i: nat)
    requires m <= |h| == |h'| && h'[m..] == h[m..] && i < |h|
    ensures i < m ==> h'[..m][i] == h'[i] && h[..m][i] == h[i]
    ensures i >= m ==> h'[i] == h[i]
  {
    if i >= m { assert h'[m..][i - m] == h'[i] && h[m..][i - m] == h[i]; }
  }

  lemma {:induction false} InARowOnPage(h: seq<Record>, m: nat, i: nat)
    requires i < m <= |h|
    ensures InARow(h, i) == InARow(h[..m], i)
    decreases i
  {
    if i > 0 { InARowOnPage(h, m, i - 1); }
  }

  lemma {:induction false} DueOnPage(h: seq<Record>, m: nat, max: nat, n: nat)
    requires max >= 1 && n <= m <= |h|
    ensures DueBefore(h, max, n) == DueBefore(h[..m], max, n)
    decreases n
  {
    if n > 0 {
      DueOnPage(h, m, max, n - 1);
      InARowOnPage(h, m, n - 1);
    }
  }

  // ----- On any store -----

  /** Rewriting one delta that is due, whatever the store holds: the snapshot goes to the entity
      that the identifier in the data names, in the place of the first record of the number
      there; if there is none, or the store refuses it, the walk stops and writes nothing. */
  lemma RewritingOne(table: Table, registry: Registry, entityType: string, recs: seq<Record>, max: nat, chain: nat,
      writes: nat, id: string, i: nat)
    requires forall r :: r in registry ==> Registered(registry[r])
    requires recs != [] && recs[0].strategy != Full && chain + 1 >= max && entityType in registry
    requires HasType(recs[0].data, registry[entityType].ty) && IdOf(registry[entityType], recs[0].data) == id
    ensures var h := History(table, entityType + ":" + id);
            var walk := StoreWalk(table, registry, entityType, recs, max, chain, writes);
            var r := recs[0];
            && (writes == 0 || (forall k :: 0 <= k < |h| ==> h[k].version != r.version) ==>
                  walk == StoreRun(table, 0, Some(WriteFailed)))
            && (writes > 0 && i < |h| && h[i].version == r.version
                && (forall k :: 0 <= k < i ==> h[k].version != r.version) ==>
                  var s := Record(r.id, entityType, id, r.version, Full, r.data, None, "", "");
                  var next := table[entityType + ":" + id := h[i := s]];
                  var rest := StoreWalk(next, registry, entityType, recs[1..], max, 0, writes - 1);
                  walk == StoreRun(rest.table, 1 + rest.count, rest.error))
  {
    var h, s := History(table, entityType + ":" + id), Snapshot(entityType, id, recs[0]);
    if i < |h| && h[i].version == s.version && forall k :: 0 <= k < i ==> h[k].version != s.version {
      FirstAt(h, s, i);
    }
  }
}
