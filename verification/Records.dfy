/** Version records and the store that keeps them, deltas included. */
module Records {
  import opened Prelude
  import opened Entities
  import opened DiffEngine

  datatype Strategy = Full | DeltaOnly | Hybrid

  datatype Record = Record(
    id: string,
    entityType: string,
    entityID: string,
    version: int,
    strategy: Strategy,
    data: Value,
    delta: Option<Delta>,
    hash: string,
    previousHash: string)

  // ----- Queries on the records of one entity -----

  function FirstWith(h: seq<Record>, version: int): (r: Option<Record>)
    ensures r.Some? <==> exists i :: 0 <= i < |h| && h[i].version == version
    ensures r.Some? ==> r.value in h && r.value.version == version
  {
    if h == [] then None
    else if h[0].version == version then Some(h[0])
    else
      var rest := FirstWith(h[1..], version);
      assert forall i :: 1 <= i < |h| ==> h[i] == h[1..][i - 1];
      rest
  }

  /** The record of the highest version. */
  ghost predicate IsLatest(h: seq<Record>, r: Record) {
    r in h && forall i :: 0 <= i < |h| ==> h[i].version <= r.version
  }

  /** The record a scan for the highest version ends with. */
  function LatestOf(h: seq<Record>): (r: Option<Record>)
    ensures r.None? <==> h == []
    ensures r.Some? ==> IsLatest(h, r.value)
    decreases |h|
  {
    if h == [] then None
    else
      var best := LatestOf(h[..|h| - 1]);
      var last := h[|h| - 1];
      assert forall i :: 0 <= i < |h| - 1 ==> h[i] == h[..|h| - 1][i];
      if best.Some? && last.version <= best.value.version then best else Some(last)
  }

  /** `h` with the first record of the same version replaced, if there is one. */
  function Replaced(h: seq<Record>, r: Record): (h': seq<Record>)
    ensures |h'| == |h|
    ensures FirstWith(h, r.version).None? ==> h' == h
  {
    if h == [] then []
    else if h[0].version == r.version then [r] + h[1..]
    else [h[0]] + Replaced(h[1..], r)
  }

  /** The first record of a version is the one found and the one replaced. */
  lemma {:induction false} FirstAt(h: seq<Record>, r: Record, i: nat)
    requires i < |h| && h[i].version == r.version && forall j :: 0 <= j < i ==> h[j].version != r.version
    ensures FirstWith(h, r.version) == Some(h[i]) && Replaced(h, r) == h[i := r]
    decreases i
  {
    if i > 0 {
      FirstAt(h[1..], r, i - 1);
      assert h[i := r] == [h[0]] + h[1..][i - 1 := r];
    }
  }

  /** Of the records of the highest version the first is the latest. */
  lemma {:induction false} LatestExact(h: seq<Record>, i: nat)
    requires i < |h|
    requires forall k :: 0 <= k < i ==> h[k].version < h[i].version
    requires forall k :: i < k < |h| ==> h[k].version <= h[i].version
    ensures LatestOf(h) == Some(h[i])
    decreases |h|
  {
    if i < |h| - 1 { LatestExact(h[..|h| - 1], i); }
  }

  predicate InOrder(asc: bool, a: Record, b: Record) {
    if asc then a.version <= b.version else b.version <= a.version
  }

  function Place(x: Record, h: seq<Record>, asc: bool): (p: seq<Record>)
    ensures |p| == |h| + 1
  {
    if h == [] || InOrder(asc, x, h[0]) then [x] + h else [h[0]] + Place(x, h[1..], asc)
  }

  /** The records by version; Go's sort gives this one since versions do not repeat. */
  function ByVersion(h: seq<Record>, asc: bool): (s: seq<Record>)
    ensures |s| == |h|
  {
    if h == [] then [] else Place(h[0], ByVersion(h[1..], asc), asc)
  }

  ghost predicate Ordered(h: seq<Record>, asc: bool) {
    forall i, j :: 0 <= i < j < |h| ==> InOrder(asc, h[i], h[j])
  }

  lemma {:induction false} PlaceAdds(x: Record, h: seq<Record>, asc: bool)
    ensures multiset(Place(x, h, asc)) == multiset{x} + multiset(h)
  {
    if h != [] && !InOrder(asc, x, h[0]) {
      PlaceAdds(x, h[1..], asc);
      assert h == [h[0]] + h[1..];
    }
  }

  lemma {:induction false} PlaceKeeps(x: Record, h: seq<Record>, asc: bool)
    requires Ordered(h, asc)
    ensures Ordered(Place(x, h, asc), asc)
  {
    if h != [] && !InOrder(asc, x, h[0]) {
      PlaceKeeps(x, h[1..], asc);
      PlaceAdds(x, h[1..], asc);
      var p := Place(x, h[1..], asc);
      forall j | 0 <= j < |p| ensures InOrder(asc, h[0], p[j]) {
        assert p[j] in multiset(p);
        if p[j] != x { assert p[j] in h[1..]; }
      }
    }
  }

  lemma {:induction false} ByVersionSorts(h: seq<Record>, asc: bool)
    ensures Ordered(ByVersion(h, asc), asc)
    ensures multiset(ByVersion(h, asc)) == multiset(h)
  {
    if h != [] {
      ByVersionSorts(h[1..], asc);
      PlaceKeeps(h[0], ByVersion(h[1..], asc), asc);
      PlaceAdds(h[0], ByVersion(h[1..], asc), asc);
      assert h == [h[0]] + h[1..];
    }
  }

  lemma {:induction false} OrderedStays(h: seq<Record>, asc: bool)
    requires Ordered(h, asc)
    ensures ByVersion(h, asc) == h
  {
    if h != [] {
      OrderedStays(h[1..], asc);
      assert h == [h[0]] + h[1..];
      assert |h| > 1 ==> InOrder(asc, h[0], h[1]);
    }
  }

  lemma {:induction false} PlaceSwapped(x: Record, h: seq<Record>, j: nat, r: Record, asc: bool) returns (k: nat)
    requires j < |h| && h[j].version == r.version
    ensures k <= |h| && Place(x, h, asc)[k] == h[j] && Place(x, h[j := r], asc) == Place(x, h, asc)[k := r]
    decreases j
  {
    if InOrder(asc, x, h[0]) {
      k := j + 1;
      assert [x] + h[j := r] == ([x] + h)[k := r];
    } else if j == 0 {
      k := 0;
      assert h[0 := r][1..] == h[1..];
    } else {
      k := PlaceSwapped(x, h[1..], j - 1, r, asc);
      assert h[j := r][1..] == h[1..][j - 1 := r];
      k := k + 1;
    }
  }

  lemma {:induction false} PlacedSwapped(x: Record, r: Record, h: seq<Record>, asc: bool) returns (k: nat)
    requires x.version == r.version
    ensures k <= |h| && Place(x, h, asc)[k] == x && Place(r, h, asc) == Place(x, h, asc)[k := r]
  {
    k := 0;
    if h != [] && !InOrder(asc, x, h[0]) {
      k := PlacedSwapped(x, r, h[1..], asc);
      k := k + 1;
    }
  }

  /** A record replaced by one of the same version changes in its place in the listing. */
  lemma {:induction false} ByVersionSwapped(h: seq<Record>, i: nat, r: Record, asc: bool) returns (k: nat)
    requires i < |h| && h[i].version == r.version
    ensures k < |h| && ByVersion(h, asc)[k] == h[i] && ByVersion(h[i := r], asc) == ByVersion(h, asc)[k := r]
    decreases i
  {
    if i == 0 {
      assert h[0 := r][1..] == h[1..];
      k := PlacedSwapped(h[0], r, ByVersion(h[1..], asc), asc);
    } else {
      assert h[i := r][1..] == h[1..][i - 1 := r];
      var j := ByVersionSwapped(h[1..], i - 1, r, asc);
      k := PlaceSwapped(h[0], ByVersion(h[1..], asc), j, r, asc);
    }
  }

  /** At most `limit` records after the first `offset`; limit 0 means no limit. */
  function Page(h: seq<Record>, limit: nat, offset: nat): (p: seq<Record>)
    ensures |p| <= |h|
  {
    if offset >= |h| then []
    else if 0 < limit < |h| - offset then h[offset..offset + limit]
    else h[offset..]
  }

  /** A page holds the records from its offset on, as many as there are up to the limit, and
      the next one goes on where it ends. */
  lemma PageExact(h: seq<Record>, limit: nat, offset: nat)
    ensures var p := Page(h, limit, offset);
            && |p| == (var rest := if offset < |h| then |h| - offset else 0;
                       if limit == 0 || rest < limit then rest else limit)
            && forall k :: 0 <= k < |p| ==> p[k] == h[offset + k]
    ensures limit > 0 ==> Page(h, limit, offset) + Page(h, 0, offset + limit) == Page(h, 0, offset)
  {
  }

  const DEFAULT_LIMIT := 50

  lemma LatestNext(h: seq<Record>, i: nat, best: Record)
    requires i < |h| && LatestOf(h[..i]) == Some(best)
    ensures LatestOf(h[..i + 1]) == Some(if h[i].version > best.version then h[i] else best)
  {
    assert h[..i + 1][..i] == h[..i];
  }

  // ----- The store -----

  type Table = map<string, seq<Record>>

  function Key(entityType: string, entityID: string): string {
    entityType + ":" + entityID
  }

  /** The records under a key; none if the key is absent. */
  function History(table: Table, key: string): seq<Record> {
    if key in table then table[key] else []
  }

  /** Nothing changed but the records under `key`. */
  ghost predicate OnlyAt(before: Table, after: Table, key: string) {
    forall k :: k != key ==> History(before, k) == History(after, k)
  }

  class Store {
    var records: Table

    constructor ()
      ensures records == map[]
    {
      records := map[];
    }

    method Save(r: Record)
      modifies this
      ensures records == old(records)[Key(r.entityType, r.entityID) := History(old(records),
              Key(r.entityType, r.entityID)) + [r]]
    {
      var k := Key(r.entityType, r.entityID);
      records := records[k := History(records, k) + [r]];
    }

    method Update(r: Record) returns (found: bool)
      modifies this
      ensures var k := Key(r.entityType, r.entityID);
              && (found <==> FirstWith(History(old(records), k), r.version).Some?)
              && records == if found then old(records)[k := Replaced(History(old(records), k), r)] else old(records)
    {
      var k := Key(r.entityType, r.entityID);
      var h := History(records, k);
      for i := 0 to |h|
        invariant records == old(records)
        invariant forall j :: 0 <= j < i ==> h[j].version != r.version
      {
        if h[i].version == r.version {
          FirstAt(h, r, i);
          records := records[k := h[i := r]];
          return true;
        }
      }
      found := false;
    }

    method GetByVersion(entityType: string, entityID: string, version: int) returns (r: Option<Record>)
      ensures r == FirstWith(History(records, Key(entityType, entityID)), version)
    {
      var h := History(records, Key(entityType, entityID));
      for i := 0 to |h|
        invariant forall j :: 0 <= j < i ==> h[j].version != version
      {
        if h[i].version == version {
          FirstAt(h, h[i], i);
          return Some(h[i]);
        }
      }
      r := None;
    }

    method GetLatest(entityType: string, entityID: string) returns (r: Option<Record>)
      ensures r == LatestOf(History(records, Key(entityType, entityID)))
    {
      var h := History(records, Key(entityType, entityID));
      if h == [] { return None; }
      var best := h[0];
      assert h[..1] == [h[0]];
      for i := 1 to |h|
        invariant LatestOf(h[..i]) == Some(best)
      {
        LatestNext(h, i, best);
        if h[i].version > best.version { best := h[i]; }
      }
      assert h[..|h|] == h;
      r := Some(best);
    }

    method ListVersions(entityType: string, entityID: string, asc: bool, limit: nat, offset: nat)
      returns (page: seq<Record>)
      ensures page == Page(ByVersion(History(records, Key(entityType, entityID)), asc), limit, offset)
    {
      var sorted := ByVersion(History(records, Key(entityType, entityID)), asc);
      if offset >= |sorted| { return []; }
      page := sorted[offset..];
      if limit > 0 && limit < |page| { page := page[..limit]; }
    }
  }

  // ----- Histories without gaps -----

  /** Versions 1, 2, 3, and so on, in the order they were saved. */
  ghost predicate Gapless(h: seq<Record>) {
    forall i :: 0 <= i < |h| ==> h[i].version == i + 1
  }

  lemma {:induction false} GaplessFirst(h: seq<Record>, base: int, v: int)
    requires forall i :: 0 <= i < |h| ==> h[i].version == base + i
    ensures FirstWith(h, v) == if base <= v < base + |h| then Some(h[v - base]) else None
    decreases |h|
  {
    if h != [] {
      assert forall i :: 0 <= i < |h| - 1 ==> h[1..][i] == h[i + 1];
      GaplessFirst(h[1..], base + 1, v);
    }
  }

  /** The record of a version is found at its place. */
  lemma GaplessFind(h: seq<Record>, v: int)
    requires Gapless(h)
    ensures FirstWith(h, v) == if 1 <= v <= |h| then Some(h[v - 1]) else None
  {
    GaplessFirst(h, 1, v);
  }

  /** The latest record is the last one, and there is no other. */
  lemma GaplessLatest(h: seq<Record>)
    requires Gapless(h)
    ensures LatestOf(h) == if h == [] then None else Some(h[|h| - 1])
  {
    if h != [] {
      var r := LatestOf(h).value;
      var i: nat :| i < |h| && h[i] == r;
      assert h[|h| - 1].version <= r.version;
    }
  }

  /** Versions grow along the history; there may be gaps. */
  ghost predicate Increasing(h: seq<Record>) {
    forall i, j :: 0 <= i < j < |h| ==> h[i].version < h[j].version
  }

  /** A listing shows the leading records. */
  lemma IncreasingPage(h: seq<Record>, limit: nat)
    requires Increasing(h)
    ensures Page(ByVersion(h, true), limit, 0) == if 0 < limit < |h| then h[..limit] else h
  {
    OrderedStays(h, true);
  }

  lemma GaplessPage(h: seq<Record>, limit: nat)
    requires Gapless(h)
    ensures Increasing(h)
    ensures Page(ByVersion(h, true), limit, 0) == if 0 < limit < |h| then h[..limit] else h
  {
    IncreasingPage(h, limit);
  }
}
