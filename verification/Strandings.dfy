/** Histories that lose a version, or answer a wrong one: what nil maps, compaction, deltas that
    were not validated and the page limit can do. All of them are of documents. */
module Strandings {
  import opened Prelude
  import opened Entities
  import opened Changes
  import opened Merge
  import opened DiffEngine
  import opened Exactness
  import opened Records
  import opened Reconstruction
  import opened Histories
  import opened Compaction
  import opened Documents
  import HashChain
  import Json
  import Losses
  import Runs
  import RoundTrip
  import P = Protocol
  import A = Auditor
  import Equivalence

  // ----- Building histories -----

  /** A record of the document "e". */
  function Bare(version: int, strategy: Strategy, data: Value, delta: Option<Delta>): Record {
    Record("", "Doc", "e", version, strategy, data, delta, "", "")
  }

  /** A history, so far right at every version, whose last entity JSON gives back as it was. */
  ghost predicate Story(t: Ty, h: seq<Record>) {
    && Faithful(t, h) && h != [] && HasType(h[|h| - 1].data, t) && Printable(h[|h| - 1].data)
    && ChainConveys(t, h, |h|)
  }

  lemma HeldWhole(t: Ty, r: Record)
    requires HasType(r.data, t) && Printable(r.data)
    ensures Held(t, r) == r.data && Preserved(t, r)
  {
    DecodedPrintable(r.data);
    Equivalence.SameReflexive(t, false, r.data);
  }

  lemma {:induction false} ChainGrows(t: Ty, h: seq<Record>, r: Record, v: nat)
    requires 1 <= v <= |h| && ChainConveys(t, h, v)
    ensures ChainConveys(t, h + [r], v)
    decreases v
  {
    if !h[v - 1].strategy.Full? { ChainGrows(t, h, r, v - 1); }
  }

  /** A first snapshot. */
  lemma Begin(t: Ty, x: Value) returns (h: seq<Record>)
    requires t.Struct? && HasType(x, t) && Printable(x)
    ensures h == [Bare(1, Full, x, None)] && Story(t, h) && AllValidated(t, h) && Rebuild(t, h[..1]) == Ok(x)
  {
    var r := Bare(1, Full, x, None);
    h := [r];
    FaithfulExtends(t, [], r);
    HeldWhole(t, r);
    assert [] + [r] == h && h[..1] == h;
  }

  /** One more version that is linked to the last one and locates its changes. */
  lemma Extended(t: Ty, h: seq<Record>, r: Record)
    requires Story(t, h) && r.version == |h| + 1 && r.strategy.DeltaOnly? && HasType(r.data, t) && Printable(r.data)
    requires Linked(t, h[|h| - 1], r) && Locates(t, h[|h| - 1], r)
    ensures Story(t, h + [r]) && (h + [r])[..|h|] == h[..|h|]
  {
    FaithfulExtends(t, h, r);
    ChainExtends(t, h, r);
  }

  lemma ChainExtends(t: Ty, h: seq<Record>, r: Record)
    requires h != [] && ChainConveys(t, h, |h|) && HasType(r.data, t) && Printable(r.data) && Locates(t, h[|h| - 1], r)
    ensures ChainConveys(t, h + [r], |h + [r]|)
  {
    var g := h + [r];
    HeldWhole(t, r);
    ChainGrows(t, h, r, |h|);
    assert g[|h|] == r && g[|h| - 1] == h[|h| - 1];
  }

  /** One more version without a delta, since the engine sees no change. */
  lemma Unchanged(t: Ty, h: seq<Record>, y: Value) returns (h': seq<Record>)
    requires Story(t, h) && AllValidated(t, h) && HasType(y, t) && Printable(y) && Same(t, false, h[|h| - 1].data, y)
    ensures h' == h + [Bare(|h| + 1, DeltaOnly, y, None)] && Story(t, h') && AllValidated(t, h')
    ensures Rebuild(t, h'[..|h'|]) == Rebuild(t, h[..|h|])
  {
    var r := Bare(|h| + 1, DeltaOnly, y, None);
    HeldWhole(t, h[|h| - 1]);
    Extended(t, h, r);
    ValidatedExtends(t, h, r);
    h' := h + [r];
    RebuildLast(t, h', |h'|);
  }

  /** One more version with the delta from the data before it. */
  lemma Changed(t: Ty, h: seq<Record>, z: Value) returns (h': seq<Record>)
    requires Story(t, h) && HasType(z, t) && Printable(z)
    requires var y := h[|h| - 1].data; Supported(t, y, z) && !Same(t, false, y, z) && Conveyed(t, y, z)
    ensures h' == h + [Bare(|h| + 1, DeltaOnly, z, Some(DeltaOf(t, h[|h| - 1].data, z)))] && Story(t, h')
    ensures var y := h[|h| - 1].data;
            AllValidated(t, h) && Replayable(t, y, z) && MergeIn(t, false, y, z) == z ==> AllValidated(t, h')
    ensures Rebuild(t, h'[..|h'|]).Ok? <==> Rebuild(t, h[..|h|]).Ok? && Replayable(t, Rebuild(t, h[..|h|]).value, z)
  {
    var y := h[|h| - 1].data;
    var r := Bare(|h| + 1, DeltaOnly, z, Some(DeltaOf(t, y, z)));
    ChangedLinks(t, h[|h| - 1], r);
    Extended(t, h, r);
    h' := h + [r];
    if AllValidated(t, h) && Replayable(t, y, z) && MergeIn(t, false, y, z) == z { ValidatedExtends(t, h, r); }
    RebuildProgress(t, h', |h'|);
  }

  lemma ChangedLinks(t: Ty, prev: Record, r: Record)
    requires t.Struct? && HasType(prev.data, t) && Printable(prev.data) && HasType(r.data, t)
    requires Supported(t, prev.data, r.data) && !Same(t, false, prev.data, r.data) && Conveyed(t, prev.data, r.data)
    requires r.delta == Some(DeltaOf(t, prev.data, r.data))
    ensures Linked(t, prev, r) && Locates(t, prev, r)
    ensures Replayable(t, prev.data, r.data) && MergeIn(t, false, prev.data, r.data) == r.data ==> Validated(t, prev, r)
  {
    HeldWhole(t, prev);
    RoundTrip.EmptyDelta(t, prev.data, r.data);
    RoundTrip.ExactMerge(t, prev.data, r.data);
  }

  // ----- Nil maps -----

  /** Two entities the engine cannot tell apart. */
  ghost predicate Indistinct(t: Ty, x: Value, y: Value) {
    && t.Struct? && HasType(x, t) && HasType(y, t) && Printable(x) && Printable(y)
    && Same(t, false, x, y) && Same(t, false, y, x) && Same(t, false, y, y)
  }

  /** A change whose delta is conveyed and passes validation. */
  ghost predicate Clear(t: Ty, y: Value, z: Value) {
    && t.Struct? && HasType(y, t) && HasType(z, t) && Printable(z) && Supported(t, y, z) && Conveyed(t, y, z)
    && !Same(t, false, y, z) && Replayable(t, y, z) && MergeIn(t, false, y, z) == z
  }

  /** What a nil map can spoil: `x` and `y` are equivalent, and the changes from `y` to `z`
      cannot be replayed on `x`. */
  ghost predicate Stranding(t: Ty, x: Value, y: Value, z: Value) {
    Indistinct(t, x, y) && Clear(t, y, z) && !Replayable(t, x, z)
  }

  /** A nil map, an empty one, and one with a key: the first two look the same to the
      engine, but only the second can take the key. */
  lemma NilMapStrands(t: Ty) returns (x: Value, y: Value, z: Value)
    requires t == Document()
    ensures Stranding(t, x, y, z) && x == Doc(NilMap) && y == Doc(Dict(map[])) && z == Doc(Single("k", Atom(1, "u")))
  {
    var empty: Value, full := Dict(map[]), Single("k", Atom(1, "u"));
    SingleTyped("k", Atom(1, "u"));
    assert "k" in Entries(full).Keys && KeyReplayable(true, empty, full, "k") &&
      !KeyReplayable(false, NilMap, full, "k");
    x, y, z := Doc(NilMap), Doc(empty), Doc(full);
    DocIndistinct(t, NilMap, empty);
    DocClear(t, empty, full);
    DocTyped(t, NilMap);
    DocTyped(t, full);
    DocMerge(t, NilMap, full);
  }

  lemma DocIndistinct(t: Ty, x: Value, y: Value)
    requires t == Document() && HasType(x, Map) && HasType(y, Map) && Entries(x) == Entries(y)
    ensures Indistinct(t, Doc(x), Doc(y))
  {
    DocTyped(t, x);
    DocTyped(t, y);
    DocSame(t, x, y);
    DocSame(t, y, x);
    DocSame(t, y, y);
  }

  lemma DocClear(t: Ty, y: Value, z: Value)
    requires t == Document() && HasType(y, Map) && HasType(z, Map) && Undotted(y) && Undotted(z)
    requires Entries(y) != Entries(z)
    requires MapReplayable(y.Dict?, y, z) && MergeIn(Map, false, y, z) == z
    ensures Clear(t, Doc(y), Doc(z))
  {
    DocTyped(t, y);
    DocTyped(t, z);
    DocSame(t, y, z);
    DocConveys(t, y, z);
    DocMerge(t, y, z);
  }

  /** A version equivalent to the one before gets no delta; if the changes after it cannot
      be replayed on the version before, the next version is lost, validated or not. */
  lemma StuckAfterNoChange(t: Ty, x: Value, y: Value, z: Value) returns (h: seq<Record>)
    requires Stranding(t, x, y, z)
    ensures Faithful(t, h) && AllValidated(t, h) && |h| == 3 && ChainConveys(t, h, 3)
    ensures Rebuild(t, h[..2]) == Ok(x) && Rebuild(t, h[..3]).Err?
  {
    h := Begin(t, x);
    h := Unchanged(t, h, y);
    ghost var two := h;
    h := Changed(t, h, z);
    assert h[..2] == two[..2];
  }

  /** The map is nil, then empty (the engine sees no change), then gains a key (the delta is
      validated against the empty map): replaying from the snapshot writes into a nil map. */
  lemma NilMapIsStuck(t: Ty) returns (h: seq<Record>)
    requires t == Document()
    ensures Faithful(t, h) && AllValidated(t, h) && |h| == 3 && ChainConveys(t, h, 3)
    ensures Rebuild(t, h[..2]).Ok? && Rebuild(t, h[..3]).Err?
  {
    var x, y, z := NilMapStrands(t);
    h := StuckAfterNoChange(t, x, y, z);
  }

  // ----- Compaction -----

  /** The registry that knows documents and their identifier. */
  function Library(): Registry {
    map["Doc" := EntityConfig(Document(), 0)]
  }

  /** A snapshot and five deltas. */
  ghost predicate FiveDeltas(h: seq<Record>) {
    |h| == 6 && h[0].strategy.Full? && forall i :: 1 <= i < 6 ==> !h[i].strategy.Full?
  }

  /** With bound 3 the fourth record is rewritten, and no other. */
  lemma WalkOfSix(registry: Registry, h: seq<Record>, writes: nat)
    requires forall n :: n in registry ==> Registered(registry[n])
    requires FiveDeltas(h) && "Doc" in registry && HasType(h[3].data, registry["Doc"].ty) && writes >= 1
    ensures Walked(registry, "Doc", h, 3, 0, writes) ==
            Run(h[3 := Snapshot("Doc", IdOf(registry["Doc"], h[3].data), h[3])], 1, None)
  {
    var s := Snapshot("Doc", IdOf(registry["Doc"], h[3].data), h[3]);
    var a, b := h[4..], h[1..];
    assert Walked(registry, "Doc", a, 3, 0, writes - 1) == Run(a, 0, None) by {
      ShortRun(registry, a, writes - 1);
    }
    assert h[3..][0] == h[3] && h[3..][1..] == a;
    assert Walked(registry, "Doc", h[3..], 3, 2, writes) == Run([s] + a, 1, None);
    assert h[2..][0] == h[2] && h[2..][1..] == h[3..];
    assert Walked(registry, "Doc", h[2..], 3, 1, writes) == Run([h[2]] + ([s] + a), 1, None);
    assert b[0] == h[1] && b[1..] == h[2..];
    assert Walked(registry, "Doc", b, 3, 0, writes) == Run([h[1]] + ([h[2]] + ([s] + a)), 1, None);
    assert h[3 := s] == [h[0]] + ([h[1]] + ([h[2]] + ([s] + a)));
  }

  lemma ShortRun(registry: Registry, a: seq<Record>, writes: nat)
    requires forall n :: n in registry ==> Registered(registry[n])
    requires |a| == 2 && !a[0].strategy.Full? && !a[1].strategy.Full?
    ensures Walked(registry, "Doc", a, 3, 0, writes) == Run(a, 0, None)
  {
    ShortPageUntouched(registry, "Doc", a, 3, 0, writes);
  }

  /** Compaction can cost a version: the record it rewrites holds a nil map, the ones after
      it were replayed on an empty map from the snapshot before. */
  lemma CompactionCanStrand(t: Ty, limit: nat, writes: nat) returns (h: seq<Record>, h': seq<Record>)
    requires t == Document() && (limit == 0 || limit >= 6) && writes >= 1
    ensures (forall n :: n in Library() ==> Registered(Library()[n])) && Library()["Doc"].ty == t
    ensures Faithful(t, h) && AllValidated(t, h) && |h| == 6 && ChainConveys(t, h, 6)
    ensures Compacted(Library(), "Doc", h, h', 3, limit, writes, 1, None)
    ensures Rebuild(t, h[..6]).Ok? && Rebuild(t, h'[..6]).Err?
  {
    var x, y, z := NilMapStrands(t);
    h := BackAndForth(t, x, y, z);
    h' := h[3 := Snapshot("Doc", "e", h[3])];
    CompactsSix(t, h, h', limit, writes);
    Stranded(t, h, h', x, z);
  }

  lemma CompactsSix(t: Ty, h: seq<Record>, h': seq<Record>, limit: nat, writes: nat)
    requires t == Document() && (limit == 0 || limit >= 6) && writes >= 1
    requires Gapless(h) && FiveDeltas(h) && h[3].data == Doc(NilMap) && h' == h[3 := Snapshot("Doc", "e", h[3])]
    ensures (forall n :: n in Library() ==> Registered(Library()[n])) && Library()["Doc"].ty == t
    ensures Compacted(Library(), "Doc", h, h', 3, limit, writes, 1, None)
    ensures SomeSnapshots(h, h') && h'[3].strategy.Full? && !h'[4].strategy.Full? && !h'[5].strategy.Full?
  {
    DocTyped(t, NilMap);
    assert IdOf(Library()["Doc"], h[3].data) == "e";
    WalkOfSix(Library(), h, writes);
    GaplessPage(h, limit);
    assert h[..6] == h && h'[..6] == h';
  }

  /** Three times `y`, its equivalent `x`, `y` again, and `z`. */
  lemma BackAndForth(t: Ty, x: Value, y: Value, z: Value) returns (h: seq<Record>)
    requires Stranding(t, x, y, z)
    ensures Faithful(t, h) && AllValidated(t, h) && FiveDeltas(h) && ChainConveys(t, h, 6) && Rebuild(t, h[..6]).Ok?
    ensures h[3] == Bare(4, DeltaOnly, x, None) && h[4] == Bare(5, DeltaOnly, y, None)
    ensures h[5] == Bare(6, DeltaOnly, z, Some(DeltaOf(t, y, z)))
  {
    h := ThreeTimes(t, y);
    h := ThereAndBack(t, h, x, y);
    h := ChangedAtLast(t, h, y, z);
  }

  lemma ChangedAtLast(t: Ty, h: seq<Record>, y: Value, z: Value) returns (h': seq<Record>)
    requires Story(t, h) && AllValidated(t, h) && Clear(t, y, z)
    requires h[|h| - 1].data == y && Rebuild(t, h[..|h|]) == Ok(y)
    ensures h' == h + [Bare(|h| + 1, DeltaOnly, z, Some(DeltaOf(t, y, z)))]
    ensures Faithful(t, h') && AllValidated(t, h') && ChainConveys(t, h', |h'|) && Rebuild(t, h'[..|h'|]).Ok?
  {
    h' := Changed(t, h, z);
  }

  lemma ThereAndBack(t: Ty, h: seq<Record>, x: Value, y: Value) returns (h': seq<Record>)
    requires Story(t, h) && AllValidated(t, h) && Indistinct(t, x, y) && h[|h| - 1].data == y
    ensures h' == h + [Bare(|h| + 1, DeltaOnly, x, None)] + [Bare(|h| + 2, DeltaOnly, y, None)]
    ensures Story(t, h') && AllValidated(t, h') && Rebuild(t, h'[..|h'|]) == Rebuild(t, h[..|h|])
  {
    h' := Unchanged(t, h, x);
    h' := Unchanged(t, h', y);
  }

  lemma ThreeTimes(t: Ty, y: Value) returns (h: seq<Record>)
    requires t.Struct? && HasType(y, t) && Printable(y) && Same(t, false, y, y)
    ensures h == [Bare(1, Full, y, None), Bare(2, DeltaOnly, y, None), Bare(3, DeltaOnly, y, None)]
    ensures Story(t, h) && AllValidated(t, h) && Rebuild(t, h[..3]) == Ok(y)
  {
    h := Begin(t, y);
    h := Unchanged(t, h, y);
    h := Unchanged(t, h, y);
  }

  lemma Stranded(t: Ty, h: seq<Record>, h': seq<Record>, x: Value, z: Value)
    requires Faithful(t, h) && |h| == 6 && SomeSnapshots(h, h') && ChainConveys(t, h, 6)
    requires h'[3].strategy.Full? && !h'[4].strategy.Full? && !h'[5].strategy.Full?
    requires h[3].data == x && h[5].data == z && h[4].delta.None? && h[5].delta.Some?
    requires HasType(x, t) && Printable(x) && HasType(z, t) && !Replayable(t, x, z)
    ensures Rebuild(t, h'[..6]).Err?
  {
    FromFourth(t, h, h');
    HeldWhole(t, h[3]);
    NotCarried(t, h);
  }

  lemma FromFourth(t: Ty, h: seq<Record>, h': seq<Record>)
    requires Faithful(t, h) && |h| == 6 && SomeSnapshots(h, h') && ChainConveys(t, h, 6)
    requires h'[3].strategy.Full? && !h'[4].strategy.Full? && !h'[5].strategy.Full?
    ensures (forall i :: 0 <= i < |h| ==> HasType(h[i].data, t)) && RebuildsTo(t, h', 6, Carried(t, h, 4, 6))
  {
    SnapshotsCarry(t, h, h', 6);
    SnapshotsConvey(t, h, h', 6);
    assert Nearest(h', 6) == 4;
  }

  lemma NotCarried(t: Ty, h: seq<Record>)
    requires |h| == 6 && forall i :: 0 <= i < |h| ==> HasType(h[i].data, t)
    requires h[4].delta.None? && h[5].delta.Some? && !Replayable(t, Held(t, h[3]), h[5].data)
    ensures Carried(t, h, 4, 6) == None
  {
    assert Carried(t, h, 4, 4) == Some(Held(t, h[3]));
    assert Carried(t, h, 4, 5) == Some(Held(t, h[3]));
  }

  // ----- Past the page -----

  /** A page of one record, and a history of two: version 2 is answered with version 1. */
  lemma AnswerPastPage(t: Ty) returns (h: seq<Record>)
    requires t == Document()
    ensures Library()["Doc"].ty == t && Faithful(t, h) && AllValidated(t, h) && |h| == 2 && Right(t, h, 2)
    ensures Answer(Library(), h, "Doc", 2, 1) == Ok(h[0].data) && !Same(t, false, h[0].data, h[1].data)
  {
    var x, y, z := NilMapStrands(t);
    h := ChangedOnce(t, y, z);
    AnswerFromPage(Library(), h, "Doc", 2, 1);
  }

  lemma ChangedOnce(t: Ty, y: Value, z: Value) returns (h: seq<Record>)
    requires Clear(t, y, z) && Printable(y)
    ensures Faithful(t, h) && AllValidated(t, h) && |h| == 2 && Right(t, h, 2) && !h[1].strategy.Full?
    ensures h[0].data == y && h[1].data == z && Rebuild(t, h[..1]) == Ok(y)
  {
    var one := Begin(t, y);
    h := Changed(t, one, z);
    assert h[..1] == one[..1];
    RebuildSound(t, h, 2);
  }

  // ----- Deltas that were not validated -----

  /** A change that cannot be replayed on the very data its delta was computed from. */
  ghost predicate Unreplayable(t: Ty, x: Value, y: Value) {
    && t.Struct? && HasType(x, t) && HasType(y, t) && Printable(x) && Printable(y) && Allocated(x) && Allocated(y)
    && Supported(t, x, y) && Conveyed(t, x, y) && !Same(t, false, x, y) && !Replayable(t, x, y)
  }

  /** A map entry whose value changes its type is one. */
  lemma TypeChange(t: Ty) returns (x: Value, y: Value)
    requires t == Document()
    ensures Unreplayable(t, x, y) && x == Doc(Single("k", Atom(1, "u"))) && y == Doc(Single("k", Atom(2, "w")))
  {
    var m, n := Single("k", Atom(1, "u")), Single("k", Atom(2, "w"));
    KindChange(m, n);
    x, y := Doc(m), Doc(n);
    DocTyped(t, m);
    DocTyped(t, n);
    DocSame(t, m, n);
    DocConveys(t, m, n);
    DocMerge(t, m, n);
  }

  lemma KindChange(m: Value, n: Value)
    requires m == Single("k", Atom(1, "u")) && n == Single("k", Atom(2, "w"))
    ensures HasType(m, Map) && HasType(n, Map) && Undotted(m) && Undotted(n)
    ensures Entries(m) != Entries(n) && !MapReplayable(m.Dict?, m, n)
  {
    SingleTyped("k", Atom(1, "u"));
    SingleTyped("k", Atom(2, "w"));
    assert "k" in Entries(n).Keys && Entries(m)["k"] == Atom(1, "u") && Entries(n)["k"] == Atom(2, "w");
    assert !KeyReplayable(true, m, n, "k");
  }

  /** Stored without validation, its delta loses the version. */
  lemma UnvalidatedStrands(t: Ty, x: Value, y: Value) returns (h: seq<Record>)
    requires Unreplayable(t, x, y)
    ensures Faithful(t, h) && AllAllocated(h) && |h| == 2 && ChainConveys(t, h, 2) && !ChainFits(t, h, 2)
    ensures Rebuild(t, h[..1]).Ok? && Rebuild(t, h[..2]).Err?
  {
    var one := Begin(t, x);
    h := Changed(t, one, y);
    assert h[..1] == one[..1] && h[..2] == h;
    HeldWhole(t, h[0]);
    assert !DeltaFits(t, h[0], h[1]);
  }

  lemma TypeChangeStrands(t: Ty) returns (h: seq<Record>)
    requires t == Document()
    ensures Faithful(t, h) && AllAllocated(h) && |h| == 2 && ChainConveys(t, h, 2) && !ChainFits(t, h, 2)
    ensures Rebuild(t, h[..1]).Ok? && Rebuild(t, h[..2]).Err?
  {
    var x, y := TypeChange(t);
    h := UnvalidatedStrands(t, x, y);
  }

  // ----- Two calls in transactions -----

  /** Two entities the engine can tell apart. */
  ghost predicate Told(t: Ty, x: Value, y: Value) {
    t.Struct? && HasType(x, t) && HasType(y, t) && Supported(t, x, y) && !Same(t, false, x, y)
  }

  /** Two such entities one after the other, for settings that then
      ask for a delta, which is not validated. */
  ghost predicate Unchecked(s: P.Settings, j: P.Job, k: P.Job) {
    && P.Acceptable(s, j) && P.Acceptable(s, k) && P.KeyOf(j) == P.KeyOf(k) && k.inTx && Printable(j.entity)
    && Told(s.types[j.entityType], j.entity, k.entity)
    && P.SelectStrategy(s.default, s.interval, 2, k.override).DeltaOnly?
  }

  /** One call with nothing in between, without the hash step. */
  function Call(n: nat, j: P.Job): seq<P.Event> {
    [P.Spawn(j), P.ReadNumber(n), P.ReadPrevious(n, "", true, true), P.ComputeHash(n, P.HashOff), P.Save(n, true)]
  }

  /** The record of such a call. */
  ghost function Saved(s: P.Settings, hash: HashChain.Hasher, h: seq<Record>, j: P.Job): Record
    requires P.Acceptable(s, j)
  {
    A.Versioned(s, hash, h, j, "", true, true, P.HashOff)
  }

  /** A snapshot, and a delta from it. */
  ghost predicate FullThenDelta(t: Ty, h: seq<Record>, x: Value, y: Value) {
    && |h| == 2 && h[0].strategy.Full? && h[0].data == x && !h[1].strategy.Full? && h[1].data == y
    && t.Struct? && HasType(x, t) && HasType(y, t) && h[1].delta == Some(DeltaOf(t, x, y)) && h[1].delta.value != []
  }

  lemma FirstCall(s: P.Settings, hash: HashChain.Hasher, j: P.Job)
    requires P.Acceptable(s, j)
    ensures var r := Saved(s, hash, [], j); r.version == 1 && r.strategy.Full? && r.data == j.entity
  {
  }

  lemma SecondCall(s: P.Settings, hash: HashChain.Hasher, j: P.Job, k: P.Job)
    requires Unchecked(s, j, k)
    ensures var first := Saved(s, hash, [], j);
            FullThenDelta(s.types[j.entityType], [first, Saved(s, hash, [first], k)], j.entity, k.entity)
  {
    var t, first := s.types[j.entityType], Saved(s, hash, [], j);
    FirstCall(s, hash, j);
    assert LatestOf([first]) == Some(first) by { assert [first][..0] == []; }
    HeldWhole(t, first);
    RoundTrip.EmptyDelta(t, j.entity, k.entity);
  }

  lemma OneCall(s: P.Settings, hash: HashChain.Hasher, w: P.World, j: P.Job)
    requires P.Acceptable(s, j)
    ensures var w', h := P.Run(s, hash, w, Call(|w.workers|, j)), P.Stored(w.store, P.KeyOf(j));
            |w'.workers| == |w.workers| + 1 && w'.store == w.store[P.KeyOf(j) := h + [Saved(s, hash, h, j)]]
  {
    A.AloneIsARun(s, hash, w, j, "", true, true, P.HashOff);
  }

  lemma BothCalls(s: P.Settings, hash: HashChain.Hasher, j: P.Job, k: P.Job)
    requires Unchecked(s, j, k)
    ensures var w := P.Run(s, hash, P.Run(s, hash, P.EMPTY, Call(0, j)), Call(1, k));
            FullThenDelta(s.types[j.entityType], P.Stored(w.store, P.KeyOf(j)), j.entity, k.entity)
  {
    OneCall(s, hash, P.EMPTY, j);
    var first := Saved(s, hash, [], j);
    assert [] + [first] == [first];
    OnTop(s, hash, P.Run(s, hash, P.EMPTY, Call(0, j)), j, k, first);
  }

  lemma OnTop(s: P.Settings, hash: HashChain.Hasher, w: P.World, j: P.Job, k: P.Job, first: Record)
    requires Unchecked(s, j, k) && |w.workers| == 1 && first == Saved(s, hash, [], j)
    requires P.Stored(w.store, P.KeyOf(k)) == [first]
    ensures var w' := P.Run(s, hash, w, Call(1, k));
            FullThenDelta(s.types[j.entityType], P.Stored(w'.store, P.KeyOf(j)), j.entity, k.entity)
  {
    OneCall(s, hash, w, k);
    assert [first] + [Saved(s, hash, [first], k)] == [first, Saved(s, hash, [first], k)];
    SecondCall(s, hash, j, k);
  }

  /** Version 2 of two such calls is what the delta makes of version 1, whatever that is. */
  lemma TwoCalls(s: P.Settings, hash: HashChain.Hasher, j: P.Job, k: P.Job)
    requires Unchecked(s, j, k)
    ensures var h, t := Runs.HistoryOf(s, hash, Call(0, j) + Call(1, k), P.KeyOf(j)), s.types[j.entityType];
            && FullThenDelta(t, h, j.entity, k.entity) && Rebuild(t, h[..1]) == Ok(j.entity)
            && Rebuild(t, h[..2]) == Patched(t, j.entity, Some(DeltaOf(t, j.entity, k.entity)))
  {
    Runs.RunBoth(s, hash, P.EMPTY, Call(0, j), Call(1, k));
    BothCalls(s, hash, j, k);
    var h, t := Runs.HistoryOf(s, hash, Call(0, j) + Call(1, k), P.KeyOf(j)), s.types[j.entityType];
    RebuildLast(t, h, 1);
    RebuildLast(t, h, 2);
    HeldWhole(t, h[0]);
  }

  /** If the second entity cannot be replayed on the first, version 2 is lost. */
  lemma TransactionStrands(s: P.Settings, hash: HashChain.Hasher, j: P.Job, k: P.Job)
    requires Unchecked(s, j, k) && Unreplayable(s.types[j.entityType], j.entity, k.entity)
    ensures var h, t := Runs.HistoryOf(s, hash, Call(0, j) + Call(1, k), P.KeyOf(j)), s.types[j.entityType];
            |h| == 2 && Rebuild(t, h[..1]).Ok? && Rebuild(t, h[..2]).Err?
  {
    TwoCalls(s, hash, j, k);
    RoundTrip.ExactMerge(s.types[j.entityType], j.entity, k.entity);
  }

  /** If the delta leads somewhere else, Reconstruct answers that, without an error. */
  lemma TransactionMisleads(s: P.Settings, hash: HashChain.Hasher, j: P.Job, k: P.Job, w: Value)
    requires Unchecked(s, j, k)
    requires Replayed(s.types[j.entityType], j.entity, DeltaOf(s.types[j.entityType], j.entity, k.entity)) == Ok(w)
    requires HasType(w, s.types[j.entityType]) && !Same(s.types[j.entityType], false, w, k.entity)
    ensures var h, t := Runs.HistoryOf(s, hash, Call(0, j) + Call(1, k), P.KeyOf(j)), s.types[j.entityType];
            |h| == 2 && Rebuild(t, h[..2]) == Ok(w) && h[1].data == k.entity && !Right(t, h, 2)
  {
    TwoCalls(s, hash, j, k);
  }

  /** Settings under which documents are stored as deltas, and transactions are allowed. */
  function Deltas(): P.Settings {
    P.Settings(map["Doc" := Document()], DeltaOnly, 10, true, false)
  }

  /** A versioning call for a document in a transaction. */
  function Versioning(m: Value): P.Job {
    P.Job("Doc", "e", Doc(m), None, true)
  }

  lemma DocsTold(t: Ty, x: Value, y: Value)
    requires t == Document() && HasType(x, Map) && HasType(y, Map) && Entries(x) != Entries(y)
    ensures Told(t, Doc(x), Doc(y)) && Printable(Doc(x))
  {
    DocTyped(t, x);
    DocTyped(t, y);
    DocSame(t, x, y);
  }

  lemma DocsUnchecked(s: P.Settings, t: Ty, x: Value, y: Value)
    requires s == Deltas() && t == Document() && HasType(x, Map) && HasType(y, Map) && Entries(x) != Entries(y)
    ensures Unchecked(s, Versioning(x), Versioning(y)) && s.types["Doc"] == t
  {
    DocsTold(t, x, y);
    TellsCalls(s, t, Versioning(x), Versioning(y));
  }

  lemma TellsCalls(s: P.Settings, t: Ty, j: P.Job, k: P.Job)
    requires s == Deltas() && Told(t, j.entity, k.entity) && Printable(j.entity) && t == Document()
    requires j == P.Job("Doc", "e", j.entity, None, true) && k == P.Job("Doc", "e", k.entity, None, true)
    ensures Unchecked(s, j, k) && s.types["Doc"] == t
  {
    assert s.types == map["Doc" := t];
  }

  /** Such calls: the second changes the type of a map entry, */
  lemma TypeChangeInTransaction(s: P.Settings, t: Ty, hash: HashChain.Hasher, j: P.Job, k: P.Job)
    requires s == Deltas() && t == Document()
    requires j == Versioning(Single("k", Atom(1, "u"))) && k == Versioning(Single("k", Atom(2, "w")))
    ensures var h := Runs.HistoryOf(s, hash, Call(0, j) + Call(1, k), P.KeyOf(j));
            |h| == 2 && Rebuild(t, h[..1]).Ok? && Rebuild(t, h[..2]).Err?
  {
    KindChange(Single("k", Atom(1, "u")), Single("k", Atom(2, "w")));
    DocsUnchecked(s, t, Single("k", Atom(1, "u")), Single("k", Atom(2, "w")));
    var x, y := TypeChange(t);
    TransactionStrands(s, hash, j, k);
  }

  /** or adds the key "a.b": version 2 is then answered with a key "a" that holds a map. */
  lemma DottedKeyInTransaction(s: P.Settings, t: Ty, hash: HashChain.Hasher, j: P.Job, k: P.Job, u: Value)
    requires s == Deltas() && t == Document() && u.Atom?
    requires j == Versioning(Dict(map[])) && k == Versioning(Single("a.b", u))
    ensures var h := Runs.HistoryOf(s, hash, Call(0, j) + Call(1, k), P.KeyOf(j));
            && |h| == 2 && h[1].data == Doc(Single("a.b", u)) && !Right(t, h, 2)
            && Rebuild(t, h[..2]) == Ok(Doc(Single("a", Single("b", u))))
  {
    var x: Value, y := Dict(map[]), Single("a.b", u);
    SingleTyped("a.b", u);
    assert "a.b" in Entries(y);
    DocsUnchecked(s, t, x, y);
    Losses.DottedKeyLost(t, u);
    TransactionMisleads(s, hash, j, k, Doc(Single("a", Single("b", u))));
  }
}
