/** The engine's promise: applying a diff, dotted paths and all, merges the new value into
    anything equivalent to the old one, exactly when its paths convey every change. */
module RoundTrip {
  import opened Prelude
  import opened Text
  import opened Sorting
  import opened Entities
  import opened Changes
  import opened Merge
  import opened DiffEngine
  import opened Paths
  import opened DottedKeys
  import opened Exactness
  import opened Replay
  import Equivalence
  import Json
  import Order

  // ----- The paths of a diff -----

  lemma {:induction false} StructPathsNamed(t: Ty, tracked: bool, a: Value, b: Value, i: nat)
    requires t.Struct? && HasType(a, t) && HasType(b, t) && i <= |t.fields|
    ensures forall e :: e in StructEdits(t, tracked, a, b, i) ==> e.path != [] && e.path[0] != ""
    decreases t, |t.fields| - i
  {
    if i < |t.fields| {
      var f := t.fields[i];
      if f.Promotes() { StructPathsNamed(f.ty, tracked || HasTracked(f.ty), a.fs[i], b.fs[i], 0); }
      StructPathsNamed(t, tracked, a, b, i + 1);
    }
  }

  /** No changed map key holds a dot exactly when no path of the diff has one in a segment. */
  lemma {:induction false} UndottedIffPlain(t: Ty, norm: bool, a: Value, b: Value)
    requires HasType(a, t) && HasType(b, t)
    ensures UndottedChanges(t, a, b) <==> Dotless(FieldEdits(t, norm, a, b))
    decreases t, 1
  {
    match t
    case Map => UndottedIffDotless(a, b);
    case Struct(_) => SlotsUndottedIffPlain(t, HasTracked(t), a, b, 0);
    case Ptr(e) => if e.Struct? && a.Ref? && b.Ref? { SlotsUndottedIffPlain(e, HasTracked(e), a.target, b.target, 0); }
    case _ =>
  }

  ghost predicate SlotUndotted(f: Field, tracked: bool, a: Value, b: Value)
    requires HasType(a, f.ty) && HasType(b, f.ty)
  {
    if Skipped(f, tracked) then true
    else if f.Promotes() then SlotsUndotted(f.ty, tracked || HasTracked(f.ty), a, b)
    else UndottedChanges(f.ty, a, b)
  }

  lemma {:induction false} SlotUndottedIffPlain(f: Field, tracked: bool, a: Value, b: Value)
    requires HasType(a, f.ty) && HasType(b, f.ty)
    ensures SlotUndotted(f, tracked, a, b) <==> Dotless(SlotEdits(f, tracked, a, b))
    decreases f.ty, 3
  {
    if !Skipped(f, tracked) {
      if f.Promotes() { PromotedUndottedIffPlain(f, tracked, a, b); } else { NamedUndottedIffPlain(f, a, b); }
    }
  }

  lemma {:induction false} PromotedUndottedIffPlain(f: Field, tracked: bool, a: Value, b: Value)
    requires HasType(a, f.ty) && HasType(b, f.ty) && f.Promotes()
    ensures SlotsUndotted(f.ty, tracked || HasTracked(f.ty), a, b) <==>
            Dotless(StructEdits(f.ty, tracked || HasTracked(f.ty), a, b, 0))
    decreases f.ty, 2
  {
    SlotsUndottedIffPlain(f.ty, tracked || HasTracked(f.ty), a, b, 0);
  }

  lemma {:induction false} NamedUndottedIffPlain(f: Field, a: Value, b: Value)
    requires HasType(a, f.ty) && HasType(b, f.ty)
    ensures UndottedChanges(f.ty, a, b) <==> Dotless(Under(f.name, FieldEdits(f.ty, f.tags.normalized, a, b)))
    decreases f.ty, 2
  {
    UndottedIffPlain(f.ty, f.tags.normalized, a, b);
    DotlessUnder(f.name, FieldEdits(f.ty, f.tags.normalized, a, b));
  }

  lemma {:induction false} SlotsUndottedIffPlain(t: Ty, tracked: bool, a: Value, b: Value, i: nat)
    requires t.Struct? && HasType(a, t) && HasType(b, t) && i <= |t.fields|
    ensures Dotless(StructEdits(t, tracked, a, b, i)) <==>
            forall k :: i <= k < |t.fields| ==> SlotUndotted(t.fields[k], tracked, a.fs[k], b.fs[k])
    ensures i == 0 ==> (SlotsUndotted(t, tracked, a, b) <==> Dotless(StructEdits(t, tracked, a, b, 0)))
    decreases t, 0, |t.fields| - i
  {
    if i < |t.fields| {
      var f := t.fields[i];
      SlotsUndottedIffPlain(t, tracked, a, b, i + 1);
      SlotUndottedIffPlain(f, tracked, a.fs[i], b.fs[i]);
      DotlessConcat(SlotEdits(f, tracked, a.fs[i], b.fs[i]), StructEdits(t, tracked, a, b, i + 1));
    }
  }

  /** Replaying the printed delta is applying the changes with their paths read back. */
  lemma DeltaIsReread(t: Ty, x: Value, a: Value, b: Value)
    requires t.Struct? && HasType(x, t) && HasType(a, t) && HasType(b, t)
    ensures Replayed(t, x, DeltaOf(t, a, b)) == ApplyAll(t, x, RereadAll(StructEdits(t, HasTracked(t), a, b, 0)))
  {
    StructPathsNamed(t, HasTracked(t), a, b, 0);
    ReplayedIsReread(t, x, StructEdits(t, HasTracked(t), a, b, 0));
  }

  // ----- The theorems -----

  /** Central law. On any `x` the engine cannot tell from `a`: if the paths of all changes from
      `a` to `b` locate them, replaying the delta succeeds exactly when every new map key finds
      an allocated map and every changed map leaf keeps its type; it then merges `b` into `x`,
      and the engine cannot tell the result from `b` exactly if JSON keeps what changed. If
      some change is not located, the result is not `b`, unless another change happens to
      carry into a hidden field. */
  lemma DiffThenApply(t: Ty, x: Value, a: Value, b: Value)
    requires t.Struct? && HasType(x, t) && HasType(a, t) && HasType(b, t)
    requires Same(t, false, x, a) && Supported(t, a, b)
    ensures Located(t, a, b) ==> (Replayed(t, x, DeltaOf(t, a, b)).Ok? <==> Replayable(t, x, b))
    ensures Located(t, a, b) && Replayable(t, x, b) ==>
              && Replayed(t, x, DeltaOf(t, a, b)) == Ok(MergeIn(t, false, x, b))
              && (Same(t, false, MergeIn(t, false, x, b), b) <==> Expressed(t, a, b))
    ensures Undisturbed(t, a, b) ==>
              (Replayed(t, x, DeltaOf(t, a, b)).Ok? && Same(t, false, Replayed(t, x, DeltaOf(t, a, b)).value, b) <==>
               Conveyed(t, a, b) && Replayable(t, x, b))
  {
    DeltaIsReread(t, x, a, b);
    if Located(t, a, b) {
      UndottedIffPlain(t, false, a, b);
      DotlessReread(StructEdits(t, HasTracked(t), a, b, 0));
      FieldReplay(t, false, x, a, b);
      Equivalence.ExpressedAlike(t, false, x, a, b);
      if Replayable(t, x, b) { Equivalence.MergeSame(t, false, x, b); }
    } else if Undisturbed(t, a, b) && Replayed(t, x, DeltaOf(t, a, b)).Ok? {
      var w := Replayed(t, x, DeltaOf(t, a, b)).value;
      FieldFails(t, false, x, a, b, w, w);
    }
  }

  /** Applying the delta to the very value it was computed from. */
  lemma ExactMerge(t: Ty, a: Value, b: Value)
    requires t.Struct? && HasType(a, t) && HasType(b, t) && Supported(t, a, b)
    ensures Located(t, a, b) ==> (Replayed(t, a, DeltaOf(t, a, b)).Ok? <==> Replayable(t, a, b))
    ensures Located(t, a, b) && Replayable(t, a, b) ==> Replayed(t, a, DeltaOf(t, a, b)) == Ok(MergeIn(t, false, a, b))
    ensures Undisturbed(t, a, b) ==>
              (Replayed(t, a, DeltaOf(t, a, b)).Ok? && Same(t, false, Replayed(t, a, DeltaOf(t, a, b)).value, b) <==>
               Conveyed(t, a, b) && Replayable(t, a, b))
  {
    Equivalence.SameReflexive(t, false, a);
    DiffThenApply(t, a, a, b);
  }

  /** A delta that was checked to lead to the JSON of the new value, if JSON keeps that one,
      conveys every change. */
  lemma CheckedIsConveyed(t: Ty, a: Value, b: Value)
    requires t.Struct? && HasType(a, t) && HasType(b, t) && Printable(a) && Supported(t, a, b) && Undisturbed(t, a, b)
    requires Replayed(t, a, DeltaOf(t, a, b)).Ok? && Decoded(Replayed(t, a, DeltaOf(t, a, b)).value) == Decoded(b)
    ensures HasType(Decoded(b), t) && (Same(t, false, Decoded(b), b) ==> Conveyed(t, a, b) && Replayable(t, a, b))
  {
    DecodedTyped(b, t);
    if Same(t, false, Decoded(b), b) {
      DeltaIsReread(t, a, a, b);
      Equivalence.SameReflexive(t, false, a);
      if !Located(t, a, b) { FieldFails(t, false, a, a, b, Replayed(t, a, DeltaOf(t, a, b)).value, Decoded(b)); }
      Json.ExpressedKept(t, false, a, b);
      ExactMerge(t, a, b);
    }
  }

  /** The delta is empty exactly when the two values are equivalent. */
  lemma EmptyDelta(t: Ty, a: Value, b: Value)
    requires t.Struct? && HasType(a, t) && HasType(b, t) && Supported(t, a, b)
    ensures DeltaOf(t, a, b) == [] <==> Same(t, false, a, b)
  {
    Equivalence.EmptyIffSame(t, false, a, b);
    var es := StructEdits(t, HasTracked(t), a, b, 0);
    assert |DeltaOf(t, a, b)| == |es|;
  }

  // ----- The order of the changes -----

  /** The changes of a delta as Apply reads them. */
  function Parsed(delta: Delta): (es: seq<Edit>)
    ensures |es| == |delta|
  {
    if delta == [] then [] else [ParsedOne(delta[0])] + Parsed(delta[1..])
  }

  function ParsedOne(c: FieldChange): Edit {
    Edit(Split(c.path, '.'), c.oldValue, c.newValue)
  }

  lemma {:induction false} ReplayedIsParsed(t: Ty, v: Value, delta: Delta)
    requires HasType(v, t)
    ensures Replayed(t, v, delta) == ApplyAll(t, v, Parsed(delta))
    decreases |delta|
  {
    if delta != [] {
      var r := ApplyIn(t, v, Split(delta[0].path, '.'), delta[0].newValue);
      if r.Ok? { ReplayedIsParsed(t, r.value, delta[1..]); }
    }
  }

  /** Replaying a delta on values with the same JSON comes to the same JSON. */
  lemma ReplayedAlike(t: Ty, x: Value, y: Value, delta: Delta)
    requires HasType(x, t) && HasType(y, t) && Json.Alike(x, y)
    ensures Json.BothAlike(Replayed(t, x, delta), Replayed(t, y, delta))
  {
    ReplayedIsParsed(t, x, delta);
    ReplayedIsParsed(t, y, delta);
    Json.ApplyAllAlike(t, x, y, Parsed(delta));
  }

  lemma {:induction false} ParsedConcat(c: Delta, d: Delta)
    ensures Parsed(c + d) == Parsed(c) + Parsed(d)
    decreases |c|
  {
    if c == [] {
      assert c + d == d;
    } else {
      assert (c + d)[0] == c[0] && (c + d)[1..] == c[1..] + d;
      ParsedConcat(c[1..], d);
    }
  }

  lemma {:induction false} ParsedAt(d: Delta, i: nat)
    requires i < |d|
    ensures Parsed(d)[i] == ParsedOne(d[i])
    decreases i
  {
    if i > 0 { ParsedAt(d[1..], i - 1); }
  }

  lemma ParsedAround(pre: Delta, c: FieldChange, post: Delta)
    ensures multiset(Parsed(pre + [c] + post)) == multiset(Parsed(pre + post)) + multiset{ParsedOne(c)}
  {
    ParsedConcat(pre + [c], post);
    ParsedConcat(pre, [c]);
    ParsedConcat(pre, post);
    assert Parsed([c]) == [ParsedOne(c)] by { assert [c][1..] == []; }
  }

  lemma {:induction false} ParsedPermuted(d: Delta, d': Delta)
    requires multiset(d) == multiset(d')
    ensures multiset(Parsed(d)) == multiset(Parsed(d'))
    decreases |d|
  {
    if d == [] {
      assert |d'| == |multiset(d')| == 0;
    } else {
      ParsedHead(d);
      var rest := WithoutOne(d', d[0]);
      assert multiset(d[1..]) + multiset{d[0]} == multiset(rest) + multiset{d[0]};
      SameRest(multiset(d[1..]), multiset(rest), d[0]);
      ParsedPermuted(d[1..], rest);
    }
  }

  lemma SameRest(m: multiset<FieldChange>, n: multiset<FieldChange>, c: FieldChange)
    requires m + multiset{c} == n + multiset{c}
    ensures m == n
  {
    assert m == m + multiset{c} - multiset{c} && n == n + multiset{c} - multiset{c};
  }

  lemma ParsedHead(d: Delta)
    requires d != []
    ensures multiset(d) == multiset(d[1..]) + multiset{d[0]} && d[0] in multiset(d)
    ensures multiset(Parsed(d)) == multiset(Parsed(d[1..])) + multiset{ParsedOne(d[0])}
  {
    assert d == [d[0]] + d[1..];
  }

  /** A list without one of its changes, wherever it stands. */
  lemma WithoutOne(d: Delta, c: FieldChange) returns (rest: Delta)
    requires c in multiset(d)
    ensures multiset(d) == multiset(rest) + multiset{c}
    ensures multiset(Parsed(d)) == multiset(Parsed(rest)) + multiset{ParsedOne(c)}
  {
    var k: nat :| k < |d| && d[k] == c;
    rest := d[..k] + d[k + 1..];
    assert d == d[..k] + [c] + d[k + 1..];
    ParsedAround(d[..k], c, d[k + 1..]);
  }

  lemma DeltaParses(t: Ty, a: Value, b: Value)
    requires t.Struct? && HasType(a, t) && HasType(b, t) && UndottedChanges(t, a, b)
    ensures Parsed(DeltaOf(t, a, b)) == StructEdits(t, HasTracked(t), a, b, 0)
  {
    var es := StructEdits(t, HasTracked(t), a, b, 0);
    UndottedIffPlain(t, false, a, b);
    StructPathsNamed(t, HasTracked(t), a, b, 0);
    forall i | 0 <= i < |es| ensures Parsed(Printed("", es))[i] == es[i] {
      ParsedAt(Printed("", es), i);
      assert es[i] in es;
      PrintedPathSplits(es[i].path);
    }
  }

  /** The paths in a delta are pairwise incomparable, segment by segment, and replaying its
      changes in any other order comes to the same. */
  lemma DeltaOrderFree(t: Ty, v: Value, a: Value, b: Value, delta: Delta)
    requires t.Struct? && HasType(v, t) && HasType(a, t) && HasType(b, t)
    requires Located(t, a, b) && Supported(t, a, b) && multiset(delta) == multiset(DeltaOf(t, a, b))
    ensures var d := DeltaOf(t, a, b);
            forall i, j :: 0 <= i < j < |d| ==> Order.Incomparable(Split(d[i].path, '.'), Split(d[j].path, '.'))
    ensures Order.Alike(Replayed(t, v, DeltaOf(t, a, b)), Replayed(t, v, delta))
  {
    var d, es := DeltaOf(t, a, b), StructEdits(t, HasTracked(t), a, b, 0);
    DeltaParses(t, a, b);
    ParsedPermuted(delta, d);
    Order.DiffOrderFree(t, v, a, b, Parsed(delta));
    ReplayedIsParsed(t, v, d);
    ReplayedIsParsed(t, v, delta);
    forall i | 0 <= i < |d| ensures Split(d[i].path, '.') == es[i].path { ParsedAt(d, i); }
  }

  // ----- Types and values for which everything is conveyed -----

  /** Without hidden fields every change is reached. */
  lemma {:induction false} WellNamedReaches(t: Ty, a: Value, b: Value)
    requires HasType(a, t) && HasType(b, t) && WellNamed(t)
    ensures Reached(t, a, b)
    decreases t, 1
  {
    match t
    case Struct(_) => AddressableReaches(t, [], t, HasTracked(t), a, b);
    case Ptr(e) => if e.Struct? && a.Ref? && b.Ref? { AddressableReaches(e, [], e, HasTracked(e), a.target, b.target); }
    case _ =>
  }

  lemma {:induction false} AddressableReaches(h: Ty, at: seq<nat>, t: Ty, tracked: bool, a: Value, b: Value)
    requires h.Struct? && t.Struct? && HasType(a, t) && HasType(b, t) && Addressable(h, at, t, tracked)
    ensures SlotsReached(h, at, t, tracked, a, b)
    decreases t, 0
  {
    forall i | 0 <= i < |t.fields| && !Skipped(t.fields[i], tracked)
      ensures var f := t.fields[i];
              if f.Promotes() then SlotsReached(h, at + [i], f.ty, tracked || HasTracked(f.ty), a.fs[i], b.fs[i])
              else Resolve(h, f.name) == Some(at + [i]) && Reached(f.ty, a.fs[i], b.fs[i])
    {
      var f := t.fields[i];
      if f.Promotes() {
        AddressableReaches(h, at + [i], f.ty, tracked || HasTracked(f.ty), a.fs[i], b.fs[i]);
      } else {
        WellNamedReaches(f.ty, a.fs[i], b.fs[i]);
      }
    }
  }

  lemma {:induction false} WellNamedUndisturbed(t: Ty, a: Value, b: Value)
    requires HasType(a, t) && HasType(b, t) && WellNamed(t)
    ensures Undisturbed(t, a, b)
    decreases t, 1
  {
    match t
    case Struct(_) => AddressableUndisturbed(t, a, b);
    case Ptr(e) => if e.Struct? && a.Ref? && b.Ref? { AddressableUndisturbed(e, a.target, b.target); }
    case _ =>
  }

  lemma {:induction false} AddressableUndisturbed(h: Ty, a: Value, b: Value)
    requires h.Struct? && HasType(a, h) && HasType(b, h) && Addressable(h, [], h, HasTracked(h))
    ensures SlotsUndisturbed(h, a, b)
    decreases h, 0
  {
    forall p | Slot(h, HasTracked(h), p)
      ensures !Hidden(h, HasTracked(h), p) && Undisturbed(SlotField(h, HasTracked(h), p).ty, At(h, a, p), At(h, b, p))
    {
      SlotAddressed(h, [], h, HasTracked(h), p);
      assert [] + p == p;
      WellNamedUndisturbed(SlotField(h, HasTracked(h), p).ty, At(h, a, p), At(h, b, p));
    }
  }

  lemma {:induction false} SlotAddressed(h: Ty, at: seq<nat>, t: Ty, tracked: bool, p: seq<nat>)
    requires h.Struct? && t.Struct? && Addressable(h, at, t, tracked) && Slot(t, tracked, p)
    ensures var f := SlotField(t, tracked, p); Resolve(h, f.name) == Some(at + p) && WellNamed(f.ty)
    decreases p
  {
    var i, f := p[0], t.fields[p[0]];
    if |p| == 1 {
      assert p == [i];
    } else {
      SlotAddressed(h, at + [i], f.ty, tracked || HasTracked(f.ty), p[1..]);
      assert p == [i] + p[1..] && at + [i] + p[1..] == at + p;
    }
  }

  lemma {:induction false} UndottedValues(t: Ty, a: Value, b: Value)
    requires HasType(a, t) && HasType(b, t) && Undotted(a) && Undotted(b)
    ensures UndottedChanges(t, a, b)
    decreases t, 1
  {
    match t
    case Map => UndottedMaps(a, b);
    case Struct(_) => UndottedStructs(t, HasTracked(t), a, b);
    case Ptr(e) => if e.Struct? && a.Ref? && b.Ref? { UndottedStructs(e, HasTracked(e), a.target, b.target); }
    case _ =>
  }

  lemma {:induction false} UndottedStructs(t: Ty, tracked: bool, a: Value, b: Value)
    requires t.Struct? && HasType(a, t) && HasType(b, t) && Undotted(a) && Undotted(b)
    ensures SlotsUndotted(t, tracked, a, b)
    decreases t, 0
  {
    forall i | 0 <= i < |t.fields| && !Skipped(t.fields[i], tracked)
      ensures var f := t.fields[i];
              if f.Promotes() then SlotsUndotted(f.ty, tracked || HasTracked(f.ty), a.fs[i], b.fs[i])
              else UndottedChanges(f.ty, a.fs[i], b.fs[i])
    {
      var f := t.fields[i];
      if f.Promotes() {
        UndottedStructs(f.ty, tracked || HasTracked(f.ty), a.fs[i], b.fs[i]);
      } else {
        UndottedValues(f.ty, a.fs[i], b.fs[i]);
      }
    }
  }

  lemma {:induction false} UndottedMaps(a: Value, b: Value)
    requires HasType(a, Map) && HasType(b, Map) && Undotted(a) && Undotted(b)
    ensures MapUndotted(a, b)
    decreases a
  {
    forall k | k in Entries(a).Keys + Entries(b).Keys ensures KeyUndotted(a, b, k) {
      if NestedAt(a, b, k) { UndottedMaps(a.m[k], b.m[k]); }
    }
  }

  lemma PlainConveyed(t: Ty, a: Value, b: Value)
    requires HasType(a, t) && HasType(b, t) && WellNamed(t) && Undotted(a) && Undotted(b) && Printable(b)
    ensures Conveyed(t, a, b)
  {
    Equivalence.PrintableExpressed(t, a, b);
    WellNamedReaches(t, a, b);
    UndottedValues(t, a, b);
  }

  /** In a type without hidden fields only dotted map keys, pointers to what JSON prints as
      null, nil maps and changes of a map leaf's type stand in the way, anywhere in it. */
  lemma WellNamedRoundTrip(t: Ty, x: Value, a: Value, b: Value)
    requires t.Struct? && HasType(x, t) && HasType(a, t) && HasType(b, t) && WellNamed(t)
    requires Same(t, false, x, a) && Supported(t, a, b)
    ensures Replayed(t, x, DeltaOf(t, a, b)).Ok? && Same(t, false, Replayed(t, x, DeltaOf(t, a, b)).value, b) <==>
            UndottedChanges(t, a, b) && Expressed(t, a, b) && Replayable(t, x, b)
  {
    WellNamedReaches(t, a, b);
    WellNamedUndisturbed(t, a, b);
    DiffThenApply(t, x, a, b);
  }
}
