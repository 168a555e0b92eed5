/** What the `version:"..."` tags mean, told by the paths of fields from the root of an entity
    down: which fields are left out, and what a change of any other field comes to. */
module Tags {
  import opened Prelude
  import opened Sorting
  import opened Entities
  import opened Changes
  import opened Merge
  import opened DiffEngine
  import opened Exactness
  import opened Replay
  import Equivalence
  import RoundTrip

  // ----- Fields that are left out -----

  /** The struct in which step `j` of the path picks a field. */
  function StructOn(t: Ty, p: seq<nat>, j: nat): (s: Ty)
    requires Walk(t, p) && j < |p|
    ensures s.Struct? && p[j] < |s.fields|
    decreases p
  {
    if j == 0 then t else StructOn(t.fields[p[0]].ty, p[1..], j - 1)
  }

  function FieldOn(t: Ty, p: seq<nat>, j: nat): Field
    requires Walk(t, p) && j < |p|
  {
    StructOn(t, p, j).fields[p[j]]
  }

  ghost predicate Embedded(t: Ty, p: seq<nat>, m: nat, j: nat)
    requires Walk(t, p) && j < |p|
  {
    forall n :: m <= n < j ==> FieldOn(t, p, n).embedded
  }

  /** The struct at step `m` has a field tagged tracked, and only embedded structs lie between
      it and the struct at step `j`. */
  ghost predicate TrackedFrom(t: Ty, p: seq<nat>, m: nat, j: nat)
    requires Walk(t, p) && m <= j < |p|
  {
    var s := StructOn(t, p, m);
    (exists k :: 0 <= k < |s.fields| && s.fields[k].tags.tracked) && Embedded(t, p, m, j)
  }

  /** Of the struct at step `j` only tagged fields are compared. `base` says so of a struct
      that the entity itself is embedded in. */
  ghost predicate OnlyTracked(t: Ty, base: bool, p: seq<nat>, j: nat)
    requires Walk(t, p) && j < |p|
  {
    (base && Embedded(t, p, 0, j)) || exists m :: 0 <= m <= j && TrackedFrom(t, p, m, j)
  }

  ghost predicate LeftOutAt(t: Ty, base: bool, p: seq<nat>, j: nat)
    requires Walk(t, p) && j < |p|
  {
    var f := FieldOn(t, p, j);
    f.tags.id || f.tags.ignore || (OnlyTracked(t, base, p, j) && !f.tags.tracked && !f.embedded)
  }

  /** The path leads into a field that is left out. */
  ghost predicate LeftOut(t: Ty, base: bool, p: seq<nat>)
    requires Walk(t, p)
  {
    exists j :: 0 <= j < |p| && LeftOutAt(t, base, p, j)
  }

  /** The path of a field that is no struct itself. */
  ghost predicate IsPlace(t: Ty, p: seq<nat>) {
    Walk(t, p) && p != [] && !TyAt(t, p).Struct?
  }

  // ----- One step down -----

  lemma TrackedFromBelow(t: Ty, p: seq<nat>, m: nat, j: nat)
    requires Walk(t, p) && 1 <= m <= j < |p|
    ensures TrackedFrom(t, p, m, j) <==> TrackedFrom(t.fields[p[0]].ty, p[1..], m - 1, j - 1)
  {
    EmbeddedBelow(t, p, m, j);
    assert StructOn(t, p, m) == StructOn(t.fields[p[0]].ty, p[1..], m - 1);
  }

  lemma TrackedHere(t: Ty, p: seq<nat>, j: nat)
    requires Walk(t, p) && j < |p|
    ensures TrackedFrom(t, p, 0, j) <==> HasTracked(t) && Embedded(t, p, 0, j)
  {
    assert StructOn(t, p, 0) == t;
    if HasTracked(t) {
      var k :| 0 <= k < |t.fields| && t.fields[k].tags.tracked;
      assert StructOn(t, p, 0).fields[k].tags.tracked;
    }
  }

  lemma EmbeddedBelow(t: Ty, p: seq<nat>, m: nat, j: nat)
    requires Walk(t, p) && 1 <= m <= j < |p|
    ensures Embedded(t, p, m, j) <==> Embedded(t.fields[p[0]].ty, p[1..], m - 1, j - 1)
  {
    var ft := t.fields[p[0]].ty;
    assert forall n :: 1 <= n < |p| ==> FieldOn(t, p, n) == FieldOn(ft, p[1..], n - 1);
    if Embedded(t, p, m, j) {
      forall n | m - 1 <= n < j - 1 ensures FieldOn(ft, p[1..], n).embedded { assert FieldOn(t, p, n + 1).embedded; }
    }
  }

  /** A struct inside is in tracked mode if it is embedded in one that is, or by itself. */
  lemma OnlyTrackedBelow(t: Ty, base: bool, p: seq<nat>, j: nat)
    requires Walk(t, p) && 1 <= j < |p|
    ensures OnlyTracked(t, base, p, j) <==>
            OnlyTracked(t.fields[p[0]].ty, t.fields[p[0]].embedded && (base || HasTracked(t)), p[1..], j - 1)
  {
    var f := t.fields[p[0]];
    EmbeddedBelow(t, p, 1, j);
    assert FieldOn(t, p, 0) == f;
    assert Embedded(t, p, 0, j) <==> f.embedded && Embedded(f.ty, p[1..], 0, j - 1);
    TrackedHere(t, p, j);
    forall m | 1 <= m <= j ensures TrackedFrom(t, p, m, j) <==> TrackedFrom(f.ty, p[1..], m - 1, j - 1) {
      TrackedFromBelow(t, p, m, j);
    }
    var q, n := p[1..], j - 1;
    if m: nat :| m <= n && TrackedFrom(f.ty, q, m, n) { assert TrackedFrom(t, p, m + 1, j); }
  }

  lemma LeftOutHere(t: Ty, base: bool, p: seq<nat>)
    requires Walk(t, p) && p != []
    ensures LeftOutAt(t, base, p, 0) <==> Skipped(t.fields[p[0]], base || HasTracked(t))
  {
    TrackedHere(t, p, 0);
  }

  lemma LeftOutBelow(t: Ty, base: bool, p: seq<nat>, j: nat)
    requires Walk(t, p) && 1 <= j < |p|
    ensures LeftOutAt(t, base, p, j) <==>
            LeftOutAt(t.fields[p[0]].ty, t.fields[p[0]].embedded && (base || HasTracked(t)), p[1..], j - 1)
  {
    OnlyTrackedBelow(t, base, p, j);
  }

  /** A path is left out at its first step or further down. */
  lemma LeftOutStep(t: Ty, base: bool, p: seq<nat>)
    requires Walk(t, p) && p != []
    ensures LeftOut(t, base, p) <==>
            || Skipped(t.fields[p[0]], base || HasTracked(t))
            || LeftOut(t.fields[p[0]].ty, t.fields[p[0]].embedded && (base || HasTracked(t)), p[1..])
  {
    var f := t.fields[p[0]];
    var inner := f.embedded && (base || HasTracked(t));
    LeftOutHere(t, base, p);
    forall j | 1 <= j < |p| ensures LeftOutAt(t, base, p, j) <==> LeftOutAt(f.ty, inner, p[1..], j - 1) {
      LeftOutBelow(t, base, p, j);
    }
    if j: nat :| j < |p| - 1 && LeftOutAt(f.ty, inner, p[1..], j) { assert LeftOutAt(t, base, p, j + 1); }
  }

  /** A field of the entity itself. */
  lemma OwnPlace(t: Ty, base: bool, i: nat, v: Value)
    requires t.Struct? && i < |t.fields| && HasType(v, t)
    ensures Walk(t, [i]) && TyAt(t, [i]) == t.fields[i].ty && FieldOn(t, [i], 0) == t.fields[i]
    ensures At(t, v, [i]) == v.fs[i]
    ensures LeftOut(t, base, [i]) <==> Skipped(t.fields[i], base || HasTracked(t))
  {
    assert [i][1..] == [];
    assert Walk(t.fields[i].ty, []);
    LeftOutHere(t, base, [i]);
    if LeftOut(t, base, [i]) { assert LeftOutAt(t, base, [i], 0); }
  }

  // ----- What is compared -----

  /** It holds at every place that is compared. */
  ghost predicate Everywhere(t: Ty, base: bool, holds: seq<nat> -> bool) {
    forall p :: IsPlace(t, p) && !LeftOut(t, base, p) ==> holds(p)
  }

  lemma EverywhereAlike(t: Ty, base: bool, holds: seq<nat> -> bool, too: seq<nat> -> bool)
    requires forall p :: IsPlace(t, p) ==> (holds(p) <==> too(p))
    ensures Everywhere(t, base, holds) <==> Everywhere(t, base, too)
  {
  }

  /** The places in field `i`: itself, or those of the struct it is. */
  ghost predicate EverywhereIn(t: Ty, base: bool, i: nat, holds: seq<nat> -> bool)
    requires t.Struct? && i < |t.fields|
  {
    var f := t.fields[i];
    Skipped(f, base || HasTracked(t)) ||
    if f.ty.Struct? then Everywhere(f.ty, f.embedded && (base || HasTracked(t)), q => holds([i] + q)) else holds([i])
  }

  lemma EverywhereStep(t: Ty, base: bool, holds: seq<nat> -> bool)
    requires t.Struct?
    ensures Everywhere(t, base, holds) <==> forall i :: 0 <= i < |t.fields| ==> EverywhereIn(t, base, i, holds)
  {
    if Everywhere(t, base, holds) {
      forall i | 0 <= i < |t.fields| ensures EverywhereIn(t, base, i, holds) { EverywhereDown(t, base, i, holds); }
    }
    if forall i :: 0 <= i < |t.fields| ==> EverywhereIn(t, base, i, holds) {
      forall p | IsPlace(t, p) && !LeftOut(t, base, p) ensures holds(p) {
        assert EverywhereIn(t, base, p[0], holds);
        LeftOutStep(t, base, p);
        assert p == [p[0]] + p[1..];
        var ft := t.fields[p[0]].ty;
        assert Walk(ft, p[1..]) && TyAt(t, p) == TyAt(ft, p[1..]);
        if ft.Struct? { assert IsPlace(ft, p[1..]) && holds([p[0]] + p[1..]); } else { assert p == [p[0]]; }
      }
    }
  }

  lemma EverywhereDown(t: Ty, base: bool, i: nat, holds: seq<nat> -> bool)
    requires t.Struct? && i < |t.fields| && Everywhere(t, base, holds)
    ensures EverywhereIn(t, base, i, holds)
  {
    var f := t.fields[i];
    if !Skipped(f, base || HasTracked(t)) {
      if f.ty.Struct? {
        forall q | IsPlace(f.ty, q) && !LeftOut(f.ty, f.embedded && (base || HasTracked(t)), q) ensures holds([i] + q) {
          assert ([i] + q)[1..] == q;
          LeftOutStep(t, base, [i] + q);
        }
      } else {
        OwnPlace(t, base, i, Zero(t));
      }
    }
  }

  /** The engine cannot tell the two values of the field at this place apart. */
  ghost predicate AlikeAt(t: Ty, a: Value, b: Value, p: seq<nat>)
    requires HasType(a, t) && HasType(b, t)
  {
    IsPlace(t, p) ==> Same(TyAt(t, p), FieldOn(t, p, |p| - 1).tags.normalized, At(t, a, p), At(t, b, p))
  }

  /** It does not refuse them. */
  ghost predicate SupportedAt(t: Ty, a: Value, b: Value, p: seq<nat>)
    requires HasType(a, t) && HasType(b, t)
  {
    IsPlace(t, p) ==> Supported(TyAt(t, p), At(t, a, p), At(t, b, p))
  }

  lemma AlikeBelow(t: Ty, a: Value, b: Value, i: nat, q: seq<nat>)
    requires t.Struct? && i < |t.fields| && HasType(a, t) && HasType(b, t) && IsPlace(t.fields[i].ty, q)
    ensures AlikeAt(t, a, b, [i] + q) <==> AlikeAt(t.fields[i].ty, a.fs[i], b.fs[i], q)
    ensures SupportedAt(t, a, b, [i] + q) <==> SupportedAt(t.fields[i].ty, a.fs[i], b.fs[i], q)
  {
    assert ([i] + q)[1..] == q;
  }

  lemma {:induction false} SameExactly(t: Ty, base: bool, a: Value, b: Value)
    requires t.Struct? && HasType(a, t) && HasType(b, t)
    ensures FieldsSame(t, base || HasTracked(t), a, b) <==> Everywhere(t, base, p => AlikeAt(t, a, b, p))
    decreases t
  {
    EverywhereStep(t, base, p => AlikeAt(t, a, b, p));
    forall i | 0 <= i < |t.fields|
      ensures SlotSame(t.fields[i], base || HasTracked(t), a.fs[i], b.fs[i]) <==>
              EverywhereIn(t, base, i, p => AlikeAt(t, a, b, p))
    {
      SameIn(t, base, a, b, i);
    }
  }

  lemma {:induction false} SameIn(t: Ty, base: bool, a: Value, b: Value, i: nat)
    requires t.Struct? && i < |t.fields| && HasType(a, t) && HasType(b, t)
    ensures SlotSame(t.fields[i], base || HasTracked(t), a.fs[i], b.fs[i]) <==>
            EverywhereIn(t, base, i, p => AlikeAt(t, a, b, p))
    decreases t, 0
  {
    var f := t.fields[i];
    var inner := f.embedded && (base || HasTracked(t));
    if f.ty.Struct? {
      SameExactly(f.ty, inner, a.fs[i], b.fs[i]);
      forall q | IsPlace(f.ty, q) ensures AlikeAt(t, a, b, [i] + q) <==> AlikeAt(f.ty, a.fs[i], b.fs[i], q) {
        AlikeBelow(t, a, b, i, q);
      }
      EverywhereAlike(f.ty, inner, q => AlikeAt(t, a, b, [i] + q), q => AlikeAt(f.ty, a.fs[i], b.fs[i], q));
    } else {
      OwnPlace(t, base, i, a);
      OwnPlace(t, base, i, b);
    }
  }

  lemma {:induction false} SupportedExactly(t: Ty, base: bool, a: Value, b: Value)
    requires t.Struct? && HasType(a, t) && HasType(b, t)
    ensures FieldsSupported(t, base || HasTracked(t), a, b) <==> Everywhere(t, base, p => SupportedAt(t, a, b, p))
    decreases t
  {
    EverywhereStep(t, base, p => SupportedAt(t, a, b, p));
    forall i | 0 <= i < |t.fields|
      ensures SlotSupported(t.fields[i], base || HasTracked(t), a.fs[i], b.fs[i]) <==>
              EverywhereIn(t, base, i, p => SupportedAt(t, a, b, p))
    {
      SupportedIn(t, base, a, b, i);
    }
  }

  lemma {:induction false} SupportedIn(t: Ty, base: bool, a: Value, b: Value, i: nat)
    requires t.Struct? && i < |t.fields| && HasType(a, t) && HasType(b, t)
    ensures SlotSupported(t.fields[i], base || HasTracked(t), a.fs[i], b.fs[i]) <==>
            EverywhereIn(t, base, i, p => SupportedAt(t, a, b, p))
    decreases t, 0
  {
    var f := t.fields[i];
    var inner := f.embedded && (base || HasTracked(t));
    if f.ty.Struct? {
      SupportedExactly(f.ty, inner, a.fs[i], b.fs[i]);
      forall q | IsPlace(f.ty, q) ensures SupportedAt(t, a, b, [i] + q) <==> SupportedAt(f.ty, a.fs[i], b.fs[i], q) {
        AlikeBelow(t, a, b, i, q);
      }
      EverywhereAlike(f.ty, inner, q => SupportedAt(t, a, b, [i] + q), q => SupportedAt(f.ty, a.fs[i], b.fs[i], q));
    } else {
      OwnPlace(t, base, i, a);
      OwnPlace(t, base, i, b);
    }
  }

  // ----- The same for Apply -----

  lemma MergedStruct(f: Field, tracked: bool, x: Value, b: Value)
    requires f.ty.Struct? && HasType(x, f.ty) && HasType(b, f.ty) && !Skipped(f, tracked)
    ensures MergeSlot(f, tracked, x, b) == MergeFields(f.ty, (f.embedded && tracked) || HasTracked(f.ty), x, b)
  {
  }

  /** Merging leaves a field that is left out as it was, and merges the others one by one. */
  lemma {:induction false} MergedAt(t: Ty, base: bool, x: Value, b: Value, r: Value, p: seq<nat>)
    requires t.Struct? && HasType(x, t) && HasType(b, t) && Walk(t, p) && p != []
    requires HasType(r, t) && r == MergeFields(t, base || HasTracked(t), x, b)
    ensures LeftOut(t, base, p) ==> At(t, r, p) == At(t, x, p)
    ensures !LeftOut(t, base, p) && IsPlace(t, p) ==>
              At(t, r, p) == MergeIn(TyAt(t, p), FieldOn(t, p, |p| - 1).tags.normalized, At(t, x, p), At(t, b, p))
    decreases p
  {
    var i, f, tracked := p[0], t.fields[p[0]], base || HasTracked(t);
    assert r.fs[i] == MergeSlot(f, tracked, x.fs[i], b.fs[i]);
    LeftOutStep(t, base, p);
    if |p| == 1 {
      assert p == [i];
      OwnPlace(t, base, i, x);
    } else if !Skipped(f, tracked) {
      assert f.ty.Struct?;
      MergedStruct(f, tracked, x.fs[i], b.fs[i]);
      MergedAt(f.ty, f.embedded && tracked, x.fs[i], b.fs[i], r.fs[i], p[1..]);
    }
  }

  // ----- Main results -----

  /** A diff comes out empty exactly if the engine cannot tell the two values of any field
      that is compared apart; it is refused exactly if it refuses one of these. */
  lemma DeltaEmptyExactly(t: Ty, a: Value, b: Value)
    requires t.Struct? && HasType(a, t) && HasType(b, t)
    ensures Supported(t, a, b) <==> forall p :: IsPlace(t, p) && !LeftOut(t, false, p) ==> SupportedAt(t, a, b, p)
    ensures Supported(t, a, b) ==>
              (DeltaOf(t, a, b) == [] <==>
               forall p :: IsPlace(t, p) && !LeftOut(t, false, p) ==> AlikeAt(t, a, b, p))
  {
    SupportedExactly(t, false, a, b);
    SameExactly(t, false, a, b);
    if Supported(t, a, b) { RoundTrip.EmptyDelta(t, a, b); }
  }

  /** What a field that is no struct has to hold for the engine not to tell it apart. */
  lemma AlikeMeans(t: Ty, norm: bool, a: Value, b: Value)
    requires HasType(a, t) && HasType(b, t) && !t.Struct?
    ensures t.Leaf? || (t.Slice? && !norm) ==> (Same(t, norm, a, b) <==> a == b)
    ensures t.Time? ==> (Same(t, norm, a, b) <==> a.at == b.at)
    ensures t.Slice? && norm ==>
              (Same(t, norm, a, b) <==>
               (a.NilSlice? && b.NilSlice?) || (a.Elems? && b.Elems? && multiset(a.es) == multiset(b.es)))
    ensures t.Map? ==> (Same(t, norm, a, b) <==>
                        forall k :: (a.Dict? && k in a.m <==> b.Dict? && k in b.m) &&
                                    (a.Dict? && b.Dict? && k in a.m && k in b.m ==> a.m[k] == b.m[k]))
    ensures t.Ptr? && (a.Nil? || b.Nil?) ==> (Same(t, norm, a, b) <==> a == b)
    ensures t.Ptr? && a.Ref? && b.Ref? ==>
              (Same(t, norm, a, b) <==>
               if t.elem.Struct? then Same(t.elem, false, a.target, b.target)
               else if t.elem.Time? then a.target.at == b.target.at
               else a.target == b.target)
  {
    if t.Slice? && norm && a.Elems? && b.Elems? { SortIgnoresOrder(a.es, b.es); }
    if t.Map? { SameEntries(a, b); }
  }

  lemma SameEntries(a: Value, b: Value)
    requires HasType(a, Map) && HasType(b, Map)
    ensures Entries(a) == Entries(b) <==>
            forall k :: (a.Dict? && k in a.m <==> b.Dict? && k in b.m) &&
                        (a.Dict? && b.Dict? && k in a.m && k in b.m ==> a.m[k] == b.m[k])
  {
    assert forall k :: (k in Entries(a) <==> a.Dict? && k in a.m) && (k in Entries(b) <==> b.Dict? && k in b.m);
  }

  /** And when the engine refuses it: a channel or a function always, a pointer if one of
      two unlike targets, or the only one, holds something JSON refuses. */
  lemma SupportedMeans(t: Ty, a: Value, b: Value)
    requires HasType(a, t) && HasType(b, t) && !t.Struct?
    ensures !t.Ptr? ==> (Supported(t, a, b) <==> !t.Opaque?)
    ensures t.Ptr? && a.Nil? && b.Nil? ==> Supported(t, a, b)
    ensures t.Ptr? && a.Nil? != b.Nil? ==> (Supported(t, a, b) <==> Encodable(a) && Encodable(b))
    ensures t.Ptr? && a.Ref? && b.Ref? ==>
              (Supported(t, a, b) <==>
               if t.elem.Struct? then Supported(t.elem, a.target, b.target)
               else Same(t, false, a, b) || (Encodable(a) && Encodable(b)))
  {
  }

  /** JSON refuses a struct with a channel or a function in it, at any depth. */
  lemma {:induction false} OpaqueRefused(t: Ty, v: Value, p: seq<nat>)
    requires HasType(v, t) && Walk(t, p) && TyAt(t, p).Opaque?
    ensures !Encodable(v)
    decreases p
  {
    if p != [] { OpaqueRefused(t.fields[p[0]].ty, v.fs[p[0]], p[1..]); }
  }

  /** Replaying a located delta leaves every field that is left out as it was, and brings
      the others to the new value, as far as JSON keeps that. */
  lemma ReplayedFields(t: Ty, x: Value, a: Value, b: Value, w: Value)
    requires t.Struct? && HasType(x, t) && HasType(a, t) && HasType(b, t) && HasType(w, t)
    requires Same(t, false, x, a) && Supported(t, a, b) && Located(t, a, b)
    requires Replayed(t, x, DeltaOf(t, a, b)) == Ok(w)
    ensures forall p :: Walk(t, p) && p != [] && LeftOut(t, false, p) ==> At(t, w, p) == At(t, x, p)
    ensures Expressed(t, a, b) <==> forall p :: IsPlace(t, p) && !LeftOut(t, false, p) ==> AlikeAt(t, w, b, p)
  {
    RoundTrip.DiffThenApply(t, x, a, b);
    SameExactly(t, false, w, b);
    forall p | Walk(t, p) && p != [] && LeftOut(t, false, p) ensures At(t, w, p) == At(t, x, p) {
      MergedAt(t, false, x, b, w, p);
    }
  }

  /** Entities that differ in nothing but identifiers, ignored fields and, if some field is
      tagged tracked, plain fields that are not, have an empty delta; no such field is refused. */
  lemma TaggedNeverShow(t: Ty, a: Value, b: Value)
    requires t.Struct? && HasType(a, t) && HasType(b, t)
    requires forall i :: 0 <= i < |t.fields| ==>
               || a.fs[i] == b.fs[i] || t.fields[i].tags.id || t.fields[i].tags.ignore
               || (!t.fields[i].tags.tracked && !t.fields[i].embedded
                   && exists k :: 0 <= k < |t.fields| && t.fields[k].tags.tracked)
    ensures Supported(t, a, b) <==> Supported(t, a, a)
    ensures Supported(t, a, b) ==> DeltaOf(t, a, b) == []
  {
    forall i | 0 <= i < |t.fields|
      ensures SlotSame(t.fields[i], HasTracked(t), a.fs[i], b.fs[i])
      ensures SlotSupported(t.fields[i], HasTracked(t), a.fs[i], b.fs[i]) <==>
              SlotSupported(t.fields[i], HasTracked(t), a.fs[i], a.fs[i])
    {
      Equivalence.FieldsSameReflexive(t, HasTracked(t), a);
      assert SlotSame(t.fields[i], HasTracked(t), a.fs[i], a.fs[i]);
    }
    if Supported(t, a, b) { RoundTrip.EmptyDelta(t, a, b); }
  }

  /** Any other field shows: without a field tagged tracked, one that has neither tag and
      whose values the engine can tell apart. */
  lemma UntaggedShows(t: Ty, a: Value, b: Value, i: nat)
    requires t.Struct? && i < |t.fields| && HasType(a, t) && HasType(b, t) && Supported(t, a, b)
    requires forall k :: 0 <= k < |t.fields| ==> !t.fields[k].tags.tracked
    requires !t.fields[i].tags.id && !t.fields[i].tags.ignore && !t.fields[i].ty.Struct?
    requires !Same(t.fields[i].ty, t.fields[i].tags.normalized, a.fs[i], b.fs[i])
    ensures DeltaOf(t, a, b) != []
  {
    assert !SlotSame(t.fields[i], HasTracked(t), a.fs[i], b.fs[i]);
    RoundTrip.EmptyDelta(t, a, b);
  }
}
