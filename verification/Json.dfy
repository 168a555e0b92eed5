/** What becomes of values that JSON does not give back as they were: pointers to something
    printed as null. */
module Json {
  import opened Prelude
  import opened Entities
  import opened Changes
  import opened Merge
  import Equivalence

  // ----- Decoding -----

  /** Reading a value back a second time changes nothing more. */
  lemma {:induction false} DecodedIsPrintable(v: Value)
    ensures Printable(Decoded(v)) && (PrintsNull(Decoded(v)) <==> PrintsNull(v))
  {
    match v
    case Ref(w) => DecodedIsPrintable(w);
    case Rec(fs) => forall i | 0 <= i < |fs| ensures Printable(Decoded(fs[i])) { DecodedIsPrintable(fs[i]); }
    case _ =>
  }

  lemma DecodedTwice(v: Value)
    ensures Decoded(Decoded(v)) == Decoded(v)
  {
    DecodedIsPrintable(v);
    DecodedPrintable(Decoded(v));
  }

  // ----- Comparing -----

  /** A printable value that is equivalent to another is equivalent to what JSON keeps of it. */
  lemma {:induction false} SameDecoded(t: Ty, norm: bool, a: Value, b: Value)
    requires HasType(a, t) && HasType(b, t) && Printable(a) && Same(t, norm, a, b)
    ensures HasType(Decoded(b), t) && Same(t, norm, a, Decoded(b))
    decreases t, 1
  {
    DecodedTyped(b, t);
    match t
    case Struct(_) => FieldsSameDecoded(t, HasTracked(t), a, b);
    case Ptr(e) =>
      if a.Ref? && e.Struct? {
        DecodedTyped(b.target, e);
        FieldsSameDecoded(e, HasTracked(e), a.target, b.target);
      } else if a.Ref? {
        DecodedPrintable(a);
      }
    case _ =>
  }

  lemma {:induction false} FieldsSameDecoded(t: Ty, tracked: bool, a: Value, b: Value)
    requires t.Struct? && HasType(a, t) && HasType(b, t) && HasType(Decoded(b), t) && Printable(a)
    requires FieldsSame(t, tracked, a, b)
    ensures FieldsSame(t, tracked, a, Decoded(b))
    decreases t, 0
  {
    forall i | 0 <= i < |t.fields| ensures SlotSame(t.fields[i], tracked, a.fs[i], Decoded(b).fs[i]) {
      var f := t.fields[i];
      assert SlotSame(f, tracked, a.fs[i], b.fs[i]) && Printable(a.fs[i]);
      if Skipped(f, tracked) {
      } else if f.Promotes() {
        FieldsSameDecoded(f.ty, tracked || HasTracked(f.ty), a.fs[i], b.fs[i]);
      } else {
        SameDecoded(f.ty, f.tags.normalized, a.fs[i], b.fs[i]);
      }
    }
  }

  /** From a printable value, what changed is kept exactly if the new value is, as a whole. */
  lemma {:induction false} ExpressedKept(t: Ty, norm: bool, a: Value, b: Value)
    requires HasType(a, t) && HasType(b, t) && Printable(a)
    ensures HasType(Decoded(b), t) && (Expressed(t, a, b) <==> Same(t, norm, Decoded(b), b))
    decreases t, 1
  {
    DecodedTyped(b, t);
    match t
    case Struct(_) => FieldsExpressedKept(t, HasTracked(t), a, b);
    case Ptr(e) =>
      if a.Ref? && b.Ref? && e.Struct? {
        DecodedTyped(b.target, e);
        FieldsExpressedKept(e, HasTracked(e), a.target, b.target);
      } else if a.Ref? && b.Ref? {
        DecodedPrintable(a);
      }
    case _ =>
  }

  lemma {:induction false} FieldsExpressedKept(t: Ty, tracked: bool, a: Value, b: Value)
    requires t.Struct? && HasType(a, t) && HasType(b, t) && HasType(Decoded(b), t) && Printable(a)
    ensures FieldsExpressed(t, tracked, a, b) <==> FieldsSame(t, tracked, Decoded(b), b)
    decreases t, 0
  {
    forall i | 0 <= i < |t.fields|
      ensures SlotExpressed(t.fields[i], tracked, a.fs[i], b.fs[i]) <==>
              SlotSame(t.fields[i], tracked, Decoded(b).fs[i], b.fs[i])
    {
      var f := t.fields[i];
      assert Printable(a.fs[i]);
      if Skipped(f, tracked) {
      } else if f.Promotes() {
        FieldsExpressedKept(f.ty, tracked || HasTracked(f.ty), a.fs[i], b.fs[i]);
      } else {
        ExpressedKept(f.ty, f.tags.normalized, a.fs[i], b.fs[i]);
      }
    }
  }

  // ----- Merging -----

  /** Merging into a printable value gives one. */
  lemma {:induction false} MergePrintable(t: Ty, norm: bool, x: Value, b: Value)
    requires HasType(x, t) && HasType(b, t) && Printable(x)
    ensures Printable(MergeIn(t, norm, x, b))
    decreases t, 1
  {
    match t
    case Struct(_) => FieldsMergePrintable(t, HasTracked(t), x, b);
    case Ptr(e) =>
      DecodedIsPrintable(b);
      if x.Ref? && b.Ref? && e.Struct? { FieldsMergePrintable(e, HasTracked(e), x.target, b.target); }
    case _ =>
  }

  lemma {:induction false} FieldsMergePrintable(t: Ty, tracked: bool, x: Value, b: Value)
    requires t.Struct? && HasType(x, t) && HasType(b, t) && Printable(x)
    ensures Printable(MergeFields(t, tracked, x, b))
    decreases t, 0
  {
    forall i | 0 <= i < |t.fields| ensures Printable(MergeFields(t, tracked, x, b).fs[i]) {
      var f := t.fields[i];
      assert Printable(x.fs[i]);
      if Skipped(f, tracked) {
      } else if f.Promotes() {
        FieldsMergePrintable(f.ty, tracked || HasTracked(f.ty), x.fs[i], b.fs[i]);
      } else {
        MergePrintable(f.ty, f.tags.normalized, x.fs[i], b.fs[i]);
      }
    }
  }

  // ----- Applying -----

  /** Two values with the same JSON. */
  predicate Alike(x: Value, y: Value) {
    Decoded(x) == Decoded(y)
  }

  lemma AlikeNull(t: Ty, x: Value, y: Value)
    requires HasType(x, t) && HasType(y, t) && Alike(x, y)
    ensures PrintsNull(x) <==> PrintsNull(y)
  {
    DecodedIsPrintable(x);
    DecodedIsPrintable(y);
  }

  lemma AlikeRef(t: Ty, x: Value, y: Value)
    requires HasType(x, t) && HasType(y, t) && Alike(x, y)
    ensures Alike(Ref(x), Ref(y))
  {
    AlikeNull(t, x, y);
  }

  /** What a change is applied to behind a pointer. */
  function Pointee(t: Ty, v: Value): (w: Value)
    requires t.Ptr? && HasType(v, t)
    ensures HasType(w, t.elem)
  {
    if v.Nil? then Zero(t.elem) else v.target
  }

  lemma NullAlike(t: Ty, w: Value)
    requires HasType(w, t) && PrintsNull(w)
    ensures Alike(Zero(t), w)
  {
  }

  lemma PointeeAlike(t: Ty, x: Value, y: Value)
    requires t.Ptr? && HasType(x, t) && HasType(y, t) && Alike(x, y)
    ensures Alike(Pointee(t, x), Pointee(t, y))
  {
    if x.Nil? && y.Ref? { NullAlike(t.elem, y.target); }
    if y.Nil? && x.Ref? { NullAlike(t.elem, x.target); }
    if x.Ref? && y.Ref? && PrintsNull(x.target) {
      NullAlike(t.elem, x.target);
      NullAlike(t.elem, y.target);
    }
  }

  ghost predicate BothAlike(r: Result<Value, Fault>, s: Result<Value, Fault>) {
    (r.Ok? <==> s.Ok?) && (r.Ok? ==> Alike(r.value, s.value))
  }

  /** Applying a change to values with the same JSON gives values with the same JSON. */
  lemma {:induction false} ApplyAlike(t: Ty, x: Value, y: Value, path: seq<string>, after: Option<Value>)
    requires HasType(x, t) && HasType(y, t) && Alike(x, y)
    ensures BothAlike(ApplyIn(t, x, path, after), ApplyIn(t, y, path, after))
    decreases t, 1, 0
  {
    if path != [] {
      match t
      case Ptr(e) =>
        PointeeAlike(t, x, y);
        ApplyAlike(e, Pointee(t, x), Pointee(t, y), path, after);
        var r, s := ApplyIn(e, Pointee(t, x), path, after), ApplyIn(e, Pointee(t, y), path, after);
        if r.Ok? { AlikeRef(e, r.value, s.value); }
      case Struct(_) =>
        var idx := Resolve(t, path[0]);
        if idx.Some? { ApplyAtAlike(t, x, y, idx.value, path[1..], after); }
      case _ =>
    }
  }

  lemma {:induction false} ApplyAtAlike(t: Ty, x: Value, y: Value, idx: seq<nat>, path: seq<string>,
      after: Option<Value>)
    requires HasType(x, t) && HasType(y, t) && IsIndex(t, idx) && Alike(x, y)
    ensures BothAlike(ApplyAt(t, x, idx, path, after), ApplyAt(t, y, idx, path, after))
    decreases t, 0, |idx|
  {
    var i := idx[0];
    var ft := t.fields[i].ty;
    assert Decoded(x).fs[i] == Decoded(x.fs[i]) && Decoded(y).fs[i] == Decoded(y.fs[i]);
    if |idx| == 1 {
      ApplyAlike(ft, x.fs[i], y.fs[i], path, after);
      FieldAlike(t, x, y, i, ApplyIn(ft, x.fs[i], path, after), ApplyIn(ft, y.fs[i], path, after));
    } else if ft.Struct? {
      ApplyAtAlike(ft, x.fs[i], y.fs[i], idx[1..], path, after);
      FieldAlike(t, x, y, i, ApplyAt(ft, x.fs[i], idx[1..], path, after), ApplyAt(ft, y.fs[i], idx[1..], path, after));
    } else {
      assert Promoted(t.fields[i]) == Some(ft.elem) && HasType(x.fs[i], ft) && HasType(y.fs[i], ft);
      StructPointers(ft, x.fs[i], y.fs[i]);
      if x.fs[i].Ref? { EmbeddedAlike(t, x, y, idx, path, after); }
    }
  }

  lemma StructPointers(t: Ty, x: Value, y: Value)
    requires t.Ptr? && t.elem.Struct? && HasType(x, t) && HasType(y, t) && Alike(x, y)
    ensures x.Ref? <==> y.Ref?
  {
    assert x.Ref? ==> x.target.Rec?;
    assert y.Ref? ==> y.target.Rec?;
  }

  lemma {:induction false} EmbeddedAlike(t: Ty, x: Value, y: Value, idx: seq<nat>, path: seq<string>,
      after: Option<Value>)
    requires HasType(x, t) && HasType(y, t) && IsIndex(t, idx) && |idx| > 1 && t.fields[idx[0]].ty.Ptr?
    requires x.fs[idx[0]].Ref? && y.fs[idx[0]].Ref? && Alike(x, y) && Alike(x.fs[idx[0]], y.fs[idx[0]])
    ensures BothAlike(ApplyAt(t, x, idx, path, after), ApplyAt(t, y, idx, path, after))
    decreases t, 0, |idx| - 1
  {
    var i := idx[0];
    var e := t.fields[i].ty.elem;
    var u, v := x.fs[i].target, y.fs[i].target;
    ApplyAtAlike(e, u, v, idx[1..], path, after);
    var r, s := ApplyAt(e, u, idx[1..], path, after), ApplyAt(e, v, idx[1..], path, after);
    if r.Ok? {
      AlikeRef(e, r.value, s.value);
      FieldAlike(t, x, y, i, Ok(Ref(r.value)), Ok(Ref(s.value)));
    }
  }

  lemma FieldAlike(t: Ty, x: Value, y: Value, i: nat, r: Result<Value, Fault>, s: Result<Value, Fault>)
    requires t.Struct? && HasType(x, t) && HasType(y, t) && Alike(x, y) && i < |t.fields| && BothAlike(r, s)
    ensures r.Ok? ==> Alike(Rec(x.fs[i := r.value]), Rec(y.fs[i := s.value]))
  {
    if r.Ok? {
      var p, q := Rec(x.fs[i := r.value]), Rec(y.fs[i := s.value]);
      forall j | 0 <= j < |t.fields| ensures Decoded(p).fs[j] == Decoded(q).fs[j] {
        assert Decoded(x).fs[j] == Decoded(y).fs[j];
      }
    }
  }

  lemma {:induction false} ApplyAllAlike(t: Ty, x: Value, y: Value, es: seq<Edit>)
    requires HasType(x, t) && HasType(y, t) && Alike(x, y)
    ensures BothAlike(ApplyAll(t, x, es), ApplyAll(t, y, es))
    decreases |es|
  {
    if es != [] {
      ApplyAlike(t, x, y, es[0].path, es[0].after);
      var r, s := ApplyIn(t, x, es[0].path, es[0].after), ApplyIn(t, y, es[0].path, es[0].after);
      if r.Ok? { ApplyAllAlike(t, r.value, s.value, es[1..]); }
    }
  }
}
