/** The other half of the central law: a change that its printed path cannot locate is lost.
    A change is located if the names on its path lead back to its place and no map key on
    the path holds a dot. */
module Exactness {
  import opened Prelude
  import opened Text
  import opened Entities
  import opened Changes
  import opened Merge
  import opened Paths
  import opened DottedKeys
  import opened Replay
  import Equivalence

  // ----- The fields Diff compares -----

  /** `p` leads through embedded structs to a field that has a path of its own. */
  predicate Slot(t: Ty, tracked: bool, p: seq<nat>)
    decreases p
  {
    && t.Struct? && p != [] && p[0] < |t.fields| && !Skipped(t.fields[p[0]], tracked)
    && var f := t.fields[p[0]];
       if |p| == 1 then !f.Promotes() else f.Promotes() && Slot(f.ty, tracked || HasTracked(f.ty), p[1..])
  }

  lemma {:induction false} SlotWalks(t: Ty, tracked: bool, p: seq<nat>)
    requires Slot(t, tracked, p)
    ensures Walk(t, p) && IsIndex(t, p) && TyAt(t, p) == FieldAt(t, p).ty && !FieldAt(t, p).Promotes()
    decreases p
  {
    if |p| > 1 { SlotWalks(t.fields[p[0]].ty, tracked || HasTracked(t.fields[p[0]].ty), p[1..]); }
  }

  /** The field of a slot. */
  function SlotField(t: Ty, tracked: bool, p: seq<nat>): (f: Field)
    requires Slot(t, tracked, p)
    ensures Walk(t, p) && IsIndex(t, p) && f == FieldAt(t, p) && TyAt(t, p) == f.ty && f.ty < t && !f.Promotes()
  {
    SlotWalks(t, tracked, p);
    FieldAt(t, p)
  }

  ghost predicate SlotChanged(t: Ty, tracked: bool, a: Value, b: Value, p: seq<nat>)
    requires Slot(t, tracked, p) && HasType(a, t) && HasType(b, t)
  {
    var f := SlotField(t, tracked, p);
    !Same(f.ty, f.tags.normalized, At(t, a, p), At(t, b, p))
  }

  /** The name of the field leads somewhere else, or nowhere. */
  ghost predicate Hidden(t: Ty, tracked: bool, p: seq<nat>)
    requires Slot(t, tracked, p)
  {
    Resolve(t, SlotField(t, tracked, p).name) != Some(p)
  }

  ghost predicate Separate(p: seq<nat>, q: seq<nat>) {
    !(p <= q) && !(q <= p)
  }

  lemma {:induction false} SlotsSeparate(t: Ty, tracked: bool, p: seq<nat>, q: seq<nat>)
    requires Slot(t, tracked, p) && Slot(t, tracked, q) && p != q
    ensures Separate(p, q)
    decreases p
  {
    assert p == [p[0]] + p[1..] && q == [q[0]] + q[1..];
    if p[0] == q[0] {
      SlotsSeparate(t.fields[p[0]].ty, tracked || HasTracked(t.fields[p[0]].ty), p[1..], q[1..]);
      assert p <= q <==> p[1..] <= q[1..];
      assert q <= p <==> q[1..] <= p[1..];
    }
  }

  lemma {:induction false} SlotSameAt(t: Ty, tracked: bool, a: Value, b: Value, p: seq<nat>)
    requires Slot(t, tracked, p) && HasType(a, t) && HasType(b, t) && FieldsSame(t, tracked, a, b)
    ensures !SlotChanged(t, tracked, a, b, p)
    decreases p
  {
    var i, f := p[0], t.fields[p[0]];
    assert SlotSame(f, tracked, a.fs[i], b.fs[i]);
    if |p| > 1 {
      SlotSameAt(f.ty, tracked || HasTracked(f.ty), a.fs[i], b.fs[i], p[1..]);
      assert SlotField(t, tracked, p) == SlotField(f.ty, tracked || HasTracked(f.ty), p[1..]);
    } else {
      assert p == [i];
      OwnSlot(t, tracked, a, b, i);
    }
  }

  lemma {:induction false} SlotSupportedAt(t: Ty, tracked: bool, a: Value, b: Value, p: seq<nat>)
    requires Slot(t, tracked, p) && HasType(a, t) && HasType(b, t) && FieldsSupported(t, tracked, a, b)
    ensures Supported(SlotField(t, tracked, p).ty, At(t, a, p), At(t, b, p))
    decreases p
  {
    var i, f := p[0], t.fields[p[0]];
    assert SlotSupported(f, tracked, a.fs[i], b.fs[i]);
    if |p| > 1 {
      SlotSupportedAt(f.ty, tracked || HasTracked(f.ty), a.fs[i], b.fs[i], p[1..]);
      assert SlotField(t, tracked, p) == SlotField(f.ty, tracked || HasTracked(f.ty), p[1..]);
    } else {
      assert p == [i];
      OwnSlot(t, tracked, a, b, i);
    }
  }

  // ----- What locates a change -----

  /** No changed map key holds a dot, anywhere in a compared field. */
  ghost predicate UndottedChanges(t: Ty, a: Value, b: Value)
    requires HasType(a, t) && HasType(b, t)
    decreases t, 1
  {
    match t
    case Map => MapUndotted(a, b)
    case Struct(_) => SlotsUndotted(t, HasTracked(t), a, b)
    case Ptr(e) => e.Struct? && a.Ref? && b.Ref? ==> SlotsUndotted(e, HasTracked(e), a.target, b.target)
    case _ => true
  }

  ghost predicate SlotsUndotted(t: Ty, tracked: bool, a: Value, b: Value)
    requires t.Struct? && HasType(a, t) && HasType(b, t)
    decreases t, 0
  {
    forall i :: 0 <= i < |t.fields| && !Skipped(t.fields[i], tracked) ==>
      var f := t.fields[i];
      if f.Promotes() then SlotsUndotted(f.ty, tracked || HasTracked(f.ty), a.fs[i], b.fs[i])
      else UndottedChanges(f.ty, a.fs[i], b.fs[i])
  }

  /** Every change from `a` to `b` has a path that Apply reads back and resolves to its place. */
  ghost predicate Located(t: Ty, a: Value, b: Value)
    requires HasType(a, t) && HasType(b, t)
  {
    Reached(t, a, b) && UndottedChanges(t, a, b)
  }

  /** And JSON keeps what is set there. */
  ghost predicate Conveyed(t: Ty, a: Value, b: Value)
    requires HasType(a, t) && HasType(b, t)
  {
    Located(t, a, b) && Expressed(t, a, b)
  }

  ghost predicate SlotsLocated(t: Ty, a: Value, b: Value)
    requires t.Struct? && HasType(a, t) && HasType(b, t)
  {
    SlotsReached(t, [], t, HasTracked(t), a, b) && SlotsUndotted(t, HasTracked(t), a, b)
  }

  /** Some slot of a struct that is not located: it is hidden and changed, or not located inside. */
  lemma {:induction false} FindUnreached(h: Ty, at: seq<nat>, t: Ty, tracked: bool, a: Value, b: Value)
    returns (p: seq<nat>)
    requires h.Struct? && t.Struct? && HasType(a, t) && HasType(b, t) && !SlotsReached(h, at, t, tracked, a, b)
    ensures Slot(t, tracked, p)
    ensures var f := SlotField(t, tracked, p);
            (SlotChanged(t, tracked, a, b, p) &&
              Resolve(h, f.name) != Some(at + p)) || !Reached(f.ty, At(t, a, p), At(t, b, p))
    decreases t
  {
    var i: nat :| i < |t.fields| && !Skipped(t.fields[i], tracked) &&
      var f := t.fields[i];
      !(if f.Promotes() then SlotsReached(h, at + [i], f.ty, tracked || HasTracked(f.ty), a.fs[i], b.fs[i])
        else
          && (!Same(f.ty, f.tags.normalized, a.fs[i], b.fs[i]) ==> Resolve(h, f.name) == Some(at + [i]))
          && Reached(f.ty, a.fs[i], b.fs[i]));
    var f := t.fields[i];
    if f.Promotes() {
      var q := FindUnreached(h, at + [i], f.ty, tracked || HasTracked(f.ty), a.fs[i], b.fs[i]);
      p := [i] + q;
      InsideSlot(t, tracked, a, b, i, q);
      assert at + p == at + [i] + q;
    } else {
      p := [i];
      OwnSlot(t, tracked, a, b, i);
    }
  }

  lemma {:induction false} FindDotted(t: Ty, tracked: bool, a: Value, b: Value) returns (p: seq<nat>)
    requires t.Struct? && HasType(a, t) && HasType(b, t) && !SlotsUndotted(t, tracked, a, b)
    ensures Slot(t, tracked, p) && !UndottedChanges(SlotField(t, tracked, p).ty, At(t, a, p), At(t, b, p))
    decreases t
  {
    var i: nat :| i < |t.fields| && !Skipped(t.fields[i], tracked) &&
      var f := t.fields[i];
      !(if f.Promotes() then SlotsUndotted(f.ty, tracked || HasTracked(f.ty), a.fs[i], b.fs[i])
        else UndottedChanges(f.ty, a.fs[i], b.fs[i]));
    var f := t.fields[i];
    if f.Promotes() {
      var q := FindDotted(f.ty, tracked || HasTracked(f.ty), a.fs[i], b.fs[i]);
      p := [i] + q;
      InsideSlot(t, tracked, a, b, i, q);
    } else {
      p := [i];
      OwnSlot(t, tracked, a, b, i);
    }
  }

  /** A slot of an embedded struct is one of the struct around it. */
  lemma InsideSlot(t: Ty, tracked: bool, a: Value, b: Value, i: nat, q: seq<nat>)
    requires t.Struct? && HasType(a, t) && HasType(b, t) && i < |t.fields|
    requires !Skipped(t.fields[i], tracked) && t.fields[i].Promotes()
    requires Slot(t.fields[i].ty, tracked || HasTracked(t.fields[i].ty), q)
    ensures Slot(t, tracked, [i] + q)
    ensures var f, tr := t.fields[i], tracked || HasTracked(t.fields[i].ty);
            && SlotField(t, tracked, [i] + q) == SlotField(f.ty, tr, q)
            && At(t, a, [i] + q) == At(f.ty, a.fs[i], q) && At(t, b, [i] + q) == At(f.ty, b.fs[i], q)
            && (SlotChanged(t, tracked, a, b, [i] + q) <==> SlotChanged(f.ty, tr, a.fs[i], b.fs[i], q))
  {
    assert ([i] + q)[1..] == q && ([i] + q)[0] == i;
  }

  lemma OwnSlot(t: Ty, tracked: bool, a: Value, b: Value, i: nat)
    requires t.Struct? && HasType(a, t) && HasType(b, t) && i < |t.fields|
    requires !Skipped(t.fields[i], tracked) && !t.fields[i].Promotes()
    ensures Slot(t, tracked, [i]) && SlotField(t, tracked, [i]) == t.fields[i]
    ensures At(t, a, [i]) == a.fs[i] && At(t, b, [i]) == b.fs[i]
    ensures SlotChanged(t, tracked, a, b, [i]) <==> !Same(t.fields[i].ty, t.fields[i].tags.normalized, a.fs[i], b.fs[i])
  {
    assert [i][1..] == [];
  }

  // ----- Where the changes of a struct come from -----

  /** Values that are never null and never decoded into a struct. */
  predicate Solid(v: Value) {
    v.Atom? || v.Instant? || v.Elems?
  }

  /** Fields of this type are set as a whole, here to something solid. */
  predicate SetWhole(t: Ty, b: Value) {
    (t.Leaf? || t.Time? || t.Slice?) && Solid(b)
  }

  /** The change belongs to this slot: it starts with its name, and the slot did change. */
  ghost predicate Owns(t: Ty, tracked: bool, a: Value, b: Value, q: seq<nat>, e: Edit)
    requires t.Struct? && HasType(a, t) && HasType(b, t)
  {
    && Slot(t, tracked, q) && SlotChanged(t, tracked, a, b, q)
    && e.path != [] && e.path[0] == SlotField(t, tracked, q).name
    && (SetWhole(SlotField(t, tracked, q).ty, At(t, b, q)) ==> |e.path| == 1 && e.after.Some? && Solid(e.after.value))
  }

  lemma {:induction false} Owner(t: Ty, tracked: bool, a: Value, b: Value, i: nat, e: Edit) returns (q: seq<nat>)
    requires t.Struct? && HasType(a, t) && HasType(b, t) && i <= |t.fields| && FieldsSupported(t, tracked, a, b)
    requires e in StructEdits(t, tracked, a, b, i)
    ensures Owns(t, tracked, a, b, q, e) && q[0] >= i
    decreases t, |t.fields| - i, 1
  {
    if e in SlotEdits(t.fields[i], tracked, a.fs[i], b.fs[i]) {
      q := OwnerHere(t, tracked, a, b, i, e);
    } else {
      q := Owner(t, tracked, a, b, i + 1, e);
    }
  }

  lemma {:induction false} OwnerHere(t: Ty, tracked: bool, a: Value, b: Value, i: nat, e: Edit) returns (q: seq<nat>)
    requires t.Struct? && HasType(a, t) && HasType(b, t) && i < |t.fields| && FieldsSupported(t, tracked, a, b)
    requires e in SlotEdits(t.fields[i], tracked, a.fs[i], b.fs[i])
    ensures Owns(t, tracked, a, b, q, e) && q[0] == i
    decreases t, |t.fields| - i, 0
  {
    var f := t.fields[i];
    assert SlotSupported(f, tracked, a.fs[i], b.fs[i]);
    if f.Promotes() {
      var q' := Owner(f.ty, tracked || HasTracked(f.ty), a.fs[i], b.fs[i], 0, e);
      q := [i] + q';
      InsideSlot(t, tracked, a, b, i, q');
    } else {
      q := [i];
      OwnSlot(t, tracked, a, b, i);
      NamedOwns(f, a.fs[i], b.fs[i], e);
    }
  }

  lemma NamedOwns(f: Field, a: Value, b: Value, e: Edit)
    requires HasType(a, f.ty) && HasType(b, f.ty) && Supported(f.ty, a, b)
    requires e in Under(f.name, FieldEdits(f.ty, f.tags.normalized, a, b))
    ensures !Same(f.ty, f.tags.normalized, a, b) && e.path != [] && e.path[0] == f.name
    ensures SetWhole(f.ty, b) ==> |e.path| == 1 && e.after.Some? && Solid(e.after.value)
  {
    Equivalence.EmptyIffSame(f.ty, f.tags.normalized, a, b);
    var es := FieldEdits(f.ty, f.tags.normalized, a, b);
    var k: nat :| k < |es| && Under(f.name, es)[k] == e;
  }

  /** Each of these changes belongs to a slot other than `p`. */
  ghost predicate FromOthers(t: Ty, tracked: bool, a: Value, b: Value, es: seq<Edit>, p: seq<nat>)
    requires t.Struct? && HasType(a, t) && HasType(b, t)
  {
    forall e :: e in es ==> exists q :: Owns(t, tracked, a, b, q, e) && q != p
  }

  lemma LaterFields(t: Ty, tracked: bool, a: Value, b: Value, i: nat, p: seq<nat>)
    requires t.Struct? && HasType(a, t) && HasType(b, t) && i <= |t.fields| && FieldsSupported(t, tracked, a, b)
    requires p != [] && p[0] < i
    ensures FromOthers(t, tracked, a, b, StructEdits(t, tracked, a, b, i), p)
  {
    forall e | e in StructEdits(t, tracked, a, b, i) ensures exists q :: Owns(t, tracked, a, b, q, e) && q != p {
      var q := Owner(t, tracked, a, b, i, e);
    }
  }

  lemma OtherField(t: Ty, tracked: bool, a: Value, b: Value, i: nat, p: seq<nat>)
    requires t.Struct? && HasType(a, t) && HasType(b, t) && i < |t.fields| && FieldsSupported(t, tracked, a, b)
    requires p != [] && p[0] != i
    ensures FromOthers(t, tracked, a, b, SlotEdits(t.fields[i], tracked, a.fs[i], b.fs[i]), p)
  {
    forall e | e in SlotEdits(t.fields[i], tracked, a.fs[i], b.fs[i])
      ensures exists q :: Owns(t, tracked, a, b, q, e) && q != p
    {
      var q := OwnerHere(t, tracked, a, b, i, e);
    }
  }

  lemma Deeper(t: Ty, tracked: bool, a: Value, b: Value, i: nat, p: seq<nat>, es: seq<Edit>)
    requires t.Struct? && HasType(a, t) && HasType(b, t) && i < |t.fields|
    requires !Skipped(t.fields[i], tracked) && t.fields[i].Promotes()
    requires FromOthers(t.fields[i].ty, tracked || HasTracked(t.fields[i].ty), a.fs[i], b.fs[i], es, p)
    ensures FromOthers(t, tracked, a, b, es, [i] + p)
  {
    var f := t.fields[i];
    forall e | e in es ensures exists q :: Owns(t, tracked, a, b, q, e) && q != [i] + p {
      var q :| Owns(f.ty, tracked || HasTracked(f.ty), a.fs[i], b.fs[i], q, e) && q != p;
      InsideSlot(t, tracked, a, b, i, q);
      assert ([i] + q)[1..] == q && ([i] + p)[1..] == p;
      assert Owns(t, tracked, a, b, [i] + q, e);
    }
  }

  /** `es` is the list of changes of one slot, with changes of other slots around it. */
  ghost predicate Splits(t: Ty, tracked: bool, a: Value, b: Value, p: seq<nat>, es: seq<Edit>, pre: seq<Edit>,
      post: seq<Edit>)
    requires t.Struct? && HasType(a, t) && HasType(b, t) && Slot(t, tracked, p)
  {
    var f := SlotField(t, tracked, p);
    && es == pre + Under(f.name, FieldEdits(f.ty, f.tags.normalized, At(t, a, p), At(t, b, p))) + post
    && FromOthers(t, tracked, a, b, pre, p) && FromOthers(t, tracked, a, b, post, p)
  }

  lemma {:induction false} SplitAtSlot(t: Ty, tracked: bool, a: Value, b: Value, i: nat, p: seq<nat>)
    returns (pre: seq<Edit>, post: seq<Edit>)
    requires t.Struct? && HasType(a, t) && HasType(b, t) && FieldsSupported(t, tracked, a, b)
    requires Slot(t, tracked, p) && i <= p[0]
    ensures Splits(t, tracked, a, b, p, StructEdits(t, tracked, a, b, i), pre, post)
    decreases t, |t.fields| - i, 1
  {
    if i < p[0] {
      pre, post := SplitAtSlot(t, tracked, a, b, i + 1, p);
      OtherField(t, tracked, a, b, i, p);
      var here := SlotEdits(t.fields[i], tracked, a.fs[i], b.fs[i]);
      Prepended(t, tracked, a, b, p, here, StructEdits(t, tracked, a, b, i + 1), pre, post);
      pre := here + pre;
    } else if |p| == 1 {
      LaterFields(t, tracked, a, b, i + 1, p);
      assert p == [i];
      OwnSlot(t, tracked, a, b, i);
      pre, post := [], StructEdits(t, tracked, a, b, i + 1);
      var here := SlotEdits(t.fields[i], tracked, a.fs[i], b.fs[i]);
      assert [] + here == here;
    } else {
      pre, post := SplitInside(t, tracked, a, b, i, p);
    }
  }

  lemma Prepended(t: Ty, tracked: bool, a: Value, b: Value, p: seq<nat>, ds: seq<Edit>, es: seq<Edit>, pre: seq<Edit>,
      post: seq<Edit>)
    requires t.Struct? && HasType(a, t) && HasType(b, t) && Slot(t, tracked, p)
    requires Splits(t, tracked, a, b, p, es, pre, post) && FromOthers(t, tracked, a, b, ds, p)
    ensures Splits(t, tracked, a, b, p, ds + es, ds + pre, post)
  {
    var f := SlotField(t, tracked, p);
    var own := Under(f.name, FieldEdits(f.ty, f.tags.normalized, At(t, a, p), At(t, b, p)));
    assert ds + (pre + own + post) == ds + pre + own + post;
  }

  lemma {:induction false} SplitInside(t: Ty, tracked: bool, a: Value, b: Value, i: nat, p: seq<nat>)
    returns (pre: seq<Edit>, post: seq<Edit>)
    requires t.Struct? && HasType(a, t) && HasType(b, t) && FieldsSupported(t, tracked, a, b)
    requires Slot(t, tracked, p) && i == p[0] && |p| > 1
    ensures Splits(t, tracked, a, b, p, StructEdits(t, tracked, a, b, i), pre, post)
    decreases t, |t.fields| - i, 0
  {
    var f := t.fields[i];
    assert SlotSupported(f, tracked, a.fs[i], b.fs[i]);
    var pre', post' := SplitAtSlot(f.ty, tracked || HasTracked(f.ty), a.fs[i], b.fs[i], 0, p[1..]);
    WidenSplit(t, tracked, a, b, i, p[1..], pre', post');
    assert [i] + p[1..] == p;
    var rest := StructEdits(t, tracked, a, b, i + 1);
    pre, post := pre', post' + rest;
    var own := Under(SlotField(t, tracked, p).name,
                     FieldEdits(TyAt(t, p), SlotField(t, tracked, p).tags.normalized, At(t, a, p), At(t, b, p)));
    assert pre' + own + post' + rest == pre' + own + (post' + rest);
  }

  lemma WidenSplit(t: Ty, tracked: bool, a: Value, b: Value, i: nat, p: seq<nat>, pre: seq<Edit>, post: seq<Edit>)
    requires t.Struct? && HasType(a, t) && HasType(b, t) && i < |t.fields| && FieldsSupported(t, tracked, a, b)
    requires !Skipped(t.fields[i], tracked) && t.fields[i].Promotes()
    requires Slot(t.fields[i].ty, tracked || HasTracked(t.fields[i].ty), p)
    requires FromOthers(t.fields[i].ty, tracked || HasTracked(t.fields[i].ty), a.fs[i], b.fs[i], pre, p)
    requires FromOthers(t.fields[i].ty, tracked || HasTracked(t.fields[i].ty), a.fs[i], b.fs[i], post, p)
    ensures Slot(t, tracked, [i] + p)
    ensures var f, tr := t.fields[i], tracked || HasTracked(t.fields[i].ty);
            && SlotField(t, tracked, [i] + p) == SlotField(f.ty, tr, p)
            && At(t, a, [i] + p) == At(f.ty, a.fs[i], p) && At(t, b, [i] + p) == At(f.ty, b.fs[i], p)
    ensures FromOthers(t, tracked, a, b, pre, [i] + p)
    ensures FromOthers(t, tracked, a, b, post + StructEdits(t, tracked, a, b, i + 1), [i] + p)
  {
    InsideSlot(t, tracked, a, b, i, p);
    Deeper(t, tracked, a, b, i, p, pre);
    Deeper(t, tracked, a, b, i, p, post);
    LaterFields(t, tracked, a, b, i + 1, [i] + p);
  }

  // ----- Changes that land elsewhere -----

  /** A change at one place of a struct leaves a place apart from it alone. */
  lemma {:induction false} ElsewhereAt(t: Ty, v: Value, idx: seq<nat>, path: seq<string>, after: Option<Value>,
      p: seq<nat>)
    requires HasType(v, t) && IsIndex(t, idx) && Walk(t, p) && Separate(idx, p) && ApplyAt(t, v, idx, path, after).Ok?
    ensures At(t, ApplyAt(t, v, idx, path, after).value, p) == At(t, v, p)
    decreases idx
  {
    var i := idx[0];
    assert HasType(v.fs[i], t.fields[i].ty) && p != [];
    if p[0] == i {
      assert idx == [i] + idx[1..] && p == [i] + p[1..];
      assert Separate(idx[1..], p[1..]);
      assert t.fields[i].ty.Struct?;
      ElsewhereAt(t.fields[i].ty, v.fs[i], idx[1..], path, after, p[1..]);
    }
  }

  /** What is solid cannot be decoded into a struct. */
  lemma {:induction false} LeafIntoStruct(t: Ty, v: Value, idx: seq<nat>, j: Value)
    requires HasType(v, t) && IsIndex(t, idx) && FieldAt(t, idx).ty.Struct? && Solid(j)
    ensures ApplyAt(t, v, idx, [], Some(j)).Err?
    decreases idx
  {
    var i, ft := idx[0], t.fields[idx[0]].ty;
    assert HasType(v.fs[i], ft);
    if |idx| > 1 {
      if ft.Struct? {
        LeafIntoStruct(ft, v.fs[i], idx[1..], j);
      } else if v.fs[i].Ref? {
        LeafIntoStruct(ft.elem, v.fs[i].target, idx[1..], j);
      }
    }
  }

  /** The change cannot touch what is at `p`: it fails, or lands apart from it. */
  ghost predicate Spares(h: Ty, e: Edit, p: seq<nat>)
    requires h.Struct?
  {
    e.path != [] &&
    match Resolve(h, e.path[0])
    case None => true
    case Some(q) =>
      || Separate(q, p)
      || (|e.path| == 1 && e.after.Some? && Solid(e.after.value) && FieldAt(h, q).ty.Struct?)
  }

  lemma {:induction false} SparedStays(h: Ty, v: Value, es: seq<Edit>, p: seq<nat>)
    requires h.Struct? && HasType(v, h) && Walk(h, p) && (forall e :: e in es ==> Spares(h, e, p))
    requires ApplyAll(h, v, es).Ok?
    ensures At(h, ApplyAll(h, v, es).value, p) == At(h, v, p)
    decreases |es|
  {
    if es != [] {
      var e := es[0];
      assert e in es && Spares(h, e, p);
      var q := Resolve(h, e.path[0]).value;
      if |e.path| == 1 && e.after.Some? && Solid(e.after.value) && FieldAt(h, q).ty.Struct? {
        assert e.path[1..] == [];
        LeafIntoStruct(h, v, q, e.after.value);
      }
      ElsewhereAt(h, v, q, e.path[1..], e.after, p);
      SparedStays(h, ApplyIn(h, v, e.path, e.after).value, es[1..], p);
    }
  }

  // ----- Changes that leave hidden fields alone -----

  /** The name of slot `q` does not lead to, into or around slot `p`, or what it carries there fails. */
  ghost predicate NameSpares(h: Ty, tracked: bool, b: Value, q: seq<nat>, p: seq<nat>)
    requires h.Struct? && HasType(b, h) && Slot(h, tracked, q)
  {
    match Resolve(h, SlotField(h, tracked, q).name)
    case None => true
    case Some(r) =>
      Separate(r, p) || (SetWhole(SlotField(h, tracked, q).ty, At(h, b, q)) && FieldAt(h, r).ty.Struct?)
  }

  ghost predicate ChangedAt(h: Ty, a: Value, b: Value, p: seq<nat>) {
    h.Struct? && HasType(a, h) && HasType(b, h) && Slot(h, HasTracked(h), p) && SlotChanged(h, HasTracked(h), a, b, p)
  }

  /** The field at `p` changed, and its name does not lead to it. */
  ghost predicate HiddenChange(h: Ty, a: Value, b: Value, p: seq<nat>) {
    ChangedAt(h, a, b, p) && Hidden(h, HasTracked(h), p)
  }

  ghost predicate SlotsUndisturbed(h: Ty, a: Value, b: Value)
    requires h.Struct? && HasType(a, h) && HasType(b, h)
    decreases h, 0
  {
    && (forall p, q :: HiddenChange(h, a, b, p) && ChangedAt(h, a, b, q) ==> NameSpares(h, HasTracked(h), b, q, p))
    && (forall p :: Slot(h, HasTracked(h), p) ==>
      Undisturbed(SlotField(h, HasTracked(h), p).ty, At(h, a, p), At(h, b, p)))
  }

  /** No change carries into a changed field that is hidden: no name of a changed field leads
      to, into or around it. So it is in every type without hidden fields, and in those whose
      embedded structs bear names of their own. */
  ghost predicate Undisturbed(t: Ty, a: Value, b: Value)
    requires HasType(a, t) && HasType(b, t)
    decreases t, 1
  {
    match t
    case Struct(_) => SlotsUndisturbed(t, a, b)
    case Ptr(e) => e.Struct? && a.Ref? && b.Ref? ==> SlotsUndisturbed(e, a.target, b.target)
    case _ => true
  }

  /** A change read back starts with the same name, and a change of a leaf stays that. */
  lemma RereadOwned(t: Ty, tracked: bool, a: Value, b: Value, q: seq<nat>, e: Edit)
    requires t.Struct? && HasType(a, t) && HasType(b, t) && Owns(t, tracked, a, b, q, e)
    ensures var e' := RereadEdit(e);
            && e'.path != [] && e'.path[0] == e.path[0] && e'.after == e.after && (|e.path| == 1 ==> |e'.path| == 1)
  {
    assert e.path == [e.path[0]] + e.path[1..];
    RereadFirst(e.path[0], e.path[1..]);
  }

  lemma OwnedSpares(h: Ty, a: Value, b: Value, q: seq<nat>, e: Edit, p: seq<nat>)
    requires h.Struct? && HasType(a, h) && HasType(b, h) && Owns(h, HasTracked(h), a, b, q, e)
    requires NameSpares(h, HasTracked(h), b, q, p)
    ensures Spares(h, RereadEdit(e), p)
  {
    RereadOwned(h, HasTracked(h), a, b, q, e);
  }

  // ----- What is not located is lost -----

  /** The changes from `a` to `b` lead from `x` to `w`. */
  ghost predicate LeadsTo(h: Ty, x: Value, a: Value, b: Value, w: Value) {
    && h.Struct? && HasType(x, h) && HasType(a, h) && HasType(b, h) && HasType(w, h) &&
      FieldsSupported(h, HasTracked(h), a, b)
    && ApplyAll(h, x, RereadAll(StructEdits(h, HasTracked(h), a, b, 0))) == Ok(w)
  }

  /** A changed field that is hidden keeps its old value. */
  lemma HiddenKept(h: Ty, x: Value, a: Value, b: Value, p: seq<nat>, w: Value)
    requires LeadsTo(h, x, a, b, w) && SlotsUndisturbed(h, a, b) && HiddenChange(h, a, b, p)
    ensures At(h, w, p) == At(h, x, p)
  {
    var es := StructEdits(h, HasTracked(h), a, b, 0);
    forall e' | e' in RereadAll(es) ensures Spares(h, e', p) {
      var k: nat :| k < |es| && RereadAll(es)[k] == e';
      ChangeSpares(h, a, b, es[k], p);
    }
    SparedStays(h, x, RereadAll(es), p);
  }

  lemma ChangeSpares(h: Ty, a: Value, b: Value, e: Edit, p: seq<nat>)
    requires h.Struct? && HasType(a, h) && HasType(b, h) && FieldsSupported(h, HasTracked(h), a, b)
    requires SlotsUndisturbed(h, a, b) && HiddenChange(h, a, b, p) && e in StructEdits(h, HasTracked(h), a, b, 0)
    ensures Spares(h, RereadEdit(e), p)
  {
    var q := Owner(h, HasTracked(h), a, b, 0, e);
    assert ChangedAt(h, a, b, q);
    OwnedSpares(h, a, b, q, e, p);
  }

  /** What is judged: the result or, if it started from a printable value, what JSON gives
      back of it. */
  ghost predicate Shows(x: Value, w: Value, w': Value) {
    w' == w || (Printable(x) && w' == Decoded(w))
  }

  lemma {:induction false} ShownAt(h: Ty, x: Value, w: Value, w': Value, p: seq<nat>)
    requires HasType(x, h) && HasType(w, h) && HasType(w', h) && Walk(h, p) && Shows(x, w, w')
    ensures Shows(At(h, x, p), At(h, w, p), At(h, w', p))
    decreases p
  {
    if p != [] { ShownAt(h.fields[p[0]].ty, x.fs[p[0]], w.fs[p[0]], w'.fs[p[0]], p[1..]); }
  }

  /** Old value and new value differ, so a slot that keeps something equivalent to the old one is wrong. */
  lemma KeptIsWrong(h: Ty, x: Value, a: Value, b: Value, p: seq<nat>, w: Value, w': Value)
    requires h.Struct? && HasType(x, h) && HasType(a, h) && HasType(b, h) && HasType(w, h) && HasType(w', h)
    requires FieldsSame(h, HasTracked(h), x, a) && Slot(h, HasTracked(h), p) && SlotChanged(h, HasTracked(h), a, b, p)
    requires At(h, w, p) == At(h, x, p) && Shows(x, w, w')
    ensures !FieldsSame(h, HasTracked(h), w', b)
  {
    var f := SlotField(h, HasTracked(h), p);
    SlotSameAt(h, HasTracked(h), x, a, p);
    ShownAt(h, x, w, w', p);
    DecodedPrintable(At(h, x, p));
    if FieldsSame(h, HasTracked(h), w', b) {
      SlotSameAt(h, HasTracked(h), w', b, p);
      Equivalence.SameEuclidean(f.ty, f.tags.normalized, At(h, x, p), At(h, a, p), At(h, b, p));
    }
  }

  /** Every changed slot is found by its name. */
  ghost predicate NoneHidden(h: Ty, a: Value, b: Value)
    requires h.Struct? && HasType(a, h) && HasType(b, h)
  {
    forall q :: !HiddenChange(h, a, b, q)
  }

  lemma FoundSpares(h: Ty, a: Value, b: Value, q: seq<nat>, e: Edit, p: seq<nat>)
    requires h.Struct? && HasType(a, h) && HasType(b, h) && Owns(h, HasTracked(h), a, b, q, e)
    requires !HiddenChange(h, a, b, q)
    requires Slot(h, HasTracked(h), p) && q != p
    ensures Spares(h, RereadEdit(e), p)
  {
    SlotsSeparate(h, HasTracked(h), q, p);
    OwnedSpares(h, a, b, q, e, p);
  }

  lemma OthersSpare(h: Ty, a: Value, b: Value, es: seq<Edit>, p: seq<nat>)
    requires h.Struct? && HasType(a, h) && HasType(b, h) && NoneHidden(h, a, b)
    requires Slot(h, HasTracked(h), p) && FromOthers(h, HasTracked(h), a, b, es, p)
    ensures forall e' :: e' in RereadAll(es) ==> Spares(h, e', p)
  {
    forall e' | e' in RereadAll(es) ensures Spares(h, e', p) {
      var k: nat :| k < |es| && RereadAll(es)[k] == e';
      assert es[k] in es;
      var q :| Owns(h, HasTracked(h), a, b, q, es[k]) && q != p;
      FoundSpares(h, a, b, q, es[k], p);
    }
  }

  /** The changes of one slot, as Apply reads them. */
  ghost function OwnEdits(h: Ty, a: Value, b: Value, p: seq<nat>): seq<Edit>
    requires h.Struct? && HasType(a, h) && HasType(b, h) && Slot(h, HasTracked(h), p)
  {
    var f := SlotField(h, HasTracked(h), p);
    RereadAll(FieldEdits(f.ty, f.tags.normalized, At(h, a, p), At(h, b, p)))
  }

  /** The final value of a slot found by its name is what its own changes make of it. */
  lemma OwnChanges(h: Ty, x: Value, a: Value, b: Value, p: seq<nat>, w: Value)
    requires LeadsTo(h, x, a, b, w) && NoneHidden(h, a, b) && ChangedAt(h, a, b, p)
    ensures ApplyAll(TyAt(h, p), At(h, x, p), OwnEdits(h, a, b, p)) == Ok(At(h, w, p))
  {
    assert !HiddenChange(h, a, b, p);
    var f := SlotField(h, HasTracked(h), p);
    var pre, post := SplitAtSlot(h, HasTracked(h), a, b, 0, p);
    var own := FieldEdits(f.ty, f.tags.normalized, At(h, a, p), At(h, b, p));
    OthersSpare(h, a, b, pre, p);
    OthersSpare(h, a, b, post, p);
    RereadConcat(pre + Under(f.name, own), post);
    RereadConcat(pre, Under(f.name, own));
    RereadUnder(f.name, own);
    ThroughSlot(h, x, f.name, p, RereadAll(pre), RereadAll(own), RereadAll(post), w);
  }

  lemma ThroughSlot(h: Ty, x: Value, name: string, p: seq<nat>, ps: seq<Edit>, own: seq<Edit>, qs: seq<Edit>, w: Value)
    requires h.Struct? && HasType(x, h) && Walk(h, p) && Resolve(h, name) == Some(p)
    requires (forall e :: e in ps ==> Spares(h, e, p)) && (forall e :: e in qs ==> Spares(h, e, p))
    requires ApplyAll(h, x, ps + Under(name, own) + qs) == Ok(w)
    ensures ApplyAll(TyAt(h, p), At(h, x, p), own) == Ok(At(h, w, p))
  {
    ApplyAllConcat(h, x, ps + Under(name, own), qs);
    ApplyAllConcat(h, x, ps, Under(name, own));
    var w1 := ApplyAll(h, x, ps).value;
    SparedStays(h, x, ps, p);
    LiftField(h, w1, name, p, own);
    var y := ApplyAll(TyAt(h, p), At(h, w1, p), own).value;
    PutLaws(h, w1, p, y, y);
    SparedStays(h, Put(h, w1, p, y), qs, p);
  }

  /** A field without changes is located. */
  lemma {:induction false} UnchangedLocated(t: Ty, norm: bool, a: Value, b: Value)
    requires HasType(a, t) && HasType(b, t) && Same(t, norm, a, b)
    ensures Located(t, a, b)
    decreases t, 1
  {
    match t
    case Struct(_) => SlotsUnchanged(t, [], t, HasTracked(t), a, b);
    case Ptr(e) => if e.Struct? && a.Ref? && b.Ref? { SlotsUnchanged(e, [], e, HasTracked(e), a.target, b.target); }
    case _ =>
  }

  lemma {:induction false} SlotsUnchanged(h: Ty, at: seq<nat>, t: Ty, tracked: bool, a: Value, b: Value)
    requires h.Struct? && t.Struct? && HasType(a, t) && HasType(b, t) && FieldsSame(t, tracked, a, b)
    ensures SlotsReached(h, at, t, tracked, a, b) && SlotsUndotted(t, tracked, a, b)
    decreases t, 0
  {
    forall i | 0 <= i < |t.fields| && !Skipped(t.fields[i], tracked)
      ensures var f := t.fields[i];
              if f.Promotes() then
                && SlotsReached(h, at + [i], f.ty, tracked || HasTracked(f.ty), a.fs[i], b.fs[i])
                && SlotsUndotted(f.ty, tracked || HasTracked(f.ty), a.fs[i], b.fs[i])
              else Same(f.ty, f.tags.normalized, a.fs[i], b.fs[i]) && Located(f.ty, a.fs[i], b.fs[i])
    {
      var f := t.fields[i];
      assert SlotSame(f, tracked, a.fs[i], b.fs[i]);
      if f.Promotes() {
        SlotsUnchanged(h, at + [i], f.ty, tracked || HasTracked(f.ty), a.fs[i], b.fs[i]);
      } else {
        UnchangedLocated(f.ty, f.tags.normalized, a.fs[i], b.fs[i]);
      }
    }
  }

  /** The main theorem: what is not located does not arrive. */
  lemma {:induction false} FieldFails(t: Ty, norm: bool, x: Value, a: Value, b: Value, w: Value, w': Value)
    requires HasType(x, t) && HasType(a, t) && HasType(b, t) && HasType(w', t) && Same(t, norm, x, a)
    requires Supported(t, a, b)
    requires Undisturbed(t, a, b) && !Located(t, a, b)
    requires ApplyAll(t, x, RereadAll(FieldEdits(t, norm, a, b))) == Ok(w) && Shows(x, w, w')
    ensures !Same(t, norm, w', b)
    decreases t, 3
  {
    WhereLost(t, a, b);
    if t.Map? {
      DottedFailsOn(x, a, b, w);
    } else if t.Struct? {
      WholeFails(t, x, a, b, w, w');
    } else {
      TargetFails(t.elem, x.target, a.target, b.target, w, w');
    }
  }

  lemma WhereLost(t: Ty, a: Value, b: Value)
    requires HasType(a, t) && HasType(b, t) && !Located(t, a, b)
    ensures t.Map? || t.Struct? || (t.Ptr? && t.elem.Struct? && a.Ref? && b.Ref?)
    ensures t.Map? ==> !MapUndotted(a, b)
    ensures t.Struct? ==> !SlotsLocated(t, a, b)
    ensures t.Ptr? ==> !SlotsLocated(t.elem, a.target, b.target)
  {
  }

  lemma {:induction false} WholeFails(t: Ty, x: Value, a: Value, b: Value, w: Value, w': Value)
    requires t.Struct? && HasType(x, t) && HasType(a, t) && HasType(b, t) && HasType(w', t)
    requires FieldsSame(t, HasTracked(t), x, a) && FieldsSupported(t, HasTracked(t), a, b)
    requires SlotsUndisturbed(t, a, b) && !SlotsLocated(t, a, b)
    requires ApplyAll(t, x, RereadAll(StructEdits(t, HasTracked(t), a, b, 0))) == Ok(w) && Shows(x, w, w')
    ensures !FieldsSame(t, HasTracked(t), w', b)
    decreases t, 2
  {
    StructFails(t, x, a, b, w, w');
  }

  lemma {:induction false} TargetFails(e: Ty, x: Value, a: Value, b: Value, w: Value, w': Value)
    requires e.Struct? && HasType(x, e) && HasType(a, e) && HasType(b, e) && HasType(w', Ptr(e))
    requires FieldsSame(e, HasTracked(e), x, a) && FieldsSupported(e, HasTracked(e), a, b)
    requires SlotsUndisturbed(e, a, b) && !SlotsLocated(e, a, b)
    requires ApplyAll(Ptr(e), Ref(x), RereadAll(StructEdits(e, HasTracked(e), a, b, 0))) == Ok(w)
    requires Shows(Ref(x), w, w')
    ensures w'.Ref? && !FieldsSame(e, HasTracked(e), w'.target, b)
    decreases e, 2
  {
    PointerLeads(e, x, a, b, w);
    StructFails(e, x, a, b, w.target, w'.target);
  }

  /** The changes inside a pointer lead from what one points to to what the other does. */
  lemma PointerLeads(e: Ty, x: Value, a: Value, b: Value, w: Value)
    requires e.Struct? && HasType(x, e) && HasType(a, e) && HasType(b, e) && FieldsSupported(e, HasTracked(e), a, b)
    requires ApplyAll(Ptr(e), Ref(x), RereadAll(StructEdits(e, HasTracked(e), a, b, 0))) == Ok(w)
    ensures w.Ref? && LeadsTo(e, x, a, b, w.target)
  {
    var es := StructEdits(e, HasTracked(e), a, b, 0);
    StructPathsNonempty(e, HasTracked(e), a, b, 0);
    RereadNonempty(es);
    LiftPtr(e, x, RereadAll(es));
  }

  lemma RereadNonempty(es: seq<Edit>)
    requires forall d :: d in es ==> d.path != []
    ensures forall d :: d in RereadAll(es) ==> d.path != []
  {
    forall d | d in RereadAll(es) ensures d.path != [] {
      var k: nat :| k < |es| && RereadAll(es)[k] == d;
      assert es[k] in es;
    }
  }

  lemma {:induction false} StructFails(h: Ty, x: Value, a: Value, b: Value, w: Value, w': Value)
    requires LeadsTo(h, x, a, b, w) && HasType(w', h) && Shows(x, w, w') && FieldsSame(h, HasTracked(h), x, a)
    requires SlotsUndisturbed(h, a, b) && !SlotsLocated(h, a, b)
    ensures !FieldsSame(h, HasTracked(h), w', b)
    decreases h, 1
  {
    if p :| HiddenChange(h, a, b, p) {
      HiddenFails(h, x, a, b, p, w, w');
    } else {
      var p := FindLost(h, a, b);
      SlotFails(h, x, a, b, p, w, w');
    }
  }

  lemma HiddenFails(h: Ty, x: Value, a: Value, b: Value, p: seq<nat>, w: Value, w': Value)
    requires LeadsTo(h, x, a, b, w) && HasType(w', h) && Shows(x, w, w') && FieldsSame(h, HasTracked(h), x, a)
    requires SlotsUndisturbed(h, a, b) && HiddenChange(h, a, b, p)
    ensures !FieldsSame(h, HasTracked(h), w', b)
  {
    HiddenKept(h, x, a, b, p, w);
    KeptIsWrong(h, x, a, b, p, w, w');
  }

  ghost predicate Lost(h: Ty, a: Value, b: Value, p: seq<nat>) {
    && h.Struct? && HasType(a, h) && HasType(b, h) && Slot(h, HasTracked(h), p)
    && !Located(SlotField(h, HasTracked(h), p).ty, At(h, a, p), At(h, b, p))
  }

  /** With no changed slot hidden, some slot is not located inside. */
  lemma FindLost(h: Ty, a: Value, b: Value) returns (p: seq<nat>)
    requires h.Struct? && HasType(a, h) && HasType(b, h) && NoneHidden(h, a, b) && !SlotsLocated(h, a, b)
    ensures Lost(h, a, b, p)
  {
    if !SlotsReached(h, [], h, HasTracked(h), a, b) {
      p := FindUnreached(h, [], h, HasTracked(h), a, b);
      assert [] + p == p && !HiddenChange(h, a, b, p);
    } else {
      p := FindDotted(h, HasTracked(h), a, b);
    }
  }

  lemma LostChanged(h: Ty, a: Value, b: Value, p: seq<nat>)
    requires Lost(h, a, b, p)
    ensures ChangedAt(h, a, b, p)
  {
    var f := SlotField(h, HasTracked(h), p);
    if !SlotChanged(h, HasTracked(h), a, b, p) { UnchangedLocated(f.ty, f.tags.normalized, At(h, a, p), At(h, b, p)); }
  }

  lemma {:induction false} SlotFails(h: Ty, x: Value, a: Value, b: Value, p: seq<nat>, w: Value, w': Value)
    requires LeadsTo(h, x, a, b, w) && HasType(w', h) && Shows(x, w, w') && FieldsSame(h, HasTracked(h), x, a)
    requires SlotsUndisturbed(h, a, b) && NoneHidden(h, a, b) && Lost(h, a, b, p)
    ensures !FieldsSame(h, HasTracked(h), w', b)
    decreases h, 0
  {
    var f := SlotField(h, HasTracked(h), p);
    LostChanged(h, a, b, p);
    OwnChanges(h, x, a, b, p, w);
    SlotSameAt(h, HasTracked(h), x, a, p);
    SlotSupportedAt(h, HasTracked(h), a, b, p);
    ShownAt(h, x, w, w', p);
    FieldFails(f.ty, f.tags.normalized, At(h, x, p), At(h, a, p), At(h, b, p), At(h, w, p), At(h, w', p));
    if FieldsSame(h, HasTracked(h), w', b) { SlotSameAt(h, HasTracked(h), w', b, p); }
  }
}
