/** "Diff finds nothing" is an equivalence relation, and a merge lands in the class of
    the value merged in. */
module Equivalence {
  import opened Prelude
  import opened Sorting
  import opened Entities
  import opened Changes
  import opened Merge

  // ----- Diff is empty exactly on equivalent values -----

  lemma {:induction false} EmptyIffSame(t: Ty, norm: bool, a: Value, b: Value)
    requires HasType(a, t) && HasType(b, t) && Supported(t, a, b)
    ensures FieldEdits(t, norm, a, b) == [] <==> Same(t, norm, a, b)
    decreases t, 1
  {
    match t
    case Map => MapEmptyIffSame(a, b);
    case Struct(_) => StructEmptyIffSame(t, HasTracked(t), a, b, 0);
    case Ptr(e) =>
      if a.Ref? && b.Ref? && e.Struct? { StructEmptyIffSame(e, HasTracked(e), a.target, b.target, 0); }
    case _ =>
  }

  lemma {:induction false} StructEmptyIffSame(t: Ty, tracked: bool, a: Value, b: Value, i: nat)
    requires t.Struct? && HasType(a, t) && HasType(b, t) && i <= |t.fields| && FieldsSupported(t, tracked, a, b)
    ensures StructEdits(t, tracked, a, b, i) == [] <==>
            forall k :: i <= k < |t.fields| ==> SlotSame(t.fields[k], tracked, a.fs[k], b.fs[k])
    decreases t, 0, |t.fields| - i
  {
    if i < |t.fields| {
      var f := t.fields[i];
      assert SlotSupported(f, tracked, a.fs[i], b.fs[i]);
      if Skipped(f, tracked) {
      } else if f.Promotes() {
        StructEmptyIffSame(f.ty, tracked || HasTracked(f.ty), a.fs[i], b.fs[i], 0);
      } else {
        EmptyIffSame(f.ty, f.tags.normalized, a.fs[i], b.fs[i]);
      }
      StructEmptyIffSame(t, tracked, a, b, i + 1);
    }
  }

  lemma {:induction false} MapEmptyIffSame(a: Value, b: Value)
    requires HasType(a, Map) && HasType(b, Map)
    ensures MapEdits(a, b) == [] <==> Entries(a) == Entries(b)
    decreases a, 1
  {
    var ks := Entries(a).Keys + Entries(b).Keys;
    SortedKeysDistinct(ks);
    KeysEmptyIffSame(a, b, SortedKeys(ks));
    if forall k :: k in SortedKeys(ks) ==> AgreeOn(a, b, k) {
      forall k | k in ks ensures k in Entries(a) && k in Entries(b) && Entries(a)[k] == Entries(b)[k] {
        assert AgreeOn(a, b, k);
      }
    }
  }

  lemma {:induction false} KeysEmptyIffSame(a: Value, b: Value, keys: seq<string>)
    requires HasType(a, Map) && HasType(b, Map)
    ensures KeysEdits(a, b, keys) == [] <==> forall k :: k in keys ==> AgreeOn(a, b, k)
    decreases a, 0, |keys|
  {
    if keys != [] {
      var k, ma, mb := keys[0], Entries(a), Entries(b);
      if k in ma && k in mb {
        assert Item(ma[k]) && Item(mb[k]);
        if ma[k].Dict? && mb[k].Dict? {
          MapEmptyIffSame(ma[k], mb[k]);
          assert ma[k] == mb[k] <==> Entries(ma[k]) == Entries(mb[k]);
        }
      }
      assert KeyEdits(a, b, k) == [] <==> AgreeOn(a, b, k);
      KeysEmptyIffSame(a, b, keys[1..]);
      assert forall j :: j in keys <==> j == k || j in keys[1..];
    }
  }

  // ----- The relation -----

  lemma {:induction false} SameReflexive(t: Ty, norm: bool, a: Value)
    requires HasType(a, t)
    ensures Same(t, norm, a, a)
    decreases t, 1
  {
    match t
    case Struct(_) => FieldsSameReflexive(t, HasTracked(t), a);
    case Ptr(e) => if a.Ref? && e.Struct? { FieldsSameReflexive(e, HasTracked(e), a.target); }
    case _ =>
  }

  lemma {:induction false} FieldsSameReflexive(t: Ty, tracked: bool, a: Value)
    requires t.Struct? && HasType(a, t)
    ensures FieldsSame(t, tracked, a, a)
    decreases t, 0
  {
    forall i | 0 <= i < |t.fields| ensures SlotSame(t.fields[i], tracked, a.fs[i], a.fs[i]) {
      var f := t.fields[i];
      if f.Promotes() { FieldsSameReflexive(f.ty, tracked || HasTracked(f.ty), a.fs[i]); }
      else { SameReflexive(f.ty, f.tags.normalized, a.fs[i]); }
    }
  }

  /** Symmetry and transitivity at once: two values equivalent to a third are equivalent. */
  lemma {:induction false} SameEuclidean(t: Ty, norm: bool, a: Value, b: Value, c: Value)
    requires HasType(a, t) && HasType(b, t) && HasType(c, t)
    requires Same(t, norm, a, b) && Same(t, norm, a, c)
    ensures Same(t, norm, b, c)
    decreases t, 1
  {
    match t
    case Struct(_) => FieldsSameEuclidean(t, HasTracked(t), a, b, c);
    case Ptr(e) =>
      if a.Ref? && e.Struct? { FieldsSameEuclidean(e, HasTracked(e), a.target, b.target, c.target); }
    case _ =>
  }

  lemma {:induction false} FieldsSameEuclidean(t: Ty, tracked: bool, a: Value, b: Value, c: Value)
    requires t.Struct? && HasType(a, t) && HasType(b, t) && HasType(c, t)
    requires FieldsSame(t, tracked, a, b) && FieldsSame(t, tracked, a, c)
    ensures FieldsSame(t, tracked, b, c)
    decreases t, 0
  {
    forall i | 0 <= i < |t.fields| ensures SlotSame(t.fields[i], tracked, b.fs[i], c.fs[i]) {
      var f := t.fields[i];
      assert SlotSame(f, tracked, a.fs[i], b.fs[i]) && SlotSame(f, tracked, a.fs[i], c.fs[i]);
      if Skipped(f, tracked) {
      } else if f.Promotes() {
        FieldsSameEuclidean(f.ty, tracked || HasTracked(f.ty), a.fs[i], b.fs[i], c.fs[i]);
      } else {
        SameEuclidean(f.ty, f.tags.normalized, a.fs[i], b.fs[i], c.fs[i]);
      }
    }
  }

  // ----- Merging -----

  /** A merge is equivalent to what was merged in exactly if JSON keeps that. */
  lemma {:induction false} MergeSame(t: Ty, norm: bool, x: Value, b: Value)
    requires HasType(x, t) && HasType(b, t) && Replayable(t, x, b)
    ensures Same(t, norm, MergeIn(t, norm, x, b), b) <==> Expressed(t, x, b)
    decreases t, 1
  {
    match t
    case Slice => if b.Elems? { SortIdempotent(b.es); }
    case Map =>
      if x.NilMap? {
        forall k ensures k !in Entries(b).Keys {
          assert k in Entries(b).Keys ==> KeyReplayable(x.Dict?, x, b, k);
        }
        assert Entries(b) == map[];
      }
    case Struct(_) => FieldsMergeSame(t, HasTracked(t), x, b);
    case Ptr(e) => if x.Ref? && b.Ref? && e.Struct? { FieldsMergeSame(e, HasTracked(e), x.target, b.target); }
    case _ =>
  }

  lemma {:induction false} FieldsMergeSame(t: Ty, tracked: bool, x: Value, b: Value)
    requires t.Struct? && HasType(x, t) && HasType(b, t) && FieldsReplayable(t, tracked, x, b, 0)
    ensures FieldsSame(t, tracked, MergeFields(t, tracked, x, b), b) <==> FieldsExpressed(t, tracked, x, b)
    decreases t, 0
  {
    forall i | 0 <= i < |t.fields|
      ensures SlotSame(t.fields[i], tracked, MergeFields(t, tracked, x, b).fs[i], b.fs[i]) <==>
              SlotExpressed(t.fields[i], tracked, x.fs[i], b.fs[i])
    {
      var f := t.fields[i];
      assert SlotReplayable(f, tracked, x.fs[i], b.fs[i]);
      if Skipped(f, tracked) {
      } else if f.Promotes() {
        FieldsMergeSame(f.ty, tracked || HasTracked(f.ty), x.fs[i], b.fs[i]);
      } else {
        MergeSame(f.ty, f.tags.normalized, x.fs[i], b.fs[i]);
      }
    }
  }

  // ----- What JSON keeps -----

  /** It makes no difference which of two equivalent values the change starts from. */
  lemma {:induction false} ExpressedAlike(t: Ty, norm: bool, x: Value, a: Value, b: Value)
    requires HasType(x, t) && HasType(a, t) && HasType(b, t) && Same(t, norm, x, a)
    ensures Expressed(t, x, b) <==> Expressed(t, a, b)
    decreases t, 1
  {
    match t
    case Struct(_) => FieldsExpressedAlike(t, HasTracked(t), x, a, b);
    case Ptr(e) =>
      if x.Ref? && b.Ref? && e.Struct? { FieldsExpressedAlike(e, HasTracked(e), x.target, a.target, b.target); }
    case _ =>
  }

  lemma {:induction false} FieldsExpressedAlike(t: Ty, tracked: bool, x: Value, a: Value, b: Value)
    requires t.Struct? && HasType(x, t) && HasType(a, t) && HasType(b, t) && FieldsSame(t, tracked, x, a)
    ensures FieldsExpressed(t, tracked, x, b) <==> FieldsExpressed(t, tracked, a, b)
    decreases t, 0
  {
    forall i | 0 <= i < |t.fields|
      ensures SlotExpressed(t.fields[i], tracked, x.fs[i], b.fs[i]) <==>
              SlotExpressed(t.fields[i], tracked, a.fs[i], b.fs[i])
    {
      var f := t.fields[i];
      assert SlotSame(f, tracked, x.fs[i], a.fs[i]);
      if Skipped(f, tracked) {
      } else if f.Promotes() {
        FieldsExpressedAlike(f.ty, tracked || HasTracked(f.ty), x.fs[i], a.fs[i], b.fs[i]);
      } else {
        ExpressedAlike(f.ty, f.tags.normalized, x.fs[i], a.fs[i], b.fs[i]);
      }
    }
  }

  /** A value that JSON gives back as it was is kept. */
  lemma {:induction false} PrintableExpressed(t: Ty, a: Value, b: Value)
    requires HasType(a, t) && HasType(b, t) && Printable(b)
    ensures Expressed(t, a, b)
    decreases t, 1
  {
    match t
    case Struct(_) => FieldsPrintableExpressed(t, HasTracked(t), a, b);
    case Ptr(e) =>
      if a.Ref? && b.Ref? && e.Struct? {
        FieldsPrintableExpressed(e, HasTracked(e), a.target, b.target);
      } else {
        DecodedPrintable(b);
        SameReflexive(t, false, b);
      }
    case _ =>
  }

  lemma {:induction false} FieldsPrintableExpressed(t: Ty, tracked: bool, a: Value, b: Value)
    requires t.Struct? && HasType(a, t) && HasType(b, t) && Printable(b)
    ensures FieldsExpressed(t, tracked, a, b)
    decreases t, 0
  {
    forall i | 0 <= i < |t.fields| ensures SlotExpressed(t.fields[i], tracked, a.fs[i], b.fs[i]) {
      var f := t.fields[i];
      assert Printable(b.fs[i]);
      if f.Promotes() {
        FieldsPrintableExpressed(f.ty, tracked || HasTracked(f.ty), a.fs[i], b.fs[i]);
      } else {
        PrintableExpressed(f.ty, a.fs[i], b.fs[i]);
      }
    }
  }

  lemma {:induction false} MergeAllocated(t: Ty, norm: bool, x: Value, b: Value)
    requires HasType(x, t) && HasType(b, t) && Allocated(x) && Allocated(b)
    ensures Allocated(MergeIn(t, norm, x, b))
    decreases t, 1
  {
    match t
    case Struct(_) => FieldsMergeAllocated(t, HasTracked(t), x, b);
    case Ptr(e) =>
      DecodedAllocated(b);
      if x.Ref? && b.Ref? && e.Struct? { FieldsMergeAllocated(e, HasTracked(e), x.target, b.target); }
    case _ =>
  }

  lemma {:induction false} FieldsMergeAllocated(t: Ty, tracked: bool, x: Value, b: Value)
    requires t.Struct? && HasType(x, t) && HasType(b, t) && Allocated(x) && Allocated(b)
    ensures Allocated(MergeFields(t, tracked, x, b))
    decreases t, 0
  {
    forall i | 0 <= i < |t.fields| ensures Allocated(MergeFields(t, tracked, x, b).fs[i]) {
      var f := t.fields[i];
      if Skipped(f, tracked) {
      } else if f.Promotes() {
        FieldsMergeAllocated(f.ty, tracked || HasTracked(f.ty), x.fs[i], b.fs[i]);
      } else {
        MergeAllocated(f.ty, f.tags.normalized, x.fs[i], b.fs[i]);
      }
    }
  }

  /** Changes that can be replayed on `a` can be replayed on any equivalent value all of
      whose maps are allocated. */
  lemma {:induction false} ReplayableAllocated(t: Ty, norm: bool, x: Value, a: Value, b: Value)
    requires HasType(x, t) && HasType(a, t) && HasType(b, t)
    requires Same(t, norm, x, a) && Allocated(x) && Replayable(t, a, b)
    ensures Replayable(t, x, b)
    decreases t, 1
  {
    match t
    case Map =>
      forall k | k in Entries(b).Keys ensures KeyReplayable(x.Dict?, x, b, k) {
        assert KeyReplayable(a.Dict?, a, b, k);
      }
    case Struct(_) => FieldsReplayableAllocated(t, HasTracked(t), x, a, b);
    case Ptr(e) =>
      if x.Ref? && b.Ref? && e.Struct? {
        FieldsReplayableAllocated(e, HasTracked(e), x.target, a.target, b.target);
      }
    case _ =>
  }

  lemma {:induction false} FieldsReplayableAllocated(t: Ty, tracked: bool, x: Value, a: Value, b: Value)
    requires t.Struct? && HasType(x, t) && HasType(a, t) && HasType(b, t)
    requires FieldsSame(t, tracked, x, a) && Allocated(x) && FieldsReplayable(t, tracked, a, b, 0)
    ensures FieldsReplayable(t, tracked, x, b, 0)
    decreases t, 0
  {
    forall i | 0 <= i < |t.fields| ensures SlotReplayable(t.fields[i], tracked, x.fs[i], b.fs[i]) {
      var f := t.fields[i];
      assert SlotSame(f, tracked, x.fs[i], a.fs[i]) && SlotReplayable(f, tracked, a.fs[i], b.fs[i]);
      if Skipped(f, tracked) {
      } else if f.Promotes() {
        FieldsReplayableAllocated(f.ty, tracked || HasTracked(f.ty), x.fs[i], a.fs[i], b.fs[i]);
      } else {
        ReplayableAllocated(f.ty, f.tags.normalized, x.fs[i], a.fs[i], b.fs[i]);
      }
    }
  }
}
