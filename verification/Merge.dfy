/** What Diff and Apply are for, said without either: when two values count as the
    same, what merging one into another gives, and when replaying can work at all. */
module Merge {
  import opened Prelude
  import opened Entities
  import opened Changes

  // ----- Equivalence: what Diff cannot tell apart -----

  predicate Same(t: Ty, norm: bool, a: Value, b: Value)
    requires HasType(a, t) && HasType(b, t)
    decreases t, 1
  {
    match t
    case Leaf | Time => LeafSame(a, b)
    case Opaque => true
    case Slice => Comparand(norm, a) == Comparand(norm, b)
    case Map => Entries(a) == Entries(b)
    case Struct(_) => FieldsSame(t, HasTracked(t), a, b)
    case Ptr(e) =>
      a.Nil? == b.Nil? &&
      (a.Nil? ||
       if e.Struct? then FieldsSame(e, HasTracked(e), a.target, b.target) else LeafSame(a.target, b.target))
  }

  predicate FieldsSame(t: Ty, tracked: bool, a: Value, b: Value)
    requires t.Struct? && HasType(a, t) && HasType(b, t)
    decreases t, 0
  {
    forall i :: 0 <= i < |t.fields| ==> SlotSame(t.fields[i], tracked, a.fs[i], b.fs[i])
  }

  predicate SlotSame(f: Field, tracked: bool, a: Value, b: Value)
    requires HasType(a, f.ty) && HasType(b, f.ty)
    decreases f
  {
    if Skipped(f, tracked) then true
    else if f.Promotes() then FieldsSame(f.ty, tracked || HasTracked(f.ty), a, b)
    else Same(f.ty, f.tags.normalized, a, b)
  }

  // ----- Merging: what JSON keeps of `b` on every compared field, `x` everywhere else -----

  function MergeIn(t: Ty, norm: bool, x: Value, b: Value): (r: Value)
    requires HasType(x, t) && HasType(b, t)
    ensures HasType(r, t)
    decreases t, 1
  {
    match t
    case Leaf => b
    case Time => if x.at == b.at then x else b
    case Opaque => x
    case Slice => if Comparand(norm, x) == Comparand(norm, b) then x else Comparand(norm, b)
    case Map => if x.NilMap? then x else Dict(Entries(b))
    case Struct(_) => MergeFields(t, HasTracked(t), x, b)
    case Ptr(e) =>
      DecodedTyped(b, t);
      if x.Nil? || b.Nil? then Decoded(b)
      else if e.Struct? then Ref(MergeFields(e, HasTracked(e), x.target, b.target))
      else if LeafSame(x.target, b.target) then x
      else Decoded(b)
  }

  function MergeFields(t: Ty, tracked: bool, x: Value, b: Value): (r: Value)
    requires t.Struct? && HasType(x, t) && HasType(b, t)
    ensures HasType(r, t)
    ensures forall i :: 0 <= i < |t.fields| ==> r.fs[i] == MergeSlot(t.fields[i], tracked, x.fs[i], b.fs[i])
    decreases t, 0
  {
    Rec(seq(|t.fields|, i requires 0 <= i < |t.fields| => MergeSlot(t.fields[i], tracked, x.fs[i], b.fs[i])))
  }

  function MergeSlot(f: Field, tracked: bool, x: Value, b: Value): (r: Value)
    requires HasType(x, f.ty) && HasType(b, f.ty)
    ensures HasType(r, f.ty)
    decreases f
  {
    if Skipped(f, tracked) then x
    else if f.Promotes() then MergeFields(f.ty, tracked || HasTracked(f.ty), x, b)
    else MergeIn(f.ty, f.tags.normalized, x, b)
  }

  // ----- When the changes that lead to `b` can be replayed on `x` -----

  /** A new key needs an allocated map, and a value that stays a leaf keeps its type. */
  predicate KeyReplayable(writable: bool, x: Value, b: Value, k: string)
    requires HasType(x, Map) && HasType(b, Map) && k in Entries(b)
    decreases x, 0
  {
    var mx, mb := Entries(x), Entries(b);
    if k !in mx then writable
    else if mx[k].Dict? && mb[k].Dict? then MapReplayable(true, mx[k], mb[k])
    else mx[k] == mb[k] || SameKind(mx[k], mb[k])
  }

  predicate MapReplayable(writable: bool, x: Value, b: Value)
    requires HasType(x, Map) && HasType(b, Map)
    decreases x, 1
  {
    forall k :: k in Entries(b).Keys ==> KeyReplayable(writable, x, b, k)
  }

  predicate Replayable(t: Ty, x: Value, b: Value)
    requires HasType(x, t) && HasType(b, t)
    decreases t, 1
  {
    match t
    case Map => MapReplayable(x.Dict?, x, b)
    case Struct(_) => FieldsReplayable(t, HasTracked(t), x, b, 0)
    case Ptr(e) => x.Nil? || b.Nil? || !e.Struct? || FieldsReplayable(e, HasTracked(e), x.target, b.target, 0)
    case _ => true
  }

  predicate FieldsReplayable(t: Ty, tracked: bool, x: Value, b: Value, i: nat)
    requires t.Struct? && HasType(x, t) && HasType(b, t)
    decreases t, 0
  {
    forall k :: i <= k < |t.fields| ==> SlotReplayable(t.fields[k], tracked, x.fs[k], b.fs[k])
  }

  predicate SlotReplayable(f: Field, tracked: bool, x: Value, b: Value)
    requires HasType(x, f.ty) && HasType(b, f.ty)
    decreases f
  {
    if Skipped(f, tracked) then true
    else if f.Promotes() then FieldsReplayable(f.ty, tracked || HasTracked(f.ty), x, b, 0)
    else Replayable(f.ty, x, b)
  }

  // ----- When JSON keeps what changed -----

  /** As far as Diff can tell, JSON keeps every pointer that is set as a whole. */
  predicate Expressed(t: Ty, a: Value, b: Value)
    requires HasType(a, t) && HasType(b, t)
    decreases t, 1
  {
    match t
    case Struct(_) => FieldsExpressed(t, HasTracked(t), a, b)
    case Ptr(e) =>
      if a.Ref? && b.Ref? && e.Struct? then FieldsExpressed(e, HasTracked(e), a.target, b.target)
      else
        DecodedTyped(b, t);
        (a.Ref? && b.Ref? && LeafSame(a.target, b.target)) || Same(t, false, Decoded(b), b)
    case _ => true
  }

  predicate FieldsExpressed(t: Ty, tracked: bool, a: Value, b: Value)
    requires t.Struct? && HasType(a, t) && HasType(b, t)
    decreases t, 0
  {
    forall i :: 0 <= i < |t.fields| ==> SlotExpressed(t.fields[i], tracked, a.fs[i], b.fs[i])
  }

  predicate SlotExpressed(f: Field, tracked: bool, a: Value, b: Value)
    requires HasType(a, f.ty) && HasType(b, f.ty)
    decreases f
  {
    if Skipped(f, tracked) then true
    else if f.Promotes() then FieldsExpressed(f.ty, tracked || HasTracked(f.ty), a, b)
    else Expressed(f.ty, a, b)
  }

  /** The two maps hold the same at this key. */
  ghost predicate AgreeOn(y: Value, a: Value, k: string) {
    (k in Entries(y) <==> k in Entries(a)) && (k in Entries(a) ==> Entries(y)[k] == Entries(a)[k])
  }

  // ----- Addressing: names that lead Apply back to where Diff found them -----

  /** A path of field numbers through structs only. */
  predicate Walk(t: Ty, idx: seq<nat>)
    decreases idx
  {
    idx == [] || (t.Struct? && idx[0] < |t.fields| && Walk(t.fields[idx[0]].ty, idx[1..]))
  }

  function TyAt(t: Ty, idx: seq<nat>): Ty
    requires Walk(t, idx)
    decreases idx
  {
    if idx == [] then t else TyAt(t.fields[idx[0]].ty, idx[1..])
  }

  /** Every field that changed inside the struct at `at` is what its host `h` gives for its
      name, and so on inside the field. */
  predicate SlotsReached(h: Ty, at: seq<nat>, t: Ty, tracked: bool, a: Value, b: Value)
    requires h.Struct? && t.Struct? && HasType(a, t) && HasType(b, t)
    decreases t, 0
  {
    forall i :: 0 <= i < |t.fields| && !Skipped(t.fields[i], tracked) ==>
      var f := t.fields[i];
      if f.Promotes() then SlotsReached(h, at + [i], f.ty, tracked || HasTracked(f.ty), a.fs[i], b.fs[i])
      else
        && (!Same(f.ty, f.tags.normalized, a.fs[i], b.fs[i]) ==> Resolve(h, f.name) == Some(at + [i]))
        && Reached(f.ty, a.fs[i], b.fs[i])
  }

  predicate Reached(t: Ty, a: Value, b: Value)
    requires HasType(a, t) && HasType(b, t)
    decreases t, 1
  {
    match t
    case Struct(_) => SlotsReached(t, [], t, HasTracked(t), a, b)
    case Ptr(e) => e.Struct? && a.Ref? && b.Ref? ==> SlotsReached(e, [], e, HasTracked(e), a.target, b.target)
    case _ => true
  }

  /** Every field Diff compares inside the struct at `at` is what its host `h` gives
      for its name, all the way down. */
  predicate Addressable(h: Ty, at: seq<nat>, t: Ty, tracked: bool)
    requires h.Struct? && t.Struct?
    decreases t, 0
  {
    forall i :: 0 <= i < |t.fields| && !Skipped(t.fields[i], tracked) ==>
      var f := t.fields[i];
      if f.Promotes() then Addressable(h, at + [i], f.ty, tracked || HasTracked(f.ty))
      else Resolve(h, f.name) == Some(at + [i]) && WellNamed(f.ty)
  }

  predicate WellNamed(t: Ty)
    decreases t, 1
  {
    match t
    case Struct(_) => Addressable(t, [], t, HasTracked(t))
    case Ptr(e) => e.Struct? ==> Addressable(e, [], e, HasTracked(e))
    case _ => true
  }
}
