/** Go entities as typed values: struct types with tagged and embedded fields,
    the values they hold, and Go's rule for finding a field by name. */
module Entities {
  import opened Prelude

  /** The flags of a `version:"..."` struct tag that the diff engine reads. */
  datatype Tags = Tags(id: bool, tracked: bool, ignore: bool, normalized: bool)

  /** `Opaque` stands for the kinds the engine refuses (chan, func, unsafe pointer);
      `Map` for maps with string keys; other non-struct types are `Leaf`. */
  datatype Ty = Leaf | Time | Opaque | Slice | Map | Ptr(elem: Ty) | Struct(fields: seq<Field>)

  /** A Go identifier: never empty, never holding a dot. */
  type Name = s: string | s != "" && '.' !in s witness "X"

  datatype Field = Field(name: Name, ty: Ty, embedded: bool, tags: Tags) {
    /** An embedded struct: its fields are promoted to the struct around it. */
    predicate Promotes() {
      embedded && ty.Struct?
    }
  }

  /** An atom carries its dynamic type (`kind`) and its JSON text; a slice holds the
      JSON texts of its elements; a time is an instant seen in some time zone. */
  datatype Value =
    | Atom(kind: nat, text: string)
    | Instant(at: int, zone: int)
    | Handle(handle: int)
    | NilSlice
    | Elems(es: seq<string>)
    | NilMap
    | Dict(m: map<string, Value>)
    | Nil
    | Ref(target: Value)
    | Rec(fs: seq<Value>)

  /** What may stand inside a map: never null, since the engine panics on a nil
      interface value found there. */
  predicate Item(v: Value) {
    v.Atom? || (v.Dict? && forall k :: k in v.m ==> Item(v.m[k]))
  }

  predicate HasType(v: Value, t: Ty)
    decreases t
  {
    match t
    case Leaf => v.Atom?
    case Time => v.Instant?
    case Opaque => v.Handle?
    case Slice => v.NilSlice? || v.Elems?
    case Map => v.NilMap? || (v.Dict? && Item(v))
    case Ptr(e) => v.Nil? || (v.Ref? && HasType(v.target, e))
    case Struct(fields) =>
      v.Rec? && |v.fs| == |fields| && forall i :: 0 <= i < |fields| ==> HasType(v.fs[i], fields[i].ty)
  }

  function Zero(t: Ty): (v: Value)
    ensures HasType(v, t)
  {
    match t
    case Leaf => Atom(0, "")
    case Time => Instant(0, 0)
    case Opaque => Handle(0)
    case Slice => NilSlice
    case Map => NilMap
    case Ptr(_) => Nil
    case Struct(fields) => Rec(seq(|fields|, i requires 0 <= i < |fields| => Zero(fields[i].ty)))
  }

  /** Values that JSON prints as `null`. */
  predicate PrintsNull(v: Value) {
    v.Nil? || v.NilSlice? || v.NilMap? || (v.Ref? && PrintsNull(v.target))
  }

  /** What JSON gives back: a pointer to something printed as null comes back nil. */
  function Decoded(v: Value): Value {
    match v
    case Ref(w) => if PrintsNull(w) then Nil else Ref(Decoded(w))
    case Rec(fs) => Rec(seq(|fs|, i requires 0 <= i < |fs| => Decoded(fs[i])))
    case _ => v
  }

  lemma {:induction false} DecodedTyped(v: Value, t: Ty)
    requires HasType(v, t)
    ensures HasType(Decoded(v), t)
    decreases t
  {
    match t
    case Ptr(e) => if v.Ref? { DecodedTyped(v.target, e); }
    case Struct(fields) =>
      forall i | 0 <= i < |fields| ensures HasType(Decoded(v.fs[i]), fields[i].ty) {
        DecodedTyped(v.fs[i], fields[i].ty);
      }
    case _ =>
  }

  /** Values JSON gives back as they were: no pointer to something printed as null. */
  predicate Printable(v: Value) {
    match v
    case Ref(w) => !PrintsNull(w) && Printable(w)
    case Rec(fs) => forall i :: 0 <= i < |fs| ==> Printable(fs[i])
    case _ => true
  }

  lemma {:induction false} DecodedPrintable(v: Value)
    ensures Decoded(v) == v <==> Printable(v)
  {
    match v
    case Ref(w) => DecodedPrintable(w);
    case Rec(fs) =>
      forall i | 0 <= i < |fs| ensures Decoded(fs[i]) == fs[i] <==> Printable(fs[i]) { DecodedPrintable(fs[i]); }
      assert Decoded(v).fs == fs <==> forall i :: 0 <= i < |fs| ==> Decoded(fs[i]) == fs[i];
    case _ =>
  }

  /** No map key holds a dot, at any depth. */
  predicate Undotted(v: Value) {
    match v
    case Ref(w) => Undotted(w)
    case Rec(fs) => forall i :: 0 <= i < |fs| ==> Undotted(fs[i])
    case Dict(m) => forall k :: k in m ==> '.' !in k && Undotted(m[k])
    case _ => true
  }

  /** No map field anywhere in the value is nil. */
  predicate Allocated(v: Value) {
    match v
    case NilMap => false
    case Ref(w) => Allocated(w)
    case Rec(fs) => forall i :: 0 <= i < |fs| ==> Allocated(fs[i])
    case _ => true
  }

  lemma {:induction false} DecodedAllocated(v: Value)
    requires Allocated(v)
    ensures Allocated(Decoded(v))
  {
    match v
    case Ref(w) => DecodedAllocated(w);
    case Rec(fs) => forall i | 0 <= i < |fs| ensures Allocated(Decoded(fs[i])) { DecodedAllocated(fs[i]); }
    case _ =>
  }

  // ----- Positions inside a struct -----

  /** The struct whose names `f` promotes, if any: Go looks through embedded structs
      and through embedded pointers to structs. */
  function Promoted(f: Field): Option<Ty> {
    if !f.embedded then None
    else if f.ty.Struct? then Some(f.ty)
    else if f.ty.Ptr? && f.ty.elem.Struct? then Some(f.ty.elem)
    else None
  }

  /** An index path: every step but the last goes into an embedded field. */
  predicate IsIndex(t: Ty, idx: seq<nat>)
    decreases idx
  {
    t.Struct? && |idx| > 0 && idx[0] < |t.fields| &&
    (|idx| > 1 ==> Promoted(t.fields[idx[0]]).Some? && IsIndex(Promoted(t.fields[idx[0]]).value, idx[1..]))
  }

  function FieldAt(t: Ty, idx: seq<nat>): (f: Field)
    requires IsIndex(t, idx)
    ensures f.ty < t
    decreases idx
  {
    var f := t.fields[idx[0]];
    if |idx| == 1 then f
    else
      assert Promoted(f).value == f.ty || Promoted(f).value < f.ty;
      FieldAt(Promoted(f).value, idx[1..])
  }

  /** The index paths of the fields called `name` that lie `d` embeddings deep. */
  function Hits(t: Ty, name: string, d: nat, i: nat): (hs: seq<seq<nat>>)
    requires t.Struct? && i <= |t.fields|
    ensures forall h :: h in hs ==> IsIndex(t, h) && FieldAt(t, h).name == name
    decreases t, |t.fields| - i
  {
    if i == |t.fields| then []
    else
      var f := t.fields[i];
      var here :=
        if d == 0 then (if f.name == name then [[i]] else [])
        else
          match Promoted(f)
          case None => []
          case Some(inner) =>
            assert inner == f.ty || inner < f.ty;
            var deeper := Hits(inner, name, d - 1, 0);
            seq(|deeper|, k requires 0 <= k < |deeper| => [i] + deeper[k]);
      assert forall h :: h in here ==> IsIndex(t, h) && FieldAt(t, h).name == name by {
        forall h | h in here ensures IsIndex(t, h) && FieldAt(t, h).name == name {
          if d > 0 { assert h[1..] in Hits(Promoted(f).value, name, d - 1, 0); }
        }
      }
      here + Hits(t, name, d, i + 1)
  }

  /** A bound on how deep embedded structs nest. */
  function Levels(t: Ty, i: nat): nat
    requires t.Struct? && i <= |t.fields|
    decreases t, |t.fields| - i
  {
    if i == |t.fields| then 1
    else
      var f := t.fields[i];
      (match Promoted(f)
       case None => 0
       case Some(inner) =>
         assert inner == f.ty || inner < f.ty;
         Levels(inner, 0)) + Levels(t, i + 1)
  }

  /** Go's `FieldByName`: the shallowest level with a field of this name decides,
      and two at that level cancel each other. */
  function Resolve(t: Ty, name: string): (r: Option<seq<nat>>)
    requires t.Struct?
    ensures r.Some? ==> IsIndex(t, r.value) && FieldAt(t, r.value).name == name
  {
    ResolveFrom(t, name, 0)
  }

  function ResolveFrom(t: Ty, name: string, d: nat): (r: Option<seq<nat>>)
    requires t.Struct?
    ensures r.Some? ==> IsIndex(t, r.value) && FieldAt(t, r.value).name == name
    decreases Levels(t, 0) - d
  {
    var hs := Hits(t, name, d, 0);
    if |hs| == 1 then Some(hs[0])
    else if |hs| > 1 || d >= Levels(t, 0) then None
    else ResolveFrom(t, name, d + 1)
  }
}
