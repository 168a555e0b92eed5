/** What `Diff` emits and what `Apply` does with it, with every path still a list of
    segments and relative to the value at hand. */
module Changes {
  import opened Prelude
  import opened Sorting
  import opened Entities

  /** One field change; a value is the JSON it prints as, and `None` is absent JSON. */
  datatype Edit = Edit(path: seq<string>, before: Option<Value>, after: Option<Value>)

  datatype Fault = NotAStruct | FieldNotFound | NilEmbedded | BadJson | NilMapWrite | NotAMap

  function Under(name: string, es: seq<Edit>): (r: seq<Edit>)
    ensures |r| == |es|
    ensures forall i :: 0 <= i < |es| ==> r[i] == es[i].(path := [name] + es[i].path)
  {
    seq(|es|, i requires 0 <= i < |es| => es[i].(path := [name] + es[i].path))
  }

  // ----- Diff -----

  predicate HasTracked(t: Ty)
    requires t.Struct?
  {
    exists i :: 0 <= i < |t.fields| && t.fields[i].tags.tracked
  }

  /** Identifiers, ignored fields and, in tracked mode, untracked plain fields. */
  predicate Skipped(f: Field, tracked: bool) {
    f.tags.id || f.tags.ignore || (tracked && !f.tags.tracked && !f.embedded)
  }

  function SortCopy(v: Value): Value {
    if v.Elems? then Elems(Sort(v.es)) else v
  }

  function Comparand(norm: bool, v: Value): Value {
    if norm then SortCopy(v) else v
  }

  /** Leaves are compared by value, times by the instant they name. */
  predicate LeafSame(a: Value, b: Value) {
    if a.Instant? && b.Instant? then a.at == b.at else a == b
  }

  function LeafEdits(a: Value, b: Value): seq<Edit> {
    if LeafSame(a, b) then [] else [Edit([], Some(a), Some(b))]
  }

  /** The JSON of a pointer is the JSON of what it points to. */
  function PtrJson(v: Value): Option<Value> {
    if v.Ref? then Some(v.target) else None
  }

  /** The changes inside one field whose type is `t`. */
  ghost function FieldEdits(t: Ty, norm: bool, a: Value, b: Value): seq<Edit>
    requires HasType(a, t) && HasType(b, t)
    decreases t
  {
    match t
    case Leaf | Time => LeafEdits(a, b)
    case Opaque => []
    case Slice => LeafEdits(Comparand(norm, a), Comparand(norm, b))
    case Map => MapEdits(a, b)
    case Struct(_) => StructEdits(t, HasTracked(t), a, b, 0)
    case Ptr(e) =>
      if a.Nil? && b.Nil? then []
      else if a.Nil? || b.Nil? then [Edit([], PtrJson(a), PtrJson(b))]
      else if e.Struct? then StructEdits(e, HasTracked(e), a.target, b.target, 0)
      else LeafEdits(a.target, b.target)
  }

  /** The changes one field adds to those of the struct around it. */
  ghost function SlotEdits(f: Field, tracked: bool, a: Value, b: Value): seq<Edit>
    requires HasType(a, f.ty) && HasType(b, f.ty)
    decreases f
  {
    if Skipped(f, tracked) then []
    else if f.Promotes() then StructEdits(f.ty, tracked || HasTracked(f.ty), a, b, 0)
    else Under(f.name, FieldEdits(f.ty, f.tags.normalized, a, b))
  }

  /** The changes in the fields of a struct from the `i`-th on. */
  ghost function StructEdits(t: Ty, tracked: bool, a: Value, b: Value, i: nat): seq<Edit>
    requires t.Struct? && HasType(a, t) && HasType(b, t) && i <= |t.fields|
    decreases t, |t.fields| - i
  {
    if i == |t.fields| then []
    else SlotEdits(t.fields[i], tracked, a.fs[i], b.fs[i]) + StructEdits(t, tracked, a, b, i + 1)
  }

  /** The entries of a map; a nil map has none. */
  function Entries(v: Value): map<string, Value> {
    if v.Dict? then v.m else map[]
  }

  ghost function MapEdits(a: Value, b: Value): seq<Edit>
    requires HasType(a, Map) && HasType(b, Map)
    decreases a, 2
  {
    KeysEdits(a, b, SortedKeys(Entries(a).Keys + Entries(b).Keys))
  }

  ghost function KeysEdits(a: Value, b: Value, keys: seq<string>): seq<Edit>
    requires HasType(a, Map) && HasType(b, Map)
    decreases a, 1, |keys|
  {
    if keys == [] then []
    else Under(keys[0], KeyEdits(a, b, keys[0])) + KeysEdits(a, b, keys[1..])
  }

  ghost function KeyEdits(a: Value, b: Value, k: string): seq<Edit>
    requires HasType(a, Map) && HasType(b, Map)
    decreases a, 0
  {
    var ma, mb := Entries(a), Entries(b);
    if k in ma && k in mb then
      if ma[k].Dict? && mb[k].Dict? then MapEdits(ma[k], mb[k]) else LeafEdits(ma[k], mb[k])
    else if k in ma then [Edit([], Some(ma[k]), None)]
    else if k in mb then [Edit([], None, Some(mb[k]))]
    else []
  }

  /** The value holds nothing that JSON refuses. */
  predicate Encodable(v: Value) {
    match v
    case Handle(_) => false
    case Ref(w) => Encodable(w)
    case Rec(fs) => forall i :: 0 <= i < |fs| ==> Encodable(fs[i])
    case _ => true
  }

  /** Diff of these two values reaches no unsupported field. */
  predicate Supported(t: Ty, a: Value, b: Value)
    requires HasType(a, t) && HasType(b, t)
    decreases t
  {
    match t
    case Opaque => false
    case Struct(fields) => FieldsSupported(t, HasTracked(t), a, b)
    case Ptr(e) =>
      if a.Nil? && b.Nil? then true
      else if a.Nil? || b.Nil? then Encodable(a) && Encodable(b)
      else if e.Struct? then FieldsSupported(e, HasTracked(e), a.target, b.target)
      else LeafSame(a.target, b.target) || (Encodable(a.target) && Encodable(b.target))
    case _ => true
  }

  predicate FieldsSupported(t: Ty, tracked: bool, a: Value, b: Value)
    requires t.Struct? && HasType(a, t) && HasType(b, t)
    decreases t, 0
  {
    forall i :: 0 <= i < |t.fields| ==> SlotSupported(t.fields[i], tracked, a.fs[i], b.fs[i])
  }

  predicate SlotSupported(f: Field, tracked: bool, a: Value, b: Value)
    requires HasType(a, f.ty) && HasType(b, f.ty)
    decreases f
  {
    if Skipped(f, tracked) then true
    else if f.Promotes() then FieldsSupported(f.ty, tracked || HasTracked(f.ty), a, b)
    else Supported(f.ty, a, b)
  }

  // ----- Apply -----

  /** Decoding JSON into a field of type `t`: null leaves the zero value. */
  function SetFrom(t: Ty, after: Option<Value>): (r: Result<Value, Fault>)
    ensures r.Ok? ==> HasType(r.value, t)
  {
    match after
    case None => Ok(Zero(t))
    case Some(j) =>
      if PrintsNull(j) then Ok(Zero(t))
      else if t.Ptr? && HasType(j, t.elem) then DecodedTyped(j, t.elem); Ok(Ref(Decoded(j)))
      else if !t.Ptr? && HasType(j, t) then DecodedTyped(j, t); Ok(Decoded(j))
      else Err(BadJson)
  }

  /** Decoding JSON into the dynamic type of an existing map value. */
  predicate SameKind(v: Value, j: Value) {
    (v.Dict? && j.Dict?) || (v.Atom? && j.Atom? && v.kind == j.kind)
  }

  function ApplyMap(v: Value, path: seq<string>, after: Option<Value>): (r: Result<Value, Fault>)
    requires HasType(v, Map) && |path| > 0
    ensures r.Ok? ==> HasType(r.value, Map) && (v.Dict? ==> r.value.Dict?)
    decreases |path|
  {
    var k := path[0];
    if |path| == 1 then
      match after
      case None => Ok(if v.Dict? then Dict(v.m - {k}) else v)
      case Some(j) =>
        if !Item(j) then Err(BadJson)
        else if v.NilMap? then Err(NilMapWrite)
        else if k in v.m && !SameKind(v.m[k], j) then Err(BadJson)
        else Ok(Dict(v.m[k := j]))
    else if v.NilMap? then Err(NilMapWrite)
    else if k in v.m && !v.m[k].Dict? then Err(NotAMap)
    else
      var child := if k in v.m then v.m[k] else Dict(map[]);
      match ApplyMap(child, path[1..], after)
      case Err(e) => Err(e)
      case Ok(w) => Ok(Dict(v.m[k := w]))
  }

  /** Walking `path` from a value of type `t` and setting what it leads to; an empty
      path sets the value itself. */
  function ApplyIn(t: Ty, v: Value, path: seq<string>, after: Option<Value>): (r: Result<Value, Fault>)
    requires HasType(v, t)
    ensures r.Ok? ==> HasType(r.value, t)
    decreases t, 1, 0
  {
    if path == [] then SetFrom(t, after)
    else
      match t
      case Ptr(e) =>
        (match ApplyIn(e, if v.Nil? then Zero(e) else v.target, path, after)
         case Err(f) => Err(f)
         case Ok(w) => Ok(Ref(w)))
      case Map => ApplyMap(v, path, after)
      case Struct(_) =>
        (match Resolve(t, path[0])
         case None => Err(FieldNotFound)
         case Some(idx) => ApplyAt(t, v, idx, path[1..], after))
      case _ => Err(NotAStruct)
  }

  /** The same, starting at the field of a struct that an index path names. */
  function ApplyAt(t: Ty, v: Value, idx: seq<nat>, path: seq<string>, after: Option<Value>): (r: Result<Value, Fault>)
    requires HasType(v, t) && IsIndex(t, idx)
    ensures r.Ok? ==> HasType(r.value, t)
    decreases t, 0, |idx|
  {
    var i := idx[0];
    var ft := t.fields[i].ty;
    assert HasType(v.fs[i], ft) && (|idx| > 1 ==> Promoted(t.fields[i]).Some?);
    var inner :=
      if |idx| == 1 then ApplyIn(ft, v.fs[i], path, after)
      else if ft.Struct? then ApplyAt(ft, v.fs[i], idx[1..], path, after)
      else if v.fs[i].Nil? then Err(NilEmbedded)
      else
        match ApplyAt(ft.elem, v.fs[i].target, idx[1..], path, after)
        case Err(f) => Err(f)
        case Ok(w) => Ok(Ref(w));
    match inner
    case Err(f) => Err(f)
    case Ok(w) => Ok(Rec(v.fs[i := w]))
  }

  /** Applying a list of changes one after another, stopping at the first fault. */
  function ApplyAll(t: Ty, v: Value, es: seq<Edit>): (r: Result<Value, Fault>)
    requires HasType(v, t)
    ensures r.Ok? ==> HasType(r.value, t)
    decreases |es|
  {
    if es == [] then Ok(v)
    else
      match ApplyIn(t, v, es[0].path, es[0].after)
      case Err(f) => Err(f)
      case Ok(w) => ApplyAll(t, w, es[1..])
  }

  /** Applying more changes to a result. */
  function ThenAll(t: Ty, r: Result<Value, Fault>, es: seq<Edit>): Result<Value, Fault>
    requires r.Ok? ==> HasType(r.value, t)
  {
    match r case Err(f) => Err(f) case Ok(x) => ApplyAll(t, x, es)
  }

  lemma {:induction false} ApplyAllConcat(t: Ty, v: Value, es: seq<Edit>, fs: seq<Edit>)
    requires HasType(v, t)
    ensures ApplyAll(t, v, es + fs) ==
            ThenAll(t, ApplyAll(t, v, es), fs)
    decreases |es|
  {
    if es == [] {
      assert es + fs == fs;
    } else {
      assert (es + fs)[0] == es[0] && (es + fs)[1..] == es[1..] + fs;
      var r := ApplyIn(t, v, es[0].path, es[0].after);
      if r.Ok? { ApplyAllConcat(t, r.value, es[1..], fs); }
    }
  }
}
