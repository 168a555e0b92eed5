/** The diff engine itself: the metadata cache, the loops that emit dotted paths, and
    the interpreter that splits them again. */
module DiffEngine {
  import opened Prelude
  import opened Text
  import opened Sorting
  import opened Entities
  import opened Changes
  import opened Merge

  datatype FieldChange = FieldChange(path: string, oldValue: Option<Value>, newValue: Option<Value>)

  type Delta = seq<FieldChange>

  datatype DiffError =
    | NilPointer | NotStruct | TypeMismatch | CacheFull | Unsupported | MarshalFailed | Unapplied(fault: Fault)

  /** One more segment on a dotted path; the root prefix is empty. */
  function Dotted(prefix: string, name: string): string {
    if prefix == "" then name else prefix + "." + name
  }

  function Glue(prefix: string, path: seq<string>): string
    decreases |path|
  {
    if path == [] then prefix else Glue(Dotted(prefix, path[0]), path[1..])
  }

  /** Changes as the engine prints them below `prefix`. */
  function Printed(prefix: string, es: seq<Edit>): Delta {
    seq(|es|, i requires 0 <= i < |es| => FieldChange(Glue(prefix, es[i].path), es[i].before, es[i].after))
  }

  lemma PrintedUnder(prefix: string, name: string, es: seq<Edit>)
    ensures Printed(prefix, Under(name, es)) == Printed(Dotted(prefix, name), es)
  {
    var us := Under(name, es);
    forall i | 0 <= i < |es| ensures Glue(prefix, us[i].path) == Glue(Dotted(prefix, name), es[i].path) {
      assert us[i].path[0] == name && us[i].path[1..] == es[i].path;
    }
  }

  /** Printing more changes after those already there. */
  lemma PrintedConcat(given: Delta, prefix: string, es: seq<Edit>, fs: seq<Edit>)
    ensures given + Printed(prefix, es + fs) == given + Printed(prefix, es) + Printed(prefix, fs)
  {
    assert Printed(prefix, es + fs) == Printed(prefix, es) + Printed(prefix, fs);
  }

  /** The first `i` fields are done: all supported, and only the changes of the others missing. */
  ghost predicate Progress(
    t: Ty, tracked: bool, a: Value, b: Value, prefix: string, given: Delta, changes: Delta, i: nat)
    requires t.Struct? && HasType(a, t) && HasType(b, t) && i <= |t.fields|
  {
    && (forall k :: 0 <= k < i ==> SlotSupported(t.fields[k], tracked, a.fs[k], b.fs[k]))
    && changes + Printed(prefix, StructEdits(t, tracked, a, b, i)) ==
       given + Printed(prefix, StructEdits(t, tracked, a, b, 0))
  }

  lemma ProgressStep(
    t: Ty, tracked: bool, a: Value, b: Value, prefix: string, given: Delta, changes: Delta, i: nat)
    requires t.Struct? && HasType(a, t) && HasType(b, t) && i < |t.fields|
    requires Progress(t, tracked, a, b, prefix, given, changes, i)
    ensures SlotSupported(t.fields[i], tracked, a.fs[i], b.fs[i]) ==>
              Progress(t, tracked, a, b, prefix, given,
                       changes + Printed(prefix, SlotEdits(t.fields[i], tracked, a.fs[i], b.fs[i])), i + 1)
  {
    PrintedConcat(changes, prefix, SlotEdits(t.fields[i], tracked, a.fs[i], b.fs[i]),
                  StructEdits(t, tracked, a, b, i + 1));
  }

  lemma ProgressEnds(t: Ty, tracked: bool, a: Value, b: Value, prefix: string, given: Delta, changes: Delta)
    requires t.Struct? && HasType(a, t) && HasType(b, t)
    requires Progress(t, tracked, a, b, prefix, given, changes, |t.fields|)
    ensures FieldsSupported(t, tracked, a, b)
    ensures changes == given + Printed(prefix, StructEdits(t, tracked, a, b, 0))
  {
    assert changes + Printed(prefix, []) == changes;
  }

  // ----- Metadata -----

  datatype TypeMeta = TypeMeta(fields: seq<Field>, hasTracked: bool)

  function MetaOf(t: Ty): TypeMeta
    requires t.Struct?
  {
    TypeMeta(t.fields, HasTracked(t))
  }

  /** The struct types a diff of this type may ask metadata for. */
  function StructTypes(t: Ty): set<Ty>
    decreases t, 1
  {
    match t
    case Struct(_) => {t} + FieldStructTypes(t, 0)
    case Ptr(e) => StructTypes(e)
    case _ => {}
  }

  function FieldStructTypes(t: Ty, i: nat): set<Ty>
    requires t.Struct? && i <= |t.fields|
    decreases t, 0, |t.fields| - i
  {
    if i == |t.fields| then {} else StructTypes(t.fields[i].ty) + FieldStructTypes(t, i + 1)
  }

  lemma {:induction false} FieldStructTypesMember(t: Ty, i: nat, k: nat)
    requires t.Struct? && i <= k < |t.fields|
    ensures StructTypes(t.fields[k].ty) <= FieldStructTypes(t, i)
    decreases k - i
  {
    if i < k { FieldStructTypesMember(t, i + 1, k); }
  }

  /** What a comparison answers: the changes `d` if every field met is supported, else a
      failure; running out of room for metadata is a third outcome. */
  ghost predicate Answers(r: Result<Delta, DiffError>, supported: bool, d: Delta) {
    && (r.Ok? ==> supported && r.value == d)
    && (r.Err? && r.error != CacheFull ==> !supported && (r.error.Unsupported? || r.error.MarshalFailed?))
  }

  lemma SlotSkipped(f: Field, tracked: bool, a: Value, b: Value, prefix: string, given: Delta)
    requires HasType(a, f.ty) && HasType(b, f.ty) && Skipped(f, tracked)
    ensures SlotSupported(f, tracked, a, b) && given + Printed(prefix, SlotEdits(f, tracked, a, b)) == given
  {
    assert given + Printed(prefix, []) == given;
  }

  lemma SlotPromoted(f: Field, tracked: bool, a: Value, b: Value, prefix: string, given: Delta,
      r: Result<Delta, DiffError>)
    requires HasType(a, f.ty) && HasType(b, f.ty) && !Skipped(f, tracked) && f.Promotes()
    requires Answers(r, FieldsSupported(f.ty, tracked || HasTracked(f.ty), a, b),
                     given + Printed(prefix, StructEdits(f.ty, tracked || HasTracked(f.ty), a, b, 0)))
    ensures Answers(r, SlotSupported(f, tracked, a, b), given + Printed(prefix, SlotEdits(f, tracked, a, b)))
  {
  }

  lemma SlotNamed(f: Field, tracked: bool, a: Value, b: Value, prefix: string, given: Delta,
      r: Result<Delta, DiffError>)
    requires HasType(a, f.ty) && HasType(b, f.ty) && !Skipped(f, tracked) && !f.Promotes()
    requires Answers(r, Supported(f.ty, a, b),
                     given + Printed(Dotted(prefix, f.name), FieldEdits(f.ty, f.tags.normalized, a, b)))
    ensures Answers(r, SlotSupported(f, tracked, a, b), given + Printed(prefix, SlotEdits(f, tracked, a, b)))
  {
    PrintedUnder(prefix, f.name, FieldEdits(f.ty, f.tags.normalized, a, b));
  }

  class Engine {
    var cache: map<Ty, TypeMeta>
    const maxTypes: nat

    ghost predicate Valid()
      reads this
    {
      && (forall t :: t in cache ==> t.Struct? && cache[t] == MetaOf(t))
      && (maxTypes > 0 ==> |cache| <= maxTypes)
    }

    /** The cache would still be within its bound if it also held these types. */
    ghost predicate Room(ts: set<Ty>)
      reads this
    {
      maxTypes > 0 ==> |cache.Keys + ts| <= maxTypes
    }

    /** The cache may only have grown, and only by these types. */
    twostate predicate Grown(ts: set<Ty>)
      reads this
    {
      old(cache).Keys <= cache.Keys <= old(cache).Keys + ts
    }

    constructor (maxTypes: nat)
      ensures Valid() && cache == map[] && this.maxTypes == maxTypes
    {
      this.maxTypes := maxTypes;
      cache := map[];
    }

    /** Room for some types is room for fewer, and filling it does not use it up. */
    lemma RoomLeft(before: set<Ty>, ts: set<Ty>, part: set<Ty>)
      requires maxTypes > 0 ==> |before + ts| <= maxTypes
      requires before <= cache.Keys <= before + ts && part <= ts
      ensures Room(part)
    {
      var all, some := before + ts, cache.Keys + part;
      assert all == some + (all - some);
    }

    method GetOrBuildMeta(t: Ty) returns (r: Result<TypeMeta, DiffError>)
      requires Valid() && t.Struct?
      modifies this`cache
      ensures Valid() && Grown({t})
      ensures r.Ok? ==> r.value == MetaOf(t) && t in cache
      ensures r.Err? ==> r.error == CacheFull && !old(Room({t}))
    {
      if t in cache { return Ok(cache[t]); }
      var fields: seq<Field> := [];
      var hasTracked := false;
      for i := 0 to |t.fields|
        invariant fields == t.fields[..i]
        invariant hasTracked <==> exists k :: 0 <= k < i && t.fields[k].tags.tracked
      {
        if t.fields[i].tags.tracked { hasTracked := true; }
        fields := fields + [t.fields[i]];
      }
      if maxTypes > 0 && |cache| >= maxTypes {
        assert |cache.Keys + {t}| == |cache.Keys| + 1;
        return Err(CacheFull);
      }
      cache := cache[t := TypeMeta(fields, hasTracked)];
      r := Ok(cache[t]);
    }

    /** Compares the fields of a struct one by one; the changes found go after those given. */
    method DiffFields(t: Ty, tracked: bool, a: Value, b: Value, prefix: string, given: Delta)
      returns (r: Result<Delta, DiffError>)
      requires Valid() && t.Struct? && HasType(a, t) && HasType(b, t)
      modifies this`cache
      ensures Valid() && Grown(FieldStructTypes(t, 0))
      ensures Answers(r, FieldsSupported(t, tracked, a, b), given + Printed(prefix, StructEdits(t, tracked, a, b, 0)))
      ensures old(Room(FieldStructTypes(t, 0))) ==> r != Err(CacheFull)
      decreases t, 1
    {
      ghost var types := FieldStructTypes(t, 0);
      var changes := given;
      for i := 0 to |t.fields|
        invariant Valid() && Grown(types)
        invariant Progress(t, tracked, a, b, prefix, given, changes, i)
      {
        FieldStructTypesMember(t, 0, i);
        if old(Room(types)) { RoomLeft(old(cache).Keys, types, StructTypes(t.fields[i].ty)); }
        ProgressStep(t, tracked, a, b, prefix, given, changes, i);
        var more := DiffSlot(t.fields[i], tracked, a.fs[i], b.fs[i], prefix, changes);
        if more.Err? { return more; }
        changes := more.value;
      }
      ProgressEnds(t, tracked, a, b, prefix, given, changes);
      r := Ok(changes);
    }

    /** One field of the loop above. */
    method DiffSlot(f: Field, tracked: bool, a: Value, b: Value, prefix: string, given: Delta)
      returns (r: Result<Delta, DiffError>)
      requires Valid() && HasType(a, f.ty) && HasType(b, f.ty)
      modifies this`cache
      ensures Valid() && Grown(StructTypes(f.ty))
      ensures Answers(r, SlotSupported(f, tracked, a, b), given + Printed(prefix, SlotEdits(f, tracked, a, b)))
      ensures old(Room(StructTypes(f.ty))) ==> r != Err(CacheFull)
      decreases f, 1
    {
      if f.tags.id || f.tags.ignore || (tracked && !f.tags.tracked && !f.embedded) {
        SlotSkipped(f, tracked, a, b, prefix, given);
        return Ok(given);
      }
      if f.embedded && f.ty.Struct? {
        r := DiffStruct(f.ty, tracked, a, b, prefix, given);
        SlotPromoted(f, tracked, a, b, prefix, given, r);
      } else {
        r := DiffField(f.ty, f.tags.normalized, a, b, Dotted(prefix, f.name), given);
        SlotNamed(f, tracked, a, b, prefix, given, r);
      }
    }

    /** The switch on the kind of a field that has a path of its own. */
    method DiffField(t: Ty, norm: bool, a: Value, b: Value, path: string, given: Delta)
      returns (r: Result<Delta, DiffError>)
      requires Valid() && HasType(a, t) && HasType(b, t) && path != ""
      modifies this`cache
      ensures Valid() && Grown(StructTypes(t))
      ensures Answers(r, Supported(t, a, b), given + Printed(path, FieldEdits(t, norm, a, b)))
      ensures old(Room(StructTypes(t))) ==> r != Err(CacheFull)
      decreases t, 3
    {
      if t.Opaque? {
        r := Err(Unsupported);
      } else if t.Struct? {
        r := DiffStruct(t, false, a, b, path, given);
      } else if t.Map? {
        var more := DiffMap(a, b, path, given);
        r := Ok(more);
      } else if t.Ptr? {
        if a.Nil? && b.Nil? {
          assert given + Printed(path, []) == given;
          r := Ok(given);
        } else if a.Nil? || b.Nil? {
          if !Encodable(a) || !Encodable(b) { return Err(MarshalFailed); }
          r := Ok(given + [FieldChange(path, PtrJson(a), PtrJson(b))]);
          assert Printed(path, FieldEdits(t, norm, a, b)) == [FieldChange(path, PtrJson(a), PtrJson(b))];
        } else if t.elem.Struct? {
          r := DiffStruct(t.elem, false, a.target, b.target, path, given);
        } else {
          r := DiffLeaf(a.target, b.target, path, given);
        }
      } else if t.Slice? {
        r := DiffLeaf(Comparand(norm, a), Comparand(norm, b), path, given);
      } else {
        r := DiffLeaf(a, b, path, given);
      }
    }

    /** A nested struct, with its own tracked flag or the one its parent hands down. */
    method DiffStruct(t: Ty, inherited: bool, a: Value, b: Value, prefix: string, given: Delta)
      returns (r: Result<Delta, DiffError>)
      requires Valid() && t.Struct? && HasType(a, t) && HasType(b, t)
      modifies this`cache
      ensures Valid() && Grown(StructTypes(t))
      ensures Answers(r, FieldsSupported(t, inherited || HasTracked(t), a, b),
                      given + Printed(prefix, StructEdits(t, inherited || HasTracked(t), a, b, 0)))
      ensures old(Room(StructTypes(t))) ==> r != Err(CacheFull)
      decreases t, 2
    {
      if old(Room(StructTypes(t))) { RoomLeft(cache.Keys, StructTypes(t), {t}); }
      var meta := GetOrBuildMeta(t);
      if meta.Err? { return Err(meta.error); }
      if old(Room(StructTypes(t))) { RoomLeft(old(cache).Keys, StructTypes(t), FieldStructTypes(t, 0)); }
      r := DiffFields(t, inherited || meta.value.hasTracked, a, b, prefix, given);
    }

    method DiffLeaf(a: Value, b: Value, path: string, given: Delta) returns (r: Result<Delta, DiffError>)
      ensures Answers(r, LeafSame(a, b) || (Encodable(a) && Encodable(b)), given + Printed(path, LeafEdits(a, b)))
      ensures r != Err(CacheFull)
    {
      if LeafSame(a, b) {
        assert given + Printed(path, []) == given;
        return Ok(given);
      }
      if !Encodable(a) || !Encodable(b) { return Err(MarshalFailed); }
      r := Ok(given + [FieldChange(path, Some(a), Some(b))]);
      assert Printed(path, LeafEdits(a, b)) == [FieldChange(path, Some(a), Some(b))];
    }

    /** Compares two maps key by key, in the order of the keys. */
    method DiffMap(a: Value, b: Value, prefix: string, given: Delta) returns (changes: Delta)
      requires HasType(a, Map) && HasType(b, Map) && prefix != ""
      ensures changes == given + Printed(prefix, MapEdits(a, b))
      decreases a, 1
    {
      var keys := OrderedKeys(Entries(a).Keys + Entries(b).Keys);
      changes := given;
      for i := 0 to |keys|
        invariant changes + Printed(prefix, KeysEdits(a, b, keys[i..])) == given + Printed(prefix, MapEdits(a, b))
      {
        assert keys[i..][0] == keys[i] && keys[i..][1..] == keys[i + 1..];
        PrintedUnder(prefix, keys[i], KeyEdits(a, b, keys[i]));
        PrintedConcat(changes, prefix, Under(keys[i], KeyEdits(a, b, keys[i])), KeysEdits(a, b, keys[i + 1..]));
        changes := DiffKey(a, b, keys[i], prefix + "." + keys[i], changes);
      }
      assert keys[|keys|..] == [] && changes + Printed(prefix, []) == changes;
    }

    method DiffKey(a: Value, b: Value, key: string, path: string, given: Delta) returns (changes: Delta)
      requires HasType(a, Map) && HasType(b, Map) && path != ""
      ensures changes == given + Printed(path, KeyEdits(a, b, key))
      decreases a, 0
    {
      var ma, mb := Entries(a), Entries(b);
      if key in ma && key in mb && ma[key].Dict? && mb[key].Dict? {
        changes := DiffMap(ma[key], mb[key], path, given);
        return;
      }
      var before := if key in ma then Some(ma[key]) else None;
      var after := if key in mb then Some(mb[key]) else None;
      if before == after {
        changes := given;
        assert given + Printed(path, []) == given;
      } else {
        changes := given + [FieldChange(path, before, after)];
        assert Printed(path, [Edit([], before, after)]) == [FieldChange(path, before, after)];
      }
      if key in ma && key in mb { assert Item(ma[key]) && Item(mb[key]); }
    }

    /** Collecting the keys in any order and sorting them gives one result. */
    method OrderedKeys(ks: set<string>) returns (keys: seq<string>)
      ensures keys == SortedKeys(ks)
    {
      var rest: set<string>, found: seq<string> := ks, [];
      while rest != {}
        invariant multiset(rest) + multiset(found) == multiset(ks)
        decreases rest
      {
        var k :| k in rest;
        assert multiset(rest) == multiset(rest - {k}) + multiset{k};
        rest, found := rest - {k}, found + [k];
      }
      keys := Sort(found);
      SortSorts(found);
      SortedKeysExact(ks);
      SortedUnique(keys, SortedKeys(ks));
    }

    /** The changes from `prev` to `curr`, two values of static types `tp` and `tc`. */
    method Diff(tp: Ty, prev: Value, tc: Ty, curr: Value) returns (r: Result<Delta, DiffError>)
      requires Valid() && HasType(prev, tp) && HasType(curr, tc)
      modifies this`cache
      ensures Valid()
      ensures match (Deref(tp, prev), Deref(tc, curr)) {
                case (Err(e), _) => r == Err(e)
                case (_, Err(e)) => r == Err(e)
                case (Ok((t, a)), Ok((t', b))) =>
                  if t != t' then r == Err(TypeMismatch)
                  else
                    && Grown(StructTypes(t))
                    && Answers(r, Supported(t, a, b), DeltaOf(t, a, b))
                    && (old(Room(StructTypes(t))) ==> r != Err(CacheFull))
              }
    {
      var p, c := Deref(tp, prev), Deref(tc, curr);
      if p.Err? { return Err(p.error); }
      if c.Err? { return Err(c.error); }
      if p.value.0 != c.value.0 { return Err(TypeMismatch); }
      r := DiffStruct(p.value.0, false, p.value.1, c.value.1, "", []);
      assert [] + DeltaOf(p.value.0, p.value.1, c.value.1) == DeltaOf(p.value.0, p.value.1, c.value.1);
    }

    /** A copy of `prev`, a struct or a pointer to one, with the changes applied in order. */
    method Apply(t: Ty, prev: Value, delta: Delta) returns (r: Result<Value, DiffError>)
      requires HasType(prev, t)
      ensures r == Applied(t, prev, delta)
    {
      if delta == [] { return Ok(prev); }
      var st, copy := t, prev;
      if t.Ptr? {
        if prev.Nil? { return Err(NilPointer); }
        st, copy := t.elem, prev.target;
      }
      if !st.Struct? { return Err(NotStruct); }
      ghost var start := copy;
      for i := 0 to |delta|
        invariant HasType(copy, st)
        invariant Replayed(st, start, delta) == Replayed(st, copy, delta[i..])
      {
        assert delta[i..][0] == delta[i] && delta[i..][1..] == delta[i + 1..];
        var next := ApplyIn(st, copy, Split(delta[i].path, '.'), delta[i].newValue);
        if next.Err? { return Err(Unapplied(next.error)); }
        copy := next.value;
      }
      r := Ok(copy);
    }
  }

  /** Following pointers down to a struct. */
  function Deref(t: Ty, v: Value): (r: Result<(Ty, Value), DiffError>)
    requires HasType(v, t)
    ensures r.Ok? ==> r.value.0.Struct? && HasType(r.value.1, r.value.0)
    ensures r.Err? ==> r.error.NilPointer? || r.error.NotStruct?
  {
    match t
    case Ptr(e) => if v.Nil? then Err(NilPointer) else Deref(e, v.target)
    case Struct(_) => Ok((t, v))
    case _ => Err(NotStruct)
  }

  /** The delta between two values of one struct type. */
  ghost function DeltaOf(t: Ty, a: Value, b: Value): Delta
    requires t.Struct? && HasType(a, t) && HasType(b, t)
  {
    Printed("", StructEdits(t, HasTracked(t), a, b, 0))
  }

  /** The value a delta leads to, its paths split again segment by segment. */
  function Replayed(t: Ty, v: Value, delta: Delta): (r: Result<Value, Fault>)
    requires HasType(v, t)
    ensures r.Ok? ==> HasType(r.value, t)
    decreases |delta|
  {
    if delta == [] then Ok(v)
    else
      match ApplyIn(t, v, Split(delta[0].path, '.'), delta[0].newValue)
      case Err(f) => Err(f)
      case Ok(w) => Replayed(t, w, delta[1..])
  }

  /** What Apply answers: nothing to do for an empty delta, else a replay on the struct. */
  function Applied(t: Ty, prev: Value, delta: Delta): Result<Value, DiffError>
    requires HasType(prev, t)
  {
    if delta == [] then Ok(prev)
    else if t.Ptr? && prev.Nil? then Err(NilPointer)
    else
      var (st, v) := if t.Ptr? then (t.elem, prev.target) else (t, prev);
      if !st.Struct? then Err(NotStruct)
      else match Replayed(st, v, delta) case Ok(w) => Ok(w) case Err(f) => Err(Unapplied(f))
  }
}
