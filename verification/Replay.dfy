/** Replaying a diff: on anything equivalent to the old value it gives the merge with
    the new one, or a fault, and a plain condition on the values says which. */
module Replay {
  import opened Prelude
  import opened Sorting
  import opened Entities
  import opened Changes
  import opened Merge
  import Equivalence

  // ----- Maps -----

  /** A result for the value at a key as one for the map. */
  function InMap(v: Value, k: string, r: Result<Value, Fault>): Result<Value, Fault>
    requires v.Dict?
  {
    match r case Err(f) => Err(f) case Ok(w) => Ok(Dict(v.m[k := w]))
  }

  lemma StepKey(v: Value, k: string, path: seq<string>, after: Option<Value>)
    requires HasType(v, Map) && k in Entries(v) && v.m[k].Dict? && path != []
    ensures ApplyMap(v, [k] + path, after) ==
            InMap(v, k, ApplyMap(v.m[k], path, after))
  {
    assert ([k] + path)[1..] == path;
  }

  /** Changes below one key of a map act on the value at that key. */
  lemma {:induction false} LiftKey(v: Value, k: string, es: seq<Edit>)
    requires HasType(v, Map) && k in Entries(v) && v.m[k].Dict?
    requires forall e :: e in es ==> e.path != []
    ensures ApplyAll(Map, v, Under(k, es)) ==
            InMap(v, k, ApplyAll(Map, v.m[k], es))
    decreases |es|
  {
    if es == [] {
      assert v.m[k := v.m[k]] == v.m;
    } else {
      var us := Under(k, es);
      assert us[0].path == [k] + es[0].path && us[1..] == Under(k, es[1..]);
      assert es[0] in es;
      StepKey(v, k, es[0].path, es[0].after);
      var r := ApplyMap(v.m[k], es[0].path, es[0].after);
      if r.Ok? {
        LiftKey(Dict(v.m[k := r.value]), k, es[1..]);
        var r' := ApplyAll(Map, r.value, es[1..]);
        if r'.Ok? { assert v.m[k := r.value][k := r'.value] == v.m[k := r'.value]; }
      }
    }
  }

  /** What a map holds once the keys in `ks` have been dealt with. */
  ghost function Overlay(y: Value, b: Value, ks: set<string>): Value
    requires HasType(y, Map) && HasType(b, Map)
  {
    if y.NilMap? then y
    else Dict(map k | k in (y.m.Keys - ks) + (Entries(b).Keys * ks) :: if k in ks then Entries(b)[k] else y.m[k])
  }

  /** The change at this key, if there is one, can be replayed. */
  ghost predicate KeyFits(writable: bool, a: Value, b: Value, k: string)
    requires HasType(a, Map) && HasType(b, Map)
  {
    k in Entries(b) ==> KeyReplayable(writable, a, b, k)
  }

  /** A single change at one key of a map. */
  lemma SetKey(y: Value, k: string, e: Edit)
    requires HasType(y, Map) && e.path == []
    ensures ApplyAll(Map, y, Under(k, [e])) == ApplyMap(y, [k], e.after)
  {
    var us := Under(k, [e]);
    assert us == [us[0]] && us[0].path == [k];
    var r := ApplyMap(y, [k], e.after);
    if r.Ok? { assert ApplyAll(Map, r.value, us[1..]) == r; }
  }

  lemma {:induction false} KeyReplay(y: Value, a: Value, b: Value, k: string)
    requires HasType(y, Map) && HasType(a, Map) && HasType(b, Map)
    requires k in Entries(a) || k in Entries(b)
    requires AgreeOn(y, a, k)
    ensures ApplyAll(Map, y, Under(k, KeyEdits(a, b, k))).Ok? <==> KeyFits(y.Dict?, a, b, k)
    ensures KeyFits(y.Dict?, a, b, k) ==>
            ApplyAll(Map, y, Under(k, KeyEdits(a, b, k))) == Ok(Overlay(y, b, {k}))
    decreases a, 0
  {
    var ma, mb := Entries(a), Entries(b);
    var es := KeyEdits(a, b, k);
    OverlayOne(y, b, k);
    if k in ma && k in mb && ma[k].Dict? && mb[k].Dict? {
      MapReplay(ma[k], ma[k], mb[k]);
      MapPathsNonempty(ma[k], mb[k]);
      LiftKey(y, k, es);
    } else if k in ma && k in mb && ma[k] == mb[k] {
      assert es == [] && ApplyAll(Map, y, Under(k, es)) == Ok(y);
      assert y.m[k := mb[k]] == y.m;
    } else {
      if k in ma && k in mb { assert Item(ma[k]) && Item(mb[k]); }
      SetKey(y, k, es[0]);
    }
  }

  lemma OverlayOne(y: Value, b: Value, k: string)
    requires HasType(y, Map) && HasType(b, Map)
    ensures y.Dict? && k in Entries(b) ==> Overlay(y, b, {k}) == Dict(y.m[k := Entries(b)[k]])
    ensures y.Dict? && k !in Entries(b) ==> Overlay(y, b, {k}) == Dict(y.m - {k})
  {
  }

  ghost function KeySet(keys: seq<string>): set<string> {
    set k | k in keys
  }

  lemma OverlayStep(y: Value, b: Value, k: string, rest: seq<string>)
    requires HasType(y, Map) && HasType(b, Map) && k !in rest
    ensures HasType(Overlay(y, b, {k}), Map) && Overlay(y, b, {k}).Dict? == y.Dict?
    ensures forall j :: j != k ==> AgreeOn(Overlay(y, b, {k}), y, j)
    ensures Overlay(Overlay(y, b, {k}), b, KeySet(rest)) == Overlay(y, b, KeySet([k] + rest))
  {
    assert KeySet([k] + rest) == {k} + KeySet(rest);
    if y.Dict? {
      assert Overlay(Overlay(y, b, {k}), b, KeySet(rest)).m == Overlay(y, b, KeySet([k] + rest)).m;
    }
  }

  lemma {:induction false} KeysReplay(y: Value, a: Value, b: Value, keys: seq<string>)
    requires HasType(y, Map) && HasType(a, Map) && HasType(b, Map)
    requires forall i, j :: 0 <= i < j < |keys| ==> keys[i] != keys[j]
    requires forall k :: k in keys ==> k in Entries(a) || k in Entries(b)
    requires forall k :: k in keys ==> AgreeOn(y, a, k)
    ensures ApplyAll(Map, y, KeysEdits(a, b, keys)).Ok? <==> (forall k :: k in keys ==> KeyFits(y.Dict?, a, b, k))
    ensures (forall k :: k in keys ==> KeyFits(y.Dict?, a, b, k)) ==>
            ApplyAll(Map, y, KeysEdits(a, b, keys)) == Ok(Overlay(y, b, KeySet(keys)))
    decreases a, 1, |keys|
  {
    if keys == [] {
      assert y.Dict? ==> y.m == Overlay(y, b, KeySet(keys)).m;
    } else {
      var k, rest := keys[0], keys[1..];
      assert keys == [k] + rest && k !in rest;
      KeyReplay(y, a, b, k);
      ApplyAllConcat(Map, y, Under(k, KeyEdits(a, b, k)), KeysEdits(a, b, rest));
      if KeyFits(y.Dict?, a, b, k) {
        OverlayStep(y, b, k, rest);
        forall j | j in rest ensures AgreeOn(Overlay(y, b, {k}), a, j) {
          assert j in keys && AgreeOn(Overlay(y, b, {k}), y, j) && AgreeOn(y, a, j);
        }
        KeysReplay(Overlay(y, b, {k}), a, b, rest);
      }
    }
  }

  lemma {:induction false} MapReplay(x: Value, a: Value, b: Value)
    requires HasType(x, Map) && HasType(a, Map) && HasType(b, Map) && Entries(x) == Entries(a)
    ensures ApplyAll(Map, x, MapEdits(a, b)).Ok? <==> MapReplayable(x.Dict?, a, b)
    ensures MapReplayable(x.Dict?, a, b) ==> ApplyAll(Map, x, MapEdits(a, b)) == Ok(MergeIn(Map, false, x, b))
    decreases a, 2
  {
    var ks := Entries(a).Keys + Entries(b).Keys;
    var keys := SortedKeys(ks);
    SortedKeysDistinct(ks);
    assert KeySet(keys) == ks;
    KeysFitMap(x.Dict?, a, b, keys);
    KeysReplay(x, a, b, keys);
    OverlayWhole(x, a, b);
  }

  lemma KeysFitMap(writable: bool, a: Value, b: Value, keys: seq<string>)
    requires HasType(a, Map) && HasType(b, Map) && KeySet(keys) == Entries(a).Keys + Entries(b).Keys
    ensures MapReplayable(writable, a, b) <==> forall k :: k in keys ==> KeyFits(writable, a, b, k)
  {
    forall k ensures k in keys <==> k in Entries(a) || k in Entries(b) {
      assert k in keys <==> k in KeySet(keys);
    }
    if forall k :: k in keys ==> KeyFits(writable, a, b, k) {
      forall k | k in Entries(b).Keys ensures KeyReplayable(writable, a, b, k) {
        assert KeyFits(writable, a, b, k);
      }
    }
  }

  lemma OverlayWhole(x: Value, a: Value, b: Value)
    requires HasType(x, Map) && HasType(a, Map) && HasType(b, Map) && Entries(x) == Entries(a)
    ensures Overlay(x, b, Entries(a).Keys + Entries(b).Keys) == MergeIn(Map, false, x, b)
  {
    if x.Dict? { assert Overlay(x, b, Entries(a).Keys + Entries(b).Keys).m == Entries(b); }
  }

  lemma {:induction false} MapPathsNonempty(a: Value, b: Value)
    requires HasType(a, Map) && HasType(b, Map)
    ensures forall e :: e in MapEdits(a, b) ==> e.path != []
  {
    KeysPathsNonempty(a, b, SortedKeys(Entries(a).Keys + Entries(b).Keys));
  }

  lemma {:induction false} KeysPathsNonempty(a: Value, b: Value, keys: seq<string>)
    requires HasType(a, Map) && HasType(b, Map)
    ensures forall e :: e in KeysEdits(a, b, keys) ==> e.path != []
    decreases |keys|
  {
    if keys != [] { KeysPathsNonempty(a, b, keys[1..]); }
  }

  // ----- Structs -----

  ghost function At(t: Ty, v: Value, idx: seq<nat>): (r: Value)
    requires HasType(v, t) && Walk(t, idx)
    ensures HasType(r, TyAt(t, idx))
    decreases idx
  {
    if idx == [] then v else At(t.fields[idx[0]].ty, v.fs[idx[0]], idx[1..])
  }

  ghost function Put(t: Ty, v: Value, idx: seq<nat>, w: Value): (r: Value)
    requires HasType(v, t) && Walk(t, idx) && HasType(w, TyAt(t, idx))
    ensures HasType(r, t)
    decreases idx
  {
    if idx == [] then w
    else Rec(v.fs[idx[0] := Put(t.fields[idx[0]].ty, v.fs[idx[0]], idx[1..], w)])
  }

  lemma {:induction false} PutLaws(t: Ty, v: Value, idx: seq<nat>, w: Value, w': Value)
    requires HasType(v, t) && Walk(t, idx) && HasType(w, TyAt(t, idx)) && HasType(w', TyAt(t, idx))
    ensures At(t, Put(t, v, idx, w), idx) == w
    ensures Put(t, Put(t, v, idx, w), idx, w') == Put(t, v, idx, w')
    ensures Put(t, v, idx, At(t, v, idx)) == v
    decreases idx
  {
    if idx != [] {
      var i, ft := idx[0], t.fields[idx[0]].ty;
      PutLaws(ft, v.fs[i], idx[1..], w, w');
      var p := Put(ft, v.fs[i], idx[1..], w);
      assert v.fs[i := p][i := Put(ft, p, idx[1..], w')] == v.fs[i := Put(ft, p, idx[1..], w')];
    }
  }

  lemma {:induction false} WalkFurther(t: Ty, at: seq<nat>, i: nat)
    requires Walk(t, at) && TyAt(t, at).Struct? && i < |TyAt(t, at).fields|
    ensures Walk(t, at + [i]) && TyAt(t, at + [i]) == TyAt(t, at).fields[i].ty
    decreases at
  {
    if at != [] {
      assert (at + [i])[1..] == at[1..] + [i];
      WalkFurther(t.fields[at[0]].ty, at[1..], i);
    }
  }

  lemma {:induction false} PutFurther(t: Ty, v: Value, at: seq<nat>, i: nat, w: Value)
    requires HasType(v, t) && Walk(t, at) && TyAt(t, at).Struct? && i < |TyAt(t, at).fields|
    requires Walk(t, at + [i]) && TyAt(t, at + [i]) == TyAt(t, at).fields[i].ty && HasType(w, TyAt(t, at + [i]))
    ensures At(t, v, at + [i]) == At(t, v, at).fs[i]
    ensures HasType(Rec(At(t, v, at).fs[i := w]), TyAt(t, at))
    ensures Put(t, v, at + [i], w) == Put(t, v, at, Rec(At(t, v, at).fs[i := w]))
    decreases at
  {
    if at != [] {
      assert (at + [i])[1..] == at[1..] + [i];
      PutFurther(t.fields[at[0]].ty, v.fs[at[0]], at[1..], i, w);
    } else {
      assert (at + [i])[1..] == [];
    }
  }

  /** A result for one field as one for the struct that holds it. */
  ghost function PutBack(t: Ty, v: Value, idx: seq<nat>, r: Result<Value, Fault>): Result<Value, Fault>
    requires HasType(v, t) && Walk(t, idx) && (r.Ok? ==> HasType(r.value, TyAt(t, idx)))
  {
    match r case Err(f) => Err(f) case Ok(w) => Ok(Put(t, v, idx, w))
  }

  /** A result for what a pointer leads to as one for the pointer. */
  function Pointed(r: Result<Value, Fault>): Result<Value, Fault> {
    match r case Err(f) => Err(f) case Ok(w) => Ok(Ref(w))
  }

  /** Through structs only, Apply works on the field itself and leaves the rest alone. */
  lemma {:induction false} LiftAt(t: Ty, v: Value, idx: seq<nat>, path: seq<string>, after: Option<Value>)
    requires HasType(v, t) && IsIndex(t, idx) && Walk(t, idx)
    ensures ApplyAt(t, v, idx, path, after) ==
            PutBack(t, v, idx, ApplyIn(TyAt(t, idx), At(t, v, idx), path, after))
    decreases idx
  {
    var i, ft := idx[0], t.fields[idx[0]].ty;
    assert HasType(v.fs[i], ft);
    if |idx| == 1 {
      assert idx[1..] == [] && TyAt(t, idx) == TyAt(ft, []) && At(t, v, idx) == At(ft, v.fs[i], []);
    } else {
      assert Walk(ft, idx[1..]) && ft.Struct?;
      LiftAt(ft, v.fs[i], idx[1..], path, after);
    }
    var r := ApplyIn(TyAt(t, idx), At(t, v, idx), path, after);
    if r.Ok? { assert Put(t, v, idx, r.value) == Rec(v.fs[i := Put(ft, v.fs[i], idx[1..], r.value)]); }
  }

  lemma {:induction false} LiftField(t: Ty, v: Value, name: string, idx: seq<nat>, es: seq<Edit>)
    requires t.Struct? && HasType(v, t) && Walk(t, idx) && Resolve(t, name) == Some(idx)
    ensures ApplyAll(t, v, Under(name, es)) ==
            PutBack(t, v, idx, ApplyAll(TyAt(t, idx), At(t, v, idx), es))
    decreases |es|
  {
    if es == [] {
      PutLaws(t, v, idx, At(t, v, idx), At(t, v, idx));
    } else {
      var us := Under(name, es);
      assert us[0].path == [name] + es[0].path && us[0].path[1..] == es[0].path && us[1..] == Under(name, es[1..]);
      LiftAt(t, v, idx, es[0].path, es[0].after);
      var r := ApplyIn(TyAt(t, idx), At(t, v, idx), es[0].path, es[0].after);
      if r.Ok? {
        var v1 := Put(t, v, idx, r.value);
        LiftField(t, v1, name, idx, es[1..]);
        PutLaws(t, v, idx, r.value, r.value);
        var r' := ApplyAll(TyAt(t, idx), r.value, es[1..]);
        if r'.Ok? { PutLaws(t, v, idx, r.value, r'.value); }
      }
    }
  }

  lemma {:induction false} LiftPtr(e: Ty, v: Value, es: seq<Edit>)
    requires HasType(v, e) && forall d :: d in es ==> d.path != []
    ensures ApplyAll(Ptr(e), Ref(v), es) ==
            Pointed(ApplyAll(e, v, es))
    decreases |es|
  {
    if es != [] {
      assert es[0] in es;
      var r := ApplyIn(e, v, es[0].path, es[0].after);
      if r.Ok? { LiftPtr(e, r.value, es[1..]); }
    }
  }

  lemma {:induction false} StructPathsNonempty(t: Ty, tracked: bool, a: Value, b: Value, i: nat)
    requires t.Struct? && HasType(a, t) && HasType(b, t) && i <= |t.fields|
    ensures forall e :: e in StructEdits(t, tracked, a, b, i) ==> e.path != []
    decreases t, |t.fields| - i
  {
    if i < |t.fields| {
      var f := t.fields[i];
      if f.Promotes() { StructPathsNonempty(f.ty, tracked || HasTracked(f.ty), a.fs[i], b.fs[i], 0); }
      StructPathsNonempty(t, tracked, a, b, i + 1);
    }
  }

  /** `u` after its fields from the `i`-th on have been merged from `x` and `b`. */
  ghost function Partly(t: Ty, tracked: bool, u: Value, x: Value, b: Value, i: nat): (r: Value)
    requires t.Struct? && HasType(u, t) && HasType(x, t) && HasType(b, t) && i <= |t.fields|
    ensures HasType(r, t)
  {
    Rec(u.fs[..i] + MergeFields(t, tracked, x, b).fs[i..])
  }

  /** Replaying the changes of the struct at `at` inside a host value. */
  lemma {:induction false} StructReplay(
    h: Ty, at: seq<nat>, t: Ty, tracked: bool, v: Value, x: Value, a: Value, b: Value, i: nat)
    requires h.Struct? && t.Struct? && HasType(v, h) && Walk(h, at) && TyAt(h, at) == t
    requires HasType(x, t) && HasType(a, t) && HasType(b, t) && i <= |t.fields|
    requires At(h, v, at).fs[i..] == x.fs[i..]
    requires FieldsSame(t, tracked, x, a) && FieldsSupported(t, tracked, a, b)
    requires SlotsReached(h, at, t, tracked, a, b)
    ensures ApplyAll(h, v, StructEdits(t, tracked, a, b, i)).Ok? <==> FieldsReplayable(t, tracked, x, b, i)
    ensures FieldsReplayable(t, tracked, x, b, i) ==>
            ApplyAll(h, v, StructEdits(t, tracked, a, b, i)) ==
            Ok(Put(h, v, at, Partly(t, tracked, At(h, v, at), x, b, i)))
    decreases t, 1, |t.fields| - i, 1
  {
    var u := At(h, v, at);
    if i == |t.fields| {
      assert Partly(t, tracked, u, x, b, i) == u;
      PutLaws(h, v, at, u, u);
    } else {
      var f := t.fields[i];
      WalkFurther(h, at, i);
      assert u.fs[i] == u.fs[i..][0] == x.fs[i];
      SlotReplay(h, at, t, tracked, v, x, a, b, i);
      ApplyAllConcat(h, v, SlotEdits(f, tracked, a.fs[i], b.fs[i]), StructEdits(t, tracked, a, b, i + 1));
      FieldsReplayableStep(t, tracked, x, b, i);
      if SlotReplayable(f, tracked, x.fs[i], b.fs[i]) {
        RestReplay(h, at, t, tracked, v, x, a, b, i);
      }
    }
  }

  /** The fields after the `i`-th, on the value the changes of the `i`-th lead to. */
  lemma {:induction false} RestReplay(
    h: Ty, at: seq<nat>, t: Ty, tracked: bool, v: Value, x: Value, a: Value, b: Value, i: nat)
    requires h.Struct? && t.Struct? && HasType(v, h) && Walk(h, at) && TyAt(h, at) == t
    requires HasType(x, t) && HasType(a, t) && HasType(b, t) && i < |t.fields|
    requires Walk(h, at + [i]) && TyAt(h, at + [i]) == t.fields[i].ty && At(h, v, at).fs[i..] == x.fs[i..]
    requires FieldsSame(t, tracked, x, a) && FieldsSupported(t, tracked, a, b)
    requires SlotsReached(h, at, t, tracked, a, b)
    ensures var w := Put(h, v, at + [i], MergeSlot(t.fields[i], tracked, x.fs[i], b.fs[i]));
            && (ApplyAll(h, w, StructEdits(t, tracked, a, b, i + 1)).Ok? <==> FieldsReplayable(t, tracked, x, b, i + 1))
            && (FieldsReplayable(t, tracked, x, b, i + 1) ==>
                  ApplyAll(h, w, StructEdits(t, tracked, a, b, i + 1)) ==
                  Ok(Put(h, v, at, Partly(t, tracked, At(h, v, at), x, b, i))))
    decreases t, 1, |t.fields| - i, 0
  {
    var u1 := PartlyStep(h, at, t, tracked, v, x, b, i);
    StructReplay(h, at, t, tracked, Put(h, v, at, u1), x, a, b, i + 1);
  }

  lemma FieldsReplayableStep(t: Ty, tracked: bool, x: Value, b: Value, i: nat)
    requires t.Struct? && HasType(x, t) && HasType(b, t) && i < |t.fields|
    ensures FieldsReplayable(t, tracked, x, b, i) <==>
            SlotReplayable(t.fields[i], tracked, x.fs[i], b.fs[i]) && FieldsReplayable(t, tracked, x, b, i + 1)
  {
  }

  /** Merging one more field. */
  lemma PartlyStep(h: Ty, at: seq<nat>, t: Ty, tracked: bool, v: Value, x: Value, b: Value, i: nat) returns (u1: Value)
    requires h.Struct? && t.Struct? && HasType(v, h) && Walk(h, at) && TyAt(h, at) == t
    requires HasType(x, t) && HasType(b, t) && i < |t.fields|
    requires Walk(h, at + [i]) && TyAt(h, at + [i]) == t.fields[i].ty
    requires At(h, v, at).fs[i..] == x.fs[i..]
    ensures HasType(u1, t) && u1.fs[i + 1..] == x.fs[i + 1..]
    ensures Put(h, v, at + [i], MergeSlot(t.fields[i], tracked, x.fs[i], b.fs[i])) == Put(h, v, at, u1)
    ensures At(h, Put(h, v, at, u1), at) == u1
    ensures Put(h, Put(h, v, at, u1), at, Partly(t, tracked, u1, x, b, i + 1)) ==
            Put(h, v, at, Partly(t, tracked, At(h, v, at), x, b, i))
  {
    var u, w := At(h, v, at), MergeSlot(t.fields[i], tracked, x.fs[i], b.fs[i]);
    PutFurther(h, v, at, i, w);
    u1 := Rec(u.fs[i := w]);
    PutLaws(h, v, at, u1, Partly(t, tracked, u1, x, b, i + 1));
    assert u1.fs[i + 1..] == u.fs[i..][1..] == x.fs[i..][1..] == x.fs[i + 1..];
    var m := MergeFields(t, tracked, x, b).fs;
    assert u1.fs[..i + 1] == u.fs[..i] + [w] && m[i..] == [w] + m[i + 1..];
    assert u1.fs[..i + 1] + m[i + 1..] == u.fs[..i] + m[i..];
  }

  lemma {:induction false} SlotReplay(
    h: Ty, at: seq<nat>, t: Ty, tracked: bool, v: Value, x: Value, a: Value, b: Value, i: nat)
    requires h.Struct? && t.Struct? && HasType(v, h) && Walk(h, at) && TyAt(h, at) == t
    requires HasType(x, t) && HasType(a, t) && HasType(b, t) && i < |t.fields|
    requires Walk(h, at + [i]) && TyAt(h, at + [i]) == t.fields[i].ty && At(h, v, at).fs[i] == x.fs[i]
    requires FieldsSame(t, tracked, x, a) && FieldsSupported(t, tracked, a, b)
    requires SlotsReached(h, at, t, tracked, a, b)
    ensures ApplyAll(h, v, SlotEdits(t.fields[i], tracked, a.fs[i], b.fs[i])).Ok? <==>
            SlotReplayable(t.fields[i], tracked, x.fs[i], b.fs[i])
    ensures SlotReplayable(t.fields[i], tracked, x.fs[i], b.fs[i]) ==>
            ApplyAll(h, v, SlotEdits(t.fields[i], tracked, a.fs[i], b.fs[i])) ==
            Ok(Put(h, v, at + [i], MergeSlot(t.fields[i], tracked, x.fs[i], b.fs[i])))
    decreases t, 0, 1
  {
    var f, idx := t.fields[i], at + [i];
    var xi, ai, bi := x.fs[i], a.fs[i], b.fs[i];
    PutFurther(h, v, at, i, xi);
    assert SlotSame(f, tracked, xi, ai) && SlotSupported(f, tracked, ai, bi);
    if Skipped(f, tracked) {
      PutLaws(h, v, idx, xi, xi);
    } else if f.Promotes() {
      var tr := tracked || HasTracked(f.ty);
      StructReplay(h, idx, f.ty, tr, v, xi, ai, bi, 0);
      PartlyWhole(f.ty, tr, xi, bi);
    } else {
      NamedReplay(h, at, t, tracked, v, x, a, b, i);
    }
  }

  /** A field that has a path of its own. */
  lemma {:induction false} NamedReplay(
    h: Ty, at: seq<nat>, t: Ty, tracked: bool, v: Value, x: Value, a: Value, b: Value, i: nat)
    requires h.Struct? && t.Struct? && HasType(v, h) && Walk(h, at) && TyAt(h, at) == t
    requires HasType(x, t) && HasType(a, t) && HasType(b, t) && i < |t.fields|
    requires Walk(h, at + [i]) && TyAt(h, at + [i]) == t.fields[i].ty && At(h, v, at).fs[i] == x.fs[i]
    requires FieldsSame(t, tracked, x, a) && FieldsSupported(t, tracked, a, b)
    requires SlotsReached(h, at, t, tracked, a, b) && !Skipped(t.fields[i], tracked) && !t.fields[i].Promotes()
    ensures var f := t.fields[i]; var es := Under(f.name, FieldEdits(f.ty, f.tags.normalized, a.fs[i], b.fs[i]));
            && (ApplyAll(h, v, es).Ok? <==> Replayable(f.ty, x.fs[i], b.fs[i]))
            && (Replayable(f.ty, x.fs[i], b.fs[i]) ==>
                  ApplyAll(h, v, es) == Ok(Put(h, v, at + [i], MergeIn(f.ty, f.tags.normalized, x.fs[i], b.fs[i]))))
    decreases t, 0, 0
  {
    var f := t.fields[i];
    var xi, ai, bi := x.fs[i], a.fs[i], b.fs[i];
    PutFurther(h, v, at, i, xi);
    assert SlotSame(f, tracked, xi, ai) && SlotSupported(f, tracked, ai, bi);
    FieldReplay(f.ty, f.tags.normalized, xi, ai, bi);
    var es := FieldEdits(f.ty, f.tags.normalized, ai, bi);
    if Same(f.ty, f.tags.normalized, ai, bi) {
      Equivalence.EmptyIffSame(f.ty, f.tags.normalized, ai, bi);
      assert es == [] && Under(f.name, es) == [];
      PutLaws(h, v, at + [i], xi, xi);
    } else {
      LiftField(h, v, f.name, at + [i], es);
    }
  }

  /** The main theorem for one field: on any `x` equivalent to `a`, replaying the
      changes from `a` to `b` merges `b` into `x` exactly when they are replayable there. */
  lemma {:induction false} FieldReplay(t: Ty, norm: bool, x: Value, a: Value, b: Value)
    requires HasType(x, t) && HasType(a, t) && HasType(b, t)
    requires Same(t, norm, x, a) && Supported(t, a, b) && Reached(t, a, b)
    ensures ApplyAll(t, x, FieldEdits(t, norm, a, b)).Ok? <==> Replayable(t, x, b)
    ensures Replayable(t, x, b) ==> ApplyAll(t, x, FieldEdits(t, norm, a, b)) == Ok(MergeIn(t, norm, x, b))
    decreases t, 4
  {
    match t
    case Map => MapFieldReplay(x, a, b);
    case Struct(_) => WholeReplay(t, x, a, b);
    case Ptr(e) => PointerReplay(e, norm, x, a, b);
    case _ => SetReplay(t, norm, x, a, b);
  }

  lemma {:induction false} PointerReplay(e: Ty, norm: bool, x: Value, a: Value, b: Value)
    requires HasType(x, Ptr(e)) && HasType(a, Ptr(e)) && HasType(b, Ptr(e))
    requires Same(Ptr(e), norm, x, a) && Supported(Ptr(e), a, b) && Reached(Ptr(e), a, b)
    ensures ApplyAll(Ptr(e), x, FieldEdits(Ptr(e), norm, a, b)).Ok? <==> Replayable(Ptr(e), x, b)
    ensures Replayable(Ptr(e), x, b) ==>
            ApplyAll(Ptr(e), x, FieldEdits(Ptr(e), norm, a, b)) == Ok(MergeIn(Ptr(e), norm, x, b))
    decreases Ptr(e), 3
  {
    if e.Struct? && x.Ref? && b.Ref? {
      TargetReplay(e, x.target, a.target, b.target);
    } else {
      PtrReplay(e, norm, x, a, b);
    }
  }

  lemma {:induction false} WholeReplay(t: Ty, x: Value, a: Value, b: Value)
    requires t.Struct? && HasType(x, t) && HasType(a, t) && HasType(b, t)
    requires FieldsSame(t, HasTracked(t), x, a) && FieldsSupported(t, HasTracked(t), a, b)
    requires SlotsReached(t, [], t, HasTracked(t), a, b)
    ensures ApplyAll(t, x, StructEdits(t, HasTracked(t), a, b, 0)).Ok? <==> FieldsReplayable(t, HasTracked(t), x, b, 0)
    ensures FieldsReplayable(t, HasTracked(t), x, b, 0) ==>
            ApplyAll(t, x, StructEdits(t, HasTracked(t), a, b, 0)) == Ok(MergeFields(t, HasTracked(t), x, b))
    decreases t, 2
  {
    StructReplay(t, [], t, HasTracked(t), x, x, a, b, 0);
    PartlyWhole(t, HasTracked(t), x, b);
  }

  lemma {:induction false} TargetReplay(e: Ty, x: Value, a: Value, b: Value)
    requires e.Struct? && HasType(x, e) && HasType(a, e) && HasType(b, e)
    requires FieldsSame(e, HasTracked(e), x, a) && FieldsSupported(e, HasTracked(e), a, b)
    requires SlotsReached(e, [], e, HasTracked(e), a, b)
    ensures ApplyAll(Ptr(e), Ref(x), StructEdits(e, HasTracked(e), a, b, 0)).Ok? <==>
            FieldsReplayable(e, HasTracked(e), x, b, 0)
    ensures FieldsReplayable(e, HasTracked(e), x, b, 0) ==>
            ApplyAll(Ptr(e), Ref(x), StructEdits(e, HasTracked(e), a, b, 0)) ==
            Ok(Ref(MergeFields(e, HasTracked(e), x, b)))
    decreases e, 3
  {
    WholeReplay(e, x, a, b);
    StructPathsNonempty(e, HasTracked(e), a, b, 0);
    LiftPtr(e, x, StructEdits(e, HasTracked(e), a, b, 0));
  }

  lemma PartlyWhole(t: Ty, tracked: bool, x: Value, b: Value)
    requires t.Struct? && HasType(x, t) && HasType(b, t)
    ensures Partly(t, tracked, x, x, b, 0) == MergeFields(t, tracked, x, b)
  {
  }

  lemma MapFieldReplay(x: Value, a: Value, b: Value)
    requires HasType(x, Map) && HasType(a, Map) && HasType(b, Map) && Entries(x) == Entries(a)
    ensures ApplyAll(Map, x, MapEdits(a, b)).Ok? <==> MapReplayable(x.Dict?, x, b)
    ensures MapReplayable(x.Dict?, x, b) ==> ApplyAll(Map, x, MapEdits(a, b)) == Ok(MergeIn(Map, false, x, b))
  {
    MapReplay(x, a, b);
    forall k | k in Entries(b).Keys
      ensures KeyReplayable(x.Dict?, x, b, k) <==> KeyReplayable(x.Dict?, a, b, k)
    {
    }
  }

  lemma SetWhole(t: Ty, x: Value, e: Edit)
    requires HasType(x, t) && e.path == []
    ensures ApplyAll(t, x, [e]) == SetFrom(t, e.after)
  {
    assert ApplyIn(t, x, [e][0].path, [e][0].after) == SetFrom(t, e.after);
    if SetFrom(t, e.after).Ok? { assert [e][1..] == []; }
  }

  /** A field compared as a whole is set as a whole. */
  lemma SetReplay(t: Ty, norm: bool, x: Value, a: Value, b: Value)
    requires HasType(x, t) && HasType(a, t) && HasType(b, t)
    requires !t.Map? && !t.Struct? && !t.Ptr? && Same(t, norm, x, a) && Supported(t, a, b)
    ensures ApplyAll(t, x, FieldEdits(t, norm, a, b)) == Ok(MergeIn(t, norm, x, b))
  {
    var es := FieldEdits(t, norm, a, b);
    if es != [] {
      assert es == [es[0]];
      SetWhole(t, x, es[0]);
    }
  }

  lemma PtrReplay(e: Ty, norm: bool, x: Value, a: Value, b: Value)
    requires HasType(x, Ptr(e)) && HasType(a, Ptr(e)) && HasType(b, Ptr(e))
    requires e.Struct? ==> x.Nil? || b.Nil?
    requires Same(Ptr(e), norm, x, a)
    ensures ApplyAll(Ptr(e), x, FieldEdits(Ptr(e), norm, a, b)) == Ok(MergeIn(Ptr(e), norm, x, b))
  {
    var es := FieldEdits(Ptr(e), norm, a, b);
    if es != [] {
      assert es == [es[0]];
      SetWhole(Ptr(e), x, es[0]);
    }
  }
}
