/** What Diff and Apply answer for what they are given: entities behind pointers, deltas from
    anywhere, and the faults that stop them. */
module Applying {
  import opened Prelude
  import opened Text
  import opened Entities
  import opened Changes
  import opened Merge
  import opened DiffEngine
  import opened Exactness
  import opened Replay
  import Names
  import RoundTrip

  // ----- Behind pointers -----

  function Pointing(n: nat, t: Ty): Ty {
    if n == 0 then t else Ptr(Pointing(n - 1, t))
  }

  function Referring(n: nat, v: Value): Value {
    if n == 0 then v else Ref(Referring(n - 1, v))
  }

  /** Diff follows any number of pointers to a struct, and refuses a nil one on the way. */
  lemma {:induction false} DiffFollows(n: nat, m: nat, t: Ty, v: Value)
    requires HasType(v, t) && !t.Ptr?
    ensures HasType(Referring(n, v), Pointing(n, t))
    ensures Deref(Pointing(n, t), Referring(n, v)) == if t.Struct? then Ok((t, v)) else Err(NotStruct)
    ensures m < n ==> HasType(Referring(m, Nil), Pointing(n, t))
    ensures m < n ==> Deref(Pointing(n, t), Referring(m, Nil)) == Err(NilPointer)
    decreases n
  {
    if n > 0 { DiffFollows(n - 1, if m == 0 then 0 else m - 1, t, v); }
  }

  /** Apply follows one. */
  lemma ApplyFollows(t: Ty, v: Value, delta: Delta)
    requires HasType(v, t)
    ensures Applied(t, v, []) == Ok(v)
    ensures Applied(Ptr(t), Ref(v), []) == Ok(Ref(v)) && Applied(Ptr(t), Nil, []) == Ok(Nil)
    ensures delta != [] ==> Applied(Ptr(t), Nil, delta) == Err(NilPointer)
    ensures delta != [] && t.Struct? ==> Applied(Ptr(t), Ref(v), delta) == Applied(t, v, delta)
    ensures delta != [] && t.Struct? && Replayed(t, v, delta).Ok? ==>
              Applied(t, v, delta) == Ok(Replayed(t, v, delta).value)
    ensures delta != [] && t.Struct? && Replayed(t, v, delta).Err? ==>
              Applied(t, v, delta) == Err(Unapplied(Replayed(t, v, delta).error))
    ensures delta != [] && !t.Struct? ==> Applied(Ptr(t), Ref(v), delta) == Err(NotStruct)
    ensures delta != [] && !t.Struct? && !t.Ptr? ==> Applied(t, v, delta) == Err(NotStruct)
  {
  }

  /** The entity itself, or a pointer to it. */
  function Given(pointer: bool, t: Ty, x: Value): (r: (Ty, Value))
    requires HasType(x, t)
    ensures HasType(r.1, r.0)
  {
    if pointer then (Ptr(t), Ref(x)) else (t, x)
  }

  /** The entity in an answer of Apply: with nothing to do, it answers what it was given. */
  function Entity(pointer: bool, delta: Delta, answer: Value): Value {
    if pointer && delta == [] && answer.Ref? then answer.target else answer
  }

  /** Central law, for what Apply answers when it is given an entity the engine cannot tell
      from `a`, or a pointer to it, and the diff from `a` to `b`. */
  lemma ApplyLaw(pointer: bool, t: Ty, x: Value, a: Value, b: Value)
    requires t.Struct? && HasType(x, t) && HasType(a, t) && HasType(b, t)
    requires Same(t, false, x, a) && Supported(t, a, b)
    ensures var d := DeltaOf(t, a, b);
            var (given, prev) := Given(pointer, t, x);
            var r := Applied(given, prev, d);
            && (Located(t, a, b) ==> (r.Ok? <==> Replayable(t, x, b)))
            && (d == [] ==> r == Ok(prev))
            && (d != [] && Located(t, a, b) && Replayable(t, x, b) ==> r == Ok(MergeIn(t, false, x, b)))
            && (r.Err? ==> r.error.Unapplied?)
            && (r.Ok? ==> HasType(Entity(pointer, d, r.value), t))
            && (Undisturbed(t, a, b) ==>
                  (r.Ok? && Same(t, false, Entity(pointer, d, r.value), b) <==>
                   Conveyed(t, a, b) && Replayable(t, x, b)))
  {
    RoundTrip.DiffThenApply(t, x, a, b);
    ApplyFollows(t, x, DeltaOf(t, a, b));
  }

  // ----- The first fault -----

  lemma {:induction false} ReplayedPrefix(t: Ty, v: Value, delta: Delta, k: nat)
    requires HasType(v, t) && k < |delta|
    ensures Replayed(t, v, delta[..k]).Ok? ==>
              var w := Replayed(t, v, delta[..k]).value;
              var next := ApplyIn(t, w, Split(delta[k].path, '.'), delta[k].newValue);
              && (next.Err? ==> Replayed(t, v, delta) == next)
              && (next.Ok? ==> Replayed(t, v, delta[..k + 1]) == next)
    decreases k
  {
    var d := delta[0];
    var first := ApplyIn(t, v, Split(d.path, '.'), d.newValue);
    assert delta[..k + 1][1..] == delta[1..][..k];
    if k == 0 {
      assert delta[..1] == [d] && delta[..0] == [];
    } else {
      assert delta[..k][0] == d && delta[..k][1..] == delta[1..][..k - 1] && delta[..k + 1][0] == d;
      if first.Ok? { ReplayedPrefix(t, first.value, delta[1..], k - 1); }
    }
  }

  /** A delta is applied change by change, up to the first that fails; that one's fault is
      the answer, and there is an answer without a fault only if none fails. */
  lemma {:induction false} FirstFault(t: Ty, v: Value, delta: Delta) returns (k: nat)
    requires HasType(v, t)
    ensures k <= |delta| && Replayed(t, v, delta[..k]).Ok?
    ensures k == |delta| <==> Replayed(t, v, delta).Ok?
    ensures k < |delta| ==>
              Replayed(t, v, delta) ==
              ApplyIn(t, Replayed(t, v, delta[..k]).value, Split(delta[k].path, '.'), delta[k].newValue)
  {
    k := 0;
    assert delta[..0] == [];
    while k < |delta|
      invariant k <= |delta| && Replayed(t, v, delta[..k]).Ok?
    {
      ReplayedPrefix(t, v, delta, k);
      var w := Replayed(t, v, delta[..k]).value;
      if ApplyIn(t, w, Split(delta[k].path, '.'), delta[k].newValue).Err? { return; }
      k := k + 1;
    }
    assert delta[..|delta|] == delta;
  }

  // ----- One change -----

  lemma Found(t: Ty, v: Value, name: string, idx: seq<nat>, path: seq<string>, after: Option<Value>)
    requires t.Struct? && HasType(v, t) && Names.Nearest(t, name, idx) && Walk(t, idx)
    ensures ApplyIn(t, v, [name] + path, after) ==
            PutBack(t, v, idx, ApplyIn(TyAt(t, idx), At(t, v, idx), path, after))
  {
    Names.ResolveExact(t, name, idx);
    LiftAt(t, v, idx, path, after);
    assert ([name] + path)[1..] == path;
  }

  /** A change that ends at a field: no value, or null, gives it its zero value, a value of its
      type is what JSON makes of it, any other is refused. A name that finds no field is, too. */
  lemma ChangeOfField(t: Ty, v: Value, name: string, idx: seq<nat>, after: Option<Value>)
    requires t.Struct? && HasType(v, t)
    ensures (forall i :: !Names.Nearest(t, name, i)) ==> ApplyIn(t, v, [name], after) == Err(FieldNotFound)
    ensures Names.Nearest(t, name, idx) && Walk(t, idx) ==>
              var ft, r := TyAt(t, idx), ApplyIn(t, v, [name], after);
              && (after.None? || PrintsNull(after.value) ==> r == Ok(Put(t, v, idx, Zero(ft))))
              && (after.Some? && !PrintsNull(after.value) && ft.Ptr? && HasType(after.value, ft.elem) ==>
                    HasType(Ref(Decoded(after.value)), ft) && r == Ok(Put(t, v, idx, Ref(Decoded(after.value)))))
              && (after.Some? && !PrintsNull(after.value) && !ft.Ptr? && HasType(after.value, ft) ==>
                    HasType(Decoded(after.value), ft) && r == Ok(Put(t, v, idx, Decoded(after.value))))
              && (after.Some? && !PrintsNull(after.value) && !HasType(after.value, if ft.Ptr? then ft.elem else ft) ==>
                    r == Err(BadJson))
  {
    assert [name] + [] == [name];
    if forall i :: !Names.Nearest(t, name, i) { NotFound(t, v, name, [], after); }
    if Names.Nearest(t, name, idx) && Walk(t, idx) {
      Found(t, v, name, idx, [], after);
      var ft := TyAt(t, idx);
      if after.Some? && HasType(after.value, if ft.Ptr? then ft.elem else ft) {
        DecodedTyped(after.value, if ft.Ptr? then ft.elem else ft);
      }
    }
  }

  lemma NotFound(t: Ty, v: Value, name: string, path: seq<string>, after: Option<Value>)
    requires t.Struct? && HasType(v, t) && forall i :: !Names.Nearest(t, name, i)
    ensures ApplyIn(t, v, [name] + path, after) == Err(FieldNotFound)
  {
    if Resolve(t, name).Some? { Names.ResolveExact(t, name, Resolve(t, name).value); }
  }

  /** A change that goes on behind a field: only maps, structs and pointers to these lead on. */
  lemma ChangeBehindField(t: Ty, v: Value, name: string, idx: seq<nat>, path: seq<string>, after: Option<Value>)
    requires t.Struct? && HasType(v, t) && path != []
    ensures (forall i :: !Names.Nearest(t, name, i)) ==> ApplyIn(t, v, [name] + path, after) == Err(FieldNotFound)
    ensures Names.Nearest(t, name, idx) && Walk(t, idx) ==>
              var ft, u, r := TyAt(t, idx), At(t, v, idx), ApplyIn(t, v, [name] + path, after);
              && (!ft.Map? && !ft.Struct? && !ft.Ptr? ==> r == Err(NotAStruct))
              && (ft.Map? && u.NilMap? && (|path| > 1 || (after.Some? && Item(after.value))) ==> r == Err(NilMapWrite))
              && (ft.Map? && u.Dict? && |path| > 1 && path[0] in u.m && !u.m[path[0]].Dict? ==> r == Err(NotAMap))
              && (ft.Map? && u.Dict? && |path| == 1 && after.Some? && Item(after.value) ==>
                    if path[0] in u.m && !SameKind(u.m[path[0]], after.value) then r == Err(BadJson)
                    else HasType(Dict(u.m[path[0] := after.value]), ft)
                         && r == Ok(Put(t, v, idx, Dict(u.m[path[0] := after.value]))))
              && (ft.Map? && u.Dict? && |path| == 1 && after.None? ==>
                    HasType(Dict(u.m - {path[0]}), ft) && r == Ok(Put(t, v, idx, Dict(u.m - {path[0]}))))
              && (ft.Ptr? && u.Nil? ==> r == PutBack(t, v, idx, Pointed(ApplyIn(ft.elem, Zero(ft.elem), path, after))))
  {
    if forall i :: !Names.Nearest(t, name, i) { NotFound(t, v, name, path, after); }
    if Names.Nearest(t, name, idx) && Walk(t, idx) { Found(t, v, name, idx, path, after); }
  }
}
