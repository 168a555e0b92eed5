/** The old values of a delta: turned around, it is the diff the other way, and takes the
    change back. And the order in which changes are listed. */
module Undo {
  import opened Prelude
  import opened Text
  import opened Sorting
  import opened Entities
  import opened Changes
  import opened Merge
  import opened DiffEngine
  import opened Exactness
  import Equivalence
  import RoundTrip

  /** Every change with its old and its new value exchanged. */
  function Reversed(delta: Delta): (r: Delta)
    ensures |r| == |delta|
    ensures forall i :: 0 <= i < |delta| ==> r[i] == FieldChange(delta[i].path, delta[i].newValue, delta[i].oldValue)
  {
    seq(|delta|, i requires 0 <= i < |delta| => FieldChange(delta[i].path, delta[i].newValue, delta[i].oldValue))
  }

  function Flipped(es: seq<Edit>): (r: seq<Edit>)
    ensures |r| == |es|
    ensures forall i :: 0 <= i < |es| ==> r[i] == Edit(es[i].path, es[i].after, es[i].before)
  {
    seq(|es|, i requires 0 <= i < |es| => Edit(es[i].path, es[i].after, es[i].before))
  }

  lemma FlippedUnder(name: string, es: seq<Edit>)
    ensures Under(name, Flipped(es)) == Flipped(Under(name, es))
  {
  }

  lemma FlippedConcat(es: seq<Edit>, fs: seq<Edit>)
    ensures Flipped(es + fs) == Flipped(es) + Flipped(fs)
  {
  }

  lemma {:induction false} FieldFlipped(t: Ty, norm: bool, a: Value, b: Value)
    requires HasType(a, t) && HasType(b, t)
    ensures FieldEdits(t, norm, b, a) == Flipped(FieldEdits(t, norm, a, b))
    decreases t, 1
  {
    match t
    case Map => MapFlipped(a, b);
    case Struct(_) => StructFlipped(t, HasTracked(t), a, b, 0);
    case Ptr(e) => if a.Ref? && b.Ref? && e.Struct? { StructFlipped(e, HasTracked(e), a.target, b.target, 0); }
    case _ =>
  }

  lemma {:induction false} StructFlipped(t: Ty, tracked: bool, a: Value, b: Value, i: nat)
    requires t.Struct? && HasType(a, t) && HasType(b, t) && i <= |t.fields|
    ensures StructEdits(t, tracked, b, a, i) == Flipped(StructEdits(t, tracked, a, b, i))
    decreases t, 0, |t.fields| - i
  {
    if i < |t.fields| {
      var f := t.fields[i];
      if f.Promotes() {
        StructFlipped(f.ty, tracked || HasTracked(f.ty), a.fs[i], b.fs[i], 0);
      } else {
        FieldFlipped(f.ty, f.tags.normalized, a.fs[i], b.fs[i]);
        FlippedUnder(f.name, FieldEdits(f.ty, f.tags.normalized, a.fs[i], b.fs[i]));
      }
      assert SlotEdits(f, tracked, b.fs[i], a.fs[i]) == Flipped(SlotEdits(f, tracked, a.fs[i], b.fs[i]));
      StructFlipped(t, tracked, a, b, i + 1);
      FlippedConcat(SlotEdits(f, tracked, a.fs[i], b.fs[i]), StructEdits(t, tracked, a, b, i + 1));
    }
  }

  lemma {:induction false} MapFlipped(a: Value, b: Value)
    requires HasType(a, Map) && HasType(b, Map)
    ensures MapEdits(b, a) == Flipped(MapEdits(a, b))
    decreases a, 1
  {
    assert Entries(a).Keys + Entries(b).Keys == Entries(b).Keys + Entries(a).Keys;
    KeysFlipped(a, b, SortedKeys(Entries(a).Keys + Entries(b).Keys));
  }

  lemma {:induction false} KeysFlipped(a: Value, b: Value, keys: seq<string>)
    requires HasType(a, Map) && HasType(b, Map)
    ensures KeysEdits(b, a, keys) == Flipped(KeysEdits(a, b, keys))
    decreases a, 0, |keys|
  {
    if keys != [] {
      KeyFlipped(a, b, keys[0]);
      FlippedUnder(keys[0], KeyEdits(a, b, keys[0]));
      KeysFlipped(a, b, keys[1..]);
      FlippedConcat(Under(keys[0], KeyEdits(a, b, keys[0])), KeysEdits(a, b, keys[1..]));
    }
  }

  lemma {:induction false} KeyFlipped(a: Value, b: Value, k: string)
    requires HasType(a, Map) && HasType(b, Map)
    ensures KeyEdits(b, a, k) == Flipped(KeyEdits(a, b, k))
    decreases a, 0, 0
  {
    var ma, mb := Entries(a), Entries(b);
    if k in ma && k in mb && ma[k].Dict? && mb[k].Dict? { MapFlipped(ma[k], mb[k]); }
  }

  lemma {:induction false} SupportedFlipped(t: Ty, a: Value, b: Value)
    requires HasType(a, t) && HasType(b, t) && Supported(t, a, b)
    ensures Supported(t, b, a)
    decreases t, 1
  {
    match t
    case Struct(_) => FieldsSupportedFlipped(t, HasTracked(t), a, b);
    case Ptr(e) => if a.Ref? && b.Ref? && e.Struct? { FieldsSupportedFlipped(e, HasTracked(e), a.target, b.target); }
    case _ =>
  }

  lemma {:induction false} FieldsSupportedFlipped(t: Ty, tracked: bool, a: Value, b: Value)
    requires t.Struct? && HasType(a, t) && HasType(b, t) && FieldsSupported(t, tracked, a, b)
    ensures FieldsSupported(t, tracked, b, a)
    decreases t, 0
  {
    forall i | 0 <= i < |t.fields| ensures SlotSupported(t.fields[i], tracked, b.fs[i], a.fs[i]) {
      var f := t.fields[i];
      assert SlotSupported(f, tracked, a.fs[i], b.fs[i]);
      if !Skipped(f, tracked) {
        if f.Promotes() { FieldsSupportedFlipped(f.ty, tracked || HasTracked(f.ty), a.fs[i], b.fs[i]); }
        else { SupportedFlipped(f.ty, a.fs[i], b.fs[i]); }
      }
    }
  }

  /** The delta turned around is the diff the other way: every change names both values. */
  lemma ReversedDelta(t: Ty, a: Value, b: Value)
    requires t.Struct? && HasType(a, t) && HasType(b, t)
    ensures DeltaOf(t, b, a) == Reversed(DeltaOf(t, a, b))
  {
    StructFlipped(t, HasTracked(t), a, b, 0);
  }

  /** So it takes the change back: on what the delta led to, or anything the engine cannot
      tell from it, it succeeds exactly when that is replayable, and merges the old value in. */
  lemma TakenBack(t: Ty, y: Value, a: Value, b: Value)
    requires t.Struct? && HasType(y, t) && HasType(a, t) && HasType(b, t) && Supported(t, a, b)
    requires Same(t, false, y, b) && Located(t, b, a)
    ensures var back := Replayed(t, y, Reversed(DeltaOf(t, a, b)));
            && (back.Ok? <==> Replayable(t, y, a))
            && (back.Ok? ==> back.value == MergeIn(t, false, y, a))
            && (back.Ok? ==> (Same(t, false, back.value, a) <==> Expressed(t, b, a)))
  {
    ReversedDelta(t, a, b);
    SupportedFlipped(t, a, b);
    RoundTrip.DiffThenApply(t, y, b, a);
  }

  // ----- The order of the changes -----

  /** In the order of declaration, embedded structs in their place. */
  predicate NotAfter(p: seq<nat>, q: seq<nat>) {
    p == [] || (q != [] && (p[0] < q[0] || (p[0] == q[0] && NotAfter(p[1..], q[1..]))))
  }

  /** These are the places of the fields that the changes are in, change by change. */
  ghost predicate Places(t: Ty, tracked: bool, es: seq<Edit>, ps: seq<seq<nat>>) {
    && |ps| == |es|
    && (forall k :: 0 <= k < |es| ==>
          Slot(t, tracked, ps[k]) && es[k].path != [] && SlotField(t, tracked, ps[k]).name == es[k].path[0])
    && (forall j, k :: 0 <= j < k < |es| ==> NotAfter(ps[j], ps[k]))
  }

  lemma {:induction false} NotAfterItself(p: seq<nat>)
    ensures NotAfter(p, p)
  {
    if p != [] { NotAfterItself(p[1..]); }
  }

  lemma PlacesJoined(t: Ty, tracked: bool, es: seq<Edit>, fs: seq<Edit>, ps: seq<seq<nat>>, qs: seq<seq<nat>>, i: nat)
    requires Places(t, tracked, es, ps) && Places(t, tracked, fs, qs)
    requires forall k :: 0 <= k < |ps| ==> ps[k] != [] && ps[k][0] == i
    requires forall k :: 0 <= k < |qs| ==> qs[k] != [] && qs[k][0] > i
    ensures Places(t, tracked, es + fs, ps + qs)
  {
  }

  lemma {:induction false} StructInOrder(t: Ty, tracked: bool, a: Value, b: Value, i: nat) returns (ps: seq<seq<nat>>)
    requires t.Struct? && HasType(a, t) && HasType(b, t) && i <= |t.fields|
    ensures Places(t, tracked, StructEdits(t, tracked, a, b, i), ps)
    ensures forall k :: 0 <= k < |ps| ==> ps[k] != [] && ps[k][0] >= i
    decreases t, |t.fields| - i
  {
    ps := [];
    if i < |t.fields| {
      var here := SlotInOrder(t, tracked, a, b, i);
      var later := StructInOrder(t, tracked, a, b, i + 1);
      ps := here + later;
      PlacesJoined(t, tracked, SlotEdits(t.fields[i], tracked, a.fs[i], b.fs[i]),
        StructEdits(t, tracked, a, b, i + 1), here, later, i);
    }
  }

  lemma {:induction false} SlotInOrder(t: Ty, tracked: bool, a: Value, b: Value, i: nat) returns (ps: seq<seq<nat>>)
    requires t.Struct? && HasType(a, t) && HasType(b, t) && i < |t.fields|
    ensures Places(t, tracked, SlotEdits(t.fields[i], tracked, a.fs[i], b.fs[i]), ps)
    ensures forall k :: 0 <= k < |ps| ==> ps[k] != [] && ps[k][0] == i
    decreases t, 0
  {
    var f := t.fields[i];
    var es := SlotEdits(f, tracked, a.fs[i], b.fs[i]);
    if !Skipped(f, tracked) && f.Promotes() {
      var inner := StructInOrder(f.ty, tracked || HasTracked(f.ty), a.fs[i], b.fs[i], 0);
      ps := seq(|inner|, k requires 0 <= k < |inner| => [i] + inner[k]);
      Promote(t, tracked, i, es, inner, ps);
    } else {
      ps := seq(|es|, _ => [i]);
      NotAfterItself([i]);
      if es != [] { OwnSlot(t, tracked, a, b, i); }
    }
  }

  lemma Promote(t: Ty, tracked: bool, i: nat, es: seq<Edit>, inner: seq<seq<nat>>, ps: seq<seq<nat>>)
    requires t.Struct? && i < |t.fields| && !Skipped(t.fields[i], tracked) && t.fields[i].Promotes()
    requires Places(t.fields[i].ty, tracked || HasTracked(t.fields[i].ty), es, inner)
    requires |ps| == |inner| && forall k :: 0 <= k < |inner| ==> ps[k] == [i] + inner[k]
    ensures Places(t, tracked, es, ps)
  {
    var ft := t.fields[i].ty;
    forall k | 0 <= k < |es|
      ensures Slot(t, tracked, ps[k]) && es[k].path != [] && SlotField(t, tracked, ps[k]).name == es[k].path[0]
    {
      assert Slot(ft, tracked || HasTracked(ft), inner[k]) && ps[k][1..] == inner[k];
    }
    forall j, k | 0 <= j < k < |es| ensures NotAfter(ps[j], ps[k]) {
      assert ps[j][1..] == inner[j] && ps[k][1..] == inner[k] && NotAfter(inner[j], inner[k]);
    }
  }

  /** A diff lists its changes field by field, as they are declared, */
  lemma DeltaInOrder(t: Ty, a: Value, b: Value) returns (ps: seq<seq<nat>>)
    requires t.Struct? && HasType(a, t) && HasType(b, t)
    ensures Places(t, HasTracked(t), StructEdits(t, HasTracked(t), a, b, 0), ps)
  {
    ps := StructInOrder(t, HasTracked(t), a, b, 0);
  }

  /** and those in a map by ascending key. */
  lemma {:induction false} MapInOrder(a: Value, b: Value)
    requires HasType(a, Map) && HasType(b, Map)
    ensures var es := MapEdits(a, b);
            && (forall e :: e in es ==> e.path != [])
            && (forall i, j :: 0 <= i < j < |es| ==> LexLe(es[i].path[0], es[j].path[0]))
  {
    var ks := Entries(a).Keys + Entries(b).Keys;
    SortedKeysExact(ks);
    KeysInOrder(a, b, SortedKeys(ks));
  }

  /** All changes under these keys, by ascending key. */
  ghost predicate Ascending(es: seq<Edit>, keys: seq<string>) {
    && (forall e :: e in es ==> e.path != [] && e.path[0] in keys)
    && (forall i, j :: 0 <= i < j < |es| ==> LexLe(es[i].path[0], es[j].path[0]))
  }

  lemma FirstKey(k: string, es: seq<Edit>, more: seq<string>)
    ensures Ascending(Under(k, es), [k] + more)
  {
    LexTotal(k, k);
  }

  lemma Ascend(k: string, more: seq<string>, here: seq<Edit>, later: seq<Edit>)
    requires Sorted([k] + more) && (forall e :: e in here ==> e.path != [] && e.path[0] == k) && Ascending(later, more)
    requires Ascending(here, [k] + more)
    ensures Ascending(here + later, [k] + more)
  {
    forall e | e in later ensures LexLe(k, e.path[0]) {
      var n: nat :| n < |more| && more[n] == e.path[0];
      assert ([k] + more)[0] == k && ([k] + more)[n + 1] == e.path[0];
    }
    var es := here + later;
    forall i, j | 0 <= i < j < |es| ensures LexLe(es[i].path[0], es[j].path[0]) {
      if i < |here| <= j { assert here[i] in here && later[j - |here|] in later; }
    }
  }

  lemma {:induction false} KeysInOrder(a: Value, b: Value, keys: seq<string>)
    requires HasType(a, Map) && HasType(b, Map) && Sorted(keys)
    ensures Ascending(KeysEdits(a, b, keys), keys)
    decreases |keys|
  {
    if keys != [] {
      KeysInOrder(a, b, keys[1..]);
      assert keys == [keys[0]] + keys[1..];
      FirstKey(keys[0], KeyEdits(a, b, keys[0]), keys[1..]);
      Ascend(keys[0], keys[1..], Under(keys[0], KeyEdits(a, b, keys[0])), KeysEdits(a, b, keys[1..]));
    }
  }
}
