/** What Diff and Apply lose, one input for each way: dotted map keys, promoted fields that a
    field further out hides, and pointers to what JSON prints as null. */
module Losses {
  import opened Prelude
  import opened Entities
  import opened Changes
  import opened Merge
  import opened DiffEngine
  import opened Exactness
  import opened Replay
  import opened Paths
  import opened Documents
  import RoundTrip
  import Equivalence

  /** As in every Go struct. */
  ghost predicate DistinctNames(t: Ty)
    requires t.Struct?
  {
    forall i, j :: 0 <= i < j < |t.fields| ==> t.fields[i].name != t.fields[j].name
  }

  lemma {:induction false} OnlyHit(t: Ty, i: nat, from: nat)
    requires t.Struct? && DistinctNames(t) && i < |t.fields| && from <= |t.fields|
    ensures Hits(t, t.fields[i].name, 0, from) == if from <= i then [[i]] else []
    decreases |t.fields| - from
  {
    if from < |t.fields| {
      OnlyHit(t, i, from + 1);
      assert t.fields[from].name == t.fields[i].name <==> from == i;
    }
  }

  /** A field of the struct itself hides every promoted field of its name, whichever of the
      two is declared first and whatever else there is. */
  lemma OuterHides(t: Ty, i: nat, p: seq<nat>)
    requires t.Struct? && DistinctNames(t) && i < |t.fields|
    requires Slot(t, HasTracked(t), p) && |p| > 1 && SlotField(t, HasTracked(t), p).name == t.fields[i].name
    ensures Resolve(t, t.fields[i].name) == Some([i]) && Hidden(t, HasTracked(t), p)
  {
    OnlyHit(t, i, 0);
    assert |[i]| != |p|;
  }

  /** A changed field that is hidden keeps its old value, so the new entity is not reached. */
  lemma HiddenIsLost(t: Ty, x: Value, a: Value, b: Value, p: seq<nat>)
    requires t.Struct? && HasType(x, t) && HasType(a, t) && HasType(b, t) && Same(t, false, x, a) && Supported(t, a, b)
    requires Undisturbed(t, a, b) && HiddenChange(t, a, b, p)
    ensures Replayed(t, x, DeltaOf(t, a, b)).Ok? ==>
              && At(t, Replayed(t, x, DeltaOf(t, a, b)).value, p) == At(t, x, p)
              && !Same(t, false, Replayed(t, x, DeltaOf(t, a, b)).value, b)
  {
    RoundTrip.DeltaIsReread(t, x, a, b);
    var r := Replayed(t, x, DeltaOf(t, a, b));
    if r.Ok? {
      HiddenKept(t, x, a, b, p, r.value);
      KeptIsWrong(t, x, a, b, p, r.value, r.value);
    }
  }

  // ----- A dotted key -----

  /** From a document with an empty map to one with the key "a.b": Apply succeeds and gives
      a key "a" that holds a map. */
  lemma DottedKeyLost(t: Ty, u: Value)
    requires t == Document() && u.Atom?
    ensures var a, b, w := Doc(Dict(map[])), Doc(Single("a.b", u)), Doc(Single("a", Single("b", u)));
            && HasType(a, t) && HasType(b, t) && HasType(w, t)
            && Replayed(t, a, DeltaOf(t, a, b)) == Ok(w) && !Same(t, false, w, b)
  {
    var x: Value, y, z := Dict(map[]), Single("a.b", u), Single("a", Single("b", u));
    SingleTyped("a.b", u);
    SingleTyped("b", u);
    assert "a.b" == "a" + "." + "b";
    DottedNests("a", "b", u);
    assert HasType(z, Map);
    DocTyped(t, x);
    DocTyped(t, y);
    DocTyped(t, z);
    DocReplayed(t, x, x, y, z);
    DocSame(t, z, y);
  }

  // ----- An entity with a hidden field -----

  function Inner(): Ty {
    Struct([Field("n", Leaf, false, PLAIN)])
  }

  /** A field beside an embedded struct that promotes one of the same name. */
  function Host(): Ty {
    Struct([Field("n", Leaf, false, PLAIN), Field("Base", Inner(), true, PLAIN)])
  }

  function Entity(x: Value, y: Value): Value {
    Rec([x, Rec([y])])
  }

  lemma HostSlots(p: seq<nat>)
    ensures !HasTracked(Host()) && !HasTracked(Inner())
    ensures Slot(Host(), false, p) <==> p == [0] || p == [1, 0]
    ensures Slot(Host(), false, p) ==> SlotField(Host(), false, p).name == "n" && SlotField(Host(), false, p).ty.Leaf?
  {
    assert !HasTracked(Inner());
    assert !HasTracked(Host());
    if |p| == 1 { assert p == [p[0]]; }
    if |p| > 1 {
      assert p == [p[0]] + p[1..];
      if p[0] == 1 { InnerSlots(p[1..]); }
    }
    if p == [1, 0] {
      assert p[1..] == [0] && p[0] == 1;
      assert FieldAt(Host(), p) == FieldAt(Inner(), [0]);
    }
  }

  lemma InnerSlots(p: seq<nat>)
    ensures Slot(Inner(), false, p) <==> p == [0]
  {
    if |p| == 1 { assert p == [p[0]]; }
  }

  /** Nothing carries into the hidden field, since both names lead to the outer one. */
  lemma HostUndisturbed(a: Value, b: Value)
    requires HasType(a, Host()) && HasType(b, Host())
    ensures Undisturbed(Host(), a, b) && Hidden(Host(), false, [1, 0])
  {
    var h := Host();
    HostSlots([1, 0]);
    assert DistinctNames(h);
    OuterHides(h, 0, [1, 0]);
    forall p, q | HiddenChange(h, a, b, p) && ChangedAt(h, a, b, q) ensures NameSpares(h, HasTracked(h), b, q, p) {
      HostSlots(p);
      HostSlots(q);
    }
    forall p | Slot(h, HasTracked(h), p)
      ensures Undisturbed(SlotField(h, HasTracked(h), p).ty, At(h, a, p), At(h, b, p))
    {
      HostSlots(p);
    }
  }

  lemma EntityTyped(x: Value, y: Value)
    requires x.Atom? && y.Atom?
    ensures HasType(Entity(x, y), Host()) && At(Host(), Entity(x, y), [1, 0]) == y
  {
    assert HasType(Rec([y]), Inner()) && [1, 0][1..] == [0];
    assert At(Inner(), Rec([y]), [0]) == y;
  }

  /** Diff and Apply lose a change of the promoted field. */
  lemma HiddenNameLost(x: Value, y: Value, z: Value)
    requires x.Atom? && y.Atom? && z.Atom? && y != z
    ensures HasType(Entity(x, y), Host()) && HasType(Entity(x, z), Host())
    ensures var r := Replayed(Host(), Entity(x, y), DeltaOf(Host(), Entity(x, y), Entity(x, z)));
            r.Ok? ==> At(Host(), r.value, [1, 0]) == y && !Same(Host(), false, r.value, Entity(x, z))
  {
    var h, a, b := Host(), Entity(x, y), Entity(x, z);
    EntityTyped(x, y);
    EntityTyped(x, z);
    HostSlots([1, 0]);
    HostUndisturbed(a, b);
    Equivalence.SameReflexive(h, false, a);
    HiddenIsLost(h, a, a, b, [1, 0]);
  }

  // ----- A hidden field that arrives all the same -----

  function Core(): Ty {
    Struct([Field("X", Slice, false, PLAIN)])
  }

  /** An embedded struct that bears the name of its only field. */
  function Shell(): Ty {
    Struct([Field("X", Core(), true, PLAIN)])
  }

  function Nested(s: Value): Value {
    Rec([Rec([s])])
  }

  lemma ShellEdits(t: Ty, c: Ty, s: Value)
    requires t == Shell() && c == Core() && s.Elems? && HasType(Rec([s]), c) && HasType(Rec([NilSlice]), c)
    requires HasType(Nested(s), t) && HasType(Nested(NilSlice), t)
    ensures !HasTracked(t)
    ensures StructEdits(t, false, Nested(s), Nested(NilSlice), 0) == [Edit(["X"], Some(s), Some(NilSlice))]
  {
    assert !HasTracked(t) && !HasTracked(c);
    var es := [Edit([], Some(s), Some(NilSlice))];
    assert ["X"] + [] == ["X"] && Under("X", es) == [Edit(["X"], Some(s), Some(NilSlice))];
    assert FieldEdits(Slice, false, s, NilSlice) == es;
    assert StructEdits(c, false, Rec([s]), Rec([NilSlice]), 1) == [];
    assert StructEdits(c, false, Rec([s]), Rec([NilSlice]), 0) == Under("X", es) + [];
    assert StructEdits(t, false, Nested(s), Nested(NilSlice), 1) == [];
    assert StructEdits(t, false, Nested(s), Nested(NilSlice), 0) == Under("X", es) + [];
  }

  lemma ShellReplays(t: Ty, c: Ty, s: Value)
    requires t == Shell() && c == Core() && HasType(Rec([NilSlice]), c) && HasType(Nested(s), t)
    ensures Resolve(t, "X") == Some([0])
    ensures ApplyAll(t, Nested(s), [Edit(["X"], Some(s), Some(NilSlice))]) == Ok(Nested(NilSlice))
  {
    assert DistinctNames(t) && t.fields[0].name == "X";
    OnlyHit(t, 0, 0);
    assert ["X"][1..] == [];
    assert Zero(c).fs[0] == Zero(c.fields[0].ty) == NilSlice;
    assert Zero(c).fs == [NilSlice];
    assert ApplyIn(c, Nested(s).fs[0], [], Some(NilSlice)) == Ok(Rec([NilSlice]));
    assert Nested(s).fs[0 := Rec([NilSlice])] == [Rec([NilSlice])];
    assert ApplyAt(t, Nested(s), [0], [], Some(NilSlice)) == Ok(Nested(NilSlice));
  }

  /** Without the condition on other changes the law would be false: here the name of the
      field leads to the struct around it, and setting that to nothing sets the field right. */
  lemma ArrivesByChance(t: Ty, c: Ty, s: Value)
    requires t == Shell() && c == Core() && s.Elems?
    ensures var a, b := Nested(s), Nested(NilSlice);
            && HasType(a, t) && HasType(b, t) && !Located(t, a, b) && !Undisturbed(t, a, b)
            && Replayed(t, a, DeltaOf(t, a, b)) == Ok(b) && Same(t, false, b, b)
  {
    var a, b := Nested(s), Nested(NilSlice);
    assert HasType(Rec([s]), c) && HasType(Rec([NilSlice]), c);
    ShellEdits(t, c, s);
    ShellReplays(t, c, s);
    RoundTrip.DeltaIsReread(t, a, a, b);
    var e := Edit(["X"], Some(s), Some(NilSlice));
    RereadPlain(["X"]);
    assert Plain(["X"]);
    assert RereadAll([e]) == [e];
    Equivalence.SameReflexive(t, false, b);
    NotLocated(t, c, s);
    if Undisturbed(t, a, b) {
      Equivalence.SameReflexive(t, false, a);
      FieldFails(t, false, a, a, b, b, b);
    }
  }

  lemma NotLocated(t: Ty, c: Ty, s: Value)
    requires t == Shell() && c == Core() && s.Elems? && HasType(Nested(s), t) && HasType(Nested(NilSlice), t)
    requires HasType(Rec([s]), c) && HasType(Rec([NilSlice]), c) && Resolve(t, "X") == Some([0])
    ensures !Located(t, Nested(s), Nested(NilSlice))
  {
    assert !HasTracked(t) && !HasTracked(c);
    assert !Same(Slice, false, s, NilSlice);
    assert [0] + [0] == [0, 0] && [] + [0] == [0];
    assert !SlotsReached(t, [0], c, false, Rec([s]), Rec([NilSlice]));
    assert !SlotsReached(t, [], t, false, Nested(s), Nested(NilSlice));
  }

  // ----- Pointers to nothing -----

  function PointerHost(): Ty {
    Struct([Field("P", Ptr(Slice), false, PLAIN)])
  }

  lemma PointerHostNamed()
    ensures !HasTracked(PointerHost()) && WellNamed(PointerHost())
  {
    var t := PointerHost();
    assert Hits(t, "P", 0, 1) == [] && Hits(t, "P", 0, 0) == [[0]];
    assert Resolve(t, "P") == Some([0]) && [] + [0] == [0];
  }

  /** A pointer to a slice is nil in `a` and points to a nil slice in `b`. */
  ghost predicate PointsToNothing(t: Ty, a: Value, b: Value) {
    t == PointerHost() && a == Rec([Nil]) && b == Rec([Ref(NilSlice)])
  }

  lemma PointerCompared(t: Ty, a: Value, b: Value)
    requires PointsToNothing(t, a, b)
    ensures t.Struct? && HasType(a, t) && HasType(b, t) && Supported(t, a, b) && !Same(t, false, a, b)
  {
    PointerHostNamed();
    assert !SlotSame(t.fields[0], false, Nil, Ref(NilSlice));
  }

  lemma PointerMerged(t: Ty, a: Value, b: Value)
    requires PointsToNothing(t, a, b) && HasType(a, t) && HasType(b, t)
    ensures Replayable(t, a, b) && MergeIn(t, false, a, b) == a
  {
    PointerHostNamed();
    assert SlotReplayable(t.fields[0], false, Nil, Ref(NilSlice));
    assert MergeFields(t, false, a, b).fs == [Nil];
  }

  lemma PointerLocated(t: Ty, a: Value, b: Value)
    requires PointsToNothing(t, a, b) && HasType(a, t) && HasType(b, t)
    ensures Located(t, a, b)
  {
    PointerHostNamed();
    RoundTrip.WellNamedReaches(t, a, b);
    RoundTrip.UndottedValues(t, a, b);
  }

  /** A change whose path locates it, that Apply accepts, and that leaves all as it was. */
  ghost predicate Vanishes(t: Ty, a: Value, b: Value) {
    && t.Struct? && HasType(a, t) && HasType(b, t) && Located(t, a, b) && !Same(t, false, a, b)
    && Replayed(t, a, DeltaOf(t, a, b)) == Ok(a)
  }

  lemma NothingArrives(t: Ty, a: Value, b: Value)
    requires t.Struct? && HasType(a, t) && HasType(b, t) && Supported(t, a, b) && Located(t, a, b)
    requires !Same(t, false, a, b)
    requires Replayable(t, a, b) && MergeIn(t, false, a, b) == a
    ensures Vanishes(t, a, b)
  {
    RoundTrip.ExactMerge(t, a, b);
  }

  /** It is applied as a nil pointer. */
  lemma NullPointerLost(t: Ty, a: Value, b: Value)
    requires PointsToNothing(t, a, b)
    ensures Vanishes(t, a, b)
  {
    PointerCompared(t, a, b);
    PointerMerged(t, a, b);
    PointerLocated(t, a, b);
    NothingArrives(t, a, b);
  }
}
