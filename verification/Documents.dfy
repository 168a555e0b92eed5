/** An entity with an identifier and one map: what the inputs that break something are made of. */
module Documents {
  import opened Prelude
  import opened Text
  import opened Sorting
  import opened Entities
  import opened Changes
  import opened Merge
  import opened DiffEngine
  import opened Paths
  import opened DottedKeys
  import opened Exactness
  import opened Replay
  import Equivalence
  import RoundTrip

  const PLAIN := Tags(false, false, false, false)
  const IDENTIFIER := Tags(true, false, false, false)

  function Document(): Ty {
    Struct([Field("ID", Leaf, false, IDENTIFIER), Field("Meta", Map, false, PLAIN)])
  }

  function Doc(m: Value): Value {
    Rec([Atom(0, "e"), m])
  }

  lemma DocTyped(t: Ty, x: Value)
    requires t == Document() && HasType(x, Map)
    ensures t.Struct? && HasType(Doc(x), t) && !HasTracked(t) && (Undotted(x) ==> Undotted(Doc(x)))
    ensures Printable(Doc(x)) && (Allocated(x) ==> Allocated(Doc(x)))
  {
  }

  lemma DocSame(t: Ty, x: Value, y: Value)
    requires t == Document() && HasType(x, Map) && HasType(y, Map) && HasType(Doc(x), t) && HasType(Doc(y), t)
    ensures Same(t, false, Doc(x), Doc(y)) <==> Entries(x) == Entries(y)
    ensures Supported(t, Doc(x), Doc(y))
  {
    assert !HasTracked(t);
    assert SlotSame(t.fields[0], false, Doc(x).fs[0], Doc(y).fs[0]);
    assert SlotSame(t.fields[1], false, x, y) <==> Entries(x) == Entries(y);
  }

  lemma DocMerge(t: Ty, x: Value, y: Value)
    requires t == Document() && HasType(x, Map) && HasType(y, Map) && HasType(Doc(x), t) && HasType(Doc(y), t)
    ensures Replayable(t, Doc(x), Doc(y)) <==> MapReplayable(x.Dict?, x, y)
    ensures MergeIn(t, false, Doc(x), Doc(y)) == Doc(MergeIn(Map, false, x, y))
  {
    assert !HasTracked(t);
    assert SlotReplayable(t.fields[1], false, x, y) <==> MapReplayable(x.Dict?, x, y);
    var r := MergeFields(t, false, Doc(x), Doc(y));
    assert r.fs == [MergeSlot(t.fields[0], false, Doc(x).fs[0], Doc(y).fs[0]), MergeSlot(t.fields[1], false, x, y)];
  }

  lemma MetaResolved(t: Ty)
    requires t == Document()
    ensures t.Struct? && Resolve(t, "Meta") == Some([1])
  {
    assert Hits(t, "Meta", 0, 2) == [] && Hits(t, "Meta", 0, 1) == [[1]] && Hits(t, "Meta", 0, 0) == [[1]];
  }

  lemma DocNamed(t: Ty)
    requires t == Document()
    ensures t.Struct? && !HasTracked(t) && WellNamed(t) && Resolve(t, "Meta") == Some([1])
  {
    MetaResolved(t);
    MetaOnly(t, t.fields[1]);
  }

  /** Of the two fields of a document, the identifier is skipped. */
  lemma MetaOnly(t: Ty, f: Field)
    requires t.Struct? && |t.fields| == 2 && t.fields[0].tags.id && t.fields[1] == f && f.ty.Map?
    requires Resolve(t, f.name) == Some([1])
    ensures WellNamed(t)
  {
    forall i | 0 <= i < |t.fields| && !Skipped(t.fields[i], HasTracked(t)) ensures i == 1 && [] + [i] == [1] {
      assert Skipped(t.fields[0], HasTracked(t));
    }
  }

  /** Changes of the map without dots are conveyed. */
  lemma DocConveys(t: Ty, x: Value, y: Value)
    requires t == Document() && HasType(Doc(x), t) && HasType(Doc(y), t) && HasType(x, Map) && HasType(y, Map)
    requires Undotted(x) && Undotted(y)
    ensures Conveyed(t, Doc(x), Doc(y))
  {
    DocNamed(t);
    DocTyped(t, x);
    DocTyped(t, y);
    RoundTrip.PlainConveyed(t, Doc(x), Doc(y));
  }

  lemma DocEdits(t: Ty, a: Value, b: Value)
    requires t == Document() && HasType(a, Map) && HasType(b, Map) && HasType(Doc(a), t) && HasType(Doc(b), t)
    requires !HasTracked(t)
    ensures StructEdits(t, false, Doc(a), Doc(b), 0) == Under("Meta", MapEdits(a, b))
  {
    assert StructEdits(t, false, Doc(a), Doc(b), 2) == [];
    assert SlotEdits(t.fields[1], false, a, b) == Under("Meta", MapEdits(a, b));
    assert StructEdits(t, false, Doc(a), Doc(b), 1) == Under("Meta", MapEdits(a, b)) + [];
    assert SlotEdits(t.fields[0], false, Doc(a).fs[0], Doc(b).fs[0]) == [];
  }

  /** Applying the printed delta works on the map alone. */
  lemma DocReplayed(t: Ty, x: Value, a: Value, b: Value, w: Value)
    requires t == Document() && HasType(x, Map) && HasType(a, Map) && HasType(b, Map)
    requires HasType(Doc(x), t) && HasType(Doc(a), t) && HasType(Doc(b), t)
    requires ApplyAll(Map, x, RereadAll(MapEdits(a, b))) == Ok(w)
    ensures Replayed(t, Doc(x), DeltaOf(t, Doc(a), Doc(b))) == Ok(Doc(w))
  {
    DocNamed(t);
    DocEdits(t, a, b);
    RoundTrip.DeltaIsReread(t, Doc(x), Doc(a), Doc(b));
    RereadUnder("Meta", MapEdits(a, b));
    DocApplied(t, x, RereadAll(MapEdits(a, b)), w);
  }

  lemma DocApplied(t: Ty, x: Value, es: seq<Edit>, w: Value)
    requires t == Document() && HasType(x, Map) && HasType(Doc(x), t) && ApplyAll(Map, x, es) == Ok(w)
    ensures ApplyAll(t, Doc(x), Under("Meta", es)) == Ok(Doc(w))
  {
    DocNamed(t);
    assert [1][1..] == [];
    assert Walk(t, [1]) && TyAt(t, [1]) == Map && At(t, Doc(x), [1]) == x;
    LiftField(t, Doc(x), "Meta", [1], es);
    assert Put(t, Doc(x), [1], w).fs == [Doc(x).fs[0], w];
  }

  // ----- A key with a dot -----

  function Single(k: string, u: Value): Value {
    Dict(map[k := u])
  }

  lemma SingleTyped(k: string, u: Value)
    requires u.Atom?
    ensures HasType(Single(k, u), Map) && ('.' !in k ==> Undotted(Single(k, u)))
  {
  }

  lemma NewKey(k: string, u: Value)
    requires u.Atom? && HasType(Single(k, u), Map)
    ensures MapEdits(Dict(map[]), Single(k, u)) == [Edit([k], None, Some(u))]
  {
    var a: Value, b := Dict(map[]), Single(k, u);
    var ks := SortedKeys(Entries(a).Keys + Entries(b).Keys);
    SortedKeysDistinct(Entries(a).Keys + Entries(b).Keys);
    assert Entries(a).Keys + Entries(b).Keys == {k};
    OneKey(ks, k);
    assert KeyEdits(a, b, k) == [Edit([], None, Some(u))] && [k] + [] == [k];
    assert Under(k, [Edit([], None, Some(u))]) == [Edit([k], None, Some(u))];
    assert [k][1..] == [] && KeysEdits(a, b, []) == [];
  }

  lemma OneKey(ks: seq<string>, k: string)
    requires (forall j :: j in ks <==> j == k) && (forall i, j :: 0 <= i < j < |ks| ==> ks[i] != ks[j])
    ensures ks == [k]
  {
    assert k in ks;
    assert ks[0] in ks && ks[|ks| - 1] in ks;
  }

  /** A new key with a dot becomes a map inside the map: Apply succeeds and the key is not there. */
  lemma DottedNests(k: string, l: string, u: Value)
    requires '.' !in k && '.' !in l && u.Atom? && HasType(Single(k + "." + l, u), Map)
    ensures ApplyAll(Map, Dict(map[]), RereadAll(MapEdits(Dict(map[]), Single(k + "." + l, u)))) ==
            Ok(Single(k, Single(l, u)))
    ensures Entries(Single(k, Single(l, u))) != Entries(Single(k + "." + l, u))
  {
    var e := Edit([k + "." + l], None, Some(u));
    NewKey(k + "." + l, u);
    assert k + "." + l == k + ['.'] + l;
    SplitAtFirst(k, '.', l);
    SplitFree(l, '.');
    assert Reread([k + "." + l]) == [k, l];
    var empty: Value := Dict(map[]);
    assert [k, l][1..] == [l] && [l][1..] == [];
    assert ApplyMap(empty, [l], Some(u)) == Ok(Single(l, u));
    assert ApplyMap(empty, [k, l], Some(u)) == Ok(Single(k, Single(l, u)));
    assert RereadAll([e]) == [RereadEdit(e)] && [RereadEdit(e)][1..] == [];
    assert Entries(Single(k, Single(l, u)))[k] == Single(l, u);
    assert |k + "." + l| != |k|;
  }
}
