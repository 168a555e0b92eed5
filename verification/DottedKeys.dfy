/** Map keys that hold a dot: on a map the round trip through printed paths holds exactly
    when no key on which the maps differ has one, at any depth. */
module DottedKeys {
  import opened Prelude
  import opened Text
  import opened Sorting
  import opened Entities
  import opened Changes
  import opened Merge
  import opened Paths
  import Replay
  import Order
  import Equivalence

  /** Both maps hold a map at this key. */
  ghost predicate NestedAt(a: Value, b: Value, k: string) {
    && k in Entries(a) && k in Entries(b) && a.m[k].Dict? && b.m[k].Dict?
    && HasType(a.m[k], Map) && HasType(b.m[k], Map)
  }

  /** No key on which the maps differ holds a dot, and so on where both hold a map. */
  ghost predicate MapUndotted(a: Value, b: Value)
    requires HasType(a, Map) && HasType(b, Map)
    decreases a, 1
  {
    forall k :: k in Entries(a).Keys + Entries(b).Keys && !AgreeOn(a, b, k) ==> KeyUndotted(a, b, k)
  }

  ghost predicate KeyUndotted(a: Value, b: Value, k: string)
    requires HasType(a, Map) && HasType(b, Map)
    decreases a, 0
  {
    Free(k, '.') && (NestedAt(a, b, k) ==> MapUndotted(a.m[k], b.m[k]))
  }

  /** That is, Diff emits no path with a dot in a segment. */
  lemma {:induction false} UndottedIffDotless(a: Value, b: Value)
    requires HasType(a, Map) && HasType(b, Map)
    ensures MapUndotted(a, b) <==> Dotless(MapEdits(a, b))
    decreases a, 2
  {
    var ks := Entries(a).Keys + Entries(b).Keys;
    SortedKeysDistinct(ks);
    KeysUndotted(a, b, SortedKeys(ks));
  }

  lemma {:induction false} KeysUndotted(a: Value, b: Value, keys: seq<string>)
    requires HasType(a, Map) && HasType(b, Map)
    ensures Dotless(KeysEdits(a, b, keys)) <==> forall k :: k in keys && !AgreeOn(a, b, k) ==> KeyUndotted(a, b, k)
    decreases a, 1, |keys|
  {
    if keys != [] {
      var k, es := keys[0], KeyEdits(a, b, keys[0]);
      KeysUndotted(a, b, keys[1..]);
      OneKeyUndotted(a, b, k);
      DotlessUnder(k, es);
      DotlessConcat(Under(k, es), KeysEdits(a, b, keys[1..]));
      assert forall j :: j in keys <==> j == k || j in keys[1..];
    }
  }

  lemma {:induction false} OneKeyUndotted(a: Value, b: Value, k: string)
    requires HasType(a, Map) && HasType(b, Map)
    ensures KeyEdits(a, b, k) == [] || (Free(k, '.') && Dotless(KeyEdits(a, b, k))) <==>
            AgreeOn(a, b, k) || KeyUndotted(a, b, k)
    decreases a, 0
  {
    NoChange(a, b, k);
    var ma, mb := Entries(a), Entries(b);
    if k in ma && k in mb && ma[k].Dict? && mb[k].Dict? {
      assert Item(ma[k]) && Item(mb[k]);
      UndottedIffDotless(ma[k], mb[k]);
    }
  }

  /** The changes depend on the entries only, not on whether an empty map is nil. */
  lemma {:induction false} EntriesDecide(a: Value, x: Value, b: Value, keys: seq<string>)
    requires HasType(a, Map) && HasType(x, Map) && HasType(b, Map) && Entries(a) == Entries(x)
    ensures KeysEdits(a, b, keys) == KeysEdits(x, b, keys)
    decreases |keys|
  {
    if keys != [] { EntriesDecide(a, x, b, keys[1..]); }
  }

  // ----- Changes below other keys -----

  ghost predicate Elsewhere(es: seq<Edit>, k: string) {
    forall i :: 0 <= i < |es| ==> es[i].path != [] && es[i].path[0] != k
  }

  lemma {:induction false} ElsewhereKeeps(v: Value, es: seq<Edit>, k: string)
    requires HasType(v, Map) && Elsewhere(es, k) && ApplyAll(Map, v, es).Ok?
    ensures AgreeOn(ApplyAll(Map, v, es).value, v, k) && ApplyAll(Map, v, es).value.Dict? == v.Dict?
    decreases |es|
  {
    if es != [] {
      Order.OtherKeys(v, es[0].path, es[0].after, k);
      ElsewhereKeeps(ApplyMap(v, es[0].path, es[0].after).value, es[1..], k);
    }
  }

  /** With a dot in it a key is never the first segment of a path read back. */
  lemma DottedElsewhere(es: seq<Edit>, k: string)
    requires Rooted(es) && !Free(k, '.')
    ensures Elsewhere(RereadAll(es), k)
  {
    forall i | 0 <= i < |es| ensures RereadAll(es)[i].path != [] && RereadAll(es)[i].path[0] != k {
      RereadPlain(es[i].path);
      assert Reread(es[i].path)[0] in Reread(es[i].path);
    }
  }

  // ----- The changes of a map, key by key -----

  lemma {:induction false} KeysConcat(a: Value, b: Value, ks: seq<string>, ls: seq<string>)
    requires HasType(a, Map) && HasType(b, Map)
    ensures KeysEdits(a, b, ks + ls) == KeysEdits(a, b, ks) + KeysEdits(a, b, ls)
    decreases |ks|
  {
    if ks == [] {
      assert ks + ls == ls;
    } else {
      assert (ks + ls)[0] == ks[0] && (ks + ls)[1..] == ks[1..] + ls;
      KeysConcat(a, b, ks[1..], ls);
    }
  }

  lemma {:induction false} KeysRooted(a: Value, b: Value, keys: seq<string>)
    requires HasType(a, Map) && HasType(b, Map)
    ensures Rooted(KeysEdits(a, b, keys))
    decreases |keys|
  {
    if keys != [] { KeysRooted(a, b, keys[1..]); }
  }

  /** A key without changes has the same value in both maps. */
  lemma NoChange(a: Value, b: Value, k: string)
    requires HasType(a, Map) && HasType(b, Map)
    ensures KeyEdits(a, b, k) == [] <==> AgreeOn(a, b, k)
  {
    Equivalence.KeysEmptyIffSame(a, b, [k]);
    assert [k][1..] == [];
    assert KeysEdits(a, b, [k]) == Under(k, KeyEdits(a, b, k)) + [];
  }

  /** Every key on which the maps differ is free of dots. */
  ghost predicate FreeChanges(a: Value, b: Value, keys: seq<string>) {
    forall j :: j in keys && !AgreeOn(a, b, j) ==> Free(j, '.')
  }

  lemma {:induction false} OtherKeysElsewhere(a: Value, b: Value, keys: seq<string>, k: string)
    requires HasType(a, Map) && HasType(b, Map) && k !in keys && FreeChanges(a, b, keys)
    ensures Elsewhere(RereadAll(KeysEdits(a, b, keys)), k)
    decreases |keys|
  {
    if keys != [] {
      var j := keys[0];
      assert j in keys && keys == [j] + keys[1..];
      OtherKeysElsewhere(a, b, keys[1..], k);
      NoChange(a, b, j);
      OneKeyElsewhere(j, KeyEdits(a, b, j), k);
      RereadConcat(Under(j, KeyEdits(a, b, j)), KeysEdits(a, b, keys[1..]));
    }
  }

  lemma OneKeyElsewhere(j: string, es: seq<Edit>, k: string)
    requires j != k && (es != [] ==> Free(j, '.'))
    ensures Elsewhere(RereadAll(Under(j, es)), k)
  {
    var us := Under(j, es);
    forall i | 0 <= i < |us| ensures RereadAll(us)[i].path != [] && RereadAll(us)[i].path[0] != k {
      RereadFirst(j, es[i].path);
    }
  }

  /** A dotted path comes from a dotted key or from below a key. */
  lemma {:induction false} WhereDotted(a: Value, b: Value, keys: seq<string>) returns (k: string)
    requires HasType(a, Map) && HasType(b, Map) && !Dotless(KeysEdits(a, b, keys))
    ensures k in keys && KeyEdits(a, b, k) != [] && (Free(k, '.') ==> !Dotless(KeyEdits(a, b, k)))
    decreases |keys|
  {
    var us := Under(keys[0], KeyEdits(a, b, keys[0]));
    if Dotless(us) {
      k := WhereDotted(a, b, keys[1..]);
    } else {
      k := keys[0];
      var i: nat :| i < |us| && !Plain(us[i].path);
      var path := KeyEdits(a, b, k)[i].path;
      assert us[i].path == [k] + path;
    }
  }

  /** The changes read back, split around one nested key. */
  lemma AroundKey(a: Value, b: Value, pre: seq<string>, k: string, post: seq<string>, ds: seq<Edit>)
    requires HasType(a, Map) && HasType(b, Map) && Free(k, '.') && ds == KeyEdits(a, b, k) && Rooted(ds)
    ensures RereadAll(KeysEdits(a, b, pre + [k] + post)) ==
            RereadAll(KeysEdits(a, b, pre)) + Under(k, RereadAll(ds)) + RereadAll(KeysEdits(a, b, post))
  {
    KeysConcat(a, b, pre + [k], post);
    KeysConcat(a, b, pre, [k]);
    assert KeysEdits(a, b, [k]) == Under(k, ds) + [] by { assert [k][1..] == []; }
    assert Under(k, ds) + [] == Under(k, ds);
    RereadConcat(KeysEdits(a, b, pre) + Under(k, ds), KeysEdits(a, b, post));
    RereadConcat(KeysEdits(a, b, pre), Under(k, ds));
    RereadUnder(k, ds);
  }

  /** Changes below a nested key, with changes elsewhere before and after them. */
  lemma ThroughKey(a: Value, k: string, ps: seq<Edit>, ds: seq<Edit>, qs: seq<Edit>, w: Value)
    requires HasType(a, Map) && k in Entries(a) && a.m[k].Dict? && HasType(a.m[k], Map)
    requires Elsewhere(ps, k) && Elsewhere(qs, k) && Rooted(ds)
    requires ApplyAll(Map, a, ps + Under(k, ds) + qs) == Ok(w)
    ensures k in Entries(w) && ApplyAll(Map, a.m[k], ds) == Ok(Entries(w)[k])
  {
    ApplyAllConcat(Map, a, ps + Under(k, ds), qs);
    ApplyAllConcat(Map, a, ps, Under(k, ds));
    var w1 := ApplyAll(Map, a, ps).value;
    ElsewhereKeeps(a, ps, k);
    assert forall e :: e in ds ==> e.path != [];
    Replay.LiftKey(w1, k, ds);
    ElsewhereKeeps(ApplyAll(Map, w1, Under(k, ds)).value, qs, k);
  }

  lemma SplitAround(keys: seq<string>, k: string) returns (pre: seq<string>, post: seq<string>)
    requires k in keys && forall i, j :: 0 <= i < j < |keys| ==> keys[i] != keys[j]
    ensures keys == pre + [k] + post && k !in pre && k !in post
    ensures forall j :: j in pre || j in post ==> j in keys
  {
    var n: nat :| n < |keys| && keys[n] == k;
    pre, post := keys[..n], keys[n + 1..];
  }

  /** The value at a nested key after all changes is that of the changes below it. */
  lemma AtKey(a: Value, b: Value, keys: seq<string>, k: string, w: Value)
    requires HasType(a, Map) && HasType(b, Map) && NestedAt(a, b, k) && Free(k, '.')
    requires k in keys && FreeChanges(a, b, keys) && forall i, j :: 0 <= i < j < |keys| ==> keys[i] != keys[j]
    requires ApplyAll(Map, a, RereadAll(KeysEdits(a, b, keys))) == Ok(w)
    ensures k in Entries(w)
    ensures ApplyAll(Map, a.m[k], RereadAll(MapEdits(a.m[k], b.m[k]))) == Ok(Entries(w)[k])
  {
    var pre, post := SplitAround(keys, k);
    var ds := MapEdits(a.m[k], b.m[k]);
    KeysRooted(a.m[k], b.m[k], SortedKeys(Entries(a.m[k]).Keys + Entries(b.m[k]).Keys));
    AroundKey(a, b, pre, k, post, ds);
    OtherKeysElsewhere(a, b, pre, k);
    OtherKeysElsewhere(a, b, post, k);
    ThroughKey(a, k, RereadAll(KeysEdits(a, b, pre)), RereadAll(ds), RereadAll(KeysEdits(a, b, post)), w);
  }

  /** Only changes inside a nested map have segments below their key. */
  lemma Nested(a: Value, b: Value, k: string)
    requires HasType(a, Map) && HasType(b, Map) && !Dotless(KeyEdits(a, b, k))
    ensures NestedAt(a, b, k) && KeyEdits(a, b, k) == MapEdits(a.m[k], b.m[k])
  {
    var i: nat :| i < |KeyEdits(a, b, k)| && !Plain(KeyEdits(a, b, k)[i].path);
    assert Item(a.m[k]) && Item(b.m[k]);
  }

  /** If a changed key holds a dot, at any depth, the changes read back do not lead to `b`. */
  lemma {:induction false} DottedFails(a: Value, b: Value, w: Value)
    requires HasType(a, Map) && HasType(b, Map) && !Dotless(MapEdits(a, b))
    requires ApplyAll(Map, a, RereadAll(MapEdits(a, b))) == Ok(w)
    ensures Entries(w) != Entries(b)
    decreases a
  {
    var ks := Entries(a).Keys + Entries(b).Keys;
    var keys := SortedKeys(ks);
    SortedKeysDistinct(ks);
    KeysRooted(a, b, keys);
    if k :| k in keys && !AgreeOn(a, b, k) && !Free(k, '.') {
      DottedElsewhere(MapEdits(a, b), k);
      ElsewhereKeeps(a, RereadAll(MapEdits(a, b)), k);
    } else {
      var k := WhereDotted(a, b, keys);
      NoChange(a, b, k);
      Nested(a, b, k);
      AtKey(a, b, keys, k, w);
      DottedFails(a.m[k], b.m[k], Entries(w)[k]);
    }
  }

  /** The same on any map with the entries of `a`. */
  lemma DottedFailsOn(x: Value, a: Value, b: Value, w: Value)
    requires HasType(x, Map) && HasType(a, Map) && HasType(b, Map) && Entries(x) == Entries(a)
    requires !MapUndotted(a, b) && ApplyAll(Map, x, RereadAll(MapEdits(a, b))) == Ok(w)
    ensures Entries(w) != Entries(b)
  {
    UndottedIffDotless(a, b);
    EntriesDecide(a, x, b, SortedKeys(Entries(a).Keys + Entries(b).Keys));
    DottedFails(x, b, w);
  }

  /** Reading the changes back leads from one map to the other exactly when no key on which
      they differ holds a dot, at any depth, and every change can be replayed. */
  lemma MapRoundTrip(a: Value, b: Value)
    requires HasType(a, Map) && HasType(b, Map)
    ensures var r := ApplyAll(Map, a, RereadAll(MapEdits(a, b)));
            (r.Ok? && Entries(r.value) == Entries(b)) <==> (MapUndotted(a, b) && MapReplayable(a.Dict?, a, b))
  {
    UndottedIffDotless(a, b);
    var r := ApplyAll(Map, a, RereadAll(MapEdits(a, b)));
    if Dotless(MapEdits(a, b)) {
      DotlessReread(MapEdits(a, b));
      Replay.MapReplay(a, a, b);
      if MapReplayable(a.Dict?, a, b) { Equivalence.MergeSame(Map, false, a, b); }
    } else if r.Ok? {
      DottedFails(a, b, r.value);
    }
  }
}
