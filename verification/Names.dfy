/** Go's rule for finding a field by its name, said without the search that follows it. */
module Names {
  import opened Prelude
  import opened Entities

  /** The index path leads to a field of this name: directly, or through embedded structs and
      embedded pointers to structs. */
  predicate Leads(t: Ty, name: string, idx: seq<nat>)
    decreases idx
  {
    && t.Struct? && idx != [] && idx[0] < |t.fields|
    && var f := t.fields[idx[0]];
       if |idx| == 1 then f.name == name
       else f.embedded && (|| (f.ty.Struct? && Leads(f.ty, name, idx[1..]))
                           || (f.ty.Ptr? && f.ty.elem.Struct? && Leads(f.ty.elem, name, idx[1..])))
  }

  lemma {:induction false} LeadsIndex(t: Ty, name: string, idx: seq<nat>)
    ensures Leads(t, name, idx) <==> IsIndex(t, idx) && FieldAt(t, idx).name == name
    decreases idx
  {
    if t.Struct? && |idx| > 1 && idx[0] < |t.fields| && Promoted(t.fields[idx[0]]).Some? {
      LeadsIndex(Promoted(t.fields[idx[0]]).value, name, idx[1..]);
    }
  }

  /** Of all fields of this name no other lies as near. */
  ghost predicate Nearest(t: Ty, name: string, idx: seq<nat>) {
    Leads(t, name, idx) && forall j :: Leads(t, name, j) && j != idx ==> |j| > |idx|
  }

  lemma LeadsBelow(t: Ty, name: string, idx: seq<nat>)
    requires t.Struct? && |idx| > 1 && idx[0] < |t.fields|
    ensures Leads(t, name, idx) <==>
            Promoted(t.fields[idx[0]]).Some? && Leads(Promoted(t.fields[idx[0]]).value, name, idx[1..])
  {
  }

  /** The path leads to a field of this name, `d` embeddings deep, through field `i` or later. */
  ghost predicate LeadsFrom(t: Ty, name: string, d: nat, i: nat, idx: seq<nat>) {
    Leads(t, name, idx) && |idx| == d + 1 && idx[0] >= i
  }

  lemma LeadsNext(t: Ty, name: string, d: nat, i: nat, idx: seq<nat>)
    requires t.Struct? && i <= |t.fields|
    ensures i == |t.fields| ==> !LeadsFrom(t, name, d, i, idx)
    ensures idx != [] && idx[0] == i ==>
              (LeadsFrom(t, name, d, i, idx) <==> Leads(t, name, idx) && |idx| == d + 1)
              && !LeadsFrom(t, name, d, i + 1, idx)
    ensures idx == [] || idx[0] != i ==> (LeadsFrom(t, name, d, i, idx) <==> LeadsFrom(t, name, d, i + 1, idx))
  {
  }

  lemma {:induction false} HitsExact(t: Ty, name: string, d: nat, i: nat, idx: seq<nat>)
    requires t.Struct? && i <= |t.fields|
    ensures idx in Hits(t, name, d, i) <==> LeadsFrom(t, name, d, i, idx)
    decreases t, |t.fields| - i
  {
    LeadsNext(t, name, d, i, idx);
    if i < |t.fields| {
      HitsExact(t, name, d, i + 1, idx);
      InHits(t, name, d, i, idx);
      if idx != [] && idx[0] == i { HitsHere(t, name, d, i, idx); } else { NotHere(t, name, d, i, idx); }
    }
  }

  /** The hits that go through field `i`. */
  function Here(t: Ty, name: string, d: nat, i: nat): seq<seq<nat>>
    requires t.Struct? && i < |t.fields|
  {
    var f := t.fields[i];
    if d == 0 then (if f.name == name then [[i]] else [])
    else
      match Promoted(f)
      case None => []
      case Some(inner) =>
        assert inner.Struct?;
        var deeper := Hits(inner, name, d - 1, 0);
        seq(|deeper|, k requires 0 <= k < |deeper| => [i] + deeper[k])
  }

  lemma HitsSplit(t: Ty, name: string, d: nat, i: nat)
    requires t.Struct? && i < |t.fields|
    ensures Hits(t, name, d, i) == Here(t, name, d, i) + Hits(t, name, d, i + 1)
  {
  }

  lemma InHits(t: Ty, name: string, d: nat, i: nat, idx: seq<nat>)
    requires t.Struct? && i < |t.fields|
    ensures idx in Hits(t, name, d, i) <==> idx in Here(t, name, d, i) || idx in Hits(t, name, d, i + 1)
  {
    HitsSplit(t, name, d, i);
  }

  lemma NotHere(t: Ty, name: string, d: nat, i: nat, idx: seq<nat>)
    requires t.Struct? && i < |t.fields| && (idx == [] || idx[0] != i)
    ensures idx !in Here(t, name, d, i)
  {
  }

  lemma Prefixed(deeper: seq<seq<nat>>, i: nat, here: seq<seq<nat>>, idx: seq<nat>)
    requires |here| == |deeper| && forall k :: 0 <= k < |here| ==> here[k] == [i] + deeper[k]
    requires idx != [] && idx[0] == i
    ensures idx in here <==> idx[1..] in deeper
  {
    assert idx == [i] + idx[1..];
    if idx in here {
      var k: nat :| k < |here| && here[k] == idx;
      assert deeper[k] == idx[1..];
    }
    if idx[1..] in deeper {
      var k: nat :| k < |deeper| && deeper[k] == idx[1..];
      assert here[k] == idx;
    }
  }

  lemma {:induction false} HitsHere(t: Ty, name: string, d: nat, i: nat, idx: seq<nat>)
    requires t.Struct? && i < |t.fields| && idx != [] && idx[0] == i
    ensures idx in Here(t, name, d, i) <==> Leads(t, name, idx) && |idx| == d + 1
    decreases t, 0
  {
    if d == 0 {
      OwnField(t, name, i, idx);
    } else if Promoted(t.fields[i]).Some? {
      PromotedField(t, name, d, i, idx);
    }
  }

  lemma OwnField(t: Ty, name: string, i: nat, idx: seq<nat>)
    requires t.Struct? && i < |t.fields| && idx != [] && idx[0] == i
    ensures idx in Here(t, name, 0, i) <==> Leads(t, name, idx) && |idx| == 1
  {
    assert |idx| == 1 ==> idx == [i];
  }

  lemma {:induction false} PromotedField(t: Ty, name: string, d: nat, i: nat, idx: seq<nat>)
    requires t.Struct? && i < |t.fields| && d > 0 && Promoted(t.fields[i]).Some? && idx != [] && idx[0] == i
    ensures idx in Here(t, name, d, i) <==> Leads(t, name, idx) && |idx| == d + 1
    decreases t.fields[i], 1
  {
    var f := t.fields[i];
    var inner := Promoted(f).value;
    assert inner == f.ty || inner < f.ty;
    Prefixed(Hits(inner, name, d - 1, 0), i, Here(t, name, d, i), idx);
    HitsExact(inner, name, d - 1, 0, idx[1..]);
    if |idx| > 1 { LeadsBelow(t, name, idx); }
  }

  ghost predicate NoRepeats(hs: seq<seq<nat>>) {
    forall i, j :: 0 <= i < j < |hs| ==> hs[i] != hs[j]
  }

  lemma {:induction false} HitsDistinct(t: Ty, name: string, d: nat, i: nat)
    requires t.Struct? && i <= |t.fields|
    ensures NoRepeats(Hits(t, name, d, i))
    decreases t, |t.fields| - i
  {
    if i < |t.fields| {
      HitsDistinct(t, name, d, i + 1);
      HereDistinct(t, name, d, i);
      HitsSplit(t, name, d, i);
      NoRepeatsJoined(t, name, d, i, Here(t, name, d, i), Hits(t, name, d, i + 1));
    }
  }

  lemma {:induction false} HereDistinct(t: Ty, name: string, d: nat, i: nat)
    requires t.Struct? && i < |t.fields|
    ensures NoRepeats(Here(t, name, d, i))
    decreases t, 0
  {
    var here := Here(t, name, d, i);
    if d > 0 && Promoted(t.fields[i]).Some? {
      var inner := Promoted(t.fields[i]).value;
      assert inner == t.fields[i].ty || inner < t.fields[i].ty;
      HitsDistinct(inner, name, d - 1, 0);
      var deeper := Hits(inner, name, d - 1, 0);
      forall m, n | 0 <= m < n < |here| ensures here[m] != here[n] {
        assert here[m][1..] == deeper[m] && here[n][1..] == deeper[n];
      }
    }
  }

  lemma NoRepeatsJoined(t: Ty, name: string, d: nat, i: nat, here: seq<seq<nat>>, later: seq<seq<nat>>)
    requires t.Struct? && i < |t.fields| && NoRepeats(here) && NoRepeats(later)
    requires here == Here(t, name, d, i) && later == Hits(t, name, d, i + 1)
    ensures NoRepeats(here + later)
  {
    forall m, n | 0 <= m < |here| && 0 <= n < |later| ensures here[m] != later[n] {
      assert later[n] in later;
      HitsExact(t, name, d, i + 1, later[n]);
      if later[n][0] != i { NotHere(t, name, d, i, later[n]); }
    }
  }

  lemma {:induction false} IndexFits(t: Ty, idx: seq<nat>, i: nat)
    requires IsIndex(t, idx) && i <= idx[0]
    ensures |idx| <= Levels(t, i)
    decreases t, |t.fields| - i
  {
    var f := t.fields[i];
    if i < idx[0] {
      IndexFits(t, idx, i + 1);
    } else if |idx| > 1 {
      var inner := Promoted(f).value;
      assert inner == f.ty || inner < f.ty;
      IndexFits(inner, idx[1..], 0);
      LevelsPositive(t, i + 1);
    } else {
      LevelsPositive(t, i + 1);
    }
  }

  lemma {:induction false} LevelsPositive(t: Ty, i: nat)
    requires t.Struct? && i <= |t.fields|
    ensures Levels(t, i) >= 1
    decreases |t.fields| - i
  {
    if i < |t.fields| { LevelsPositive(t, i + 1); }
  }

  /** The fields of the name that lie `d` embeddings deep, none lying less deep. */
  ghost predicate Level(t: Ty, name: string, d: nat, hs: seq<seq<nat>>) {
    && NoRepeats(hs) && (forall j :: j in hs <==> Leads(t, name, j) && |j| == d + 1)
    && forall j :: Leads(t, name, j) ==> |j| > d
  }

  lemma HitsLevel(t: Ty, name: string, d: nat)
    requires t.Struct? && forall j :: Leads(t, name, j) ==> |j| > d
    ensures Level(t, name, d, Hits(t, name, d, 0))
  {
    HitsDistinct(t, name, d, 0);
    forall j ensures j in Hits(t, name, d, 0) <==> Leads(t, name, j) && |j| == d + 1 { HitsExact(t, name, d, 0, j); }
  }

  lemma OneHit(t: Ty, name: string, d: nat, hs: seq<seq<nat>>, idx: seq<nat>)
    requires Level(t, name, d, hs) && |hs| == 1
    ensures idx == hs[0] <==> Nearest(t, name, idx)
  {
    assert hs[0] in hs;
    assert Leads(t, name, hs[0]);
  }

  lemma ManyHits(t: Ty, name: string, d: nat, hs: seq<seq<nat>>, idx: seq<nat>)
    requires Level(t, name, d, hs) && |hs| > 1
    ensures !Nearest(t, name, idx)
  {
    assert hs[0] in hs && hs[1] in hs && hs[0] != hs[1];
    assert Leads(t, name, hs[0]) && Leads(t, name, hs[1]);
  }

  lemma NoHit(t: Ty, name: string, d: nat, hs: seq<seq<nat>>)
    requires Level(t, name, d, hs) && hs == []
    ensures forall j :: Leads(t, name, j) ==> |j| > d + 1
  {
    forall j | Leads(t, name, j) ensures |j| > d + 1 { assert j !in hs; }
  }

  lemma TooDeep(t: Ty, name: string, d: nat, idx: seq<nat>)
    requires t.Struct? && d >= Levels(t, 0) && forall j :: Leads(t, name, j) ==> |j| > d
    ensures !Leads(t, name, idx)
  {
    LeadsIndex(t, name, idx);
    if Leads(t, name, idx) { IndexFits(t, idx, 0); }
  }

  /** From a level on, the nearest field of the name is the one found. */
  lemma {:induction false} ResolveFromExact(t: Ty, name: string, d: nat, idx: seq<nat>)
    requires t.Struct? && forall j :: Leads(t, name, j) ==> |j| > d
    ensures ResolveFrom(t, name, d) == Some(idx) <==> Nearest(t, name, idx)
    decreases Levels(t, 0) - d
  {
    var hs := Hits(t, name, d, 0);
    HitsLevel(t, name, d);
    if |hs| == 1 {
      assert ResolveFrom(t, name, d) == Some(hs[0]);
      OneHit(t, name, d, hs, idx);
    } else if |hs| > 1 {
      assert ResolveFrom(t, name, d) == None;
      ManyHits(t, name, d, hs, idx);
    } else if d >= Levels(t, 0) {
      assert ResolveFrom(t, name, d) == None;
      TooDeep(t, name, d, idx);
    } else {
      NoHit(t, name, d, hs);
      ResolveFromExact(t, name, d + 1, idx);
    }
  }

  /** A name finds the one field of that name that is embedded least deep. Two of that depth
      hide each other, and everything deeper. */
  lemma ResolveExact(t: Ty, name: string, idx: seq<nat>)
    requires t.Struct?
    ensures Resolve(t, name) == Some(idx) <==> Nearest(t, name, idx)
  {
    ResolveFromExact(t, name, 0, idx);
  }
}
