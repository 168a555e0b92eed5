/** The changes of one diff touch places apart from each other, so the order in which
    they are applied does not matter. */
module Order {
  import opened Prelude
  import opened Sorting
  import opened Entities
  import opened Changes
  import opened Merge
  import Replay
  import Equivalence

  /** Neither path equals or extends the other. */
  predicate Incomparable(p: seq<string>, q: seq<string>) {
    !(p <= q) && !(q <= p)
  }

  /** Two paths that lead, from a value of type `t`, to places neither of which holds the other. */
  predicate Apart(t: Ty, p: seq<string>, q: seq<string>)
    decreases t
  {
    p != [] && q != [] &&
    match t
    case Ptr(e) => Apart(e, p, q)
    case Map => Incomparable(p, q)
    case Struct(_) =>
      var i, j := Resolve(t, p[0]), Resolve(t, q[0]);
      i.Some? && j.Some? &&
      if i == j then Apart(FieldAt(t, i.value).ty, p[1..], q[1..])
      else !(i.value <= j.value) && !(j.value <= i.value)
    case _ => false
  }

  ghost predicate PairwiseApart(t: Ty, es: seq<Edit>) {
    forall i, j :: 0 <= i < j < |es| ==> Apart(t, es[i].path, es[j].path)
  }

  lemma {:induction false} ApartSymmetric(t: Ty, p: seq<string>, q: seq<string>)
    requires Apart(t, p, q)
    ensures Apart(t, q, p)
    decreases t
  {
    match t
    case Ptr(e) => ApartSymmetric(e, p, q);
    case Struct(_) =>
      var i, j := Resolve(t, p[0]), Resolve(t, q[0]);
      if i == j { ApartSymmetric(FieldAt(t, i.value).ty, p[1..], q[1..]); }
    case _ =>
  }

  lemma SameHead(p: seq<string>, q: seq<string>)
    requires p != [] && q != [] && p[0] == q[0]
    ensures Incomparable(p, q) <==> Incomparable(p[1..], q[1..])
  {
    assert p == [p[0]] + p[1..] && q == [q[0]] + q[1..];
    assert p <= q <==> p[1..] <= q[1..];
    assert q <= p <==> q[1..] <= p[1..];
  }

  lemma {:induction false} ApartIncomparable(t: Ty, p: seq<string>, q: seq<string>)
    requires Apart(t, p, q)
    ensures Incomparable(p, q)
    decreases t
  {
    match t
    case Ptr(e) => ApartIncomparable(e, p, q);
    case Struct(_) =>
      var i, j := Resolve(t, p[0]), Resolve(t, q[0]);
      if i == j {
        ApartIncomparable(FieldAt(t, i.value).ty, p[1..], q[1..]);
        SameHead(p, q);
      } else {
        assert p[0] != q[0];
      }
    case _ =>
  }

  // ----- Two changes that are apart commute -----

  /** Both fail, or both succeed with the same value. */
  predicate Alike(r: Result<Value, Fault>, s: Result<Value, Fault>) {
    (r.Ok? <==> s.Ok?) && (r.Ok? ==> r == s)
  }

  function Then(t: Ty, r: Result<Value, Fault>, path: seq<string>, j: Option<Value>): Result<Value, Fault>
    requires r.Ok? ==> HasType(r.value, t)
  {
    match r case Err(f) => Err(f) case Ok(w) => ApplyIn(t, w, path, j)
  }

  function ThenMap(r: Result<Value, Fault>, path: seq<string>, j: Option<Value>): Result<Value, Fault>
    requires (r.Ok? ==> HasType(r.value, Map)) && path != []
  {
    match r case Err(f) => Err(f) case Ok(w) => ApplyMap(w, path, j)
  }

  /** A change below one key leaves every other key, and whether the map is nil, as they were. */
  lemma OtherKeys(v: Value, p: seq<string>, j: Option<Value>, k: string)
    requires HasType(v, Map) && p != [] && p[0] != k && ApplyMap(v, p, j).Ok?
    ensures AgreeOn(ApplyMap(v, p, j).value, v, k)
    ensures ApplyMap(v, p, j).value.Dict? <==> v.Dict?
  {
  }

  /** What a change below one key does depends on that key only. */
  lemma SameKeyAlike(v: Value, w: Value, p: seq<string>, j: Option<Value>)
    requires HasType(v, Map) && HasType(w, Map) && p != []
    requires AgreeOn(v, w, p[0]) && (v.Dict? <==> w.Dict?)
    ensures ApplyMap(v, p, j).Ok? <==> ApplyMap(w, p, j).Ok?
    ensures ApplyMap(v, p, j).Ok? ==> AgreeOn(ApplyMap(v, p, j).value, ApplyMap(w, p, j).value, p[0])
  {
  }

  lemma {:induction false} CommuteMap(v: Value, p: seq<string>, jp: Option<Value>, q: seq<string>, jq: Option<Value>)
    requires HasType(v, Map) && Incomparable(p, q)
    ensures p != [] && q != []
    ensures Alike(ThenMap(ApplyMap(v, p, jp), q, jq), ThenMap(ApplyMap(v, q, jq), p, jp))
    decreases |p|
  {
    assert p != [] && q != [];
    if p[0] != q[0] {
      CommuteKeys(v, p, jp, q, jq);
    } else {
      assert p == [p[0]] + p[1..] && q == [q[0]] + q[1..];
      assert |p| > 1 && |q| > 1;
      SameHead(p, q);
      var k := p[0];
      if v.Dict? && (k in v.m ==> v.m[k].Dict?) {
        var child := if k in v.m then v.m[k] else Dict(map[]);
        CommuteMap(child, p[1..], jp, q[1..], jq);
        BelowKey(v, k, child, p, jp, q, jq);
        BelowKey(v, k, child, q, jq, p, jp);
      }
    }
  }

  lemma BelowKey(v: Value, k: string, child: Value, p: seq<string>, jp: Option<Value>, q: seq<string>,
      jq: Option<Value>)
    requires HasType(v, Map) && v.Dict? && (k in v.m ==> v.m[k].Dict?) && |p| > 1 && |q| > 1 && p[0] == q[0] == k
    requires child == if k in v.m then v.m[k] else Dict(map[])
    ensures ThenMap(ApplyMap(v, p, jp), q, jq).Ok? <==> ThenMap(ApplyMap(child, p[1..], jp), q[1..], jq).Ok?
    ensures ThenMap(ApplyMap(v, p, jp), q, jq).Ok? ==>
            ThenMap(ApplyMap(v, p, jp), q, jq) ==
              Ok(Dict(v.m[k := ThenMap(ApplyMap(child, p[1..], jp), q[1..], jq).value]))
  {
    var r := ApplyMap(child, p[1..], jp);
    if r.Ok? {
      var s := ApplyMap(r.value, q[1..], jq);
      if s.Ok? { assert v.m[k := r.value][k := s.value] == v.m[k := s.value]; }
    }
  }

  lemma CommuteKeys(v: Value, p: seq<string>, jp: Option<Value>, q: seq<string>, jq: Option<Value>)
    requires HasType(v, Map) && p != [] && q != [] && p[0] != q[0]
    ensures Alike(ThenMap(ApplyMap(v, p, jp), q, jq), ThenMap(ApplyMap(v, q, jq), p, jp))
  {
    var r, s := ApplyMap(v, p, jp), ApplyMap(v, q, jq);
    if r.Ok? {
      OtherKeys(v, p, jp, q[0]);
      SameKeyAlike(r.value, v, q, jq);
    }
    if s.Ok? {
      OtherKeys(v, q, jq, p[0]);
      SameKeyAlike(s.value, v, p, jp);
    }
    if r.Ok? && s.Ok? {
      var x, y := ApplyMap(r.value, q, jq).value, ApplyMap(s.value, p, jp).value;
      forall k ensures AgreeOn(x, y, k) {
        if k != q[0] { OtherKeys(r.value, q, jq, k); }
        if k != p[0] { OtherKeys(s.value, p, jp, k); OtherKeys(v, p, jp, q[0]); }
        if k != p[0] && k != q[0] { OtherKeys(v, p, jp, k); OtherKeys(v, q, jq, k); }
      }
      OtherKeys(r.value, q, jq, p[0]);
      OtherKeys(s.value, p, jp, q[0]);
      EntriesEqual(x, y);
    }
  }

  lemma EntriesEqual(x: Value, y: Value)
    requires HasType(x, Map) && HasType(y, Map) && (x.Dict? <==> y.Dict?)
    requires forall k :: AgreeOn(x, y, k)
    ensures x == y
  {
    assert Entries(x) == Entries(y) by {
      forall k ensures (k in Entries(x) <==> k in Entries(y)) && (k in Entries(x) ==> Entries(x)[k] == Entries(y)[k]) {
        assert AgreeOn(x, y, k);
      }
    }
  }

  /** What commutes at the target of a pointer commutes at the pointer. */
  lemma CommuteThrough(e: Ty, v: Value, p: seq<string>, jp: Option<Value>, q: seq<string>, jq: Option<Value>)
    requires HasType(v, Ptr(e)) && p != [] && q != []
    requires var x := if v.Nil? then Zero(e) else v.target;
             Alike(Then(e, ApplyIn(e, x, p, jp), q, jq), Then(e, ApplyIn(e, x, q, jq), p, jp))
    ensures Alike(Then(Ptr(e), ApplyIn(Ptr(e), v, p, jp), q, jq), Then(Ptr(e), ApplyIn(Ptr(e), v, q, jq), p, jp))
  {
  }

  lemma {:induction false} Commute(t: Ty, v: Value, p: seq<string>, jp: Option<Value>, q: seq<string>,
      jq: Option<Value>)
    requires HasType(v, t) && Apart(t, p, q)
    ensures Alike(Then(t, ApplyIn(t, v, p, jp), q, jq), Then(t, ApplyIn(t, v, q, jq), p, jp))
    decreases t, 1, 0
  {
    match t
    case Map => CommuteMap(v, p, jp, q, jq);
    case Ptr(e) =>
      Commute(e, if v.Nil? then Zero(e) else v.target, p, jp, q, jq);
      CommuteThrough(e, v, p, jp, q, jq);
    case Struct(_) =>
      CommuteAt(t, v, Resolve(t, p[0]).value, p[1..], jp, Resolve(t, q[0]).value, q[1..], jq);
  }

  function ThenAt(t: Ty, r: Result<Value, Fault>, idx: seq<nat>, path: seq<string>,
      j: Option<Value>): Result<Value, Fault>
    requires (r.Ok? ==> HasType(r.value, t)) && IsIndex(t, idx)
  {
    match r case Err(f) => Err(f) case Ok(w) => ApplyAt(t, w, idx, path, j)
  }

  ghost predicate ApartAt(t: Ty, i: seq<nat>, p: seq<string>, j: seq<nat>, q: seq<string>)
    requires IsIndex(t, i) && IsIndex(t, j)
  {
    if i == j then Apart(FieldAt(t, i).ty, p, q) else !(i <= j) && !(j <= i)
  }

  lemma {:induction false} CommuteAt(
    t: Ty, v: Value, i: seq<nat>, p: seq<string>, jp: Option<Value>, j: seq<nat>, q: seq<string>, jq: Option<Value>)
    requires HasType(v, t) && IsIndex(t, i) && IsIndex(t, j) && ApartAt(t, i, p, j, q)
    ensures Alike(ThenAt(t, ApplyAt(t, v, i, p, jp), j, q, jq), ThenAt(t, ApplyAt(t, v, j, q, jq), i, p, jp))
    decreases t, 0, |i|
  {
    var h, f := i[0], t.fields[i[0]];
    if i[0] != j[0] {
      CommuteSlots(t, v, i, p, jp, j, q, jq);
    } else {
      var x := v.fs[h];
      assert HasType(x, f.ty) && i == [h] + i[1..] && j == [h] + j[1..];
      if |i| == 1 || |j| == 1 {
        Commute(f.ty, x, p, jp, q, jq);
      } else {
        assert ApartAt(Promoted(f).value, i[1..], p, j[1..], q);
        if f.ty.Struct? {
          CommuteAt(f.ty, x, i[1..], p, jp, j[1..], q, jq);
        } else if x.Ref? {
          CommuteAt(f.ty.elem, x.target, i[1..], p, jp, j[1..], q, jq);
          CommuteTarget(f, x, i[1..], p, jp, j[1..], q, jq);
        }
      }
      CommuteInSlot(t, v, i, p, jp, j, q, jq);
    }
  }

  /** What commutes behind an embedded pointer commutes at the pointer. */
  lemma CommuteTarget(
    f: Field, x: Value, i: seq<nat>, p: seq<string>, jp: Option<Value>, j: seq<nat>, q: seq<string>, jq: Option<Value>)
    requires f.embedded && f.ty.Ptr? && f.ty.elem.Struct? && HasType(x, f.ty) && x.Ref?
    requires IsIndex(f.ty.elem, i) && IsIndex(f.ty.elem, j)
    requires Alike(ThenAt(f.ty.elem, ApplyAt(f.ty.elem, x.target, i, p, jp), j, q, jq),
                   ThenAt(f.ty.elem, ApplyAt(f.ty.elem, x.target, j, q, jq), i, p, jp))
    ensures Alike(ThenSlot(f, AtSlot(f, x, i, p, jp), j, q, jq), ThenSlot(f, AtSlot(f, x, j, q, jq), i, p, jp))
  {
  }

  /** What commutes in one field of a struct commutes in the struct. */
  lemma CommuteInSlot(
    t: Ty, v: Value, i: seq<nat>, p: seq<string>, jp: Option<Value>, j: seq<nat>, q: seq<string>, jq: Option<Value>)
    requires HasType(v, t) && IsIndex(t, i) && IsIndex(t, j) && i[0] == j[0] && HasType(v.fs[i[0]], t.fields[i[0]].ty)
    requires var f, x := t.fields[i[0]], v.fs[i[0]];
             Alike(ThenSlot(f, AtSlot(f, x, i[1..], p, jp), j[1..], q, jq),
                   ThenSlot(f, AtSlot(f, x, j[1..], q, jq), i[1..], p, jp))
    ensures Alike(ThenAt(t, ApplyAt(t, v, i, p, jp), j, q, jq), ThenAt(t, ApplyAt(t, v, j, q, jq), i, p, jp))
  {
    SlotTwice(t, v, i, p, jp, j, q, jq);
    SlotTwice(t, v, j, q, jq, i, p, jp);
  }

  /** One change at an index path, as a change of the field its first step names. */
  function AtSlot(f: Field, x: Value, idx: seq<nat>, path: seq<string>, j: Option<Value>): (r: Result<Value, Fault>)
    requires HasType(x, f.ty) && (idx != [] ==> Promoted(f).Some? && IsIndex(Promoted(f).value, idx))
    ensures r.Ok? ==> HasType(r.value, f.ty)
  {
    if idx == [] then ApplyIn(f.ty, x, path, j)
    else if f.ty.Struct? then ApplyAt(f.ty, x, idx, path, j)
    else if x.Nil? then Err(NilEmbedded)
    else match ApplyAt(f.ty.elem, x.target, idx, path, j) case Err(e) => Err(e) case Ok(w) => Ok(Ref(w))
  }

  function Back(v: Value, i: nat, r: Result<Value, Fault>): Result<Value, Fault>
    requires v.Rec? && i < |v.fs|
  {
    match r case Err(e) => Err(e) case Ok(x) => Ok(Rec(v.fs[i := x]))
  }

  function ThenSlot(f: Field, r: Result<Value, Fault>, idx: seq<nat>, path: seq<string>,
      j: Option<Value>): Result<Value, Fault>
    requires (r.Ok? ==> HasType(r.value, f.ty)) && (idx != [] ==> Promoted(f).Some? && IsIndex(Promoted(f).value, idx))
  {
    match r case Err(e) => Err(e) case Ok(x) => AtSlot(f, x, idx, path, j)
  }

  lemma SlotOnce(t: Ty, v: Value, i: seq<nat>, p: seq<string>, jp: Option<Value>)
    requires HasType(v, t) && IsIndex(t, i)
    ensures ApplyAt(t, v, i, p, jp) == Back(v, i[0], AtSlot(t.fields[i[0]], v.fs[i[0]], i[1..], p, jp))
  {
    assert HasType(v.fs[i[0]], t.fields[i[0]].ty);
  }

  lemma SlotTwice(
    t: Ty, v: Value, i: seq<nat>, p: seq<string>, jp: Option<Value>, j: seq<nat>, q: seq<string>, jq: Option<Value>)
    requires HasType(v, t) && IsIndex(t, i) && IsIndex(t, j) && i[0] == j[0]
    ensures ThenAt(t, ApplyAt(t, v, i, p, jp), j, q, jq) ==
            Back(v, i[0], ThenSlot(t.fields[i[0]], AtSlot(t.fields[i[0]], v.fs[i[0]], i[1..], p, jp), j[1..], q, jq))
  {
    SlotOnce(t, v, i, p, jp);
    var r := ApplyAt(t, v, i, p, jp);
    if r.Ok? {
      SlotOnce(t, r.value, j, q, jq);
      var mid := r.value.fs[i[0]];
      var s := AtSlot(t.fields[i[0]], mid, j[1..], q, jq);
      if s.Ok? { assert v.fs[i[0] := mid][i[0] := s.value] == v.fs[i[0] := s.value]; }
    }
  }

  lemma CommuteSlots(
    t: Ty, v: Value, i: seq<nat>, p: seq<string>, jp: Option<Value>, j: seq<nat>, q: seq<string>, jq: Option<Value>)
    requires HasType(v, t) && IsIndex(t, i) && IsIndex(t, j) && i[0] != j[0]
    ensures Alike(ThenAt(t, ApplyAt(t, v, i, p, jp), j, q, jq), ThenAt(t, ApplyAt(t, v, j, q, jq), i, p, jp))
  {
    SlotOnce(t, v, i, p, jp);
    SlotOnce(t, v, j, q, jq);
    var r, s := ApplyAt(t, v, i, p, jp), ApplyAt(t, v, j, q, jq);
    if r.Ok? { SlotOnce(t, r.value, j, q, jq); }
    if s.Ok? { SlotOnce(t, s.value, i, p, jp); }
    if r.Ok? && s.Ok? {
      var x, y := r.value.fs[i[0]], s.value.fs[j[0]];
      assert v.fs[i[0] := x][j[0] := y] == v.fs[j[0] := y][i[0] := x];
    }
  }

  // ----- Permuting a list of changes -----

  lemma ApplyFirst(t: Ty, v: Value, e: Edit, es: seq<Edit>)
    requires HasType(v, t)
    ensures ApplyAll(t, v, [e] + es) == ThenAll(t, ApplyIn(t, v, e.path, e.after), es)
  {
    assert ([e] + es)[0] == e && ([e] + es)[1..] == es;
  }

  lemma {:induction false} MoveToFront(t: Ty, v: Value, ds: seq<Edit>, e: Edit)
    requires HasType(v, t) && forall d :: d in ds ==> Apart(t, d.path, e.path)
    ensures Alike(ApplyAll(t, v, ds + [e]), ApplyAll(t, v, [e] + ds))
    decreases |ds|
  {
    if ds == [] {
      assert ds + [e] == [e] + ds;
    } else {
      var d, rest := ds[0], ds[1..];
      assert ds == [d] + rest && ds + [e] == [d] + (rest + [e]);
      Commute(t, v, d.path, d.after, e.path, e.after);
      ApplyFirst(t, v, d, rest + [e]);
      ApplyFirst(t, v, e, ds);
      var v1, v2 := ApplyIn(t, v, d.path, d.after), ApplyIn(t, v, e.path, e.after);
      if v1.Ok? {
        MoveToFront(t, v1.value, rest, e);
        ApplyFirst(t, v1.value, e, rest);
      }
      if v2.Ok? { ApplyFirst(t, v2.value, d, rest); }
    }
  }

  lemma TakeOut(t: Ty, es: seq<Edit>, k: nat)
    requires k < |es| && PairwiseApart(t, es)
    ensures PairwiseApart(t, es[..k] + es[k + 1..])
  {
    var rest := es[..k] + es[k + 1..];
    forall i, j | 0 <= i < j < |rest| ensures Apart(t, rest[i].path, rest[j].path) {
      var i', j' := if i < k then i else i + 1, if j < k then j else j + 1;
      assert rest[i] == es[i'] && rest[j] == es[j'];
    }
  }

  lemma TakenOut(es: seq<Edit>, k: nat)
    requires k < |es|
    ensures multiset(es[..k] + es[k + 1..]) == multiset(es) - multiset{es[k]}
  {
    assert es == es[..k] + [es[k]] + es[k + 1..];
  }

  /** Any one of the changes may go first. */
  lemma AnyFirst(t: Ty, v: Value, es: seq<Edit>, k: nat)
    requires HasType(v, t) && PairwiseApart(t, es) && k < |es|
    ensures Alike(ApplyAll(t, v, es), ThenAll(t, ApplyIn(t, v, es[k].path, es[k].after), es[..k] + es[k + 1..]))
  {
    var ds, e, rest := es[..k], es[k], es[k + 1..];
    forall d | d in ds ensures Apart(t, d.path, e.path) {
      var i: nat :| i < k && es[i] == d;
    }
    assert es == (ds + [e]) + rest && [e] + (ds + rest) == ([e] + ds) + rest;
    MoveToFront(t, v, ds, e);
    ApplyAllConcat(t, v, ds + [e], rest);
    ApplyAllConcat(t, v, [e] + ds, rest);
    ApplyFirst(t, v, e, ds + rest);
  }

  /** The first of one list, found in a permutation of it; the rests are permutations too. */
  lemma Matching(es: seq<Edit>, fs: seq<Edit>) returns (k: nat)
    requires fs != [] && multiset(es) == multiset(fs)
    ensures k < |es| && es[k] == fs[0] && multiset(es[..k] + es[k + 1..]) == multiset(fs[1..])
  {
    assert fs == [fs[0]] + fs[1..] && fs[0] in multiset(es);
    k :| 0 <= k < |es| && es[k] == fs[0];
    TakenOut(es, k);
    assert multiset(fs[1..]) == multiset(fs) - multiset{fs[0]};
  }

  /** Applying the changes of a diff in any order gives the same value, or fails in any order. */
  lemma {:induction false} AnyOrder(t: Ty, v: Value, es: seq<Edit>, fs: seq<Edit>)
    requires HasType(v, t) && PairwiseApart(t, es) && multiset(es) == multiset(fs)
    ensures Alike(ApplyAll(t, v, es), ApplyAll(t, v, fs))
    decreases |fs|
  {
    if fs == [] {
      assert |multiset(es)| == 0;
    } else {
      var e := fs[0];
      var k := Matching(es, fs);
      assert fs == [e] + fs[1..];
      AnyFirst(t, v, es, k);
      ApplyFirst(t, v, e, fs[1..]);
      var r := ApplyIn(t, v, e.path, e.after);
      if r.Ok? {
        TakeOut(t, es, k);
        AnyOrder(t, r.value, es[..k] + es[k + 1..], fs[1..]);
      }
    }
  }

  // ----- The changes of one diff are apart -----

  lemma {:induction false} FieldAtWalk(h: Ty, idx: seq<nat>)
    requires IsIndex(h, idx) && Walk(h, idx)
    ensures FieldAt(h, idx).ty == TyAt(h, idx)
    decreases idx
  {
    if |idx| > 1 { FieldAtWalk(h.fields[idx[0]].ty, idx[1..]); }
    else { assert idx[1..] == []; }
  }

  /** All these changes start inside field `k` of the struct at `at`. */
  ghost predicate Routed(h: Ty, at: seq<nat>, es: seq<Edit>, lo: nat, hi: nat)
    requires h.Struct?
  {
    forall e :: e in es ==>
      e.path != [] &&
      match Resolve(h, e.path[0])
      case None => false
      case Some(idx) => |at| < |idx| && at <= idx && lo <= idx[|at|] < hi
  }

  lemma RoutedApart(h: Ty, at: seq<nat>, k: nat, n: nat, ds: seq<Edit>, es: seq<Edit>)
    requires h.Struct? && Routed(h, at, ds, k, k + 1) && Routed(h, at, es, k + 1, n)
    requires PairwiseApart(h, ds) && PairwiseApart(h, es)
    ensures PairwiseApart(h, ds + es)
  {
    var all := ds + es;
    forall i, j | 0 <= i < j < |all| ensures Apart(h, all[i].path, all[j].path) {
      if i < |ds| <= j {
        assert all[i] in ds && all[j] in es;
        var x, y := Resolve(h, all[i].path[0]).value, Resolve(h, all[j].path[0]).value;
        assert x[|at|] != y[|at|];
      } else if i >= |ds| {
        assert all[i] == es[i - |ds|] && all[j] == es[j - |ds|];
      }
    }
  }

  lemma UnderApart(h: Ty, at: seq<nat>, k: nat, name: string, es: seq<Edit>)
    requires h.Struct? && Resolve(h, name) == Some(at + [k])
    requires PairwiseApart(FieldAt(h, at + [k]).ty, es)
    ensures PairwiseApart(h, Under(name, es)) && Routed(h, at, Under(name, es), k, k + 1)
  {
    var us := Under(name, es);
    forall i, j | 0 <= i < j < |us| ensures Apart(h, us[i].path, us[j].path) {
      assert us[i].path == [name] + es[i].path && us[j].path == [name] + es[j].path;
      assert us[i].path[1..] == es[i].path && us[j].path[1..] == es[j].path;
    }
  }

  lemma {:induction false} StructApart(h: Ty, at: seq<nat>, t: Ty, tracked: bool, a: Value, b: Value, i: nat)
    requires h.Struct? && t.Struct? && Walk(h, at) && TyAt(h, at) == t && HasType(a, t) && HasType(b, t)
    requires i <= |t.fields|
    requires SlotsReached(h, at, t, tracked, a, b) && FieldsSupported(t, tracked, a, b)
    ensures PairwiseApart(h, StructEdits(t, tracked, a, b, i))
    ensures Routed(h, at, StructEdits(t, tracked, a, b, i), i, |t.fields|)
    decreases t, 1, |t.fields| - i
  {
    if i < |t.fields| {
      var f := t.fields[i];
      var ds, es := SlotEdits(f, tracked, a.fs[i], b.fs[i]), StructEdits(t, tracked, a, b, i + 1);
      Replay.WalkFurther(h, at, i);
      StructApart(h, at, t, tracked, a, b, i + 1);
      assert SlotSupported(f, tracked, a.fs[i], b.fs[i]);
      assert PairwiseApart(h, ds) && Routed(h, at, ds, i, i + 1) by {
        if Skipped(f, tracked) {
        } else if f.Promotes() {
          StructApart(h, at + [i], f.ty, tracked || HasTracked(f.ty), a.fs[i], b.fs[i], 0);
          RoutedInside(h, at, i, |f.ty.fields|, ds);
        } else {
          NamedApart(h, at, f, a.fs[i], b.fs[i], i);
        }
      }
      RoutedApart(h, at, i, |t.fields|, ds, es);
    }
  }

  /** A field that changed is found by its name; one that did not has no changes. */
  lemma {:induction false} NamedApart(h: Ty, at: seq<nat>, f: Field, a: Value, b: Value, i: nat)
    requires h.Struct? && HasType(a, f.ty) && HasType(b, f.ty) && Supported(f.ty, a, b) && Reached(f.ty, a, b)
    requires Walk(h, at + [i]) && TyAt(h, at + [i]) == f.ty
    requires !Same(f.ty, f.tags.normalized, a, b) ==> Resolve(h, f.name) == Some(at + [i])
    ensures PairwiseApart(h, Under(f.name, FieldEdits(f.ty, f.tags.normalized, a, b)))
    ensures Routed(h, at, Under(f.name, FieldEdits(f.ty, f.tags.normalized, a, b)), i, i + 1)
    decreases f.ty, 3
  {
    var es := FieldEdits(f.ty, f.tags.normalized, a, b);
    if Same(f.ty, f.tags.normalized, a, b) {
      Equivalence.EmptyIffSame(f.ty, f.tags.normalized, a, b);
      assert Under(f.name, es) == [];
    } else {
      FieldApart(f.ty, f.tags.normalized, a, b);
      FieldAtWalk(h, at + [i]);
      UnderApart(h, at, i, f.name, es);
    }
  }

  lemma RoutedInside(h: Ty, at: seq<nat>, i: nat, n: nat, es: seq<Edit>)
    requires h.Struct? && Routed(h, at + [i], es, 0, n)
    ensures Routed(h, at, es, i, i + 1)
  {
    forall e | e in es
      ensures e.path != [] && Resolve(h, e.path[0]).Some? && |at| < |Resolve(h, e.path[0]).value|
              && at <= Resolve(h, e.path[0]).value && Resolve(h, e.path[0]).value[|at|] == i
    {
      var idx := Resolve(h, e.path[0]).value;
      assert idx[|at|] == (at + [i])[|at|] && idx[..|at|] == (at + [i])[..|at|] == at;
    }
  }

  lemma {:induction false} FieldApart(t: Ty, norm: bool, a: Value, b: Value)
    requires HasType(a, t) && HasType(b, t) && Reached(t, a, b) && Supported(t, a, b)
    ensures PairwiseApart(t, FieldEdits(t, norm, a, b))
    decreases t, 2
  {
    match t
    case Map => MapApart(a, b);
    case Struct(_) => StructApart(t, [], t, HasTracked(t), a, b, 0);
    case Ptr(e) =>
      if a.Ref? && b.Ref? && e.Struct? {
        StructApart(e, [], e, HasTracked(e), a.target, b.target, 0);
        var es := StructEdits(e, HasTracked(e), a.target, b.target, 0);
        assert forall i, j :: 0 <= i < j < |es| ==> Apart(e, es[i].path, es[j].path) ==>
          Apart(t, es[i].path, es[j].path);
      }
    case _ =>
  }

  lemma {:induction false} MapApart(a: Value, b: Value)
    requires HasType(a, Map) && HasType(b, Map)
    ensures PairwiseApart(Map, MapEdits(a, b))
    ensures forall e :: e in MapEdits(a, b) ==> e.path != []
    decreases a, 1
  {
    var ks := Entries(a).Keys + Entries(b).Keys;
    SortedKeysDistinct(ks);
    KeysApart(a, b, SortedKeys(ks));
  }

  lemma {:induction false} KeysApart(a: Value, b: Value, keys: seq<string>)
    requires HasType(a, Map) && HasType(b, Map)
    requires forall i, j :: 0 <= i < j < |keys| ==> keys[i] != keys[j]
    ensures PairwiseApart(Map, KeysEdits(a, b, keys))
    ensures forall e :: e in KeysEdits(a, b, keys) ==> e.path != [] && e.path[0] in keys
    decreases a, 0, |keys|
  {
    if keys != [] {
      var k, ma, mb := keys[0], Entries(a), Entries(b);
      if k in ma && k in mb && ma[k].Dict? && mb[k].Dict? { MapApart(ma[k], mb[k]); }
      KeysApart(a, b, keys[1..]);
      KeyThenKeys(k, keys[1..], KeyEdits(a, b, k), KeysEdits(a, b, keys[1..]));
    }
  }

  lemma KeyThenKeys(k: string, rest: seq<string>, ds: seq<Edit>, es: seq<Edit>)
    requires k !in rest && PairwiseApart(Map, ds) && PairwiseApart(Map, es)
    requires forall e :: e in es ==> e.path != [] && e.path[0] in rest
    ensures PairwiseApart(Map, Under(k, ds) + es)
    ensures forall e :: e in Under(k, ds) + es ==> e.path != [] && e.path[0] in [k] + rest
  {
    var us, all := Under(k, ds), Under(k, ds) + es;
    forall i, j | 0 <= i < j < |all| ensures Apart(Map, all[i].path, all[j].path) {
      if i < |us| <= j {
        assert all[j] in es && all[i].path[0] == k;
      } else if i >= |us| {
        assert all[i] == es[i - |us|] && all[j] == es[j - |us|];
      } else {
        assert all[i].path[1..] == ds[i].path && all[j].path[1..] == ds[j].path;
        SameHead(all[i].path, all[j].path);
      }
    }
  }

  /** No path of a diff equals or extends another, and any order of its changes is as good. */
  lemma DiffOrderFree(t: Ty, v: Value, a: Value, b: Value, fs: seq<Edit>)
    requires t.Struct? && HasType(v, t) && HasType(a, t) && HasType(b, t) && Reached(t, a, b) && Supported(t, a, b)
    requires multiset(fs) == multiset(StructEdits(t, HasTracked(t), a, b, 0))
    ensures forall i, j :: 0 <= i < j < |StructEdits(t, HasTracked(t), a, b, 0)| ==>
              Incomparable(StructEdits(t, HasTracked(t), a, b, 0)[i].path,
                           StructEdits(t, HasTracked(t), a, b, 0)[j].path)
    ensures Alike(ApplyAll(t, v, StructEdits(t, HasTracked(t), a, b, 0)), ApplyAll(t, v, fs))
  {
    var es := StructEdits(t, HasTracked(t), a, b, 0);
    StructApart(t, [], t, HasTracked(t), a, b, 0);
    forall i, j | 0 <= i < j < |es| ensures Incomparable(es[i].path, es[j].path) {
      ApartIncomparable(t, es[i].path, es[j].path);
    }
    AnyOrder(t, v, es, fs);
  }
}
