/** Which keys the cache holds after any run of gets and puts, and what an invalidation takes out. */
module LruRuns {
  import opened Prelude
  import opened CacheKey
  import opened Lru

  datatype Op<V> = Get(key: string) | Put(key: string, value: V)

  function After<V>(s: Recency<V>, capacity: nat, op: Op<V>): Recency<V> {
    match op
    case Get(k) => AfterGet(s, k)
    case Put(k, v) => AfterPut(s, capacity, k, v)
  }

  /** The cache after a run from empty. */
  function Cache<V>(ops: seq<Op<V>>, capacity: nat): Recency<V> {
    if ops == [] then [] else After(Cache(ops[..|ops| - 1], capacity), capacity, ops[|ops| - 1])
  }

  /** The keys touched: every put, and every get that hits. */
  function Touches<V>(ops: seq<Op<V>>, capacity: nat): seq<string> {
    if ops == [] then []
    else
      var before, op := ops[..|ops| - 1], ops[|ops| - 1];
      if op.Put? || Holds(Cache(before, capacity), op.key) then Touches(before, capacity) + [op.key]
      else Touches(before, capacity)
  }

  // ----- Ranking keys by their last touch -----

  function Minus(r: seq<string>, k: string): seq<string> {
    if r == [] then [] else if r[0] == k then r[1..] else [r[0]] + Minus(r[1..], k)
  }

  /** The touched keys, latest touch first. */
  function Ranking(ts: seq<string>): seq<string> {
    if ts == [] then [] else [ts[|ts| - 1]] + Minus(Ranking(ts[..|ts| - 1]), ts[|ts| - 1])
  }

  ghost predicate NoRepeats(r: seq<string>) {
    forall i, j :: 0 <= i < j < |r| ==> r[i] != r[j]
  }

  ghost function KeySet(r: seq<string>): set<string> {
    set k | k in r
  }

  lemma {:induction false} MinusMembers(r: seq<string>, k: string, j: string)
    requires NoRepeats(r)
    ensures j in Minus(r, k) <==> j in r && j != k
  {
    if r != [] {
      assert r == [r[0]] + r[1..];
      assert forall i :: 0 <= i < |r| - 1 ==> r[1..][i] == r[i + 1];
      MinusMembers(r[1..], k, j);
      if r[0] == k && k in r[1..] { var i: nat :| i < |r[1..]| && r[1..][i] == k; assert r[i + 1] == k; }
    }
  }

  lemma {:induction false} MinusFacts(r: seq<string>, k: string)
    requires NoRepeats(r)
    ensures NoRepeats(Minus(r, k)) && forall j :: j in Minus(r, k) <==> j in r && j != k
    ensures |Minus(r, k)| == if k in r then |r| - 1 else |r|
  {
    if r != [] {
      assert forall i :: 0 <= i < |r| - 1 ==> r[1..][i] == r[i + 1];
      MinusFacts(r[1..], k);
      var m := Minus(r, k);
      if r[0] != k {
        forall j | 0 < j < |m| ensures m[j] != r[0] {
          assert m[j] == Minus(r[1..], k)[j - 1];
          MinusMembers(r[1..], k, r[0]);
        }
        assert k in r <==> k in r[1..];
      }
    }
    forall j ensures j in Minus(r, k) <==> j in r && j != k { MinusMembers(r, k, j); }
  }

  /** Taking a key out of a prefix and taking a prefix commute. */
  lemma {:induction false} MinusPrefix(r: seq<string>, k: string, n: nat)
    requires n <= |r|
    ensures k in r[..n] ==> n >= 1 && n - 1 <= |Minus(r, k)| && Minus(r[..n], k) == Minus(r, k)[..n - 1]
    ensures k !in r[..n] ==> n <= |Minus(r, k)| + (if k in r then 1 else 0) && Minus(r[..n], k) == r[..n]
    decreases |r|
  {
    if r != [] && n > 0 {
      var p := r[..n];
      assert r == [r[0]] + r[1..] && p[1..] == r[1..][..n - 1] && p == [r[0]] + p[1..];
      MinusPrefix(r[1..], k, n - 1);
    } else {
      assert r[..0] == [];
      MinusLength(r, k);
    }
  }

  lemma {:induction false} MinusLength(r: seq<string>, k: string)
    ensures |Minus(r, k)| == |r| - if k in r then 1 else 0
  {
    if r != [] {
      assert r == [r[0]] + r[1..];
      MinusLength(r[1..], k);
    }
  }

  /** Before the place of a key nothing moves when it is taken out. */
  lemma {:induction false} MinusBefore(r: seq<string>, k: string, n: nat, m: nat)
    requires n <= |r| && k !in r[..n] && m <= n && m <= |Minus(r, k)|
    ensures Minus(r, k)[..m] == r[..m]
    decreases |r|
  {
    if m > 0 {
      assert r[..n] == [r[0]] + r[1..][..n - 1];
      MinusBefore(r[1..], k, n - 1, m - 1);
      assert Minus(r, k)[..m] == [r[0]] + Minus(r[1..], k)[..m - 1];
      assert r[..m] == [r[0]] + r[1..][..m - 1];
    }
  }

  lemma {:induction false} RankingFacts(ts: seq<string>)
    ensures NoRepeats(Ranking(ts)) && (forall k :: k in Ranking(ts) <==> k in ts)
    ensures |Ranking(ts)| == |KeySet(ts)|
    decreases |ts|
  {
    if ts != [] {
      var before, x := ts[..|ts| - 1], ts[|ts| - 1];
      RankingFacts(before);
      MinusFacts(Ranking(before), x);
      assert ts == before + [x];
      assert KeySet(ts) == KeySet(before) + {x};
    }
  }

  /** The latest touches alone decide the front of the ranking. */
  lemma {:induction false} RankingSuffix(a: seq<string>, b: seq<string>)
    ensures Ranking(b) <= Ranking(a + b)
    decreases |b|
  {
    if b != [] {
      var x, b' := b[|b| - 1], b[..|b| - 1];
      assert (a + b)[..|a + b| - 1] == a + b' && (a + b)[|a + b| - 1] == x;
      RankingSuffix(a, b');
      MinusGrows(Ranking(b'), Ranking(a + b'), x);
    }
  }

  lemma MinusGrows(p: seq<string>, r: seq<string>, k: string)
    requires p <= r
    ensures [k] + Minus(p, k) <= [k] + Minus(r, k)
  {
    MinusExtends(p, r[|p|..], k);
    assert r == p + r[|p|..];
  }

  lemma {:induction false} MinusExtends(p: seq<string>, q: seq<string>, k: string)
    ensures Minus(p, k) <= Minus(p + q, k)
    decreases |p|
  {
    if p != [] {
      assert (p + q)[1..] == p[1..] + q;
      MinusExtends(p[1..], q, k);
    }
  }

  lemma RankingLast(ts: seq<string>, x: string)
    ensures Ranking(ts + [x]) == [x] + Minus(Ranking(ts), x)
  {
    assert (ts + [x])[..|ts|] == ts;
  }

  lemma {:induction false} RankedAfter(k: string, b: seq<string>)
    requires k !in b
    ensures Ranking([k] + b) == Ranking(b) + [k]
    decreases |b|
  {
    if b == [] {
      assert [k] + b == [k] && [k][..0] == [];
    } else {
      var x, b' := b[|b| - 1], b[..|b| - 1];
      assert [k] + b == ([k] + b') + [x] && b == b' + [x];
      RankedAfter(k, b');
      RankingLast([k] + b', x);
      RankingLast(b', x);
      MinusLast(Ranking(b'), k, x);
    }
  }

  lemma {:induction false} MinusLast(r: seq<string>, k: string, x: string)
    requires x != k
    ensures Minus(r + [k], x) == Minus(r, x) + [k]
  {
    if r != [] {
      assert (r + [k])[1..] == r[1..] + [k];
      MinusLast(r[1..], k, x);
    } else {
      assert r + [k] == [k];
    }
  }

  /** A key last touched before `b` ranks right behind the distinct keys of `b`. */
  lemma RankOf(a: seq<string>, k: string, b: seq<string>)
    requires k !in b
    ensures |KeySet(b)| < |Ranking(a + [k] + b)| && Ranking(a + [k] + b)[|KeySet(b)|] == k
  {
    assert a + [k] + b == a + ([k] + b);
    RankingSuffix(a, [k] + b);
    RankedAfter(k, b);
    RankingFacts(b);
  }

  // ----- The cache holds the front of the ranking -----

  function Keys<V>(s: Recency<V>): seq<string> {
    seq(|s|, i requires 0 <= i < |s| => s[i].0)
  }

  lemma KeysHolds<V>(s: Recency<V>, k: string)
    ensures k in Keys(s) <==> Holds(s, k)
  {
    if k in Keys(s) { var i: nat :| i < |s| && Keys(s)[i] == k; }
    if i: nat :| i < |s| && s[i].0 == k { assert Keys(s)[i] == k; }
  }

  lemma {:induction false} KeysWithout<V>(s: Recency<V>, k: string)
    ensures Keys(Without(s, k)) == Minus(Keys(s), k)
  {
    if s != [] {
      assert Keys(s)[1..] == Keys(s[1..]);
      KeysWithout(s[1..], k);
    }
  }

  lemma {:induction false} LookupHolds<V>(s: Recency<V>, k: string)
    ensures Lookup(s, k).Some? <==> Holds(s, k)
  {
    if s != [] {
      HoldsTail(s, k);
      LookupHolds(s[1..], k);
    }
  }

  function Front(r: seq<string>, capacity: nat): seq<string> {
    if |r| <= capacity then r else r[..capacity]
  }

  /** The keys after a touch: the touched one first, and one dropped if there is no room. */
  lemma KeysTouched<V>(s: Recency<V>, capacity: nat, op: Op<V>)
    requires capacity >= 1 && (op.Put? || Holds(s, op.key))
    ensures Keys(After(s, capacity, op)) ==
            [op.key] + (if op.key in Keys(s) || |s| < capacity then Minus(Keys(s), op.key)
                        else if s == [] then [] else Keys(s)[..|s| - 1])
  {
    KeysHolds(s, op.key);
    LookupHolds(s, op.key);
    KeysWithout(s, op.key);
  }

  lemma {:induction false} CacheIsFront<V>(ops: seq<Op<V>>, capacity: nat)
    requires capacity >= 1
    ensures Keys(Cache(ops, capacity)) == Front(Ranking(Touches(ops, capacity)), capacity)
    decreases |ops|
  {
    if ops != [] {
      var before, op := ops[..|ops| - 1], ops[|ops| - 1];
      CacheIsFront(before, capacity);
      var s, ts := Cache(before, capacity), Touches(before, capacity);
      if op.Put? || Holds(s, op.key) {
        assert (ts + [op.key])[..|ts|] == ts && Ranking(ts + [op.key]) == [op.key] + Minus(Ranking(ts), op.key);
        RankingFacts(ts);
        FrontTouched(Ranking(ts), capacity, op.key);
        KeysTouched(s, capacity, op);
      } else {
        LookupHolds(s, op.key);
      }
    }
  }

  /** Touching a key moves it to the front of the ranking and of its front alike. */
  lemma FrontTouched(r: seq<string>, capacity: nat, k: string)
    requires capacity >= 1 && NoRepeats(r)
    ensures var f := Front(r, capacity);
            Front([k] + Minus(r, k), capacity) ==
            [k] + (if k in f || |f| < capacity then Minus(f, k) else f[..|f| - 1])
  {
    var f := Front(r, capacity);
    MinusFacts(r, k);
    if |r| > capacity {
      MinusPrefix(r, k, capacity);
      assert ([k] + Minus(r, k))[..capacity] == [k] + Minus(r, k)[..capacity - 1];
      if k !in f {
        MinusLength(r, k);
        MinusBefore(r, k, capacity, capacity - 1);
        assert r[..capacity - 1] == f[..capacity - 1];
      }
    } else if k !in f && |f| == capacity {
      MinusPrefix(r, k, capacity);
      assert r[..capacity] == r && Minus(r, k) == r;
      assert ([k] + r)[..capacity] == [k] + r[..capacity - 1];
    }
  }

  /** The value of the latest put of a key. */
  function LatestPut<V>(ops: seq<Op<V>>, k: string): Option<V> {
    if ops == [] then None
    else
      var op := ops[|ops| - 1];
      if op.Put? && op.key == k then Some(op.value) else LatestPut(ops[..|ops| - 1], k)
  }

  lemma {:induction false} HeldValues<V>(ops: seq<Op<V>>, capacity: nat, k: string)
    requires capacity >= 1
    ensures Lookup(Cache(ops, capacity), k).Some? ==> Lookup(Cache(ops, capacity), k) == LatestPut(ops, k)
    ensures k in Touches(ops, capacity) <==> LatestPut(ops, k).Some?
    decreases |ops|
  {
    if ops != [] {
      var before, op := ops[..|ops| - 1], ops[|ops| - 1];
      HeldValues(before, capacity, k);
      var s := Cache(before, capacity);
      LookupHolds(s, op.key);
      LookupWithout(s, op.key, k);
      LookupPrefix(s, k);
    }
  }

  lemma {:induction false} LookupWithout<V>(s: Recency<V>, gone: string, k: string)
    ensures k != gone ==> Lookup(Without(s, gone), k) == Lookup(s, k)
  {
    if s != [] { LookupWithout(s[1..], gone, k); }
  }

  lemma {:induction false} LookupPrefix<V>(s: Recency<V>, k: string)
    ensures s != [] && Lookup(s[..|s| - 1], k).Some? ==> Lookup(s[..|s| - 1], k) == Lookup(s, k)
  {
    if |s| > 1 {
      assert s[..|s| - 1][1..] == s[1..][..|s| - 2];
      LookupPrefix(s[1..], k);
    }
  }

  /** A get hits exactly if the key was put before and fewer than `capacity` distinct other
      keys were touched since its own last touch; it then gives the value of the latest put. */
  lemma RecencyTheorem<V>(ops: seq<Op<V>>, capacity: nat, key: string, a: seq<string>, b: seq<string>)
    requires capacity >= 1
    requires Touches(ops, capacity) == a + [key] + b && key !in b
    ensures LatestPut(ops, key).Some?
    ensures Lookup(Cache(ops, capacity), key).Some? <==> |KeySet(b)| < capacity
    ensures Lookup(Cache(ops, capacity), key).Some? ==> Lookup(Cache(ops, capacity), key) == LatestPut(ops, key)
  {
    var r := Ranking(Touches(ops, capacity));
    CacheIsFront(ops, capacity);
    HeldValues(ops, capacity, key);
    RankOf(a, key, b);
    RankingFacts(Touches(ops, capacity));
    KeysHolds(Cache(ops, capacity), key);
    LookupHolds(Cache(ops, capacity), key);
    var f := Front(r, capacity);
    assert key in Touches(ops, capacity) by { assert (a + [key] + b)[|a|] == key; }
    if |KeySet(b)| < capacity { assert f[|KeySet(b)|] == key; }
    if key in f { var i: nat :| i < |f| && f[i] == key; assert r[i] == key; }
  }

  /** A key that was never put is never found. */
  lemma NeverPut<V>(ops: seq<Op<V>>, capacity: nat, key: string)
    requires capacity >= 1 && key !in Touches(ops, capacity)
    ensures LatestPut(ops, key) == None && Lookup(Cache(ops, capacity), key) == None
  {
    HeldValues(ops, capacity, key);
  }

  // ----- Invalidation -----

  lemma {:induction false} InvalidateHolds<V>(s: Recency<V>, prefix: string, k: string)
    ensures Holds(AfterInvalidate(s, prefix), k) <==> Holds(s, k) && !(prefix <= k)
  {
    if s != [] {
      InvalidateHolds(s[1..], prefix, k);
      HoldsTail(s, k);
      var d := AfterInvalidate(s, prefix);
      if !(prefix <= s[0].0) { HoldsTail(d, k); assert d[1..] == AfterInvalidate(s[1..], prefix); }
    }
  }

  /** Invalidating an entity takes out all its versions, and besides them exactly those of
      entities whose identifier continues its own after a colon. */
  lemma InvalidateTakesOut<V>(s: Recency<V>, t: string, i: string, t': string, i': string, v': int64)
    ensures Holds(AfterInvalidate(s, EntityPrefix(t, i)), Key(t', i', v')) <==>
            Holds(s, Key(t', i', v')) && !Covers(t, i, t', i')
    ensures ':' !in t && ':' !in t' ==> (Covers(t, i, t', i') <==> t == t' && (i == i' || i + ":" <= i'))
  {
    InvalidateHolds(s, EntityPrefix(t, i), Key(t', i', v'));
    PrefixMeans(t, i, t', i', v');
  }

  /** The pairs `d` come from these places of `s`, in order, and from no others. */
  ghost predicate Survive<V>(s: Recency<V>, prefix: string, d: Recency<V>, ps: seq<nat>) {
    && |ps| == |d|
    && (forall k :: 0 <= k < |d| ==> ps[k] < |s| && d[k] == s[ps[k]])
    && (forall j, k :: 0 <= j < k < |d| ==> ps[j] < ps[k])
    && (forall i :: 0 <= i < |s| ==> (i in ps <==> !(prefix <= s[i].0)))
  }

  /** What an invalidation leaves keeps its values and its order. */
  lemma {:induction false} InvalidateKeepsOrder<V>(s: Recency<V>, prefix: string) returns (ps: seq<nat>)
    ensures Survive(s, prefix, AfterInvalidate(s, prefix), ps)
  {
    ps := [];
    if s != [] {
      var qs := InvalidateKeepsOrder(s[1..], prefix);
      var later := seq(|qs|, k requires 0 <= k < |qs| => qs[k] + 1);
      Shifted(s, prefix, AfterInvalidate(s[1..], prefix), qs, later);
      if prefix <= s[0].0 {
        ps := later;
        FirstGoes(s, prefix, AfterInvalidate(s[1..], prefix), later);
      } else {
        ps := [0] + later;
        FirstStays(s, prefix, AfterInvalidate(s[1..], prefix), later);
      }
    }
  }

  /** All but the first pair of `s`, with their places in `s`. */
  ghost predicate SurviveLater<V>(s: Recency<V>, prefix: string, d: Recency<V>, ps: seq<nat>) {
    && |ps| == |d|
    && (forall k :: 0 <= k < |d| ==> 1 <= ps[k] < |s| && d[k] == s[ps[k]])
    && (forall j, k :: 0 <= j < k < |d| ==> ps[j] < ps[k])
    && (forall i :: 1 <= i < |s| ==> (i in ps <==> !(prefix <= s[i].0)))
  }

  lemma Shifted<V>(s: Recency<V>, prefix: string, d: Recency<V>, qs: seq<nat>, later: seq<nat>)
    requires s != [] && Survive(s[1..], prefix, d, qs)
    requires |later| == |qs| && forall k :: 0 <= k < |qs| ==> later[k] == qs[k] + 1
    ensures SurviveLater(s, prefix, d, later)
  {
    forall i | 1 <= i < |s| ensures i in later <==> !(prefix <= s[i].0) {
      assert s[1..][i - 1] == s[i];
      if i in later { var k :| 0 <= k < |later| && later[k] == i; assert qs[k] == i - 1; }
      if i - 1 in qs { var k :| 0 <= k < |qs| && qs[k] == i - 1; assert later[k] == i; }
    }
  }

  lemma FirstGoes<V>(s: Recency<V>, prefix: string, d: Recency<V>, later: seq<nat>)
    requires s != [] && prefix <= s[0].0 && SurviveLater(s, prefix, d, later)
    ensures Survive(s, prefix, d, later)
  {
    assert 0 !in later;
  }

  lemma FirstStays<V>(s: Recency<V>, prefix: string, d: Recency<V>, later: seq<nat>)
    requires s != [] && !(prefix <= s[0].0) && SurviveLater(s, prefix, d, later)
    ensures Survive(s, prefix, [s[0]] + d, [0] + later)
  {
    var ps, e := [0] + later, [s[0]] + d;
    forall k | 0 <= k < |e| ensures ps[k] < |s| && e[k] == s[ps[k]] {
      if k > 0 { assert ps[k] == later[k - 1] && e[k] == d[k - 1]; }
    }
    forall j, k | 0 <= j < k < |e| ensures ps[j] < ps[k] {
      assert ps[k] == later[k - 1] && (j > 0 ==> ps[j] == later[j - 1]);
    }
    forall i | 0 <= i < |s| ensures i in ps <==> !(prefix <= s[i].0) {
      assert i in ps <==> i == 0 || i in later;
    }
  }
}
