/** The sorted form of a list of strings: what Go's `sort` returns for it. */
module Sorting {
  import opened Text

  ghost predicate Sorted(s: seq<string>) {
    forall i, j :: 0 <= i < j < |s| ==> LexLe(s[i], s[j])
  }

  function Insert(x: string, s: seq<string>): seq<string> {
    if s == [] || LexLe(x, s[0]) then [x] + s else [s[0]] + Insert(x, s[1..])
  }

  function Sort(s: seq<string>): seq<string> {
    if s == [] then [] else Insert(s[0], Sort(s[1..]))
  }

  lemma {:induction false} InsertKeeps(x: string, s: seq<string>)
    requires Sorted(s)
    ensures Sorted(Insert(x, s))
    ensures multiset(Insert(x, s)) == multiset{x} + multiset(s)
  {
    if s == [] {
    } else if LexLe(x, s[0]) {
      forall j | 0 < j < |s| ensures LexLe(x, s[j]) { LexTransitive(x, s[0], s[j]); }
    } else {
      InsertKeeps(x, s[1..]);
      assert s == [s[0]] + s[1..];
      LexTotal(x, s[0]);
      var t := Insert(x, s[1..]);
      forall j | 0 <= j < |t| ensures LexLe(s[0], t[j]) {
        assert t[j] in multiset(t);
        if t[j] != x { assert t[j] in s[1..]; }
      }
    }
  }

  lemma {:induction false} SortSorts(s: seq<string>)
    ensures Sorted(Sort(s))
    ensures multiset(Sort(s)) == multiset(s)
    ensures |Sort(s)| == |s|
  {
    if s != [] {
      SortSorts(s[1..]);
      InsertKeeps(s[0], Sort(s[1..]));
      assert s == [s[0]] + s[1..];
    }
    assert |Sort(s)| == |multiset(Sort(s))| == |multiset(s)| == |s|;
  }

  /** The least element of a sorted list comes first. */
  lemma SortedHead(s: seq<string>, x: string)
    requires Sorted(s) && x in multiset(s)
    ensures LexLe(s[0], x)
  {
    var i: int :| 0 <= i < |s| && s[i] == x;
    LexTotal(x, x);
  }

  lemma HeadAndTail(a: seq<string>)
    requires a != []
    ensures a == [a[0]] + a[1..] && multiset(a[1..]) == multiset(a) - multiset{a[0]}
  {
    assert a == [a[0]] + a[1..];
  }

  /** A sorted list is determined by its elements, so any sorting algorithm gives this one. */
  lemma {:induction false} SortedUnique(a: seq<string>, b: seq<string>)
    requires Sorted(a) && Sorted(b) && multiset(a) == multiset(b)
    ensures a == b
    decreases |a|
  {
    assert |a| == |multiset(a)| == |multiset(b)| == |b|;
    if a != [] {
      assert a[0] in multiset(a) && b[0] in multiset(b);
      SortedHead(a, b[0]);
      SortedHead(b, a[0]);
      LexAntisymmetric(a[0], b[0]);
      HeadAndTail(a);
      HeadAndTail(b);
      SortedUnique(a[1..], b[1..]);
    }
  }

  /** Two lists sort alike exactly when they hold the same elements the same number of times. */
  lemma {:induction false} SortIgnoresOrder(a: seq<string>, b: seq<string>)
    ensures Sort(a) == Sort(b) <==> multiset(a) == multiset(b)
  {
    SortSorts(a);
    SortSorts(b);
    if multiset(a) == multiset(b) { SortedUnique(Sort(a), Sort(b)); }
  }

  lemma {:induction false} SortIdempotent(a: seq<string>)
    ensures Sort(Sort(a)) == Sort(a)
  {
    SortSorts(a);
    SortIgnoresOrder(Sort(a), a);
  }

  /** The elements of a set in order, each once. */
  ghost function SortedKeys(ks: set<string>): seq<string> {
    if ks == {} then []
    else
      var k :| k in ks;
      Sort(SortedKeys(ks - {k}) + [k])
  }

  lemma {:induction false} SortedKeysExact(ks: set<string>)
    ensures Sorted(SortedKeys(ks))
    ensures multiset(SortedKeys(ks)) == multiset(ks)
  {
    if ks != {} {
      var k :| k in ks && SortedKeys(ks) == Sort(SortedKeys(ks - {k}) + [k]);
      SortedKeysExact(ks - {k});
      SortSorts(SortedKeys(ks - {k}) + [k]);
      assert multiset(ks) == multiset(ks - {k}) + multiset{k};
    }
  }

  lemma SortedKeysDistinct(ks: set<string>)
    ensures forall k :: k in SortedKeys(ks) <==> k in ks
    ensures forall i, j :: 0 <= i < j < |SortedKeys(ks)| ==> SortedKeys(ks)[i] != SortedKeys(ks)[j]
  {
    SortedKeysExact(ks);
    var s := SortedKeys(ks);
    forall k ensures k in s <==> k in ks {
      assert k in s <==> k in multiset(s);
    }
    forall i, j | 0 <= i < j < |s| ensures s[i] != s[j] {
      assert s == s[..j] + [s[j]] + s[j + 1..];
      assert multiset(s)[s[j]] == multiset(s[..j])[s[j]] + 1 + multiset(s[j + 1..])[s[j]];
      assert s[j] !in multiset(s[..j]);
      assert s[..j][i] == s[i];
    }
  }
}
