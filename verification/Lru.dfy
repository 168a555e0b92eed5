/** The LRU cache: a doubly linked list of entries on the heap and a map into it, kept to
    the plain list of key and value pairs, most recently used first. */
module Lru {
  import opened Prelude
  import opened CacheKey

  const DEFAULT_CAPACITY := 1024

  // ----- What the operations mean -----

  type Recency<V> = seq<(string, V)>

  predicate Holds<V>(s: Recency<V>, key: string) {
    exists i :: 0 <= i < |s| && s[i].0 == key
  }

  ghost predicate Distinct<V>(s: Recency<V>) {
    forall i, j :: 0 <= i < j < |s| ==> s[i].0 != s[j].0
  }

  /** The list without the pair of this key. */
  function Without<V>(s: Recency<V>, key: string): Recency<V> {
    if s == [] then [] else if s[0].0 == key then s[1..] else [s[0]] + Without(s[1..], key)
  }

  function Lookup<V>(s: Recency<V>, key: string): Option<V> {
    if s == [] then None else if s[0].0 == key then Some(s[0].1) else Lookup(s[1..], key)
  }

  function AfterGet<V>(s: Recency<V>, key: string): Recency<V> {
    match Lookup(s, key) case None => s case Some(v) => [(key, v)] + Without(s, key)
  }

  function AfterPut<V>(s: Recency<V>, capacity: nat, key: string, value: V): Recency<V> {
    if Holds(s, key) || |s| < capacity || s == [] then [(key, value)] + Without(s, key)
    else [(key, value)] + s[..|s| - 1]
  }

  /** The pairs whose key does not start with `prefix`. */
  function AfterInvalidate<V>(s: Recency<V>, prefix: string): Recency<V> {
    if s == [] then []
    else if prefix <= s[0].0 then AfterInvalidate(s[1..], prefix)
    else [s[0]] + AfterInvalidate(s[1..], prefix)
  }

  lemma {:induction false} WithoutAt<V>(s: Recency<V>, key: string, k: nat)
    requires Distinct(s) && k < |s| && s[k].0 == key
    ensures Without(s, key) == s[..k] + s[k + 1..] && Lookup(s, key) == Some(s[k].1)
    decreases k
  {
    if k > 0 {
      assert s[0].0 != key;
      WithoutAt(s[1..], key, k - 1);
      assert s[1..][..k - 1] == s[1..k] && s[1..][k..] == s[k + 1..];
      assert s[..k] == [s[0]] + s[1..k];
    }
  }

  lemma {:induction false} WithoutAbsent<V>(s: Recency<V>, key: string)
    requires !Holds(s, key)
    ensures Without(s, key) == s && Lookup(s, key) == None
  {
    if s != [] {
      assert s[0].0 != key;
      assert forall i :: 0 <= i < |s| - 1 ==> s[1..][i] == s[i + 1];
      WithoutAbsent(s[1..], key);
    }
  }

  /** The pairs whose key is not in `gone`. */
  function Dropped<V>(s: Recency<V>, gone: set<string>): Recency<V> {
    if s == [] then []
    else if s[0].0 in gone then Dropped(s[1..], gone)
    else [s[0]] + Dropped(s[1..], gone)
  }

  lemma {:induction false} DroppedKeys<V>(s: Recency<V>, gone: set<string>, k: string)
    ensures Holds(Dropped(s, gone), k) <==> Holds(s, k) && k !in gone
  {
    if s != [] {
      DroppedKeys(s[1..], gone, k);
      var d := Dropped(s, gone);
      assert Holds(s, k) <==> s[0].0 == k || Holds(s[1..], k) by { HoldsTail(s, k); }
      if s[0].0 !in gone { HoldsTail(d, k); assert d[1..] == Dropped(s[1..], gone); }
    }
  }

  lemma HoldsTail<V>(s: Recency<V>, k: string)
    requires s != []
    ensures Holds(s, k) <==> s[0].0 == k || Holds(s[1..], k)
  {
    if i: nat :| i < |s| && s[i].0 == k {
      if i > 0 { assert s[1..][i - 1].0 == k; }
    }
    if i: nat :| i < |s[1..]| && s[1..][i].0 == k { assert s[i + 1].0 == k; }
  }

  lemma {:induction false} DropOneMore<V>(s: Recency<V>, gone: set<string>, k: string)
    requires Distinct(s)
    ensures Dropped(s, gone + {k}) == Without(Dropped(s, gone), k)
  {
    if s != [] {
      assert forall i :: 0 <= i < |s| - 1 ==> s[1..][i] == s[i + 1];
      DropOneMore(s[1..], gone, k);
      if s[0].0 == k {
        assert !Holds(s[1..], k);
        DroppedKeys(s[1..], gone, k);
        WithoutAbsent(Dropped(s[1..], gone), k);
      }
    }
  }

  lemma {:induction false} DroppedIsInvalidate<V>(s: Recency<V>, gone: set<string>, prefix: string)
    requires forall i :: 0 <= i < |s| ==> (s[i].0 in gone <==> prefix <= s[i].0)
    ensures Dropped(s, gone) == AfterInvalidate(s, prefix)
  {
    if s != [] {
      assert forall i :: 0 <= i < |s| - 1 ==> s[1..][i] == s[i + 1];
      DroppedIsInvalidate(s[1..], gone, prefix);
    }
  }

  lemma {:induction false} NothingDropped<V>(s: Recency<V>)
    ensures Dropped(s, {}) == s
  {
    if s != [] { NothingDropped(s[1..]); }
  }

  // ----- The heap -----

  class Entry<V> {
    const key: string
    var value: V
    var prev: Entry?<V>
    var next: Entry?<V>

    constructor (key: string, value: V)
      ensures this.key == key && this.value == value
    {
      this.key, this.value, prev, next := key, value, null, null;
    }
  }

  /** The keys of the list are those of the map, each once, and the map leads from a key to
      the entry at its place in the list. */
  ghost predicate Indexes<V>(items: map<string, Entry<V>>, nodes: seq<Entry<V>>, contents: Recency<V>) {
    && |nodes| == |contents| == |items| && Distinct(contents)
    && (forall i {:trigger contents[i]} ::
      0 <= i < |contents| ==> contents[i].0 in items && items[contents[i].0] == nodes[i])
  }

  ghost function KeysOf<V>(s: Recency<V>): set<string> {
    if s == [] then {} else {s[0].0} + KeysOf(s[1..])
  }

  lemma {:induction false} KeysOfHolds<V>(s: Recency<V>, key: string)
    ensures key in KeysOf(s) <==> Holds(s, key)
  {
    if s != [] {
      KeysOfHolds(s[1..], key);
      HoldsTail(s, key);
    }
  }

  lemma {:induction false} KeysOfCount<V>(s: Recency<V>)
    requires Distinct(s)
    ensures |KeysOf(s)| == |s|
  {
    if s != [] {
      assert forall i :: 0 <= i < |s| - 1 ==> s[1..][i] == s[i + 1];
      KeysOfCount(s[1..]);
      KeysOfHolds(s[1..], s[0].0);
    }
  }

  /** Counting shows that the map has no other key. */
  lemma IndexesKeys<V>(items: map<string, Entry<V>>, nodes: seq<Entry<V>>, contents: Recency<V>)
    requires Indexes(items, nodes, contents)
    ensures forall key :: key in items <==> Holds(contents, key)
  {
    KeysOfCount(contents);
    forall key | key in KeysOf(contents) ensures key in items { KeysOfHolds(contents, key); }
    Whole(KeysOf(contents), items.Keys);
    forall key ensures key in items <==> Holds(contents, key) { KeysOfHolds(contents, key); }
  }

  lemma Whole(part: set<string>, all: set<string>)
    requires part <= all && |part| == |all|
    ensures part == all
  {
    assert all == part + (all - part);
  }

  lemma IndexesMoved<V>(items: map<string, Entry<V>>, nodes: seq<Entry<V>>, contents: Recency<V>, k: nat, value: V)
    requires Indexes(items, nodes, contents) && k < |nodes|
    ensures Indexes(items, [nodes[k]] + (nodes[..k] + nodes[k + 1..]),
                    [(contents[k].0, value)] + (contents[..k] + contents[k + 1..]))
  {
    var c, n :=
      [(contents[k].0, value)] + (contents[..k] + contents[k + 1..]),
      [nodes[k]] + (nodes[..k] + nodes[k + 1..]);
    forall i | 0 <= i < |c| ensures c[i].0 == contents[if i == 0 then k else if i <= k then i - 1 else i].0 {}
    forall i | 0 <= i < |c| ensures c[i].0 in items && items[c[i].0] == n[i] {
      var j := if i == 0 then k else if i <= k then i - 1 else i;
      assert n[i] == nodes[j] && c[i].0 == contents[j].0;
    }
  }

  lemma IndexesRemoved<V>(items: map<string, Entry<V>>, nodes: seq<Entry<V>>, contents: Recency<V>, k: nat)
    requires Indexes(items, nodes, contents) && k < |nodes|
    ensures Indexes(items - {contents[k].0}, nodes[..k] + nodes[k + 1..], contents[..k] + contents[k + 1..])
  {
    var c, n, items' := contents[..k] + contents[k + 1..], nodes[..k] + nodes[k + 1..], items - {contents[k].0};
    assert items.Keys == items'.Keys + {contents[k].0};
    forall i | 0 <= i < |c| ensures c[i] == contents[if i < k then i else i + 1] {}
    forall i | 0 <= i < |c| ensures c[i].0 in items' && items'[c[i].0] == n[i] {
      var j := if i < k then i else i + 1;
      assert n[i] == nodes[j] && contents[j].0 != contents[k].0;
    }
  }

  lemma IndexesAdded<V>(items: map<string, Entry<V>>, nodes: seq<Entry<V>>, contents: Recency<V>, key: string,
      e: Entry<V>, value: V)
    requires Indexes(items, nodes, contents) && key !in items
    ensures Indexes(items[key := e], [e] + nodes, [(key, value)] + contents)
  {
    var c, n := [(key, value)] + contents, [e] + nodes;
    assert items[key := e].Keys == items.Keys + {key};
    forall i | 0 <= i < |c| ensures c[i].0 in items[key := e] && items[key := e][c[i].0] == n[i] {
      if i > 0 { assert c[i] == contents[i - 1]; }
    }
  }

  class LRU<V> {
    const capacity: nat
    var items: map<string, Entry<V>>
    var head: Entry?<V>
    var tail: Entry?<V>
    /** The entries in list order and the pairs they hold, most recently used first. */
    ghost var nodes: seq<Entry<V>>
    ghost var contents: Recency<V>
    /** Every entry that ever was in the list. */
    ghost var repr: set<Entry<V>>

    /** The links run through `nodes` in both directions and no entry occurs twice. */
    ghost predicate Linked()
      reads this, repr
    {
      && (forall i {:trigger nodes[i]} :: 0 <= i < |nodes| ==> nodes[i] in repr)
      && (nodes == [] ==> head == null && tail == null)
      && (nodes != [] ==> head == nodes[0] && tail == nodes[|nodes| - 1] && head.prev == null && tail.next == null)
      && (forall i {:trigger nodes[i].prev} :: 1 <= i < |nodes| ==> nodes[i].prev == nodes[i - 1])
      && (forall i {:trigger nodes[i].next} :: 0 <= i < |nodes| - 1 ==> nodes[i].next == nodes[i + 1])
      && (forall i, j :: 0 <= i < j < |nodes| ==> nodes[i] != nodes[j])
    }

    /** The entries hold the pairs of `contents`. */
    ghost predicate Stored()
      reads this, repr
      requires Linked()
    {
      && |contents| == |nodes|
      && (forall i {:trigger contents[i]} :: 0 <= i < |contents| ==> contents[i] == (nodes[i].key, nodes[i].value))
    }

    ghost predicate Valid()
      reads this, repr
    {
      Linked() && Stored() && Indexes(items, nodes, contents) && 1 <= capacity && |contents| <= capacity
    }

    constructor (capacity: int)
      ensures Valid() && contents == [] && repr == {}
      ensures this.capacity == if capacity <= 0 then DEFAULT_CAPACITY else capacity
    {
      this.capacity := if capacity <= 0 then DEFAULT_CAPACITY else capacity;
      items, head, tail, nodes, contents, repr := map[], null, null, [], [], {};
    }

    // ----- The list -----

    method PushFront(e: Entry<V>)
      requires Linked() && e !in nodes && e in repr
      modifies this`head, this`tail, this`nodes, repr
      ensures Linked() && nodes == [e] + old(nodes)
      ensures forall n :: n in repr ==> n.value == old(n.value)
    {
      e.prev := null;
      e.next := head;
      if head != null { head.prev := e; }
      head := e;
      if tail == null { tail := e; }
      nodes := [e] + nodes;
    }

    method RemoveEntry(e: Entry<V>, ghost k: nat)
      requires Linked() && k < |nodes| && nodes[k] == e
      modifies this`head, this`tail, this`nodes, repr
      ensures Linked() && nodes == old(nodes)[..k] + old(nodes)[k + 1..]
      ensures forall n :: n in repr ==> n.value == old(n.value)
    {
      if e.prev != null { e.prev.next := e.next; } else { head := e.next; }
      if e.next != null { e.next.prev := e.prev; } else { tail := e.prev; }
      e.prev := null;
      e.next := null;
      nodes := nodes[..k] + nodes[k + 1..];
    }

    method MoveToFront(e: Entry<V>, ghost k: nat)
      requires Linked() && k < |nodes| && nodes[k] == e
      modifies this`head, this`tail, this`nodes, repr
      ensures Linked() && nodes == [e] + (old(nodes)[..k] + old(nodes)[k + 1..])
      ensures forall n :: n in repr ==> n.value == old(n.value)
    {
      if head == e {
        assert k == 0;
        assert nodes == [e] + (nodes[..0] + nodes[1..]);
        return;
      }
      RemoveEntry(e, k);
      PushFront(e);
    }

    // ----- The operations -----

    method MakeKey(entityType: string, entityID: string, version: int64) returns (key: string)
      ensures key == Key(entityType, entityID, version)
    {
      key := AppendInt64(entityType + ":" + entityID + ":", version);
    }

    /** The pair of a present key, its place, and the list without it. */
    lemma Present(key: string) returns (k: nat)
      requires Valid() && key in items
      ensures k < |nodes| && nodes[k] == items[key] && contents[k] == (key, items[key].value)
      ensures Holds(contents, key) && Lookup(contents, key) == Some(items[key].value)
      ensures Without(contents, key) == contents[..k] + contents[k + 1..]
    {
      IndexesKeys(items, nodes, contents);
      k :| k < |contents| && contents[k].0 == key;
      WithoutAt(contents, key, k);
    }

    lemma Absent(key: string)
      requires Valid() && key !in items
      ensures !Holds(contents, key) && Without(contents, key) == contents && Lookup(contents, key) == None
    {
      IndexesKeys(items, nodes, contents);
      WithoutAbsent(contents, key);
    }

    /** The entry of a present key becomes the first. */
    method Promote(key: string, ghost k: nat)
      requires Valid() && k < |contents| && contents[k].0 == key
      modifies this`head, this`tail, this`nodes, this`contents, repr
      ensures Valid() && contents == [old(contents)[k]] + (old(contents)[..k] + old(contents)[k + 1..])
      ensures items[key].value == old(contents)[k].1
    {
      ghost var s := contents;
      IndexesMoved(items, nodes, contents, k, s[k].1);
      MoveToFront(items[key], k);
      contents := [s[k]] + (s[..k] + s[k + 1..]);
    }

    method SetValue(key: string, value: V, ghost k: nat)
      requires Valid() && k < |contents| && contents[k].0 == key
      modifies this`contents, repr
      ensures Valid() && contents == old(contents)[k := (key, value)]
    {
      items[key].value := value;
      contents := contents[k := (key, value)];
    }

    method Get(entityType: string, entityID: string, version: int64) returns (r: Option<V>)
      requires Valid()
      modifies this`head, this`tail, this`nodes, this`contents, repr
      ensures Valid()
      ensures r == Lookup(old(contents), Key(entityType, entityID, version))
      ensures contents == AfterGet(old(contents), Key(entityType, entityID, version))
    {
      var key := MakeKey(entityType, entityID, version);
      if key !in items {
        Absent(key);
        return None;
      }
      ghost var k := Present(key);
      Promote(key, k);
      r := Some(items[key].value);
    }

    /** Takes the entry of a present key out of both the list and the map. */
    method Remove(key: string, ghost k: nat)
      requires Valid() && k < |contents| && contents[k].0 == key
      modifies this`items, this`head, this`tail, this`nodes, this`contents, repr
      ensures Valid() && contents == old(contents)[..k] + old(contents)[k + 1..] && items == old(items) - {key}
    {
      ghost var s := contents;
      IndexesRemoved(items, nodes, contents, k);
      RemoveEntry(items[key], k);
      items := items - {key};
      contents := s[..k] + s[k + 1..];
    }

    method EvictLRU()
      requires Valid()
      modifies this`items, this`head, this`tail, this`nodes, this`contents, repr
      ensures Valid() && items.Keys <= old(items).Keys
      ensures contents == if old(contents) == [] then [] else old(contents)[..|old(contents)| - 1]
    {
      if tail == null { return; }
      ghost var last := |contents| - 1;
      assert contents[last].0 == tail.key;
      Remove(tail.key, last);
    }

    method Put(entityType: string, entityID: string, version: int64, value: V)
      requires Valid()
      modifies this`items, this`head, this`tail, this`nodes, this`contents, this`repr, repr
      ensures Valid() && fresh(repr - old(repr))
      ensures contents == AfterPut(old(contents), capacity, Key(entityType, entityID, version), value)
    {
      var key := MakeKey(entityType, entityID, version);
      if key in items { Refresh(key, value); } else { Add(key, value); }
    }

    /** A key that is present gets its new value and moves to the front. */
    method Refresh(key: string, value: V)
      requires Valid() && key in items
      modifies this`head, this`tail, this`nodes, this`contents, repr
      ensures Valid() && contents == AfterPut(old(contents), capacity, key, value)
    {
      ghost var k := Present(key);
      SetValue(key, value, k);
      Promote(key, k);
    }

    /** A new key goes to the front, at the cost of the last one when the cache is full. */
    method Add(key: string, value: V)
      requires Valid() && key !in items
      modifies this`items, this`head, this`tail, this`nodes, this`contents, this`repr, repr
      ensures Valid() && fresh(repr - old(repr))
      ensures contents == AfterPut(old(contents), capacity, key, value)
    {
      Absent(key);
      if |items| >= capacity { EvictLRU(); }
      Insert(key, value);
    }

    method Insert(key: string, value: V)
      requires Valid() && key !in items && |contents| < capacity
      modifies this`items, this`head, this`tail, this`nodes, this`contents, this`repr, repr
      ensures Valid() && fresh(repr - old(repr))
      ensures contents == [(key, value)] + old(contents)
    {
      var e := new Entry(key, value);
      IndexesAdded(items, nodes, contents, key, e, value);
      items := items[key := e];
      repr := repr + {e};
      PushFront(e);
      contents := [(key, value)] + contents;
    }

    method Invalidate(entityType: string, entityID: string)
      requires Valid()
      modifies this`items, this`head, this`tail, this`nodes, this`contents, repr
      ensures Valid()
      ensures contents == AfterInvalidate(old(contents), EntityPrefix(entityType, entityID))
    {
      var prefix := entityType + ":" + entityID + ":";
      ghost var s := contents;
      ghost var gone: set<string> := {};
      NothingDropped(s);
      var todo := items.Keys;
      while todo != {}
        invariant Valid() && repr == old(repr)
        invariant contents == Dropped(s, gone)
        invariant forall k :: k in gone ==> prefix <= k
        invariant forall k :: k in items && prefix <= k ==> k in todo
        decreases todo
      {
        var key :| key in todo;
        if key in items && prefix <= key {
          ghost var k := Present(key);
          DropOneMore(s, gone, key);
          gone := gone + {key};
          Remove(key, k);
        }
        todo := todo - {key};
      }
      AllDropped(s, gone, prefix);
    }

    /** With no matching key left in the map, every matching pair is gone from the list. */
    lemma AllDropped(s: Recency<V>, gone: set<string>, prefix: string)
      requires Valid() && contents == Dropped(s, gone)
      requires (forall k :: k in gone ==> prefix <= k) && (forall k :: k in items ==> !(prefix <= k))
      ensures Dropped(s, gone) == AfterInvalidate(s, prefix)
    {
      forall i | 0 <= i < |s| && prefix <= s[i].0 ensures s[i].0 in gone {
        DroppedKeys(s, gone, s[i].0);
        Absent(s[i].0);
      }
      DroppedIsInvalidate(s, gone, prefix);
    }
  }
}
