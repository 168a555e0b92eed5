/** The hash chain: each record's hash covers the hash of the record before it. */
module HashChain {
  import opened Prelude
  import opened Entities
  import opened Records

  /** What is hashed for a version. */
  datatype Payload = Payload(entityType: string, entityID: string, version: int, data: Value, previousHash: string)

  type Hasher = Payload -> string

  /** A hash function without collisions whose value is never empty. */
  ghost predicate Ideal(hash: Hasher) {
    && (forall p: Payload :: hash(p) != "")
    && (forall p: Payload, q: Payload :: hash(p) == hash(q) ==> p == q)
  }

  function Covered(r: Record): Payload {
    Payload(r.entityType, r.entityID, r.version, r.data, r.previousHash)
  }

  datatype HashError = PreviousMissing | HasherFailed

  /** The record with its previous hash and its hash set, as far as that gets: a failing
      hasher leaves the previous hash set and the hash empty. */
  function Linking(h: seq<Record>, hash: Hasher, fails: bool, r: Record): (Record, Option<HashError>) {
    var prev := FirstWith(h, r.version - 1);
    if r.version > 1 && prev.None? then (r, Some(PreviousMissing))
    else
      var linked := r.(previousHash := if r.version > 1 then prev.value.hash else "");
      if fails then (linked, Some(HasherFailed)) else (linked.(hash := hash(Covered(linked))), None)
  }

  /** Where the hash step stops, and what it has written by then. */
  lemma LinkingStops(h: seq<Record>, hash: Hasher, fails: bool, r: Record)
    ensures var (linked, error) := Linking(h, hash, fails, r);
            && (error == Some(PreviousMissing) <==>
                  r.version > 1 && forall k :: 0 <= k < |h| ==> h[k].version != r.version - 1)
            && (error == Some(PreviousMissing) ==> linked == r)
            && (error == Some(HasherFailed) <==> error != Some(PreviousMissing) && fails)
            && (error == Some(HasherFailed) ==> linked == r.(previousHash := linked.previousHash))
            && (error == None ==>
                  var p := Payload(r.entityType, r.entityID, r.version, r.data, linked.previousHash);
                  linked == r.(previousHash := linked.previousHash, hash := hash(p)))
    ensures var (linked, error) := Linking(h, hash, fails, r);
            error != Some(PreviousMissing) ==>
              if r.version <= 1 then linked.previousHash == ""
              else exists k :: 0 <= k < |h| && h[k].version == r.version - 1 && h[k].hash == linked.previousHash
  {
    if r.version > 1 && FirstWith(h, r.version - 1).Some? {
      var k: nat :| k < |h| && h[k] == FirstWith(h, r.version - 1).value;
    }
  }

  method ComputeAndStore(store: Store, hash: Hasher, fails: bool, record: Record)
    returns (r: Record, error: Option<HashError>)
    ensures (r, error) == Linking(History(store.records, Key(record.entityType, record.entityID)), hash, fails, record)
  {
    r := record;
    var prevHash := "";
    if record.version > 1 {
      var prev := store.GetByVersion(record.entityType, record.entityID, record.version - 1);
      if prev.None? { return r, Some(PreviousMissing); }
      prevHash := prev.value.hash;
    }
    r := r.(previousHash := prevHash);
    if fails { return r, Some(HasherFailed); }
    r := r.(hash := hash(Covered(r)));
    error := None;
  }

  /** Record `i` points to the hash of the one before it and carries its own. */
  ghost predicate LinkAt(hash: Hasher, h: seq<Record>, i: nat)
    requires i < |h|
  {
    h[i].previousHash == (if i == 0 then "" else h[i - 1].hash) && h[i].hash == hash(Covered(h[i]))
  }

  ghost predicate Chained(hash: Hasher, h: seq<Record>) {
    forall i :: 0 <= i < |h| ==> LinkAt(hash, h, i)
  }

  lemma ChainedPrefix(hash: Hasher, h: seq<Record>, k: nat)
    requires k <= |h|
    ensures Chained(hash, h[..k]) <==> forall i :: 0 <= i < k ==> LinkAt(hash, h, i)
  {
    forall i | 0 <= i < k ensures LinkAt(hash, h[..k], i) <==> LinkAt(hash, h, i) {
    }
  }

  method VerifyIntegrity(store: Store, hash: Hasher, entityType: string, entityID: string, limit: nat)
    returns (intact: bool)
    ensures intact <==>
            Chained(hash, Page(ByVersion(History(store.records, Key(entityType, entityID)), true), limit, 0))
  {
    var records := store.ListVersions(entityType, entityID, true, limit, 0);
    var prevHash := "";
    for i := 0 to |records|
      invariant prevHash == if i == 0 then "" else records[i - 1].hash
      invariant forall j :: 0 <= j < i ==> LinkAt(hash, records, j)
    {
      assert LinkAt(hash, records, i) <==>
        records[i].previousHash == prevHash && records[i].hash == hash(Covered(records[i]));
      if records[i].previousHash != prevHash { return false; }
      if records[i].hash != hash(Covered(records[i])) { return false; }
      prevHash := records[i].hash;
    }
    intact := true;
  }

  /** Two intact chains that end in the same hash hold the same records, field by field but
      for what the hash does not cover, whatever their lengths. */
  lemma {:induction false} HashBinds(hash: Hasher, a: seq<Record>, b: seq<Record>)
    requires Ideal(hash) && Chained(hash, a) && Chained(hash, b)
    requires a != [] && b != [] && a[|a| - 1].hash == b[|b| - 1].hash
    ensures |a| == |b|
    ensures forall i :: 0 <= i < |a| ==>
              && a[i].entityType == b[i].entityType && a[i].entityID == b[i].entityID
              && a[i].version == b[i].version && a[i].data == b[i].data
              && a[i].previousHash == b[i].previousHash && a[i].hash == b[i].hash
    decreases |a|
  {
    var x, y := a[|a| - 1], b[|b| - 1];
    assert LinkAt(hash, a, |a| - 1) && LinkAt(hash, b, |b| - 1);
    assert Covered(x) == Covered(y) by { assert hash(Covered(x)) == hash(Covered(y)); }
    assert |a| > 1 ==> LinkAt(hash, a, |a| - 2) && x.previousHash != "";
    assert |b| > 1 ==> LinkAt(hash, b, |b| - 2) && y.previousHash != "";
    if |a| > 1 {
      var a', b' := a[..|a| - 1], b[..|b| - 1];
      ChainedPrefix(hash, a, |a| - 1);
      ChainedPrefix(hash, b, |b| - 1);
      HashBinds(hash, a', b');
      assert forall i :: 0 <= i < |a| - 1 ==> a[i] == a'[i] && b[i] == b'[i];
    }
  }

  /** Changing the entity, the version, the data or the link of one verified record, its hash
      kept, is noticed whenever the record is listed; it still is if its version stays. */
  lemma TamperingShows(hash: Hasher, h: seq<Record>, i: nat, r: Record, limit: nat)
    requires Ideal(hash) && i < |h| && r.hash == h[i].hash
    requires var page := Page(ByVersion(h, true), limit, 0); Chained(hash, page) && h[i] in page
    requires || r.entityType != h[i].entityType || r.entityID != h[i].entityID || r.version != h[i].version
             || r.data != h[i].data || r.previousHash != h[i].previousHash
    ensures var page := Page(ByVersion(h[i := r], true), limit, 0); r in page ==> !Chained(hash, page)
    ensures r.version == h[i].version && (forall k :: 0 <= k < |h| && k != i ==> h[k].version != r.version) ==>
              r in Page(ByVersion(h[i := r], true), limit, 0)
  {
    var page, page' := Page(ByVersion(h, true), limit, 0), Page(ByVersion(h[i := r], true), limit, 0);
    var j: nat :| j < |page| && page[j] == h[i];
    assert LinkAt(hash, page, j) && hash(Covered(r)) != h[i].hash;
    if k: nat :| k < |page'| && page'[k] == r { assert !LinkAt(hash, page', k); }
    if r.version == h[i].version && forall k :: 0 <= k < |h| && k != i ==> h[k].version != r.version {
      var n := ByVersionSwapped(h, i, r, true);
      assert ByVersion(h, true)[j] == h[i];
      OnlyPlace(h, i, n, j);
      assert page'[j] == r;
    }
  }

  /** A version that occurs once is listed once. */
  lemma OnlyPlace(h: seq<Record>, i: nat, n: nat, j: nat)
    requires i < |h| && forall k :: 0 <= k < |h| && k != i ==> h[k].version != h[i].version
    requires n < |h| && j < |h| && ByVersion(h, true)[n] == h[i] && ByVersion(h, true)[j] == h[i]
    ensures n == j
  {
    ByVersionSorts(h, true);
    Once(h, i);
    if n < j { Twice(ByVersion(h, true), n, j); }
    if j < n { Twice(ByVersion(h, true), j, n); }
  }

  lemma Twice(s: seq<Record>, m: nat, l: nat)
    requires m < l < |s| && s[m] == s[l]
    ensures multiset(s)[s[m]] >= 2
  {
    assert s == s[..l] + s[l..];
    assert s[m] in s[..l] && s[l] in s[l..];
  }

  lemma Once(h: seq<Record>, i: nat)
    requires i < |h| && forall k :: 0 <= k < |h| && k != i ==> h[k].version != h[i].version
    ensures multiset(h)[h[i]] == 1
  {
    assert h == h[..i] + [h[i]] + h[i + 1..];
    assert h[i] !in multiset(h[..i]) && h[i] !in multiset(h[i + 1..]);
  }

  /** Verification reads one page: what lies past it can be anything. */
  lemma BlindPastPage(hash: Hasher, h: seq<Record>, h': seq<Record>, limit: nat)
    requires Gapless(h) && Gapless(h') && 0 < limit < |h| && limit < |h'| && h'[..limit] == h[..limit]
    ensures Page(ByVersion(h', true), limit, 0) == Page(ByVersion(h, true), limit, 0)
    ensures Chained(hash, h) ==> Chained(hash, Page(ByVersion(h', true), limit, 0))
  {
    GaplessPage(h, limit);
    GaplessPage(h', limit);
    ChainedPrefix(hash, h, limit);
  }
}
