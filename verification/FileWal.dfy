/** The file write-ahead log: framed entries, an acknowledgement sidecar, and what a
    reader finds after a crash at any byte of either. */
module FileWal {
  import opened Prelude
  import opened Text

  type Byte = b: int | 0 <= b < 256

  const TWO32 := 0x1_0000_0000
  const MAX_PAYLOAD := 100 * 1024 * 1024

  /** Big-endian 32-bit numbers. */
  function Be32(n: int): (s: seq<Byte>)
    requires 0 <= n < TWO32
    ensures |s| == 4
  {
    [n / 0x100_0000, n / 0x1_0000 % 256, n / 256 % 256, n % 256]
  }

  function FromBe32(s: seq<Byte>): (n: int)
    requires |s| == 4
    ensures 0 <= n < TWO32
  {
    var a: int, b: int, c: int, d: int := s[0], s[1], s[2], s[3];
    a * 0x100_0000 + b * 0x1_0000 + c * 256 + d
  }

  lemma Be32Inverts(n: int)
    requires 0 <= n < TWO32
    ensures FromBe32(Be32(n)) == n
  {
    assert n / 256 / 256 == n / 0x1_0000 && n / 0x1_0000 / 256 == n / 0x100_0000;
  }

  /** The highest byte first: words compare byte by byte as the numbers do. */
  lemma Be32Orders(m: int, n: int, k: nat)
    requires 0 <= m < n < TWO32 && k < 4
    requires (forall i :: 0 <= i < k ==> Be32(m)[i] == Be32(n)[i]) && Be32(m)[k] != Be32(n)[k]
    ensures Be32(m)[k] < Be32(n)[k]
  {
    Be32Inverts(m);
    Be32Inverts(n);
    if Be32(m)[k] > Be32(n)[k] { HighestDecides(Be32(m), Be32(n), k); }
  }

  lemma HighestDecides(s: seq<Byte>, t: seq<Byte>, k: nat)
    requires |s| == |t| == 4 && k < 4 && (forall i :: 0 <= i < k ==> s[i] == t[i]) && s[k] > t[k]
    ensures FromBe32(s) > FromBe32(t)
  {
  }

  datatype Entry = Entry(id: string, record: string)

  /** JSON and CRC32, of which only this is used: decoding undoes encoding, and a checksum
      is a 32-bit number. */
  datatype Codec = Codec(encode: Entry -> seq<Byte>, decode: seq<Byte> -> Option<Entry>, crc: seq<Byte> -> int)

  ghost predicate Sound(c: Codec) {
    && (forall e: Entry :: c.decode(c.encode(e)) == Some(e))
    && (forall p: seq<Byte> :: 0 <= c.crc(p) < TWO32)
  }

  function Framed(length: int, payload: seq<Byte>, checksum: int): seq<Byte>
    requires 0 <= length < TWO32 && 0 <= checksum < TWO32
  {
    Be32(length) + payload + Be32(checksum)
  }

  /** One appended entry; the length field holds the length modulo 2^32. */
  ghost function Frame(c: Codec, e: Entry): seq<Byte>
    requires Sound(c)
  {
    Framed(|c.encode(e)| % TWO32, c.encode(e), c.crc(c.encode(e)))
  }

  ghost function File(c: Codec, es: seq<Entry>): seq<Byte>
    requires Sound(c)
  {
    if es == [] then [] else Frame(c, es[0]) + File(c, es[1..])
  }

  /** One round of reading: how many bytes it takes and what it yields. */
  datatype Round = Stop | Take(size: nat, kept: seq<Entry>)

  function ReadOne(c: Codec, bytes: seq<Byte>): (r: Round)
    ensures r.Take? ==> 8 <= r.size <= |bytes|
  {
    if |bytes| < 4 then Stop
    else
      var n := FromBe32(bytes[..4]);
      if n > MAX_PAYLOAD || |bytes| < n + 8 then Stop
      else Take(n + 8, Kept(c, bytes[4..n + 4], FromBe32(bytes[n + 4..n + 8])))
  }

  /** A payload counts if its checksum agrees and it decodes. */
  function Kept(c: Codec, payload: seq<Byte>, checksum: int): seq<Entry> {
    if checksum == c.crc(payload) && c.decode(payload).Some? then [c.decode(payload).value] else []
  }

  /** What reading the bytes from here on yields. */
  function ReadFrom(c: Codec, bytes: seq<Byte>): seq<Entry>
    decreases |bytes|
  {
    match ReadOne(c, bytes)
    case Stop => []
    case Take(n, kept) => kept + ReadFrom(c, bytes[n..])
  }

  /** The round at a file position, and what it leaves to be read. */
  ghost predicate Reads(c: Codec, file: seq<Byte>, cursor: nat, r: Round)
    requires cursor <= |file|
  {
    match r
    case Stop => ReadFrom(c, file[cursor..]) == []
    case Take(n, kept) =>
      && 0 < n <= |file| - cursor
      && ReadFrom(c, file[cursor..]) == kept + ReadFrom(c, file[cursor + n..])
  }

  lemma RoundReads(c: Codec, file: seq<Byte>, cursor: nat, r: Round)
    requires cursor <= |file| && r == ReadOne(c, file[cursor..])
    ensures Reads(c, file, cursor, r)
  {
    if r.Take? { assert file[cursor..][r.size..] == file[cursor + r.size..]; }
  }

  ghost predicate ReadSoFar(c: Codec, file: seq<Byte>, entries: seq<Entry>, cursor: nat)
    requires cursor <= |file|
  {
    ReadFrom(c, file) == entries + ReadFrom(c, file[cursor..])
  }

  lemma ReadOn(c: Codec, file: seq<Byte>, entries: seq<Entry>, cursor: nat, r: Round)
    requires cursor <= |file| && ReadSoFar(c, file, entries, cursor) && Reads(c, file, cursor, r)
    ensures r.Stop? ==> entries == ReadFrom(c, file)
    ensures r.Take? ==> ReadSoFar(c, file, entries + r.kept, cursor + r.size)
  {
    if r.Take? { Joined(entries, r.kept, ReadFrom(c, file[cursor + r.size..])); }
  }

  lemma Joined(a: seq<Entry>, b: seq<Entry>, d: seq<Entry>)
    ensures a + (b + d) == a + b + d
  {
  }

  // ----- The acknowledgement file -----

  function AckText(ids: seq<string>): string {
    if ids == [] then "" else ids[0] + "\n" + AckText(ids[1..])
  }

  function Acked(text: string): set<string> {
    set line | line in Split(text, '\n') && Trim(line) != "" :: Trim(line)
  }

  function Unacked(es: seq<Entry>, acked: set<string>): seq<Entry> {
    if es == [] then []
    else if es[0].id in acked then Unacked(es[1..], acked)
    else [es[0]] + Unacked(es[1..], acked)
  }

  // ----- The log -----

  lemma FileGrows(c: Codec, es: seq<Entry>, e: Entry)
    requires Sound(c)
    ensures File(c, es + [e]) == File(c, es) + Frame(c, e)
  {
    FileConcat(c, es, [e]);
    assert [e][1..] == [] && File(c, [e]) == Frame(c, e) + [];
  }

  lemma {:induction false} AckTextGrows(ids: seq<string>, id: string)
    ensures AckText(ids + [id]) == AckText(ids) + (id + "\n")
    decreases |ids|
  {
    if ids == [] {
      assert (ids + [id])[1..] == [];
    } else {
      assert (ids + [id])[0] == ids[0] && (ids + [id])[1..] == ids[1..] + [id];
      AckTextGrows(ids[1..], id);
    }
  }

  class Log {
    var walFile: seq<Byte>
    var ackFile: string
    ghost var appended: seq<Entry>
    ghost var acknowledged: seq<string>

    /** Both files hold all that was written to them. */
    ghost predicate Intact(c: Codec)
      requires Sound(c)
      reads this
    {
      walFile == File(c, appended) && ackFile == AckText(acknowledged)
    }

    constructor (c: Codec)
      requires Sound(c)
      ensures Intact(c) && appended == [] && acknowledged == []
    {
      walFile, ackFile, appended, acknowledged := [], "", [], [];
    }

    method Append(c: Codec, e: Entry)
      requires Sound(c)
      modifies this
      ensures walFile == old(walFile) + Frame(c, e) && ackFile == old(ackFile)
      ensures appended == old(appended) + [e] && acknowledged == old(acknowledged)
      ensures old(Intact(c)) ==> Intact(c)
    {
      var payload := c.encode(e);
      walFile := walFile + Be32(|payload| % TWO32);
      walFile := walFile + payload;
      walFile := walFile + Be32(c.crc(payload));
      assert walFile == old(walFile) + (Be32(|payload| % TWO32) + payload + Be32(c.crc(payload)));
      FileGrows(c, appended, e);
      appended := appended + [e];
    }

    method Ack(id: string)
      modifies this
      ensures walFile == old(walFile) && ackFile == old(ackFile) + (id + "\n")
      ensures appended == old(appended) && acknowledged == old(acknowledged) + [id]
      ensures old(ackFile) == AckText(old(acknowledged)) ==> ackFile == AckText(acknowledged)
    {
      ackFile := ackFile + (id + "\n");
      AckTextGrows(acknowledged, id);
      acknowledged := acknowledged + [id];
    }

    method ReadRound(c: Codec, cursor: nat) returns (r: Round)
      requires cursor <= |walFile|
      ensures Reads(c, walFile, cursor, r)
    {
      ghost var tail := walFile[cursor..];
      RoundReads(c, walFile, cursor, ReadOne(c, tail));
      if |walFile| - cursor < 4 { return Stop; }
      var n := FromBe32(walFile[cursor..cursor + 4]);
      assert tail[..4] == walFile[cursor..cursor + 4];
      if n > MAX_PAYLOAD || |walFile| - cursor < n + 8 { return Stop; }
      var payload := walFile[cursor + 4..cursor + 4 + n];
      var expected := FromBe32(walFile[cursor + 4 + n..cursor + 8 + n]);
      assert tail[4..n + 4] == payload && tail[n + 4..n + 8] == walFile[cursor + 4 + n..cursor + 8 + n];
      if expected != c.crc(payload) { return Take(n + 8, []); }
      match c.decode(payload)
      case None => return Take(n + 8, []);
      case Some(entry) => return Take(n + 8, [entry]);
    }

    method ReadEntries(c: Codec) returns (entries: seq<Entry>)
      ensures entries == ReadFrom(c, walFile)
    {
      entries := [];
      var cursor := 0;
      assert walFile[0..] == walFile;
      while true
        invariant 0 <= cursor <= |walFile|
        invariant ReadSoFar(c, walFile, entries, cursor)
        decreases |walFile| - cursor
      {
        var round := NextRound(c, cursor, entries);
        if round.Stop? { return; }
        entries := entries + round.kept;
        cursor := cursor + round.size;
      }
    }

    /** One round of the loop, as far as the loop cares. */
    method NextRound(c: Codec, cursor: nat, ghost entries: seq<Entry>) returns (r: Round)
      requires cursor <= |walFile| && ReadSoFar(c, walFile, entries, cursor)
      ensures r.Stop? ==> entries == ReadFrom(c, walFile)
      ensures r.Take? ==>
                0 < r.size <= |walFile| - cursor && ReadSoFar(c, walFile, entries + r.kept, cursor + r.size)
    {
      r := ReadRound(c, cursor);
      ReadOn(c, walFile, entries, cursor, r);
    }

    method LoadAcked() returns (acked: set<string>)
      ensures acked == Acked(ackFile)
    {
      var lines := Split(ackFile, '\n');
      acked := {};
      for i := 0 to |lines|
        invariant acked == set line | line in lines[..i] && Trim(line) != "" :: Trim(line)
      {
        assert lines[..i + 1] == lines[..i] + [lines[i]];
        var id := Trim(lines[i]);
        if id != "" { acked := acked + {id}; }
      }
      assert lines[..|lines|] == lines;
    }

    method Replay(c: Codec) returns (unacked: seq<Entry>)
      ensures unacked == Unacked(ReadFrom(c, walFile), Acked(ackFile))
    {
      var acked := LoadAcked();
      var entries := ReadEntries(c);
      unacked := Filter(entries, acked);
    }

    method Filter(entries: seq<Entry>, acked: set<string>) returns (unacked: seq<Entry>)
      ensures unacked == Unacked(entries, acked)
    {
      unacked := [];
      for i := 0 to |entries|
        invariant unacked + Unacked(entries[i..], acked) == Unacked(entries, acked)
      {
        assert entries[i..][0] == entries[i] && entries[i..][1..] == entries[i + 1..];
        if entries[i].id !in acked { unacked := unacked + [entries[i]]; }
      }
    }
  }

  // ----- Reading frames back -----

  /** A frame with a payload that is not too long is read in one round. */
  lemma ReadFrame(c: Codec, payload: seq<Byte>, checksum: int, rest: seq<Byte>)
    requires |payload| <= MAX_PAYLOAD && 0 <= checksum < TWO32
    ensures ReadFrom(c, Framed(|payload|, payload, checksum) + rest) == Kept(c, payload, checksum) + ReadFrom(c, rest)
  {
    var n := |payload|;
    var bytes := Framed(n, payload, checksum) + rest;
    Be32Inverts(n);
    Be32Inverts(checksum);
    assert bytes[..4] == Be32(n) && bytes[4..n + 4] == payload && bytes[n + 4..n + 8] == Be32(checksum);
    assert bytes[n + 8..] == rest;
  }

  lemma ReadEntry(c: Codec, e: Entry, f: seq<Byte>, rest: seq<Byte>)
    requires Sound(c) && |c.encode(e)| <= MAX_PAYLOAD && f == Frame(c, e)
    ensures ReadFrom(c, f + rest) == [e] + ReadFrom(c, rest)
  {
    var p := c.encode(e);
    FrameIs(c, e, p);
    ReadFrame(c, p, c.crc(p), rest);
  }

  lemma FrameIs(c: Codec, e: Entry, p: seq<Byte>)
    requires Sound(c) && p == c.encode(e) && |p| <= MAX_PAYLOAD
    ensures 0 <= c.crc(p) < TWO32 && Frame(c, e) == Framed(|p|, p, c.crc(p)) && Kept(c, p, c.crc(p)) == [e]
  {
    assert |p| % TWO32 == |p|;
  }

  /** Reading stops at a frame that is cut short or too long. */
  lemma ReadStops(c: Codec, payload: seq<Byte>, bytes: seq<Byte>)
    requires |payload| < TWO32 && (|payload| > MAX_PAYLOAD || |bytes| < |payload| + 8)
    requires |bytes| < 4 || bytes[..4] == Be32(|payload|)
    ensures ReadFrom(c, bytes) == []
  {
    Be32Inverts(|payload|);
  }

  lemma StartsWithLength(c: Codec, e: Entry, part: seq<Byte>, more: seq<Byte>)
    requires Sound(c) && |c.encode(e)| < TWO32
    requires |part| >= 4 && (part <= Frame(c, e) || Frame(c, e) <= part)
    ensures (part + more)[..4] == Be32(|c.encode(e)|)
  {
    assert (part + more)[..4] == part[..4] == Frame(c, e)[..4];
  }

  /** How many entries can be read from the first `n` bytes: whole frames, up to the first
      payload over the limit. */
  ghost function Readable(c: Codec, es: seq<Entry>, n: int): nat
    requires Sound(c)
    ensures Readable(c, es, n) <= |es|
    decreases |es|
  {
    if es == [] || |c.encode(es[0])| > MAX_PAYLOAD || |Frame(c, es[0])| > n then 0
    else 1 + Readable(c, es[1..], n - |Frame(c, es[0])|)
  }

  /** The length of the next payload is not so long that it wraps, if there is one. */
  ghost predicate Measured(c: Codec, es: seq<Entry>, k: nat)
    requires k <= |es|
  {
    k == |es| || |c.encode(es[k])| < TWO32
  }

  ghost predicate Small(c: Codec, es: seq<Entry>) {
    forall i :: 0 <= i < |es| ==> |c.encode(es[i])| <= MAX_PAYLOAD
  }

  lemma CutInside(c: Codec, e: Entry, f: seq<Byte>, tail: seq<Byte>, bytes: seq<Byte>)
    requires Sound(c) && |c.encode(e)| < TWO32 && f == Frame(c, e) && bytes <= f + tail
    requires |c.encode(e)| > MAX_PAYLOAD || |f| > |bytes|
    ensures ReadFrom(c, bytes) == []
  {
    if |bytes| >= 4 {
      assert bytes[..4] == (f + tail)[..4] == f[..4];
      StartsWithLength(c, e, f, []);
      assert f + [] == f;
    }
    ReadStops(c, c.encode(e), bytes);
  }

  lemma PrefixGrows(es: seq<Entry>, k: nat)
    requires k < |es|
    ensures es[..1 + k] == [es[0]] + es[1..][..k]
  {
  }

  /** A first frame inside the prefix that was kept is read, and the rest is a prefix of the rest. */
  lemma WholeFrame(c: Codec, es: seq<Entry>, bytes: seq<Byte>)
    requires Sound(c) && es != [] && bytes <= File(c, es)
    requires |c.encode(es[0])| <= MAX_PAYLOAD && |Frame(c, es[0])| <= |bytes|
    ensures var rest, k := bytes[|Frame(c, es[0])|..], Readable(c, es, |bytes|);
            && rest <= File(c, es[1..]) && k == 1 + Readable(c, es[1..], |rest|)
            && ReadFrom(c, bytes) == [es[0]] + ReadFrom(c, rest) && es[..k] == [es[0]] + es[1..][..k - 1]
  {
    var f := Frame(c, es[0]);
    var rest := bytes[|f|..];
    assert bytes == f + rest && rest <= File(c, es[1..]);
    ReadEntry(c, es[0], f, rest);
    PrefixGrows(es, Readable(c, es[1..], |rest|));
  }

  /** After a crash that keeps any prefix of the file, reading gives the entries whose frames
      lie wholly inside it, in order, up to the first that is too long, and nothing else
      unless that one is so long that its length wraps. */
  lemma {:induction false} ReadAfterCrash(c: Codec, es: seq<Entry>, bytes: seq<Byte>)
    requires Sound(c) && bytes <= File(c, es)
    ensures es[..Readable(c, es, |bytes|)] <= ReadFrom(c, bytes)
    ensures Measured(c, es, Readable(c, es, |bytes|)) ==> ReadFrom(c, bytes) == es[..Readable(c, es, |bytes|)]
    decreases |es|
  {
    if es != [] {
      var e, f := es[0], Frame(c, es[0]);
      if |c.encode(e)| > MAX_PAYLOAD || |f| > |bytes| {
        if |c.encode(e)| < TWO32 { CutInside(c, e, f, File(c, es[1..]), bytes); }
      } else {
        WholeFrame(c, es, bytes);
        ReadAfterCrash(c, es[1..], bytes[|f|..]);
      }
    }
  }

  /** Without oversized payloads every wholly written frame is read. */
  lemma {:induction false} ReadableAll(c: Codec, es: seq<Entry>, fs: seq<Entry>, n: nat)
    requires Sound(c) && Small(c, es) && n >= |File(c, es)|
    ensures Readable(c, es + fs, n) >= |es|
    decreases |es|
  {
    if es != [] {
      assert (es + fs)[0] == es[0] && (es + fs)[1..] == es[1..] + fs;
      ReadableAll(c, es[1..], fs, n - |Frame(c, es[0])|);
    }
  }

  lemma {:induction false} FileConcat(c: Codec, es: seq<Entry>, fs: seq<Entry>)
    requires Sound(c)
    ensures File(c, es + fs) == File(c, es) + File(c, fs)
    decreases |es|
  {
    if es == [] {
      assert es + fs == fs;
    } else {
      assert (es + fs)[0] == es[0] && (es + fs)[1..] == es[1..] + fs;
      FileConcat(c, es[1..], fs);
      Reassociate(Frame(c, es[0]), File(c, es[1..]), File(c, fs));
    }
  }

  lemma Reassociate(a: seq<Byte>, b: seq<Byte>, d: seq<Byte>)
    ensures (a + b) + d == a + (b + d)
  {
  }

  lemma {:induction false} ReadThrough(c: Codec, es: seq<Entry>, rest: seq<Byte>)
    requires Sound(c) && Small(c, es)
    ensures ReadFrom(c, File(c, es) + rest) == es + ReadFrom(c, rest)
    decreases |es|
  {
    if es == [] {
      assert File(c, es) + rest == rest;
    } else {
      var f, tail := Frame(c, es[0]), File(c, es[1..]);
      ReadEntry(c, es[0], f, tail + rest);
      ReadThrough(c, es[1..], rest);
      Reassociate(f, tail, rest);
      OneMore(es, ReadFrom(c, f + (tail + rest)), ReadFrom(c, tail + rest), ReadFrom(c, rest));
    }
  }

  lemma OneMore(es: seq<Entry>, whole: seq<Entry>, part: seq<Entry>, last: seq<Entry>)
    requires es != [] && whole == [es[0]] + part && part == es[1..] + last
    ensures whole == es + last
  {
  }

  lemma ReadWhole(c: Codec, es: seq<Entry>)
    requires Sound(c) && Small(c, es)
    ensures ReadFrom(c, File(c, es)) == es
  {
    ReadThrough(c, es, []);
    assert File(c, es) + [] == File(c, es) && es + [] == es;
  }

  /** Damage to one payload that the checksum shows, or that leaves nothing to decode, costs that
      entry and no other. */
  lemma DamageCostsOne(c: Codec, before: seq<Entry>, damaged: seq<Byte>, checksum: int, after: seq<Entry>)
    requires Sound(c) && Small(c, before) && Small(c, after)
    requires |damaged| <= MAX_PAYLOAD && 0 <= checksum < TWO32
    requires c.crc(damaged) != checksum || c.decode(damaged).None?
    ensures ReadFrom(c, File(c, before) + Framed(|damaged|, damaged, checksum) + File(c, after)) == before + after
  {
    ReadDamaged(c, damaged, checksum, after);
    var f := Framed(|damaged|, damaged, checksum);
    Reassociate(File(c, before), f, File(c, after));
    ReadThrough(c, before, f + File(c, after));
  }

  lemma ReadDamaged(c: Codec, damaged: seq<Byte>, checksum: int, after: seq<Entry>)
    requires Sound(c) && Small(c, after)
    requires |damaged| <= MAX_PAYLOAD && 0 <= checksum < TWO32
    requires c.crc(damaged) != checksum || c.decode(damaged).None?
    ensures ReadFrom(c, Framed(|damaged|, damaged, checksum) + File(c, after)) == after
  {
    ReadFrame(c, damaged, checksum, File(c, after));
    ReadWhole(c, after);
  }

  /** Appending after a crash that tore a frame: the reader takes what is appended next for
      the rest of the torn frame. Nothing more is read while that announces more than has
      been written since; afterwards reading goes on right behind it, wherever that is. What
      it announces is its own length, or, torn within that, a number made up of both. */
  lemma AppendAfterTear(c: Codec, es: seq<Entry>, d: Entry, torn: seq<Byte>, rest: seq<Byte>)
    requires Sound(c) && Small(c, es) && torn <= Frame(c, d)
    ensures ReadFrom(c, File(c, es) + torn + rest) == es + ReadFrom(c, torn + rest)
    ensures 4 <= |torn| ==> Announced(torn + rest) == |c.encode(d)| % TWO32
    ensures ReadFrom(c, torn + rest) == AfterFirst(c, torn + rest)
  {
    BehindFile(c, es, torn, rest);
    if 4 <= |torn| { Announces(c, d, torn, rest); }
  }

  /** The length of the first frame, as its first bytes give it. */
  function Announced(bytes: seq<Byte>): nat {
    if |bytes| < 4 then 0 else FromBe32(bytes[..4])
  }

  /** Nothing if the first frame is not all there or too long; else what it yields, and what
      can be read right behind it. */
  function AfterFirst(c: Codec, bytes: seq<Byte>): seq<Entry> {
    var n := Announced(bytes);
    if n > MAX_PAYLOAD || |bytes| < n + 8 then []
    else Kept(c, bytes[4..n + 4], FromBe32(bytes[n + 4..n + 8])) + ReadFrom(c, bytes[n + 8..])
  }

  lemma BehindFile(c: Codec, es: seq<Entry>, torn: seq<Byte>, rest: seq<Byte>)
    requires Sound(c) && Small(c, es)
    ensures ReadFrom(c, File(c, es) + torn + rest) == es + ReadFrom(c, torn + rest)
  {
    Reassociate(File(c, es), torn, rest);
    ReadThrough(c, es, torn + rest);
  }

  lemma Announces(c: Codec, d: Entry, torn: seq<Byte>, rest: seq<Byte>)
    requires Sound(c) && torn <= Frame(c, d) && 4 <= |torn|
    ensures Announced(torn + rest) == |c.encode(d)| % TWO32
  {
    Be32Inverts(|c.encode(d)| % TWO32);
    assert (torn + rest)[..4] == torn[..4] == Frame(c, d)[..4] == Be32(|c.encode(d)| % TWO32);
  }

  lemma NotWrapped(n: nat)
    requires n <= MAX_PAYLOAD
    ensures n % TWO32 == n
  {
  }

  /** What stands in the place of a frame with `n` bytes of payload does not pass its checksum. */
  ghost predicate Refused(c: Codec, bytes: seq<Byte>, n: nat) {
    |bytes| >= n + 8 && FromBe32(bytes[n + 4..n + 8]) != c.crc(bytes[4..n + 4])
  }

  /** It is skipped, then. */
  lemma Skipped(c: Codec, bytes: seq<Byte>, n: nat)
    requires n <= MAX_PAYLOAD && Announced(bytes) == n && Refused(c, bytes, n)
    ensures ReadFrom(c, bytes) == ReadFrom(c, bytes[n + 8..])
  {
    assert [] + ReadFrom(c, bytes[n + 8..]) == ReadFrom(c, bytes[n + 8..]);
  }

  /** If the entries appended next fill the torn frame exactly, and the checksum tells, they
      are lost with it, and the ones after them are read again. */
  lemma ReadAgainAfterTear(c: Codec, es: seq<Entry>, d: Entry, torn: seq<Byte>, lost: seq<Entry>, kept: seq<Entry>)
    requires Sound(c) && Small(c, es) && |c.encode(d)| <= MAX_PAYLOAD && torn <= Frame(c, d) && 4 <= |torn|
    requires Small(c, kept) && |torn| + |File(c, lost)| == |Frame(c, d)|
    requires Refused(c, torn + File(c, lost), |c.encode(d)|)
    ensures ReadFrom(c, File(c, es) + torn + (File(c, lost) + File(c, kept))) == es + kept
  {
    var n, f, tail := |c.encode(d)|, File(c, lost), File(c, kept);
    BehindFile(c, es, torn, f + tail);
    Announces(c, d, torn, f + tail);
    NotWrapped(n);
    FirstFrame(c, torn, f, tail, n);
    Skipped(c, torn + (f + tail), n);
    ReadWhole(c, kept);
  }

  lemma FirstFrame(c: Codec, torn: seq<Byte>, f: seq<Byte>, tail: seq<Byte>, n: nat)
    requires |torn| + |f| == n + 8 && Refused(c, torn + f, n)
    ensures Refused(c, torn + (f + tail), n) && (torn + (f + tail))[n + 8..] == tail
  {
    var bytes, mixed := torn + (f + tail), torn + f;
    assert bytes == mixed + tail;
    assert bytes[4..n + 4] == mixed[4..n + 4] && bytes[n + 4..n + 8] == mixed[n + 4..n + 8];
  }

  // ----- Acknowledgements after a crash -----

  /** Identifiers that survive the sidecar: no newline, no outer white space, not empty. */
  predicate Clean(id: string) {
    '\n' !in id && Trimmed(id) && id != ""
  }

  ghost predicate AllClean(ids: seq<string>) {
    forall i :: 0 <= i < |ids| ==> Clean(ids[i])
  }

  lemma TrimPrefix(id: string, part: string)
    requires Trimmed(id) && part <= id
    ensures Trim(part) <= id
  {
    if part != [] { assert part[0] == id[0]; }
    assert TrimLeft(part) == part;
  }

  lemma InAcked(text: string, a: string) returns (line: string)
    requires a in Acked(text)
    ensures line in Split(text, '\n') && Trim(line) == a && a != ""
  {
    line :| line in Split(text, '\n') && Trim(line) != "" && Trim(line) == a;
  }

  /** What counts as acknowledged before and after a line end. */
  lemma AckedSplit(line: string, rest: string, a: string)
    ensures a in Acked(line + ['\n'] + rest) <==> a in Acked(line) || a in Acked(rest)
  {
    var text := line + ['\n'] + rest;
    SplitConcat(line, '\n', rest);
    if a in Acked(text) { var l := InAcked(text, a); }
    if a in Acked(line) { var l := InAcked(line, a); assert l in Split(text, '\n'); }
    if a in Acked(rest) { var l := InAcked(rest, a); assert l in Split(text, '\n'); }
  }

  lemma NothingAcked(a: string)
    ensures a !in Acked("")
  {
    if a in Acked("") { var line := InAcked("", a); }
  }

  /** A clean identifier counts as itself. */
  lemma CleanAcked(id: string, a: string)
    requires Clean(id)
    ensures a in Acked(id) <==> a == id
  {
    SplitFree(id, '\n');
    assert id in Split(id, '\n');
    if a in Acked(id) { var line := InAcked(id, a); }
  }

  /** Some line written counts as `a`. */
  ghost predicate Written(ids: seq<string>, a: string) {
    exists i :: i in ids && a in Acked(i)
  }

  lemma WrittenFirst(ids: seq<string>, a: string)
    requires ids != []
    ensures Written(ids, a) <==> a in Acked(ids[0]) || Written(ids[1..], a)
  {
    assert ids == [ids[0]] + ids[1..];
    assert ids[0] in ids;
  }

  /** Of whole lines exactly what was written counts, whatever follows them. */
  lemma {:induction false} AckedThrough(ids: seq<string>, rest: string, a: string)
    ensures a in Acked(AckText(ids) + rest) <==> Written(ids, a) || a in Acked(rest)
    decreases |ids|
  {
    if ids == [] {
      assert AckText(ids) + rest == rest;
    } else {
      var more := AckText(ids[1..]) + rest;
      assert AckText(ids) + rest == ids[0] + ['\n'] + more;
      AckedSplit(ids[0], more, a);
      AckedThrough(ids[1..], rest, a);
      WrittenFirst(ids, a);
    }
  }

  lemma CleanThrough(ids: seq<string>, a: string)
    requires AllClean(ids)
    ensures Written(ids, a) <==> a in ids
  {
    forall i | i in ids ensures a in Acked(i) <==> a == i { CleanAcked(i, a); }
  }

  /** Without a crash, replay gives exactly the entries not acknowledged, in order. */
  lemma ReplayIntact(c: Codec, es: seq<Entry>, ids: seq<string>)
    requires Sound(c) && Small(c, es) && AllClean(ids)
    ensures Unacked(ReadFrom(c, File(c, es)), Acked(AckText(ids))) == Unacked(es, set id | id in ids)
  {
    ReadWhole(c, es);
    forall a ensures a in Acked(AckText(ids)) <==> a in ids {
      AckedThrough(ids, "", a);
      CleanThrough(ids, a);
      NothingAcked(a);
      assert AckText(ids) + "" == AckText(ids);
    }
    assert Acked(AckText(ids)) == set id | id in ids;
  }

  /** Acknowledging after a torn line glues the two: neither identifier counts, unless it
      did before, and what they make up together does. */
  lemma AckAfterTear(ids: seq<string>, torn: string, id: string, a: string)
    ensures a in Acked(AckText(ids) + (torn + id + "\n")) <==> Written(ids, a) || a in Acked(torn + id)
    ensures AllClean(ids) && Clean(torn + id) ==>
              (a in Acked(AckText(ids) + (torn + id + "\n")) <==> a in ids || a == torn + id)
  {
    var line := torn + id;
    assert line + "\n" == line + ['\n'] + "";
    AckedThrough(ids, line + "\n", a);
    AckedSplit(line, "", a);
    NothingAcked(a);
    if AllClean(ids) && Clean(line) {
      CleanThrough(ids, a);
      CleanAcked(line, a);
    }
  }

  /** Some part of this line, cut short, counts as `a`. */
  ghost predicate CanRead(id: string, a: string) {
    exists part :: part <= id && a in Acked(part)
  }

  /** Some torn line of the sidecar can count as `a`. */
  ghost predicate Hideable(ids: seq<string>, a: string) {
    exists i :: i in ids && CanRead(i, a)
  }

  lemma {:induction false} CutReads(ids: seq<string>, text: string, a: string)
    requires text <= AckText(ids) && a in Acked(text)
    ensures Hideable(ids, a)
    decreases |ids|
  {
    if ids == [] {
      NothingAcked(a);
    } else {
      var id := ids[0];
      assert id in ids;
      if |text| <= |id| {
        assert text <= id;
      } else {
        var rest := text[|id| + 1..];
        assert text == id + ['\n'] + rest && rest <= AckText(ids[1..]);
        AckedSplit(id, rest, a);
        if a in Acked(id) { assert id <= id; } else { CutReads(ids[1..], rest, a); }
      }
    }
  }

  lemma {:induction false} ReadsCut(ids: seq<string>, i: string, part: string, a: string) returns (text: string)
    requires i in ids && part <= i && a in Acked(part)
    ensures text <= AckText(ids) && a in Acked(text)
    decreases |ids|
  {
    if ids[0] == i {
      text := part;
    } else {
      var rest := ReadsCut(ids[1..], i, part, a);
      text := ids[0] + ['\n'] + rest;
      AckedSplit(ids[0], rest, a);
    }
  }

  /** A crash can make an entry look acknowledged exactly if part of a line written counts
      as its identifier; with clean identifiers, if it is a prefix of an acknowledged one. */
  lemma AckHides(ids: seq<string>, a: string)
    ensures (exists text :: text <= AckText(ids) && a in Acked(text)) <==> Hideable(ids, a)
    ensures AllClean(ids) ==> (Hideable(ids, a) <==> a != "" && Trimmed(a) && exists i :: i in ids && a <= i)
  {
    if text: string :| text <= AckText(ids) && a in Acked(text) { CutReads(ids, text, a); }
    if Hideable(ids, a) {
      var i :| i in ids && CanRead(i, a);
      var part :| part <= i && a in Acked(part);
      var text := ReadsCut(ids, i, part, a);
    }
    if AllClean(ids) {
      forall i | i in ids ensures CanRead(i, a) <==> a != "" && Trimmed(a) && a <= i { CleanReads(i, a); }
    }
  }

  lemma CleanReads(i: string, a: string)
    requires Clean(i)
    ensures CanRead(i, a) <==> a != "" && Trimmed(a) && a <= i
  {
    if CanRead(i, a) {
      var part :| part <= i && a in Acked(part);
      SplitFree(part, '\n');
      var line := InAcked(part, a);
      TrimPrefix(i, part);
    }
    if a != "" && Trimmed(a) && a <= i { CleanAcked(a, a); }
  }

  lemma {:induction false} UnackedMember(es: seq<Entry>, acked: set<string>, e: Entry)
    ensures e in Unacked(es, acked) <==> e in es && e.id !in acked
  {
    if es != [] {
      UnackedMember(es[1..], acked, e);
      assert es == [es[0]] + es[1..];
    }
  }

  /** The entries of `sub` occur in `es` in the same order. */
  ghost predicate InOrder(sub: seq<Entry>, es: seq<Entry>)
    decreases |es|
  {
    sub == [] || (es != [] && ((sub[0] == es[0] && InOrder(sub[1..], es[1..])) || InOrder(sub, es[1..])))
  }

  lemma {:induction false} UnackedInOrder(es: seq<Entry>, acked: set<string>, more: seq<Entry>)
    ensures InOrder(Unacked(es, acked), es + more)
    decreases |es|
  {
    if es != [] {
      assert (es + more)[0] == es[0] && (es + more)[1..] == es[1..] + more;
      UnackedInOrder(es[1..], acked, more);
      if es[0].id !in acked { assert Unacked(es, acked)[1..] == Unacked(es[1..], acked); }
    }
  }

  lemma StaysUnacked(es: seq<Entry>, read: seq<Entry>, acked: set<string>, k: nat, i: nat)
    requires i < k <= |es| && es[..k] <= read
    ensures es[i] in Unacked(read, acked) <==> es[i].id !in acked
  {
    assert read[i] == es[..k][i] == es[i];
    UnackedMember(read, acked, es[i]);
  }

  /** At least once: a wholly written entry is returned after every crash, whatever prefixes
      of the two files it keeps, exactly if no line of the sidecar can read like it. */
  lemma ReplayAfterCrash(c: Codec, es: seq<Entry>, data: seq<Byte>, ids: seq<string>, i: nat)
    requires Sound(c) && data <= File(c, es) && i < Readable(c, es, |data|)
    ensures (forall text :: text <= AckText(ids) ==> es[i] in Unacked(ReadFrom(c, data), Acked(text))) <==>
            !Hideable(ids, es[i].id)
  {
    ReadAfterCrash(c, es, data);
    AckHides(ids, es[i].id);
    forall text ensures es[i] in Unacked(ReadFrom(c, data), Acked(text)) <==> es[i].id !in Acked(text) {
      StaysUnacked(es, ReadFrom(c, data), Acked(text), Readable(c, es, |data|), i);
    }
  }

  /** And only appended entries are returned, in the order they were appended. */
  lemma ReplayInOrder(c: Codec, es: seq<Entry>, data: seq<Byte>, text: string)
    requires Sound(c) && data <= File(c, es) && Measured(c, es, Readable(c, es, |data|))
    ensures InOrder(Unacked(ReadFrom(c, data), Acked(text)), es)
  {
    ReadAfterCrash(c, es, data);
    PrefixInOrder(es, Readable(c, es, |data|), Acked(text));
  }

  lemma PrefixInOrder(es: seq<Entry>, k: nat, acked: set<string>)
    requires k <= |es|
    ensures InOrder(Unacked(es[..k], acked), es)
  {
    UnackedInOrder(es[..k], acked, es[k..]);
    assert es[..k] + es[k..] == es;
  }
}
