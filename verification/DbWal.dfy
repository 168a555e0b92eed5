/** The database write-ahead log and its recovery loop, which may stop anywhere. */
module DbWal {
  import opened Prelude
  import opened Entities
  import opened Records

  datatype Entry = Entry(id: string, record: Record)

  /** The key under which the version table admits one record. */
  datatype Slot = Slot(entityType: string, entityID: string, version: int)

  type Table = map<Slot, Record>

  function SlotOf(r: Record): Slot {
    Slot(r.entityType, r.entityID, r.version)
  }

  /** What may happen to the handling of one entry: nothing; the save or the
      acknowledgement fails; the process dies before the save or right after it. */
  datatype Fault = NoFault | SaveFails | AckFails | DiesBeforeSave | DiesAfterSave

  datatype Outcome = Complete | SaveError | AckError | Died

  datatype SaveResult = Saved | Duplicate | Failed

  datatype RecoverResult = RecoverResult(replayed: nat, skipped: nat, ackErrors: nat)

  /** The version table, behind the writer. */
  class Writer {
    var table: Table

    constructor ()
      ensures table == map[]
    {
      table := map[];
    }

    /** Saves unless the slot is taken or the database fails. */
    method Save(r: Record, fails: bool) returns (result: SaveResult)
      modifies this
      ensures result == (if fails then Failed else if SlotOf(r) in old(table) then Duplicate else Saved)
      ensures table == if result.Saved? then old(table)[SlotOf(r) := r] else old(table)
    {
      if fails { return Failed; }
      if SlotOf(r) in table { return Duplicate; }
      table := table[SlotOf(r) := r];
      result := Saved;
    }
  }

  // ----- The staging table -----

  function Without(rows: seq<Entry>, id: string): (left: seq<Entry>)
    ensures |left| <= |rows|
  {
    if rows == [] then []
    else if rows[0].id == id then Without(rows[1..], id)
    else [rows[0]] + Without(rows[1..], id)
  }

  ghost predicate HasId(rows: seq<Entry>, id: string) {
    exists i :: 0 <= i < |rows| && rows[i].id == id
  }

  /** The identifier is the primary key of the staging table. */
  ghost predicate Distinct(rows: seq<Entry>) {
    forall i, j :: 0 <= i < j < |rows| ==> rows[i].id != rows[j].id
  }

  lemma {:induction false} WithoutAbsent(rows: seq<Entry>, id: string)
    requires forall i :: 0 <= i < |rows| ==> rows[i].id != id
    ensures Without(rows, id) == rows
  {
    if rows != [] {
      WithoutAbsent(rows[1..], id);
    }
  }

  /** Deleting by identifier takes out that row and leaves the others in place. */
  lemma {:induction false} WithoutOne(kept: seq<Entry>, e: Entry, rest: seq<Entry>)
    requires Distinct(kept + [e] + rest)
    ensures Without(kept + [e] + rest, e.id) == kept + rest
    decreases |kept|
  {
    var rows := kept + [e] + rest;
    if kept == [] {
      assert rows[0] == e && rows[1..] == rest;
      forall i | 0 <= i < |rest| ensures rest[i].id != e.id { assert rows[i + 1] == rest[i]; }
      WithoutAbsent(rest, e.id);
    } else {
      assert rows[0] == kept[0] && rows[|kept|] == e && rows[1..] == kept[1..] + [e] + rest;
      assert Distinct(rows[1..]);
      WithoutOne(kept[1..], e, rest);
    }
  }

  // ----- What recovery is for -----

  function SaveIfFree(table: Table, r: Record): Table {
    if SlotOf(r) in table then table else table[SlotOf(r) := r]
  }

  /** The table once every row has been brought into it: what recovery aims at. */
  function Settled(rows: seq<Entry>, table: Table): Table {
    if rows == [] then table else Settled(rows[1..], SaveIfFree(table, rows[0].record))
  }

  /** Every row is already in the table, under its slot. */
  ghost predicate Present(rows: seq<Entry>, table: Table) {
    forall i :: 0 <= i < |rows| ==> SlotOf(rows[i].record) in table
  }

  lemma {:induction false} SettledPresent(rows: seq<Entry>, more: seq<Entry>, table: Table)
    requires Present(rows, table)
    ensures Settled(rows + more, table) == Settled(more, table)
    decreases |rows|
  {
    if rows == [] {
      assert rows + more == more;
    } else {
      assert (rows + more)[0] == rows[0] && (rows + more)[1..] == rows[1..] + more;
      assert SaveIfFree(table, rows[0].record) == table;
      SettledPresent(rows[1..], more, table);
    }
  }

  /** No record in `before` is gone or overwritten in `after`. */
  ghost predicate Keeps(before: Table, after: Table) {
    forall s :: s in before ==> s in after && after[s] == before[s]
  }

  lemma {:induction false} SettledKeeps(rows: seq<Entry>, table: Table)
    ensures Keeps(table, Settled(rows, table))
    ensures Present(rows, Settled(rows, table))
    ensures forall s: Slot :: s in Settled(rows, table) && s !in table ==>
              exists i :: 0 <= i < |rows| && SlotOf(rows[i].record) == s && Settled(rows, table)[s] == rows[i].record
    decreases |rows|
  {
    if rows != [] {
      var next := SaveIfFree(table, rows[0].record);
      SettledKeeps(rows[1..], next);
      assert SlotOf(rows[0].record) in next;
      forall s | s in Settled(rows, table) && s !in table
        ensures exists i :: 0 <= i < |rows| && SlotOf(rows[i].record) == s && Settled(rows, table)[s] == rows[i].record
      {
        if s in next {
          assert SlotOf(rows[0].record) == s && Settled(rows, table)[s] == rows[0].record;
        } else {
          var i :| 0 <= i < |rows| - 1 && SlotOf(rows[1..][i].record) == s && Settled(rows[1..], next)[s] ==
            rows[1..][i].record;
          assert rows[i + 1] == rows[1..][i];
        }
      }
    }
  }

  /** Of several rows for a free slot the first is the one saved. */
  lemma {:induction false} SettledFirst(rows: seq<Entry>, table: Table, i: nat)
    requires i < |rows| && SlotOf(rows[i].record) !in table
    requires forall k :: 0 <= k < i ==> SlotOf(rows[k].record) != SlotOf(rows[i].record)
    ensures SlotOf(rows[i].record) in Settled(rows, table)
    ensures Settled(rows, table)[SlotOf(rows[i].record)] == rows[i].record
    decreases i
  {
    if i == 0 {
      SettledKeeps(rows[1..], SaveIfFree(table, rows[0].record));
    } else {
      SettledFirst(rows[1..], SaveIfFree(table, rows[0].record), i - 1);
    }
  }

  // ----- One entry -----

  /** The rows and the table between two entries: `kept` were skipped over and stay logged. */
  ghost predicate Between(start: seq<Entry>, first: Table, kept: seq<Entry>, rest: seq<Entry>, table: Table) {
    && Distinct(kept + rest)
    && Present(kept, table)
    && Keeps(first, table)
    && Settled(rest, table) == Settled(start, first)
  }

  lemma BetweenSettled(start: seq<Entry>, first: Table, kept: seq<Entry>, rest: seq<Entry>, table: Table)
    requires Between(start, first, kept, rest, table)
    ensures Settled(kept + rest, table) == Settled(start, first)
  {
    SettledPresent(kept, rest, table);
  }

  lemma DistinctWithout(kept: seq<Entry>, rest: seq<Entry>)
    requires Distinct(kept + rest) && rest != []
    ensures Distinct(kept + rest[1..])
    ensures Without(kept + rest, rest[0].id) == kept + rest[1..]
  {
    var rows, left := kept + rest, kept + rest[1..];
    assert rows == kept + [rest[0]] + rest[1..];
    WithoutOne(kept, rest[0], rest[1..]);
    forall i, j | 0 <= i < j < |left| ensures left[i].id != left[j].id {
      var i', j' := if i < |kept| then i else i + 1, if j < |kept| then j else j + 1;
      assert rows[i'] == left[i] && rows[j'] == left[j];
    }
  }

  lemma DropFirst(start: seq<Entry>, first: Table, kept: seq<Entry>, rest: seq<Entry>, table: Table)
    requires Between(start, first, kept, rest, table) && rest != []
    ensures var table' := SaveIfFree(table, rest[0].record);
            && Between(start, first, kept, rest[1..], table')
            && Between(start, first, kept + [rest[0]], rest[1..], table')
            && Settled(kept + rest, table') == Settled(start, first)
  {
    var table' := SaveIfFree(table, rest[0].record);
    DistinctWithout(kept, rest);
    assert kept + rest == kept + [rest[0]] + rest[1..];
    BetweenSettled(start, first, kept + [rest[0]], rest[1..], table');
  }

  /** How saving and acknowledging one entry goes, and whether recovery stops there: a
      duplicate is acknowledged without saving, and not stopped for if that fails. */
  function Handled(table: Table, e: Entry, fault: Fault): (r: (SaveResult, Option<Outcome>))
  {
    if fault.DiesBeforeSave? then (Failed, Some(Died))
    else if fault.SaveFails? then (Failed, Some(SaveError))
    else
      var result := if SlotOf(e.record) in table then Duplicate else Saved;
      if fault.DiesAfterSave? then (result, Some(Died))
      else if fault.AckFails? && result.Saved? then (result, Some(AckError))
      else (result, None)
  }

  /** What one entry does to the rows and the table. */
  ghost predicate Effect(rows: seq<Entry>, table: Table, e: Entry, fault: Fault,
                         saved: SaveResult, acked: bool, stop: Option<Outcome>, rows': seq<Entry>, table': Table) {
    && (saved, stop) == Handled(table, e, fault)
    && table' == (if saved.Saved? then SaveIfFree(table, e.record) else table)
    && (acked <==> stop.None? && !fault.AckFails?)
    && rows' == if acked then Without(rows, e.id) else rows
  }

  function Counted(r: RecoverResult, saved: SaveResult, acked: bool): RecoverResult {
    if saved.Saved? then r.(replayed := r.replayed + 1)
    else if acked then r.(skipped := r.skipped + 1)
    else r.(ackErrors := r.ackErrors + 1)
  }

  /** The state of recovery before entry `i`. */
  ghost predicate At(start: seq<Entry>, first: Table, kept: seq<Entry>, i: nat, rows: seq<Entry>, table: Table,
      r: RecoverResult) {
    && i <= |start| && rows == kept + start[i..] && Between(start, first, kept, start[i..], table)
    && r.replayed + r.skipped + r.ackErrors == i && |kept| == r.ackErrors
    && |table| == |first| + r.replayed
  }

  lemma EntryAcked(start: seq<Entry>, first: Table, kept: seq<Entry>, i: nat, rows: seq<Entry>, table: Table,
      r: RecoverResult)
    requires At(start, first, kept, i, rows, table, r) && i < |start|
    ensures var saved := if SlotOf(start[i].record) in table then Duplicate else Saved;
            At(start, first, kept, i + 1, Without(rows, start[i].id), SaveIfFree(table, start[i].record),
               Counted(r, saved, true))
  {
    var rest := start[i..];
    assert rest[0] == start[i] && rest[1..] == start[i + 1..];
    DropFirst(start, first, kept, rest, table);
    DistinctWithout(kept, rest);
  }

  lemma Regrouped(kept: seq<Entry>, rest: seq<Entry>)
    requires rest != []
    ensures kept + rest == kept + [rest[0]] + rest[1..]
  {
  }

  lemma EntryKept(start: seq<Entry>, first: Table, kept: seq<Entry>, i: nat, rows: seq<Entry>, table: Table,
      r: RecoverResult)
    requires At(start, first, kept, i, rows, table, r) && i < |start| && SlotOf(start[i].record) in table
    ensures At(start, first, kept + [start[i]], i + 1, rows, table, Counted(r, Duplicate, false))
  {
    var rest := start[i..];
    assert rest[0] == start[i] && rest[1..] == start[i + 1..];
    assert SaveIfFree(table, rest[0].record) == table;
    Regrouped(kept, rest);
    DropFirst(start, first, kept, rest, table);
  }

  lemma EntryStops(start: seq<Entry>, first: Table, kept: seq<Entry>, i: nat, rows: seq<Entry>, table: Table,
      r: RecoverResult)
    requires At(start, first, kept, i, rows, table, r) && i < |start|
    ensures Stopped(start, first, rows, table) && Stopped(start, first, rows, SaveIfFree(table, start[i].record))
  {
    var rest := start[i..];
    BetweenSettled(start, first, kept, rest, table);
    DropFirst(start, first, kept, rest, table);
  }

  /** What holds wherever recovery stops. */
  ghost predicate Stopped(start: seq<Entry>, first: Table, rows: seq<Entry>, table: Table) {
    Distinct(rows) && Keeps(first, table) && Settled(rows, table) == Settled(start, first)
  }

  lemma OneEntry(start: seq<Entry>, first: Table, kept: seq<Entry>, i: nat, rows: seq<Entry>, table: Table,
      r: RecoverResult, fault: Fault, saved: SaveResult, acked: bool, stop: Option<Outcome>, rows': seq<Entry>,
      table': Table)
    requires At(start, first, kept, i, rows, table, r) && i < |start|
    requires Effect(rows, table, start[i], fault, saved, acked, stop, rows', table')
    ensures stop.Some? ==> Recovered(start, first, rows', table', r, stop.value)
    ensures fault.NoFault? ==> stop.None? && acked
    ensures stop.None? ==>
              At(start, first, if acked then kept else kept + [start[i]], i + 1, rows', table',
                 Counted(r, saved, acked))
  {
    if stop.None? {
      if acked {
        EntryAcked(start, first, kept, i, rows, table, r);
      } else {
        EntryKept(start, first, kept, i, rows, table, r);
      }
    } else {
      EntryStops(start, first, kept, i, rows, table, r);
    }
  }

  lemma AtEnd(start: seq<Entry>, first: Table, kept: seq<Entry>, rows: seq<Entry>, table: Table, r: RecoverResult)
    requires At(start, first, kept, |start|, rows, table, r)
    ensures rows == kept && Recovered(start, first, rows, table, r, Complete)
  {
    assert start[|start|..] == [] && kept + [] == kept;
    BetweenSettled(start, first, kept, [], table);
  }

  /** A complete run: every row is in the table and accounted for, and only the rows
      counted as acknowledgement errors stay logged. */
  ghost predicate Finished(start: seq<Entry>, first: Table, rows: seq<Entry>, table: Table, r: RecoverResult) {
    && table == Settled(start, first)
    && r.replayed + r.skipped + r.ackErrors == |start|
    && |rows| == r.ackErrors && Present(rows, table)
    && |table| == |first| + r.replayed
  }

  ghost predicate Recovered(start: seq<Entry>, first: Table, rows: seq<Entry>, table: Table, r: RecoverResult,
      outcome: Outcome) {
    Stopped(start, first, rows, table) && (outcome.Complete? ==> Finished(start, first, rows, table, r))
  }

  // ----- Where recovery stops, and what it leaves, row by row -----

  /** The slot of row `i` is free when recovery comes to it. */
  predicate FreeAt(start: seq<Entry>, first: Table, i: nat)
    requires i < |start|
  {
    SlotOf(start[i].record) !in Settled(start[..i], first)
  }

  /** Whether recovery stops at row `i`, and as what: failing to acknowledge a row stops it
      only if it has just saved that row. */
  function StopAt(start: seq<Entry>, first: Table, faults: nat -> Fault, i: nat): Option<Outcome>
    requires i < |start|
  {
    match faults(i)
    case NoFault => None
    case DiesBeforeSave => Some(Died)
    case SaveFails => Some(SaveError)
    case DiesAfterSave => Some(Died)
    case AckFails => if FreeAt(start, first, i) then Some(AckError) else None
  }

  /** Of the first `n` rows, those that recovery passed over without acknowledging them. */
  function StillLogged(start: seq<Entry>, first: Table, faults: nat -> Fault, n: nat): seq<Entry>
    requires n <= |start|
  {
    if n == 0 then []
    else
      StillLogged(start, first, faults, n - 1) +
      if faults(n - 1).AckFails? && !FreeAt(start, first, n - 1) then [start[n - 1]] else []
  }

  /** The first `n` rows, each counted once: saved, found saved, or found saved and not acknowledged. */
  function Tally(start: seq<Entry>, first: Table, faults: nat -> Fault, n: nat): RecoverResult
    requires n <= |start|
  {
    if n == 0 then RecoverResult(0, 0, 0)
    else
      var r := Tally(start, first, faults, n - 1);
      if FreeAt(start, first, n - 1) then RecoverResult(r.replayed + 1, r.skipped, r.ackErrors)
      else if faults(n - 1).AckFails? then RecoverResult(r.replayed, r.skipped, r.ackErrors + 1)
      else RecoverResult(r.replayed, r.skipped + 1, r.ackErrors)
  }

  /** Recovery has gone through the first `n` rows. */
  ghost predicate Through(start: seq<Entry>, first: Table, faults: nat -> Fault, n: nat, rows: seq<Entry>, table: Table,
      r: RecoverResult) {
    && n <= |start| && (forall i :: 0 <= i < n ==> StopAt(start, first, faults, i) == None)
    && rows == StillLogged(start, first, faults, n) + start[n..]
    && table == Settled(start[..n], first) && r == Tally(start, first, faults, n)
  }

  /** Recovery ended at row `n`, the first at which it stops, or behind the last one. */
  ghost predicate Ended(start: seq<Entry>, first: Table, faults: nat -> Fault, n: nat, rows: seq<Entry>, table: Table,
      r: RecoverResult, outcome: Outcome) {
    && n <= |start| && (forall i :: 0 <= i < n ==> StopAt(start, first, faults, i) == None)
    && rows == StillLogged(start, first, faults, n) + start[n..] && r == Tally(start, first, faults, n)
    && if n == |start| then outcome == Complete && table == Settled(start, first)
       else
         && StopAt(start, first, faults, n) == Some(outcome)
         && table == Settled(start[..if faults(n).DiesAfterSave? || faults(n).AckFails? then n + 1 else n], first)
  }

  lemma {:induction false} SettledSnoc(rows: seq<Entry>, e: Entry, table: Table)
    ensures Settled(rows + [e], table) == SaveIfFree(Settled(rows, table), e.record)
    decreases |rows|
  {
    if rows == [] {
      assert rows + [e] == [e] && [e][1..] == [];
    } else {
      assert (rows + [e])[0] == rows[0] && (rows + [e])[1..] == rows[1..] + [e];
      SettledSnoc(rows[1..], e, SaveIfFree(table, rows[0].record));
    }
  }

  lemma RowDone(start: seq<Entry>, first: Table, n: nat, table: Table)
    requires n < |start| && table == Settled(start[..n], first)
    ensures SaveIfFree(table, start[n].record) == Settled(start[..n + 1], first)
    ensures FreeAt(start, first, n) <==> SlotOf(start[n].record) !in table
  {
    assert start[..n + 1] == start[..n] + [start[n]];
    SettledSnoc(start[..n], start[n], first);
  }

  lemma RowGone(kept: seq<Entry>, start: seq<Entry>, n: nat)
    requires n < |start| && Distinct(kept + start[n..])
    ensures Without(kept + start[n..], start[n].id) == kept + start[n + 1..]
    ensures kept + start[n..] == kept + [start[n]] + start[n + 1..]
  {
    var rest := start[n..];
    assert rest[0] == start[n] && rest[1..] == start[n + 1..];
    DistinctWithout(kept, rest);
    Regrouped(kept, rest);
  }

  lemma ThroughNext(start: seq<Entry>, first: Table, faults: nat -> Fault, n: nat, rows: seq<Entry>, table: Table,
      r: RecoverResult, saved: SaveResult, acked: bool, rows': seq<Entry>, table': Table)
    requires Through(start, first, faults, n, rows, table, r) && n < |start| && Distinct(rows)
    requires Effect(rows, table, start[n], faults(n), saved, acked, None, rows', table')
    ensures Through(start, first, faults, n + 1, rows', table', Counted(r, saved, acked))
  {
    RowDone(start, first, n, table);
    RowGone(StillLogged(start, first, faults, n), start, n);
  }

  lemma ThroughStops(start: seq<Entry>, first: Table, faults: nat -> Fault, n: nat, rows: seq<Entry>, table: Table,
      r: RecoverResult, saved: SaveResult, acked: bool, outcome: Outcome, rows': seq<Entry>, table': Table)
    requires Through(start, first, faults, n, rows, table, r) && n < |start|
    requires Effect(rows, table, start[n], faults(n), saved, acked, Some(outcome), rows', table')
    ensures Ended(start, first, faults, n, rows', table', r, outcome)
  {
    RowDone(start, first, n, table);
  }

  ghost predicate Faultless(faults: nat -> Fault) {
    forall i :: faults(i).NoFault?
  }

  class WAL {
    var rows: seq<Entry>

    constructor ()
      ensures rows == []
    {
      rows := [];
    }

    /** Inserts at the end; the primary key refuses an identifier that is logged already. */
    method Append(e: Entry) returns (ok: bool)
      modifies this
      ensures ok <==> !HasId(old(rows), e.id)
      ensures rows == if ok then old(rows) + [e] else old(rows)
      ensures old(Distinct(rows)) ==> Distinct(rows)
    {
      for i := 0 to |rows|
        invariant forall j :: 0 <= j < i ==> rows[j].id != e.id
        invariant rows == old(rows)
      {
        if rows[i].id == e.id { return false; }
      }
      rows := rows + [e];
      ok := true;
    }

    method Ack(id: string, fails: bool) returns (ok: bool)
      modifies this
      ensures ok == !fails && rows == if ok then Without(old(rows), id) else old(rows)
    {
      if fails { return false; }
      rows := Without(rows, id);
      ok := true;
    }

    /** Oldest first. */
    method Replay() returns (entries: seq<Entry>)
      ensures entries == rows
    {
      entries := rows;
    }

    /** One entry of the recovery loop. */
    method RecoverOne(writer: Writer, e: Entry, fault: Fault)
      returns (result: SaveResult, acked: bool, stop: Option<Outcome>)
      modifies this, writer
      ensures Effect(old(rows), old(writer.table), e, fault, result, acked, stop, rows, writer.table)
    {
      acked := false;
      if fault.DiesBeforeSave? { return Failed, false, Some(Died); }
      result := writer.Save(e.record, fault.SaveFails?);
      if result.Failed? { return result, false, Some(SaveError); }
      if fault.DiesAfterSave? { return result, false, Some(Died); }
      acked := Ack(e.id, fault.AckFails?);
      stop := if !acked && result.Saved? then Some(AckError) else None;
    }

    /** Recovery: stopped anywhere, it leaves what is logged and what is saved worth the
        same as before; run to the end, it brings every row into the table. */
    method Recover(writer: Writer, faults: nat -> Fault)
      returns (result: RecoverResult, outcome: Outcome, ghost reached: nat)
      requires Distinct(rows)
      modifies this, writer
      ensures Recovered(old(rows), old(writer.table), rows, writer.table, result, outcome)
      ensures Ended(old(rows), old(writer.table), faults, reached, rows, writer.table, result, outcome)
      ensures Faultless(faults) ==> outcome.Complete? && rows == []
    {
      var entries := Replay();
      result, reached := RecoverResult(0, 0, 0), 0;
      ghost var first: Table, kept: seq<Entry> := writer.table, [];
      assert entries[0..] == entries == [] + entries;
      for i := 0 to |entries|
        invariant reached == i && At(entries, first, kept, i, rows, writer.table, result)
        invariant Through(entries, first, faults, i, rows, writer.table, result)
        invariant Faultless(faults) ==> kept == []
      {
        ghost var rows0, table0 := rows, writer.table;
        var saved, acked, stop := RecoverOne(writer, entries[i], faults(i));
        OneEntry(entries, first, kept, i, rows0, table0, result, faults(i), saved, acked, stop, rows, writer.table);
        if stop.Some? {
          ThroughStops(entries, first, faults, i, rows0, table0, result, saved, acked, stop.value, rows, writer.table);
          return result, stop.value, i;
        }
        ThroughNext(entries, first, faults, i, rows0, table0, result, saved, acked, rows, writer.table);
        result, reached := Counted(result, saved, acked), i + 1;
        kept := if acked then kept else kept + [entries[i]];
      }
      AtEnd(entries, first, kept, rows, writer.table, result);
      assert entries[..|entries|] == entries;
      outcome := Complete;
    }

    /** Any number of interrupted runs, then one that completes: the same table as one
        run without interruption. */
    method RecoverUntilComplete(writer: Writer, faults: seq<nat -> Fault>) returns (complete: bool)
      requires Distinct(rows)
      modifies this, writer
      ensures Keeps(old(writer.table), writer.table)
      ensures complete ==> writer.table == Settled(old(rows), old(writer.table))
    {
      for i := 0 to |faults|
        invariant Stopped(old(rows), old(writer.table), rows, writer.table)
      {
        var result, outcome, _ := Recover(writer, faults[i]);
        if outcome.Complete? { return true; }
      }
      complete := false;
    }
  }

  // ----- What Version logs -----

  /** The entry logged before a version is queued: entity type and identifier, no more. */
  function Announcement(id: string, entityType: string, entityID: string): Entry {
    Entry(id, Record("", entityType, entityID, 0, Full, Nil, None, "", ""))
  }

  ghost predicate Announced(rows: seq<Entry>) {
    forall i :: 0 <= i < |rows| ==>
      rows[i] == Announcement(rows[i].id, rows[i].record.entityType, rows[i].record.entityID)
  }

  /** Recovery of such entries restores no version: at most it adds an empty record
      numbered 0 for each entity named. */
  lemma AnnouncementsRestoreNothing(rows: seq<Entry>, table: Table)
    requires Announced(rows)
    ensures forall s: Slot :: s.version != 0 ==> (s in Settled(rows, table) <==> s in table)
    ensures forall s: Slot :: s in Settled(rows, table) && s !in table ==>
              s.version == 0 && Settled(rows, table)[s] == Announcement("", s.entityType, s.entityID).record
  {
    SettledKeeps(rows, table);
  }
}
