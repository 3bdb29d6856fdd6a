/** MangoTelephonyService.sync_lines over a table of line objects. */
module MangoSync {
  import opened Seqs
  import opened MangoModel

  class TelephonyLine {
    const providerResourceId: string
    var phone: string
    var schema: Option<string>
    var display: Option<string>
    var extension: Option<string>
    var isActive: bool
    var inbound: bool
    var outbound: bool
    var raw: Payload
    var syncedAt: Option<int>

    function Value(): Line
      reads this
    {
      Line(phone, schema, display, extension, isActive, inbound, outbound, raw, syncedAt)
    }

    constructor (id: string)
      ensures providerResourceId == id && Value() == BLANK
    {
      providerResourceId := id;
      phone, schema, display, extension := "", None, None, None;
      isActive, inbound, outbound, raw, syncedAt := false, false, false, map[], None;
    }

    method Update(r: RemoteLine, m: Option<Extension>, now: int)
      modifies this
      ensures Value() == Updated(old(Value()), r, m, now)
    {
      var remembered := Remembered(raw);
      phone := r.phone;
      schema := r.schema;
      display := Or(Or(r.display, r.schema), Some(r.phone));
      extension := Or(r.extension, if m.Some? then Some(m.value.extension) else extension);
      isActive := r.isActive;
      inbound := r.inbound;
      outbound := r.outbound || m.Some? || Truthy(extension);
      raw := r.raw;
      if m.Some? {
        raw := SetDefault(raw, MATCHED, Object(m.value.raw));
      } else if remembered.Some? {
        raw := SetDefault(raw, MATCHED, Object(remembered.value));
      }
      syncedAt := Some(now);
    }

    method SwitchOff(now: int)
      modifies this`isActive, this`syncedAt
      ensures Value() == old(Value()).(isActive := false, syncedAt := Some(now))
    {
      isActive := false;
      syncedAt := Some(now);
    }
  }

  class LineTable {
    var rows: map<string, TelephonyLine>

    ghost predicate Valid()
      reads this, rows.Values
    {
      forall id <- rows :: rows[id].providerResourceId == id
    }

    ghost function Contents(): Inventory
      reads this, rows.Values
    {
      map id <- rows :: rows[id].Value()
    }

    constructor ()
      ensures Valid() && rows == map[]
    {
      rows := map[];
    }

    /** Every row once, in some order. */
    method ListLines() returns (lines: seq<TelephonyLine>)
      requires Valid()
      ensures forall line <- lines :: line.providerResourceId in rows && rows[line.providerResourceId] == line
      ensures forall id <- rows :: rows[id] in lines
      ensures forall i, j :: 0 <= i < j < |lines| ==> lines[i] != lines[j]
    {
      lines := [];
      var left := rows.Keys;
      while left != {}
        invariant left <= rows.Keys
        invariant forall line <- lines ::
                    line.providerResourceId in rows.Keys - left && rows[line.providerResourceId] == line
        invariant forall id <- rows :: id !in left ==> rows[id] in lines
        invariant forall i, j :: 0 <= i < j < |lines| ==> lines[i] != lines[j]
        decreases left
      {
        var id :| id in left;
        lines := lines + [rows[id]];
        left := left - {id};
      }
    }
  }

  lemma ContentsEmpty(table: LineTable)
    ensures table.Contents() == map[] <==> table.rows == map[]
  {
    assert table.Contents().Keys == table.rows.Keys;
  }

  /** No row is removed or replaced. */
  ghost predicate KeepsRows(before: map<string, TelephonyLine>, after: map<string, TelephonyLine>) {
    forall id :: id in before ==> id in after && after[id] == before[id]
  }

  ghost predicate Indexed(extensions: seq<Extension>, byLine: map<string, Extension>, byPhone: map<string, Extension>) {
    && (forall id :: LastByLine(extensions, id) == if id in byLine then Some(byLine[id]) else None)
    && (forall phone :: LastByPhone(extensions, phone) == if phone in byPhone then Some(byPhone[phone]) else None)
  }

  /** Dictionaries from line identifier and line phone to the last extension that names them. */
  method IndexExtensions(extensions: seq<Extension>)
    returns (byLine: map<string, Extension>, byPhone: map<string, Extension>)
    ensures Indexed(extensions, byLine, byPhone)
  {
    byLine, byPhone := map[], map[];
    for i := 0 to |extensions|
      invariant Indexed(extensions[..i], byLine, byPhone)
    {
      var item := extensions[i];
      assert extensions[..i + 1][..i] == extensions[..i];
      if Truthy(item.lineId) {
        byLine := byLine[item.lineId.value := item];
      }
      if Truthy(item.linePhone) {
        byPhone := byPhone[item.linePhone.value := item];
      }
    }
    assert extensions[..|extensions|] == extensions;
  }

  class MangoTelephonyService {
    const table: LineTable
    const configured: bool
    /** Which phone numbers belong to this installation. */
    const allowed: string -> bool

    constructor (table: LineTable, configured: bool, allowed: string -> bool)
      ensures this.table == table && this.configured == configured && this.allowed == allowed
    {
      this.table, this.configured, this.allowed := table, configured, allowed;
    }

    /** The cached lines of allowed numbers, each once. */
    method ListLines() returns (items: seq<TelephonyLine>)
      requires table.Valid()
      ensures forall line <- items ::
                && line.providerResourceId in table.rows && table.rows[line.providerResourceId] == line
                && allowed(line.phone)
      ensures forall id <- table.rows :: allowed(table.rows[id].phone) ==> table.rows[id] in items
      ensures forall i, j :: 0 <= i < j < |items| ==> items[i] != items[j]
    {
      var lines := table.ListLines();
      items := [];
      for k := 0 to |lines|
        invariant forall line <- items :: line in lines[..k] && allowed(line.phone)
        invariant forall j :: 0 <= j < k && allowed(lines[j].phone) ==> lines[j] in items
        invariant forall i, j :: 0 <= i < j < |items| ==> items[i] != items[j]
      {
        if allowed(lines[k].phone) {
          items := items + [lines[k]];
        }
      }
    }

    method UpdateRow(line: TelephonyLine, r: RemoteLine, m: Option<Extension>, now: int)
      requires table.Valid() && r.id in table.rows && table.rows[r.id] == line
      modifies line
      ensures table.Valid()
      ensures table.Contents() == old(table.Contents())[r.id := Updated(old(table.Contents())[r.id], r, m, now)]
    {
      line.Update(r, m, now);
    }

    method InsertRow(r: RemoteLine, m: Option<Extension>, now: int)
      requires table.Valid() && r.id !in table.rows
      modifies table
      ensures table.Valid() && fresh(table.rows.Values - old(table.rows.Values))
      ensures KeepsRows(old(table.rows), table.rows)
      ensures table.Contents() == old(table.Contents())[r.id := Updated(BLANK, r, m, now)]
    {
      var line := new TelephonyLine(r.id);
      line.Update(r, m, now);
      AddRow(line);
    }

    method AddRow(line: TelephonyLine)
      requires table.Valid() && line.providerResourceId !in table.rows && line !in table.rows.Values
      modifies table
      ensures table.Valid() && table.rows == old(table.rows)[line.providerResourceId := line]
      ensures table.Contents() == old(table.Contents())[line.providerResourceId := line.Value()]
    {
      table.rows := table.rows[line.providerResourceId := line];
    }

    /** Updates the known line or inserts a new one; false if the table already has a line that is not known. */
    method SaveRemote(known: map<string, TelephonyLine>, r: RemoteLine, m: Option<Extension>, now: int)
      returns (ok: bool)
      requires table.Valid() && KeepsRows(known, table.rows)
      modifies table, table.rows.Values
      ensures table.Valid() && fresh(table.rows.Values - old(table.rows.Values))
      ensures KeepsRows(old(table.rows), table.rows)
      ensures ok <==> r.id in known || r.id !in old(table.rows)
      ensures table.Contents() == if ok then Saved(old(table.Contents()), r, m, now) else old(table.Contents())
    {
      if r.id in known {
        UpdateRow(known[r.id], r, m, now);
        ok := true;
      } else if r.id in table.rows {
        ok := false;
      } else {
        InsertRow(r, m, now);
        ok := true;
      }
    }

    method FindMatch(byLine: map<string, Extension>, byPhone: map<string, Extension>, r: RemoteLine,
                     ghost extensions: seq<Extension>) returns (m: Option<Extension>)
      requires Indexed(extensions, byLine, byPhone)
      ensures m == Match(extensions, r)
    {
      m := if r.id in byLine then Some(byLine[r.id])
           else if r.phone in byPhone then Some(byPhone[r.phone]) else None;
    }

    /** The next remote line, when those before it have been applied to `base`. */
    method SaveNext(known: map<string, TelephonyLine>, remotes: seq<RemoteLine>, i: nat, m: Option<Extension>, now: int,
                    ghost base: Inventory, ghost extensions: seq<Extension>) returns (ok: bool)
      requires table.Valid() && KeepsRows(known, table.rows)
      requires i < |remotes| && m == Match(extensions, remotes[i])
      requires Applied(known.Keys, base, remotes[..i], extensions, now) == Some(table.Contents())
      modifies table, table.rows.Values
      ensures table.Valid() && fresh(table.rows.Values - old(table.rows.Values)) && KeepsRows(known, table.rows)
      ensures Applied(known.Keys, base, remotes[..i + 1], extensions, now)
              == if ok then Some(table.Contents()) else None
      ensures !ok ==> table.Contents() == old(table.Contents())
    {
      AppliedNext(known.Keys, base, remotes, extensions, now, i);
      ok := SaveRemote(known, remotes[i], m, now);
    }

    /** Matches and saves it; if that fails nothing more is applied. */
    method SaveOrStop(known: map<string, TelephonyLine>, remotes: seq<RemoteLine>, i: nat,
                      byLine: map<string, Extension>, byPhone: map<string, Extension>, now: int,
                      ghost base: Inventory, ghost extensions: seq<Extension>)
      returns (ok: bool)
      requires table.Valid() && KeepsRows(known, table.rows)
      requires i < |remotes| && Indexed(extensions, byLine, byPhone)
      requires Applied(known.Keys, base, remotes[..i], extensions, now) == Some(table.Contents())
      modifies table, table.rows.Values
      ensures table.Valid() && fresh(table.rows.Values - old(table.rows.Values)) && KeepsRows(known, table.rows)
      ensures ok ==> Applied(known.Keys, base, remotes[..i + 1], extensions, now) == Some(table.Contents())
      ensures !ok ==> Applied(known.Keys, base, remotes, extensions, now) == None
      ensures !ok ==> AppliedUpTo(known.Keys, base, remotes, extensions, now) == table.Contents()
    {
      var m := FindMatch(byLine, byPhone, remotes[i], extensions);
      ok := SaveNext(known, remotes, i, m, now, base, extensions);
      if !ok {
        StopsHere(known.Keys, base, remotes, extensions, now, i);
      }
    }

    /** The remote lines in turn. */
    method SaveAll(known: map<string, TelephonyLine>, remotes: seq<RemoteLine>, extensions: seq<Extension>, now: int)
      returns (ok: bool)
      requires table.Valid() && known == table.rows
      modifies table, table.rows.Values
      ensures table.Valid() && fresh(table.rows.Values - old(table.rows.Values)) && KeepsRows(known, table.rows)
      ensures ok == Applied(known.Keys, old(table.Contents()), remotes, extensions, now).Some?
      ensures table.Contents() == AppliedUpTo(known.Keys, old(table.Contents()), remotes, extensions, now)
    {
      var byLine, byPhone := IndexExtensions(extensions);
      ghost var base := table.Contents();
      assert remotes[..0] == [];
      for i := 0 to |remotes|
        invariant table.Valid() && fresh(table.rows.Values - old(table.rows.Values)) && KeepsRows(known, table.rows)
        invariant Applied(known.Keys, base, remotes[..i], extensions, now) == Some(table.Contents())
      {
        var saved := SaveOrStop(known, remotes, i, byLine, byPhone, now, base, extensions);
        if !saved {
          return false;
        }
      }
      assert remotes[..|remotes|] == remotes;
      ok := true;
    }

    /** Switches one line off if it is on. */
    method SwitchOff(line: TelephonyLine, ghost done: set<string>, ghost before: Inventory, now: int)
      returns (changed: bool)
      requires table.Valid() && line.providerResourceId in table.rows && table.rows[line.providerResourceId] == line
      requires table.Contents() == Deactivated(before, done, now) && line.providerResourceId !in done
      modifies line
      ensures table.Valid()
      ensures var more := done + {line.providerResourceId};
              && table.Contents() == Deactivated(before, more, now)
              && |ActiveAmong(before, more)| == |ActiveAmong(before, done)| + if changed then 1 else 0
    {
      assert table.Contents()[line.providerResourceId] == line.Value();
      DeactivatedMore(before, done, line.providerResourceId, now);
      changed := line.isActive;
      if changed {
        TurnOff(line, now);
      }
    }

    method TurnOff(line: TelephonyLine, now: int)
      requires table.Valid() && line.providerResourceId in table.rows && table.rows[line.providerResourceId] == line
      modifies line
      ensures table.Valid()
      ensures var before, id := old(table.Contents()), line.providerResourceId;
              table.Contents() == before[id := before[id].(isActive := false, syncedAt := Some(now))]
    {
      line.SwitchOff(now);
    }

    /** Switches off the lines that were not seen. */
    method DeactivateStale(existing: seq<TelephonyLine>, seen: set<string>, now: int) returns (count: nat)
      requires table.Valid()
      requires forall line <- existing ::
                 line.providerResourceId in table.rows && table.rows[line.providerResourceId] == line
      requires forall i, j :: 0 <= i < j < |existing| ==> existing[i] != existing[j]
      modifies table.rows.Values
      ensures table.Valid()
      ensures var before := old(table.Contents()); var stale := ResourceIds(existing) - seen;
              table.Contents() == Deactivated(before, stale, now) && count == |ActiveAmong(before, stale)|
    {
      count := 0;
      ghost var before, done := table.Contents(), {};
      for i := 0 to |existing|
        invariant table.Valid()
        invariant done == ResourceIds(existing[..i]) - seen
        invariant table.Contents() == Deactivated(before, done, now) && count == |ActiveAmong(before, done)|
      {
        var line := existing[i];
        IdsSnoc(existing, i);
        NewId(table, existing, i);
        if line.providerResourceId !in seen {
          var changed := SwitchOff(line, done, before, now);
          count := if changed then count + 1 else count;
          done := done + {line.providerResourceId};
        }
      }
      assert existing[..|existing|] == existing;
    }

    /** The lines are listed after a sync that succeeds; extensions that could not be fetched count as none. */
    method SyncLines(remote: Option<seq<RemoteLine>>, extensions: Option<seq<Extension>>, now: int)
      returns (result: SyncResult, items: seq<TelephonyLine>)
      requires table.Valid()
      modifies table, table.rows.Values
      ensures table.Valid()
      ensures KeepsRows(old(table.rows), table.rows)
      ensures (result, table.Contents())
              == Outcome(configured, old(table.Contents()), remote,
                         if extensions.Some? then extensions.value else [], now)
      ensures !result.Synced? ==> items == []
      ensures forall line <- items ::
                && line.providerResourceId in table.rows && table.rows[line.providerResourceId] == line
                && allowed(line.phone)
      ensures result.Synced? ==> forall id <- table.rows :: allowed(table.rows[id].phone) ==> table.rows[id] in items
      ensures forall i, j :: 0 <= i < j < |items| ==> items[i] != items[j]
    {
      result := Synchronise(remote, extensions, now);
      items := [];
      if result.Synced? {
        items := ListLines();
      }
    }

    method Synchronise(remote: Option<seq<RemoteLine>>, extensions: Option<seq<Extension>>, now: int)
      returns (result: SyncResult)
      requires table.Valid()
      modifies table, table.rows.Values
      ensures table.Valid()
      ensures KeepsRows(old(table.rows), table.rows)
      ensures (result, table.Contents())
              == Outcome(configured, old(table.Contents()), remote,
                         if extensions.Some? then extensions.value else [], now)
    {
      if !configured {
        return NotConfigured;
      }
      if remote.None? {
        return RemoteUnavailable;
      }
      var remotes := remote.value;
      ContentsEmpty(table);
      if remotes == [] && table.rows != map[] {
        return NoParseableLines;
      }
      var existing := table.ListLines();
      var known := table.rows;
      assert table.Contents().Keys == known.Keys;
      var saved := SaveAll(known, remotes, if extensions.Some? then extensions.value else [], now);
      if !saved {
        return DuplicateLine;
      }
      IdsOfAll(existing, known);
      var deactivated := DeactivateStale(existing, RemoteIds(remotes), now);
      result := Synced(|remotes|, deactivated);
    }
  }

  function ResourceIds(lines: seq<TelephonyLine>): set<string> {
    set line <- lines :: line.providerResourceId
  }

  lemma IdsSnoc(lines: seq<TelephonyLine>, i: nat)
    requires i < |lines|
    ensures ResourceIds(lines[..i + 1]) == ResourceIds(lines[..i]) + {lines[i].providerResourceId}
  {
    assert lines[..i + 1] == lines[..i] + [lines[i]];
  }

  lemma NewId(table: LineTable, lines: seq<TelephonyLine>, i: nat)
    requires i < |lines| && forall a, b :: 0 <= a < b < |lines| ==> lines[a] != lines[b]
    requires forall line <- lines ::
               line.providerResourceId in table.rows && table.rows[line.providerResourceId] == line
    ensures lines[i].providerResourceId !in ResourceIds(lines[..i])
  {
  }

  lemma IdsOfAll(lines: seq<TelephonyLine>, rows: map<string, TelephonyLine>)
    requires forall line <- lines :: line.providerResourceId in rows && rows[line.providerResourceId] == line
    requires forall id <- rows :: rows[id] in lines && rows[id].providerResourceId == id
    ensures ResourceIds(lines) == rows.Keys
  {
  }

  lemma AppliedNext(
    known: set<string>, lines: Inventory, remotes: seq<RemoteLine>, extensions: seq<Extension>, now: int, i: nat)
    requires i < |remotes| && Applied(known, lines, remotes[..i], extensions, now).Some?
    ensures var sofar := Applied(known, lines, remotes[..i], extensions, now).value; var r := remotes[i];
            Applied(known, lines, remotes[..i + 1], extensions, now)
            == if r.id !in known && r.id in sofar then None else Some(Saved(sofar, r, Match(extensions, r), now))
  {
    assert remotes[..i + 1][..i] == remotes[..i];
  }

  lemma {:induction false} AppliedStuck(
    known: set<string>, lines: Inventory, remotes: seq<RemoteLine>, extensions: seq<Extension>, now: int, n: nat)
    requires n <= |remotes| && Applied(known, lines, remotes[..n], extensions, now) == None
    ensures Applied(known, lines, remotes, extensions, now) == None
    ensures AppliedUpTo(known, lines, remotes, extensions, now)
            == AppliedUpTo(known, lines, remotes[..n], extensions, now)
  {
    if n < |remotes| {
      assert remotes[..|remotes| - 1][..n] == remotes[..n];
      AppliedStuck(known, lines, remotes[..|remotes| - 1], extensions, now, n);
    } else {
      assert remotes[..n] == remotes;
    }
  }

  lemma StopsHere(known: set<string>, lines: Inventory, remotes: seq<RemoteLine>, extensions: seq<Extension>,
                  now: int, i: nat)
    requires i < |remotes| && Applied(known, lines, remotes[..i], extensions, now).Some?
    requires Applied(known, lines, remotes[..i + 1], extensions, now).None?
    ensures Applied(known, lines, remotes, extensions, now) == None
    ensures Some(AppliedUpTo(known, lines, remotes, extensions, now))
            == Applied(known, lines, remotes[..i], extensions, now)
  {
    AppliedStuck(known, lines, remotes, extensions, now, i + 1);
    assert remotes[..i + 1][..i] == remotes[..i];
  }

  lemma DeactivatedMore(lines: Inventory, done: set<string>, id: string, now: int)
    requires id in lines && id !in done
    ensures var before, after := Deactivated(lines, done, now), Deactivated(lines, done + {id}, now);
            && before[id] == lines[id]
            && (if lines[id].isActive then
                  && after == before[id := lines[id].(isActive := false, syncedAt := Some(now))]
                  && |ActiveAmong(lines, done + {id})| == |ActiveAmong(lines, done)| + 1
                else after == before && ActiveAmong(lines, done + {id}) == ActiveAmong(lines, done))
  {
    if lines[id].isActive {
      assert ActiveAmong(lines, done + {id}) == ActiveAmong(lines, done) + {id};
    } else {
      assert ActiveAmong(lines, done + {id}) == ActiveAmong(lines, done);
    }
  }

  /**
   The answer to one sync request and the inventory it leaves. After a repeated new identifier these are the rows
   written so far, in a transaction that the caller rolls back.
   */
  function Outcome(configured: bool, lines: Inventory, remote: Option<seq<RemoteLine>>, extensions: seq<Extension>,
                   now: int)
    : (SyncResult, Inventory)
  {
    if !configured then (NotConfigured, lines)
    else if remote.None? then (RemoteUnavailable, lines)
    else if remote.value == [] && lines != map[] then (NoParseableLines, lines)
    else
      match Applied(lines.Keys, lines, remote.value, extensions, now)
      case None => (DuplicateLine, AppliedUpTo(lines.Keys, lines, remote.value, extensions, now))
      case Some(after) =>
        var stale := lines.Keys - RemoteIds(remote.value);
        (Synced(|remote.value|, |ActiveAmong(after, stale)|), Deactivated(after, stale, now))
  }
}
