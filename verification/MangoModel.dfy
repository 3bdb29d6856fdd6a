/** Remote lines, extensions and cached lines of the Mango inventory, and what one remote line makes of a cached one. */
module MangoModel {
  import opened Seqs

  /** JSON values, as far as the sync tells them apart: objects and everything else. */
  datatype Json = Scalar(text: string) | Object(fields: map<string, Json>)

  type Payload = map<string, Json>

  datatype RemoteLine = RemoteLine(
    id: string,
    phone: string,
    schema: Option<string>,
    display: Option<string>,
    extension: Option<string>,
    isActive: bool,
    inbound: bool,
    outbound: bool,
    raw: Payload)

  datatype Extension = Extension(
    id: string,
    extension: string,
    display: Option<string>,
    lineId: Option<string>,
    linePhone: Option<string>,
    raw: Payload)

  /** The fields of a cached line. */
  datatype Line = Line(
    phone: string,
    schema: Option<string>,
    display: Option<string>,
    extension: Option<string>,
    isActive: bool,
    inbound: bool,
    outbound: bool,
    raw: Payload,
    syncedAt: Option<int>)

  const BLANK := Line("", None, None, None, false, false, false, map[], None)

  /** Python's `a or b`. */
  function Or(a: Option<string>, b: Option<string>): Option<string> {
    if Truthy(a) then a else b
  }

  const MATCHED := "matched_extension"

  /** The matched extension remembered in a payload, if it is an object. */
  function Remembered(raw: Payload): Option<Payload> {
    if MATCHED in raw && raw[MATCHED].Object? then Some(raw[MATCHED].fields) else None
  }

  /** A key that is there stays. */
  function SetDefault(raw: Payload, key: string, value: Json): Payload {
    if key in raw then raw else raw[key := value]
  }

  function NewExtension(previous: Option<string>, r: RemoteLine, m: Option<Extension>): Option<string> {
    Or(r.extension, if m.Some? then Some(m.value.extension) else previous)
  }

  function NewRaw(previous: Option<Payload>, r: RemoteLine, m: Option<Extension>): Payload {
    if m.Some? then SetDefault(r.raw, MATCHED, Object(m.value.raw))
    else if previous.Some? then SetDefault(r.raw, MATCHED, Object(previous.value))
    else r.raw
  }

  /** A cached line after one remote line; only its extension and remembered match survive from before. */
  function Updated(line: Line, r: RemoteLine, m: Option<Extension>, now: int): Line {
    var extension := NewExtension(line.extension, r, m);
    Line(r.phone, r.schema, Or(Or(r.display, r.schema), Some(r.phone)), extension, r.isActive, r.inbound,
         r.outbound || m.Some? || Truthy(extension), NewRaw(Remembered(line.raw), r, m), Some(now))
  }

  /** The last extension that names the line's identifier. */
  function LastByLine(extensions: seq<Extension>, id: string): Option<Extension> {
    if extensions == [] then None
    else
      var last := extensions[|extensions| - 1];
      if Truthy(last.lineId) && last.lineId.value == id then Some(last)
      else LastByLine(extensions[..|extensions| - 1], id)
  }

  function LastByPhone(extensions: seq<Extension>, phone: string): Option<Extension> {
    if extensions == [] then None
    else
      var last := extensions[|extensions| - 1];
      if Truthy(last.linePhone) && last.linePhone.value == phone then Some(last)
      else LastByPhone(extensions[..|extensions| - 1], phone)
  }

  function Match(extensions: seq<Extension>, r: RemoteLine): Option<Extension> {
    if LastByLine(extensions, r.id).Some? then LastByLine(extensions, r.id) else LastByPhone(extensions, r.phone)
  }

  // ---- A whole sync ----

  type Inventory = map<string, Line>

  function Prior(lines: Inventory, id: string): Line {
    if id in lines then lines[id] else BLANK
  }

  /** The inventory with one remote line written to its row. */
  function Saved(lines: Inventory, r: RemoteLine, m: Option<Extension>, now: int): Inventory {
    lines[r.id := Updated(Prior(lines, r.id), r, m, now)]
  }

  /**
   All remote lines in turn. `known` are the identifiers cached before the sync: a new identifier that comes
   twice is inserted twice, which the table's unique constraint refuses.
   */
  function Applied(known: set<string>, lines: Inventory, remotes: seq<RemoteLine>, extensions: seq<Extension>, now: int)
    : Option<Inventory>
  {
    if remotes == [] then Some(lines)
    else
      var n := |remotes| - 1;
      var r := remotes[n];
      match Applied(known, lines, remotes[..n], extensions, now)
      case None => None
      case Some(sofar) =>
        if r.id !in known && r.id in sofar then None
        else Some(Saved(sofar, r, Match(extensions, r), now))
  }

  /** The rows written before the first remote line that cannot be saved. */
  function AppliedUpTo(known: set<string>, lines: Inventory, remotes: seq<RemoteLine>, extensions: seq<Extension>,
                       now: int)
    : Inventory
    decreases |remotes|
  {
    match Applied(known, lines, remotes, extensions, now)
    case Some(after) => after
    case None => AppliedUpTo(known, lines, remotes[..|remotes| - 1], extensions, now)
  }

  function RemoteIds(remotes: seq<RemoteLine>): set<string> {
    set r <- remotes :: r.id
  }

  /** Known lines that are not among the remote ones are switched off. */
  function Deactivated(lines: Inventory, stale: set<string>, now: int): Inventory {
    map id <- lines ::
      if id in stale && lines[id].isActive then lines[id].(isActive := false, syncedAt := Some(now)) else lines[id]
  }

  function ActiveAmong(lines: Inventory, ids: set<string>): set<string> {
    set id <- lines.Keys * ids | lines[id].isActive
  }

  datatype SyncResult =
    | NotConfigured
    | RemoteUnavailable
    | NoParseableLines
    | DuplicateLine
    | Synced(synced: nat, deactivated: nat)
}
