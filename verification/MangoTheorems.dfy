/** What a sync makes of the inventory: an exact mirror, stable under repetition and under missing extension data. */
module MangoTheorems {
  import opened Seqs
  import opened MangoModel
  import opened MangoSync

  // ---- One identifier at a time ----

  /** The line of one identifier after the remote lines, the others left out. */
  function LineAfter(line: Line, remotes: seq<RemoteLine>, extensions: seq<Extension>, now: int, id: string): Line {
    if remotes == [] then line
    else
      var n := |remotes| - 1;
      var before := LineAfter(line, remotes[..n], extensions, now, id);
      if remotes[n].id == id then Updated(before, remotes[n], Match(extensions, remotes[n]), now) else before
  }

  predicate Names(remotes: seq<RemoteLine>, id: string) {
    exists i :: 0 <= i < |remotes| && remotes[i].id == id
  }

  /** A new identifier comes twice. */
  predicate RepeatsNewId(known: set<string>, remotes: seq<RemoteLine>) {
    exists i, j :: 0 <= i < j < |remotes| && remotes[i].id == remotes[j].id && remotes[i].id !in known
  }

  lemma NamesPrefix(remotes: seq<RemoteLine>, id: string)
    requires remotes != []
    ensures Names(remotes, id) <==> Names(remotes[..|remotes| - 1], id) || remotes[|remotes| - 1].id == id
  {
  }

  /** A sync treats identifiers independently of each other, and fails exactly when a new one is repeated. */
  lemma {:induction false} AppliedPointwise(lines: Inventory, remotes: seq<RemoteLine>, extensions: seq<Extension>,
                                            now: int)
    ensures var after := Applied(lines.Keys, lines, remotes, extensions, now);
            && (after.None? <==> RepeatsNewId(lines.Keys, remotes))
            && (after.Some? ==> forall id :: id in after.value <==> id in lines || Names(remotes, id))
            && (after.Some? ==> forall id :: id in after.value ==>
                  after.value[id] == LineAfter(Prior(lines, id), remotes, extensions, now, id))
  {
    if remotes != [] {
      var n := |remotes| - 1;
      AppliedPointwise(lines, remotes[..n], extensions, now);
      RepeatsPrefix(lines.Keys, remotes);
      AppliedStep(lines, remotes, extensions, now);
    }
  }

  lemma RepeatsPrefix(known: set<string>, remotes: seq<RemoteLine>)
    requires remotes != []
    ensures var n := |remotes| - 1;
            RepeatsNewId(known, remotes)
            <==> RepeatsNewId(known, remotes[..n]) || (Names(remotes[..n], remotes[n].id) && remotes[n].id !in known)
  {
    var n := |remotes| - 1;
    var front := remotes[..n];
    if RepeatsNewId(known, remotes) {
      var i, j :| 0 <= i < j < |remotes| && remotes[i].id == remotes[j].id && remotes[i].id !in known;
      assert front[i] == remotes[i];
      if j < n {
        assert front[j] == remotes[j];
      }
    }
    if RepeatsNewId(known, front) {
      var i, j :| 0 <= i < j < n && front[i].id == front[j].id && front[i].id !in known;
      assert remotes[i] == front[i] && remotes[j] == front[j];
    }
    if Names(front, remotes[n].id) && remotes[n].id !in known {
      var i :| 0 <= i < n && front[i].id == remotes[n].id;
      assert remotes[i] == front[i];
    }
  }

  lemma AppliedStep(lines: Inventory, remotes: seq<RemoteLine>, extensions: seq<Extension>, now: int)
    requires remotes != []
    requires var before := Applied(lines.Keys, lines, remotes[..|remotes| - 1], extensions, now);
             before.Some? ==>
               && (forall id :: id in before.value <==> id in lines || Names(remotes[..|remotes| - 1], id))
               && (forall id :: id in before.value ==>
                     before.value[id] == LineAfter(Prior(lines, id), remotes[..|remotes| - 1], extensions, now, id))
    ensures var after := Applied(lines.Keys, lines, remotes, extensions, now);
            && (after.Some? ==> forall id :: id in after.value <==> id in lines || Names(remotes, id))
            && (after.Some? ==> forall id :: id in after.value ==>
                  after.value[id] == LineAfter(Prior(lines, id), remotes, extensions, now, id))
    ensures var n := |remotes| - 1; var before := Applied(lines.Keys, lines, remotes[..n], extensions, now);
            Applied(lines.Keys, lines, remotes, extensions, now).None?
            <==> before.None? || (Names(remotes[..n], remotes[n].id) && remotes[n].id !in lines)
  {
    var n := |remotes| - 1;
    var front, r := remotes[..n], remotes[n];
    var before := Applied(lines.Keys, lines, front, extensions, now);
    if before.Some? && r.id !in before.value {
      UnnamedUntouched(Prior(lines, r.id), front, extensions, now, r.id);
    }
    forall id ensures Names(remotes, id) <==> Names(front, id) || r.id == id {
      NamesPrefix(remotes, id);
    }
  }

  lemma {:induction false} UnnamedUntouched(line: Line, remotes: seq<RemoteLine>, extensions: seq<Extension>, now: int,
                                            id: string)
    requires !Names(remotes, id)
    ensures LineAfter(line, remotes, extensions, now, id) == line
  {
    if remotes != [] {
      NamesPrefix(remotes, id);
      UnnamedUntouched(line, remotes[..|remotes| - 1], extensions, now, id);
    }
  }

  // ---- Which extension is matched ----

  /** The last extension with a property, if any has it. */
  ghost predicate LastWith(extensions: seq<Extension>, has: Extension -> bool, m: Option<Extension>) {
    if exists i :: 0 <= i < |extensions| && has(extensions[i])
    then exists i :: 0 <= i < |extensions| && has(extensions[i]) && m == Some(extensions[i])
                     && forall j :: i < j < |extensions| ==> !has(extensions[j])
    else m == None
  }

  /** The last extension that names the line's identifier, or else the last that names its phone, or else none. */
  ghost predicate Matches(extensions: seq<Extension>, id: string, phone: string, m: Option<Extension>) {
    if exists i :: 0 <= i < |extensions| && id != "" && extensions[i].lineId == Some(id)
    then LastWith(extensions, (x: Extension) => id != "" && x.lineId == Some(id), m)
    else LastWith(extensions, (x: Extension) => phone != "" && x.linePhone == Some(phone), m)
  }

  lemma LastWithSnoc(front: seq<Extension>, has: Extension -> bool, m: Option<Extension>, x: Extension)
    requires LastWith(front, has, m)
    ensures LastWith(front + [x], has, if has(x) then Some(x) else m)
  {
    var all := front + [x];
    if has(x) {
      assert has(all[|front|]);
    } else if exists i :: 0 <= i < |front| && has(front[i]) {
      var i :| 0 <= i < |front| && has(front[i]) && m == Some(front[i])
               && forall j :: i < j < |front| ==> !has(front[j]);
      assert has(all[i]) && m == Some(all[i]);
      assert forall j :: i < j < |all| ==> !has(all[j]);
    } else {
      assert forall i :: 0 <= i < |front| ==> all[i] == front[i];
    }
  }

  lemma {:induction false} LastByLineMeaning(extensions: seq<Extension>, id: string)
    ensures LastWith(extensions, (x: Extension) => id != "" && x.lineId == Some(id), LastByLine(extensions, id))
  {
    if extensions != [] {
      var front, last := extensions[..|extensions| - 1], extensions[|extensions| - 1];
      LastByLineMeaning(front, id);
      LastWithSnoc(front, (x: Extension) => id != "" && x.lineId == Some(id), LastByLine(front, id), last);
      assert extensions == front + [last];
    }
  }

  lemma {:induction false} LastByPhoneMeaning(extensions: seq<Extension>, phone: string)
    ensures LastWith(extensions, (x: Extension) => phone != "" && x.linePhone == Some(phone),
                     LastByPhone(extensions, phone))
  {
    if extensions != [] {
      var front, last := extensions[..|extensions| - 1], extensions[|extensions| - 1];
      LastByPhoneMeaning(front, phone);
      LastWithSnoc(front, (x: Extension) => phone != "" && x.linePhone == Some(phone), LastByPhone(front, phone), last);
      assert extensions == front + [last];
    }
  }

  /** A line's own identifier comes before its phone number, and the last extension before the others. */
  lemma MatchMeaning(extensions: seq<Extension>, r: RemoteLine)
    ensures Matches(extensions, r.id, r.phone, Match(extensions, r))
  {
    LastByLineMeaning(extensions, r.id);
    LastByPhoneMeaning(extensions, r.phone);
  }

  /** The last remote line of an identifier. */
  function LastNamed(remotes: seq<RemoteLine>, id: string): (r: RemoteLine)
    requires Names(remotes, id)
    ensures r.id == id && r in remotes
  {
    NamesPrefix(remotes, id);
    var n := |remotes| - 1;
    if remotes[n].id == id then remotes[n] else LastNamed(remotes[..n], id)
  }

  /** The line carries what the remote line says; `m` is the extension matched to it. */
  ghost predicate Mirrors(line: Line, r: RemoteLine, m: Option<Extension>, now: int) {
    && line.phone == r.phone && line.schema == r.schema && line.display == Or(Or(r.display, r.schema), Some(r.phone))
    && line.isActive == r.isActive && line.inbound == r.inbound
    && (line.outbound <==> r.outbound || m.Some? || Truthy(line.extension))
    && (Truthy(r.extension) ==> line.extension == r.extension)
    && (!Truthy(r.extension) && m.Some? ==> line.extension == Some(m.value.extension))
    && (m.Some? && MATCHED !in r.raw ==> MATCHED in line.raw && line.raw[MATCHED] == Object(m.value.raw))
    && (forall key :: key in r.raw ==> key in line.raw && line.raw[key] == r.raw[key])
    && (forall key :: key in line.raw && key != MATCHED ==> key in r.raw)
    && line.syncedAt == Some(now)
  }

  lemma {:induction false} NamedMirrors(line: Line, remotes: seq<RemoteLine>, extensions: seq<Extension>, now: int,
                                        id: string)
    requires Names(remotes, id)
    ensures var r := LastNamed(remotes, id);
            Mirrors(LineAfter(line, remotes, extensions, now, id), r, Match(extensions, r), now)
  {
    NamesPrefix(remotes, id);
    var n := |remotes| - 1;
    if remotes[n].id != id {
      NamedMirrors(line, remotes[..n], extensions, now, id);
    }
  }

  /** What the loop over the remote lines leaves, before stale lines are switched off. */
  lemma AppliedMirrors(lines: Inventory, remotes: seq<RemoteLine>, extensions: seq<Extension>, now: int)
    requires Applied(lines.Keys, lines, remotes, extensions, now).Some?
    ensures var sofar := Applied(lines.Keys, lines, remotes, extensions, now).value;
            && (forall id :: id in sofar <==> id in lines || Names(remotes, id))
            && (forall id :: Names(remotes, id) ==>
                  Mirrors(sofar[id], LastNamed(remotes, id), Match(extensions, LastNamed(remotes, id)), now))
            && (forall id :: id in lines && !Names(remotes, id) ==> sofar[id] == lines[id])
  {
    AppliedPointwise(lines, remotes, extensions, now);
    var sofar := Applied(lines.Keys, lines, remotes, extensions, now).value;
    forall id | Names(remotes, id)
      ensures Mirrors(sofar[id], LastNamed(remotes, id), Match(extensions, LastNamed(remotes, id)), now)
    {
      NamedMirrors(Prior(lines, id), remotes, extensions, now, id);
    }
    forall id | id in lines && !Names(remotes, id) ensures sofar[id] == lines[id] {
      UnnamedUntouched(lines[id], remotes, extensions, now, id);
    }
  }

  lemma RemoteIdsAreNames(remotes: seq<RemoteLine>)
    ensures forall id :: id in RemoteIds(remotes) <==> Names(remotes, id)
  {
  }

  /** The lines that were on and are missing remotely. */
  ghost function Missing(lines: Inventory, remotes: seq<RemoteLine>): set<string> {
    set id <- lines.Keys | lines[id].isActive && !Names(remotes, id)
  }

  lemma MissingCounted(lines: Inventory, remotes: seq<RemoteLine>, extensions: seq<Extension>, now: int)
    requires Applied(lines.Keys, lines, remotes, extensions, now).Some?
    ensures var sofar := Applied(lines.Keys, lines, remotes, extensions, now).value;
            ActiveAmong(sofar, lines.Keys - RemoteIds(remotes)) == Missing(lines, remotes)
  {
    AppliedMirrors(lines, remotes, extensions, now);
    RemoteIdsAreNames(remotes);
  }

  /** The remote line at position i is the last of its identifier. */
  predicate LastOfId(remotes: seq<RemoteLine>, i: nat) {
    i < |remotes| && forall j :: i < j < |remotes| ==> remotes[j].id != remotes[i].id
  }

  lemma {:induction false} LastNamedAt(remotes: seq<RemoteLine>, i: nat)
    requires LastOfId(remotes, i)
    ensures Names(remotes, remotes[i].id) && LastNamed(remotes, remotes[i].id) == remotes[i]
  {
    assert Names(remotes, remotes[i].id);
    if i < |remotes| - 1 {
      LastNamedAt(remotes[..|remotes| - 1], i);
    }
  }

  /** A line carries the remote line, and the extension that is matched to it. */
  ghost predicate Carries(line: Line, r: RemoteLine, extensions: seq<Extension>, now: int) {
    exists m :: Matches(extensions, r.id, r.phone, m) && Mirrors(line, r, m, now)
  }

  /**
   After a successful sync: no line is gone; every remote identifier has a line that carries its last remote
   line; every other line is off and otherwise as before; the counts are exact.
   */
  lemma ExactMirror(lines: Inventory, remotes: seq<RemoteLine>, extensions: seq<Extension>, now: int)
    requires Outcome(true, lines, Some(remotes), extensions, now).0.Synced?
    ensures var (result, after) := Outcome(true, lines, Some(remotes), extensions, now);
            && (forall id :: id in after <==> id in lines || Names(remotes, id))
            && (forall i: nat :: LastOfId(remotes, i) ==> Carries(after[remotes[i].id], remotes[i], extensions, now))
            && (forall id :: id in lines && !Names(remotes, id) ==>
                  after[id] ==
                  if lines[id].isActive then lines[id].(isActive := false, syncedAt := Some(now)) else lines[id])
            && result == Synced(|remotes|, |Missing(lines, remotes)|)
  {
    MirroredInventory(lines, remotes, extensions, now);
    var after := Outcome(true, lines, Some(remotes), extensions, now).1;
    forall i: nat | LastOfId(remotes, i) ensures Carries(after[remotes[i].id], remotes[i], extensions, now) {
      LastNamedAt(remotes, i);
      MatchMeaning(extensions, remotes[i]);
      assert Mirrors(after[remotes[i].id], remotes[i], Match(extensions, remotes[i]), now);
    }
  }

  lemma MirroredInventory(lines: Inventory, remotes: seq<RemoteLine>, extensions: seq<Extension>, now: int)
    requires Outcome(true, lines, Some(remotes), extensions, now).0.Synced?
    ensures var (result, after) := Outcome(true, lines, Some(remotes), extensions, now);
            && (forall id :: id in after <==> id in lines || Names(remotes, id))
            && (forall id :: Names(remotes, id) ==>
                  Mirrors(after[id], LastNamed(remotes, id), Match(extensions, LastNamed(remotes, id)), now))
            && (forall id :: id in lines && !Names(remotes, id) ==>
                  after[id] ==
                  if lines[id].isActive then lines[id].(isActive := false, syncedAt := Some(now)) else lines[id])
            && result == Synced(|remotes|, |Missing(lines, remotes)|)
  {
    AppliedMirrors(lines, remotes, extensions, now);
    MissingCounted(lines, remotes, extensions, now);
    RemoteIdsAreNames(remotes);
  }

  /**
   A sync succeeds exactly when it is configured, the list arrived, it is not empty over a filled cache, and no new
   identifier repeats.
   */
  lemma SyncSucceedsExactly(configured: bool, lines: Inventory, remote: Option<seq<RemoteLine>>,
                            extensions: seq<Extension>, now: int)
    ensures Outcome(configured, lines, remote, extensions, now).0.Synced?
            <==> configured && remote.Some? && (remote.value == [] ==> lines == map[])
                 && !RepeatsNewId(lines.Keys, remote.value)
    ensures var (result, after) := Outcome(configured, lines, remote, extensions, now);
            && (result.NotConfigured? <==> !configured)
            && (result.RemoteUnavailable? <==> configured && remote == None)
            && (result.NoParseableLines? <==> configured && remote == Some([]) && lines != map[])
            && (result.DuplicateLine? <==> configured && remote.Some? && RepeatsNewId(lines.Keys, remote.value))
            && (!result.Synced? && !result.DuplicateLine? ==> after == lines)
            && (result.DuplicateLine? ==> remote.Some? && PartlyApplied(lines, remote.value, extensions, now, after))
  {
    if remote.Some? {
      AppliedPointwise(lines, remote.value, extensions, now);
      if RepeatsNewId(lines.Keys, remote.value) {
        StopsAtRepeat(lines, remote.value, extensions, now);
      }
    }
  }

  /** The remote lines before the first that repeats a new identifier were applied, and no other. */
  ghost predicate PartlyApplied(
    lines: Inventory, remotes: seq<RemoteLine>, extensions: seq<Extension>, now: int, after: Inventory)
  {
    exists n :: 0 <= n < |remotes| && StoppedAt(lines.Keys, remotes, n)
                && Applied(lines.Keys, lines, remotes[..n], extensions, now) == Some(after)
  }

  ghost predicate StoppedAt(known: set<string>, remotes: seq<RemoteLine>, n: nat)
    requires n < |remotes|
  {
    !RepeatsNewId(known, remotes[..n]) && Names(remotes[..n], remotes[n].id) && remotes[n].id !in known
  }

  lemma {:induction false} StopsAtRepeat(lines: Inventory, remotes: seq<RemoteLine>, extensions: seq<Extension>,
                                         now: int)
    requires Applied(lines.Keys, lines, remotes, extensions, now).None?
    ensures PartlyApplied(lines, remotes, extensions, now, AppliedUpTo(lines.Keys, lines, remotes, extensions, now))
  {
    var n := |remotes| - 1;
    var front := remotes[..n];
    AppliedPointwise(lines, remotes, extensions, now);
    AppliedPointwise(lines, front, extensions, now);
    RepeatsPrefix(lines.Keys, remotes);
    if Applied(lines.Keys, lines, front, extensions, now).None? {
      StopsAtRepeat(lines, front, extensions, now);
      var k :| 0 <= k < n && StoppedAt(lines.Keys, front, k)
               && Applied(lines.Keys, lines, front[..k], extensions, now)
                  == Some(AppliedUpTo(lines.Keys, lines, remotes, extensions, now));
      assert front[..k] == remotes[..k];
      assert StoppedAt(lines.Keys, remotes, k);
    } else {
      StopsAtLast(lines, remotes, extensions, now);
    }
  }

  lemma StopsAtLast(lines: Inventory, remotes: seq<RemoteLine>, extensions: seq<Extension>, now: int)
    requires remotes != [] && Applied(lines.Keys, lines, remotes, extensions, now).None?
    requires Applied(lines.Keys, lines, remotes[..|remotes| - 1], extensions, now).Some?
    requires StoppedAt(lines.Keys, remotes, |remotes| - 1)
    ensures PartlyApplied(lines, remotes, extensions, now, AppliedUpTo(lines.Keys, lines, remotes, extensions, now))
  {
    var n := |remotes| - 1;
    var after := AppliedUpTo(lines.Keys, lines, remotes, extensions, now);
    AppliedThroughout(lines.Keys, lines, remotes[..n], extensions, now);
    assert Applied(lines.Keys, lines, remotes[..n], extensions, now) == Some(after);
  }

  lemma AppliedThroughout(known: set<string>, lines: Inventory, remotes: seq<RemoteLine>, extensions: seq<Extension>,
                          now: int)
    requires Applied(known, lines, remotes, extensions, now).Some?
    ensures Applied(known, lines, remotes, extensions, now) == Some(AppliedUpTo(known, lines, remotes, extensions, now))
  {
  }

  // ---- Repetition ----

  /** A line up to the time of its last sync. */
  function Core(line: Line): Line {
    line.(syncedAt := None)
  }

  /** Everything of a line that the next sync can see of it. */
  predicate SameMemory(a: Line, b: Line) {
    a.extension == b.extension && Remembered(a.raw) == Remembered(b.raw)
  }

  /** The extension number that one remote line and its match put in place of the old one, if any. */
  function ExtensionBy(r: RemoteLine, m: Option<Extension>): Option<string> {
    if Truthy(r.extension) then r.extension else if m.Some? then Some(m.value.extension) else None
  }

  /** What they put in place of the remembered match, if anything. */
  function MatchBy(r: RemoteLine, m: Option<Extension>): Option<Option<Payload>> {
    if MATCHED in r.raw then Some(Remembered(r.raw)) else if m.Some? then Some(Some(m.value.raw)) else None
  }

  /** What the last remote line of an identifier that puts anything in place puts there. */
  function LastExtension(remotes: seq<RemoteLine>, extensions: seq<Extension>, id: string): Option<string> {
    if remotes == [] then None
    else
      var r := remotes[|remotes| - 1];
      if r.id == id && ExtensionBy(r, Match(extensions, r)).Some? then ExtensionBy(r, Match(extensions, r))
      else LastExtension(remotes[..|remotes| - 1], extensions, id)
  }

  function LastMatch(remotes: seq<RemoteLine>, extensions: seq<Extension>, id: string): Option<Option<Payload>> {
    if remotes == [] then None
    else
      var r := remotes[|remotes| - 1];
      if r.id == id && MatchBy(r, Match(extensions, r)).Some? then MatchBy(r, Match(extensions, r))
      else LastMatch(remotes[..|remotes| - 1], extensions, id)
  }

  /** What a line remembers after a sync is what the last of its remote lines put in place, or what it was. */
  lemma {:induction false} MemoryAfter(line: Line, remotes: seq<RemoteLine>, extensions: seq<Extension>, now: int,
                                       id: string)
    ensures var after := LineAfter(line, remotes, extensions, now, id);
            && after.extension
               == (var e := LastExtension(remotes, extensions, id); if e.Some? then e else line.extension)
            && Remembered(after.raw)
               == (var m := LastMatch(remotes, extensions, id); if m.Some? then m.value else Remembered(line.raw))
  {
    if remotes != [] {
      MemoryAfter(line, remotes[..|remotes| - 1], extensions, now, id);
    }
  }

  lemma UpdatedByMemory(
    a: Line, b: Line, r: RemoteLine, m: Option<Extension>, k: Option<Extension>, now: int, later: int)
    requires SameMemory(Updated(a, r, m, now), Updated(b, r, k, later))
    requires Updated(a, r, m, now).outbound == Updated(b, r, k, later).outbound
    ensures Core(Updated(a, r, m, now)) == Core(Updated(b, r, k, later))
  {
    if MATCHED !in r.raw {
      RememberedIsKept(a.raw, r, m);
      RememberedIsKept(b.raw, r, k);
    }
  }

  lemma RememberedIsKept(raw: Payload, r: RemoteLine, m: Option<Extension>)
    requires MATCHED !in r.raw
    ensures var kept := if m.Some? then Some(m.value.raw) else Remembered(raw);
            var now := NewRaw(Remembered(raw), r, m);
            Remembered(now) == kept && now == if kept.Some? then r.raw[MATCHED := Object(kept.value)] else r.raw
  {
  }

  /**
   Two runs over the same remote lines, perhaps with different extensions, agree if they remember the same in the
   end.
   */
  lemma {:induction false} SameMemorySameLine(
    a: Line, b: Line, remotes: seq<RemoteLine>, extensions: seq<Extension>, others: seq<Extension>, now: int,
    later: int, id: string)
    requires Names(remotes, id)
    requires var x, y := LineAfter(a, remotes, extensions, now, id), LineAfter(b, remotes, others, later, id);
             SameMemory(x, y) && x.outbound == y.outbound
    ensures Core(LineAfter(a, remotes, extensions, now, id)) == Core(LineAfter(b, remotes, others, later, id))
  {
    NamesPrefix(remotes, id);
    var n := |remotes| - 1;
    if remotes[n].id == id {
      UpdatedByMemory(LineAfter(a, remotes[..n], extensions, now, id), LineAfter(b, remotes[..n], others, later, id),
                      remotes[n], Match(extensions, remotes[n]), Match(others, remotes[n]), now, later);
    } else {
      SameMemorySameLine(a, b, remotes[..n], extensions, others, now, later, id);
    }
  }

  lemma SyncedLine(lines: Inventory, remotes: seq<RemoteLine>, extensions: seq<Extension>, now: int, id: string)
    requires Outcome(true, lines, Some(remotes), extensions, now).0.Synced? && Names(remotes, id)
    ensures var after := Outcome(true, lines, Some(remotes), extensions, now).1;
            id in after && after[id] == LineAfter(Prior(lines, id), remotes, extensions, now, id)
  {
    AppliedPointwise(lines, remotes, extensions, now);
  }

  lemma SecondSyncSucceeds(
    lines: Inventory, remotes: seq<RemoteLine>, extensions: seq<Extension>, now: int, others: seq<Extension>,
    later: int)
    requires Outcome(true, lines, Some(remotes), extensions, now).0.Synced?
    ensures var once := Outcome(true, lines, Some(remotes), extensions, now).1;
            Outcome(true, once, Some(remotes), others, later).0.Synced?
  {
    var once := Outcome(true, lines, Some(remotes), extensions, now).1;
    AppliedPointwise(lines, remotes, extensions, now);
    AppliedPointwise(once, remotes, others, later);
    forall i | 0 <= i < |remotes| ensures remotes[i].id in once {
      assert Names(remotes, remotes[i].id);
    }
  }

  /** Nothing is active and missing after a sync. */
  lemma NothingMissing(lines: Inventory, remotes: seq<RemoteLine>, extensions: seq<Extension>, now: int)
    requires Outcome(true, lines, Some(remotes), extensions, now).0.Synced?
    ensures var once := Outcome(true, lines, Some(remotes), extensions, now).1;
            && Missing(once, remotes) == {}
            && (forall id :: Names(remotes, id) ==> id in once)
            && (forall id :: id in once && !Names(remotes, id) ==> !once[id].isActive)
  {
    MirroredInventory(lines, remotes, extensions, now);
  }

  /** A second sync of the same lines, with any extensions, switches nothing off and leaves unnamed lines alone. */
  lemma RepeatedSync(
    lines: Inventory, remotes: seq<RemoteLine>, extensions: seq<Extension>, now: int, others: seq<Extension>,
    later: int)
    requires Outcome(true, lines, Some(remotes), extensions, now).0.Synced?
    ensures var once := Outcome(true, lines, Some(remotes), extensions, now).1;
            var (result, twice) := Outcome(true, once, Some(remotes), others, later);
            && result == Synced(|remotes|, 0)
            && twice.Keys == once.Keys
            && (forall id :: id in once && !Names(remotes, id) ==> twice[id] == once[id])
  {
    var once := Outcome(true, lines, Some(remotes), extensions, now).1;
    SecondSyncSucceeds(lines, remotes, extensions, now, others, later);
    NothingMissing(lines, remotes, extensions, now);
    MirroredInventory(once, remotes, others, later);
  }

  lemma RepeatedLine(
    lines: Inventory, remotes: seq<RemoteLine>, extensions: seq<Extension>, now: int, others: seq<Extension>,
    later: int, id: string)
    requires Outcome(true, lines, Some(remotes), extensions, now).0.Synced? && Names(remotes, id)
    ensures var once := Outcome(true, lines, Some(remotes), extensions, now).1;
            var twice := Outcome(true, once, Some(remotes), others, later).1;
            && id in once && id in twice
            && once[id] == LineAfter(Prior(lines, id), remotes, extensions, now, id)
            && twice[id] == LineAfter(once[id], remotes, others, later, id)
  {
    SecondSyncSucceeds(lines, remotes, extensions, now, others, later);
    SyncedLine(lines, remotes, extensions, now, id);
    SyncedLine(Outcome(true, lines, Some(remotes), extensions, now).1, remotes, others, later, id);
  }

  /** The outbound flag follows from the last remote line and the extension in place. */
  lemma {:induction false} OutboundAfter(line: Line, remotes: seq<RemoteLine>, extensions: seq<Extension>, now: int,
                                         id: string)
    requires Names(remotes, id)
    ensures var after, r := LineAfter(line, remotes, extensions, now, id), LastNamed(remotes, id);
            after.outbound == (r.outbound || Match(extensions, r).Some? || Truthy(after.extension))
  {
    NamesPrefix(remotes, id);
    if remotes[|remotes| - 1].id != id {
      OutboundAfter(line, remotes[..|remotes| - 1], extensions, now, id);
    }
  }

  /** Applying the same remote lines to their own result changes nothing but the sync time. */
  lemma LineSettled(line: Line, remotes: seq<RemoteLine>, extensions: seq<Extension>, now: int, later: int, id: string)
    requires Names(remotes, id)
    ensures var once := LineAfter(line, remotes, extensions, now, id);
            Core(LineAfter(once, remotes, extensions, later, id)) == Core(once)
  {
    var once := LineAfter(line, remotes, extensions, now, id);
    MemoryAfter(line, remotes, extensions, now, id);
    MemoryAfter(once, remotes, extensions, later, id);
    OutboundAfter(line, remotes, extensions, now, id);
    OutboundAfter(once, remotes, extensions, later, id);
    SameMemorySameLine(line, once, remotes, extensions, extensions, now, later, id);
  }

  /** Repeating a sync changes no line except for its sync time, switches nothing off and cannot fail. */
  lemma SyncIdempotent(lines: Inventory, remotes: seq<RemoteLine>, extensions: seq<Extension>, now: int, later: int)
    requires Outcome(true, lines, Some(remotes), extensions, now).0.Synced?
    ensures var once := Outcome(true, lines, Some(remotes), extensions, now).1;
            var (result, twice) := Outcome(true, once, Some(remotes), extensions, later);
            && result == Synced(|remotes|, 0)
            && twice.Keys == once.Keys
            && (forall id :: id in once ==> Core(twice[id]) == Core(once[id]))
            && (forall id :: id in once && !Names(remotes, id) ==> twice[id] == once[id])
  {
    var once := Outcome(true, lines, Some(remotes), extensions, now).1;
    RepeatedSync(lines, remotes, extensions, now, extensions, later);
    forall id | Names(remotes, id)
      ensures id in once && Core(Outcome(true, once, Some(remotes), extensions, later).1[id]) == Core(once[id])
    {
      RepeatedLine(lines, remotes, extensions, now, extensions, later, id);
      LineSettled(Prior(lines, id), remotes, extensions, now, later, id);
    }
  }

  // ---- Missing extension data ----

  /** The client never returns an extension without a number. */
  predicate Numbered(extensions: seq<Extension>) {
    forall i :: 0 <= i < |extensions| ==> extensions[i].extension != ""
  }

  lemma {:induction false} MatchIsListed(extensions: seq<Extension>, id: string, phone: string)
    ensures LastByLine(extensions, id).Some? ==> LastByLine(extensions, id).value in extensions
    ensures LastByPhone(extensions, phone).Some? ==> LastByPhone(extensions, phone).value in extensions
  {
    if extensions != [] {
      MatchIsListed(extensions[..|extensions| - 1], id, phone);
    }
  }

  /** No update empties an extension, unless it matches an extension without a number. */
  lemma ExtensionKeptExactly(line: Line, r: RemoteLine, m: Option<Extension>, now: int)
    requires Truthy(line.extension)
    ensures Truthy(Updated(line, r, m, now).extension) <==> Truthy(r.extension) || m.None? || m.value.extension != ""
  {
  }

  lemma {:induction false} ExtensionNeverLost(
    line: Line, remotes: seq<RemoteLine>, extensions: seq<Extension>, now: int, id: string)
    requires Truthy(line.extension) && Numbered(extensions)
    ensures Truthy(LineAfter(line, remotes, extensions, now, id).extension)
  {
    if remotes != [] {
      var n := |remotes| - 1;
      var before := LineAfter(line, remotes[..n], extensions, now, id);
      ExtensionNeverLost(line, remotes[..n], extensions, now, id);
      MatchIsListed(extensions, remotes[n].id, remotes[n].phone);
      ExtensionKeptExactly(before, remotes[n], Match(extensions, remotes[n]), now);
    }
  }

  lemma AppliedKeepsExtension(lines: Inventory, remotes: seq<RemoteLine>, extensions: seq<Extension>, now: int,
                              id: string)
    requires Numbered(extensions) && id in lines && Truthy(lines[id].extension)
    ensures var after := Applied(lines.Keys, lines, remotes, extensions, now);
            after.Some? ==> id in after.value && Truthy(after.value[id].extension)
  {
    AppliedPointwise(lines, remotes, extensions, now);
    ExtensionNeverLost(lines[id], remotes, extensions, now, id);
  }

  /**
   No sync leaves a line without the extension number it had, not even one that stops at a repeated new identifier.
   */
  lemma SyncKeepsExtensions(
    configured: bool, lines: Inventory, remote: Option<seq<RemoteLine>>, extensions: seq<Extension>, now: int,
    id: string)
    requires Numbered(extensions) && id in lines && Truthy(lines[id].extension)
    ensures var after := Outcome(configured, lines, remote, extensions, now).1;
            id in after && Truthy(after[id].extension)
  {
    var (result, after) := Outcome(configured, lines, remote, extensions, now);
    SyncSucceedsExactly(configured, lines, remote, extensions, now);
    if result.DuplicateLine? {
      var n :| 0 <= n < |remote.value| && StoppedAt(lines.Keys, remote.value, n)
               && Applied(lines.Keys, lines, remote.value[..n], extensions, now) == Some(after);
      AppliedKeepsExtension(lines, remote.value[..n], extensions, now, id);
    } else if result.Synced? {
      AppliedKeepsExtension(lines, remote.value, extensions, now, id);
    }
  }

  /**
   Without extension data a line stays as a full sync left it: what its remote lines alone put in place is what they
   and their matches put there, and a match to an extension without a number is not what makes it outbound.
   */
  predicate Settles(remotes: seq<RemoteLine>, extensions: seq<Extension>, id: string)
    requires Names(remotes, id)
  {
    var r := LastNamed(remotes, id);
    && (LastExtension(remotes, [], id).Some?
        ==> LastExtension(remotes, extensions, id) == LastExtension(remotes, [], id))
    && (LastMatch(remotes, [], id).Some? ==> LastMatch(remotes, extensions, id) == LastMatch(remotes, [], id))
    && (r.outbound || Match(extensions, r).None? || Truthy(LastExtension(remotes, extensions, id)))
  }

  /** Matches only add to what the remote lines put in place. */
  lemma {:induction false} MoreIsFixed(remotes: seq<RemoteLine>, extensions: seq<Extension>, id: string)
    ensures LastExtension(remotes, [], id).Some? ==> LastExtension(remotes, extensions, id).Some?
    ensures LastMatch(remotes, [], id).Some? ==> LastMatch(remotes, extensions, id).Some?
    ensures Names(remotes, id) && Match(extensions, LastNamed(remotes, id)).Some? ==>
              LastExtension(remotes, extensions, id).Some?
  {
    if remotes != [] {
      NamesPrefix(remotes, id);
      MoreIsFixed(remotes[..|remotes| - 1], extensions, id);
    }
  }

  lemma DegradedLineExactly(line: Line, remotes: seq<RemoteLine>, extensions: seq<Extension>, now: int, later: int,
                            id: string)
    requires Names(remotes, id)
    ensures var full := LineAfter(line, remotes, extensions, now, id);
            Core(LineAfter(full, remotes, [], later, id)) == Core(full) <==> Settles(remotes, extensions, id)
  {
    var full := LineAfter(line, remotes, extensions, now, id);
    var degraded := LineAfter(full, remotes, [], later, id);
    MemoryAfter(line, remotes, extensions, now, id);
    MemoryAfter(full, remotes, [], later, id);
    OutboundAfter(line, remotes, extensions, now, id);
    OutboundAfter(full, remotes, [], later, id);
    MoreIsFixed(remotes, extensions, id);
    if Settles(remotes, extensions, id) {
      SameMemorySameLine(line, full, remotes, extensions, [], now, later, id);
    }
  }

  /**
   After a full sync, a sync of the same lines without any extension data leaves every line as it is if and only if
   the remote lines of every identifier settle.
   */
  lemma DegradedSyncExactly(lines: Inventory, remotes: seq<RemoteLine>, extensions: seq<Extension>, now: int,
                            later: int)
    requires Outcome(true, lines, Some(remotes), extensions, now).0.Synced?
    ensures var once := Outcome(true, lines, Some(remotes), extensions, now).1;
            var (result, twice) := Outcome(true, once, Some(remotes), [], later);
            && result == Synced(|remotes|, 0) && twice.Keys == once.Keys
            && ((forall id :: id in once ==> Core(twice[id]) == Core(once[id]))
                <==> forall id :: Names(remotes, id) ==> Settles(remotes, extensions, id))
  {
    var once := Outcome(true, lines, Some(remotes), extensions, now).1;
    RepeatedSync(lines, remotes, extensions, now, [], later);
    forall id | Names(remotes, id)
      ensures id in once && (Core(Outcome(true, once, Some(remotes), [], later).1[id]) == Core(once[id])
                             <==> Settles(remotes, extensions, id))
    {
      RepeatedLine(lines, remotes, extensions, now, [], later, id);
      DegradedLineExactly(Prior(lines, id), remotes, extensions, now, later, id);
    }
  }

  /** Remote lines of one identifier do not differ; distinct identifiers are a special case. */
  predicate Consistent(remotes: seq<RemoteLine>) {
    forall i, j :: 0 <= i < |remotes| && 0 <= j < |remotes| && remotes[i].id == remotes[j].id ==>
      remotes[i] == remotes[j]
  }

  predicate DistinctRemotes(remotes: seq<RemoteLine>) {
    forall i, j :: 0 <= i < j < |remotes| ==> remotes[i].id != remotes[j].id
  }

  lemma DistinctIsConsistent(remotes: seq<RemoteLine>)
    requires DistinctRemotes(remotes)
    ensures Consistent(remotes)
  {
  }

  lemma {:induction false} OneSpeaksForAll(remotes: seq<RemoteLine>, extensions: seq<Extension>, r: RemoteLine)
    requires Names(remotes, r.id) && forall i :: 0 <= i < |remotes| && remotes[i].id == r.id ==> remotes[i] == r
    ensures LastNamed(remotes, r.id) == r
    ensures LastExtension(remotes, extensions, r.id) == ExtensionBy(r, Match(extensions, r))
    ensures LastMatch(remotes, extensions, r.id) == MatchBy(r, Match(extensions, r))
  {
    var front := remotes[..|remotes| - 1];
    NamesPrefix(remotes, r.id);
    if Names(front, r.id) {
      OneSpeaksForAll(front, extensions, r);
    } else {
      UnnamedFixesNothing(front, extensions, r.id);
    }
  }

  lemma {:induction false} UnnamedFixesNothing(remotes: seq<RemoteLine>, extensions: seq<Extension>, id: string)
    requires !Names(remotes, id)
    ensures LastExtension(remotes, extensions, id) == None && LastMatch(remotes, extensions, id) == None
  {
    if remotes != [] {
      NamesPrefix(remotes, id);
      UnnamedFixesNothing(remotes[..|remotes| - 1], extensions, id);
    }
  }

  lemma ConsistentSettles(remotes: seq<RemoteLine>, extensions: seq<Extension>, id: string)
    requires Names(remotes, id) && Consistent(remotes) && Numbered(extensions)
    ensures Settles(remotes, extensions, id)
  {
    var i :| 0 <= i < |remotes| && remotes[i].id == id;
    OneSpeaksForAll(remotes, extensions, remotes[i]);
    OneSpeaksForAll(remotes, [], remotes[i]);
    MatchIsListed(extensions, id, remotes[i].phone);
  }

  /** In particular, if the remote lines are consistent. */
  lemma DegradedSyncStable(lines: Inventory, remotes: seq<RemoteLine>, extensions: seq<Extension>, now: int, later: int)
    requires Outcome(true, lines, Some(remotes), extensions, now).0.Synced?
    requires Consistent(remotes) && Numbered(extensions)
    ensures var once := Outcome(true, lines, Some(remotes), extensions, now).1;
            var (result, twice) := Outcome(true, once, Some(remotes), [], later);
            && result == Synced(|remotes|, 0) && twice.Keys == once.Keys
            && forall id :: id in once ==> Core(twice[id]) == Core(once[id])
  {
    DegradedSyncExactly(lines, remotes, extensions, now, later);
    forall id | Names(remotes, id) ensures Settles(remotes, extensions, id) {
      ConsistentSettles(remotes, extensions, id);
    }
  }
}
