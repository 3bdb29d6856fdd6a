/** Extensions remembered in the inventory, and the list a caller gets with or without the Mango API. */
module MangoFallback {
  import opened Seqs
  import opened MangoModel
  import opened MangoExtensions

  /** A cached line with its identifier. */
  datatype Row = Row(id: string, line: Line)

  /** Which numbers belong to this installation, and how text is stripped of white space. */
  datatype Rules = Rules(allowed: string -> bool, strip: string -> string)

  /** A field of an optional JSON object; scalars stand for their text, false ones for the empty text. */
  function Field(payload: Option<Payload>, key: string): Option<string> {
    if payload.Some? && key in payload.value && payload.value[key].Scalar? then Some(payload.value[key].text) else None
  }

  function Nested(payload: Option<Payload>, key: string): Option<Payload> {
    if payload.Some? && key in payload.value && payload.value[key].Object?
    then Some(payload.value[key].fields) else None
  }

  function Number(rules: Rules, line: Line): string {
    rules.strip(if Truthy(line.extension) then line.extension.value else "")
  }

  predicate Listed(rules: Rules, row: Row) {
    row.line.isActive && rules.allowed(row.line.phone) && Number(rules, row.line) != ""
  }

  /** The extension a line remembers. */
  function Item(rules: Rules, row: Row): Extension {
    var matched := Remembered(row.line.raw);
    var number := Number(rules, row.line);
    var owner := Or(Or(Field(matched, "id"), Field(matched, "user_id")), Field(matched, "employee_id"));
    var lineId := Or(Field(Nested(matched, "telephony"), "line_id"),
                     Field(Nested(matched, "telephony"), "outgoing_line_id"));
    Extension(
      if Truthy(owner) then owner.value else number,
      number,
      Or(Or(Or(Field(Nested(matched, "general"), "name"), Field(matched, "name")), row.line.display), row.line.schema),
      if Truthy(lineId) then lineId else Some(row.id),
      Some(row.line.phone),
      map["source" := Scalar("cached_inventory_fallback"),
          "line_provider_resource_id" := Scalar(row.id),
          "line_phone_number" := Scalar(row.line.phone)])
  }

  /** One item per number, from the first line that has it. */
  function Fallback(rules: Rules, rows: seq<Row>): seq<Extension> {
    if rows == [] then []
    else
      var front, last := Fallback(rules, rows[..|rows| - 1]), rows[|rows| - 1];
      if Listed(rules, last) && !Has(front, Number(rules, last.line)) then front + [Item(rules, last)] else front
  }

  // ---- What is listed, in terms of the lines ----

  /** The extension number of a line, without white space around it. */
  ghost function NumberOf(rules: Rules, line: Line): string {
    rules.strip(match line.extension case Some(text) => text case None => "")
  }

  /** An active line of an allowed phone that has a number. */
  ghost predicate Remembers(rules: Rules, row: Row) {
    row.line.isActive && rules.allowed(row.line.phone) && NumberOf(rules, row.line) != ""
  }

  lemma RememberedIsListed(rules: Rules, row: Row)
    ensures Listed(rules, row) <==> Remembers(rules, row)
    ensures Number(rules, row.line) == NumberOf(rules, row.line)
  {
    if row.line.extension.Some? && row.line.extension.value == "" {
      assert row.line.extension.value == "";
    }
  }

  /** Row k is the first with its number. */
  ghost predicate FirstWith(rules: Rules, rows: seq<Row>, k: nat) {
    && k < |rows| && Remembers(rules, rows[k])
    && forall j :: 0 <= j < k && Remembers(rules, rows[j]) ==>
         NumberOf(rules, rows[j].line) != NumberOf(rules, rows[k].line)
  }

  /** The object under a key, or an empty one. */
  ghost function ObjectUnder(payload: Payload, key: string): Payload {
    if key in payload && payload[key].Object? then payload[key].fields else map[]
  }

  /** A key of an object has a true text. */
  ghost predicate Says(payload: Payload, key: string) {
    key in payload && payload[key].Scalar? && payload[key].text != ""
  }

  ghost function Saying(payload: Payload, key: string): string
    requires Says(payload, key)
  {
    payload[key].text
  }

  /** The first key that says something decides. */
  ghost predicate FirstSaid(payload: Payload, keys: seq<string>, default: Option<string>, value: Option<string>) {
    if exists i :: 0 <= i < |keys| && Says(payload, keys[i])
    then exists i :: 0 <= i < |keys| && Says(payload, keys[i]) && value == Some(Saying(payload, keys[i]))
                     && forall j :: 0 <= j < i ==> !Says(payload, keys[j])
    else value == default
  }

  /** Every field of a listed extension, from the line and the match that it remembers. */
  ghost predicate Describes(rules: Rules, row: Row, x: Extension) {
    var line, matched := row.line, ObjectUnder(row.line.raw, "matched_extension");
    var general, telephony := ObjectUnder(matched, "general"), ObjectUnder(matched, "telephony");
    && x.extension == NumberOf(rules, line)
    && FirstSaid(matched, ["id", "user_id", "employee_id"], Some(x.extension), Some(x.id))
    && FirstSaid(telephony, ["line_id", "outgoing_line_id"], Some(row.id), x.lineId)
    && x.linePhone == Some(line.phone)
    && (if Says(general, "name") then x.display == Some(Saying(general, "name"))
        else if Says(matched, "name") then x.display == Some(Saying(matched, "name"))
        else if line.display.Some? && line.display.value != "" then x.display == line.display
        else x.display == line.schema)
    && x.raw.Keys == {"source", "line_provider_resource_id", "line_phone_number"}
    && x.raw["source"] == Scalar("cached_inventory_fallback")
    && x.raw["line_provider_resource_id"] == Scalar(row.id)
    && x.raw["line_phone_number"] == Scalar(line.phone)
  }

  lemma FieldSays(payload: Option<Payload>, key: string)
    ensures var inner := if payload.Some? then payload.value else map[];
            && (Truthy(Field(payload, key)) <==> Says(inner, key))
            && (Says(inner, key) ==> Field(payload, key) == Some(Saying(inner, key)))
  {
  }

  lemma NestedUnder(payload: Option<Payload>, key: string)
    ensures var inner := if payload.Some? then payload.value else map[];
            ObjectUnder(inner, key) == if Nested(payload, key).Some? then Nested(payload, key).value else map[]
  {
  }

  lemma OfTwo(payload: Option<Payload>, a: string, b: string, default: Option<string>)
    ensures var inner := if payload.Some? then payload.value else map[];
            var said := Or(Field(payload, a), Field(payload, b));
            FirstSaid(inner, [a, b], default, if Truthy(said) then said else default)
  {
    var inner, keys := if payload.Some? then payload.value else map[], [a, b];
    FieldSays(payload, a);
    FieldSays(payload, b);
    assert keys[0] == a && keys[1] == b;
    if Says(inner, a) {
      assert Says(inner, keys[0]);
    } else if Says(inner, b) {
      assert Says(inner, keys[1]);
    }
  }

  lemma OfThree(payload: Option<Payload>, a: string, b: string, c: string, default: Option<string>)
    ensures var inner := if payload.Some? then payload.value else map[];
            var said := Or(Or(Field(payload, a), Field(payload, b)), Field(payload, c));
            FirstSaid(inner, [a, b, c], default, if Truthy(said) then said else default)
  {
    var inner, keys := if payload.Some? then payload.value else map[], [a, b, c];
    FieldSays(payload, a);
    FieldSays(payload, b);
    FieldSays(payload, c);
    assert keys[0] == a && keys[1] == b && keys[2] == c;
    if Says(inner, a) {
      assert Says(inner, keys[0]);
    } else if Says(inner, b) {
      assert Says(inner, keys[1]);
    } else if Says(inner, c) {
      assert Says(inner, keys[2]);
    }
  }

  lemma ItemDescribes(rules: Rules, row: Row)
    ensures Describes(rules, row, Item(rules, row))
  {
    var matched := Remembered(row.line.raw);
    RememberedIsListed(rules, row);
    NestedUnder(matched, "general");
    NestedUnder(matched, "telephony");
    OfThree(matched, "id", "user_id", "employee_id", Some(Number(rules, row.line)));
    OfTwo(Nested(matched, "telephony"), "line_id", "outgoing_line_id", Some(row.id));
    FieldSays(Nested(matched, "general"), "name");
    FieldSays(matched, "name");
  }

  /** Every remembered number is there, no other, and none twice. */
  lemma {:induction false} FallbackMeaning(rules: Rules, rows: seq<Row>)
    ensures forall e :: Has(Fallback(rules, rows), e) <==>
              exists row :: row in rows && Remembers(rules, row) && NumberOf(rules, row.line) == e
    ensures forall i, j :: 0 <= i < j < |Fallback(rules, rows)| ==>
              Fallback(rules, rows)[i].extension != Fallback(rules, rows)[j].extension
  {
    if rows != [] {
      var before, last := rows[..|rows| - 1], rows[|rows| - 1];
      var front, all := Fallback(rules, before), Fallback(rules, rows);
      FallbackMeaning(rules, before);
      RememberedIsListed(rules, last);
      assert forall row :: row in rows <==> row in before || row == last;
      assert Item(rules, last).extension == Number(rules, last.line);
      FallbackStep(front, all, Item(rules, last));
      forall e
        ensures Has(all, e) <==> exists row :: row in rows && Remembers(rules, row) && NumberOf(rules, row.line) == e
      {
        if Remembers(rules, last) && NumberOf(rules, last.line) == e {
          assert last in rows;
        }
      }
    }
  }

  /** Of several lines with one number, the first speaks for it: each field of the item comes from it. */
  lemma {:induction false} FallbackFromFirst(rules: Rules, rows: seq<Row>, x: Extension) returns (k: nat)
    requires x in Fallback(rules, rows)
    ensures FirstWith(rules, rows, k) && Describes(rules, rows[k], x)
  {
    var n := |rows| - 1;
    var before := rows[..n];
    if x in Fallback(rules, before) {
      k := FallbackFromFirst(rules, before, x);
    } else {
      k := n;
      FallbackMeaning(rules, before);
      RememberedIsListed(rules, rows[n]);
      ItemDescribes(rules, rows[n]);
      forall j | 0 <= j < n && Remembers(rules, rows[j])
        ensures NumberOf(rules, rows[j].line) != NumberOf(rules, rows[n].line)
      {
        assert rows[j] in before;
      }
    }
  }

  // ---- The loops ----

  lemma FallbackStep(front: seq<Extension>, all: seq<Extension>, x: Extension)
    requires all == front || all == front + [x]
    ensures forall e :: Has(all, e) <==> Has(front, e) || (all == front + [x] && x.extension == e)
  {
    forall e ensures Has(all, e) <==> Has(front, e) || (all == front + [x] && x.extension == e) {
      if all == front + [x] {
        assert forall y :: y in all <==> y in front || y == x;
      }
    }
  }

  /** A dictionary keyed by owner and number, in insertion order; a later item takes the place of an earlier one. */
  method Deduplicate(items: seq<Extension>) returns (unique: seq<Extension>)
    ensures (forall i, j :: 0 <= i < j < |items| ==> items[i].extension != items[j].extension) ==> unique == items
  {
    unique := [];
    var places: map<(string, string), nat> := map[];
    for i := 0 to |items|
      invariant forall key :: key in places ==> places[key] < |unique|
      invariant forall key :: key in places ==> exists j :: 0 <= j < i && items[j].extension == key.1
      invariant (forall a, b :: 0 <= a < b < |items| ==> items[a].extension != items[b].extension)
        ==> unique == items[..i]
    {
      var key := (items[i].id, items[i].extension);
      if key in places {
        unique := unique[places[key] := items[i]];
      } else {
        places := places[key := |unique|];
        unique := unique + [items[i]];
      }
    }
  }

  /** The remembered extensions; removing duplicates afterwards removes nothing. */
  method FallbackExtensions(rules: Rules, rows: seq<Row>) returns (items: seq<Extension>)
    ensures items == Fallback(rules, rows)
  {
    items := [];
    var seen: set<string> := {};
    for i := 0 to |rows|
      invariant items == Fallback(rules, rows[..i])
      invariant forall e :: e in seen <==> Has(items, e)
    {
      var row := rows[i];
      assert rows[..i + 1][..i] == rows[..i];
      if row.line.isActive && rules.allowed(row.line.phone) {
        var number := Number(rules, row.line);
        if number != "" && number !in seen {
          FallbackStep(items, items + [Item(rules, row)], Item(rules, row));
          items := items + [Item(rules, row)];
          seen := seen + {number};
        }
      }
    }
    assert rows[..|rows|] == rows;
    FallbackMeaning(rules, rows);
    items := Deduplicate(items);
  }

  datatype Source = MangoApi | CachedInventory

  datatype ExtensionList = ServiceNotConfigured | ApiUnavailable | Extensions(items: seq<Extension>, source: Source)

  /** Every live and every remembered number is listed, no other, and none twice. */
  ghost predicate Covers(items: seq<Extension>, live: seq<Extension>, rules: Rules, rows: seq<Row>) {
    && (forall e :: Has(items, e) <==>
          Has(live, e) || exists row :: row in rows && Remembers(rules, row) && NumberOf(rules, row.line) == e)
    && forall i, j :: 0 <= i < j < |items| ==> items[i].extension != items[j].extension
  }

  /** Every item describes the first line with its number. */
  ghost predicate Described(items: seq<Extension>, rules: Rules, rows: seq<Row>) {
    forall x :: x in items ==> exists k: nat :: FirstWith(rules, rows, k) && Describes(rules, rows[k], x)
  }

  /** Live items over remembered ones if the API answered, else the remembered ones. */
  ghost predicate Composed(items: seq<Extension>, live: Option<seq<Extension>>, remembered: seq<Extension>) {
    if live.Some?
    then Sorted(items) && forall x :: x in items <==> Merged(live.value, remembered, x.extension) == Some(x)
    else items == remembered
  }

  lemma NothingRemembered(rules: Rules, rows: seq<Row>)
    ensures Fallback(rules, rows) == [] <==> forall row :: row in rows ==> !Remembers(rules, row)
  {
    var remembered := Fallback(rules, rows);
    FallbackMeaning(rules, rows);
    if remembered == [] {
      forall row | row in rows ensures !Remembers(rules, row) {
        assert !Has(remembered, NumberOf(rules, row.line));
      }
    } else {
      assert Has(remembered, remembered[0].extension) by { assert remembered[0] in remembered; }
    }
  }

  lemma AllDescribed(rules: Rules, rows: seq<Row>)
    ensures Described(Fallback(rules, rows), rules, rows)
  {
    forall x | x in Fallback(rules, rows)
      ensures exists k: nat :: FirstWith(rules, rows, k) && Describes(rules, rows[k], x)
    {
      var k := FallbackFromFirst(rules, rows, x);
    }
  }

  /** `live` is None if the API is unavailable. */
  method ListExtensions(configured: bool, live: Option<seq<Extension>>, rules: Rules, rows: seq<Row>)
    returns (answer: ExtensionList)
    ensures answer.ServiceNotConfigured? <==> !configured
    ensures answer.ApiUnavailable? <==> configured && live.None? && forall row :: row in rows ==> !Remembers(rules, row)
    ensures answer.Extensions? ==>
              && Covers(answer.items, if live.Some? then live.value else [], rules, rows)
              && Composed(answer.items, live, Fallback(rules, rows))
              && Described(Fallback(rules, rows), rules, rows)
    ensures answer.Extensions? ==>
              (answer.source.CachedInventory?
               <==> (live.None? || live.value == []) && exists row :: row in rows && Remembers(rules, row))
  {
    if !configured {
      return ServiceNotConfigured;
    }
    var remembered := FallbackExtensions(rules, rows);
    FallbackMeaning(rules, rows);
    NothingRemembered(rules, rows);
    AllDescribed(rules, rows);
    if live.Some? {
      var merged := MergeExtensionItems(live.value, remembered);
      MergeCoversBoth(live.value, remembered, merged);
      return Extensions(merged, if live.value != [] || remembered == [] then MangoApi else CachedInventory);
    }
    if remembered != [] {
      return Extensions(remembered, CachedInventory);
    }
    return ApiUnavailable;
  }
}
