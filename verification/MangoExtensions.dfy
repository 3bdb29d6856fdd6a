/** Merging live extensions over those remembered in the inventory. */
module MangoExtensions {
  import opened Seqs
  import opened MangoModel

  /** A string before another in dictionary order of its characters. */
  predicate Less(a: string, b: string) {
    if b == [] then false
    else if a == [] then true
    else a[0] < b[0] || (a[0] == b[0] && Less(a[1..], b[1..]))
  }

  /** The texts agree before position k; there `a` ends and `b` goes on, or `a` has the smaller character. */
  predicate BeforeAt(a: string, b: string, k: nat) {
    k <= |a| && k < |b| && (forall i :: 0 <= i < k ==> a[i] == b[i]) && (k < |a| ==> a[k] < b[k])
  }

  lemma {:induction false} LessWitness(a: string, b: string) returns (k: nat)
    requires Less(a, b)
    ensures BeforeAt(a, b, k)
  {
    k := 0;
    if a != [] && a[0] == b[0] {
      var j := LessWitness(a[1..], b[1..]);
      k := j + 1;
      forall i | 0 <= i < k ensures a[i] == b[i] {
        assert i > 0 ==> a[1..][i - 1] == b[1..][i - 1];
      }
    }
  }

  lemma {:induction false} WitnessLess(a: string, b: string, k: nat)
    requires BeforeAt(a, b, k)
    ensures Less(a, b)
  {
    if k > 0 {
      assert forall i :: 0 <= i < k - 1 ==> a[1..][i] == a[i + 1] && b[1..][i] == b[i + 1];
      WitnessLess(a[1..], b[1..], k - 1);
    }
  }

  /** The order of texts is decided at the first position where they differ. */
  lemma LessMeaning(a: string, b: string)
    ensures Less(a, b) <==> exists k: nat :: BeforeAt(a, b, k)
  {
    if Less(a, b) {
      var k := LessWitness(a, b);
    }
    if k: nat :| BeforeAt(a, b, k) {
      WitnessLess(a, b, k);
    }
  }

  lemma {:induction false} LessTotal(a: string, b: string)
    ensures Less(a, b) || a == b || Less(b, a)
    ensures !(Less(a, b) && Less(b, a)) && !Less(a, a)
  {
    if a != [] && b != [] {
      LessTotal(a[1..], b[1..]);
      LessTotal(a[1..], a[1..]);
      assert a == [a[0]] + a[1..] && b == [b[0]] + b[1..];
    } else if a != [] {
      LessTotal(a[1..], a[1..]);
    }
  }

  lemma {:induction false} LessTransitive(a: string, b: string, c: string)
    requires Less(a, b) && Less(b, c)
    ensures Less(a, c)
  {
    if a != [] && b != [] && c != [] && a[0] == b[0] == c[0] {
      LessTransitive(a[1..], b[1..], c[1..]);
    }
  }

  /** Python's `a or b` on strings. */
  function OrText(a: string, b: string): string {
    if a != "" then a else b
  }

  /** Python's {**b, **a}. */
  function Overlay(live: Payload, cached: Payload): Payload {
    cached + live
  }

  /** A live item over what is there for its extension. */
  function Over(live: Extension, cached: Extension): Extension {
    Extension(OrText(live.id, cached.id), OrText(live.extension, cached.extension), Or(live.display, cached.display),
              Or(live.lineId, cached.lineId), Or(live.linePhone, cached.linePhone), Overlay(live.raw, cached.raw))
  }

  /** The items of one extension, in order. */
  function Of(items: seq<Extension>, e: string): seq<Extension> {
    if items == [] then []
    else Of(items[..|items| - 1], e) + if items[|items| - 1].extension == e then [items[|items| - 1]] else []
  }

  /** What there is to merge for one extension: the last cached item, then the live ones. */
  function Sources(live: seq<Extension>, cached: seq<Extension>, e: string): seq<Extension> {
    var known := Of(cached, e);
    (if known == [] then [] else [known[|known| - 1]]) + Of(live, e)
  }

  function Fold(sources: seq<Extension>): Extension
    requires sources != []
  {
    if |sources| == 1 then sources[0] else Over(sources[|sources| - 1], Fold(sources[..|sources| - 1]))
  }

  /** The merged item of an extension, if either side has one. */
  function Merged(live: seq<Extension>, cached: seq<Extension>, e: string): Option<Extension> {
    var sources := Sources(live, cached, e);
    if sources == [] then None else Some(Fold(sources))
  }

  // ---- What merging means, field by field ----

  predicate Has(items: seq<Extension>, e: string) {
    exists x :: x in items && x.extension == e
  }

  lemma {:induction false} OfMeaning(items: seq<Extension>, e: string)
    ensures forall x :: x in Of(items, e) <==> x in items && x.extension == e
  {
    if items != [] {
      OfMeaning(items[..|items| - 1], e);
      assert items == items[..|items| - 1] + [items[|items| - 1]];
    }
  }

  /** Position i has the last, respectively the first, item of an extension. */
  predicate LastOf(items: seq<Extension>, e: string, i: nat) {
    i < |items| && items[i].extension == e && forall j :: i < j < |items| ==> items[j].extension != e
  }

  predicate FirstOf(items: seq<Extension>, e: string, i: nat) {
    i < |items| && items[i].extension == e && forall j :: 0 <= j < i ==> items[j].extension != e
  }

  /** A field of an item, and which of its values say something. */
  datatype Field<!T> = Field(of: Extension -> Option<T>, says: Option<T> -> bool)

  /** Position i has the last item of an extension whose field says something. */
  ghost predicate LastSaid<T>(items: seq<Extension>, e: string, f: Field<T>, i: nat) {
    && i < |items| && items[i].extension == e && f.says(f.of(items[i]))
    && forall j :: i < j < |items| && items[j].extension == e ==> !f.says(f.of(items[j]))
  }

  ghost predicate Unsaid<T>(items: seq<Extension>, e: string, f: Field<T>) {
    forall j :: 0 <= j < |items| && items[j].extension == e ==> !f.says(f.of(items[j]))
  }

  /**
   A field of the merged item of an extension is that of the last live item in which it says something; without one,
   that of the last cached item; without one, that of the first live item.
   */
  ghost predicate FieldMerged<T>(live: seq<Extension>, cached: seq<Extension>, e: string, f: Field<T>, v: Option<T>) {
    && (forall i: nat :: LastSaid(live, e, f, i) ==> v == f.of(live[i]))
    && (Unsaid(live, e, f) ==> forall k: nat :: LastOf(cached, e, k) ==> v == f.of(cached[k]))
    && (Unsaid(live, e, f) && !Has(cached, e) ==> forall i: nat :: FirstOf(live, e, i) ==> v == f.of(live[i]))
  }

  /** Laying one item over another, a field comes from the upper one if it says something there. */
  ghost predicate Overlays<T>(f: Field<T>) {
    forall x, y :: f.of(Over(x, y)) == if f.says(f.of(x)) then f.of(x) else f.of(y)
  }

  lemma {:induction false} LastOfIs(items: seq<Extension>, e: string, k: nat)
    requires LastOf(items, e, k)
    ensures Of(items, e) != [] && Of(items, e)[|Of(items, e)| - 1] == items[k]
  {
    if k < |items| - 1 {
      LastOfIs(items[..|items| - 1], e, k);
    }
  }

  lemma CachedAlone<T>(cached: seq<Extension>, e: string, f: Field<T>)
    requires Merged([], cached, e).Some?
    ensures FieldMerged([], cached, e, f, f.of(Merged([], cached, e).value))
  {
    OfMeaning(cached, e);
    assert Of([], e) == [];
    forall k: nat | LastOf(cached, e, k) ensures Merged([], cached, e).value == cached[k] {
      LastOfIs(cached, e, k);
    }
  }

  /** One more live item of the extension. */
  lemma FieldNext<T>(
    front: seq<Extension>, cached: seq<Extension>, x: Extension, f: Field<T>, before: Option<T>, after: Option<T>)
    requires FieldMerged(front, cached, x.extension, f, before)
    requires Has(front, x.extension) || Has(cached, x.extension)
    requires after == if f.says(f.of(x)) then f.of(x) else before
    ensures FieldMerged(front + [x], cached, x.extension, f, after)
  {
    var live, e := front + [x], x.extension;
    assert live[|front|] == x;
    assert forall i :: 0 <= i < |front| ==> live[i] == front[i];
    if !f.says(f.of(x)) {
      forall i: nat | LastSaid(live, e, f, i) ensures after == f.of(live[i]) {
        assert LastSaid(front, e, f, i);
      }
      forall i: nat | FirstOf(live, e, i) && !Has(cached, e) ensures i < |front| && FirstOf(front, e, i) {
        var y :| y in front && y.extension == e;
        var j :| 0 <= j < |front| && front[j] == y;
        assert live[j].extension == e;
      }
    }
  }

  /** One more live item of another extension. */
  lemma FieldAside<T>(
    front: seq<Extension>, cached: seq<Extension>, x: Extension, e: string, f: Field<T>, v: Option<T>)
    requires FieldMerged(front, cached, e, f, v) && x.extension != e
    ensures FieldMerged(front + [x], cached, e, f, v)
  {
    var live := front + [x];
    assert forall i :: 0 <= i < |front| ==> live[i] == front[i];
    forall i: nat | LastSaid(live, e, f, i) ensures i < |front| && LastSaid(front, e, f, i) {
    }
    forall i: nat | FirstOf(live, e, i) ensures i < |front| && FirstOf(front, e, i) {
    }
  }

  /** The first live item of an extension that is not cached. */
  lemma FieldFirst<T>(front: seq<Extension>, cached: seq<Extension>, x: Extension, f: Field<T>)
    requires !Has(front, x.extension) && !Has(cached, x.extension)
    ensures FieldMerged(front + [x], cached, x.extension, f, f.of(x))
  {
    NotThere(front, x.extension);
    NotThere(cached, x.extension);
  }

  lemma NotThere(items: seq<Extension>, e: string)
    requires !Has(items, e)
    ensures forall i :: 0 <= i < |items| ==> items[i].extension != e
  {
    forall i | 0 <= i < |items| ensures items[i].extension != e {
      assert items[i] in items;
    }
  }

  lemma MergedWhere(live: seq<Extension>, cached: seq<Extension>, e: string)
    ensures Merged(live, cached, e).Some? <==> Has(live, e) || Has(cached, e)
  {
    OfMeaning(live, e);
    OfMeaning(cached, e);
    if Has(live, e) {
      var x :| x in live && x.extension == e;
      assert x in Of(live, e);
    }
    if Has(cached, e) {
      var x :| x in cached && x.extension == e;
      assert x in Of(cached, e);
    }
    if Sources(live, cached, e) != [] {
      assert Sources(live, cached, e)[0] in live || Sources(live, cached, e)[0] in cached;
    }
  }

  lemma {:induction false} FieldFollows<T>(live: seq<Extension>, cached: seq<Extension>, e: string, f: Field<T>)
    requires Overlays(f) && Merged(live, cached, e).Some?
    ensures FieldMerged(live, cached, e, f, f.of(Merged(live, cached, e).value))
  {
    if live == [] {
      CachedAlone(cached, e, f);
    } else {
      var front, x := live[..|live| - 1], live[|live| - 1];
      assert live == front + [x];
      MergedNext(front, cached, x, e);
      MergedWhere(front, cached, e);
      if Merged(front, cached, e).Some? {
        FieldFollows(front, cached, e, f);
        var before := Merged(front, cached, e).value;
        if x.extension == e {
          FieldNext(front, cached, x, f, f.of(before), f.of(Over(x, before)));
        } else {
          FieldAside(front, cached, x, e, f, f.of(before));
        }
      } else {
        FieldFirst(front, cached, x, f);
      }
    }
  }

  lemma {:induction false} MergedExtension(live: seq<Extension>, cached: seq<Extension>, e: string)
    requires Merged(live, cached, e).Some?
    ensures Merged(live, cached, e).value.extension == e
  {
    if live == [] {
      OfMeaning(cached, e);
      assert Of([], e) == [];
    } else {
      var front, x := live[..|live| - 1], live[|live| - 1];
      assert live == front + [x];
      MergedNext(front, cached, x, e);
      if Merged(front, cached, e).Some? {
        MergedExtension(front, cached, e);
      }
    }
  }

  /** The texts of an item, of which the empty one says nothing, and the value under a key of its payload. */
  const ID: Field<string> := Field((x: Extension) => Some(x.id), (v: Option<string>) => v.Some? && v.value != "")
  const DISPLAY: Field<string> := Field((x: Extension) => x.display, (v: Option<string>) => v.Some? && v.value != "")
  const LINE_ID: Field<string> := Field((x: Extension) => x.lineId, (v: Option<string>) => v.Some? && v.value != "")
  const LINE_PHONE: Field<string> :=
    Field((x: Extension) => x.linePhone, (v: Option<string>) => v.Some? && v.value != "")

  function UnderKey(key: string): Field<Json> {
    Field((x: Extension) => if key in x.raw then Some(x.raw[key]) else None, (v: Option<Json>) => v.Some?)
  }

  /** The merged extensions are those of either side, and each field is the newest that says something. */
  lemma MergedMeaning(live: seq<Extension>, cached: seq<Extension>, e: string)
    ensures Merged(live, cached, e).Some? <==> Has(live, e) || Has(cached, e)
    ensures Merged(live, cached, e).Some? ==>
              var x := Merged(live, cached, e).value;
              && x.extension == e
              && FieldMerged(live, cached, e, ID, Some(x.id))
              && FieldMerged(live, cached, e, DISPLAY, x.display)
              && FieldMerged(live, cached, e, LINE_ID, x.lineId)
              && FieldMerged(live, cached, e, LINE_PHONE, x.linePhone)
              && forall key ::
                   FieldMerged(live, cached, e, UnderKey(key), if key in x.raw then Some(x.raw[key]) else None)
  {
    MergedWhere(live, cached, e);
    if Merged(live, cached, e).Some? {
      MergedExtension(live, cached, e);
      FieldFollows(live, cached, e, ID);
      FieldFollows(live, cached, e, DISPLAY);
      FieldFollows(live, cached, e, LINE_ID);
      FieldFollows(live, cached, e, LINE_PHONE);
      var x := Merged(live, cached, e).value;
      forall key
        ensures FieldMerged(live, cached, e, UnderKey(key), if key in x.raw then Some(x.raw[key]) else None)
      {
        assert Overlays(UnderKey(key));
        FieldFollows(live, cached, e, UnderKey(key));
      }
    }
  }

  // ---- The loops ----

  ghost predicate Holds(table: map<string, Extension>, live: seq<Extension>, cached: seq<Extension>) {
    forall e :: Merged(live, cached, e) == if e in table then Some(table[e]) else None
  }

  lemma CachedNext(cached: seq<Extension>, x: Extension, table: map<string, Extension>)
    requires Holds(table, [], cached)
    ensures Holds(table[x.extension := x], [], cached + [x])
  {
    var more := cached + [x];
    assert more[..|cached|] == cached;
    var longer := table[x.extension := x];
    forall e ensures Merged([], more, e) == if e in longer then Some(longer[e]) else None {
      assert Merged([], cached, e) == if e in table then Some(table[e]) else None;
      assert Of(more, e) == Of(cached, e) + if x.extension == e then [x] else [];
    }
  }

  lemma SourcesNext(live: seq<Extension>, cached: seq<Extension>, x: Extension, e: string)
    ensures Sources(live + [x], cached, e) == Sources(live, cached, e) + if x.extension == e then [x] else []
  {
    assert (live + [x])[..|live|] == live;
  }

  lemma FoldNext(before: seq<Extension>, x: Extension)
    ensures Fold(before + [x]) == if before == [] then x else Over(x, Fold(before))
  {
    assert (before + [x])[..|before|] == before;
  }

  lemma MergedNext(live: seq<Extension>, cached: seq<Extension>, x: Extension, e: string)
    ensures var before := Merged(live, cached, e);
            Merged(live + [x], cached, e)
            == if x.extension != e then before else if before.Some? then Some(Over(x, before.value)) else Some(x)
  {
    SourcesNext(live, cached, x, e);
    if x.extension == e {
      FoldNext(Sources(live, cached, e), x);
    } else {
      assert Sources(live, cached, e) + [] == Sources(live, cached, e);
    }
  }

  lemma LiveNext(live: seq<Extension>, cached: seq<Extension>, x: Extension, table: map<string, Extension>)
    requires Holds(table, live, cached)
    ensures var y := if x.extension in table then Over(x, table[x.extension]) else x;
            Holds(table[x.extension := y], live + [x], cached)
  {
    forall e
      ensures var before := if e in table then Some(table[e]) else None;
              Merged(live + [x], cached, e)
              == if x.extension != e then before else if before.Some? then Some(Over(x, before.value)) else Some(x)
    {
      MergedNext(live, cached, x, e);
    }
  }

  predicate SortsBefore(a: Extension, b: Extension) {
    Less(a.extension, b.extension) || (a.extension == b.extension && !Less(b.id, a.id))
  }

  predicate Sorted(items: seq<Extension>) {
    forall i, j :: 0 <= i < j < |items| ==> Less(items[i].extension, items[j].extension)
  }

  /** Where an item belongs among sorted ones. */
  method Insert(items: seq<Extension>, x: Extension) returns (longer: seq<Extension>)
    requires Sorted(items) && forall i :: 0 <= i < |items| ==> items[i].extension != x.extension
    ensures Sorted(longer) && forall y :: y in longer <==> y in items || y == x
  {
    var k := 0;
    while k < |items| && SortsBefore(items[k], x)
      invariant k <= |items| && forall i :: 0 <= i < k ==> Less(items[i].extension, x.extension)
    {
      k := k + 1;
    }
    longer := items[..k] + [x] + items[k..];
    if k < |items| {
      LessTotal(items[k].extension, x.extension);
      forall j | k < j < |items| ensures Less(x.extension, items[j].extension) {
        LessTransitive(x.extension, items[k].extension, items[j].extension);
      }
    }
    SpliceSorted(items, x, k);
    forall y ensures y in longer <==> y in items || y == x {
      assert items == items[..k] + items[k..];
    }
  }

  lemma SpliceSorted(items: seq<Extension>, x: Extension, k: nat)
    requires Sorted(items) && k <= |items|
    requires forall i :: 0 <= i < k ==> Less(items[i].extension, x.extension)
    requires forall i :: k <= i < |items| ==> Less(x.extension, items[i].extension)
    ensures Sorted(items[..k] + [x] + items[k..])
  {
    var longer := items[..k] + [x] + items[k..];
    assert forall i :: 0 <= i < |longer| ==>
      longer[i] == if i < k then items[i] else if i == k then x else items[i - 1];
  }

  /** Live extensions over cached ones: one item per extension, strictly sorted by extension. */
  method MergeExtensionItems(live: seq<Extension>, cached: seq<Extension>) returns (items: seq<Extension>)
    ensures Sorted(items)
    ensures forall x :: x in items <==> Merged(live, cached, x.extension) == Some(x)
  {
    var table: map<string, Extension> := map[];
    for i := 0 to |cached|
      invariant Holds(table, [], cached[..i])
    {
      CachedNext(cached[..i], cached[i], table);
      assert cached[..i + 1] == cached[..i] + [cached[i]];
      table := table[cached[i].extension := cached[i]];
    }
    assert cached[..|cached|] == cached && live[..0] == [];
    for i := 0 to |live|
      invariant Holds(table, live[..i], cached)
    {
      var x := live[i];
      LiveNext(live[..i], cached, x, table);
      assert live[..i + 1] == live[..i] + [x];
      table := table[x.extension := if x.extension in table then Over(x, table[x.extension]) else x];
    }
    assert live[..|live|] == live;
    items := SortedValues(table, live, cached);
  }

  method SortedValues(table: map<string, Extension>, ghost live: seq<Extension>, ghost cached: seq<Extension>)
    returns (items: seq<Extension>)
    requires Holds(table, live, cached)
    ensures Sorted(items)
    ensures forall x :: x in items <==> Merged(live, cached, x.extension) == Some(x)
  {
    forall e | e in table ensures table[e].extension == e {
      assert Merged(live, cached, e) == Some(table[e]);
      MergedMeaning(live, cached, e);
    }
    items := [];
    var left := table.Keys;
    while left != {}
      invariant left <= table.Keys && Sorted(items)
      invariant forall x :: x in items <==> x.extension in table.Keys - left && table[x.extension] == x
      decreases left
    {
      var e :| e in left;
      items := Insert(items, table[e]);
      left := left - {e};
    }
    forall x ensures x in items <==> Merged(live, cached, x.extension) == Some(x) {
      assert Merged(live, cached, x.extension) == if x.extension in table then Some(table[x.extension]) else None;
    }
  }

  /** The list a caller gets covers exactly the extensions of both sides, once each. */
  lemma MergeCoversBoth(live: seq<Extension>, cached: seq<Extension>, items: seq<Extension>)
    requires Sorted(items) && forall x :: x in items <==> Merged(live, cached, x.extension) == Some(x)
    ensures forall e :: Has(items, e) <==> Has(live, e) || Has(cached, e)
    ensures forall i, j :: 0 <= i < j < |items| ==> items[i].extension != items[j].extension
  {
    forall e ensures Has(items, e) <==> Has(live, e) || Has(cached, e) {
      MergedMeaning(live, cached, e);
      if Merged(live, cached, e).Some? {
        assert Merged(live, cached, e).value in items;
      }
    }
    forall i, j | 0 <= i < j < |items| ensures items[i].extension != items[j].extension {
      LessTotal(items[i].extension, items[j].extension);
    }
  }
}
