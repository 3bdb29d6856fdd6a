/** The remote lines as the Mango client hands them out: of allowed numbers only, and without duplicates. */
module MangoClient {
  import opened Seqs
  import opened MangoModel
  import opened MangoSync
  import opened MangoTheorems

  // ---- Phone numbers ----

  /** Which characters are white space and which are digits. */
  datatype Alphabet = Alphabet(space: char -> bool, digit: char -> bool)
  {
    ghost predicate Valid() {
      !space('+') && !space('7') && forall c :: digit(c) ==> !space(c)
    }
  }

  function StripLeft(a: Alphabet, s: string): string {
    if s != [] && a.space(s[0]) then StripLeft(a, s[1..]) else s
  }

  function StripRight(a: Alphabet, s: string): string {
    if s != [] && a.space(s[|s| - 1]) then StripRight(a, s[..|s| - 1]) else s
  }

  function Strip(a: Alphabet, s: string): string {
    StripRight(a, StripLeft(a, s))
  }

  function Digits(a: Alphabet, s: string): (d: string)
    ensures forall c <- d :: a.digit(c)
  {
    if s == [] then [] else (if a.digit(s[0]) then [s[0]] else []) + Digits(a, s[1..])
  }

  /** A number in international form where it looks Russian, otherwise as it is. */
  function Normalize(a: Alphabet, number: string): string {
    var cleaned := Strip(a, number);
    var digits := Digits(a, cleaned);
    if cleaned != "" && cleaned[0] == '+' then cleaned
    else if |digits| == 11 && digits[0] == '8' then "+7" + digits[1..]
    else if |digits| == 11 && digits[0] == '7' then "+" + digits
    else if |digits| == 10 then "+7" + digits
    else cleaned
  }

  predicate Stripped(a: Alphabet, s: string) {
    s == [] || (!a.space(s[0]) && !a.space(s[|s| - 1]))
  }

  lemma {:induction false} StripLeftClean(a: Alphabet, s: string)
    ensures var t := StripLeft(a, s); t == [] || !a.space(t[0])
  {
    if s != [] && a.space(s[0]) {
      StripLeftClean(a, s[1..]);
    }
  }

  lemma {:induction false} StripRightClean(a: Alphabet, s: string)
    requires s == [] || !a.space(s[0])
    ensures Stripped(a, StripRight(a, s))
  {
    if s != [] && a.space(s[|s| - 1]) {
      StripRightClean(a, s[..|s| - 1]);
    }
  }

  lemma StrippedStays(a: Alphabet, s: string)
    ensures Stripped(a, Strip(a, s))
    ensures Stripped(a, s) ==> Strip(a, s) == s
  {
    StripLeftClean(a, s);
    StripRightClean(a, StripLeft(a, s));
  }

  /** Stripping takes away white space at both ends, and all of it. */
  lemma StripMeaning(a: Alphabet, s: string) returns (i: nat, j: nat)
    ensures i <= j <= |s| && Strip(a, s) == s[i..j]
    ensures forall k :: 0 <= k < i || j <= k < |s| ==> a.space(s[k])
    ensures i < j ==> !a.space(s[i]) && !a.space(s[j - 1])
  {
    i := StripLeftMeaning(a, s);
    var n := StripRightMeaning(a, s[i..]);
    j := i + n;
    StrippedStays(a, s);
    forall k | j <= k < |s| ensures a.space(s[k]) {
      assert s[i..][k - i] == s[k];
    }
    assert s[i..][..n] == s[i..j];
  }

  lemma {:induction false} StripLeftMeaning(a: Alphabet, s: string) returns (i: nat)
    ensures i <= |s| && StripLeft(a, s) == s[i..] && forall k :: 0 <= k < i ==> a.space(s[k])
  {
    i := 0;
    if s != [] && a.space(s[0]) {
      var j := StripLeftMeaning(a, s[1..]);
      i := j + 1;
      forall k | 0 <= k < i ensures a.space(s[k]) {
        assert k > 0 ==> s[1..][k - 1] == s[k];
      }
    }
  }

  lemma {:induction false} StripRightMeaning(a: Alphabet, s: string) returns (n: nat)
    ensures n <= |s| && StripRight(a, s) == s[..n] && forall k :: n <= k < |s| ==> a.space(s[k])
  {
    n := |s|;
    if s != [] && a.space(s[|s| - 1]) {
      n := StripRightMeaning(a, s[..|s| - 1]);
    }
  }

  /** Only digits count, in their order. */
  lemma {:induction false} DigitsMeaning(a: Alphabet, x: string, c: char, y: string)
    ensures Digits(a, x + [c] + y) == Digits(a, x) + (if a.digit(c) then [c] else []) + Digits(a, y)
    ensures Digits(a, []) == []
  {
    if x == [] {
      assert x + [c] + y == [c] + y && ([c] + y)[1..] == y;
    } else {
      assert (x + [c] + y)[1..] == x[1..] + [c] + y;
      DigitsMeaning(a, x[1..], c, y);
    }
  }

  /**
   What a number becomes: in international form it stays; otherwise its digits decide. Eleven of them from 8 or 7 on,
   and ten, are Russian numbers; any others leave the text as it is.
   */
  lemma NormalizeMeaning(a: Alphabet, number: string)
    ensures var t := Strip(a, number); var d := Digits(a, t);
            && ((t != "" && t[0] == '+') || (|d| != 10 && (|d| != 11 || d[0] !in {'7', '8'}))
                ==> Normalize(a, number) == t)
            && ((t == "" || t[0] != '+') && |d| == 11 && d[0] in {'7', '8'} ==>
                  && |Normalize(a, number)| == 12 && Normalize(a, number)[..2] == "+7"
                  && Normalize(a, number)[2..] == d[1..])
            && ((t == "" || t[0] != '+') && |d| == 10 ==>
                  |Normalize(a, number)| == 12 && Normalize(a, number)[..2] == "+7" && Normalize(a, number)[2..] == d)
  {
  }

  lemma InternationalStays(a: Alphabet, rest: string)
    requires a.Valid() && forall c <- rest :: a.digit(c) || c == '7'
    ensures Normalize(a, "+" + rest) == "+" + rest
  {
    var s := "+" + rest;
    if rest != [] {
      assert s[|s| - 1] == rest[|rest| - 1];
    }
    StrippedStays(a, s);
  }

  /** A normalized number is not changed by normalizing it again. */
  lemma NormalizeIdempotent(a: Alphabet, number: string)
    requires a.Valid()
    ensures Normalize(a, Normalize(a, number)) == Normalize(a, number)
  {
    var cleaned := Strip(a, number);
    var digits := Digits(a, cleaned);
    StrippedStays(a, number);
    StrippedStays(a, cleaned);
    if cleaned != "" && cleaned[0] == '+' {
    } else if |digits| == 11 && digits[0] == '8' {
      assert "+7" + digits[1..] == "+" + ("7" + digits[1..]);
      InternationalStays(a, "7" + digits[1..]);
    } else if |digits| == 11 && digits[0] == '7' {
      InternationalStays(a, digits);
    } else if |digits| == 10 {
      assert "+7" + digits == "+" + ("7" + digits);
      InternationalStays(a, "7" + digits);
    }
  }

  /** With a primary number configured only that number is allowed; without one every number is. */
  predicate Allowed(a: Alphabet, setting: string, number: string) {
    Normalize(a, setting) == "" || Normalize(a, number) == Normalize(a, setting)
  }

  // ---- The list of lines ----

  function AllowedLines(a: Alphabet, setting: string, lines: seq<RemoteLine>): seq<RemoteLine> {
    if lines == [] then []
    else
      var last := lines[|lines| - 1];
      AllowedLines(a, setting, lines[..|lines| - 1]) + if Allowed(a, setting, last.phone) then [last] else []
  }

  predicate SameKey(x: RemoteLine, y: RemoteLine) {
    x.id == y.id && x.phone == y.phone
  }

  /** Assignment in a dictionary that keeps the order of insertion. */
  function Put(items: seq<RemoteLine>, x: RemoteLine): seq<RemoteLine> {
    if items == [] then [x]
    else if SameKey(items[0], x) then [x] + items[1..]
    else [items[0]] + Put(items[1..], x)
  }

  function Deduplicated(lines: seq<RemoteLine>): seq<RemoteLine> {
    if lines == [] then [] else Put(Deduplicated(lines[..|lines| - 1]), lines[|lines| - 1])
  }

  /** What a sync gets of the parsed lines. */
  function ClientLines(a: Alphabet, setting: string, parsed: seq<RemoteLine>): seq<RemoteLine> {
    Deduplicated(AllowedLines(a, setting, parsed))
  }

  lemma {:induction false} PutAt(items: seq<RemoteLine>, x: RemoteLine, p: nat)
    requires p <= |items| && forall i :: 0 <= i < p ==> !SameKey(items[i], x)
    requires p < |items| ==> SameKey(items[p], x)
    ensures Put(items, x) == if p < |items| then items[p := x] else items + [x]
  {
    if items != [] && !SameKey(items[0], x) {
      PutAt(items[1..], x, p - 1);
    }
  }

  /** `places` says where in the list each key is. */
  ghost predicate Placed(unique: seq<RemoteLine>, places: map<(string, string), nat>) {
    && (forall key :: key in places ==> places[key] < |unique|)
    && (forall i :: 0 <= i < |unique| ==> (unique[i].id, unique[i].phone) in places)
    && (forall i :: 0 <= i < |unique| ==> places[(unique[i].id, unique[i].phone)] == i)
    && (forall key :: key in places ==> (unique[places[key]].id, unique[places[key]].phone) == key)
  }

  /** Inserts or replaces one line. */
  method Assign(unique: seq<RemoteLine>, places: map<(string, string), nat>, x: RemoteLine)
    returns (longer: seq<RemoteLine>, index: map<(string, string), nat>)
    requires Placed(unique, places)
    ensures Placed(longer, index) && longer == Put(unique, x)
  {
    var key := (x.id, x.phone);
    longer, index := unique, places;
    if key in places {
      PutAt(unique, x, places[key]);
      longer := longer[places[key] := x];
    } else {
      PutAt(unique, x, |unique|);
      index := index[key := |longer|];
      longer := longer + [x];
    }
  }

  method DeduplicateLines(lines: seq<RemoteLine>) returns (unique: seq<RemoteLine>)
    ensures unique == Deduplicated(lines)
  {
    unique := [];
    var places: map<(string, string), nat> := map[];
    for i := 0 to |lines|
      invariant unique == Deduplicated(lines[..i]) && Placed(unique, places)
    {
      assert lines[..i + 1][..i] == lines[..i];
      unique, places := Assign(unique, places, lines[i]);
    }
    assert lines[..|lines|] == lines;
  }

  method ListLines(a: Alphabet, setting: string, parsed: seq<RemoteLine>) returns (lines: seq<RemoteLine>)
    ensures lines == ClientLines(a, setting, parsed)
  {
    var filtered := [];
    for i := 0 to |parsed|
      invariant filtered == AllowedLines(a, setting, parsed[..i])
    {
      assert parsed[..i + 1][..i] == parsed[..i];
      if Allowed(a, setting, parsed[i].phone) {
        filtered := filtered + [parsed[i]];
      }
    }
    assert parsed[..|parsed|] == parsed;
    lines := DeduplicateLines(filtered);
  }

  // ---- When identifiers are distinct ----

  predicate DistinctKeys(items: seq<RemoteLine>) {
    forall i, j :: 0 <= i < j < |items| ==> !SameKey(items[i], items[j])
  }

  lemma {:induction false} PutMeaning(items: seq<RemoteLine>, x: RemoteLine)
    requires DistinctKeys(items)
    ensures DistinctKeys(Put(items, x))
    ensures forall y :: y in Put(items, x) <==> y == x || (y in items && !SameKey(y, x))
  {
    if items != [] && !SameKey(items[0], x) {
      var rest := Put(items[1..], x);
      PutMeaning(items[1..], x);
      forall j | 0 <= j < |rest| ensures !SameKey(items[0], rest[j]) {
        assert rest[j] in rest;
      }
      assert items == [items[0]] + items[1..];
    }
  }

  /** The last line of each key is kept, once. */
  ghost predicate LastOfKey(lines: seq<RemoteLine>, x: RemoteLine) {
    exists i :: 0 <= i < |lines| && lines[i] == x && forall j :: i < j < |lines| ==> !SameKey(lines[j], x)
  }

  lemma LastOfKeySnoc(front: seq<RemoteLine>, x: RemoteLine, y: RemoteLine)
    ensures LastOfKey(front + [x], y) <==> y == x || (LastOfKey(front, y) && !SameKey(y, x))
  {
    var lines := front + [x];
    if LastOfKey(lines, y) && y != x {
      var i :| 0 <= i < |lines| && lines[i] == y && forall j :: i < j < |lines| ==> !SameKey(lines[j], y);
      assert !SameKey(lines[|front|], y);
      assert forall j :: i < j < |front| ==> !SameKey(front[j], y) by {
        assert forall j :: 0 <= j < |front| ==> front[j] == lines[j];
      }
      assert front[i] == y;
    }
    if y == x {
      assert lines[|front|] == y;
    } else if LastOfKey(front, y) && !SameKey(y, x) {
      var i :| 0 <= i < |front| && front[i] == y && forall j :: i < j < |front| ==> !SameKey(front[j], y);
      assert lines[i] == y;
    }
  }

  lemma {:induction false} DeduplicatedMeaning(lines: seq<RemoteLine>)
    ensures DistinctKeys(Deduplicated(lines))
    ensures forall x :: x in Deduplicated(lines) <==> LastOfKey(lines, x)
  {
    if lines != [] {
      var front, last := lines[..|lines| - 1], lines[|lines| - 1];
      DeduplicatedMeaning(front);
      PutMeaning(Deduplicated(front), last);
      assert lines == front + [last];
      forall x ensures x in Deduplicated(lines) <==> LastOfKey(lines, x) {
        LastOfKeySnoc(front, last, x);
      }
    }
  }

  lemma {:induction false} KeyKept(lines: seq<RemoteLine>, x: RemoteLine) returns (y: RemoteLine)
    requires x in lines
    ensures y in Deduplicated(lines) && SameKey(x, y)
  {
    var front, last := lines[..|lines| - 1], lines[|lines| - 1];
    assert lines == front + [last];
    DeduplicatedMeaning(front);
    PutMeaning(Deduplicated(front), last);
    if SameKey(x, last) {
      y := last;
    } else {
      y := KeyKept(front, x);
    }
  }

  /** A phone is allowed if no primary number is set, or if it is that number. */
  ghost predicate Belongs(a: Alphabet, setting: string, phone: string) {
    Normalize(a, setting) != "" ==> Normalize(a, phone) == Normalize(a, setting)
  }

  lemma {:induction false} AllowedMeaning(a: Alphabet, setting: string, lines: seq<RemoteLine>)
    ensures forall x :: x in AllowedLines(a, setting, lines) <==> x in lines && Belongs(a, setting, x.phone)
  {
    if lines != [] {
      AllowedMeaning(a, setting, lines[..|lines| - 1]);
      assert lines == lines[..|lines| - 1] + [lines[|lines| - 1]];
    }
  }

  // ---- The order of the list ----

  /** The position of the first line with the key of a given one. */
  function FirstAt(lines: seq<RemoteLine>, x: RemoteLine): (i: nat)
    ensures i <= |lines|
  {
    if lines == [] || SameKey(lines[0], x) then 0 else 1 + FirstAt(lines[1..], x)
  }

  lemma {:induction false} FirstAtMeaning(lines: seq<RemoteLine>, x: RemoteLine)
    ensures var i := FirstAt(lines, x);
            (forall j :: 0 <= j < i ==> !SameKey(lines[j], x)) && (i < |lines| ==> SameKey(lines[i], x))
  {
    if lines != [] && !SameKey(lines[0], x) {
      FirstAtMeaning(lines[1..], x);
    }
  }

  lemma FirstAtIs(lines: seq<RemoteLine>, x: RemoteLine, i: nat)
    requires i < |lines| && SameKey(lines[i], x) && forall j :: 0 <= j < i ==> !SameKey(lines[j], x)
    ensures FirstAt(lines, x) == i
  {
    FirstAtMeaning(lines, x);
  }

  /** Lines come in the order in which their keys came first. */
  ghost predicate ByFirst(lines: seq<RemoteLine>, out: seq<RemoteLine>) {
    forall i, j :: 0 <= i < j < |out| ==> FirstAt(lines, out[i]) < FirstAt(lines, out[j])
  }

  /** A further line changes no first position, and is first itself if its key is new. */
  lemma FirstAtSnoc(front: seq<RemoteLine>, last: RemoteLine, x: RemoteLine)
    ensures FirstAt(front, x) < |front| ==> FirstAt(front + [last], x) == FirstAt(front, x)
    ensures FirstAt(front, x) == |front| && SameKey(last, x) ==> FirstAt(front + [last], x) == |front|
  {
    var all := front + [last];
    FirstAtMeaning(front, x);
    assert forall j :: 0 <= j < |front| ==> all[j] == front[j];
    if FirstAt(front, x) < |front| {
      FirstAtIs(all, x, FirstAt(front, x));
    } else if SameKey(last, x) {
      FirstAtIs(all, x, |front|);
    }
  }

  lemma SameKeySameFirst(lines: seq<RemoteLine>, x: RemoteLine, y: RemoteLine)
    requires SameKey(x, y)
    ensures FirstAt(lines, x) == FirstAt(lines, y)
  {
    FirstAtMeaning(lines, x);
    FirstAtMeaning(lines, y);
  }

  /** Where a dictionary puts an item: in place of the one with its key, or at the end. */
  lemma {:induction false} PutWhere(items: seq<RemoteLine>, x: RemoteLine) returns (p: nat)
    ensures p <= |items| && (p < |items| ==> SameKey(items[p], x)) && forall i :: 0 <= i < p ==> !SameKey(items[i], x)
    ensures Put(items, x) == if p < |items| then items[p := x] else items + [x]
  {
    if items == [] || SameKey(items[0], x) {
      p := 0;
    } else {
      var q := PutWhere(items[1..], x);
      p := q + 1;
      assert forall i :: 0 < i < |items| ==> items[1..][i - 1] == items[i];
    }
  }

  lemma NewKey(front: seq<RemoteLine>, x: RemoteLine)
    requires forall y :: y in Deduplicated(front) ==> !SameKey(y, x)
    ensures FirstAt(front, x) == |front|
  {
    FirstAtMeaning(front, x);
    if FirstAt(front, x) < |front| {
      var y := KeyKept(front, front[FirstAt(front, x)]);
    }
  }

  lemma {:induction false} DeduplicatedOrder(lines: seq<RemoteLine>)
    ensures ByFirst(lines, Deduplicated(lines))
    ensures forall x :: x in Deduplicated(lines) ==> FirstAt(lines, x) < |lines|
  {
    if lines != [] {
      var front, last := lines[..|lines| - 1], lines[|lines| - 1];
      var out := Deduplicated(front);
      assert lines == front + [last];
      DeduplicatedOrder(front);
      forall x ensures (FirstAt(front, x) < |front| ==> FirstAt(lines, x) == FirstAt(front, x))
                       && (FirstAt(front, x) == |front| && SameKey(last, x) ==> FirstAt(lines, x) == |front|) {
        FirstAtSnoc(front, last, x);
      }
      var p := PutWhere(out, last);
      if p == |out| {
        NewKey(front, last);
      }
      PutKeepsOrder(lines, out, last, p);
    }
  }

  lemma PutKeepsOrder(lines: seq<RemoteLine>, out: seq<RemoteLine>, x: RemoteLine, p: nat)
    requires ByFirst(lines, out) && p <= |out| && FirstAt(lines, x) < |lines|
    requires forall y :: y in out ==> FirstAt(lines, y) < |lines|
    requires if p < |out| then SameKey(out[p], x) else forall y :: y in out ==> FirstAt(lines, y) < FirstAt(lines, x)
    ensures var more := if p < |out| then out[p := x] else out + [x];
            ByFirst(lines, more) && forall y :: y in more ==> FirstAt(lines, y) < |lines|
  {
    if p < |out| {
      SameKeySameFirst(lines, out[p], x);
    } else {
      forall i | 0 <= i < |out| ensures FirstAt(lines, out[i]) < FirstAt(lines, x) {
        assert out[i] in out;
      }
    }
  }

  lemma {:induction false} AllowedAppend(a: Alphabet, setting: string, x: seq<RemoteLine>, y: seq<RemoteLine>)
    ensures AllowedLines(a, setting, x + y) == AllowedLines(a, setting, x) + AllowedLines(a, setting, y)
  {
    if y == [] {
      assert x + y == x;
    } else {
      var front, last := y[..|y| - 1], y[|y| - 1];
      assert (x + y)[..|x + y| - 1] == x + front;
      AllowedAppend(a, setting, x, front);
    }
  }

  lemma AllowedOne(a: Alphabet, setting: string, x: RemoteLine)
    ensures AllowedLines(a, setting, [x]) == if Allowed(a, setting, x.phone) then [x] else []
  {
    assert [x][..0] == [];
  }

  /** Whether a line is allowed depends on its key alone, so a list may be filtered before or after. */
  lemma {:induction false} AllowedPut(a: Alphabet, setting: string, items: seq<RemoteLine>, x: RemoteLine)
    ensures AllowedLines(a, setting, Put(items, x))
            == if Allowed(a, setting, x.phone) then Put(AllowedLines(a, setting, items), x)
               else AllowedLines(a, setting, items)
  {
    AllowedOne(a, setting, x);
    if items != [] {
      var first, rest := items[0], items[1..];
      assert items == [first] + rest;
      AllowedOne(a, setting, first);
      AllowedAppend(a, setting, [first], rest);
      if SameKey(first, x) {
        AllowedAppend(a, setting, [x], rest);
      } else {
        AllowedPut(a, setting, rest, x);
        AllowedAppend(a, setting, [first], Put(rest, x));
        PutBehind(a, setting, first, rest, x);
      }
    }
  }

  lemma PutBehind(a: Alphabet, setting: string, first: RemoteLine, rest: seq<RemoteLine>, x: RemoteLine)
    requires !SameKey(first, x)
    ensures var head := if Allowed(a, setting, first.phone) then [first] else [];
            Put(head + AllowedLines(a, setting, rest), x) == head + Put(AllowedLines(a, setting, rest), x)
  {
    var tail := AllowedLines(a, setting, rest);
    assert [] + tail == tail && [] + Put(tail, x) == Put(tail, x);
    assert ([first] + tail)[1..] == tail;
  }

  lemma {:induction false} FilterCommutes(a: Alphabet, setting: string, parsed: seq<RemoteLine>)
    ensures ClientLines(a, setting, parsed) == AllowedLines(a, setting, Deduplicated(parsed))
  {
    if parsed != [] {
      var front, last := parsed[..|parsed| - 1], parsed[|parsed| - 1];
      FilterCommutes(a, setting, front);
      AllowedPut(a, setting, Deduplicated(front), last);
      DeduplicatedSnoc(AllowedLines(a, setting, front), last);
    }
  }

  lemma DeduplicatedSnoc(front: seq<RemoteLine>, x: RemoteLine)
    ensures Deduplicated(front + [x]) == Put(Deduplicated(front), x)
    ensures front + [] == front
  {
    assert (front + [x])[..|front|] == front;
  }

  lemma {:induction false} FilterKeepsOrder(a: Alphabet, setting: string, lines: seq<RemoteLine>, out: seq<RemoteLine>)
    requires ByFirst(lines, out)
    ensures ByFirst(lines, AllowedLines(a, setting, out))
  {
    if out != [] {
      var front, last := out[..|out| - 1], out[|out| - 1];
      var kept := AllowedLines(a, setting, front);
      FilterKeepsOrder(a, setting, lines, front);
      AllowedMeaning(a, setting, front);
      forall i | 0 <= i < |kept| ensures FirstAt(lines, kept[i]) < FirstAt(lines, last) {
        assert kept[i] in front;
      }
    }
  }

  /**
   The client's list: of each identifier and allowed number the last parsed line, once, in the order in which they
   were first parsed.
   */
  lemma ClientLinesMeaning(a: Alphabet, setting: string, parsed: seq<RemoteLine>)
    ensures var out := ClientLines(a, setting, parsed);
            && (forall x :: x in out <==> LastOfKey(parsed, x) && Belongs(a, setting, x.phone))
            && DistinctKeys(out)
            && ByFirst(parsed, out)
  {
    FilterCommutes(a, setting, parsed);
    DeduplicatedMeaning(parsed);
    DeduplicatedMeaning(AllowedLines(a, setting, parsed));
    AllowedMeaning(a, setting, Deduplicated(parsed));
    DeduplicatedOrder(parsed);
    FilterKeepsOrder(a, setting, parsed, Deduplicated(parsed));
  }

  /** One identifier under two allowed phone numbers. */
  ghost predicate TwoNumbers(a: Alphabet, setting: string, parsed: seq<RemoteLine>) {
    exists x, y :: x in parsed && y in parsed && x.id == y.id && x.phone != y.phone
                   && Belongs(a, setting, x.phone) && Belongs(a, setting, y.phone)
  }

  lemma TwiceIsTwoNumbers(a: Alphabet, setting: string, parsed: seq<RemoteLine>)
    requires !DistinctRemotes(ClientLines(a, setting, parsed))
    ensures TwoNumbers(a, setting, parsed)
  {
    var filtered, out := AllowedLines(a, setting, parsed), ClientLines(a, setting, parsed);
    AllowedMeaning(a, setting, parsed);
    DeduplicatedMeaning(filtered);
    var i, j :| 0 <= i < j < |out| && out[i].id == out[j].id;
    assert out[i] in out && out[j] in out && !SameKey(out[i], out[j]);
  }

  lemma TwoNumbersIsTwice(a: Alphabet, setting: string, parsed: seq<RemoteLine>)
    requires TwoNumbers(a, setting, parsed)
    ensures !DistinctRemotes(ClientLines(a, setting, parsed))
  {
    var filtered, out := AllowedLines(a, setting, parsed), ClientLines(a, setting, parsed);
    var x, y :| x in parsed && y in parsed && x.id == y.id && x.phone != y.phone
                && Belongs(a, setting, x.phone) && Belongs(a, setting, y.phone);
    AllowedMeaning(a, setting, parsed);
    var u := KeyKept(filtered, x);
    var v := KeyKept(filtered, y);
    RepeatedId(out, u, v);
  }

  lemma RepeatedId(items: seq<RemoteLine>, u: RemoteLine, v: RemoteLine)
    requires u in items && v in items && u != v && u.id == v.id
    ensures !DistinctRemotes(items)
  {
    var i :| 0 <= i < |items| && items[i] == u;
    var j :| 0 <= j < |items| && items[j] == v;
    assert items[if i < j then i else j].id == items[if i < j then j else i].id;
  }

  /** The client's list has distinct identifiers exactly when none comes under two allowed phone numbers. */
  lemma DistinctExactly(a: Alphabet, setting: string, parsed: seq<RemoteLine>)
    ensures DistinctRemotes(ClientLines(a, setting, parsed)) <==> !TwoNumbers(a, setting, parsed)
  {
    if DistinctRemotes(ClientLines(a, setting, parsed)) {
      if TwoNumbers(a, setting, parsed) { TwoNumbersIsTwice(a, setting, parsed); }
    } else {
      TwiceIsTwoNumbers(a, setting, parsed);
    }
  }

  /** Parsed lines carry normalized phone numbers. */
  ghost predicate Parsed(a: Alphabet, parsed: seq<RemoteLine>) {
    forall x <- parsed :: exists number :: x.phone == Normalize(a, number)
  }

  /** With a primary number configured, as it is by default, identifiers are distinct. */
  lemma OneNumberDistinct(a: Alphabet, setting: string, parsed: seq<RemoteLine>)
    requires a.Valid() && Parsed(a, parsed) && Normalize(a, setting) != ""
    ensures DistinctRemotes(ClientLines(a, setting, parsed))
  {
    forall x | x in parsed && Belongs(a, setting, x.phone) ensures x.phone == Normalize(a, setting) {
      var number :| x.phone == Normalize(a, number);
      NormalizeIdempotent(a, number);
    }
    DistinctExactly(a, setting, parsed);
  }

  /** So a sync without extension data changes nothing then. */
  lemma OneNumberStable(
    a: Alphabet, setting: string, parsed: seq<RemoteLine>, lines: Inventory, extensions: seq<Extension>, now: int,
    later: int)
    requires a.Valid() && Parsed(a, parsed) && Normalize(a, setting) != "" && Numbered(extensions)
    requires Outcome(true, lines, Some(ClientLines(a, setting, parsed)), extensions, now).0.Synced?
    ensures var remote := Some(ClientLines(a, setting, parsed));
            var once := Outcome(true, lines, remote, extensions, now).1;
            var (result, twice) := Outcome(true, once, remote, [], later);
            && result == Synced(|remote.value|, 0) && twice.Keys == once.Keys
            && forall id :: id in once ==> Core(twice[id]) == Core(once[id])
  {
    OneNumberDistinct(a, setting, parsed);
    DistinctIsConsistent(ClientLines(a, setting, parsed));
    DegradedSyncStable(lines, ClientLines(a, setting, parsed), extensions, now, later);
  }

  // ---- A list that does not settle ----

  const FIRST := RemoteLine("1", "a", None, None, Some("5"), true, true, false, map[])
  const SECOND := RemoteLine("1", "b", None, None, None, true, true, false, map[])
  const OF_SECOND := Extension("u", "7", None, None, Some("b"), map[])

  lemma TwoListed(a: Alphabet)
    requires a.Valid()
    ensures ClientLines(a, "", [FIRST, SECOND]) == [FIRST, SECOND]
  {
    var both := [FIRST, SECOND];
    assert Normalize(a, "") == "" by { assert Digits(a, "") == ""; }
    assert both[..1] == [FIRST] && [FIRST][..0] == [];
    assert AllowedLines(a, "", []) == [];
    assert AllowedLines(a, "", [FIRST]) == [FIRST];
    assert AllowedLines(a, "", both) == both;
    assert Deduplicated([]) == [] && Deduplicated([FIRST]) == [FIRST];
    assert [FIRST][1..] == [];
    assert Put([FIRST], SECOND) == [FIRST] + Put([], SECOND);
  }

  /**
   Without a primary number: a cached identifier comes under two phone numbers, the first with its own extension,
   the second with a match. The full sync leaves the match's extension, the next one without extension data the other.
   */
  lemma RepeatedRemoteUnstable(a: Alphabet, lines: Inventory, now: int, later: int)
    requires a.Valid() && "1" in lines
    ensures var remote := Some(ClientLines(a, "", [FIRST, SECOND]));
            var (result, once) := Outcome(true, lines, remote, [OF_SECOND], now);
            var (again, twice) := Outcome(true, once, remote, [], later);
            && result.Synced? && again == Synced(2, 0)
            && "1" in once && once["1"].extension == Some("7")
            && "1" in twice && twice["1"].extension == Some("5")
  {
    var both, extensions := [FIRST, SECOND], [OF_SECOND];
    TwoListed(a);
    assert both[1] == SECOND && both[..1] == [FIRST] && [FIRST][..0] == [];
    assert Names(both, "1") by { assert both[0].id == "1"; }
    assert !RepeatsNewId(lines.Keys, both);
    SyncSucceedsExactly(true, lines, Some(both), extensions, now);
    RepeatedSync(lines, both, extensions, now, [], later);
    RepeatedLine(lines, both, extensions, now, [], later, "1");
    MemoryAfter(Prior(lines, "1"), both, extensions, now, "1");
    MemoryAfter(Outcome(true, lines, Some(both), extensions, now).1["1"], both, [], later, "1");
    assert extensions[..0] == [];
    assert Match(extensions, SECOND) == Some(OF_SECOND);
    assert LastExtension(both, [], "1") == LastExtension([FIRST], [], "1") == Some("5");
  }
}
