/**
 * The global renumbering shared by `export_classified_to_kmz` and the preview
 * table: LINE entries are visited in sorted key order, one counter starting
 * at 1 runs across all of them, and every pole is labelled with the prefix
 * followed by the zero-padded counter.
 */
module Renumber {
  import opened PyText
  import opened ZoneIndex

  const DefaultPrefix := "MR.OATKRP.P"
  const DefaultPadding := 3
  /** The name of the sub-folder each exported LINE folder holds its poles in. */
  const PoleFolderName := "POLE"

  // ---------------------------------------------------------------------------
  // Python string order and sorted()
  // ---------------------------------------------------------------------------

  /** Python's `a < b` on strings: code point by code point, a proper prefix first. */
  predicate LexLess(a: string, b: string)
    decreases |a|
  {
    |b| > 0 && (|a| == 0 || a[0] < b[0] || (a[0] == b[0] && LexLess(a[1..], b[1..])))
  }

  predicate LexLe(a: string, b: string) {
    a == b || LexLess(a, b)
  }

  lemma {:induction false} LexLessIrreflexive(a: string)
    ensures !LexLess(a, a)
    decreases |a|
  {
    if |a| > 0 {
      LexLessIrreflexive(a[1..]);
    }
  }

  lemma {:induction false} LexLessTransitive(a: string, b: string, c: string)
    requires LexLess(a, b) && LexLess(b, c)
    ensures LexLess(a, c)
    decreases |a|
  {
    if |a| > 0 && a[0] == b[0] && b[0] == c[0] {
      LexLessTransitive(a[1..], b[1..], c[1..]);
    }
  }

  lemma {:induction false} LexLessTotal(a: string, b: string)
    requires a != b
    ensures LexLess(a, b) || LexLess(b, a)
    decreases |a|
  {
    if |a| > 0 && |b| > 0 && a[0] == b[0] {
      assert a == [a[0]] + a[1..] && b == [b[0]] + b[1..];
      LexLessTotal(a[1..], b[1..]);
    }
  }

  lemma LexLeTransitive(a: string, b: string, c: string)
    requires LexLe(a, b) && LexLe(b, c)
    ensures LexLe(a, c)
  {
    if a != b && b != c {
      LexLessTransitive(a, b, c);
    }
  }

  /** For distinct strings exactly one is the smaller. */
  lemma LexLessAsymmetric(a: string, b: string)
    requires LexLess(a, b)
    ensures !LexLess(b, a) && a != b
  {
    LexLessIrreflexive(a);
    if LexLess(b, a) {
      LexLessTransitive(a, b, a);
    }
  }

  predicate Sorted(s: seq<string>) {
    forall i, j :: 0 <= i < j < |s| ==> LexLe(s[i], s[j])
  }

  /** One step of sorting: `x` placed before the first element it does not exceed. */
  function Insert(x: string, s: seq<string>): seq<string> {
    if s == [] then [x]
    else if LexLe(x, s[0]) then [x] + s
    else [s[0]] + Insert(x, s[1..])
  }

  /** `sorted(keys)`, as an insertion sort. */
  function SortStrings(s: seq<string>): seq<string> {
    if s == [] then [] else Insert(s[|s| - 1], SortStrings(s[..|s| - 1]))
  }

  lemma {:induction false} InsertPermutes(x: string, s: seq<string>)
    ensures multiset(Insert(x, s)) == multiset(s) + multiset{x}
  {
    if s != [] && !LexLe(x, s[0]) {
      InsertPermutes(x, s[1..]);
      assert s == [s[0]] + s[1..];
    }
  }

  /** A sorted list stays sorted when an element not above any of it goes in front. */
  lemma ConsSorted(y: string, s: seq<string>)
    requires Sorted(s) && forall k :: 0 <= k < |s| ==> LexLe(y, s[k])
    ensures Sorted([y] + s)
  {
    var r := [y] + s;
    forall i, j | 0 <= i < j < |r| ensures LexLe(r[i], r[j]) {
      if i > 0 { assert r[i] == s[i - 1] && r[j] == s[j - 1]; } else { assert r[j] == s[j - 1]; }
    }
  }

  /** A lower bound of `x` and of every element of `s` bounds every element of `Insert(x, s)`. */
  lemma {:induction false} InsertBounded(x: string, s: seq<string>, y: string)
    requires LexLe(y, x) && forall k :: 0 <= k < |s| ==> LexLe(y, s[k])
    ensures forall k :: 0 <= k < |Insert(x, s)| ==> LexLe(y, Insert(x, s)[k])
  {
    var r := Insert(x, s);
    if s == [] {
    } else if LexLe(x, s[0]) {
      forall k | 0 <= k < |r| ensures LexLe(y, r[k]) {
        if k > 0 { assert r[k] == s[k - 1]; }
      }
    } else {
      var tail := s[1..];
      assert forall k :: 0 <= k < |tail| ==> tail[k] == s[k + 1];
      InsertBounded(x, tail, y);
      var rest := Insert(x, tail);
      assert r == [s[0]] + rest;
      forall k | 0 <= k < |r| ensures LexLe(y, r[k]) {
        if k > 0 { assert r[k] == rest[k - 1]; }
      }
    }
  }

  lemma {:induction false} InsertSorted(x: string, s: seq<string>)
    requires Sorted(s)
    ensures Sorted(Insert(x, s))
  {
    if s == [] {
    } else if LexLe(x, s[0]) {
      forall k | 0 <= k < |s| ensures LexLe(x, s[k]) {
        if k > 0 { LexLeTransitive(x, s[0], s[k]); }
      }
      ConsSorted(x, s);
    } else {
      var tail := s[1..];
      SortedTail(s);
      InsertSorted(x, tail);
      assert LexLe(s[0], x) by { LexLessTotal(x, s[0]); }
      assert forall k :: 0 <= k < |tail| ==> LexLe(s[0], tail[k]) by {
        assert forall k :: 0 <= k < |tail| ==> tail[k] == s[k + 1];
      }
      InsertBounded(x, tail, s[0]);
      ConsSorted(s[0], Insert(x, tail));
    }
  }

  /** `sorted` returns the keys in ascending order, each as often as before. */
  lemma {:induction false} SortStringsCorrect(s: seq<string>)
    ensures Sorted(SortStrings(s))
    ensures multiset(SortStrings(s)) == multiset(s)
  {
    if s != [] {
      var init := s[..|s| - 1];
      SortStringsCorrect(init);
      InsertSorted(s[|s| - 1], SortStrings(init));
      InsertPermutes(s[|s| - 1], SortStrings(init));
      assert s == init + [s[|s| - 1]];
    }
  }

  /** A sorted arrangement of distinct keys is strictly increasing. */
  lemma SortedDistinctIncreasing(s: seq<string>)
    requires Sorted(s)
    requires forall i, j :: 0 <= i < j < |s| ==> s[i] != s[j]
    ensures forall i, j :: 0 <= i < j < |s| ==> LexLess(s[i], s[j])
  {
  }

  lemma SortedTail(s: seq<string>)
    requires Sorted(s) && s != []
    ensures Sorted(s[1..])
  {
    assert forall i :: 0 <= i < |s[1..]| ==> s[1..][i] == s[i + 1];
  }

  /** The head of a sorted list is below every element of it. */
  lemma SortedHeadIsLeast(s: seq<string>, y: string)
    requires Sorted(s) && y in multiset(s)
    ensures LexLe(s[0], y)
  {
    var q :| 0 <= q < |s| && s[q] == y;
    if q > 0 {
      assert LexLe(s[0], s[q]);
    }
  }

  lemma LexLeAntisymmetric(a: string, b: string)
    requires LexLe(a, b) && LexLe(b, a)
    ensures a == b
  {
    if a != b {
      LexLessAsymmetric(a, b);
    }
  }

  lemma MultisetTail(a: seq<string>, b: seq<string>)
    requires a != [] && b != [] && a[0] == b[0] && multiset(a) == multiset(b)
    ensures multiset(a[1..]) == multiset(b[1..])
  {
    assert a == [a[0]] + a[1..] && b == [b[0]] + b[1..];
    assert multiset(a[1..]) == multiset(a) - multiset{a[0]};
    assert multiset(b[1..]) == multiset(b) - multiset{b[0]};
  }

  /** Sorting is the only ascending arrangement: two sorted permutations agree. */
  lemma {:induction false} SortedUnique(a: seq<string>, b: seq<string>)
    requires Sorted(a) && Sorted(b) && multiset(a) == multiset(b)
    ensures a == b
    decreases |a|
  {
    assert |a| == |multiset(a)| == |multiset(b)| == |b|;
    if a != [] {
      assert a[0] in multiset(b) && b[0] in multiset(a);
      SortedHeadIsLeast(a, b[0]);
      SortedHeadIsLeast(b, a[0]);
      LexLeAntisymmetric(a[0], b[0]);
      MultisetTail(a, b);
      SortedTail(a);
      SortedTail(b);
      SortedUnique(a[1..], b[1..]);
      assert a == [a[0]] + a[1..] && b == [b[0]] + b[1..];
    }
  }

  // ---------------------------------------------------------------------------
  // Labels
  // ---------------------------------------------------------------------------

  /** `f"{prefix}{str(counter).zfill(padding)}"`. */
  function Label(prefix: string, counter: nat, padding: int): string {
    prefix + ZFill(DecimalString(counter), padding)
  }

  /**
   * A label is the prefix followed by the counter's digits, left-padded with
   * '0' to `padding` characters and never cut: reading the digits back gives
   * the counter.
   */
  lemma LabelShape(prefix: string, counter: nat, padding: int)
    ensures var digits := DecimalString(counter);
            var l := Label(prefix, counter, padding);
            && |l| == |prefix| + (if padding > |digits| then padding else |digits|)
            && l[..|prefix|] == prefix
            && AllDigits(l[|prefix|..])
            && DigitsValue(l[|prefix|..]) == counter
  {
    var digits := DecimalString(counter);
    var l := Label(prefix, counter, padding);
    var tail := ZFill(digits, padding);
    assert l[|prefix|..] == tail;
    var k := if padding > |digits| then padding - |digits| else 0;
    assert digits[0] != '+' && digits[0] != '-';
    ZFillUnsigned(digits, padding);
    LeadingZerosValue(k, digits);
    DecimalStringRoundTrip(counter);
  }

  /** Distinct counters give distinct labels. */
  lemma LabelInjective(prefix: string, a: nat, b: nat, padding: int)
    requires Label(prefix, a, padding) == Label(prefix, b, padding)
    ensures a == b
  {
    LabelShape(prefix, a, padding);
    LabelShape(prefix, b, padding);
  }

  /** Padding never truncates: counter 1000 with padding 3 keeps all four digits. */
  lemma WideCounterKeepsDigits(prefix: string)
    ensures Label(prefix, 1000, 3) == prefix + "1000"
  {
    assert DecimalString(1) == "1";
    assert DecimalString(10) == "10";
    assert DecimalString(100) == "100";
    assert DecimalString(1000) == "1000";
  }

  /** Counter 7 with the default padding of 3 is written "007". */
  lemma NarrowCounterIsPadded()
    ensures Label(DefaultPrefix, 7, DefaultPadding) == DefaultPrefix + "007"
  {
    assert DecimalString(7) == "7";
    assert ZFill("007", 3) == "007";
    assert ZFill("07", 3) == "007";
    assert ZFill("7", 3) == "007";
  }

  // ---------------------------------------------------------------------------
  // The poles in numbering order
  // ---------------------------------------------------------------------------

  /** `classified[key]["poles"]`. Every key the loops look up comes from `classified.keys()`, so
      the empty result for a missing key (a `KeyError` in Python) is never reached. */
  function PolesAt(lines: seq<Line>, key: string): seq<ClassifiedPole> {
    if lines == [] then []
    else if lines[0].key == key then lines[0].poles
    else PolesAt(lines[1..], key)
  }

  /** The key order of both loops. */
  function LineOrder(lines: seq<Line>): seq<string> {
    SortStrings(Keys(lines))
  }

  /** A sequence without repeats holds each value at most once. */
  lemma {:induction false} DistinctOnce(s: seq<string>, x: string)
    requires forall i, j :: 0 <= i < j < |s| ==> s[i] != s[j]
    ensures multiset(s)[x] <= 1
    decreases |s|
  {
    if s != [] {
      var t := s[1..];
      assert forall i, j :: 0 <= i < j < |t| ==> t[i] == s[i + 1] && t[j] == s[j + 1];
      DistinctOnce(t, x);
      assert s == [s[0]] + t;
      assert forall k :: 0 <= k < |t| ==> t[k] != s[0];
      assert s[0] !in t;
    }
  }

  /** A value at two positions is counted twice. */
  lemma TwiceCounted(s: seq<string>, i: nat, j: nat)
    requires i < j < |s|
    ensures s[i] == s[j] ==> multiset(s)[s[i]] >= 2
  {
    assert s == s[..j] + [s[j]] + s[j + 1..];
    assert s[..j][i] == s[i];
  }

  /** With distinct keys, `sorted(keys)` is strictly increasing: each LINE is visited once. */
  lemma LineOrderIncreasing(lines: seq<Line>)
    requires DistinctKeys(lines)
    ensures var order := LineOrder(lines);
            forall i, j :: 0 <= i < j < |order| ==> LexLess(order[i], order[j])
  {
    var order := LineOrder(lines);
    var ks := Keys(lines);
    SortStringsCorrect(ks);
    forall i, j | 0 <= i < j < |order|
      ensures order[i] != order[j]
    {
      TwiceCounted(order, i, j);
      DistinctOnce(ks, order[i]);
    }
    SortedDistinctIncreasing(order);
  }

  /** One pole in numbering order, with the entry it belongs to. */
  datatype Entry = Entry(line: string, pole: ClassifiedPole)

  /** The poles of one entry, each tagged with the entry's key. */
  function Tag(key: string, poles: seq<ClassifiedPole>): (es: seq<Entry>)
    ensures |es| == |poles|
  {
    if poles == [] then [] else Tag(key, poles[..|poles| - 1]) + [Entry(key, poles[|poles| - 1])]
  }

  lemma {:induction false} TagAt(key: string, poles: seq<ClassifiedPole>)
    ensures forall m :: 0 <= m < |poles| ==> Tag(key, poles)[m] == Entry(key, poles[m])
  {
    if poles != [] {
      var init := poles[..|poles| - 1];
      TagAt(key, init);
      assert forall m :: 0 <= m < |init| ==> init[m] == poles[m];
    }
  }

  /** The poles of the entries named by `order`, entry after entry. */
  function EntriesOf(order: seq<string>, lines: seq<Line>): seq<Entry> {
    if order == [] then []
    else EntriesOf(order[..|order| - 1], lines) + Tag(order[|order| - 1], PolesAt(lines, order[|order| - 1]))
  }

  lemma {:induction false} EntriesOfAppend(a: seq<string>, b: seq<string>, lines: seq<Line>)
    ensures EntriesOf(a + b, lines) == EntriesOf(a, lines) + EntriesOf(b, lines)
  {
    if b == [] {
      assert a + b == a;
    } else {
      var last := b[|b| - 1];
      EntriesOfAppend(a, b[..|b| - 1], lines);
      assert (a + b)[..|a + b| - 1] == a + b[..|b| - 1];
      assert (a + b)[|a + b| - 1] == last;
      assert EntriesOf(a + b, lines) == EntriesOf(a + b[..|b| - 1], lines) + Tag(last, PolesAt(lines, last));
      assert EntriesOf(b, lines) == EntriesOf(b[..|b| - 1], lines) + Tag(last, PolesAt(lines, last));
    }
  }

  /** How many poles come before entry `j` of `order`: the counter the entry starts after. */
  function Offset(order: seq<string>, lines: seq<Line>, j: nat): nat
    requires j <= |order|
  {
    |EntriesOf(order[..j], lines)|
  }

  /** The entries up to key `j` are those before it followed by its own. */
  lemma EntriesStep(order: seq<string>, lines: seq<Line>, j: nat)
    requires j < |order|
    ensures EntriesOf(order[..j + 1], lines) == EntriesOf(order[..j], lines) + Tag(order[j], PolesAt(lines, order[j]))
  {
    assert order[..j + 1][..j] == order[..j];
  }

  /** Position `Offset(j) + m` in numbering order is pole `m` of entry `j`. */
  lemma EntriesAt(order: seq<string>, lines: seq<Line>, j: nat, m: nat)
    requires j < |order| && m < |PolesAt(lines, order[j])|
    ensures Offset(order, lines, j) + m < |EntriesOf(order, lines)|
    ensures EntriesOf(order, lines)[Offset(order, lines, j) + m] == Entry(order[j], PolesAt(lines, order[j])[m])
  {
    assert order == order[..j] + [order[j]] + order[j + 1..];
    EntriesOfAppend(order[..j] + [order[j]], order[j + 1..], lines);
    EntriesOfAppend(order[..j], [order[j]], lines);
    assert [order[j]][..0] == [];
    TagAt(order[j], PolesAt(lines, order[j]));
  }

  // ---------------------------------------------------------------------------
  // The preview loop
  // ---------------------------------------------------------------------------

  /**
   * The label of each counter value. Both loops below are written against an
   * arbitrary naming of the counter and instantiated with this one.
   */
  function Labels(prefix: string, padding: int): nat -> string {
    (counter: nat) => Label(prefix, counter, padding)
  }

  /** A row of the preview table: LINE, OLD_NAME, NEW_NAME, LON, LAT. */
  datatype Row = Row(line: string, oldName: string, newName: string, lon: real, lat: real)

  function RowOf(e: Entry, newName: string): Row {
    Row(e.line, e.pole.name, newName, e.pole.at.lon, e.pole.at.lat)
  }

  /** The rows for entries in numbering order, the last one named after the count so far. */
  function RowsOf(entries: seq<Entry>, name: nat -> string): (rows: seq<Row>)
    ensures |rows| == |entries|
  {
    if entries == [] then []
    else RowsOf(entries[..|entries| - 1], name) + [RowOf(entries[|entries| - 1], name(|entries|))]
  }

  /** The counter is contiguous: the row at position i carries counter i + 1, never reset. */
  lemma {:induction false} RowsOfAt(entries: seq<Entry>, name: nat -> string)
    ensures forall i :: 0 <= i < |entries| ==> RowsOf(entries, name)[i] == RowOf(entries[i], name(i + 1))
  {
    if entries != [] {
      var init := entries[..|entries| - 1];
      RowsOfAt(init, name);
      assert forall i :: 0 <= i < |init| ==> init[i] == entries[i];
    }
  }

  lemma RowsOfSnoc(e: seq<Entry>, x: Entry, name: nat -> string, counter: nat)
    requires counter == |e| + 1
    ensures RowsOf(e + [x], name) == RowsOf(e, name) + [RowOf(x, name(counter))]
  {
    assert (e + [x])[..|e|] == e;
  }

  lemma TagSnoc(key: string, poles: seq<ClassifiedPole>, m: nat)
    requires m < |poles|
    ensures Tag(key, poles[..m + 1]) == Tag(key, poles[..m]) + [Entry(key, poles[m])]
  {
    assert poles[..m + 1][..m] == poles[..m];
  }

  /** Tagging one more pole appends one entry to what came before. */
  lemma TagStep(before: seq<Entry>, key: string, poles: seq<ClassifiedPole>, m: nat)
    requires m < |poles|
    ensures before + Tag(key, poles[..m + 1]) == (before + Tag(key, poles[..m])) + [Entry(key, poles[m])]
    ensures |before + Tag(key, poles[..m])| == |before| + m
  {
    TagSnoc(key, poles, m);
  }

  /** One pass of the inner preview loop appends the row of pole `m` with the next counter. */
  lemma PreviewStep(before: seq<Entry>, key: string, poles: seq<ClassifiedPole>, m: nat, name: nat -> string)
    requires m < |poles|
    ensures RowsOf(before + Tag(key, poles[..m + 1]), name)
         == RowsOf(before + Tag(key, poles[..m]), name) + [RowOf(Entry(key, poles[m]), name(|before| + m + 1))]
  {
    TagStep(before, key, poles, m);
    RowsOfSnoc(before + Tag(key, poles[..m]), Entry(key, poles[m]), name, |before| + m + 1);
  }

  /** The inner preview loop over the poles of one entry, continuing the running counter. */
  method PreviewLine(ghost before: seq<Entry>, rows0: seq<Row>, counter0: nat, line: string, poles: seq<ClassifiedPole>,
                     name: nat -> string)
    returns (rows: seq<Row>, counter: nat)
    requires rows0 == RowsOf(before, name) && counter0 == |before| + 1
    ensures rows == RowsOf(before + Tag(line, poles), name)
    ensures counter == |rows| + 1
  {
    rows, counter := rows0, counter0;
    assert before + Tag(line, poles[..0]) == before;
    var m := 0;
    while m < |poles|
      invariant 0 <= m <= |poles|
      invariant rows == RowsOf(before + Tag(line, poles[..m]), name)
      invariant counter == |before| + m + 1
    {
      var p := poles[m];
      var newName := name(counter);
      PreviewStep(before, line, poles, m, name);
      rows := rows + [Row(line, p.name, newName, p.at.lon, p.at.lat)];
      counter := counter + 1;
      m := m + 1;
    }
    assert poles[..m] == poles;
  }

  /** The preview loop: sorted entries, one running counter, one row per pole. */
  method NumberRows(classified: seq<Line>, name: nat -> string) returns (rows: seq<Row>)
    ensures rows == RowsOf(EntriesOf(LineOrder(classified), classified), name)
  {
    var order := SortStrings(Keys(classified));
    rows := [];
    var counter := 1;
    var j := 0;
    while j < |order|
      invariant 0 <= j <= |order|
      invariant rows == RowsOf(EntriesOf(order[..j], classified), name)
      invariant counter == |rows| + 1
    {
      var line := order[j];
      var poles := PolesAt(classified, line);
      ghost var before := EntriesOf(order[..j], classified);
      rows, counter := PreviewLine(before, rows, counter, line, poles, name);
      EntriesStep(order, classified, j);
      j := j + 1;
    }
    assert order[..j] == order;
  }

  /** The preview table with the configured prefix and padding. */
  method PreviewRows(classified: seq<Line>, prefix: string, padding: int) returns (rows: seq<Row>)
    ensures rows == RowsOf(EntriesOf(LineOrder(classified), classified), Labels(prefix, padding))
  {
    rows := NumberRows(classified, Labels(prefix, padding));
  }

  // ---------------------------------------------------------------------------
  // The KMZ export
  // ---------------------------------------------------------------------------

  /** An exported pole: its new name and its (longitude, latitude). */
  datatype OutPoint = OutPoint(name: string, lon: real, lat: real)

  /** An exported LINE folder with the points of its POLE sub-folder. */
  datatype OutFolder = OutFolder(name: string, poleFolder: string, points: seq<OutPoint>)

  /** The points of one entry when its counter starts after `base`. */
  function PointsOf(poles: seq<ClassifiedPole>, base: nat, name: nat -> string): (ps: seq<OutPoint>)
    ensures |ps| == |poles|
  {
    if poles == [] then []
    else
      var p := poles[|poles| - 1];
      PointsOf(poles[..|poles| - 1], base, name) + [OutPoint(name(base + |poles|), p.at.lon, p.at.lat)]
  }

  /** Point m of an entry whose counter starts after `base` is named after `base + m + 1`. */
  lemma {:induction false} PointsAt(poles: seq<ClassifiedPole>, base: nat, name: nat -> string)
    ensures forall m :: 0 <= m < |poles| ==>
      PointsOf(poles, base, name)[m] == OutPoint(name(base + m + 1), poles[m].at.lon, poles[m].at.lat)
  {
    if poles != [] {
      var init := poles[..|poles| - 1];
      PointsAt(init, base, name);
      assert forall m :: 0 <= m < |init| ==> init[m] == poles[m];
    }
  }

  /** The folder written for entry `j` of the sorted order. */
  function FolderAt(order: seq<string>, lines: seq<Line>, j: nat, name: nat -> string): OutFolder
    requires j < |order|
  {
    OutFolder(order[j], PoleFolderName, PointsOf(PolesAt(lines, order[j]), Offset(order, lines, j), name))
  }

  lemma PointsSnoc(poles: seq<ClassifiedPole>, m: nat, base: nat, name: nat -> string)
    requires m < |poles|
    ensures PointsOf(poles[..m + 1], base, name)
         == PointsOf(poles[..m], base, name) + [OutPoint(name(base + m + 1), poles[m].at.lon, poles[m].at.lat)]
  {
    assert poles[..m + 1][..m] == poles[..m];
  }

  /** The counter after entry `j` is the one before it plus that entry's poles. */
  lemma OffsetStep(order: seq<string>, lines: seq<Line>, j: nat)
    requires j < |order|
    ensures Offset(order, lines, j + 1) == Offset(order, lines, j) + |PolesAt(lines, order[j])|
  {
    assert order[..j + 1][..j] == order[..j];
  }

  /** The inner export loop over the poles of one entry, continuing the running counter. */
  method ExportLine(ghost base: nat, counter0: nat, poles: seq<ClassifiedPole>, name: nat -> string)
    returns (points: seq<OutPoint>, counter: nat)
    requires counter0 == base + 1
    ensures points == PointsOf(poles, base, name)
    ensures counter == base + |poles| + 1
  {
    points, counter := [], counter0;
    var m := 0;
    while m < |poles|
      invariant 0 <= m <= |poles|
      invariant points == PointsOf(poles[..m], base, name)
      invariant counter == base + m + 1
    {
      var p := poles[m];
      PointsSnoc(poles, m, base, name);
      points := points + [OutPoint(name(counter), p.at.lon, p.at.lat)];
      counter := counter + 1;
      m := m + 1;
    }
    assert poles[..m] == poles;
  }

  /** The export loop: one folder per entry in sorted order, numbered by one global counter. */
  method NumberFolders(classified: seq<Line>, name: nat -> string) returns (out: seq<OutFolder>)
    ensures var order := LineOrder(classified);
            |out| == |order| && forall j :: 0 <= j < |order| ==> out[j] == FolderAt(order, classified, j, name)
  {
    var order := SortStrings(Keys(classified));
    out := [];
    var counter := 1;
    var j := 0;
    while j < |order|
      invariant 0 <= j <= |order|
      invariant |out| == j
      invariant forall q :: 0 <= q < j ==> out[q] == FolderAt(order, classified, q, name)
      invariant counter == Offset(order, classified, j) + 1
    {
      var line := order[j];
      var poles := PolesAt(classified, line);
      ghost var base := Offset(order, classified, j);
      var points;
      points, counter := ExportLine(base, counter, poles, name);
      out := out + [OutFolder(line, PoleFolderName, points)];
      OffsetStep(order, classified, j);
      j := j + 1;
    }
  }

  /** `export_classified_to_kmz` with the configured prefix and padding. */
  method ExportToKmz(classified: seq<Line>, prefix: string, padding: int) returns (out: seq<OutFolder>)
    ensures var order := LineOrder(classified);
            |out| == |order| && forall j :: 0 <= j < |order| ==> out[j] == FolderAt(order, classified, j, Labels(prefix, padding))
  {
    out := NumberFolders(classified, Labels(prefix, padding));
  }

  // ---------------------------------------------------------------------------
  // What the numbering achieves
  // ---------------------------------------------------------------------------

  /** The KMZ and the preview give every (entry, pole) position the same name. */
  lemma ExportAgreesWithPreview(classified: seq<Line>, name: nat -> string, j: nat, m: nat)
    requires j < |LineOrder(classified)|
    requires m < |PolesAt(classified, LineOrder(classified)[j])|
    ensures var order := LineOrder(classified);
            var rows := RowsOf(EntriesOf(order, classified), name);
            var f := FolderAt(order, classified, j, name);
            && Offset(order, classified, j) + m < |rows|
            && f.points[m].name == rows[Offset(order, classified, j) + m].newName
            && rows[Offset(order, classified, j) + m].line == f.name
  {
    var order := LineOrder(classified);
    EntriesAt(order, classified, j, m);
    RowsOfAt(EntriesOf(order, classified), name);
    PointsAt(PolesAt(classified, order[j]), Offset(order, classified, j), name);
  }

  /** The preview's new names are pairwise distinct. */
  lemma PreviewNamesDistinct(entries: seq<Entry>, prefix: string, padding: int)
    ensures var rows := RowsOf(entries, Labels(prefix, padding));
            forall a, b :: 0 <= a < b < |rows| ==> rows[a].newName != rows[b].newName
  {
    var rows := RowsOf(entries, Labels(prefix, padding));
    RowsOfAt(entries, Labels(prefix, padding));
    forall a, b | 0 <= a < b < |rows| ensures rows[a].newName != rows[b].newName {
      if rows[a].newName == rows[b].newName {
        assert rows[a].newName == Label(prefix, a + 1, padding);
        assert rows[b].newName == Label(prefix, b + 1, padding);
        LabelInjective(prefix, a + 1, b + 1, padding);
      }
    }
  }

  // ---------------------------------------------------------------------------
  // The counter runs up to the number of stored poles
  // ---------------------------------------------------------------------------

  /** The number of poles the entries named by `order` hold. */
  function CountFor(order: seq<string>, lines: seq<Line>): nat {
    if order == [] then 0 else CountFor(order[..|order| - 1], lines) + |PolesAt(lines, order[|order| - 1])|
  }

  lemma {:induction false} EntriesCount(order: seq<string>, lines: seq<Line>)
    ensures |EntriesOf(order, lines)| == CountFor(order, lines)
  {
    if order != [] {
      EntriesCount(order[..|order| - 1], lines);
    }
  }

  /** Removing one key from the order removes exactly its poles from the count. */
  lemma {:induction false} CountForRemove(order: seq<string>, lines: seq<Line>, p: nat)
    requires p < |order|
    ensures CountFor(order, lines) == CountFor(order[..p] + order[p + 1..], lines) + |PolesAt(lines, order[p])|
  {
    var n := |order| - 1;
    var rest := order[..p] + order[p + 1..];
    if p == n {
      assert rest == order[..n];
    } else {
      CountForRemove(order[..n], lines, p);
      assert order[..n][..p] + order[..n][p + 1..] == rest[..|rest| - 1];
      assert rest[|rest| - 1] == order[n];
    }
  }

  /** The count does not depend on the order the keys are visited in. */
  lemma {:induction false} CountForPermutation(a: seq<string>, b: seq<string>, lines: seq<Line>)
    requires multiset(a) == multiset(b)
    ensures CountFor(a, lines) == CountFor(b, lines)
    decreases |a|
  {
    if a == [] {
      assert |b| == |multiset(b)| == 0;
    } else {
      var n := |a| - 1;
      var x := a[n];
      assert x in multiset(b) by { assert a == a[..n] + [x]; }
      var p :| 0 <= p < |b| && b[p] == x;
      var rest := b[..p] + b[p + 1..];
      assert b == b[..p] + [x] + b[p + 1..];
      assert a == a[..n] + [x];
      assert multiset(b) == multiset(b[..p]) + multiset{x} + multiset(b[p + 1..]);
      assert multiset(rest) == multiset(b[..p]) + multiset(b[p + 1..]);
      assert multiset(a) == multiset(a[..n]) + multiset{x};
      assert multiset(a[..n]) == multiset(a) - multiset{x};
      assert multiset(rest) == multiset(b) - multiset{x};
      CountForPermutation(a[..n], rest, lines);
      CountForRemove(b, lines, p);
    }
  }

  /** Looking a key up in a longer dictionary finds the same entry when the prefix has it. */
  lemma {:induction false} PolesAtPrefix(lines: seq<Line>, n: nat, key: string)
    requires n <= |lines| && key in Keys(lines[..n])
    ensures PolesAt(lines[..n], key) == PolesAt(lines, key)
  {
    var i :| 0 <= i < n && Keys(lines[..n])[i] == key;
    assert lines[i].key == key;
    if lines[0].key != key {
      assert i > 0;
      var tail := lines[1..][..n - 1];
      assert tail[i - 1] == lines[i];
      assert Keys(tail)[i - 1] == key;
      assert lines[..n][1..] == tail;
      PolesAtPrefix(lines[1..], n - 1, key);
    }
  }

  /** With distinct keys, a lookup by the key of entry `i` finds entry `i`. */
  lemma {:induction false} PolesAtKey(lines: seq<Line>, i: nat)
    requires DistinctKeys(lines) && i < |lines|
    ensures PolesAt(lines, lines[i].key) == lines[i].poles
  {
    if i > 0 {
      assert lines[0].key != lines[i].key;
      assert DistinctKeys(lines[1..]) by {
        forall a, b | 0 <= a < b < |lines[1..]| ensures lines[1..][a].key != lines[1..][b].key {
          assert lines[1..][a] == lines[a + 1] && lines[1..][b] == lines[b + 1];
        }
      }
      PolesAtKey(lines[1..], i - 1);
    }
  }

  /** Summing over the dictionary's own keys counts every stored pole. */
  lemma {:induction false} CountForKeys(lines: seq<Line>)
    requires DistinctKeys(lines)
    ensures CountFor(Keys(lines), lines) == TotalPoles(lines)
  {
    if lines != [] {
      var n := |lines| - 1;
      var init := lines[..n];
      assert DistinctKeys(init);
      CountForKeys(init);
      assert Keys(lines)[..n] == Keys(init);
      forall k | 0 <= k < |Keys(init)| ensures PolesAt(init, Keys(init)[k]) == PolesAt(lines, Keys(init)[k]) {
        PolesAtPrefix(lines, n, Keys(init)[k]);
      }
      CountForSameLookups(Keys(init), init, lines);
      PolesAtKey(lines, n);
    }
  }

  /** The count only depends on what the lookups return. */
  lemma {:induction false} CountForSameLookups(order: seq<string>, a: seq<Line>, b: seq<Line>)
    requires forall k :: 0 <= k < |order| ==> PolesAt(a, order[k]) == PolesAt(b, order[k])
    ensures CountFor(order, a) == CountFor(order, b)
  {
    if order != [] {
      CountForSameLookups(order[..|order| - 1], a, b);
    }
  }

  /** The preview has one row per stored pole, so the counter runs from 1 to that number. */
  lemma RowCount(classified: seq<Line>, name: nat -> string)
    requires DistinctKeys(classified)
    ensures |RowsOf(EntriesOf(LineOrder(classified), classified), name)| == TotalPoles(classified)
  {
    SortStringsCorrect(Keys(classified));
    EntriesCount(LineOrder(classified), classified);
    CountForPermutation(LineOrder(classified), Keys(classified), classified);
    CountForKeys(classified);
  }
}
