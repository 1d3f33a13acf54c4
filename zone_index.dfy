/**
 * The LINE index of `classify_poles_from_tree`: every folder whose stripped,
 * upper-cased name starts with "LINE" becomes an entry of an insertion-ordered
 * dictionary, holding the folder's distribution cable and its boundaries.
 */
module ZoneIndex {
  import opened Wrappers
  import opened PyText
  import opened Geometry

  const LinePrefix := "LINE"
  const CableMarker := "DISTRIBUTION CABLE"
  const BoundaryMarker := "BOUNDARY"

  /** A KML folder: the text of its `name` child and all placemarks below it, in document order. */
  datatype Folder = Folder(name: Option<string>, placemarks: seq<Placemark>)

  /** A boundary polygon with the name it is stored under. */
  datatype Boundary = Boundary(name: string, ring: seq<Coord>)

  /** A pole as stored on a line: name, location and the value the source records beside them. */
  datatype ClassifiedPole = ClassifiedPole(name: string, at: Coord, order: real)

  /** One value of the `lines_data` dictionary, together with its key. */
  datatype Line = Line(key: string, cable: Option<seq<Coord>>, boundaries: seq<Boundary>, poles: seq<ClassifiedPole>)

  // ---------------------------------------------------------------------------
  // Name rules
  // ---------------------------------------------------------------------------

  /** The dictionary key a folder name yields, or None when the folder is not a LINE folder. */
  function ZoneKey(name: Option<string>): Option<string> {
    if name.None? || name.value == "" then None
    else
      var key := Upper(Strip(name.value));
      if StartsWith(key, LinePrefix) then Some(key) else None
  }

  /** A key is already normalised: it starts with "LINE" and is its own key again. */
  lemma ZoneKeyIdempotent(name: Option<string>)
    requires ZoneKey(name).Some?
    ensures StartsWith(ZoneKey(name).value, LinePrefix)
    ensures ZoneKey(Some(ZoneKey(name).value)) == ZoneKey(name)
  {
    var t := Strip(name.value);
    var key := Upper(t);
    UpperKeepsStripped(t);
    UpperIdempotent(t);
    assert Upper(Strip(key)) == key;
  }

  /** The placemark name the marker tests look at: upper-cased, empty when missing. */
  function UpperName(name: Option<string>): string {
    Upper(if name.Some? then name.value else "")
  }

  /**
   * What the placemark loop computes for one placemark of a LINE folder: its
   * name (`pname`), the upper-cased name (`pname_text`) and its geometry.
   */
  datatype Item = Item(name: Option<string>, upperName: string, geom: Option<Geometry>)

  function ItemOf(pm: Placemark, oracles: Oracles): Item {
    Item(pm.name, UpperName(pm.name), GeometryOf(pm, oracles))
  }

  function ItemsOf(pms: seq<Placemark>, oracles: Oracles): (items: seq<Item>)
    ensures |items| == |pms|
    ensures forall k :: 0 <= k < |pms| ==> items[k] == ItemOf(pms[k], oracles)
  {
    seq(|pms|, k requires 0 <= k < |pms| => ItemOf(pms[k], oracles))
  }

  predicate IsCable(item: Item) {
    Contains(item.upperName, CableMarker) && item.geom.Some? && item.geom.value.LineString?
  }

  predicate IsBoundary(item: Item) {
    Contains(item.upperName, BoundaryMarker) && item.geom.Some? && item.geom.value.Polygon?
  }

  /** `pname or "BOUNDARY"`. */
  function BoundaryName(name: Option<string>): string {
    if name.Some? && name.value != "" then name.value else BoundaryMarker
  }

  // ---------------------------------------------------------------------------
  // Cable and boundaries of one folder
  // ---------------------------------------------------------------------------

  /** The cable variable after the placemark loop: overwritten by every cable placemark. */
  function CableOf(items: seq<Item>): Option<seq<Coord>> {
    if items == [] then None
    else
      var last := items[|items| - 1];
      if IsCable(last) then Some(last.geom.value.path) else CableOf(items[..|items| - 1])
  }

  /** The boundaries list after the placemark loop. */
  function BoundariesOf(items: seq<Item>): seq<Boundary> {
    if items == [] then []
    else
      var last := items[|items| - 1];
      BoundariesOf(items[..|items| - 1])
        + if IsBoundary(last) then [Boundary(BoundaryName(last.name), last.geom.value.ring)] else []
  }

  /** The cable is the path of the LAST cable placemark, and there is none without one. */
  lemma {:induction false} CableIsLastMarked(items: seq<Item>)
    ensures (forall k :: 0 <= k < |items| ==> !IsCable(items[k])) ==> CableOf(items) == None
    ensures forall k :: 0 <= k < |items| && IsCable(items[k])
                        && (forall k' :: k < k' < |items| ==> !IsCable(items[k']))
                        ==> CableOf(items) == Some(items[k].geom.value.path)
  {
    if items != [] {
      var n := |items| - 1;
      var init := items[..n];
      CableIsLastMarked(init);
      forall k | 0 <= k < |items| && IsCable(items[k]) && (forall k' :: k < k' < |items| ==> !IsCable(items[k']))
        ensures CableOf(items) == Some(items[k].geom.value.path)
      {
        if k < n {
          assert !IsCable(items[n]);
          assert init[k] == items[k];
          assert forall k' :: k < k' < n ==> init[k'] == items[k'];
        }
      }
      if forall k :: 0 <= k < |items| ==> !IsCable(items[k]) {
        assert !IsCable(items[n]);
        assert forall k :: 0 <= k < n ==> init[k] == items[k];
      }
    }
  }

  /** Boundaries are collected in document order: the scan distributes over concatenation. */
  lemma {:induction false} BoundariesAppend(a: seq<Item>, b: seq<Item>)
    ensures BoundariesOf(a + b) == BoundariesOf(a) + BoundariesOf(b)
  {
    if b == [] {
      assert a + b == a;
    } else {
      BoundariesAppend(a, b[..|b| - 1]);
      assert (a + b)[..|a + b| - 1] == a + b[..|b| - 1];
    }
  }

  /** Some boundary placemark among `items` carries exactly this name. */
  predicate NamedBoundary(items: seq<Item>, name: string) {
    exists k :: 0 <= k < |items| && IsBoundary(items[k]) && items[k].name == Some(name)
  }

  /**
   * Every stored boundary keeps the original-case name of a boundary placemark
   * of the folder; since that name must contain "BOUNDARY", the `"BOUNDARY"`
   * default is never the name used.
   */
  lemma {:induction false} BoundaryNamesKept(items: seq<Item>)
    requires forall k :: 0 <= k < |items| ==> items[k].upperName == UpperName(items[k].name)
    ensures forall i :: 0 <= i < |BoundariesOf(items)| ==> NamedBoundary(items, BoundariesOf(items)[i].name)
  {
    if items != [] {
      var init := items[..|items| - 1];
      var last := items[|items| - 1];
      BoundaryNamesKept(init);
      var bs := BoundariesOf(items);
      var prev := BoundariesOf(init);
      forall i | 0 <= i < |bs|
        ensures NamedBoundary(items, bs[i].name)
      {
        if i < |prev| {
          assert bs[i] == prev[i];
          assert NamedBoundary(init, prev[i].name);
          var k :| 0 <= k < |init| && IsBoundary(init[k]) && init[k].name == Some(prev[i].name);
          assert items[k] == init[k];
        } else {
          assert IsBoundary(last);
          assert bs[i] == Boundary(BoundaryName(last.name), last.geom.value.ring);
          assert last.name.Some? && last.name.value != "";
          assert items[|items| - 1] == last;
        }
      }
    }
  }

  // ---------------------------------------------------------------------------
  // The insertion-ordered dictionary
  // ---------------------------------------------------------------------------

  function Keys(lines: seq<Line>): (ks: seq<string>)
    ensures |ks| == |lines| && forall i :: 0 <= i < |lines| ==> ks[i] == lines[i].key
  {
    seq(|lines|, i requires 0 <= i < |lines| => lines[i].key)
  }

  predicate DistinctKeys(lines: seq<Line>) {
    forall i, j :: 0 <= i < j < |lines| ==> lines[i].key != lines[j].key
  }

  /**
   * `d[line.key] = line` on a Python dict: an existing key keeps its position
   * and gets the new value; a new key goes to the end.
   */
  function Put(lines: seq<Line>, line: Line): seq<Line> {
    if lines == [] then [line]
    else if lines[0].key == line.key then [line] + lines[1..]
    else [lines[0]] + Put(lines[1..], line)
  }

  /** Assigning to the key of entry `i` replaces that entry and nothing else. */
  lemma {:induction false} PutPresent(lines: seq<Line>, line: Line, i: nat)
    requires DistinctKeys(lines) && i < |lines| && lines[i].key == line.key
    ensures Put(lines, line) == lines[i := line]
  {
    if i > 0 {
      var tail := lines[1..];
      assert lines[0].key != lines[i].key;
      assert DistinctKeys(tail) by {
        forall a, b | 0 <= a < b < |tail| ensures tail[a].key != tail[b].key {
          assert tail[a] == lines[a + 1] && tail[b] == lines[b + 1];
        }
      }
      assert tail[i - 1] == lines[i];
      PutPresent(tail, line, i - 1);
      assert [lines[0]] + tail[i - 1 := line] == lines[i := line];
    }
  }

  /** Assigning to a new key appends the entry. */
  lemma {:induction false} PutAbsent(lines: seq<Line>, line: Line)
    requires forall i :: 0 <= i < |lines| ==> lines[i].key != line.key
    ensures Put(lines, line) == lines + [line]
  {
    if lines != [] {
      var tail := lines[1..];
      assert forall i :: 0 <= i < |tail| ==> tail[i] == lines[i + 1];
      PutAbsent(tail, line);
      assert [lines[0]] + (tail + [line]) == lines + [line];
    }
  }

  /** A dictionary never holds a key twice. */
  lemma PutDistinct(lines: seq<Line>, line: Line)
    requires DistinctKeys(lines)
    ensures DistinctKeys(Put(lines, line))
  {
    if i :| 0 <= i < |lines| && lines[i].key == line.key {
      PutPresent(lines, line, i);
      var r := lines[i := line];
      forall a, b | 0 <= a < b < |r| ensures r[a].key != r[b].key {
        assert r[a].key == lines[a].key && r[b].key == lines[b].key;
      }
    } else {
      PutAbsent(lines, line);
      var r := lines + [line];
      forall a, b | 0 <= a < b < |r| ensures r[a].key != r[b].key {
        if b < |lines| { assert r[a] == lines[a] && r[b] == lines[b]; }
      }
    }
  }

  /** Storing a pole-less entry into a pole-less dictionary leaves it pole-less. */
  lemma {:induction false} PutNoPoles(lines: seq<Line>, line: Line)
    requires line.poles == [] && forall i :: 0 <= i < |lines| ==> lines[i].poles == []
    ensures forall i :: 0 <= i < |Put(lines, line)| ==> Put(lines, line)[i].poles == []
  {
    var r := Put(lines, line);
    if lines == [] {
    } else if lines[0].key == line.key {
      forall i | 0 <= i < |r| ensures r[i].poles == [] {
        if i > 0 { assert r[i] == lines[i]; }
      }
    } else {
      var tail := lines[1..];
      assert forall i :: 0 <= i < |tail| ==> tail[i] == lines[i + 1];
      PutNoPoles(tail, line);
      var rest := Put(tail, line);
      assert r == [lines[0]] + rest;
      forall i | 0 <= i < |r| ensures r[i].poles == [] {
        if i > 0 { assert r[i] == rest[i - 1]; }
      }
    }
  }

  /** Assigning to a present key leaves the key order alone; a new key is appended. */
  lemma KeysPut(lines: seq<Line>, line: Line)
    requires DistinctKeys(lines)
    ensures Keys(Put(lines, line)) == if line.key in Keys(lines) then Keys(lines) else Keys(lines) + [line.key]
  {
    var r := Put(lines, line);
    if line.key in Keys(lines) {
      var i :| 0 <= i < |lines| && Keys(lines)[i] == line.key;
      PutPresent(lines, line, i);
      assert forall p :: 0 <= p < |r| ==> Keys(r)[p] == Keys(lines)[p];
    } else {
      assert forall i :: 0 <= i < |lines| ==> lines[i].key != line.key by {
        forall i | 0 <= i < |lines| ensures lines[i].key != line.key {
          assert Keys(lines)[i] == lines[i].key;
        }
      }
      PutAbsent(lines, line);
      assert forall p :: 0 <= p < |r| ==> Keys(r)[p] == (Keys(lines) + [line.key])[p];
    }
  }

  /** The number of poles stored over all entries. */
  function TotalPoles(lines: seq<Line>): nat {
    if lines == [] then 0 else TotalPoles(lines[..|lines| - 1]) + |lines[|lines| - 1].poles|
  }

  /** An index whose entries hold no poles holds no poles in total. */
  lemma {:induction false} NoPolesTotal(lines: seq<Line>)
    requires forall i :: 0 <= i < |lines| ==> lines[i].poles == []
    ensures TotalPoles(lines) == 0
    decreases |lines|
  {
    if lines != [] {
      var init := lines[..|lines| - 1];
      assert forall i :: 0 <= i < |init| ==> init[i] == lines[i];
      NoPolesTotal(init);
    }
  }

  function LineOf(key: string, items: seq<Item>): Line {
    Line(key, CableOf(items), BoundariesOf(items), [])
  }

  /** A folder as the folder loop sees it: its key (None for a skipped folder) and its items. */
  datatype Section = Section(key: Option<string>, items: seq<Item>)

  function SectionsOf(folders: seq<Folder>, oracles: Oracles): (ss: seq<Section>)
    ensures |ss| == |folders|
    ensures forall i :: 0 <= i < |folders| ==> ss[i] == Section(ZoneKey(folders[i].name), ItemsOf(folders[i].placemarks, oracles))
  {
    seq(|folders|, i requires 0 <= i < |folders| => Section(ZoneKey(folders[i].name), ItemsOf(folders[i].placemarks, oracles)))
  }

  /** `lines_data` after the folder loop. */
  function IndexOf(sections: seq<Section>): (r: seq<Line>)
    ensures DistinctKeys(r)
    ensures forall i :: 0 <= i < |r| ==> r[i].poles == []
  {
    if sections == [] then []
    else
      var prev := IndexOf(sections[..|sections| - 1]);
      var f := sections[|sections| - 1];
      match f.key
      case None => prev
      case Some(k) =>
        PutDistinct(prev, LineOf(k, f.items));
        PutNoPoles(prev, LineOf(k, f.items));
        Put(prev, LineOf(k, f.items))
  }

  function LineIndexOf(folders: seq<Folder>, oracles: Oracles): seq<Line> {
    IndexOf(SectionsOf(folders, oracles))
  }

  /** One more placemark extends the cable and boundary scans by that placemark alone. */
  lemma ScanStep(items: seq<Item>, j: nat)
    requires j < |items|
    ensures CableOf(items[..j + 1]) == if IsCable(items[j]) then Some(items[j].geom.value.path) else CableOf(items[..j])
    ensures BoundariesOf(items[..j + 1])
         == BoundariesOf(items[..j])
            + if IsBoundary(items[j]) then [Boundary(BoundaryName(items[j].name), items[j].geom.value.ring)] else []
  {
    assert items[..j + 1][..j] == items[..j];
  }

  /** One more folder leaves the index alone, or stores the folder's entry under its key. */
  lemma IndexStep(sections: seq<Section>, i: nat)
    requires i < |sections|
    ensures IndexOf(sections[..i + 1])
         == match sections[i].key
            case None => IndexOf(sections[..i])
            case Some(k) => Put(IndexOf(sections[..i]), LineOf(k, sections[i].items))
  {
    assert sections[..i + 1][..i] == sections[..i];
  }

  /**
   * The body of the placemark loop: a placemark without geometry is skipped, a
   * marked LineString replaces the cable, a marked Polygon is appended to the
   * boundaries.
   */
  method ScanPlacemark(pm: Placemark, oracles: Oracles, cable0: Option<seq<Coord>>, boundaries0: seq<Boundary>)
    returns (cable: Option<seq<Coord>>, boundaries: seq<Boundary>)
    ensures var item := ItemOf(pm, oracles);
            && cable == (if IsCable(item) then Some(item.geom.value.path) else cable0)
            && boundaries == boundaries0 + if IsBoundary(item) then [Boundary(BoundaryName(item.name), item.geom.value.ring)] else []
  {
    cable, boundaries := cable0, boundaries0;
    var pnameText := Upper(if pm.name.Some? then pm.name.value else "");
    var geom := ExtractGeometry(pm, oracles);
    if geom.None? {
      return;
    }
    if Contains(pnameText, CableMarker) && geom.value.LineString? {
      cable := Some(geom.value.path);
    }
    if Contains(pnameText, BoundaryMarker) && geom.value.Polygon? {
      boundaries := boundaries + [Boundary(BoundaryName(pm.name), geom.value.ring)];
    }
  }

  /** The placemark loop over one LINE folder. */
  method ScanFolder(pms: seq<Placemark>, oracles: Oracles) returns (cable: Option<seq<Coord>>, boundaries: seq<Boundary>)
    ensures cable == CableOf(ItemsOf(pms, oracles))
    ensures boundaries == BoundariesOf(ItemsOf(pms, oracles))
  {
    ghost var items := ItemsOf(pms, oracles);
    cable := None;
    boundaries := [];
    var j := 0;
    while j < |pms|
      invariant 0 <= j <= |pms|
      invariant cable == CableOf(items[..j])
      invariant boundaries == BoundariesOf(items[..j])
    {
      cable, boundaries := ScanPlacemark(pms[j], oracles, cable, boundaries);
      ScanStep(items, j);
      j := j + 1;
    }
    assert items[..j] == items;
  }

  /** The name tests of the folder loop: skip an unnamed folder and one not starting with "LINE". */
  method FolderKey(name: Option<string>) returns (key: Option<string>)
    ensures key == ZoneKey(name)
  {
    if name.None? || name.value == "" {
      return None;
    }
    var fnameText := Strip(name.value);
    if !StartsWith(Upper(fnameText), LinePrefix) {
      return None;
    }
    return Some(Upper(fnameText));
  }

  /** The folder loop of `classify_poles_from_tree`. */
  method BuildLineIndex(folders: seq<Folder>, oracles: Oracles) returns (lines: seq<Line>)
    ensures lines == LineIndexOf(folders, oracles)
  {
    ghost var sections := SectionsOf(folders, oracles);
    lines := [];
    var i := 0;
    while i < |folders|
      invariant 0 <= i <= |folders|
      invariant lines == IndexOf(sections[..i])
    {
      var fld := folders[i];
      var key := FolderKey(fld.name);
      IndexStep(sections, i);
      if key.None? {
        i := i + 1;
        continue;
      }
      var cable, boundaries := ScanFolder(fld.placemarks, oracles);
      lines := Put(lines, Line(key.value, cable, boundaries, []));
      i := i + 1;
    }
    assert sections[..i] == sections;
  }

  // ---------------------------------------------------------------------------
  // What the index holds
  // ---------------------------------------------------------------------------

  /** The keys of the LINE folders, in folder order, repeats included. */
  function SectionKeys(sections: seq<Section>): seq<string> {
    if sections == [] then []
    else
      SectionKeys(sections[..|sections| - 1])
        + match sections[|sections| - 1].key case None => [] case Some(k) => [k]
  }

  /** A list with each element kept only at its first occurrence. */
  function FirstOccurrences(s: seq<string>): seq<string> {
    if s == [] then []
    else
      var prev := FirstOccurrences(s[..|s| - 1]);
      if s[|s| - 1] in prev then prev else prev + [s[|s| - 1]]
  }

  /**
   * The index has one entry per distinct LINE key, ordered by the key's FIRST
   * folder (a later duplicate does not move it).
   */
  lemma {:induction false} IndexKeyOrder(sections: seq<Section>)
    ensures Keys(IndexOf(sections)) == FirstOccurrences(SectionKeys(sections))
  {
    if sections != [] {
      var init := sections[..|sections| - 1];
      IndexKeyOrder(init);
      var prev := IndexOf(init);
      var last := sections[|sections| - 1];
      match last.key
      case None =>
        assert SectionKeys(sections) == SectionKeys(init) + [];
        assert SectionKeys(init) + [] == SectionKeys(init);
        assert IndexOf(sections) == prev;
      case Some(k) =>
        var sk := SectionKeys(sections);
        assert sk == SectionKeys(init) + [k];
        assert sk[..|sk| - 1] == SectionKeys(init);
        KeysPut(prev, LineOf(k, last.items));
    }
  }

  /**
   * The entry stored under a key is built from the LAST folder with that key:
   * its cable and boundaries replace those of any earlier folder entirely.
   */
  lemma {:induction false} IndexEntryFromLastFolder(sections: seq<Section>, j: nat)
    requires j < |sections| && sections[j].key.Some?
    requires forall i :: j < i < |sections| ==> sections[i].key != sections[j].key
    ensures var idx := IndexOf(sections);
            var k := sections[j].key.value;
            (exists p :: 0 <= p < |idx| && idx[p].key == k)
            && forall p :: 0 <= p < |idx| && idx[p].key == k ==> idx[p] == LineOf(k, sections[j].items)
  {
    var k := sections[j].key.value;
    var init := sections[..|sections| - 1];
    var prev := IndexOf(init);
    var idx := IndexOf(sections);
    if j == |sections| - 1 {
      var line := LineOf(k, sections[j].items);
      assert idx == Put(prev, line);
      if p :| 0 <= p < |prev| && prev[p].key == k {
        PutPresent(prev, line, p);
        assert idx[p] == line;
      } else {
        PutAbsent(prev, line);
        assert idx[|prev|] == line;
      }
    } else {
      assert init[j] == sections[j];
      assert forall i :: j < i < |init| ==> init[i] == sections[i];
      IndexEntryFromLastFolder(init, j);
      var last := sections[|sections| - 1];
      if last.key.None? {
        assert idx == prev;
        var p :| 0 <= p < |prev| && prev[p].key == k;
        assert 0 <= p < |idx| && idx[p].key == k;
        assert exists p' :: 0 <= p' < |idx| && idx[p'].key == k;
        assert idx == IndexOf(sections);
      } else {
        var k' := last.key.value;
        assert k' != k;
        var line := LineOf(k', last.items);
        var p :| 0 <= p < |prev| && prev[p].key == k;
        if q :| 0 <= q < |prev| && prev[q].key == k' {
          PutPresent(prev, line, q);
          assert idx[p] == prev[p];
        } else {
          PutAbsent(prev, line);
          assert idx[p] == prev[p];
        }
      }
    }
  }
}
