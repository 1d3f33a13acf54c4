/**
 * Pole collection and first-match assignment of `classify_poles_from_tree`:
 * the Point placemarks of the POLE folder become poles in document order, and
 * every pole is appended to the first LINE entry, in dictionary order, whose
 * cable is close enough or one of whose boundaries accepts it.
 */
module Classifier {
  import opened Wrappers
  import opened PyText
  import opened Geometry
  import opened ZoneIndex

  /** Metres per degree used to turn the distance threshold into degrees. */
  const MetresPerDegree: real := 111320.0

  const UnnamedPole := "Unnamed"

  // ---------------------------------------------------------------------------
  // Pole collection
  // ---------------------------------------------------------------------------

  datatype Pole = Pole(name: string, at: Coord)

  /** `(nm or "Unnamed").strip()`; the default has no surrounding whitespace to strip. */
  function PoleName(nm: Option<string>): string {
    if nm.Some? && nm.value != "" then Strip(nm.value) else UnnamedPole
  }

  /** The poles one placemark contributes: one when its geometry is a Point, none otherwise. */
  function PolesFrom(item: Item): seq<Pole> {
    if item.geom.Some? && item.geom.value.Point? then [Pole(PoleName(item.name), item.geom.value.at)] else []
  }

  /** The `poles` list after the collection loop over the placemarks seen as `items`. */
  function PolesOf(items: seq<Item>): seq<Pole> {
    if items == [] then [] else PolesOf(items[..|items| - 1]) + PolesFrom(items[|items| - 1])
  }

  lemma PolesStep(items: seq<Item>, i: nat)
    requires i < |items|
    ensures PolesOf(items[..i + 1]) == PolesOf(items[..i]) + PolesFrom(items[i])
  {
    assert items[..i + 1][..i] == items[..i];
  }

  /** The body of the collection loop: a Point placemark gives one pole, any other none. */
  method PoleOf(pm: Placemark, oracles: Oracles) returns (found: seq<Pole>)
    ensures found == PolesFrom(ItemOf(pm, oracles))
  {
    var name := PoleName(pm.name);
    var geom := ExtractGeometry(pm, oracles);
    if geom.Some? && geom.value.Point? {
      return [Pole(name, geom.value.at)];
    }
    return [];
  }

  /** The collection loop over the placemarks of the POLE folder. */
  method CollectPoles(pms: seq<Placemark>, oracles: Oracles) returns (poles: seq<Pole>)
    ensures poles == PolesOf(ItemsOf(pms, oracles))
  {
    ghost var items := ItemsOf(pms, oracles);
    poles := [];
    var i := 0;
    while i < |pms|
      invariant 0 <= i <= |pms|
      invariant poles == PolesOf(items[..i])
    {
      var found := PoleOf(pms[i], oracles);
      PolesStep(items, i);
      poles := poles + found;
      i := i + 1;
    }
    assert items[..i] == items;
  }

  /** Poles keep document order: collecting distributes over concatenation. */
  lemma {:induction false} PolesOfAppend(a: seq<Item>, b: seq<Item>)
    ensures PolesOf(a + b) == PolesOf(a) + PolesOf(b)
  {
    if b == [] {
      assert a + b == a;
    } else {
      var last := b[|b| - 1];
      PolesOfAppend(a, b[..|b| - 1]);
      assert (a + b)[..|a + b| - 1] == a + b[..|b| - 1];
      assert (a + b)[|a + b| - 1] == last;
      assert PolesOf(a + b) == PolesOf(a + b[..|b| - 1]) + PolesFrom(last);
      assert PolesOf(b) == PolesOf(b[..|b| - 1]) + PolesFrom(last);
    }
  }

  /** A single placemark yields a pole exactly when its geometry is a Point, named by `PoleName`. */
  lemma PolesOfSingle(pm: Placemark, oracles: Oracles)
    ensures var g := GeometryOf(pm, oracles);
            PolesOf(ItemsOf([pm], oracles)) == if g.Some? && g.value.Point? then [Pole(PoleName(pm.name), g.value.at)] else []
  {
    var items := ItemsOf([pm], oracles);
    assert items[..0] == [];
  }

  /** No pole name has whitespace at either end. */
  lemma {:induction false} PoleNamesTrimmed(items: seq<Item>)
    ensures forall i :: 0 <= i < |PolesOf(items)| ==> Trimmed(PolesOf(items)[i].name)
  {
    if items != [] {
      var init := items[..|items| - 1];
      PoleNamesTrimmed(init);
      var ps := PolesOf(items);
      var prev := PolesOf(init);
      forall i | 0 <= i < |ps| ensures Trimmed(ps[i].name) {
        if i < |prev| {
          assert ps[i] == prev[i];
        }
      }
    }
  }

  // ---------------------------------------------------------------------------
  // Matching one pole against one LINE entry
  // ---------------------------------------------------------------------------

  /** `p.distance(cable) <= dist_threshold_m / 111320.0`. */
  predicate CableNear(cable: Option<seq<Coord>>, at: Coord, oracles: Oracles, threshold: real) {
    cable.Some? && oracles.distance(at, cable.value) <= threshold / MetresPerDegree
  }

  /**
   * The boundary rule: the point lies within the polygon, the boundary name is
   * non-empty and its upper-cased first character occurs in the upper-cased key.
   */
  predicate BoundaryAccepts(key: string, b: Boundary, at: Coord, oracles: Oracles) {
    oracles.within(at, b.ring) && b.name != "" && Contains(Upper(key), Upper([b.name[0]]))
  }

  predicate SomeBoundaryAccepts(key: string, bs: seq<Boundary>, at: Coord, oracles: Oracles) {
    exists i :: 0 <= i < |bs| && BoundaryAccepts(key, bs[i], at, oracles)
  }

  /**
   * What one iteration of the entry loop decides: the value stored beside the
   * pole when the entry takes it (the projection onto the cable, or the
   * longitude for a boundary match), None when the loop moves on.
   */
  function MatchIn(line: Line, at: Coord, oracles: Oracles, threshold: real): Option<real> {
    if CableNear(line.cable, at, oracles, threshold) then Some(oracles.project(at, line.cable.value))
    else if SomeBoundaryAccepts(line.key, line.boundaries, at, oracles) then Some(at.lon)
    else None
  }

  /** The entry a pole is assigned to and the value stored with it. */
  datatype Match = Match(index: nat, order: real)

  /** The first entry, in dictionary order, that takes the pole. */
  function FirstMatch(lines: seq<Line>, at: Coord, oracles: Oracles, threshold: real): Option<Match> {
    if lines == [] then None
    else
      var m := MatchIn(lines[0], at, oracles, threshold);
      if m.Some? then Some(Match(0, m.value))
      else
        var r := FirstMatch(lines[1..], at, oracles, threshold);
        if r.None? then None else Some(Match(r.value.index + 1, r.value.order))
  }

  /**
   * No match exactly when no entry takes the pole; otherwise the match names an
   * entry that takes it, with the value that entry computes, and no earlier
   * entry takes it.
   */
  lemma {:induction false} FirstMatchSpec(lines: seq<Line>, at: Coord, oracles: Oracles, threshold: real)
    ensures var r := FirstMatch(lines, at, oracles, threshold);
            && (r.None? <==> forall i :: 0 <= i < |lines| ==> MatchIn(lines[i], at, oracles, threshold).None?)
            && (r.Some? ==>
                 && r.value.index < |lines|
                 && MatchIn(lines[r.value.index], at, oracles, threshold) == Some(r.value.order)
                 && forall i :: 0 <= i < r.value.index ==> MatchIn(lines[i], at, oracles, threshold).None?)
  {
    if lines != [] && MatchIn(lines[0], at, oracles, threshold).None? {
      FirstMatchSpec(lines[1..], at, oracles, threshold);
      assert forall i :: 1 <= i < |lines| ==> lines[i] == lines[1..][i - 1];
    }
  }

  /** The boundary loop: breaks at the first boundary that accepts the pole. */
  method ScanBoundaries(key: string, bs: seq<Boundary>, at: Coord, oracles: Oracles) returns (found: bool)
    ensures found == SomeBoundaryAccepts(key, bs, at, oracles)
  {
    var j := 0;
    while j < |bs|
      invariant 0 <= j <= |bs|
      invariant forall i :: 0 <= i < j ==> !BoundaryAccepts(key, bs[i], at, oracles)
    {
      var b := bs[j];
      if oracles.within(at, b.ring) {
        if b.name != "" && Contains(Upper(key), Upper([b.name[0]])) {
          return true;
        }
      }
      j := j + 1;
    }
    return false;
  }

  /** The entry loop for one pole, cable test first, leaving at the first match. */
  method FindLine(lines: seq<Line>, at: Coord, oracles: Oracles, threshold: real) returns (m: Option<Match>)
    ensures m == FirstMatch(lines, at, oracles, threshold)
  {
    var i := 0;
    while i < |lines|
      invariant 0 <= i <= |lines|
      invariant forall k :: 0 <= k < i ==> MatchIn(lines[k], at, oracles, threshold).None?
    {
      var line := lines[i];
      var cable := line.cable;
      if cable.Some? {
        var d := oracles.distance(at, cable.value);
        if d <= threshold / MetresPerDegree {
          m := Some(Match(i, oracles.project(at, cable.value)));
          FirstMatchAt(lines, i, at, oracles, threshold);
          return;
        }
      }
      if line.boundaries != [] {
        var found := ScanBoundaries(line.key, line.boundaries, at, oracles);
        if found {
          m := Some(Match(i, at.lon));
          FirstMatchAt(lines, i, at, oracles, threshold);
          return;
        }
      }
      i := i + 1;
    }
    FirstMatchSpec(lines, at, oracles, threshold);
    m := None;
  }

  /** The first entry that matches is the one `FirstMatch` names. */
  lemma FirstMatchAt(lines: seq<Line>, i: nat, at: Coord, oracles: Oracles, threshold: real)
    requires i < |lines| && MatchIn(lines[i], at, oracles, threshold).Some?
    requires forall k :: 0 <= k < i ==> MatchIn(lines[k], at, oracles, threshold).None?
    ensures FirstMatch(lines, at, oracles, threshold) == Some(Match(i, MatchIn(lines[i], at, oracles, threshold).value))
  {
    var r := FirstMatch(lines, at, oracles, threshold);
    FirstMatchSpec(lines, at, oracles, threshold);
    assert r.Some?;
    assert !(r.value.index < i);
    assert !(i < r.value.index);
  }

  // ---------------------------------------------------------------------------
  // Assigning all poles
  // ---------------------------------------------------------------------------

  /** The pole record stored when `p` is routed by match `m`. */
  function Stored(p: Pole, m: Match): ClassifiedPole {
    ClassifiedPole(p.name, p.at, m.order)
  }

  /** `lines_data[assigned_line]["poles"].append((name, p, proj_val))` for one pole, if it matches. */
  function Route(lines: seq<Line>, p: Pole, oracles: Oracles, threshold: real): (r: seq<Line>)
    ensures |r| == |lines|
  {
    FirstMatchSpec(lines, p.at, oracles, threshold);
    match FirstMatch(lines, p.at, oracles, threshold)
    case None => lines
    case Some(m) =>
      lines[m.index := lines[m.index].(poles := lines[m.index].poles + [Stored(p, m)])]
  }

  /** The entries after the assignment loop has handled `poles`. */
  function Classified(lines: seq<Line>, poles: seq<Pole>, oracles: Oracles, threshold: real): (r: seq<Line>)
    ensures |r| == |lines|
  {
    if poles == [] then lines
    else Route(Classified(lines, poles[..|poles| - 1], oracles, threshold), poles[|poles| - 1], oracles, threshold)
  }

  /** The assignment loop: poles in global order, each to its first matching entry or nowhere. */
  method AssignPoles(lines0: seq<Line>, poles: seq<Pole>, oracles: Oracles, threshold: real) returns (lines: seq<Line>)
    ensures lines == Classified(lines0, poles, oracles, threshold)
  {
    lines := lines0;
    var i := 0;
    while i < |poles|
      invariant 0 <= i <= |poles|
      invariant lines == Classified(lines0, poles[..i], oracles, threshold)
    {
      assert poles[..i + 1][..i] == poles[..i];
      var p := poles[i];
      var m := FindLine(lines, p.at, oracles, threshold);
      FirstMatchSpec(lines, p.at, oracles, threshold);
      if m.Some? {
        var entry := lines[m.value.index];
        lines := lines[m.value.index := entry.(poles := entry.poles + [Stored(p, m.value)])];
      }
      i := i + 1;
    }
    assert poles[..i] == poles;
  }

  /** `classify_poles_from_tree` on the POLE placemarks and the folders of a document. */
  function ClassifyOf(poleMarks: seq<Placemark>, folders: seq<Folder>, oracles: Oracles, threshold: real): seq<Line> {
    Classified(LineIndexOf(folders, oracles), PolesOf(ItemsOf(poleMarks, oracles)), oracles, threshold)
  }

  method ClassifyPolesFromTree(poleMarks: seq<Placemark>, folders: seq<Folder>, oracles: Oracles, threshold: real)
    returns (lines: seq<Line>)
    ensures lines == ClassifyOf(poleMarks, folders, oracles, threshold)
  {
    var poles := CollectPoles(poleMarks, oracles);
    var index := BuildLineIndex(folders, oracles);
    lines := AssignPoles(index, poles, oracles, threshold);
  }

  // ---------------------------------------------------------------------------
  // What the assignment achieves
  // ---------------------------------------------------------------------------

  /** Two entry lists that differ at most in their poles. */
  predicate SameZones(a: seq<Line>, b: seq<Line>) {
    |a| == |b| && forall i :: 0 <= i < |a| ==> a[i].(poles := []) == b[i].(poles := [])
  }

  /** Matching one entry never looks at the poles already stored there. */
  lemma MatchInIgnoresPoles(a: Line, b: Line, at: Coord, oracles: Oracles, threshold: real)
    requires a.(poles := []) == b.(poles := [])
    ensures MatchIn(a, at, oracles, threshold) == MatchIn(b, at, oracles, threshold)
  {
    assert a.key == b.key && a.cable == b.cable && a.boundaries == b.boundaries;
  }

  /** Matching never looks at the poles already stored. */
  lemma {:induction false} FirstMatchIgnoresPoles(a: seq<Line>, b: seq<Line>, at: Coord, oracles: Oracles, threshold: real)
    requires SameZones(a, b)
    ensures FirstMatch(a, at, oracles, threshold) == FirstMatch(b, at, oracles, threshold)
  {
    if a != [] {
      MatchInIgnoresPoles(a[0], b[0], at, oracles, threshold);
      assert SameZones(a[1..], b[1..]) by {
        forall i | 0 <= i < |a[1..]| ensures a[1..][i].(poles := []) == b[1..][i].(poles := []) {
          assert a[1..][i] == a[i + 1] && b[1..][i] == b[i + 1];
        }
      }
      FirstMatchIgnoresPoles(a[1..], b[1..], at, oracles, threshold);
    }
  }

  /** The poles of `poles` that entry `i` of `lines` takes, with their stored values, in order. */
  function RoutedTo(lines: seq<Line>, poles: seq<Pole>, i: nat, oracles: Oracles, threshold: real): seq<ClassifiedPole> {
    if poles == [] then []
    else
      var p := poles[|poles| - 1];
      var m := FirstMatch(lines, p.at, oracles, threshold);
      RoutedTo(lines, poles[..|poles| - 1], i, oracles, threshold)
        + if m.Some? && m.value.index == i then [Stored(p, m.value)] else []
  }

  /**
   * Entry `i` holds only poles whose first matching entry is `i`, each with the
   * value that match computed.
   */
  lemma {:induction false} RoutedToOnlyMatches(lines: seq<Line>, poles: seq<Pole>, i: nat, oracles: Oracles, threshold: real)
    ensures forall q :: q in RoutedTo(lines, poles, i, oracles, threshold) ==>
      exists k :: 0 <= k < |poles| && FirstMatch(lines, poles[k].at, oracles, threshold) == Some(Match(i, q.order))
                  && q == Stored(poles[k], Match(i, q.order))
  {
    if poles != [] {
      var n := |poles| - 1;
      var init := poles[..n];
      RoutedToOnlyMatches(lines, init, i, oracles, threshold);
      var prev := RoutedTo(lines, init, i, oracles, threshold);
      forall q | q in RoutedTo(lines, poles, i, oracles, threshold)
        ensures exists k :: 0 <= k < |poles| && FirstMatch(lines, poles[k].at, oracles, threshold) == Some(Match(i, q.order))
                            && q == Stored(poles[k], Match(i, q.order))
      {
        if q in prev {
          var k :| 0 <= k < |init| && FirstMatch(lines, init[k].at, oracles, threshold) == Some(Match(i, q.order))
                   && q == Stored(init[k], Match(i, q.order));
          assert init[k] == poles[k];
        } else {
          assert FirstMatch(lines, poles[n].at, oracles, threshold) == Some(Match(i, q.order));
          assert q == Stored(poles[n], Match(i, q.order));
        }
      }
    }
  }

  lemma RoutedToStep(lines: seq<Line>, poles: seq<Pole>, i: nat, oracles: Oracles, threshold: real)
    requires poles != []
    ensures var p := poles[|poles| - 1];
            var m := FirstMatch(lines, p.at, oracles, threshold);
            RoutedTo(lines, poles, i, oracles, threshold)
              == RoutedTo(lines, poles[..|poles| - 1], i, oracles, threshold)
                 + if m.Some? && m.value.index == i then [Stored(p, m.value)] else []
  {
  }

  /** Every pole whose first matching entry is `i` is stored in entry `i`. */
  lemma {:induction false} RoutedToAllMatches(lines: seq<Line>, poles: seq<Pole>, i: nat, k: nat, m: Match,
                                              oracles: Oracles, threshold: real)
    requires k < |poles| && FirstMatch(lines, poles[k].at, oracles, threshold) == Some(m) && m.index == i
    ensures Stored(poles[k], m) in RoutedTo(lines, poles, i, oracles, threshold)
  {
    var n := |poles| - 1;
    RoutedToStep(lines, poles, i, oracles, threshold);
    if k < n {
      assert poles[..n][k] == poles[k];
      RoutedToAllMatches(lines, poles[..n], i, k, m, oracles, threshold);
    }
  }

  /**
   * The assignment keeps every entry's key, cable and boundaries, and appends
   * to entry `i` exactly the poles whose first matching entry is `i`, in
   * global pole order.
   */
  lemma {:induction false} ClassifiedEntries(lines: seq<Line>, poles: seq<Pole>, oracles: Oracles, threshold: real)
    ensures var r := Classified(lines, poles, oracles, threshold);
            forall i :: 0 <= i < |lines| ==> r[i] == lines[i].(poles := lines[i].poles + RoutedTo(lines, poles, i, oracles, threshold))
  {
    if poles != [] {
      var init := poles[..|poles| - 1];
      var p := poles[|poles| - 1];
      ClassifiedEntries(lines, init, oracles, threshold);
      var prev := Classified(lines, init, oracles, threshold);
      assert SameZones(prev, lines);
      FirstMatchIgnoresPoles(prev, lines, p.at, oracles, threshold);
    }
  }

  /** A pole the entries do not match is dropped: routing it changes nothing. */
  lemma RouteUnmatched(lines: seq<Line>, p: Pole, oracles: Oracles, threshold: real)
    requires forall i :: 0 <= i < |lines| ==> MatchIn(lines[i], p.at, oracles, threshold).None?
    ensures Route(lines, p, oracles, threshold) == lines
  {
    FirstMatchSpec(lines, p.at, oracles, threshold);
  }

  /** Later entries are never consulted once an earlier one matches. */
  lemma FirstMatchIgnoresLaterZones(lines: seq<Line>, extra: seq<Line>, at: Coord, oracles: Oracles, threshold: real)
    requires FirstMatch(lines, at, oracles, threshold).Some?
    ensures FirstMatch(lines + extra, at, oracles, threshold) == FirstMatch(lines, at, oracles, threshold)
  {
    FirstMatchSpec(lines, at, oracles, threshold);
    var m := FirstMatch(lines, at, oracles, threshold).value;
    var all := lines + extra;
    assert all[m.index] == lines[m.index];
    assert forall k :: 0 <= k < m.index ==> all[k] == lines[k];
    FirstMatchAt(all, m.index, at, oracles, threshold);
  }

  /** The cable test comes first: a close cable decides regardless of the boundaries. */
  lemma CableDecidesFirst(line: Line, bs: seq<Boundary>, at: Coord, oracles: Oracles, threshold: real)
    requires CableNear(line.cable, at, oracles, threshold)
    ensures MatchIn(line.(boundaries := bs), at, oracles, threshold) == Some(oracles.project(at, line.cable.value))
  {
  }

  /**
   * The letter test is containment of one character anywhere in the key, not
   * equality with the zone letter.
   */
  lemma LetterTestIsMembership(key: string, bname: string)
    requires bname != []
    ensures Contains(Upper(key), Upper([bname[0]])) <==> UpperChar(bname[0]) in Upper(key)
  {
    assert Upper([bname[0]]) == [UpperChar(bname[0])];
    ContainsSingle(Upper(key), UpperChar(bname[0]));
  }

  /**
   * Since every key starts with "LINE", a boundary whose name starts with L, I,
   * N or E passes the letter test for every entry.
   */
  lemma LineLettersAlwaysPass(line: Line, b: Boundary, at: Coord, oracles: Oracles)
    requires StartsWith(line.key, LinePrefix)
    requires b.name != [] && UpperChar(b.name[0]) in LinePrefix
    requires oracles.within(at, b.ring)
    ensures BoundaryAccepts(line.key, b, at, oracles)
  {
    var c := UpperChar(b.name[0]);
    var i :| 0 <= i < 4 && LinePrefix[i] == c;
    assert line.key[i] == c;
    assert Upper(line.key)[i] == UpperChar(c);
    UpperCharKeepsSpace(b.name[0]);
    LetterTestIsMembership(line.key, b.name);
  }

  /** The poles some entry takes, in order. */
  function Assigned(lines: seq<Line>, poles: seq<Pole>, oracles: Oracles, threshold: real): seq<Pole> {
    if poles == [] then []
    else
      var p := poles[|poles| - 1];
      Assigned(lines, poles[..|poles| - 1], oracles, threshold)
        + if FirstMatch(lines, p.at, oracles, threshold).Some? then [p] else []
  }

  /** Appending one pole to one entry adds one to the total. */
  lemma {:induction false} TotalPolesAppend(lines: seq<Line>, i: nat, c: ClassifiedPole)
    requires i < |lines|
    ensures TotalPoles(lines[i := lines[i].(poles := lines[i].poles + [c])]) == TotalPoles(lines) + 1
  {
    var n := |lines| - 1;
    var r := lines[i := lines[i].(poles := lines[i].poles + [c])];
    if i < n {
      assert r[..n] == lines[..n][i := lines[..n][i].(poles := lines[..n][i].poles + [c])];
      TotalPolesAppend(lines[..n], i, c);
    } else {
      assert r[..n] == lines[..n];
    }
  }

  /**
   * No pole is lost or stored twice: the entries gain exactly one stored pole
   * per pole that matches some entry, and unmatched poles are dropped.
   */
  lemma {:induction false} ClassifiedCount(lines: seq<Line>, poles: seq<Pole>, oracles: Oracles, threshold: real)
    ensures TotalPoles(Classified(lines, poles, oracles, threshold)) == TotalPoles(lines) + |Assigned(lines, poles, oracles, threshold)|
  {
    if poles != [] {
      var init := poles[..|poles| - 1];
      var p := poles[|poles| - 1];
      ClassifiedCount(lines, init, oracles, threshold);
      var prev := Classified(lines, init, oracles, threshold);
      ClassifiedEntries(lines, init, oracles, threshold);
      assert SameZones(prev, lines);
      FirstMatchIgnoresPoles(prev, lines, p.at, oracles, threshold);
      var m := FirstMatch(prev, p.at, oracles, threshold);
      FirstMatchSpec(prev, p.at, oracles, threshold);
      if m.Some? {
        TotalPolesAppend(prev, m.value.index, Stored(p, m.value));
      }
    }
  }

  /** Assignment keeps the keys, so the dictionary keeps its distinct keys. */
  lemma ClassifiedKeepsKeys(lines: seq<Line>, poles: seq<Pole>, oracles: Oracles, threshold: real)
    ensures Keys(Classified(lines, poles, oracles, threshold)) == Keys(lines)
    ensures DistinctKeys(lines) ==> DistinctKeys(Classified(lines, poles, oracles, threshold))
  {
    ClassifiedEntries(lines, poles, oracles, threshold);
  }
}
