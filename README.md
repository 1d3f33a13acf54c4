# Pole-to-LINE classification and global renumbering

This project models the core of `streamlit_app.py`, a tool that sorts the
poles of a KMZ survey into LINE zones and renumbers them. The tool reads a
KML document in which every `LINE …` folder holds a distribution cable
(a LineString) and named boundary polygons, and a `POLE` folder holds the
poles as Points. It:

1. collects the poles in document order;
2. builds an insertion-ordered dictionary with one entry per LINE folder;
3. assigns each pole to the first entry, in dictionary order, whose cable is
   within the distance threshold or one of whose boundaries contains the pole
   and passes the letter test. Entries are tried one at a time: an entry's
   cable, then that entry's boundaries, then the next entry. A pole that no
   entry takes is dropped;
4. numbers all assigned poles with one counter. The counter runs over the
   entries in sorted key order and is shared by the KMZ export and the
   preview table. Each label is `prefix + str(counter).zfill(padding)`.

The model has seven modules, one per file:

- `wrappers.dfy`: `Option`.
- `pytext.dfy`: the Python string built-ins the code relies on: `isspace`,
  `strip`, `upper`, `split(",")`, `split()`, `in`, `startswith`,
  `str(int)` and `zfill`.
- `geometry.dfy`: coordinate parsing and the Point / LineString / Polygon
  dispatch of `extract_geometry_from_placemark`.
- `zone_index.dfy`: the folder loop and the `lines_data` dictionary.
- `classifier.dfy`: pole collection and the first-match assignment loop.
- `renumber.dfy`: `sorted(keys)`, the labels, the export loop and the
  preview loop.
- `pipeline.dfy`: classification followed by the preview's numbering.

The loops of the source are methods with loop invariants. Each is proved
equal to a specification function:

- `ParseEach` to `ParseTuples`;
- `ScanFolder` to `CableOf` and `BoundariesOf`;
- `BuildLineIndex` to `IndexOf`;
- `CollectPoles` to `PolesOf`;
- `ScanBoundaries` to `SomeBoundaryAccepts`;
- `FindLine` to `FirstMatch`;
- `AssignPoles` to `Classified`;
- `PreviewLine` and `NumberRows` to `RowsOf`;
- `ExportLine` to `PointsOf`;
- `NumberFolders` to `FolderAt`.

The properties of the program are lemmas about those functions.

Calls into code that is not visible here are fields of the `Oracles`
datatype passed to every operation that needs them:

- `float()`;
- whether shapely's `LineString` and `Polygon` constructors accept a
  coordinate list;
- `distance`, `project` and `within`.

The XML layer is replaced by records: `Placemark` holds the text of a
placemark's `name` child and of each geometry kind's `coordinates`
element, and `Folder` holds a folder's name and its placemarks.

## Design description and code

The system's design description and its code disagree in several places. The model follows the code in each:

- The description takes a zone's FIRST marked path as its reference cable. The code keeps overwriting `cable`, so it keeps the LAST one (`ZoneIndex.CableIsLastMarked`).
- The description gives a pole to the NEAREST zone among those whose cable is within the threshold. The code gives it to the FIRST entry in dictionary order that takes it, by cable or by boundary (`Classifier.FirstMatchSpec`, `Classifier.FirstMatchIgnoresLaterZones`).
- The description tries cables for all zones before any boundary. The code tests each entry's cable and then its boundaries before it moves to the next entry (`Classifier.MatchIn`, `Classifier.FindLine`).
- The description asks that a boundary's label start with the zone's identifying letter. The code asks only that the boundary name's upper-cased first letter occur anywhere in the key, "LINE" included (`Classifier.LetterTestIsMembership`, `Classifier.LineLettersAlwaysPass`).
- The description reports unassigned poles and ambiguous boundary matches, and offers an opt-in nearest-boundary fallback. The code silently drops a pole that no entry takes (`Classifier.RouteUnmatched`) and has no fallback.
- The description reports a malformed coordinate text in a diagnostics list. The code silently treats it as no geometry (`Geometry.ExtractGeometry`).
- The description sorts the poles inside a zone by their projection value. The code stores that value but never sorts by it. Poles are numbered in the order they were assigned, which is document order (`Classifier.ClassifiedEntries`, `Renumber.EntriesAt`).
- The description says a repeated zone name shadows the earlier one. In the code the later folder replaces the entry's value, but the key keeps the position of its first folder (`ZoneIndex.IndexKeyOrder`, `ZoneIndex.IndexEntryFromLastFolder`).
- The description makes a counter wider than the padding, or a padding below 1, a fatal configuration error. The code does not fail: `zfill` leaves a wider counter whole (`Renumber.WideCounterKeepsDigits`) and ignores a padding below 1.
- The description offers a boundary-nested output shape. The code writes only one `POLE` folder per LINE (`Renumber.NumberFolders`).

## Model

| member | source | states |
|---|---|---|
| PyText.Strip | streamlit_app.py:192 | `strip()`: the result is a slice of the input with whitespace alone before and after it, has no whitespace at either end, and is empty exactly when the input is all whitespace |
| PyText.StripFixedPoint | streamlit_app.py:216 | stripping changes nothing exactly when there is no whitespace at either end |
| PyText.Upper | streamlit_app.py:217 | `upper()` keeps the length and upper-cases each character in place |
| PyText.UpperIdempotent | streamlit_app.py:247 | upper-casing twice is the same as once, so a stored key is already upper-case |
| PyText.ContainsSingle | streamlit_app.py:275 | a one-character substring test is plain membership |
| PyText.SplitOn | streamlit_app.py:114 | `split(",")` returns at least one field, no field contains a comma, and joining the fields with commas gives back the text |
| PyText.SplitOnUnique | streamlit_app.py:132 | cutting comma-free fields' join at the commas returns exactly those fields |
| PyText.SplitWs | streamlit_app.py:131 | `split()` defined: whitespace is skipped, and each maximal whitespace-free run becomes the next token |
| PyText.SplitWsTokens | streamlit_app.py:131 | every token of `split()` is non-empty and has no whitespace |
| PyText.SplitWsEmpty | streamlit_app.py:131 | `split()` returns no token exactly when the text is all whitespace |
| PyText.SplitWsReconstructs | streamlit_app.py:131 | every text is the tokens of its `split()` interleaved with whitespace gaps, the gaps between two tokens non-empty: the tokens are the maximal whitespace-free runs, in order |
| PyText.SplitWsOfInterleave | streamlit_app.py:131 | `split()` of whitespace gaps interleaved with whitespace-free tokens returns exactly those tokens |
| PyText.DecimalString | streamlit_app.py:303 | `str(counter)` is a non-empty digit string with no leading zero unless the counter is 0 |
| PyText.DecimalStringRoundTrip | streamlit_app.py:303 | reading the digits of `str(n)` back gives `n` |
| PyText.ZFill | streamlit_app.py:303 | `zfill` defined: the result has `max(width, len)` characters, with zeros put after a leading sign or in front |
| PyText.ZFillUnsigned | streamlit_app.py:303 | `zfill` on an unsigned string puts exactly the missing zeros in front and never cuts |
| Geometry.CoordText | streamlit_app.py:108-110 | a `coordinates` text is stripped, and a missing one counts as empty |
| Geometry.ParseFields | streamlit_app.py:114 | `map(float, fields)` succeeds exactly when every field is a number, with one value per field, in order |
| Geometry.ParseTuple | streamlit_app.py:114 | `lon, lat, *_ = map(float, t.split(","))` succeeds exactly when there are at least two fields and every field is a number; the coordinate is the first two fields |
| Geometry.AltitudeIgnored | streamlit_app.py:114 | a third (altitude) field that parses does not change the coordinate |
| Geometry.OneFieldIsNoCoordinate | streamlit_app.py:114 | a tuple with one field is never a coordinate |
| Geometry.ParseTuples | streamlit_app.py:130-133 | the coordinate list exists exactly when every tuple parses; it then has one coordinate per tuple, in order |
| Geometry.ParseEach | streamlit_app.py:130-133 | the tuple loop returns what `ParseTuples` describes and aborts on the first bad tuple |
| Geometry.ParseCoordinateList | streamlit_app.py:129-133 | the coordinate list of a `split()` text |
| Geometry.NoneExtends | streamlit_app.py:132 | one bad tuple anywhere makes the whole list fail |
| Geometry.GeometryOf | streamlit_app.py:89-157 | the dispatch defined: a non-empty Point text that parses gives a Point; else a non-empty LineString text whose tuples all parse and that shapely accepts gives a LineString; the same for a Polygon; else None |
| Geometry.ExtractGeometry | streamlit_app.py:89-157 | the dispatch returns `GeometryOf`: a Point if the Point text parses, otherwise an accepted LineString, otherwise an accepted Polygon, otherwise None |
| Geometry.PointTriedFirst | streamlit_app.py:103-117 | once the Point text parses the result is a Point, and the LineString and Polygon texts are never consulted |
| Geometry.PathFollowsTuples | streamlit_app.py:129-153 | a LineString or Polygon has one coordinate per tuple of its text, at least one, each from the first two fields of its tuple |
| ZoneIndex.ZoneKey | streamlit_app.py:214-218 | a missing or empty folder name gives no key; otherwise the key is the stripped, upper-cased name when it starts with "LINE", and none when it does not |
| ZoneIndex.UpperName | streamlit_app.py:238 | `(pname or "").upper()` |
| ZoneIndex.IsCable | streamlit_app.py:242 | a placemark is the cable when its upper-cased name contains "DISTRIBUTION CABLE" and its geometry is a LineString |
| ZoneIndex.IsBoundary | streamlit_app.py:244 | a placemark is a boundary when its upper-cased name contains "BOUNDARY" and its geometry is a Polygon |
| ZoneIndex.BoundaryName | streamlit_app.py:245 | `pname or "BOUNDARY"` |
| ZoneIndex.Put | streamlit_app.py:247 | `lines_data[key] = value`: the entry under an existing key is replaced in its place, and a new key's entry is appended |
| ZoneIndex.ZoneKeyIdempotent | streamlit_app.py:214-218 | a folder key starts with "LINE" and normalising it again gives itself |
| ZoneIndex.CableIsLastMarked | streamlit_app.py:242-243 | the cable is the path of the LAST marked LineString, and None when there is none |
| ZoneIndex.BoundariesAppend | streamlit_app.py:244-245 | boundaries are collected in document order |
| ZoneIndex.BoundaryNamesKept | streamlit_app.py:245 | each stored boundary name is the name of a marked Polygon placemark, so the "BOUNDARY" default is never used |
| ZoneIndex.Keys | streamlit_app.py:296 | the dictionary's keys in insertion order |
| ZoneIndex.PutPresent | streamlit_app.py:247 | assigning to an existing key replaces that entry in place |
| ZoneIndex.PutAbsent | streamlit_app.py:247 | assigning to a new key appends the entry |
| ZoneIndex.PutDistinct | streamlit_app.py:247 | the dictionary never holds a key twice |
| ZoneIndex.PutNoPoles | streamlit_app.py:247 | an entry is stored with an empty pole list |
| ZoneIndex.KeysPut | streamlit_app.py:247 | an assignment keeps the key order, or appends the new key |
| ZoneIndex.NoPolesTotal | streamlit_app.py:247 | an index whose entries hold no poles holds none in total |
| ZoneIndex.IndexOf | streamlit_app.py:198-247 | `lines_data` after the folder loop has distinct keys and no poles |
| ZoneIndex.ScanPlacemark | streamlit_app.py:238-245 | one placemark: no geometry is skipped, a marked LineString replaces the cable, a marked Polygon is appended |
| ZoneIndex.ScanFolder | streamlit_app.py:221-245 | the placemark loop computes `CableOf` and `BoundariesOf` of the folder's placemarks |
| ZoneIndex.FolderKey | streamlit_app.py:214-218 | the name tests: an unnamed folder or one not starting with "LINE" is skipped, otherwise the key is the stripped, upper-cased name |
| ZoneIndex.BuildLineIndex | streamlit_app.py:197-247 | the folder loop builds `LineIndexOf(folders)` |
| ZoneIndex.IndexKeyOrder | streamlit_app.py:247 | the keys are the distinct LINE keys in order of their FIRST folder |
| ZoneIndex.IndexEntryFromLastFolder | streamlit_app.py:247 | the entry under a key is built from the LAST folder with that key |
| Classifier.PoleName | streamlit_app.py:192 | `(nm or "Unnamed").strip()` |
| Classifier.CollectPoles | streamlit_app.py:172-195 | the collection loop returns `PolesOf` of the POLE placemarks |
| Classifier.PoleOf | streamlit_app.py:192-195 | a placemark gives one pole when its geometry is a Point, and none otherwise |
| Classifier.PolesOfAppend | streamlit_app.py:181-195 | poles keep document order |
| Classifier.PolesOfSingle | streamlit_app.py:192-195 | one placemark gives `[Pole((nm or "Unnamed").strip(), point)]` exactly when its geometry is a Point |
| Classifier.PoleNamesTrimmed | streamlit_app.py:192 | no pole name has whitespace at either end |
| Classifier.CableNear | streamlit_app.py:258-261 | the entry has a cable and its distance to the pole is at most the threshold divided by 111320.0 |
| Classifier.BoundaryAccepts | streamlit_app.py:271-275 | the pole is within the boundary, the boundary name is non-empty, and its upper-cased first letter occurs in the upper-cased key |
| Classifier.MatchIn | streamlit_app.py:254-282 | one entry's test: a near cable gives the projection; otherwise an accepting boundary gives the pole's longitude; otherwise no match |
| Classifier.FirstMatchSpec | streamlit_app.py:253-283 | no match exactly when no entry takes the pole; otherwise the match is the first entry that does, with the value that entry computes |
| Classifier.ScanBoundaries | streamlit_app.py:269-280 | the boundary loop finds a boundary exactly when one contains the pole and passes the letter test |
| Classifier.FindLine | streamlit_app.py:253-283 | the entry loop, cable test first, returns `FirstMatch` |
| Classifier.FirstMatchAt | streamlit_app.py:264 | the loop's early exit is at the first matching entry |
| Classifier.Route | streamlit_app.py:284-285 | routing one pole keeps the number of entries |
| Classifier.AssignPoles | streamlit_app.py:249-285 | the assignment loop computes `Classified` |
| Classifier.ClassifyPolesFromTree | streamlit_app.py:163-287 | the whole function: collection, index, assignment |
| Classifier.FirstMatchIgnoresPoles | streamlit_app.py:253-255 | matching never looks at the poles already stored |
| Classifier.RoutedToOnlyMatches | streamlit_app.py:285 | entry i holds only poles whose first match is i, each with that match's value |
| Classifier.RoutedToAllMatches | streamlit_app.py:285 | every pole whose first match is i is stored in entry i |
| Classifier.ClassifiedEntries | streamlit_app.py:249-285 | assignment keeps every entry's key, cable and boundaries, and appends to entry i exactly the poles routed to i, in global pole order |
| Classifier.RouteUnmatched | streamlit_app.py:284 | a pole no entry takes is dropped |
| Classifier.FirstMatchIgnoresLaterZones | streamlit_app.py:264 | entries after the first match are never consulted |
| Classifier.CableDecidesFirst | streamlit_app.py:257-264 | a close cable decides before any boundary is looked at |
| Classifier.LetterTestIsMembership | streamlit_app.py:275 | the letter test asks whether the upper-cased first letter occurs anywhere in the key |
| Classifier.LineLettersAlwaysPass | streamlit_app.py:275 | a boundary whose name starts with L, I, N or E passes the letter test for every entry |
| Classifier.ClassifiedKeepsKeys | streamlit_app.py:284-285 | assignment only appends poles: the keys and their order are kept, and so are distinct keys |
| Classifier.ClassifiedCount | streamlit_app.py:249-285 | no pole is lost or duplicated: the stored poles grow by exactly the number of matched poles |
| Renumber.LexLess | streamlit_app.py:296 | Python's string `<`: code-point order on the first difference, and a proper prefix is smaller |
| Renumber.SortStrings | streamlit_app.py:296 | `sorted(keys)`, as an insertion sort; by `SortStringsCorrect` and `SortedUnique` it is the one ascending arrangement of the keys |
| Renumber.LexLessTotal | streamlit_app.py:296 | Python string order is total on distinct strings |
| Renumber.LexLessTransitive | streamlit_app.py:296 | Python string order is transitive |
| Renumber.SortStringsCorrect | streamlit_app.py:296 | `sorted(keys)` is ascending and a permutation of the keys |
| Renumber.LineOrderIncreasing | streamlit_app.py:296 | with distinct keys, `sorted(keys)` is strictly increasing, so each LINE is visited once |
| Renumber.SortedUnique | streamlit_app.py:296 | only one ascending permutation exists |
| Renumber.Label | streamlit_app.py:303 | `f"{prefix}{str(counter).zfill(padding)}"` |
| Renumber.LabelShape | streamlit_app.py:303 | a label is the prefix followed by the zero-padded counter, never cut, and reading the digits back gives the counter |
| Renumber.LabelInjective | streamlit_app.py:303 | distinct counters give distinct labels |
| Renumber.WideCounterKeepsDigits | streamlit_app.py:303 | counter 1000 with padding 3 keeps all four digits |
| Renumber.NarrowCounterIsPadded | streamlit_app.py:303 | counter 7 with the default prefix and padding gives "MR.OATKRP.P007" |
| Renumber.EntriesAt | streamlit_app.py:298-305 | position `Offset(j) + m` in numbering order is pole m of the j-th sorted entry |
| Renumber.RowsOfAt | streamlit_app.py:354-359 | row i carries counter i + 1; the counter is never reset between entries |
| Renumber.PreviewLine | streamlit_app.py:356-359 | the inner preview loop appends one row per pole and continues the running counter |
| Renumber.NumberRows | streamlit_app.py:353-359 | the preview loop returns `RowsOf` of the poles in sorted-entry order |
| Renumber.PreviewRows | streamlit_app.py:353-359 | the same with labels from the configured prefix and padding |
| Renumber.PointsAt | streamlit_app.py:302-305 | point m of an entry whose counter starts after `base` is named after `base + m + 1` |
| Renumber.ExportLine | streamlit_app.py:300-305 | the inner export loop writes one point per pole and continues the running counter |
| Renumber.NumberFolders | streamlit_app.py:296-305 | the export loop writes, for the j-th sorted key, a folder of that name with a "POLE" sub-folder of its poles, counted from `Offset(j) + 1` |
| Renumber.ExportToKmz | streamlit_app.py:290-306 | the same with labels from the prefix and padding |
| Renumber.ExportAgreesWithPreview | streamlit_app.py:303 | the KMZ and the preview give each (entry, pole) position the same name under the same LINE |
| Renumber.PreviewNamesDistinct | streamlit_app.py:357 | the preview's new names are pairwise distinct |
| Renumber.CountForPermutation | streamlit_app.py:296 | the number of poles counted does not depend on the key order |
| Renumber.PolesAt | streamlit_app.py:301 | the poles stored under a key, found by looking the key up in entry order |
| Renumber.PolesAtKey | streamlit_app.py:301 | with distinct keys, looking up an entry's key finds that entry's poles |
| Renumber.RowCount | streamlit_app.py:353-359 | the preview has one row per stored pole, so the counter runs from 1 to that number |
| Pipeline.EndToEndRowCount | streamlit_app.py:353-359 | the preview of a classified document has one row per pole that some LINE took, so its counter runs from 1 to the number of assigned poles |

## Left out

- Reading the KMZ (zip), `clean_kml_text`, `safe_parse_kml_bytes` and the XML traversal (`find`, `findall`, `findtext` and their fallbacks) are not modelled. Their results are inputs: the POLE folder's placemark list, each folder's name and placemark list, and the text of each `name` and `coordinates` element.
- The `Folder[kml:name='POLE']` selection is not modelled; the POLE placemarks arrive as one list.
- The fallback for text found without a `Point`, `LineString` or `Polygon` element (lines 112, 128, 147) is not modelled. The model takes a geometry's text only from that geometry's element.
- `float()` and shapely (the `LineString` and `Polygon` constructors, `distance`, `project`, `within`, and `p.x` / `p.y` as reals) are foreign code. They are `Oracles` fields; floating-point behaviour is out of scope.
- Classifier.CableNear: the source also needs the stored cable to be truthy (`if cable`). The model treats every accepted LineString as non-empty.
- Classifier.BoundaryAccepts: `isinstance(boundary, Polygon)` always holds for stored boundaries, so the model leaves it out.
- Exceptions raised by the oracles (the `try: … except: pass` around the distance and `within` calls) are not modelled. The oracles are total.
- PyText.Upper: `upper()` is modelled for ASCII letters only. Unicode case mapping, including characters that grow when upper-cased, is not modelled.
- The Streamlit UI, the pandas DataFrame, `simplekml`'s file writing and `savekmz` are not modelled. The export is modelled as the list of folders and points it writes.
- Renumber.PolesAt: the `KeyError` that `classified[line_name]` would raise for a missing key is not modelled. It cannot occur, since every key looked up comes from `classified.keys()`. `PolesAt`'s empty result for a missing key is a modelling choice that is never reached. The `.get("poles", [])` default at line 301 covers an entry without a `"poles"` field, which the model's `Line` always has.
