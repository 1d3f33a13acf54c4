// The whole run: classification followed by the preview's numbering.

module Pipeline {
  import opened Geometry
  import opened ZoneIndex
  import opened Classifier
  import opened Renumber

  /** The preview of a classified document has one row per pole that some LINE took, so its
      counter runs from 1 to the number of assigned poles. */
  lemma EndToEndRowCount(poleMarks: seq<Placemark>, folders: seq<Folder>, oracles: Oracles, threshold: real,
                         name: nat -> string)
    ensures var classified := ClassifyOf(poleMarks, folders, oracles, threshold);
            var index := LineIndexOf(folders, oracles);
            |RowsOf(EntriesOf(LineOrder(classified), classified), name)|
              == |Assigned(index, PolesOf(ItemsOf(poleMarks, oracles)), oracles, threshold)|
  {
    var index := LineIndexOf(folders, oracles);
    var poles := PolesOf(ItemsOf(poleMarks, oracles));
    var classified := Classified(index, poles, oracles, threshold);
    NoPolesTotal(index);
    ClassifiedCount(index, poles, oracles, threshold);
    ClassifiedKeepsKeys(index, poles, oracles, threshold);
    RowCount(classified, name);
  }
}
