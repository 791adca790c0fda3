/** The ordered pattern table built in `EnhancedSpecExtractor.__init__`:
    for each label, in insertion order, its rules in order, each rule a
    regex search paired with a formatter. The regexes themselves are
    abstract: each is a function from the searched text to the capture
    groups of its match, or `None` when it does not match. */
module Catalog {
  import opened Wrappers
  import opened Formatters

  /** `re.search(pattern, text, re.IGNORECASE)` for one fixed pattern:
      the groups of the match, or `None`. */
  type Matcher = string -> Option<Groups>

  datatype Rule = Rule(matcher: Matcher, format: Formatter)

  datatype LabelRules = LabelRules(name: string, rules: seq<Rule>)

  /** One search per regex of the table, named after what it looks for. */
  datatype Matchers = Matchers(
    dimensionsTriple: Matcher,     // N x N x N with an optional unit
    dimensionsPrefixed: Matcher,   // "dimension(s)"/"size", N x N, optional x N
    weight: Matcher,               // N lb(s)/pound(s)/kg/kilogram(s)
    capacity: Matcher,             // optional "capacity", N cup(s)/oz/ml/l/gallon(s)/qt/...
    capacityUpTo: Matcher,         // "up to"/"upto" N cup(s)
    power: Matcher,                // N watt(s)/w, not followed by "max"
    voltage: Matcher,              // N volt(s)/v
    materialPhrase: Matcher,       // "made of"/"made from"/"material" and a phrase
    materialNoun: Matcher,         // one of the common material nouns
    color: Matcher,                // "color"/"colour" and a phrase
    temperature: Matcher,          // "up to"/"max"/"maximum" N degrees, optional F/C
    settings: Matcher,             // N [precision] speed/heat/temperature setting(s)
    pieces: Matcher                // N[-]piece
  )

  function Labels(cat: seq<LabelRules>): (ls: seq<string>)
    ensures |ls| == |cat|
    ensures forall i :: 0 <= i < |cat| ==> ls[i] == cat[i].name
  {
    if cat == [] then [] else [cat[0].name] + Labels(cat[1..])
  }

  /** The labels of a table are the keys of a dict, so no two are equal. */
  predicate DistinctLabels(cat: seq<LabelRules>) {
    forall i, j :: 0 <= i < j < |cat| ==> cat[i].name != cat[j].name
  }

  /** The labels of the table, in order. */
  const TableLabels: seq<string> :=
    ["Dimensions", "Weight", "Capacity", "Power", "Voltage",
     "Material", "Color", "Temperature Range", "Settings", "Pieces"]

  /** `self.patterns`. */
  function PatternTable(ms: Matchers): seq<LabelRules> {
    [ LabelRules("Dimensions", [Rule(ms.dimensionsTriple, DimensionsFormat),
                                Rule(ms.dimensionsPrefixed, DimensionsFormat)]),
      LabelRules("Weight", [Rule(ms.weight, NumberAndUnit)]),
      LabelRules("Capacity", [Rule(ms.capacity, NumberAndUnit),
                              Rule(ms.capacityUpTo, NumberAndUnit)]),
      LabelRules("Power", [Rule(ms.power, NumberAndUnit)]),
      LabelRules("Voltage", [Rule(ms.voltage, NumberAndUnit)]),
      LabelRules("Material", [Rule(ms.materialPhrase, MaterialPhrase),
                              Rule(ms.materialNoun, TitledGroup)]),
      LabelRules("Color", [Rule(ms.color, TrimmedTitledGroup)]),
      LabelRules("Temperature Range", [Rule(ms.temperature, TemperatureFormat)]),
      LabelRules("Settings", [Rule(ms.settings, CountOf("settings"))]),
      LabelRules("Pieces", [Rule(ms.pieces, CountOf("pieces"))])
    ]
  }

  /** The labels the merge adds itself; none of them is a table label. */
  predicate IsMergeLabel(l: string) {
    l == "Brand" || l == "Category" || l == "Feature" || l == "Included"
  }

  /** The ten table labels are all different. */
  lemma TableLabelsDistinct()
    ensures forall i, j :: 0 <= i < j < |TableLabels| ==> TableLabels[i] != TableLabels[j]
  {
    var sig := seq(|TableLabels|, i requires 0 <= i < |TableLabels| => (|TableLabels[i]|, TableLabels[i][0]));
    assert sig == [(10, 'D'), (6, 'W'), (8, 'C'), (5, 'P'), (7, 'V'),
                   (8, 'M'), (5, 'C'), (17, 'T'), (8, 'S'), (6, 'P')];
    forall i, j | 0 <= i < j < |TableLabels| ensures TableLabels[i] != TableLabels[j] {
      assert sig[i] != sig[j];
    }
  }

  /** No label the merge writes itself is a table label. */
  lemma MergeLabelNotInTable(l: string)
    requires IsMergeLabel(l)
    ensures l !in TableLabels
  {
    var sig := seq(|TableLabels|, i requires 0 <= i < |TableLabels| =>
      (|TableLabels[i]|, TableLabels[i][0], TableLabels[i][2]));
    assert sig == [(10, 'D', 'm'), (6, 'W', 'i'), (8, 'C', 'p'), (5, 'P', 'w'), (7, 'V', 'l'),
                   (8, 'M', 't'), (5, 'C', 'l'), (17, 'T', 'm'), (8, 'S', 't'), (6, 'P', 'e')];
    forall i | 0 <= i < |TableLabels| ensures TableLabels[i] != l {
      assert sig[i] != (|l|, l[0], l[2]);
    }
  }

  /** The table's labels are the ten of `TableLabels`, in that order, all
      distinct, and none of them is a label the merge adds itself. */
  lemma PatternTableLabels(ms: Matchers)
    ensures Labels(PatternTable(ms)) == TableLabels
    ensures DistinctLabels(PatternTable(ms))
    ensures forall i :: 0 <= i < |PatternTable(ms)| ==> !IsMergeLabel(PatternTable(ms)[i].name)
  {
    var cat := PatternTable(ms);
    assert forall i :: 0 <= i < |cat| ==> cat[i].name == TableLabels[i];
    assert Labels(cat) == TableLabels;
    TableLabelsDistinct();
    forall i | 0 <= i < |cat| ensures !IsMergeLabel(cat[i].name) {
      if IsMergeLabel(cat[i].name) {
        MergeLabelNotInTable(cat[i].name);
        assert false;
      }
    }
  }
}
