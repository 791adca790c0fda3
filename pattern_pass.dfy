/** `extract_specs_from_text`: one pass of the pattern table over a text.
    Labels are tried in table order until `max_specs` of them hold a value;
    for each label the first rule whose regex matches and whose formatter
    returns a non-empty value the gate accepts gives the label's value. A
    rule that does not match, raises, or gives an empty or rejected value
    hands over to the next rule. */
module PatternPass {
  import opened Wrappers
  import opened Text
  import opened Validator
  import opened OrderedMap
  import opened Formatters
  import opened Catalog

  type Specs = seq<Entry<string, string>>

  /** What one rule contributes on `text`: the value it accepts, if any. */
  function TryRule(rule: Rule, text: string): Option<string> {
    match rule.matcher(text)
    case None => None
    case Some(groups) =>
      match Format(rule.format, groups)
      case Raised => None
      case Produced(v) => if v != [] && IsValidValue(v, DefaultMaxLength) then Some(v) else None
  }

  /** The value of the first rule that accepts one. */
  function FirstAccepted(rules: seq<Rule>, text: string): Option<string> {
    if rules == [] then None
    else if TryRule(rules[0], text).Some? then TryRule(rules[0], text)
    else FirstAccepted(rules[1..], text)
  }

  /** The reference meaning of one pass: walk the table in order, keep a
      label whose rules accept a value, and stop once `cap` labels are kept
      (the loop's `len(specs) >= max_specs` test before each label). */
  function Pass(cat: seq<LabelRules>, text: string, cap: int): Specs {
    if cap <= 0 || cat == [] then []
    else
      match FirstAccepted(cat[0].rules, text)
      case Some(v) => [(cat[0].name, v)] + Pass(cat[1..], text, cap - 1)
      case None => Pass(cat[1..], text, cap)
  }

  /** How many of the first k labels have a rule that accepts a value. */
  function AcceptedBefore(cat: seq<LabelRules>, text: string, k: nat): nat
    requires k <= |cat|
  {
    if k == 0 then 0
    else (if FirstAccepted(cat[0].rules, text).Some? then 1 else 0) + AcceptedBefore(cat[1..], text, k - 1)
  }

  /** `a` is `b` with some elements left out, order kept. */
  predicate IsSubsequence<T(==)>(a: seq<T>, b: seq<T>) {
    if b == [] then a == []
    else (a != [] && a[0] == b[0] && IsSubsequence(a[1..], b[1..])) || IsSubsequence(a, b[1..])
  }

  // ---------------------------------------------------------------------
  // Rules of one label
  // ---------------------------------------------------------------------

  /** A label's value comes from rule j exactly when rule j accepts it and
      every rule before j accepts nothing. */
  lemma {:induction false} FirstAcceptedIff(rules: seq<Rule>, text: string, v: string)
    ensures FirstAccepted(rules, text) == Some(v) <==>
      exists j :: 0 <= j < |rules| && TryRule(rules[j], text) == Some(v)
        && forall i :: 0 <= i < j ==> TryRule(rules[i], text).None?
  {
    if rules != [] {
      FirstAcceptedIff(rules[1..], text, v);
      if FirstAccepted(rules, text) == Some(v) {
        if TryRule(rules[0], text).None? {
          var j :| 0 <= j < |rules[1..]| && TryRule(rules[1..][j], text) == Some(v)
            && forall i :: 0 <= i < j ==> TryRule(rules[1..][i], text).None?;
          assert forall i :: 0 <= i < j + 1 ==> TryRule(rules[i], text).None? by {
            forall i | 0 <= i < j + 1 ensures TryRule(rules[i], text).None? {
              if i > 0 { assert rules[i] == rules[1..][i - 1]; }
            }
          }
          assert TryRule(rules[j + 1], text) == Some(v);
        }
      }
      if exists j :: 0 <= j < |rules| && TryRule(rules[j], text) == Some(v)
          && forall i :: 0 <= i < j ==> TryRule(rules[i], text).None? {
        var j :| 0 <= j < |rules| && TryRule(rules[j], text) == Some(v)
          && forall i :: 0 <= i < j ==> TryRule(rules[i], text).None?;
        if j > 0 {
          assert TryRule(rules[1..][j - 1], text) == Some(v);
          assert forall i :: 0 <= i < j - 1 ==> TryRule(rules[1..][i], text).None? by {
            forall i | 0 <= i < j - 1 ensures TryRule(rules[1..][i], text).None? {
              assert rules[1..][i] == rules[i + 1];
            }
          }
        }
      }
    }
  }

  /** A label gets no value exactly when none of its rules accepts one. */
  lemma {:induction false} FirstAcceptedNone(rules: seq<Rule>, text: string)
    ensures FirstAccepted(rules, text).None? <==> forall j :: 0 <= j < |rules| ==> TryRule(rules[j], text).None?
  {
    if rules != [] {
      FirstAcceptedNone(rules[1..], text);
      assert forall j :: 1 <= j < |rules| ==> rules[j] == rules[1..][j - 1];
    }
  }

  /** An accepted value is non-empty and passes the gate. */
  lemma {:induction false} FirstAcceptedIsValid(rules: seq<Rule>, text: string)
    requires FirstAccepted(rules, text).Some?
    ensures FirstAccepted(rules, text).value != []
    ensures IsValidValue(FirstAccepted(rules, text).value, DefaultMaxLength)
  {
    if TryRule(rules[0], text).None? {
      FirstAcceptedIsValid(rules[1..], text);
    }
  }

  // ---------------------------------------------------------------------
  // The pass
  // ---------------------------------------------------------------------

  /** The pass keeps at most `cap` labels and at most one per table entry. */
  lemma {:induction false} PassBounds(cat: seq<LabelRules>, text: string, cap: int)
    ensures |Pass(cat, text, cap)| <= (if cap <= 0 then 0 else cap)
    ensures |Pass(cat, text, cap)| <= |cat|
  {
    if cap > 0 && cat != [] {
      var a := FirstAccepted(cat[0].rules, text);
      PassBounds(cat[1..], text, if a.Some? then cap - 1 else cap);
    }
  }

  /** Every value the pass keeps is non-empty and passes the gate. */
  lemma {:induction false} PassValuesValid(cat: seq<LabelRules>, text: string, cap: int, i: int)
    requires 0 <= i < |Pass(cat, text, cap)|
    ensures Pass(cat, text, cap)[i].1 != []
    ensures IsValidValue(Pass(cat, text, cap)[i].1, DefaultMaxLength)
  {
    var a := FirstAccepted(cat[0].rules, text);
    if a.Some? {
      if i == 0 {
        FirstAcceptedIsValid(cat[0].rules, text);
      } else {
        PassValuesValid(cat[1..], text, cap - 1, i - 1);
      }
    } else {
      PassValuesValid(cat[1..], text, cap, i);
    }
  }

  /** The labels of the pass come in table order. */
  lemma {:induction false} PassInTableOrder(cat: seq<LabelRules>, text: string, cap: int)
    ensures IsSubsequence(Keys(Pass(cat, text, cap)), Labels(cat))
  {
    var ls := Labels(cat);
    if cat == [] {
    } else if cap <= 0 {
      assert IsSubsequence<string>([], ls[1..]) by { EmptySubsequence(ls[1..]); }
    } else {
      var a := FirstAccepted(cat[0].rules, text);
      assert ls[1..] == Labels(cat[1..]);
      if a.Some? {
        var r, rest := Pass(cat, text, cap), Pass(cat[1..], text, cap - 1);
        PassInTableOrder(cat[1..], text, cap - 1);
        assert Keys(r)[1..] == Keys(rest);
      } else {
        PassInTableOrder(cat[1..], text, cap);
      }
    }
  }

  lemma {:induction false} EmptySubsequence<T>(b: seq<T>)
    ensures IsSubsequence([], b)
  {
    if b != [] {
      EmptySubsequence(b[1..]);
    }
  }

  /** Only table labels appear in the pass. */
  lemma {:induction false} PassKeysAreLabels(cat: seq<LabelRules>, text: string, cap: int, l: string)
    requires HasKey(Pass(cat, text, cap), l)
    ensures exists i :: 0 <= i < |cat| && cat[i].name == l
  {
    var a := FirstAccepted(cat[0].rules, text);
    if a.Some? && cat[0].name == l {
    } else {
      PassKeysAreLabels(cat[1..], text, if a.Some? then cap - 1 else cap, l);
      var i :| 0 <= i < |cat[1..]| && cat[1..][i].name == l;
      assert cat[i + 1].name == l;
    }
  }

  /** Exactly which labels the pass keeps and with what value: the k-th
      label of the table holds the value of its first accepting rule when
      fewer than `cap` earlier labels had one, and is absent otherwise. */
  lemma {:induction false} PassLookup(cat: seq<LabelRules>, text: string, cap: int, k: nat)
    requires DistinctLabels(cat)
    requires k < |cat|
    ensures Lookup(Pass(cat, text, cap), cat[k].name) ==
      if AcceptedBefore(cat, text, k) < cap then FirstAccepted(cat[k].rules, text) else None
  {
    var l := cat[k].name;
    if cap > 0 {
      var a := FirstAccepted(cat[0].rules, text);
      var cap' := if a.Some? then cap - 1 else cap;
      var rest := Pass(cat[1..], text, cap');
      assert DistinctLabels(cat[1..]) by {
        forall i, j | 0 <= i < j < |cat[1..]| ensures cat[1..][i].name != cat[1..][j].name {
          assert cat[1..][i] == cat[i + 1] && cat[1..][j] == cat[j + 1];
        }
      }
      if k == 0 {
        assert forall i :: 0 <= i < |cat[1..]| ==> cat[1..][i].name != l by {
          forall i | 0 <= i < |cat[1..]| ensures cat[1..][i].name != l {
            assert cat[1..][i] == cat[i + 1];
          }
        }
        PassHasNoOtherLabels(cat[1..], text, cap', l);
      } else {
        assert cat[1..][k - 1] == cat[k];
        PassLookup(cat[1..], text, cap', k - 1);
        assert a.Some? ==> cat[0].name != l;
      }
    }
  }

  /** A label missing from the table is missing from the pass. */
  lemma PassHasNoOtherLabels(cat: seq<LabelRules>, text: string, cap: int, l: string)
    requires forall i :: 0 <= i < |cat| ==> cat[i].name != l
    ensures Lookup(Pass(cat, text, cap), l) == None
  {
    if HasKey(Pass(cat, text, cap), l) {
      PassKeysAreLabels(cat, text, cap, l);
    }
  }

  /** On a table with distinct labels, the pass is a dict: no label twice. */
  lemma PassUniqueKeys(cat: seq<LabelRules>, text: string, cap: int)
    requires DistinctLabels(cat)
    ensures UniqueKeys(Pass(cat, text, cap))
    decreases |cat|
  {
    if cap > 0 && cat != [] {
      var a := FirstAccepted(cat[0].rules, text);
      assert DistinctLabels(cat[1..]) by {
        forall i, j | 0 <= i < j < |cat[1..]| ensures cat[1..][i].name != cat[1..][j].name {
          assert cat[1..][i] == cat[i + 1] && cat[1..][j] == cat[j + 1];
        }
      }
      PassUniqueKeys(cat[1..], text, if a.Some? then cap - 1 else cap);
      if a.Some? {
        assert forall i :: 0 <= i < |cat[1..]| ==> cat[1..][i].name != cat[0].name;
        PassHasNoOtherLabels(cat[1..], text, cap - 1, cat[0].name);
        var r := Pass(cat, text, cap);
        assert r[1..] == Pass(cat[1..], text, cap - 1);
      }
    }
  }

  // ---------------------------------------------------------------------
  // The loop
  // ---------------------------------------------------------------------

  /** `extract_specs_from_text(text, max_specs)` over the extractor's
      table `patterns` (a dict, so its labels are distinct): the loops of the
      source compute the pass of the table over the lower-cased text. */
  method ExtractSpecsFromText(patterns: seq<LabelRules>, text: string, maxSpecs: int) returns (specs: Specs)
    requires DistinctLabels(patterns)
    ensures specs == Pass(patterns, Lower(text), maxSpecs)
  {
    var textLower := Lower(text);
    specs := [];
    var i := 0;
    while i < |patterns|
      invariant 0 <= i <= |patterns|
      invariant specs + Pass(patterns[i..], textLower, maxSpecs - |specs|) == Pass(patterns, textLower, maxSpecs)
      invariant forall k :: i <= k < |patterns| ==> !HasKey(specs, patterns[k].name)
    {
      if |specs| >= maxSpecs {
        break;
      }
      var name, rules := patterns[i].name, patterns[i].rules;
      ghost var before := specs;
      var j := 0;
      while j < |rules|
        invariant 0 <= j <= |rules|
        invariant specs == before
        invariant FirstAccepted(rules[j..], textLower) == FirstAccepted(rules, textLower)
      {
        assert rules[j..][1..] == rules[j + 1..];
        var matches := rules[j].matcher(textLower);
        if matches.Some? {
          var formatted := Format(rules[j].format, matches.value);
          if formatted.Raised? {
            j := j + 1;
            continue;
          }
          var value := formatted.value;
          if value != [] && IsValidValue(value, DefaultMaxLength) {
            assert TryRule(rules[j], textLower) == Some(value);
            specs := Put(specs, name, value);
            PutNewKey(before, name, value);
            break;
          }
        }
        assert TryRule(rules[j], textLower).None?;
        j := j + 1;
      }
      SpecsStep(patterns, i, textLower, maxSpecs, before, specs);
      i := i + 1;
    }
  }

  /** One label of the outer loop: appending the label's value, if it has
      one, keeps the pass invariant and leaves later labels absent. */
  lemma SpecsStep(cat: seq<LabelRules>, i: int, text: string, cap: int, before: Specs, after: Specs)
    requires DistinctLabels(cat) && 0 <= i < |cat| && |before| < cap
    requires before + Pass(cat[i..], text, cap - |before|) == Pass(cat, text, cap)
    requires forall k :: i <= k < |cat| ==> !HasKey(before, cat[k].name)
    requires after == match FirstAccepted(cat[i].rules, text)
      case Some(v) => before + [(cat[i].name, v)]
      case None => before
    ensures after + Pass(cat[i + 1..], text, cap - |after|) == Pass(cat, text, cap)
    ensures forall k :: i + 1 <= k < |cat| ==> !HasKey(after, cat[k].name)
  {
    assert cat[i..][1..] == cat[i + 1..];
    forall k | i + 1 <= k < |cat| ensures !HasKey(after, cat[k].name) {
      assert cat[k].name != cat[i].name;
      if after != before {
        HasKeyAppend(before, (cat[i].name, FirstAccepted(cat[i].rules, text).value), cat[k].name);
      }
    }
  }
}
