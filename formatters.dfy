/** The value formatters of the pattern table: `_format_dimensions`,
    `_clean_material` and the per-rule lambdas, applied to the capture
    groups of a match. */
module Formatters {
  import opened Wrappers
  import opened Text

  /** `match.groups()`: group number k + 1 is element k; `None` is a group
      that took no part in the match. */
  type Groups = seq<Option<string>>

  /** What calling a formatter does: it raises (`m.group(k)` beyond the
      groups, or a string method called on `None`) or returns a string. */
  datatype Formatted = Raised | Produced(value: string)

  /** The formatters of the table, one constructor per distinct lambda. */
  datatype Formatter =
    | DimensionsFormat          // self._format_dimensions(m)
    | NumberAndUnit             // f"{m.group(1)} {m.group(2)}"
    | MaterialPhrase            // self._clean_material(m.group(1))
    | TitledGroup               // m.group(1).title()
    | TrimmedTitledGroup        // m.group(1).strip().title()
    | TemperatureFormat         // f"{m.group(1)}° {m.group(2).upper() if m.group(2) else 'F'}"
    | CountOf(noun: string)     // f"{m.group(1)} settings", f"{m.group(1)} pieces"

  /** How an f-string renders a group: `None` becomes the text "None". */
  function Show(g: Option<string>): string {
    if g.Some? then g.value else "None"
  }

  /** Python's truth value of a group: present and non-empty. */
  predicate Truthy(g: Option<string>) {
    g.Some? && g.value != []
  }

  // ---------------------------------------------------------------------
  // _format_dimensions
  // ---------------------------------------------------------------------

  /** `s.replace('.', '')`. */
  function RemoveDots(s: string): string {
    if s == [] then [] else (if s[0] == '.' then [] else [s[0]]) + RemoveDots(s[1..])
  }

  predicate AllDigits(s: string) {
    forall i :: 0 <= i < |s| ==> IsDigit(s[i])
  }

  /** `g and g.replace('.', '').isdigit()` (`isdigit` is false on ""). */
  predicate IsNumericGroup(g: Option<string>) {
    Truthy(g) && RemoveDots(g.value) != [] && AllDigits(RemoveDots(g.value))
  }

  /** `[g for g in match.groups() if g and g.replace('.', '').isdigit()]`. */
  function NumericGroups(gs: Groups): seq<string> {
    if gs == [] then []
    else (if IsNumericGroup(gs[0]) then [gs[0].value] else []) + NumericGroups(gs[1..])
  }

  /** The unit of a three-number result: group 4 when the match has it and
      it is non-empty, else "inches"; a bare `"` also reads "inches". */
  function DimensionUnit(gs: Groups): string {
    var unit := if |gs| >= 4 && Truthy(gs[3]) then gs[3].value else "inches";
    if unit == "\"" then "inches" else unit
  }

  /** `_format_dimensions(match)`: three numbers with a unit, two numbers
      without one, or "" for fewer numeric groups. */
  function FormatDimensions(gs: Groups): string {
    var ns := NumericGroups(gs);
    if |ns| >= 3 then ns[0] + " x " + ns[1] + " x " + ns[2] + " " + DimensionUnit(gs)
    else if |ns| == 2 then ns[0] + " x " + ns[1]
    else ""
  }

  /** The length of the run of digits that starts `s`. */
  function LeadingDigits(s: string): (n: nat)
    ensures n <= |s|
    ensures AllDigits(s[..n])
    ensures n < |s| ==> !IsDigit(s[n])
  {
    if s == [] || !IsDigit(s[0]) then 0
    else
      var n := 1 + LeadingDigits(s[1..]);
      assert s[..n] == [s[0]] + s[1..][..n - 1];
      n
  }

  /** A text the regex fragment `(\d+\.?\d*)` captures. */
  predicate NumberLiteral(s: string) {
    var k := LeadingDigits(s);
    k >= 1 && (k == |s| || (s[k] == '.' && AllDigits(s[k + 1..])))
  }

  lemma {:induction false} RemoveDotsAppend(a: string, b: string)
    ensures RemoveDots(a + b) == RemoveDots(a) + RemoveDots(b)
  {
    if a == [] {
      assert a + b == b;
    } else {
      assert (a + b)[1..] == a[1..] + b;
      RemoveDotsAppend(a[1..], b);
    }
  }

  lemma {:induction false} RemoveDotsOfDigits(s: string)
    requires AllDigits(s)
    ensures RemoveDots(s) == s
  {
    if s != [] {
      RemoveDotsOfDigits(s[1..]);
    }
  }

  /** Removing the dot of `digits.rest` leaves `digits` then `rest`. */
  lemma RemoveDotOfDecimal(digits: string, rest: string)
    requires AllDigits(digits) && AllDigits(rest)
    ensures RemoveDots(digits + ("." + rest)) == digits + rest
  {
    RemoveDotsAppend(digits, "." + rest);
    RemoveDotsOfDigits(digits);
    RemoveDotsOfDigits(rest);
    RemoveLeadingDot(rest);
  }

  lemma RemoveLeadingDot(rest: string)
    ensures RemoveDots("." + rest) == RemoveDots(rest)
  {
    assert ("." + rest)[1..] == rest;
  }

  /** Every capture of `(\d+\.?\d*)` passes the numeric-group filter. */
  lemma NumberLiteralIsNumeric(s: string)
    requires NumberLiteral(s)
    ensures IsNumericGroup(Some(s))
  {
    var k := LeadingDigits(s);
    var digits := s[..k];
    if k < |s| {
      var rest := s[k + 1..];
      assert s == digits + ("." + rest);
      RemoveDotOfDecimal(digits, rest);
      var d := digits + rest;
      assert d[0] == digits[0];
      forall i | 0 <= i < |d| ensures IsDigit(d[i]) {
        if i < k { assert d[i] == digits[i]; } else { assert d[i] == rest[i - k]; }
      }
    } else {
      assert digits == s;
      RemoveDotsOfDigits(s);
    }
  }

  /** The units the first Dimensions regex can capture as group 4. */
  predicate IsDimensionUnitText(u: string) {
    u == "inches" || u == "inche" || u == "in" || u == "cm" || u == "mm" || u == "\""
  }

  /** The captures of the first Dimensions regex
      (`N x N x N` with an optional unit): four groups, the first three
      numbers, the fourth absent or a unit. */
  predicate TripleDimensionsCaptures(gs: Groups) {
    && |gs| == 4
    && gs[0].Some? && NumberLiteral(gs[0].value)
    && gs[1].Some? && NumberLiteral(gs[1].value)
    && gs[2].Some? && NumberLiteral(gs[2].value)
    && (gs[3].Some? ==> IsDimensionUnitText(gs[3].value))
  }

  /** The captures of the second Dimensions regex (`dimensions:`/`size`
      and `N x N`, optionally `x N`): three groups, two numbers and an
      optional third number. */
  predicate PrefixedDimensionsCaptures(gs: Groups) {
    && |gs| == 3
    && gs[0].Some? && NumberLiteral(gs[0].value)
    && gs[1].Some? && NumberLiteral(gs[1].value)
    && (gs[2].Some? ==> NumberLiteral(gs[2].value))
  }

  /** A match of the first Dimensions regex always gives the three-number
      form, with its unit or "inches" (for no unit and for a bare `"`):
      it never gives the two-number form. */
  lemma TripleDimensionsFormat(gs: Groups)
    requires TripleDimensionsCaptures(gs)
    ensures FormatDimensions(gs) ==
      gs[0].value + " x " + gs[1].value + " x " + gs[2].value + " "
      + (if gs[3].None? || gs[3].value == "\"" then "inches" else gs[3].value)
  {
    NumberLiteralIsNumeric(gs[0].value);
    NumberLiteralIsNumeric(gs[1].value);
    NumberLiteralIsNumeric(gs[2].value);
    if gs[3].Some? {
      var u := gs[3].value;
      assert !IsNumericGroup(gs[3]) by {
        assert !IsDigit(u[0]);
        if u[0] != '.' {
          assert RemoveDots(u)[0] == u[0];
        }
      }
    }
    var g3 := gs[3..];
    assert NumericGroups(g3) == [] by {
      assert g3[1..] == [];
    }
    assert NumericGroups(gs[2..]) == [gs[2].value] + NumericGroups(g3) by {
      assert gs[2..][1..] == g3;
    }
    assert NumericGroups(gs[1..]) == [gs[1].value] + NumericGroups(gs[2..]) by {
      assert gs[1..][1..] == gs[2..];
    }
    assert NumericGroups(gs) == [gs[0].value, gs[1].value, gs[2].value];
  }

  /** A match of the second Dimensions regex gives "A x B" when the third
      number is absent and "A x B x C inches" when it is present. */
  lemma PrefixedDimensionsFormat(gs: Groups)
    requires PrefixedDimensionsCaptures(gs)
    ensures FormatDimensions(gs) ==
      if gs[2].None? then gs[0].value + " x " + gs[1].value
      else gs[0].value + " x " + gs[1].value + " x " + gs[2].value + " inches"
  {
    NumberLiteralIsNumeric(gs[0].value);
    NumberLiteralIsNumeric(gs[1].value);
    if gs[2].Some? {
      NumberLiteralIsNumeric(gs[2].value);
    }
    var g2 := gs[2..];
    assert NumericGroups(g2) == (if gs[2].None? then [] else [gs[2].value]) by {
      assert g2[1..] == [];
    }
    assert NumericGroups(gs[1..]) == [gs[1].value] + NumericGroups(g2) by {
      assert gs[1..][1..] == g2;
    }
  }

  // ---------------------------------------------------------------------
  // _clean_material
  // ---------------------------------------------------------------------

  /** `\b w \b` at position p: w occurs there, with no word character
      just before or just after it. */
  predicate WordAt(s: string, p: int, w: string) {
    && 0 <= p && p + |w| <= |s|
    && s[p..p + |w|] == w
    && (p == 0 || !IsWordChar(s[p - 1]))
    && (p + |w| == |s| || !IsWordChar(s[p + |w|]))
  }

  /** The regex `\b(with|and|for|the|a|an)\b` matches at position p. */
  predicate FillerAt(s: string, p: int) {
    || WordAt(s, p, "with") || WordAt(s, p, "and") || WordAt(s, p, "for")
    || WordAt(s, p, "the") || WordAt(s, p, "a") || WordAt(s, p, "an")
  }

  /** The first position at or after p where a filler word starts, or |s|. */
  function FirstFiller(s: string, p: nat): (q: nat)
    requires p <= |s|
    ensures p <= q <= |s|
    ensures forall i :: p <= i < q ==> !FillerAt(s, i)
    ensures q < |s| ==> FillerAt(s, q)
    decreases |s| - p
  {
    if p == |s| || FillerAt(s, p) then p else FirstFiller(s, p + 1)
  }

  /** `re.sub(r'\b(with|and|for|the|a|an)\b.*', '', s)` on a one-line `s`:
      the longest prefix of `s` before which no filler word starts, which
      ends either at the end of `s` or where the first filler word starts. */
  function CutFiller(s: string): (r: string)
    ensures |r| <= |s| && r == s[..|r|]
    ensures forall i :: 0 <= i < |r| ==> !FillerAt(s, i)
    ensures |r| < |s| ==> FillerAt(s, |r|)
  {
    s[..FirstFiller(s, 0)]
  }

  /** `_clean_material(material)`. */
  function CleanMaterial(material: string): string {
    var cut := Strip(CutFiller(Lower(Strip(material))));
    if 3 < |cut| < 30 then Title(cut) else ""
  }

  predicate NoUpper(s: string) {
    forall i :: 0 <= i < |s| ==> !IsUpperChar(s[i])
  }

  lemma LowerOfNoUpper(s: string)
    requires NoUpper(s)
    ensures Lower(s) == s
  {
  }

  /** Lower-casing, cutting and stripping leave no upper-case letter. */
  lemma CutHasNoUpper(material: string)
    ensures NoUpper(Strip(CutFiller(Lower(Strip(material)))))
  {
    var low := Lower(Strip(material));
    var c := CutFiller(low);
    var cut := Strip(c);
    assert NoUpper(low);
    assert NoUpper(c) by {
      forall i | 0 <= i < |c| ensures !IsUpperChar(c[i]) {
        assert c[i] == low[i];
      }
    }
    forall i | 0 <= i < |cut| ensures !IsUpperChar(cut[i]) {
      assert cut[i] == c[LeadingSpaces(c) + i];
    }
  }

  /** `_clean_material` gives "" or a title-cased string of 4 to 29
      characters that reads, in lower case, as the lower-cased input cut
      at its first whole filler word and trimmed. */
  lemma CleanMaterialSpec(material: string)
    ensures (CleanMaterial(material) == "") <==> !(3 < |Strip(CutFiller(Lower(Strip(material))))| < 30)
    ensures var r := CleanMaterial(material);
      r == "" ||
      (&& 3 < |r| < 30
       && IsTitleCased(r)
       && Lower(r) == Strip(CutFiller(Lower(Strip(material)))))
  {
    var cut := Strip(CutFiller(Lower(Strip(material))));
    CutHasNoUpper(material);
    LowerOfNoUpper(cut);
    TitleShape(cut);
  }

  // ---------------------------------------------------------------------
  // The formatters of the table
  // ---------------------------------------------------------------------

  /** The unit text of a temperature: group 2 upper-cased when it is
      present and non-empty, else "F". */
  function TemperatureUnit(g: Option<string>): string {
    if Truthy(g) then Upper(g.value) else "F"
  }

  /** Calling the formatter on a match with groups `gs`. */
  function Format(f: Formatter, gs: Groups): Formatted {
    match f
    case DimensionsFormat => Produced(FormatDimensions(gs))
    case NumberAndUnit =>
      if |gs| < 2 then Raised else Produced(Show(gs[0]) + " " + Show(gs[1]))
    case MaterialPhrase =>
      if |gs| < 1 || gs[0].None? then Raised else Produced(CleanMaterial(gs[0].value))
    case TitledGroup =>
      if |gs| < 1 || gs[0].None? then Raised else Produced(Title(gs[0].value))
    case TrimmedTitledGroup =>
      if |gs| < 1 || gs[0].None? then Raised else Produced(Title(Strip(gs[0].value)))
    case TemperatureFormat =>
      if |gs| < 2 then Raised else Produced(Show(gs[0]) + "° " + TemperatureUnit(gs[1]))
    case CountOf(noun) =>
      if |gs| < 1 then Raised else Produced(Show(gs[0]) + " " + noun)
  }

  /** A temperature's unit is "F" by default and otherwise the captured
      unit in upper case: it never holds a lower-case letter. */
  lemma TemperatureUnitShape(g: Option<string>)
    ensures var u := TemperatureUnit(g);
      && (forall i :: 0 <= i < |u| ==> !IsLowerChar(u[i]))
      && (if Truthy(g) then |u| == |g.value| && Lower(u) == Lower(g.value) else u == "F")
  {
    if Truthy(g) {
      var u := TemperatureUnit(g);
      forall i | 0 <= i < |u| ensures LowerChar(u[i]) == LowerChar(g.value[i]) {
        LowerOfUpperChar(g.value[i]);
      }
    }
  }

  /** The groups a match of the formatter's regex has: the Dimensions
      regexes have any number; the number-and-unit regexes (Weight,
      Capacity, Power, Voltage) two required groups; the Temperature regex
      a required number and an optional unit; the Material, Color,
      Settings and Pieces regexes one required group. */
  predicate RegexShape(f: Formatter, gs: Groups) {
    match f
    case DimensionsFormat => true
    case NumberAndUnit => |gs| == 2 && gs[0].Some? && gs[1].Some?
    case TemperatureFormat => |gs| == 2 && gs[0].Some?
    case _ => |gs| == 1 && gs[0].Some?
  }

  /** On the groups its own regex produces, no formatter of the table
      raises, so the `except: continue` of the pattern pass is never taken;
      and no value holds the text "None" of an absent group. */
  lemma TableFormattersNeverRaise(f: Formatter, gs: Groups)
    requires RegexShape(f, gs)
    ensures Format(f, gs).Produced?
    ensures f.NumberAndUnit? ==> Format(f, gs).value == gs[0].value + " " + gs[1].value
    ensures f.TemperatureFormat? ==> Format(f, gs).value == gs[0].value + "° " + TemperatureUnit(gs[1])
    ensures f.CountOf? ==> Format(f, gs).value == gs[0].value + " " + f.noun
  {
  }

  /** On a match with no groups at all, a formatter other than
      `_format_dimensions` raises (an `IndexError`): this is the failure
      the pattern pass catches. A group that is present but `None` does
      not raise; `Show` renders it as "None". */
  lemma MissingGroupRaises(f: Formatter)
    requires !f.DimensionsFormat?
    ensures Format(f, []).Raised?
  {
  }
}
