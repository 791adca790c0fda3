/** The generic quality gate `_is_valid_value` applied to every value the
    pattern pass and the feature extractor produce. */
module Validator {
  import opened Text

  /** The default `max_length` of the gate. */
  const DefaultMaxLength: int := 100

  /** A character the gate counts against a value: neither alphanumeric nor
      the plain space (a tab or any other whitespace does count). */
  predicate IsSpecial(c: char) {
    !IsAlnum(c) && c != ' '
  }

  /** `sum(1 for c in value if not c.isalnum() and c != ' ')`. */
  function CountSpecial(s: string): (n: nat)
    ensures n <= |s|
  {
    if s == [] then 0 else (if IsSpecial(s[0]) then 1 else 0) + CountSpecial(s[1..])
  }

  /** `_is_valid_value(value, max_length)`. Every test but the first looks
      at the stripped value `v`: reject an empty or all-whitespace value, a
      `v` longer than `max_length`, a `v` whose special characters are more
      than 0.3 of its length (`special / len > 0.3`, written without
      division), and a `v` with more than five commas or five periods. */
  predicate IsValidValue(value: string, maxLength: int) {
    var v := Strip(value);
    && value != []
    && v != []
    && |v| <= maxLength
    && !(10 * CountSpecial(v) > 3 * |v|)
    && !(Occurrences(v, ',') > 5 || Occurrences(v, '.') > 5)
  }

  /** The positions of the special characters of `s`. */
  function SpecialPositions(s: string): set<int> {
    set i | 0 <= i < |s| && IsSpecial(s[i])
  }

  lemma {:induction false} CountSpecialAppend(a: string, b: string)
    ensures CountSpecial(a + b) == CountSpecial(a) + CountSpecial(b)
  {
    if a == [] {
      assert a + b == b;
    } else {
      assert (a + b)[1..] == a[1..] + b;
      CountSpecialAppend(a[1..], b);
    }
  }

  lemma {:induction false} CountSpecialIsPositions(s: string)
    ensures CountSpecial(s) == |SpecialPositions(s)|
    decreases |s|
  {
    if s != [] {
      var init, n := s[..|s| - 1], |s| - 1;
      assert s == init + [s[n]];
      CountSpecialIsPositions(init);
      CountSpecialAppend(init, [s[n]]);
      assert CountSpecial([s[n]]) == if IsSpecial(s[n]) then 1 else 0;
      if IsSpecial(s[n]) {
        assert SpecialPositions(s) == SpecialPositions(init) + {n};
      } else {
        assert SpecialPositions(s) == SpecialPositions(init);
      }
    }
  }

  /** The gate accepts exactly the values that pass none of its four
      rejections, stated with independent counts: the value has a
      non-whitespace character, the stripped value fits `maxLength`, at
      most 3/10 of its positions hold a special character, and it holds at
      most five commas and at most five periods. */
  lemma ValidValueIff(value: string, maxLength: int)
    ensures IsValidValue(value, maxLength) <==>
      var v := Strip(value);
      && (exists i :: 0 <= i < |value| && !IsSpace(value[i]))
      && |v| <= maxLength
      && 10 * |SpecialPositions(v)| <= 3 * |v|
      && multiset(v)[','] <= 5
      && multiset(v)['.'] <= 5
  {
    var v := Strip(value);
    StripEmptyIff(value);
    CountSpecialIsPositions(v);
    OccurrencesIsMultiplicity(v, ',');
    OccurrencesIsMultiplicity(v, '.');
  }

  /** The gate looks only at the stripped value: stripping first does not
      change its verdict. */
  lemma ValidValueOfStripped(value: string, maxLength: int)
    ensures IsValidValue(Strip(value), maxLength) == IsValidValue(value, maxLength)
  {
    StripIdempotent(value);
  }
}
