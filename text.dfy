/** The Python string primitives the extractor relies on: `str.isspace`,
    `strip`, `rstrip(chars)`, `split()`, `' '.join`, `lower`, `upper`,
    `title` and `count`, on `seq<char>`. Whitespace is Python's exact set;
    letter case and digits are ASCII. */
module Text {

  // ---------------------------------------------------------------------
  // Character classes
  // ---------------------------------------------------------------------

  /** Python's `str.isspace` for one character: the ASCII controls
      TAB..CR and FS..US, the space, NEL, NBSP and the Unicode space
      separators, line and paragraph separators. */
  predicate IsSpace(c: char) {
    || ('\t' <= c <= '\r')
    || ('\U{1c}' <= c <= '\U{1f}')
    || c == ' '
    || c == '\U{85}'
    || c == '\U{a0}'
    || c == '\U{1680}'
    || ('\U{2000}' <= c <= '\U{200a}')
    || c == '\U{2028}'
    || c == '\U{2029}'
    || c == '\U{202f}'
    || c == '\U{205f}'
    || c == '\U{3000}'
  }

  predicate IsUpperChar(c: char) { 'A' <= c <= 'Z' }

  predicate IsLowerChar(c: char) { 'a' <= c <= 'z' }

  /** A character that has an upper and a lower case form. */
  predicate IsCased(c: char) { IsUpperChar(c) || IsLowerChar(c) }

  predicate IsDigit(c: char) { '0' <= c <= '9' }

  predicate IsAlnum(c: char) { IsCased(c) || IsDigit(c) }

  /** A character of the regex class `\w`, which decides `\b`. */
  predicate IsWordChar(c: char) { IsAlnum(c) || c == '_' }

  function LowerChar(c: char): (d: char)
    ensures IsCased(c) ==> IsLowerChar(d)
    ensures !IsCased(c) ==> d == c
  {
    if IsUpperChar(c) then (c as int + 32) as char else c
  }

  function UpperChar(c: char): (d: char)
    ensures IsCased(c) ==> IsUpperChar(d)
    ensures !IsCased(c) ==> d == c
  {
    if IsLowerChar(c) then (c as int - 32) as char else c
  }

  lemma LowerOfUpperChar(c: char)
    ensures LowerChar(UpperChar(c)) == LowerChar(c)
  {
  }

  // ---------------------------------------------------------------------
  // Case mapping
  // ---------------------------------------------------------------------

  /** `str.lower()`. */
  function Lower(s: string): (r: string)
    ensures |r| == |s|
  {
    seq(|s|, i requires 0 <= i < |s| => LowerChar(s[i]))
  }

  /** `str.upper()`. */
  function Upper(s: string): (r: string)
    ensures |r| == |s|
  {
    seq(|s|, i requires 0 <= i < |s| => UpperChar(s[i]))
  }

  /** `str.title()`, scanning with the flag "the previous character was
      cased": a cased character after a cased one is lowered, any other
      character is upper-cased (which leaves uncased ones alone). */
  function TitleFrom(s: string, previousCased: bool): (r: string)
    ensures |r| == |s|
  {
    if s == [] then []
    else
      [if previousCased then LowerChar(s[0]) else UpperChar(s[0])]
      + TitleFrom(s[1..], IsCased(s[0]))
  }

  function Title(s: string): (r: string)
    ensures |r| == |s|
  {
    TitleFrom(s, false)
  }

  /** A string in the shape `title()` gives: every cased character is
      upper case exactly when the character before it is not cased. */
  predicate IsTitleCased(s: string) {
    forall i :: 0 <= i < |s| && IsCased(s[i]) ==>
      (if i > 0 && IsCased(s[i - 1]) then IsLowerChar(s[i]) else IsUpperChar(s[i]))
  }

  /** Position by position, what `TitleFrom` does to each character. */
  lemma {:induction false} TitleFromAt(s: string, previousCased: bool, i: int)
    requires 0 <= i < |s|
    ensures TitleFrom(s, previousCased)[i] ==
      (if (if i == 0 then previousCased else IsCased(s[i - 1])) then LowerChar(s[i]) else UpperChar(s[i]))
  {
    if i > 0 {
      TitleFromAt(s[1..], IsCased(s[0]), i - 1);
      assert s[1..][i - 1] == s[i];
      if i > 1 {
        assert s[1..][i - 2] == s[i - 1];
      }
    }
  }

  /** `title()` keeps each character up to case, and its result is
      title-cased. */
  lemma TitleShape(s: string)
    ensures Lower(Title(s)) == Lower(s)
    ensures IsTitleCased(Title(s))
  {
    var t := Title(s);
    forall i | 0 <= i < |s|
      ensures LowerChar(t[i]) == LowerChar(s[i])
      ensures IsCased(t[i]) <==> IsCased(s[i])
    {
      TitleFromAt(s, false, i);
    }
    forall i | 0 <= i < |s| && IsCased(t[i])
      ensures if i > 0 && IsCased(t[i - 1]) then IsLowerChar(t[i]) else IsUpperChar(t[i])
    {
      TitleFromAt(s, false, i);
    }
  }

  // ---------------------------------------------------------------------
  // Stripping
  // ---------------------------------------------------------------------

  /** `str.lstrip()`. */
  function LStrip(s: string): (r: string)
    ensures |r| <= |s| && r == s[|s| - |r|..]
    ensures forall i :: 0 <= i < |s| - |r| ==> IsSpace(s[i])
    ensures r != [] ==> !IsSpace(r[0])
  {
    if s != [] && IsSpace(s[0]) then LStrip(s[1..]) else s
  }

  /** `str.rstrip()`. */
  function RStrip(s: string): (r: string)
    ensures |r| <= |s| && r == s[..|r|]
    ensures forall i :: |r| <= i < |s| ==> IsSpace(s[i])
    ensures r != [] ==> !IsSpace(r[|r| - 1])
  {
    if s != [] && IsSpace(s[|s| - 1]) then RStrip(s[..|s| - 1]) else s
  }

  /** `str.strip()`: the middle of `s` left once the whitespace at both
      ends is gone. */
  function Strip(s: string): (r: string)
    ensures LeadingSpaces(s) + |r| <= |s|
    ensures r == s[LeadingSpaces(s)..LeadingSpaces(s) + |r|]
    ensures forall i :: 0 <= i < LeadingSpaces(s) ==> IsSpace(s[i])
    ensures forall i :: LeadingSpaces(s) + |r| <= i < |s| ==> IsSpace(s[i])
    ensures r != [] ==> !IsSpace(r[0]) && !IsSpace(r[|r| - 1])
  {
    RStrip(LStrip(s))
  }

  /** How many whitespace characters `s` starts with. */
  function LeadingSpaces(s: string): (k: nat)
    ensures k <= |s|
  {
    |s| - |LStrip(s)|
  }

  /** `not s.strip()` holds exactly when every character is whitespace. */
  lemma StripEmptyIff(s: string)
    ensures Strip(s) == [] <==> forall i :: 0 <= i < |s| ==> IsSpace(s[i])
  {
    var r := Strip(s);
    if r != [] {
      assert s[LeadingSpaces(s)] == r[0];
    }
  }

  /** Stripping a second time changes nothing. */
  lemma StripIdempotent(s: string)
    ensures Strip(Strip(s)) == Strip(s)
  {
    var r := Strip(s);
    if r != [] {
      assert LStrip(r) == r;
      assert RStrip(r) == r;
    }
  }

  /** `str.rstrip(chars)`: `s` without its trailing characters from `cs`. */
  function RStripChars(s: string, cs: set<char>): (r: string)
    ensures |r| <= |s| && r == s[..|r|]
    ensures forall i :: |r| <= i < |s| ==> s[i] in cs
    ensures r != [] ==> r[|r| - 1] !in cs
  {
    if s != [] && s[|s| - 1] in cs then RStripChars(s[..|s| - 1], cs) else s
  }

  // ---------------------------------------------------------------------
  // Counting
  // ---------------------------------------------------------------------

  /** `s.count(c)` for a one-character `c`. */
  function Occurrences(s: string, c: char): (n: nat)
    ensures n <= |s|
  {
    if s == [] then 0 else (if s[0] == c then 1 else 0) + Occurrences(s[1..], c)
  }

  lemma {:induction false} OccurrencesIsMultiplicity(s: string, c: char)
    ensures Occurrences(s, c) == multiset(s)[c]
  {
    if s != [] {
      OccurrencesIsMultiplicity(s[1..], c);
      assert s == [s[0]] + s[1..];
      assert multiset(s) == multiset([s[0]]) + multiset(s[1..]);
    }
  }

  // ---------------------------------------------------------------------
  // Splitting on whitespace and joining
  // ---------------------------------------------------------------------

  /** A token of `str.split()`: non-empty, without whitespace. */
  predicate IsWord(w: string) {
    w != [] && forall i :: 0 <= i < |w| ==> !IsSpace(w[i])
  }

  /** The length of the run of non-whitespace characters that starts `s`. */
  function TokenLength(s: string): (n: nat)
    ensures n <= |s|
    ensures forall i :: 0 <= i < n ==> !IsSpace(s[i])
    ensures n == |s| || IsSpace(s[n])
  {
    if s == [] || IsSpace(s[0]) then 0 else 1 + TokenLength(s[1..])
  }

  /** `s.split()` with no separator: the maximal runs of non-whitespace. */
  function Split(s: string): (ws: seq<string>)
    ensures forall i :: 0 <= i < |ws| ==> IsWord(ws[i])
    decreases |s|
  {
    if s == [] then []
    else if IsSpace(s[0]) then Split(s[1..])
    else
      var n := TokenLength(s);
      [s[..n]] + Split(s[n..])
  }

  /** `' '.join(ws)`. */
  function Join(ws: seq<string>): string {
    if ws == [] then []
    else if |ws| == 1 then ws[0]
    else ws[0] + " " + Join(ws[1..])
  }

  /** The whitespace collapse `' '.join(text.split())`. */
  function CollapseWhitespace(s: string): string {
    Join(Split(s))
  }

  /** The non-whitespace characters of `s`, in order. */
  function NonSpace(s: string): string {
    if s == [] then [] else (if IsSpace(s[0]) then [] else [s[0]]) + NonSpace(s[1..])
  }

  function Concat(ws: seq<string>): string {
    if ws == [] then [] else ws[0] + Concat(ws[1..])
  }

  /** A string in canonical form: its only whitespace is single spaces
      between non-whitespace characters. */
  predicate IsCollapsed(s: string) {
    && (forall i :: 0 <= i < |s| && IsSpace(s[i]) ==> s[i] == ' ')
    && (s != [] ==> s[0] != ' ' && s[|s| - 1] != ' ')
    && (forall i :: 0 <= i < |s| - 1 && s[i] == ' ' ==> s[i + 1] != ' ')
  }

  lemma {:induction false} NonSpaceAppend(a: string, b: string)
    ensures NonSpace(a + b) == NonSpace(a) + NonSpace(b)
  {
    if a != [] {
      assert (a + b)[1..] == a[1..] + b;
      NonSpaceAppend(a[1..], b);
    } else {
      assert a + b == b;
    }
  }

  lemma {:induction false} NonSpaceOfWord(w: string)
    requires forall i :: 0 <= i < |w| ==> !IsSpace(w[i])
    ensures NonSpace(w) == w
  {
    if w != [] {
      NonSpaceOfWord(w[1..]);
    }
  }

  /** Splitting keeps every non-whitespace character, in order. */
  lemma {:induction false} SplitKeepsCharacters(s: string)
    ensures Concat(Split(s)) == NonSpace(s)
    decreases |s|
  {
    if s != [] {
      if IsSpace(s[0]) {
        SplitKeepsCharacters(s[1..]);
      } else {
        var n := TokenLength(s);
        assert s == s[..n] + s[n..];
        NonSpaceAppend(s[..n], s[n..]);
        NonSpaceOfWord(s[..n]);
        SplitKeepsCharacters(s[n..]);
        assert Split(s) == [s[..n]] + Split(s[n..]);
      }
    }
  }

  /** Joining words with single spaces keeps every character of the words. */
  lemma {:induction false} JoinKeepsCharacters(ws: seq<string>)
    requires forall i :: 0 <= i < |ws| ==> IsWord(ws[i])
    ensures NonSpace(Join(ws)) == Concat(ws)
  {
    if |ws| == 1 {
      NonSpaceOfWord(ws[0]);
      assert Concat(ws) == ws[0] + Concat([]);
    } else if |ws| > 1 {
      JoinKeepsCharacters(ws[1..]);
      NonSpaceOfWord(ws[0]);
      NonSpaceAppend(ws[0] + " ", Join(ws[1..]));
      NonSpaceAppend(ws[0], " ");
      assert NonSpace(" ") == [];
    }
  }

  lemma {:induction false} TokenLengthOfWordThen(w: string, t: string)
    requires IsWord(w)
    requires t == [] || IsSpace(t[0])
    ensures TokenLength(w + t) == |w|
  {
    if |w| > 1 {
      assert (w + t)[1..] == w[1..] + t;
      TokenLengthOfWordThen(w[1..], t);
    } else {
      assert (w + t)[1..] == t;
    }
  }

  /** Splitting a single-space join of words gives the words back. */
  lemma {:induction false} SplitJoin(ws: seq<string>)
    requires forall i :: 0 <= i < |ws| ==> IsWord(ws[i])
    ensures Split(Join(ws)) == ws
  {
    if |ws| == 1 {
      var w := ws[0];
      TokenLengthOfWordThen(w, []);
      assert w + [] == w;
      assert w[..|w|] == w && w[|w|..] == [];
    } else if |ws| > 1 {
      var w, rest := ws[0], Join(ws[1..]);
      var s := w + " " + rest;
      assert s == w + (" " + rest);
      TokenLengthOfWordThen(w, " " + rest);
      assert s[..|w|] == w;
      assert s[|w|..] == " " + rest;
      assert (" " + rest)[1..] == rest;
      SplitJoin(ws[1..]);
    }
  }

  /** A single-space join of words is in canonical form. */
  lemma {:induction false} JoinIsCollapsed(ws: seq<string>)
    requires forall i :: 0 <= i < |ws| ==> IsWord(ws[i])
    ensures IsCollapsed(Join(ws))
    ensures Join(ws) != [] ==> !IsSpace(Join(ws)[0]) && !IsSpace(Join(ws)[|Join(ws)| - 1])
  {
    if |ws| > 1 {
      JoinIsCollapsed(ws[1..]);
      var w, rest := ws[0], Join(ws[1..]);
      var s := w + " " + rest;
      assert rest != [] by {
        assert |Join(ws[1..])| >= |ws[1]| by { JoinLength(ws[1..]); }
      }
      assert forall i :: 0 <= i < |w| ==> s[i] == w[i];
      forall i | 0 <= i < |s| - 1 && s[i] == ' '
        ensures s[i + 1] != ' '
      {
        if i == |w| {
          assert s[i + 1] == rest[0];
        } else {
          assert s[i] == rest[i - |w| - 1];
          assert s[i + 1] == rest[i - |w|];
        }
      }
      forall i | 0 <= i < |s| && IsSpace(s[i])
        ensures s[i] == ' '
      {
        if i > |w| {
          assert s[i] == rest[i - |w| - 1];
        }
      }
      assert s[|s| - 1] == rest[|rest| - 1];
    }
  }

  lemma {:induction false} JoinLength(ws: seq<string>)
    requires ws != []
    ensures |Join(ws)| >= |ws[0]|
  {
  }

  /** The whitespace collapse: canonical form, the same non-whitespace
      characters in the same order, the same words, and idempotent. */
  lemma CollapseWhitespaceSpec(s: string)
    ensures IsCollapsed(CollapseWhitespace(s))
    ensures NonSpace(CollapseWhitespace(s)) == NonSpace(s)
    ensures Split(CollapseWhitespace(s)) == Split(s)
    ensures CollapseWhitespace(CollapseWhitespace(s)) == CollapseWhitespace(s)
  {
    var ws := Split(s);
    JoinIsCollapsed(ws);
    JoinKeepsCharacters(ws);
    SplitKeepsCharacters(s);
    SplitJoin(ws);
  }

  /** A collapsed string has no whitespace at its ends, so stripping it
      changes nothing. */
  lemma CollapsedIsStripped(s: string)
    requires IsCollapsed(s)
    ensures Strip(s) == s
  {
    if s != [] {
      assert LStrip(s) == s;
      assert RStrip(s) == s;
    }
  }
}
