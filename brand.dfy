/** `extract_brand`: the vendor field when it is usable, otherwise the
    first word of the title when it looks like a name. A missing field
    (`pd.isna`) is `None`. */
module Brand {
  import opened Wrappers
  import opened Text

  /** A stripped vendor is used when its length is strictly between 2 and 30. */
  predicate UsableVendor(vendor: Option<string>) {
    vendor.Some? && 2 < |Strip(vendor.value)| < 30
  }

  /** A title word is used as the brand when it starts with an upper-case
      letter and its length is strictly between 2 and 30. */
  predicate UsableTitleWord(w: string) {
    w != [] && IsUpperChar(w[0]) && 2 < |w| < 30
  }

  /** The first whitespace-separated word of the title, if it has one. */
  function FirstWord(title: Option<string>): Option<string> {
    if title.Some? && Split(title.value) != [] then Some(Split(title.value)[0]) else None
  }

  /** `extract_brand(title, vendor)`. */
  function ExtractBrand(title: Option<string>, vendor: Option<string>): (r: Option<string>)
    ensures r.Some? ==> 2 < |r.value| < 30
    ensures UsableVendor(vendor) ==> r == Some(Strip(vendor.value))
    ensures !UsableVendor(vendor) ==>
      r == if FirstWord(title).Some? && UsableTitleWord(FirstWord(title).value) then FirstWord(title) else None
  {
    if vendor.Some? && 2 < |Strip(vendor.value)| < 30 then Some(Strip(vendor.value))
    else if title.Some? then
      var words := Split(title.value);
      if words != [] && IsUpperChar(words[0][0]) && 2 < |words[0]| < 30 then Some(words[0]) else None
    else None
  }

  /** A title has a first word exactly when it holds a non-whitespace
      character. */
  lemma {:induction false} HasFirstWordIff(s: string)
    ensures Split(s) != [] <==> exists i :: 0 <= i < |s| && !IsSpace(s[i])
    decreases |s|
  {
    if s != [] && IsSpace(s[0]) {
      HasFirstWordIff(s[1..]);
      if exists i :: 0 <= i < |s| && !IsSpace(s[i]) {
        var i :| 0 <= i < |s| && !IsSpace(s[i]);
        assert s[1..][i - 1] == s[i];
      }
    }
  }

  /** The first word is the run of non-whitespace characters that starts
      the title once its leading whitespace is gone. */
  lemma {:induction false} FirstWordAfterLeadingSpaces(s: string)
    requires Split(s) != []
    ensures Split(s)[0] == LStrip(s)[..TokenLength(LStrip(s))]
    decreases |s|
  {
    if IsSpace(s[0]) {
      FirstWordAfterLeadingSpaces(s[1..]);
    }
  }

  /** The brand in one statement: the stripped vendor when usable;
      otherwise the title's first word when usable; otherwise none. */
  lemma BrandIff(title: Option<string>, vendor: Option<string>, b: string)
    ensures ExtractBrand(title, vendor) == Some(b) <==>
      || (UsableVendor(vendor) && b == Strip(vendor.value))
      || (!UsableVendor(vendor) && FirstWord(title) == Some(b) && UsableTitleWord(b))
  {
  }

  /** Vendor "Salton" with title "Acme Blender 500" gives "Salton". */
  lemma VendorWins()
    ensures ExtractBrand(Some("Acme Blender 500"), Some("Salton")) == Some("Salton")
  {
    var v := "Salton";
    assert LStrip(v) == v;
    assert RStrip(v) == v;
  }

  /** A title that starts with a word followed by whitespace (or
      nothing) has that word first. */
  lemma FirstWordOfWordThen(w: string, t: string)
    requires IsWord(w)
    requires t == [] || IsSpace(t[0])
    ensures FirstWord(Some(w + t)) == Some(w)
  {
    TokenLengthOfWordThen(w, t);
    assert (w + t)[..|w|] == w;
  }

  /** Without a vendor, the title "Acme Blender 500" gives "Acme". */
  lemma TitleWordWhenNoVendor()
    ensures ExtractBrand(Some("Acme Blender 500"), None) == Some("Acme")
  {
    var w, t := "Acme", " Blender 500";
    assert IsWord(w);
    assert w + t == "Acme Blender 500";
    FirstWordOfWordThen(w, t);
    assert UsableTitleWord(w);
  }
}
