/** `process_row` and `format_specs_for_shopify`: the six-step merge of
    one product row into an insertion-ordered dict of labelled values, and
    its rendering as one "Label: Value" string per entry. */
module Merge {
  import opened Wrappers
  import opened Text
  import opened OrderedMap
  import opened Catalog
  import opened PatternPass
  import opened Features
  import opened Brand

  /** The columns of a row that the merge reads; a missing cell is `None`. */
  datatype Row = Row(
    bodyHtml: Option<string>,      // "Body HTML"
    title: Option<string>,         // "Title"
    vendor: Option<string>,        // "Vendor"
    productType: Option<string>,   // "Type"
    material: Option<string>       // "Metafield: custom.product_material [single_line_text_field]"
  )

  /** What the extractor is built from: the tag stripper (BeautifulSoup's
      `get_text(separator=' ', strip=True)`), the regex searches of the
      pattern table and those of the feature extractor. */
  datatype Extractor = Extractor(stripTags: string -> string, matchers: Matchers, finders: Finders)

  /** The labels the merge writes itself. */
  const BrandLabel: string := "Brand"
  const CategoryLabel: string := "Category"
  const MaterialLabel: string := "Material"

  /** `clean_html`: a missing cell gives the empty text; otherwise the text
      of the HTML with its whitespace collapsed. */
  function CleanHtml(x: Extractor, html: Option<string>): (r: string)
    ensures html.None? ==> r == []
    ensures html.Some? ==> IsCollapsed(r) && Split(r) == Split(x.stripTags(html.value))
  {
    if html.None? then []
    else
      CollapseWhitespaceSpec(x.stripTags(html.value));
      CollapseWhitespace(x.stripTags(html.value))
  }

  /** The pattern pass over a cell's cleaned text, with `max_specs` = cap. */
  function CellSpecs(x: Extractor, html: Option<string>, cap: int): Specs {
    Pass(PatternTable(x.matchers), Lower(CleanHtml(x, html)), cap)
  }

  /** Steps 1 and 2: the description's specs (at most five), then the
      title's specs (at most two) for labels not yet present. */
  function PatternSpecs(x: Extractor, row: Row): Specs {
    var fromBody := if row.bodyHtml.Some? then PutAll([], CellSpecs(x, row.bodyHtml, 5)) else [];
    if row.title.Some? then PutAllIfAbsent(fromBody, CellSpecs(x, row.title, 2)) else fromBody
  }

  /** The stripped Type, when its length is strictly between 3 and 50. */
  function Category(row: Row): Option<string> {
    if row.productType.Some? && Strip(row.productType.value) != [] && 3 < |Strip(row.productType.value)| < 50
    then Some(Strip(row.productType.value)) else None
  }

  /** The stripped material metafield, when its length is strictly between 3 and 30. */
  function MetafieldMaterial(row: Row): Option<string> {
    if row.material.Some? && 3 < |Strip(row.material.value)| < 30 then Some(Strip(row.material.value)) else None
  }

  /** Step 3: the brand, if it is a non-empty string and no Brand is set. */
  function AddBrand(m: Specs, brand: Option<string>): (r: Specs)
    ensures Lookup(r, BrandLabel) ==
      if HasKey(m, BrandLabel) || brand.None? || brand.value == [] then Lookup(m, BrandLabel) else brand
    ensures forall l :: l != BrandLabel ==> Lookup(r, l) == Lookup(m, l)
    ensures UniqueKeys(m) ==> UniqueKeys(r)
    ensures |m| <= |r| <= |m| + 1 && Keys(r)[..|m|] == Keys(m)
  {
    if brand.Some? && brand.value != [] && !HasKey(m, BrandLabel) then Put(m, BrandLabel, brand.value) else m
  }

  /** Step 4: the category, overwriting any earlier one. */
  function AddCategory(m: Specs, category: Option<string>): (r: Specs)
    ensures Lookup(r, CategoryLabel) == if category.Some? then category else Lookup(m, CategoryLabel)
    ensures forall l :: l != CategoryLabel ==> Lookup(r, l) == Lookup(m, l)
    ensures UniqueKeys(m) ==> UniqueKeys(r)
    ensures |m| <= |r| <= |m| + 1 && Keys(r)[..|m|] == Keys(m)
  {
    if category.Some? then Put(m, CategoryLabel, category.value) else m
  }

  /** Step 5: the metafield material, only if no Material is set. */
  function AddMaterial(m: Specs, material: Option<string>): (r: Specs)
    ensures Lookup(r, MaterialLabel) == if HasKey(m, MaterialLabel) then Lookup(m, MaterialLabel) else material
    ensures forall l :: l != MaterialLabel ==> Lookup(r, l) == Lookup(m, l)
    ensures UniqueKeys(m) ==> UniqueKeys(r)
    ensures |m| <= |r| <= |m| + 1 && Keys(r)[..|m|] == Keys(m)
  {
    if material.Some? && !HasKey(m, MaterialLabel) then Put(m, MaterialLabel, material.value) else m
  }

  /** Steps 3 to 5 on the pattern specs. None of these values goes
      through the gate. */
  function FieldSpecs(x: Extractor, row: Row): Specs {
    AddMaterial(AddCategory(AddBrand(PatternSpecs(x, row), ExtractBrand(row.title, row.vendor)), Category(row)),
                MetafieldMaterial(row))
  }

  /** `min(a, b)`. */
  function Min(a: int, b: int): int {
    if a <= b then a else b
  }

  /** Step 6: with fewer than four entries and a description, the key
      features are written over, `max_features = min(2, 5 - len(all_specs))`. */
  function MergeSpecs(x: Extractor, row: Row): Specs {
    var m5 := FieldSpecs(x, row);
    if |m5| < 4 && row.bodyHtml.Some? then
      PutAll(m5, KeyFeatures(x.finders, CleanHtml(x, row.bodyHtml), Min(2, 5 - |m5|)))
    else m5
  }

  // ---------------------------------------------------------------------
  // Rendering
  // ---------------------------------------------------------------------

  /** The result of `format_specs_for_shopify`: the empty string for no
      specs, otherwise the JSON array of the items (its encoding is not
      modelled). */
  datatype Output = NoSpecs | SpecList(items: seq<string>)

  function RenderEntry(e: Entry<string, string>): string {
    e.0 + ": " + e.1
  }

  function FormatSpecsForShopify(specs: Specs): (r: Output)
    ensures r.NoSpecs? <==> specs == []
  {
    if specs == [] then NoSpecs else SpecList(seq(|specs|, i requires 0 <= i < |specs| => RenderEntry(specs[i])))
  }

  /** The position of the first ':' in `s`, or `|s|`. */
  function ColonIndex(s: string): (n: nat)
    ensures n <= |s|
    ensures forall i :: 0 <= i < n ==> s[i] != ':'
    ensures n < |s| ==> s[n] == ':'
  {
    if s == [] || s[0] == ':' then 0 else 1 + ColonIndex(s[1..])
  }

  /** Reads an item back: the label before the first ':' and the value
      after the ": " that follows it. */
  function ParseEntry(s: string): Option<Entry<string, string>> {
    var n := ColonIndex(s);
    if n + 2 <= |s| && s[n + 1] == ' ' then Some((s[..n], s[n + 2..])) else None
  }

  lemma {:induction false} ColonIndexOfPrefix(k: string, t: string)
    requires forall i :: 0 <= i < |k| ==> k[i] != ':'
    requires t != [] && t[0] == ':'
    ensures ColonIndex(k + t) == |k|
  {
    if k == [] {
      assert k + t == t;
    } else {
      assert (k + t)[1..] == k[1..] + t;
      ColonIndexOfPrefix(k[1..], t);
    }
  }

  /** Each item reads back as its entry when the label has no ':', which
      holds for every label the merge writes ([`MergeLabelsKnown`]). */
  lemma RenderParse(e: Entry<string, string>)
    requires forall i :: 0 <= i < |e.0| ==> e.0[i] != ':'
    ensures ParseEntry(RenderEntry(e)) == Some(e)
  {
    var s := RenderEntry(e);
    assert s == e.0 + (": " + e.1);
    ColonIndexOfPrefix(e.0, ": " + e.1);
    assert s[..|e.0|] == e.0;
    assert s[|e.0| + 2..] == e.1;
  }

  /** The rendering has one item per entry, in insertion order, and each
      item reads back as its entry. */
  lemma FormatReadsBack(specs: Specs)
    requires forall j, i :: 0 <= j < |specs| && 0 <= i < |specs[j].0| ==> specs[j].0[i] != ':'
    ensures specs != [] ==>
      && |FormatSpecsForShopify(specs).items| == |specs|
      && forall j :: 0 <= j < |specs| ==> ParseEntry(FormatSpecsForShopify(specs).items[j]) == Some(specs[j])
  {
    forall j | 0 <= j < |specs| ensures ParseEntry(RenderEntry(specs[j])) == Some(specs[j]) {
      RenderParse(specs[j]);
    }
  }

  // ---------------------------------------------------------------------
  // Precedence
  // ---------------------------------------------------------------------

  /** A label the table does not have is never set by a pattern pass. */
  lemma NotFromTable(x: Extractor, html: Option<string>, cap: int, l: string)
    requires l !in TableLabels
    ensures Lookup(CellSpecs(x, html, cap), l) == None
  {
    var table := PatternTable(x.matchers);
    PatternTableLabels(x.matchers);
    forall i | 0 <= i < |table| ensures table[i].name != l {
      assert table[i].name == Labels(table)[i];
    }
    PassHasNoOtherLabels(table, Lower(CleanHtml(x, html)), cap, l);
  }

  lemma CellSpecsUnique(x: Extractor, html: Option<string>, cap: int)
    ensures UniqueKeys(CellSpecs(x, html, cap))
  {
    PatternTableLabels(x.matchers);
    PassUniqueKeys(PatternTable(x.matchers), Lower(CleanHtml(x, html)), cap);
  }

  /** Steps 1 and 2: a label holds the description's value when the
      description pass found one, and the title's value otherwise. */
  lemma PatternPrecedence(x: Extractor, row: Row, l: string)
    ensures Lookup(PatternSpecs(x, row), l) ==
      var fromBody := if row.bodyHtml.Some? then Lookup(CellSpecs(x, row.bodyHtml, 5), l) else None;
      if fromBody.Some? then fromBody
      else if row.title.Some? then Lookup(CellSpecs(x, row.title, 2), l)
      else None
  {
    var body := if row.bodyHtml.Some? then CellSpecs(x, row.bodyHtml, 5) else [];
    if row.bodyHtml.Some? {
      CellSpecsUnique(x, row.bodyHtml, 5);
      PutAllFresh([], body);
      assert [] + body == body;
    }
    if row.title.Some? {
      var title := CellSpecs(x, row.title, 2);
      if !HasKey(body, l) && HasKey(title, l) {
        PutAllIfAbsentFirstWins(body, title, l);
      }
    }
  }

  lemma PatternSpecsUnique(x: Extractor, row: Row)
    ensures UniqueKeys(PatternSpecs(x, row))
  {
    if row.bodyHtml.Some? {
      CellSpecsUnique(x, row.bodyHtml, 5);
      PutAllFresh([], CellSpecs(x, row.bodyHtml, 5));
      assert [] + CellSpecs(x, row.bodyHtml, 5) == CellSpecs(x, row.bodyHtml, 5);
    }
  }

  /** The dict the merge builds has each label at most once, so at most
      one `Feature` and one `Included` survive. */
  lemma MergeUniqueKeys(x: Extractor, row: Row)
    ensures UniqueKeys(MergeSpecs(x, row))
  {
    PatternSpecsUnique(x, row);
  }

  /** Steps 3 to 5 touch only Brand, Category and Material. */
  lemma FieldsKeepOthers(x: Extractor, row: Row, l: string)
    requires l != BrandLabel && l != CategoryLabel && l != MaterialLabel
    ensures Lookup(FieldSpecs(x, row), l) == Lookup(PatternSpecs(x, row), l)
  {
  }

  /** Step 6 touches only `Feature` and `Included`. */
  lemma FeaturesKeepOthers(x: Extractor, row: Row, l: string)
    requires l != FeatureLabel && l != IncludedLabel
    ensures Lookup(MergeSpecs(x, row), l) == Lookup(FieldSpecs(x, row), l)
  {
    var m5 := FieldSpecs(x, row);
    if |m5| < 4 && row.bodyHtml.Some? {
      var fs := KeyFeatures(x.finders, CleanHtml(x, row.bodyHtml), Min(2, 5 - |m5|));
      KeyFeaturesLabels(x.finders, CleanHtml(x, row.bodyHtml), Min(2, 5 - |m5|));
      HasKeyIff(fs, l);
    }
  }

  /** A table label other than Material holds the description's value
      when the description pass found one, otherwise the title's; no later
      step changes it. */
  lemma TableLabelPrecedence(x: Extractor, row: Row, l: string)
    requires l in TableLabels && l != MaterialLabel
    ensures Lookup(MergeSpecs(x, row), l) ==
      var fromBody := if row.bodyHtml.Some? then Lookup(CellSpecs(x, row.bodyHtml, 5), l) else None;
      if fromBody.Some? then fromBody
      else if row.title.Some? then Lookup(CellSpecs(x, row.title, 2), l)
      else None
  {
    MergeLabelNotInTable(BrandLabel);
    MergeLabelNotInTable(CategoryLabel);
    FeaturesKeepOthers(x, row, l);
    FieldsKeepOthers(x, row, l);
    PatternPrecedence(x, row, l);
  }

  /** Material comes from the pattern passes when they found one, and
      otherwise from the metafield when its stripped length is strictly
      between 3 and 30. */
  lemma MaterialPrecedence(x: Extractor, row: Row)
    ensures Lookup(MergeSpecs(x, row), MaterialLabel) ==
      var found := Lookup(PatternSpecs(x, row), MaterialLabel);
      if found.Some? then found else MetafieldMaterial(row)
  {
    FeaturesKeepOthers(x, row, MaterialLabel);
  }

  /** Brand is what `extract_brand` gives: no pattern pass and no feature
      sets it, so the "only if absent" test always passes. */
  lemma BrandIsExtracted(x: Extractor, row: Row)
    ensures Lookup(MergeSpecs(x, row), BrandLabel) == ExtractBrand(row.title, row.vendor)
  {
    FeaturesKeepOthers(x, row, BrandLabel);
    MergeLabelNotInTable(BrandLabel);
    NotFromTable(x, row.bodyHtml, 5, BrandLabel);
    NotFromTable(x, row.title, 2, BrandLabel);
    PatternPrecedence(x, row, BrandLabel);
  }

  /** Category is the stripped Type when its length is strictly between
      3 and 50, and absent otherwise. */
  lemma CategoryIsType(x: Extractor, row: Row)
    ensures Lookup(MergeSpecs(x, row), CategoryLabel) == Category(row)
  {
    FeaturesKeepOthers(x, row, CategoryLabel);
    MergeLabelNotInTable(CategoryLabel);
    NotFromTable(x, row.bodyHtml, 5, CategoryLabel);
    NotFromTable(x, row.title, 2, CategoryLabel);
    PatternPrecedence(x, row, CategoryLabel);
  }

  /** Feature phrases are added only to a dict with fewer than four
      entries and only when there is a description; then at most two are
      asked for (`min(2, 5 - n)` is 2 for every n below 4), the entries
      of steps 1 to 5 keep their places, and at most two entries follow. */
  lemma FeaturesStep(x: Extractor, row: Row)
    ensures var m5 := FieldSpecs(x, row);
      if |m5| < 4 && row.bodyHtml.Some? then
        var fs := KeyFeatures(x.finders, CleanHtml(x, row.bodyHtml), 2);
        && |fs| <= 2
        && MergeSpecs(x, row) == PutAll(m5, fs)
        && |m5| <= |MergeSpecs(x, row)| <= |m5| + 2
        && Keys(MergeSpecs(x, row))[..|m5|] == Keys(m5)
      else MergeSpecs(x, row) == m5
  {
    var m5 := FieldSpecs(x, row);
    if |m5| < 4 && row.bodyHtml.Some? {
      var fs := KeyFeatures(x.finders, CleanHtml(x, row.bodyHtml), 2);
      assert Min(2, 5 - |m5|) == 2;
      assert MergeSpecs(x, row) == PutAll(m5, fs);
      KeyFeaturesCap(x.finders, CleanHtml(x, row.bodyHtml), 2);
      PutAllKeepsOrder(m5, fs);
    }
  }

  // ---------------------------------------------------------------------
  // Key order
  // ---------------------------------------------------------------------

  /** The description's pattern specs; none without a description. */
  function BodySpecs(x: Extractor, row: Row): Specs {
    if row.bodyHtml.Some? then CellSpecs(x, row.bodyHtml, 5) else []
  }

  /** The title's pattern specs; none without a title. */
  function TitleSpecs(x: Extractor, row: Row): Specs {
    if row.title.Some? then CellSpecs(x, row.title, 2) else []
  }

  /** Steps 1 and 2 in key order: the description's labels in table
      order, then the title's labels the description lacks. */
  lemma PatternKeyOrder(x: Extractor, row: Row)
    ensures Keys(PatternSpecs(x, row)) == Keys(BodySpecs(x, row)) + MissingKeys(BodySpecs(x, row), TitleSpecs(x, row))
  {
    var body := BodySpecs(x, row);
    var title := TitleSpecs(x, row);
    if row.bodyHtml.Some? {
      CellSpecsUnique(x, row.bodyHtml, 5);
      PutAllFresh([], body);
      assert [] + body == body;
    }
    if row.title.Some? {
      CellSpecsUnique(x, row.title, 2);
      PutAllIfAbsentKeys(body, title);
    } else {
      assert Keys(body) + MissingKeys(body, title) == Keys(body);
    }
  }

  /** The labels steps 3 to 5 add to the dict `p`, in order: Brand when
      a brand is found, Category when the Type passes its length test, and
      Material when the metafield passes its test and `p` has none. */
  function FieldKeys(p: Specs, brand: Option<string>, category: Option<string>, material: Option<string>): seq<string> {
    (if brand.Some? && brand.value != [] then [BrandLabel] else [])
    + (if category.Some? then [CategoryLabel] else [])
    + (if material.Some? && !HasKey(p, MaterialLabel) then [MaterialLabel] else [])
  }

  /** Steps 3 to 5 append their labels after the pattern labels: neither
      Brand nor Category can be there already. */
  lemma FieldKeyOrder(x: Extractor, row: Row)
    ensures Keys(FieldSpecs(x, row)) ==
      Keys(PatternSpecs(x, row))
      + FieldKeys(PatternSpecs(x, row), ExtractBrand(row.title, row.vendor), Category(row), MetafieldMaterial(row))
  {
    PatternLacksFieldLabels(x, row);
    AddKeys(PatternSpecs(x, row), ExtractBrand(row.title, row.vendor), Category(row), MetafieldMaterial(row));
  }

  lemma PatternLacksFieldLabels(x: Extractor, row: Row)
    ensures !HasKey(PatternSpecs(x, row), BrandLabel) && !HasKey(PatternSpecs(x, row), CategoryLabel)
  {
    MergeLabelNotInTable(BrandLabel);
    MergeLabelNotInTable(CategoryLabel);
    NotFromTable(x, row.bodyHtml, 5, BrandLabel);
    NotFromTable(x, row.title, 2, BrandLabel);
    NotFromTable(x, row.bodyHtml, 5, CategoryLabel);
    NotFromTable(x, row.title, 2, CategoryLabel);
    PatternPrecedence(x, row, BrandLabel);
    PatternPrecedence(x, row, CategoryLabel);
  }

  /** The keys after steps 3 to 5 on a dict without Brand and Category. */
  lemma AddKeys(p: Specs, brand: Option<string>, category: Option<string>, material: Option<string>)
    requires !HasKey(p, BrandLabel) && !HasKey(p, CategoryLabel)
    ensures Keys(AddMaterial(AddCategory(AddBrand(p, brand), category), material)) ==
      Keys(p) + FieldKeys(p, brand, category, material)
  {
    var m3 := AddBrand(p, brand);
    var m4 := AddCategory(m3, category);
    var b := if brand.Some? && brand.value != [] then [BrandLabel] else [];
    var c := if category.Some? then [CategoryLabel] else [];
    var t := if material.Some? && !HasKey(p, MaterialLabel) then [MaterialLabel] else [];
    var m5 := AddMaterial(m4, material);
    assert Keys(m3) == Keys(p) + b by {
      AddBrandKeys(p, brand);
    }
    assert Keys(m4) == Keys(m3) + c by {
      FieldLabelsDistinct();
      AddCategoryKeys(m3, category);
      assert Lookup(m3, CategoryLabel) == Lookup(p, CategoryLabel);
    }
    assert Keys(m5) == Keys(m4) + t by {
      FieldLabelsDistinct();
      AddMaterialKeys(m4, material);
      assert Lookup(m4, MaterialLabel) == Lookup(p, MaterialLabel);
    }
    assert FieldKeys(p, brand, category, material) == b + c + t;
    AppendAssoc(Keys(p), b, c, t);
    assert Keys(p) + b + c + t == Keys(p) + (b + c + t);
  }

  lemma AppendAssoc<T>(a: seq<T>, b: seq<T>, c: seq<T>, d: seq<T>)
    ensures a + b + c + d == a + (b + c + d)
  {
    assert b + c + d == (b + c) + d;
  }

  lemma FieldLabelsDistinct()
    ensures BrandLabel != CategoryLabel && BrandLabel != MaterialLabel && CategoryLabel != MaterialLabel
  {
    assert BrandLabel[0] == 'B' && CategoryLabel[0] == 'C' && MaterialLabel[0] == 'M';
  }

  lemma AddBrandKeys(m: Specs, brand: Option<string>)
    ensures Keys(AddBrand(m, brand)) ==
      Keys(m) + if brand.Some? && brand.value != [] && !HasKey(m, BrandLabel) then [BrandLabel] else []
  {
  }

  lemma AddCategoryKeys(m: Specs, category: Option<string>)
    ensures Keys(AddCategory(m, category)) ==
      Keys(m) + if category.Some? && !HasKey(m, CategoryLabel) then [CategoryLabel] else []
  {
  }

  lemma AddMaterialKeys(m: Specs, material: Option<string>)
    ensures Keys(AddMaterial(m, material)) ==
      Keys(m) + if material.Some? && !HasKey(m, MaterialLabel) then [MaterialLabel] else []
  {
  }

  /** The labels of steps 1 to 5 in order: the description's, the
      title-only ones, then those of steps 3 to 5. */
  function FrontKeys(x: Extractor, row: Row): seq<string> {
    Keys(BodySpecs(x, row)) + MissingKeys(BodySpecs(x, row), TitleSpecs(x, row))
    + FieldKeys(PatternSpecs(x, row), ExtractBrand(row.title, row.vendor), Category(row), MetafieldMaterial(row))
  }

  /** The rendered order: the description's labels in table order, the
      title-only labels, the labels of steps 3 to 5, and last at most two
      `Feature`/`Included` labels from step 6. */
  lemma MergeKeyOrder(x: Extractor, row: Row)
    ensures |FrontKeys(x, row)| <= |MergeSpecs(x, row)| <= |FrontKeys(x, row)| + 2
    ensures Keys(MergeSpecs(x, row))[..|FrontKeys(x, row)|] == FrontKeys(x, row)
    ensures forall j :: |FrontKeys(x, row)| <= j < |MergeSpecs(x, row)| ==>
      Keys(MergeSpecs(x, row))[j] == FeatureLabel || Keys(MergeSpecs(x, row))[j] == IncludedLabel
  {
    PatternKeyOrder(x, row);
    FieldKeyOrder(x, row);
    assert FrontKeys(x, row) == Keys(FieldSpecs(x, row));
    MergeKeysPrefix(x, row);
    FeatureKeysLast(x, row);
  }

  /** Step 6 keeps the labels of steps 1 to 5 as a prefix and adds at most two. */
  lemma MergeKeysPrefix(x: Extractor, row: Row)
    ensures |FieldSpecs(x, row)| <= |MergeSpecs(x, row)| <= |FieldSpecs(x, row)| + 2
    ensures Keys(MergeSpecs(x, row))[..|FieldSpecs(x, row)|] == Keys(FieldSpecs(x, row))
  {
    var m5 := FieldSpecs(x, row);
    if |m5| < 4 && row.bodyHtml.Some? {
      var fs := KeyFeatures(x.finders, CleanHtml(x, row.bodyHtml), 2);
      assert Min(2, 5 - |m5|) == 2;
      KeyFeaturesCap(x.finders, CleanHtml(x, row.bodyHtml), 2);
      ShortPutAllPrefix(m5, fs);
    } else {
      assert Keys(m5)[..|m5|] == Keys(m5);
    }
  }

  lemma ShortPutAllPrefix(m: Specs, fs: seq<Entry<string, string>>)
    requires |fs| <= 2
    ensures |m| <= |PutAll(m, fs)| <= |m| + 2
    ensures Keys(PutAll(m, fs))[..|m|] == Keys(m)
  {
    PutAllKeepsOrder(m, fs);
  }

  /** The description's labels open the rendered list, in table order. */
  lemma DescriptionLabelsFirst(x: Extractor, row: Row)
    ensures |BodySpecs(x, row)| <= |MergeSpecs(x, row)|
    ensures Keys(MergeSpecs(x, row))[..|BodySpecs(x, row)|] == Keys(BodySpecs(x, row))
  {
    var ks := Keys(MergeSpecs(x, row));
    var p := PatternSpecs(x, row);
    PatternKeyOrder(x, row);
    FieldKeyOrder(x, row);
    MergeKeysPrefix(x, row);
    PrefixOfFront(ks, Keys(p),
      FieldKeys(p, ExtractBrand(row.title, row.vendor), Category(row), MetafieldMaterial(row)),
      Keys(FieldSpecs(x, row)));
    PrefixOfFront(ks, Keys(BodySpecs(x, row)),
      MissingKeys(BodySpecs(x, row), TitleSpecs(x, row)), Keys(p));
  }

  lemma PrefixOfFront<T>(ks: seq<T>, a: seq<T>, rest: seq<T>, front: seq<T>)
    requires front == a + rest && |front| <= |ks| && ks[..|front|] == front
    ensures |a| <= |ks| && ks[..|a|] == a
  {
    assert ks[..|a|] == ks[..|front|][..|a|];
  }

  /** The labels step 6 appends are `Feature` or `Included`. */
  lemma FeatureKeysLast(x: Extractor, row: Row)
    ensures var m5 := FieldSpecs(x, row);
      var ks := Keys(MergeSpecs(x, row));
      forall j :: |m5| <= j < |ks| ==> ks[j] == FeatureLabel || ks[j] == IncludedLabel
  {
    var m5 := FieldSpecs(x, row);
    if |m5| < 4 && row.bodyHtml.Some? {
      var text := CleanHtml(x, row.bodyHtml);
      var fs := KeyFeatures(x.finders, text, Min(2, 5 - |m5|));
      var ks := Keys(MergeSpecs(x, row));
      PutAllNewKeys(m5, fs);
      forall j | |m5| <= j < |ks| ensures ks[j] == FeatureLabel || ks[j] == IncludedLabel {
        HasKeyIff(fs, ks[j]);
        KeyFeaturesLabels(x.finders, text, Min(2, 5 - |m5|));
      }
    }
  }

  /** `Feature` and `Included` entries exist only when step 6 ran. */
  lemma FeatureLabelsOnlyFromStep6(x: Extractor, row: Row, l: string)
    requires l == FeatureLabel || l == IncludedLabel
    requires HasKey(MergeSpecs(x, row), l)
    ensures |FieldSpecs(x, row)| < 4 && row.bodyHtml.Some?
  {
    var m5 := FieldSpecs(x, row);
    if !(|m5| < 4 && row.bodyHtml.Some?) {
      assert MergeSpecs(x, row) == m5;
      MergeLabelNotInTable(l);
      NotFromTable(x, row.bodyHtml, 5, l);
      NotFromTable(x, row.title, 2, l);
      PatternPrecedence(x, row, l);
      FieldsKeepOthers(x, row, l);
      assert false;
    }
  }

  // ---------------------------------------------------------------------
  // Labels and rendering
  // ---------------------------------------------------------------------

  /** The labels the merge can write. */
  predicate KnownLabel(l: string) {
    l in TableLabels || IsMergeLabel(l)
  }

  /** Every label of the merged dict is a table label or one the merge
      writes itself. */
  lemma MergeLabelsKnown(x: Extractor, row: Row, l: string)
    requires HasKey(MergeSpecs(x, row), l)
    ensures KnownLabel(l)
  {
    if !KnownLabel(l) {
      FeaturesKeepOthers(x, row, l);
      NotFromTable(x, row.bodyHtml, 5, l);
      NotFromTable(x, row.title, 2, l);
      PatternPrecedence(x, row, l);
    }
  }

  lemma KnownLabelHasNoColon(l: string)
    requires KnownLabel(l)
    ensures forall i :: 0 <= i < |l| ==> l[i] != ':'
  {
  }

  /** `process_row`'s output reads back: no specs give the empty string,
      and otherwise item j is "label: value" for the j-th entry of the
      merged dict, in insertion order. */
  lemma ProcessRowReadsBack(x: Extractor, row: Row)
    ensures var specs := MergeSpecs(x, row);
      && (FormatSpecsForShopify(specs).NoSpecs? <==> specs == [])
      && (specs != [] ==>
           && |FormatSpecsForShopify(specs).items| == |specs|
           && forall j :: 0 <= j < |specs| ==> ParseEntry(FormatSpecsForShopify(specs).items[j]) == Some(specs[j]))
  {
    var specs := MergeSpecs(x, row);
    forall j, i | 0 <= j < |specs| && 0 <= i < |specs[j].0| ensures specs[j].0[i] != ':' {
      HasKeyAt(specs, j);
      MergeLabelsKnown(x, row, specs[j].0);
      KnownLabelHasNoColon(specs[j].0);
    }
    FormatReadsBack(specs);
  }

  /** A row with every cell missing gives no specs. */
  lemma EmptyRow(x: Extractor)
    ensures FormatSpecsForShopify(MergeSpecs(x, Row(None, None, None, None, None))) == NoSpecs
  {
  }

  /** The vendor reaches the output without the gate: vendor "!!!" alone
      gives the Brand "!!!", a value the gate rejects. */
  lemma BrandBypassesGate(x: Extractor)
    ensures MergeSpecs(x, Row(None, None, Some("!!!"), None, None)) == [(BrandLabel, "!!!")]
    ensures !Validator.IsValidValue("!!!", Validator.DefaultMaxLength)
  {
    var v := "!!!";
    assert LStrip(v) == v;
    assert RStrip(v) == v;
    assert Validator.CountSpecial(v) == 3;
  }

  // ---------------------------------------------------------------------
  // The method
  // ---------------------------------------------------------------------

  /** `process_row(row)`: the six steps on a dict that is updated in
      place, then the rendering. */
  method ProcessRow(x: Extractor, row: Row) returns (out: Output)
    ensures out == FormatSpecsForShopify(MergeSpecs(x, row))
  {
    var allSpecs := PatternSteps(x, row);
    allSpecs := FieldSteps(allSpecs, row);
    assert allSpecs == FieldSpecs(x, row);
    // 6. key features
    if |allSpecs| < 4 && row.bodyHtml.Some? {
      var cleanText := CleanHtml(x, row.bodyHtml);
      var features := ExtractKeyFeatures(x.finders, cleanText, Min(2, 5 - |allSpecs|));
      allSpecs := SetAll(allSpecs, features);
    }
    out := FormatSpecsForShopify(allSpecs);
  }

  /** Steps 1 and 2: the description's specs, then the title's for labels
      not yet present. */
  method PatternSteps(x: Extractor, row: Row) returns (allSpecs: Specs)
    ensures allSpecs == PatternSpecs(x, row)
  {
    var patterns := PatternTable(x.matchers);
    PatternTableLabels(x.matchers);
    allSpecs := [];
    if row.bodyHtml.Some? {
      var cleanText := CleanHtml(x, row.bodyHtml);
      var textSpecs := ExtractSpecsFromText(patterns, cleanText, 5);
      allSpecs := SetAll(allSpecs, textSpecs);
    }
    if row.title.Some? {
      var cleanTitle := CleanHtml(x, row.title);
      var titleSpecs := ExtractSpecsFromText(patterns, cleanTitle, 2);
      allSpecs := AddAbsent(allSpecs, titleSpecs);
    }
  }

  /** Steps 3 to 5: brand, product type and material metafield. */
  method FieldSteps(m: Specs, row: Row) returns (allSpecs: Specs)
    ensures allSpecs ==
      AddMaterial(AddCategory(AddBrand(m, ExtractBrand(row.title, row.vendor)), Category(row)), MetafieldMaterial(row))
  {
    allSpecs := m;
    // 3. the brand
    var brand := ExtractBrand(row.title, row.vendor);
    if brand.Some? && brand.value != [] && !HasKey(allSpecs, BrandLabel) {
      allSpecs := Put(allSpecs, BrandLabel, brand.value);
    }
    assert allSpecs == AddBrand(m, brand);
    ghost var m3 := allSpecs;
    // 4. the product type
    if row.productType.Some? {
      var productType := Strip(row.productType.value);
      if productType != [] && 3 < |productType| < 50 {
        allSpecs := Put(allSpecs, CategoryLabel, productType);
      }
    }
    assert allSpecs == AddCategory(m3, Category(row));
    ghost var m4 := allSpecs;
    // 5. the material metafield
    if row.material.Some? {
      var material := Strip(row.material.value);
      if !HasKey(allSpecs, MaterialLabel) && 3 < |material| < 30 {
        allSpecs := Put(allSpecs, MaterialLabel, material);
      }
    }
    assert allSpecs == AddMaterial(m4, MetafieldMaterial(row));
  }

  /** Step 2's loop: each item is stored only if its label is absent. */
  method AddAbsent(m: Specs, items: Specs) returns (r: Specs)
    ensures r == PutAllIfAbsent(m, items)
  {
    r := m;
    var i := 0;
    while i < |items|
      invariant 0 <= i <= |items|
      invariant PutAllIfAbsent(r, items[i..]) == PutAllIfAbsent(m, items)
    {
      assert items[i..][0] == items[i] && items[i..][1..] == items[i + 1..];
      var (key, value) := items[i];
      if !HasKey(r, key) {
        r := Put(r, key, value);
      }
      i := i + 1;
    }
    assert items[i..] == [];
  }

  /** Step 6's loop: each item is stored, overwriting a present label in place. */
  method SetAll(m: Specs, items: Specs) returns (r: Specs)
    ensures r == PutAll(m, items)
  {
    r := m;
    var i := 0;
    while i < |items|
      invariant 0 <= i <= |items|
      invariant PutAll(r, items[i..]) == PutAll(m, items)
    {
      assert items[i..][0] == items[i] && items[i..][1..] == items[i + 1..];
      var (key, value) := items[i];
      r := Put(r, key, value);
      i := i + 1;
    }
    assert items[i..] == [];
  }
}
