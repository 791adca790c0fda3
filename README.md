# Rule-based product specification extractor

This project models the rule-based engine of the product specification
populator, `EnhancedSpecExtractor` in `populate_specs_v2.py`. For one
spreadsheet row the engine does three things:

- it cleans the row's HTML description and title;
- it runs an ordered table of regex rules over each text, formats every
  match and keeps it only if it passes a generic quality gate
  (`_is_valid_value`);
- it merges the results with the brand, product type, material metafield
  and a few short feature phrases into an insertion-ordered dict, which it
  renders as one `"Label: Value"` string per entry.

The modules follow the parts of the class:

- `Text`: the Python string primitives the engine relies on. These are
  `isspace`, `strip`, `rstrip(chars)`, `split()`, `' '.join`, `lower`,
  `upper`, `title` and `count`.
- `Validator`: the quality gate, `_is_valid_value`.
- `Formatters`: the lambdas of the pattern table, `_format_dimensions` and
  `_clean_material`. A formatter either produces a string or raises.
- `Catalog`: the ordered pattern table built in `__init__`.
- `OrderedMap`: a Python dict as a sequence of pairs with unique keys.
  Assigning a key that is present replaces its value in place; assigning
  a new key appends it.
- `PatternPass`: `extract_specs_from_text`. The method
  `ExtractSpecsFromText` keeps the source's nested loops, `break` and
  `continue`, and is proved equal to the specification function `Pass`.
- `Features`: `extract_key_features`. The method `ExtractKeyFeatures` is
  proved equal to the specification function `KeyFeatures`.
- `Brand`: `extract_brand`.
- `Merge`: `clean_html`'s whitespace collapse, `process_row` and
  `format_specs_for_shopify`. The method `ProcessRow` is proved equal to the
  rendering of `MergeSpecs`.

Some calls are opaque and are taken as parameters:

- every regex search of the pattern table is a function from the searched
  text to its capture groups, or `None` when the regex does not match;
- every `re.findall` of the feature extractor is a function from the text
  to its list of captures;
- BeautifulSoup's text extraction is a function from string to string.

A missing spreadsheet cell (`pd.isna`) is `None`.

Behaviour of the code worth noting:

- The brand is the stripped vendor, not the vendor as given.
- Not every value passes the gate. The gate is applied only to pattern
  values and feature phrases. Brand, Category and the metafield Material
  bypass it (`Merge.BrandBypassesGate`).
- A bare `"10x5"` matches neither Dimensions rule. The first rule needs
  three numbers and the second needs a "dimension"/"size" prefix. The
  two-number form `"A x B"` comes only from the prefixed rule
  (`Formatters.PrefixedDimensionsFormat`).
- The unit group of the first Dimensions rule captures "inches", "inche",
  "in", "cm", "mm" or `"`, never "inch": on "12 x 8 x 3 inch" it captures
  "in", which is kept as the unit.
- In step 6, `max_features = min(2, 5 - len(all_specs))` is always 2,
  because the step runs only with fewer than four entries.
- The bullets are cut to `max_features` before they are filtered. The
  keyword fallback runs whenever no bullet among those gives an accepted
  phrase, even when the text has bullet glyphs.

## Model

| member | source | states |
|---|---|---|
| `Text.CollapseWhitespace` | populate_specs_v2.py:124 | `' '.join(text.split())`, whose properties `Text.CollapseWhitespaceSpec` states. |
| `Text.CollapseWhitespaceSpec` | populate_specs_v2.py:124 | `' '.join(text.split())` has single spaces only between words and none at the ends. It keeps every non-whitespace character in order, splits into the same words, and is idempotent. |
| `Text.SplitJoin` | populate_specs_v2.py:124 | Splitting a single-space join of words gives the words back. |
| `Text.SplitKeepsCharacters` | populate_specs_v2.py:124 | `split()` keeps exactly the non-whitespace characters, in order. |
| `Text.JoinIsCollapsed` | populate_specs_v2.py:124 | A single-space join of words is in collapsed form, with no whitespace at either end. |
| `Text.CollapsedIsStripped` | populate_specs_v2.py:124 | A collapsed text is unchanged by `strip()`. |
| `Text.StripEmptyIff` | populate_specs_v2.py:99 | `not value.strip()` holds exactly when every character is whitespace. |
| `Text.StripIdempotent` | populate_specs_v2.py:101 | Stripping twice is stripping once. |
| `Text.Strip` | populate_specs_v2.py:101 | `strip()` gives the middle of the input, with only whitespace removed before and after it and no whitespace at its ends. |
| `Text.RStripChars` | populate_specs_v2.py:156 | `rstrip(chars)` gives a prefix of the input. Only characters of the set are removed, and its last character is not in the set. |
| `Text.TitleShape` | populate_specs_v2.py:56 | `title()` changes only case. A letter comes out upper case exactly when the character before it is not a letter. |
| `Text.OccurrencesIsMultiplicity` | populate_specs_v2.py:113 | `value.count(c)` is the multiplicity of `c` in the value. |
| `Validator.ValidValueIff` | populate_specs_v2.py:97-116 | The gate accepts exactly the values that pass all four rejection tests. The value must hold a non-whitespace character; the stripped value must fit `max_length`; at most 3/10 of its positions may be special characters; and it may hold at most five commas and at most five periods. |
| `Validator.ValidValueOfStripped` | populate_specs_v2.py:99-101 | The gate gives the same verdict on a value and on its stripped form. |
| `Validator.CountSpecialIsPositions` | populate_specs_v2.py:108 | The special-character sum counts exactly the positions that are neither alphanumeric nor a space. |
| `OrderedMap.Put` | populate_specs_v2.py:141 | `d[k] = v` keeps the keys in order and appends `k` only when it is new. Afterwards `k` maps to `v`, no other key changes, and keys stay unique. |
| `OrderedMap.PutIfAbsent` | populate_specs_v2.py:212-213 | `if k not in d: d[k] = v` keeps a present value and otherwise appends `k` with `v`. No other key changes. |
| `OrderedMap.PutAll` | populate_specs_v2.py:205 | `d.update(items)` changes no key the items do not mention, and keeps keys unique. |
| `OrderedMap.PutAllIfAbsent` | populate_specs_v2.py:211-213 | The step 2 loop changes no key already present or not mentioned, and keeps keys unique. |
| `OrderedMap.PutAllLastWins` | populate_specs_v2.py:236-237 | After storing every item, a mentioned key holds its last item's value. |
| `OrderedMap.PutAllIfAbsentFirstWins` | populate_specs_v2.py:211-213 | A key absent before the step 2 loop gets its value from the items. |
| `OrderedMap.PutNewKey` | populate_specs_v2.py:141 | Assigning a new key appends it at the end. |
| `OrderedMap.PutAllFresh` | populate_specs_v2.py:205 | Updating with distinct new keys appends them in order; `{}.update(specs)` is `specs`. |
| `OrderedMap.PutAllKeepsOrder` | populate_specs_v2.py:236-237 | Storing items keeps every existing key where it stood and adds at most one key per item. |
| `OrderedMap.PutAllIfAbsentKeepsOrder` | populate_specs_v2.py:211-213 | The step 2 loop keeps every existing key where it stood and adds at most one key per item. |
| `OrderedMap.PutAllIfAbsentKeys` | populate_specs_v2.py:211-213 | With distinct items, the step 2 loop appends exactly the keys the dict lacks, in the items' order. |
| `OrderedMap.PutAllNewKeys` | populate_specs_v2.py:236-237 | Every key `update` appends is a key of the items. |
| `OrderedMap.LookupAt` | populate_specs_v2.py:246 | In a dict with unique keys, the key at position i maps to the value at position i. |
| `Features.BulletPhrase` | populate_specs_v2.py:156 | `bullet.strip().rstrip('.,')` is a prefix of the stripped bullet. |
| `Features.KeywordPhrase` | populate_specs_v2.py:173 | `match.strip().rstrip(',')` is a prefix of the stripped match. |
| `Formatters.TripleDimensionsFormat` | populate_specs_v2.py:29-30 | A match of the first Dimensions rule always gives `"A x B x C unit"`. Its group 4 can be "inches", "inche", "in", "cm", "mm" or `"`. The unit is "inches" when the group is absent or a bare `"`. |
| `Formatters.PrefixedDimensionsFormat` | populate_specs_v2.py:31-32 | A match of the second Dimensions rule gives `"A x B"` without a third number and `"A x B x C inches"` with one. |
| `Formatters.NumberLiteralIsNumeric` | populate_specs_v2.py:78 | A captured number (digits, an optional dot, digits) passes the `replace('.', '').isdigit()` filter. |
| `Formatters.CleanMaterialSpec` | populate_specs_v2.py:88-95 | `_clean_material` gives "" exactly when the stripped cut is not 4 to 29 characters long. Otherwise it gives a title-cased string of that length which, in lower case, is the lower-cased input cut at its first whole filler word and stripped. |
| `Formatters.CutFiller` | populate_specs_v2.py:92 | The filler cut ends the text where the first whole filler word (`with`, `and`, `for`, `the`, `a`, `an`) starts, and keeps all of it when there is none. |
| `Formatters.TemperatureUnitShape` | populate_specs_v2.py:64 | The temperature unit is "F" when group 2 is absent or empty; otherwise it is group 2 upper-cased. |
| `Formatters.TableFormattersNeverRaise` | populate_specs_v2.py:27-74 | On the groups its own regex produces (two required groups for Weight, Capacity, Power and Voltage; a number and an optional unit for Temperature; one required group for Material, Color, Settings and Pieces), no formatter raises. The number-and-unit, temperature and count values never show the text "None". |
| `Formatters.MissingGroupRaises` | populate_specs_v2.py:138-144 | On a match with no groups at all, every formatter except `_format_dimensions` raises (an `IndexError`), which is the failure the `except:` catches. A group that is present but `None` does not raise: it is rendered as "None". |
| `Catalog.PatternTableLabels` | populate_specs_v2.py:27-74 | The table's labels are Dimensions, Weight, Capacity, Power, Voltage, Material, Color, Temperature Range, Settings and Pieces, in that order and all distinct. None of them is a label the merge writes itself. |
| `Catalog.MergeLabelNotInTable` | populate_specs_v2.py:27-74 | Brand, Category, Feature and Included are not table labels. |
| `PatternPass.ExtractSpecsFromText` | populate_specs_v2.py:126-146 | The nested loops with `break` and `continue` compute `Pass` on the lower-cased text. |
| `PatternPass.FirstAcceptedIff` | populate_specs_v2.py:135-144 | A label's value is `v` exactly when some rule produces the non-empty, gate-accepted value `v` and no earlier rule produces an accepted value. |
| `PatternPass.FirstAcceptedNone` | populate_specs_v2.py:135-144 | A label has no value exactly when none of its rules produces an accepted value. |
| `PatternPass.PassBounds` | populate_specs_v2.py:132-133 | The result holds at most `max_specs` entries (none when `max_specs <= 0`) and no more entries than the table has labels. |
| `PatternPass.PassValuesValid` | populate_specs_v2.py:140-141 | Every value is non-empty and passes the gate. |
| `PatternPass.PassInTableOrder` | populate_specs_v2.py:131 | The result's labels are a subsequence of the table's labels, in table order. |
| `PatternPass.PassLookup` | populate_specs_v2.py:131-146 | A label's entry is its first accepted rule's value if fewer than `max_specs` earlier labels were found, and absent otherwise. |
| `PatternPass.PassHasNoOtherLabels` | populate_specs_v2.py:131-141 | No label outside the table is ever set. |
| `PatternPass.PassUniqueKeys` | populate_specs_v2.py:128-141 | The result has each label at most once. |
| `PatternPass.PassKeysAreLabels` | populate_specs_v2.py:141 | Every key of the result is a table label. |
| `Features.ExtractKeyFeatures` | populate_specs_v2.py:148-177 | The bullet loop, the early return and the keyword loops compute `KeyFeatures`. |
| `Features.CollectBullets` | populate_specs_v2.py:155-158 | The bullet loop's result is `BulletPass` of the cut bullets. |
| `Features.AppendKeywordPhrases` | populate_specs_v2.py:172-175 | The inner keyword loop appends `KeywordPass` of its matches to the features. |
| `Features.PySlice` | populate_specs_v2.py:155 | `s[:n]` is the prefix of length `n`, clamped to `len(s)`. A negative `n` counts from the end. |
| `Features.BulletPassMembers` | populate_specs_v2.py:155-158 | A pair is kept exactly when it is `Feature` with some item's `strip().rstrip('.,')` of length 11 to 79 that passes the gate. |
| `Features.BulletPassLength` | populate_specs_v2.py:155-158 | The bullet pass keeps at most one phrase per item. |
| `Features.KeywordPassShape` | populate_specs_v2.py:172-175 | Each keyword phrase carries its keyword's label, has length 16 to 79 and passes the gate. |
| `Features.KeywordPassMembers` | populate_specs_v2.py:172-175 | A pair is kept exactly when it carries the keyword's label and its phrase is some match's `strip().rstrip(',')` of length 16 to 79 that passes the gate. |
| `Features.KeywordPassesCap` | populate_specs_v2.py:170-175 | The keyword loop keeps the phrases found before it and never exceeds `max_features`. |
| `Features.KeyFeaturesCap` | populate_specs_v2.py:148-177 | At most `max_features` pairs come back. |
| `Features.KeyFeaturesPath` | populate_specs_v2.py:155-161 | When some cut bullet gives an accepted phrase, the result is the bullet pass, all `Feature`s. Otherwise it is the keyword pass. |
| `Features.KeywordPathShape` | populate_specs_v2.py:164-177 | The keyword path gives `Feature` and `Included` phrases in the keyword window, and every `Feature` comes before every `Included`. |
| `Features.KeywordPathSplit` | populate_specs_v2.py:164-177 | The keyword path is the "featuring" phrases, then the "includes" phrases, then the "comes with" phrases. Each keyword's matches are cut to `max_features` minus the phrases found before its turn. |
| `Features.KeyFeaturesKeywordMembers` | populate_specs_v2.py:155-177 | When no cut bullet gives an accepted phrase, a pair comes back exactly when it is a `Feature` kept from the cut "featuring" matches, or an `Included` kept from the cut "includes" or "comes with" matches. |
| `Features.KeyFeaturesValid` | populate_specs_v2.py:148-177 | Every phrase that comes back passes the gate. |
| `Features.KeyFeaturesLabels` | populate_specs_v2.py:158-175 | Every pair is labelled `Feature` or `Included`. |
| `Brand.ExtractBrand` | populate_specs_v2.py:179-195 | A usable vendor gives the stripped vendor. Otherwise the title's first word is used when it starts upper case; otherwise there is no brand. A brand has length 3 to 29. |
| `Brand.BrandIff` | populate_specs_v2.py:179-195 | Both directions: the brand is `b` exactly when `b` is the usable stripped vendor, or there is no usable vendor and `b` is the usable first title word. |
| `Brand.HasFirstWordIff` | populate_specs_v2.py:189-190 | A title has a first word exactly when it holds a non-whitespace character. |
| `Brand.FirstWordAfterLeadingSpaces` | populate_specs_v2.py:189-191 | The first word is the run of non-whitespace characters after the leading whitespace. |
| `Brand.FirstWordOfWordThen` | populate_specs_v2.py:189-191 | A title that starts with a word followed by whitespace (or nothing) has that word first. |
| `Brand.VendorWins` | populate_specs_v2.py:182-185 | Vendor "Salton" with title "Acme Blender 500" gives "Salton". |
| `Brand.TitleWordWhenNoVendor` | populate_specs_v2.py:188-193 | With no vendor, the title "Acme Blender 500" gives "Acme". |
| `Merge.CleanHtml` | populate_specs_v2.py:118-124 | A missing cell gives "". Otherwise the text is collapsed and has the same words as BeautifulSoup's text. |
| `Merge.AddBrand` | populate_specs_v2.py:215-218 | Step 3 sets Brand only when it is absent and the brand is non-empty. It touches no other label, keeps the dict's order and keeps labels unique. |
| `Merge.AddCategory` | populate_specs_v2.py:220-224 | Step 4 overwrites Category with the type when there is one. It touches no other label, keeps the dict's order and keeps labels unique. |
| `Merge.AddMaterial` | populate_specs_v2.py:226-230 | Step 5 sets Material only when it is absent. It touches no other label, keeps the dict's order and keeps labels unique. |
| `Merge.FormatSpecsForShopify` | populate_specs_v2.py:241-247 | The output is the empty string exactly when the dict is empty. |
| `Merge.RenderParse` | populate_specs_v2.py:246 | An item `"label: value"` reads back as its entry when the label has no colon. |
| `Merge.FormatReadsBack` | populate_specs_v2.py:241-247 | There is one item per entry, in insertion order, and each item reads back as its entry. |
| `Merge.ProcessRow` | populate_specs_v2.py:197-239 | The six in-place steps and the rendering compute `FormatSpecsForShopify(MergeSpecs(row))`. |
| `Merge.PatternSteps` | populate_specs_v2.py:201-213 | Steps 1 and 2: the description's specs, then the title's specs for labels not yet present. |
| `Merge.FieldSteps` | populate_specs_v2.py:215-230 | Steps 3 to 5 are the brand, category and material updates, in that order. |
| `Merge.AddAbsent` | populate_specs_v2.py:211-213 | The step 2 loop stores an item only if its label is absent. |
| `Merge.SetAll` | populate_specs_v2.py:236-237 | `dict.update` and the step 6 loop store every item, overwriting a present label in place. |
| `Merge.NotFromTable` | populate_specs_v2.py:126-146 | A pattern pass never sets a label that is not in the table. |
| `Merge.PatternPrecedence` | populate_specs_v2.py:201-213 | After steps 1 and 2, a label holds the description's value when the description pass found one, and otherwise the title's. |
| `Merge.TableLabelPrecedence` | populate_specs_v2.py:197-239 | In the final dict, a table label other than Material holds the description's value when there is one, and otherwise the title's. |
| `Merge.MaterialPrecedence` | populate_specs_v2.py:226-230 | Material comes from the pattern passes when they found one. Otherwise it is the stripped metafield of length 4 to 29. |
| `Merge.BrandIsExtracted` | populate_specs_v2.py:215-218 | The final Brand is exactly `extract_brand(title, vendor)`. |
| `Merge.CategoryIsType` | populate_specs_v2.py:220-224 | The final Category is the stripped Type of length 4 to 49, and absent otherwise. |
| `Merge.FieldsKeepOthers` | populate_specs_v2.py:215-230 | Steps 3 to 5 touch only Brand, Category and Material. |
| `Merge.FeaturesKeepOthers` | populate_specs_v2.py:232-237 | Step 6 touches only `Feature` and `Included`. |
| `Merge.PatternKeyOrder` | populate_specs_v2.py:201-213 | After steps 1 and 2 the keys are the description's labels in table order, then the title's labels the description lacks, in the title's order. |
| `Merge.FieldKeyOrder` | populate_specs_v2.py:215-230 | Steps 3 to 5 append Brand (when a brand is found), Category (when the Type passes) and Material (when the metafield passes and no pattern found one), in that order. |
| `Merge.AddKeys` | populate_specs_v2.py:215-230 | The same on any dict that has no Brand and no Category. |
| `Merge.MergeKeyOrder` | populate_specs_v2.py:197-239 | The rendered order: description labels, title-only labels, the labels of steps 3 to 5, and last at most two `Feature`/`Included` labels. |
| `Merge.MergeKeysPrefix` | populate_specs_v2.py:232-237 | Step 6 adds at most two entries and only after the existing ones: the dict of steps 1 to 5 is a prefix of the merged dict, with its order kept. |
| `Merge.DescriptionLabelsFirst` | populate_specs_v2.py:201-205 | The description's labels open the merged dict, in table order. |
| `Merge.FeatureKeysLast` | populate_specs_v2.py:232-237 | Every label step 6 appends is `Feature` or `Included`. |
| `Merge.FeaturesStep` | populate_specs_v2.py:232-237 | Step 6 runs only with fewer than four entries and a description, and then asks for two phrases. Earlier entries keep their places, and at most two entries follow them. |
| `Merge.FeatureLabelsOnlyFromStep6` | populate_specs_v2.py:232-237 | A `Feature` or `Included` entry exists only if step 6 ran. |
| `Merge.MergeUniqueKeys` | populate_specs_v2.py:199-237 | The merged dict has each label at most once. |
| `Merge.MergeLabelsKnown` | populate_specs_v2.py:199-237 | Every label of the merged dict is a table label or Brand, Category, Feature or Included. |
| `Merge.ProcessRowReadsBack` | populate_specs_v2.py:239-247 | For every row: no specs give the empty output, and otherwise item j reads back as the j-th entry of the merged dict. |
| `Merge.EmptyRow` | populate_specs_v2.py:197-247 | A row with every cell missing gives the empty output. |
| `Merge.BrandBypassesGate` | populate_specs_v2.py:215-218 | A vendor "!!!" alone gives the single entry Brand "!!!", a value the gate rejects. |
| `Text.Split` | populate_specs_v2.py:124 | `str.split()`: every word is non-empty and has no whitespace. `Text.SplitKeepsCharacters` and `Text.SplitJoin` state the rest. |
| `Text.Join` | populate_specs_v2.py:124 | `' '.join(words)`. Its properties are in `Text.JoinIsCollapsed` and `Text.SplitJoin`. |
| `Text.Lower` | populate_specs_v2.py:129 | `str.lower()` keeps the length. Case per character is given by `Text.LowerChar`. |
| `Text.Upper` | populate_specs_v2.py:64 | `str.upper()` keeps the length. `Formatters.TemperatureUnitShape` states its use. |
| `Text.Title` | populate_specs_v2.py:56 | `str.title()` keeps the length. `Text.TitleShape` states its shape. |
| `Validator.IsValidValue` | populate_specs_v2.py:97-116 | `_is_valid_value`. `Validator.ValidValueIff` and `Validator.ValidValueOfStripped` state its verdict. |
| `Formatters.FormatDimensions` | populate_specs_v2.py:76-86 | `_format_dimensions`. `Formatters.TripleDimensionsFormat` and `Formatters.PrefixedDimensionsFormat` state its result on each Dimensions rule. |
| `Formatters.CleanMaterial` | populate_specs_v2.py:88-95 | `_clean_material`. `Formatters.CleanMaterialSpec` states its result. |
| `Formatters.Format` | populate_specs_v2.py:27-74 | The lambdas of the table. `Formatters.TableFormattersNeverRaise`, `Formatters.MissingGroupRaises` and `Formatters.TemperatureUnitShape` state their behaviour. |
| `Catalog.PatternTable` | populate_specs_v2.py:27-74 | `self.patterns`. `Catalog.PatternTableLabels` states its labels. |
| `PatternPass.TryRule` | populate_specs_v2.py:136-144 | One rule: its search, its formatter and the gate. `PatternPass.FirstAcceptedIff` states its use. |
| `PatternPass.FirstAccepted` | populate_specs_v2.py:135-144 | The inner loop over one label's rules. `PatternPass.FirstAcceptedIff`, `PatternPass.FirstAcceptedNone` and `PatternPass.FirstAcceptedIsValid` state its result. |
| `PatternPass.FirstAcceptedIsValid` | populate_specs_v2.py:140-141 | An accepted value is non-empty and passes the gate. |
| `PatternPass.Pass` | populate_specs_v2.py:126-146 | `extract_specs_from_text` as a value. The `PatternPass.Pass*` lemmas state its properties. |
| `Features.BulletPass` | populate_specs_v2.py:155-158 | The bullet loop. `Features.BulletPassMembers`, `Features.BulletPassLength` and `Features.BulletPassShape` state its result. |
| `Features.BulletPassShape` | populate_specs_v2.py:155-158 | Every bullet phrase kept is a `Feature` of length 11 to 79 that passes the gate. |
| `Features.KeywordPass` | populate_specs_v2.py:172-175 | The inner keyword loop. `Features.KeywordPassMembers` and `Features.KeywordPassShape` state its result. |
| `Features.KeywordPasses` | populate_specs_v2.py:170-175 | The outer keyword loop. `Features.KeywordPathSplit`, `Features.KeywordPassesCap` and `Features.KeywordPathShape` state its result. |
| `Features.KeyFeatures` | populate_specs_v2.py:148-177 | `extract_key_features` as a value. `Features.KeyFeaturesPath` and `Features.BulletPassMembers` give its bullet path, `Features.KeyFeaturesKeywordMembers` and `Features.KeywordPathSplit` its keyword path, and the other `Features.KeyFeatures*` lemmas its cap, gate and labels. |
| `Features.Keywords` | populate_specs_v2.py:164-168 | The `feature_keywords` table: featuring gives `Feature`, includes and comes with give `Included`, in that order. |
| `Features.KeywordMatches` | populate_specs_v2.py:170-171 | Each keyword's `re.findall` on the text, with its label, in table order. |
| `Features.CutToRoom` | populate_specs_v2.py:172 | `matches[:max_features - len(features)]`. |
| `Features.KeywordTurn` | populate_specs_v2.py:170-175 | One keyword's turn of the outer loop. |
| `Brand.FirstWord` | populate_specs_v2.py:189-191 | `str(title).split()[0]`, if there is one. `Brand.HasFirstWordIff` and `Brand.FirstWordAfterLeadingSpaces` state it. |
| `Merge.PatternSpecs` | populate_specs_v2.py:201-213 | Steps 1 and 2. `Merge.PatternPrecedence`, `Merge.PatternSpecsUnique` and `Merge.PatternKeyOrder` state the result. |
| `Merge.CellSpecs` | populate_specs_v2.py:203-210 | `extract_specs_from_text(clean_html(cell), max_specs)` on one cell, lower-cased as the pass does. |
| `Merge.Category` | populate_specs_v2.py:220-224 | The stripped Type when its length is 4 to 49. `Merge.CategoryIsType` states its use. |
| `Merge.MetafieldMaterial` | populate_specs_v2.py:226-230 | The stripped metafield when its length is 4 to 29. `Merge.MaterialPrecedence` states its use. |
| `Merge.FieldSpecs` | populate_specs_v2.py:215-230 | Steps 3 to 5 as the composition of `Merge.AddBrand`, `Merge.AddCategory` and `Merge.AddMaterial`, whose contracts state each step. |
| `Merge.MergeSpecs` | populate_specs_v2.py:197-237 | The merged dict. `Merge.TableLabelPrecedence`, `Merge.MaterialPrecedence`, `Merge.BrandIsExtracted`, `Merge.CategoryIsType`, `Merge.FeaturesStep` and `Merge.MergeUniqueKeys` state its contents, and `Merge.MergeKeyOrder` its order. |
| `Merge.RenderEntry` | populate_specs_v2.py:246 | `f"{key}: {value}"`. `Merge.RenderParse` states that it reads back. |

## Left out

- Regular expressions are not modelled. Each search of the pattern table
  and each `re.findall` of the feature extractor is an opaque function
  supplied by the caller. Properties that depend on what a regex captures
  are stated under an explicit assumption about the captures (for example
  `Formatters.TripleDimensionsCaptures`).
- BeautifulSoup's `get_text(separator=' ', strip=True)` is an opaque
  function. Only the whitespace collapse after it is modelled.
- `json.dumps` is not modelled. The output is the list of
  `"Label: Value"` items, before JSON encoding.
- Unicode character classes are narrowed to ASCII: case mapping, `isupper`
  (so the title "Ölfa Knife" gives no brand), `isalnum`,
  `isdigit` (and the regex `\d` behind `NumberLiteral`), and the regex word
  class `\w` behind `\b` in the filler cut. So a capture of Unicode digits
  such as '١٢', which Python accepts, is rejected by the model's numeric
  filter. `isspace` uses Python's exact whitespace set.
- `Formatters.CutFiller` models `re.sub(r'\b(...)\b.*', '', s)` only for a
  one-line `s`: `.*` stops at a newline, and the model does not cut there.
  The case cannot be reached, because every searched text has been through
  the whitespace collapse, which leaves no newline.
- `pd.isna` / `pd.notna` on a cell is `None` versus `Some`. `str(cell)`
  on non-string cells is not modelled: every present cell is a string.
- The `use_ai` and `api_key` fields of the extractor are not modelled, and
  neither are the external-service strategy (`populate_specs_ai.py`),
  `process_excel_file`, spreadsheet I/O, the command line, progress
  printing and statistics. These lie outside the rule-based engine.
- The lines of `extract_key_features` are split, unchanged in order, into
  `CollectBullets`, `AppendKeywordPhrases` and `ExtractKeyFeatures`. Those
  of `process_row` are split into `PatternSteps`, `FieldSteps` and
  `ProcessRow`.
- The broad `except:` of `extract_specs_from_text` is modelled for the
  only failures the formatters can have: reading an absent or missing
  group.
