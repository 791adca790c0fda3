/** `extract_key_features`: short feature phrases from a description.
    Bullet items come first; only when no bullet gives an accepted phrase
    are the "featuring", "includes" and "comes with" phrases tried. The
    regex searches are abstract: each finder gives the captures of
    `re.findall` on the text, in order. */
module Features {
  import opened Text
  import opened Validator
  import opened OrderedMap

  /** `re.findall(pattern, text)` for one fixed pattern with one group. */
  type Finder = string -> seq<string>

  datatype Finders = Finders(
    bullets: Finder,     // a bullet glyph, then 10 to 80 characters up to the next glyph or newline
    featuring: Finder,   // "featuring", 15 to 80 characters, a period
    includes: Finder,    // "includes", 15 to 80 characters, a period
    comesWith: Finder    // "comes with", 15 to 80 characters, a period
  )

  type Feature = Entry<string, string>

  /** The two labels a phrase can carry. */
  const FeatureLabel: string := "Feature"
  const IncludedLabel: string := "Included"

  /** `s[:n]` on a Python list: a negative n counts from the end. */
  function PySlice<T>(s: seq<T>, n: int): (r: seq<T>)
    ensures |r| == if n >= 0 then (if n <= |s| then n else |s|)
                   else (if |s| + n >= 0 then |s| + n else 0)
    ensures r == s[..|r|]
  {
    if n >= 0 then (if n <= |s| then s[..n] else s)
    else (if |s| + n >= 0 then s[..|s| + n] else [])
  }

  // ---------------------------------------------------------------------
  // Bullets
  // ---------------------------------------------------------------------

  /** `bullet.strip().rstrip('.,')`. */
  function BulletPhrase(b: string): (f: string)
    ensures |f| <= |Strip(b)| && f == Strip(b)[..|f|]
  {
    RStripChars(Strip(b), {'.', ','})
  }

  /** The window and the gate a bullet phrase must pass. */
  predicate KeepsBullet(f: string) {
    10 < |f| < 80 && IsValidValue(f, DefaultMaxLength)
  }

  /** The bullet loop's result, in order: one `Feature` per accepted item. */
  function BulletPass(bs: seq<string>): seq<Feature> {
    if bs == [] then []
    else
      (if KeepsBullet(BulletPhrase(bs[0])) then [(FeatureLabel, BulletPhrase(bs[0]))] else [])
      + BulletPass(bs[1..])
  }

  /** What the bullet loop keeps: exactly the accepted phrases of the
      items, each labelled `Feature`. */
  lemma {:induction false} BulletPassMembers(bs: seq<string>, e: Feature)
    ensures e in BulletPass(bs) <==>
      e.0 == FeatureLabel && exists i :: 0 <= i < |bs| && e.1 == BulletPhrase(bs[i]) && KeepsBullet(e.1)
  {
    if bs != [] {
      BulletPassMembers(bs[1..], e);
      assert forall i :: 1 <= i < |bs| ==> bs[i] == bs[1..][i - 1];
      if e.0 == FeatureLabel && e.1 == BulletPhrase(bs[0]) && KeepsBullet(e.1) {
        assert e in BulletPass(bs);
      }
      if e in BulletPass(bs) && e !in BulletPass(bs[1..]) {
        assert e.1 == BulletPhrase(bs[0]);
      }
    }
  }

  lemma {:induction false} BulletPassLength(bs: seq<string>)
    ensures |BulletPass(bs)| <= |bs|
  {
    if bs != [] {
      BulletPassLength(bs[1..]);
    }
  }

  // ---------------------------------------------------------------------
  // Keyword phrases
  // ---------------------------------------------------------------------

  /** `match.strip().rstrip(',')`. */
  function KeywordPhrase(m: string): (f: string)
    ensures |f| <= |Strip(m)| && f == Strip(m)[..|f|]
  {
    RStripChars(Strip(m), {','})
  }

  /** The window and the gate a keyword phrase must pass. */
  predicate KeepsKeyword(f: string) {
    15 < |f| < 80 && IsValidValue(f, DefaultMaxLength)
  }

  /** The inner keyword loop over matches already cut to size. */
  function KeywordPass(kind: string, ms: seq<string>): seq<Feature> {
    if ms == [] then []
    else
      (if KeepsKeyword(KeywordPhrase(ms[0])) then [(kind, KeywordPhrase(ms[0]))] else [])
      + KeywordPass(kind, ms[1..])
  }

  /** The keyword table `feature_keywords`, in order. */
  function Keywords(fs: Finders): seq<(Finder, string)> {
    [(fs.featuring, FeatureLabel), (fs.includes, IncludedLabel), (fs.comesWith, IncludedLabel)]
  }

  /** Each keyword's `re.findall` result on the text, with its label. */
  function KeywordMatches(fs: Finders, text: string): (kms: seq<(seq<string>, string)>)
    ensures |kms| == |Keywords(fs)|
    ensures forall k :: 0 <= k < |kms| ==> kms[k] == (Keywords(fs)[k].0(text), Keywords(fs)[k].1)
  {
    [(fs.featuring(text), FeatureLabel), (fs.includes(text), IncludedLabel), (fs.comesWith(text), IncludedLabel)]
  }

  /** `matches[:max_features - len(features)]`: the matches cut to the
      room left after the phrases `acc`. */
  function CutToRoom(ms: seq<string>, maxFeatures: int, acc: seq<Feature>): seq<string> {
    PySlice(ms, maxFeatures - |acc|)
  }

  /** One keyword's turn of the outer loop, after the phrases `acc`. */
  function KeywordTurn(km: (seq<string>, string), maxFeatures: int, acc: seq<Feature>): seq<Feature> {
    KeywordPass(km.1, CutToRoom(km.0, maxFeatures, acc))
  }

  /** The outer keyword loop: each keyword's matches are cut to the room
      left when its turn comes. */
  function KeywordPasses(kms: seq<(seq<string>, string)>, maxFeatures: int, acc: seq<Feature>): seq<Feature>
    decreases |kms|
  {
    if kms == [] then acc
    else KeywordPasses(kms[1..], maxFeatures, acc + KeywordTurn(kms[0], maxFeatures, acc))
  }

  lemma KeywordPassesStep(kms: seq<(seq<string>, string)>, maxFeatures: int, acc: seq<Feature>)
    requires kms != []
    ensures KeywordPasses(kms, maxFeatures, acc) ==
      KeywordPasses(kms[1..], maxFeatures, acc + KeywordTurn(kms[0], maxFeatures, acc))
  {
  }

  /** `extract_key_features(text, max_features)` as a value. */
  function KeyFeatures(fs: Finders, text: string, maxFeatures: int): seq<Feature> {
    var fromBullets := BulletPass(PySlice(fs.bullets(text), maxFeatures));
    if fromBullets != [] then fromBullets
    else KeywordPasses(KeywordMatches(fs, text), maxFeatures, [])
  }

  lemma {:induction false} KeywordPassShape(kind: string, ms: seq<string>)
    ensures |KeywordPass(kind, ms)| <= |ms|
    ensures forall i :: 0 <= i < |KeywordPass(kind, ms)| ==>
      KeywordPass(kind, ms)[i].0 == kind && KeepsKeyword(KeywordPass(kind, ms)[i].1)
  {
    if ms != [] {
      KeywordPassShape(kind, ms[1..]);
    }
  }

  lemma {:induction false} BulletPassShape(bs: seq<string>)
    ensures forall i :: 0 <= i < |BulletPass(bs)| ==>
      BulletPass(bs)[i].0 == FeatureLabel && KeepsBullet(BulletPass(bs)[i].1)
  {
    if bs != [] {
      BulletPassShape(bs[1..]);
    }
  }

  /** With room for `maxFeatures >= 0` phrases, the accumulated phrases
      never exceed it. */
  lemma {:induction false} KeywordPassesCap(kms: seq<(seq<string>, string)>, maxFeatures: int, acc: seq<Feature>)
    requires 0 <= |acc| <= maxFeatures
    ensures |acc| <= |KeywordPasses(kms, maxFeatures, acc)| <= maxFeatures
    ensures KeywordPasses(kms, maxFeatures, acc)[..|acc|] == acc
    decreases |kms|
  {
    if kms != [] {
      var ms := PySlice(kms[0].0, maxFeatures - |acc|);
      KeywordPassShape(kms[0].1, ms);
      var acc' := acc + KeywordPass(kms[0].1, ms);
      KeywordPassesCap(kms[1..], maxFeatures, acc');
      assert acc'[..|acc|] == acc;
    }
  }

  /** At most `max_features` pairs come back. */
  lemma KeyFeaturesCap(fs: Finders, text: string, maxFeatures: int)
    requires maxFeatures >= 0
    ensures |KeyFeatures(fs, text, maxFeatures)| <= maxFeatures
  {
    BulletPassLength(PySlice(fs.bullets(text), maxFeatures));
    KeywordPassesCap(KeywordMatches(fs, text), maxFeatures, []);
  }

  /** Which path answers: when some bullet among the first
      `max_features` gives an accepted phrase, the answer is the bullet
      pass, all `Feature`s in the 10 to 80 window; otherwise it is the
      keyword pass. */
  lemma KeyFeaturesPath(fs: Finders, text: string, maxFeatures: int)
    ensures var bs := PySlice(fs.bullets(text), maxFeatures);
      if exists i :: 0 <= i < |bs| && KeepsBullet(BulletPhrase(bs[i])) then
        KeyFeatures(fs, text, maxFeatures) == BulletPass(bs)
        && forall j :: 0 <= j < |BulletPass(bs)| ==>
             BulletPass(bs)[j].0 == FeatureLabel && KeepsBullet(BulletPass(bs)[j].1)
      else
        KeyFeatures(fs, text, maxFeatures) == KeywordPasses(KeywordMatches(fs, text), maxFeatures, [])
  {
    var bs := PySlice(fs.bullets(text), maxFeatures);
    BulletPassShape(bs);
    if exists i :: 0 <= i < |bs| && KeepsBullet(BulletPhrase(bs[i])) {
      var i :| 0 <= i < |bs| && KeepsBullet(BulletPhrase(bs[i]));
      BulletPassMembers(bs, (FeatureLabel, BulletPhrase(bs[i])));
    } else if BulletPass(bs) != [] {
      BulletPassMembers(bs, BulletPass(bs)[0]);
    }
  }

  /** Every phrase is a `Feature` or an `Included` in the keyword window,
      and no `Feature` comes after an `Included`. */
  predicate KeywordOrdered(r: seq<Feature>) {
    && (forall i :: 0 <= i < |r| ==> (r[i].0 == FeatureLabel || r[i].0 == IncludedLabel) && KeepsKeyword(r[i].1))
    && (forall i, j :: 0 <= i < j < |r| && r[j].0 == FeatureLabel ==> r[i].0 == FeatureLabel)
  }

  predicate AllFeature(r: seq<Feature>) {
    forall i :: 0 <= i < |r| ==> r[i].0 == FeatureLabel
  }

  lemma OrderedAppend(acc: seq<Feature>, kind: string, b: seq<Feature>)
    requires KeywordOrdered(acc)
    requires kind == FeatureLabel || kind == IncludedLabel
    requires kind == FeatureLabel ==> AllFeature(acc)
    requires forall i :: 0 <= i < |b| ==> b[i].0 == kind && KeepsKeyword(b[i].1)
    ensures KeywordOrdered(acc + b)
    ensures kind == FeatureLabel ==> AllFeature(acc + b)
  {
    var r := acc + b;
    assert forall i :: 0 <= i < |r| ==> r[i] == if i < |acc| then acc[i] else b[i - |acc|];
  }

  /** The outer keyword loop keeps the order when the keyword labels put
      every `Feature` keyword before every `Included` one. */
  lemma {:induction false} KeywordPassesOrdered(kms: seq<(seq<string>, string)>, maxFeatures: int, acc: seq<Feature>)
    requires KeywordOrdered(acc)
    requires forall i :: 0 <= i < |kms| ==> kms[i].1 == FeatureLabel || kms[i].1 == IncludedLabel
    requires forall i, j :: 0 <= i < j < |kms| && kms[j].1 == FeatureLabel ==> kms[i].1 == FeatureLabel
    requires kms != [] && kms[0].1 == FeatureLabel ==> AllFeature(acc)
    ensures KeywordOrdered(KeywordPasses(kms, maxFeatures, acc))
    decreases |kms|
  {
    if kms != [] {
      var ms := PySlice(kms[0].0, maxFeatures - |acc|);
      var b := KeywordPass(kms[0].1, ms);
      KeywordPassShape(kms[0].1, ms);
      OrderedAppend(acc, kms[0].1, b);
      assert forall i :: 0 <= i < |kms[1..]| ==> kms[1..][i] == kms[i + 1];
      KeywordPassesOrdered(kms[1..], maxFeatures, acc + b);
    }
  }

  /** The keyword path gives the "featuring" phrases, then the "includes"
      and "comes with" phrases: every `Feature` precedes every `Included`,
      and each phrase is in the 15 to 80 window and passes the gate. */
  lemma KeywordPathShape(fs: Finders, text: string, maxFeatures: int)
    ensures KeywordOrdered(KeywordPasses(KeywordMatches(fs, text), maxFeatures, []))
  {
    var kms := KeywordMatches(fs, text);
    assert kms[0].1 == FeatureLabel && kms[1].1 == IncludedLabel && kms[2].1 == IncludedLabel;
    KeywordPassesOrdered(kms, maxFeatures, []);
  }

  /** `p` is the accepted phrase of one of the matches `ms`. */
  predicate KeptAmong(p: string, ms: seq<string>) {
    exists i :: 0 <= i < |ms| && KeptFrom(p, ms[i])
  }

  /** `p` is the accepted phrase of the match `m`. */
  predicate KeptFrom(p: string, m: string) {
    p == KeywordPhrase(m) && KeepsKeyword(p)
  }

  /** What the inner keyword loop keeps: exactly the accepted phrases of
      the matches, each labelled with the keyword's label. */
  lemma {:induction false} KeywordPassMembers(kind: string, ms: seq<string>, e: Feature)
    ensures e in KeywordPass(kind, ms) <==> e.0 == kind && KeptAmong(e.1, ms)
  {
    if ms != [] {
      KeywordPassStep(kind, ms);
      KeywordPassMembers(kind, ms[1..], e);
      KeptAmongStep(e.1, ms);
    }
  }

  lemma KeptAmongStep(p: string, ms: seq<string>)
    requires ms != []
    ensures KeptAmong(p, ms) <==> KeptFrom(p, ms[0]) || KeptAmong(p, ms[1..])
  {
    if KeptAmong(p, ms[1..]) {
      var i :| 0 <= i < |ms[1..]| && KeptFrom(p, ms[1..][i]);
      assert ms[1..][i] == ms[i + 1];
    }
    if KeptAmong(p, ms) && !KeptFrom(p, ms[0]) {
      var i :| 0 <= i < |ms| && KeptFrom(p, ms[i]);
      assert ms[1..][i - 1] == ms[i];
    }
  }

  /** The keyword path is the accepted "featuring" phrases among the
      first `max_features` matches, then the accepted "includes" phrases
      among as many matches as there is room left, then the same for
      "comes with". */
  lemma KeywordPathSplit(fs: Finders, text: string, maxFeatures: int)
    ensures var fromF := KeywordTurn((fs.featuring(text), FeatureLabel), maxFeatures, []);
      var fromI := KeywordTurn((fs.includes(text), IncludedLabel), maxFeatures, fromF);
      var fromC := KeywordTurn((fs.comesWith(text), IncludedLabel), maxFeatures, fromF + fromI);
      KeywordPasses(KeywordMatches(fs, text), maxFeatures, []) == fromF + fromI + fromC
  {
    var kms := KeywordMatches(fs, text);
    var fromF := KeywordTurn((fs.featuring(text), FeatureLabel), maxFeatures, []);
    var fromI := KeywordTurn((fs.includes(text), IncludedLabel), maxFeatures, fromF);
    var fromC := KeywordTurn((fs.comesWith(text), IncludedLabel), maxFeatures, fromF + fromI);
    var k1, k2 := kms[1..], kms[2..];
    assert kms[0] == (fs.featuring(text), FeatureLabel);
    assert k1[0] == (fs.includes(text), IncludedLabel) && k1[1..] == k2;
    assert k2[0] == (fs.comesWith(text), IncludedLabel) && k2[1..] == [];
    assert [] + fromF == fromF;
    calc {
      KeywordPasses(kms, maxFeatures, []);
      { KeywordPassesStep(kms, maxFeatures, []); }
      KeywordPasses(k1, maxFeatures, fromF);
      { KeywordPassesStep(k1, maxFeatures, fromF); }
      KeywordPasses(k2, maxFeatures, fromF + fromI);
      { KeywordPassesStep(k2, maxFeatures, fromF + fromI); }
      KeywordPasses([], maxFeatures, fromF + fromI + fromC);
    }
  }

  /** When no bullet among the first `max_features` gives an accepted
      phrase, a pair comes back exactly when it is a `Feature` kept from
      the "featuring" matches, or an `Included` kept from the "includes"
      or "comes with" matches, each cut to the room left at its turn. */
  lemma KeyFeaturesKeywordMembers(fs: Finders, text: string, maxFeatures: int, e: Feature)
    ensures var bs := PySlice(fs.bullets(text), maxFeatures);
      var fromF := KeywordTurn((fs.featuring(text), FeatureLabel), maxFeatures, []);
      var fromI := KeywordTurn((fs.includes(text), IncludedLabel), maxFeatures, fromF);
      (forall i :: 0 <= i < |bs| ==> !KeepsBullet(BulletPhrase(bs[i]))) ==>
        (e in KeyFeatures(fs, text, maxFeatures) <==>
          (e.0 == FeatureLabel && KeptAmong(e.1, CutToRoom(fs.featuring(text), maxFeatures, [])))
          || (e.0 == IncludedLabel && (KeptAmong(e.1, CutToRoom(fs.includes(text), maxFeatures, fromF))
                                       || KeptAmong(e.1, CutToRoom(fs.comesWith(text), maxFeatures, fromF + fromI)))))
  {
    var bs := PySlice(fs.bullets(text), maxFeatures);
    var fromF := KeywordTurn((fs.featuring(text), FeatureLabel), maxFeatures, []);
    var fromI := KeywordTurn((fs.includes(text), IncludedLabel), maxFeatures, fromF);
    if forall i :: 0 <= i < |bs| ==> !KeepsBullet(BulletPhrase(bs[i])) {
      KeyFeaturesPath(fs, text, maxFeatures);
      KeywordPathSplit(fs, text, maxFeatures);
      KeywordPassMembers(FeatureLabel, CutToRoom(fs.featuring(text), maxFeatures, []), e);
      KeywordPassMembers(IncludedLabel, CutToRoom(fs.includes(text), maxFeatures, fromF), e);
      KeywordPassMembers(IncludedLabel, CutToRoom(fs.comesWith(text), maxFeatures, fromF + fromI), e);
    }
  }

  /** Every phrase that comes back passes the gate. */
  lemma KeyFeaturesValid(fs: Finders, text: string, maxFeatures: int)
    ensures forall i :: 0 <= i < |KeyFeatures(fs, text, maxFeatures)| ==>
      IsValidValue(KeyFeatures(fs, text, maxFeatures)[i].1, DefaultMaxLength)
  {
    var bs := PySlice(fs.bullets(text), maxFeatures);
    if BulletPass(bs) != [] {
      BulletPassShape(bs);
    } else {
      KeywordPathShape(fs, text, maxFeatures);
    }
  }

  /** Every pair is labelled `Feature` or `Included`. */
  lemma KeyFeaturesLabels(fs: Finders, text: string, maxFeatures: int)
    ensures forall i :: 0 <= i < |KeyFeatures(fs, text, maxFeatures)| ==>
      KeyFeatures(fs, text, maxFeatures)[i].0 == FeatureLabel || KeyFeatures(fs, text, maxFeatures)[i].0 == IncludedLabel
  {
    var bs := PySlice(fs.bullets(text), maxFeatures);
    if BulletPass(bs) != [] {
      BulletPassShape(bs);
    } else {
      KeywordPathShape(fs, text, maxFeatures);
    }
  }

  // ---------------------------------------------------------------------
  // The loops
  // ---------------------------------------------------------------------

  /** `extract_key_features(text, max_features)`: the bullet loop, the
      early return, then the nested keyword loops. */
  method ExtractKeyFeatures(fs: Finders, text: string, maxFeatures: int) returns (features: seq<Feature>)
    ensures features == KeyFeatures(fs, text, maxFeatures)
  {
    var bullets := PySlice(fs.bullets(text), maxFeatures);
    features := CollectBullets(bullets);
    if features != [] {
      return;
    }
    var keywords := Keywords(fs);
    ghost var kms := KeywordMatches(fs, text);
    ghost var target := KeyFeatures(fs, text, maxFeatures);
    assert kms[0..] == kms;
    assert KeywordPasses(kms[0..], maxFeatures, features) == target;
    var k := 0;
    while k < |keywords|
      invariant 0 <= k <= |keywords|
      invariant KeywordPasses(kms[k..], maxFeatures, features) == target
    {
      var finder, kind := keywords[k].0, keywords[k].1;
      var matches := PySlice(finder(text), maxFeatures - |features|);
      ghost var before := features;
      assert kms[k..][0] == kms[k] == (finder(text), kind);
      KeywordPassesStep(kms[k..], maxFeatures, before);
      assert kms[k..][1..] == kms[k + 1..];
      features := AppendKeywordPhrases(features, kind, matches);
      assert KeywordPasses(kms[k + 1..], maxFeatures, features) == KeywordPasses(kms[k..], maxFeatures, before);
      k := k + 1;
    }
  }

  /** The bullet loop: the accepted phrases of the bullet captures, in
      order, each labelled `Feature`. */
  method CollectBullets(bullets: seq<string>) returns (features: seq<Feature>)
    ensures features == BulletPass(bullets)
  {
    features := [];
    assert bullets[0..] == bullets;
    var i := 0;
    while i < |bullets|
      invariant 0 <= i <= |bullets|
      invariant features + BulletPass(bullets[i..]) == BulletPass(bullets)
    {
      BulletPassStep(bullets[i..]);
      assert bullets[i..][0] == bullets[i] && bullets[i..][1..] == bullets[i + 1..];
      var feature := BulletPhrase(bullets[i]);
      ghost var rest := BulletPass(bullets[i + 1..]);
      if KeepsBullet(feature) {
        assert features + BulletPass(bullets[i..]) == features + [(FeatureLabel, feature)] + rest;
        features := features + [(FeatureLabel, feature)];
      } else {
        assert BulletPass(bullets[i..]) == rest;
      }
      i := i + 1;
    }
    assert bullets[i..] == [];
  }

  lemma BulletPassStep(bs: seq<string>)
    requires bs != []
    ensures BulletPass(bs) ==
      (if KeepsBullet(BulletPhrase(bs[0])) then [(FeatureLabel, BulletPhrase(bs[0]))] else []) + BulletPass(bs[1..])
  {
  }

  /** The inner keyword loop: append the accepted phrases of `matches`,
      in order, each with the keyword's label. */
  method AppendKeywordPhrases(acc: seq<Feature>, kind: string, matches: seq<string>) returns (features: seq<Feature>)
    ensures features == acc + KeywordPass(kind, matches)
  {
    features := acc;
    assert matches[0..] == matches;
    var j := 0;
    while j < |matches|
      invariant 0 <= j <= |matches|
      invariant features + KeywordPass(kind, matches[j..]) == acc + KeywordPass(kind, matches)
    {
      KeywordPassStep(kind, matches[j..]);
      assert matches[j..][0] == matches[j] && matches[j..][1..] == matches[j + 1..];
      var feature := KeywordPhrase(matches[j]);
      ghost var rest := KeywordPass(kind, matches[j + 1..]);
      if KeepsKeyword(feature) {
        assert features + KeywordPass(kind, matches[j..]) == features + [(kind, feature)] + rest;
        features := features + [(kind, feature)];
      } else {
        assert KeywordPass(kind, matches[j..]) == rest;
      }
      j := j + 1;
    }
    assert matches[j..] == [];
  }

  lemma KeywordPassStep(kind: string, ms: seq<string>)
    requires ms != []
    ensures KeywordPass(kind, ms) ==
      (if KeepsKeyword(KeywordPhrase(ms[0])) then [(kind, KeywordPhrase(ms[0]))] else []) + KeywordPass(kind, ms[1..])
  {
  }
}
