/** Keyword-to-category feature extraction, `extract_features`
    (notebooks/app.py:76-84), and the assembly of the classifier's input by
    `pd.concat` and `reindex` (notebooks/app.py:115-116). */
module Features {
  import opened Text
  import opened Taxonomy

  /** One column of a one-row DataFrame: its name and its 0/1 value. */
  datatype Column = Column(name: string, value: int)

  /** A one-row DataFrame, columns in order. */
  type Frame = seq<Column>

  /** `any(kw in cleaned for kw in keywords)`. */
  function AnyKeyword(keywords: seq<string>, cleaned: string): (b: bool)
    ensures b <==> exists j :: 0 <= j < |keywords| && Contains(cleaned, keywords[j])
  {
    if keywords == [] then false
    else if Contains(cleaned, keywords[0]) then true
    else
      var rest := AnyKeyword(keywords[1..], cleaned);
      assert forall j :: 1 <= j < |keywords| ==> keywords[j] == keywords[1..][j - 1];
      rest
  }

  /** A category is present when one of its keywords occurs in the text. */
  predicate Present(c: Category, cleaned: string) {
    AnyKeyword(c.keywords, cleaned)
  }

  /** The codes of the categories of `m` that are present, in the order of
      `m`: the list `found_categories` that the loop builds. */
  function Found(m: seq<Category>, cleaned: string): seq<string> {
    if m == [] then []
    else
      var last := m[|m| - 1];
      Found(m[..|m| - 1], cleaned) + (if Present(last, cleaned) then [last.code] else [])
  }

  /** Every listed code is the code of a present category, and the code of
      every present category is listed. */
  lemma {:induction false} FoundMembers(m: seq<Category>, cleaned: string)
    ensures forall c :: c in Found(m, cleaned) ==>
      exists k :: 0 <= k < |m| && m[k].code == c && Present(m[k], cleaned)
    ensures forall k :: 0 <= k < |m| && Present(m[k], cleaned) ==> m[k].code in Found(m, cleaned)
  {
    if m != [] {
      var init := m[..|m| - 1];
      FoundMembers(init, cleaned);
      assert forall k :: 0 <= k < |init| ==> init[k] == m[k];
    }
  }

  /** With distinct codes, a category's code is listed exactly when the
      category is present: no code is listed on behalf of another. */
  lemma FoundExactly(m: seq<Category>, cleaned: string)
    requires Distinct(Codes(m))
    ensures forall k :: 0 <= k < |m| ==> (m[k].code in Found(m, cleaned) <==> Present(m[k], cleaned))
  {
    FoundMembers(m, cleaned);
    forall k | 0 <= k < |m| && m[k].code in Found(m, cleaned) ensures Present(m[k], cleaned) {
      var k' :| 0 <= k' < |m| && m[k'].code == m[k].code && Present(m[k'], cleaned);
      assert Codes(m)[k'] == Codes(m)[k];
    }
  }

  /** `r` is `s` with some elements deleted, the others kept in order. */
  predicate IsSubsequence(r: seq<string>, s: seq<string>)
    decreases |s|
  {
    if r == [] then true
    else if s == [] then false
    else if r[|r| - 1] == s[|s| - 1] then IsSubsequence(r[..|r| - 1], s[..|s| - 1])
    else IsSubsequence(r, s[..|s| - 1])
  }

  /** Appending to the longer sequence keeps a subsequence. */
  lemma {:induction false} SubsequenceExtend(r: seq<string>, s: seq<string>, x: string)
    requires IsSubsequence(r, s)
    ensures IsSubsequence(r, s + [x])
    decreases |s|, 1
  {
    assert (s + [x])[..|s|] == s;
    if r != [] && r[|r| - 1] == x {
      SubsequenceTrimLast(r, s);
    }
  }

  /** A subsequence with its last element removed is still a subsequence. */
  lemma {:induction false} SubsequenceTrimLast(r: seq<string>, s: seq<string>)
    requires r != [] && IsSubsequence(r, s)
    ensures IsSubsequence(r[..|r| - 1], s)
    decreases |s|, 0
  {
    var init := r[..|r| - 1];
    var s' := s[..|s| - 1];
    assert s' + [s[|s| - 1]] == s;
    if r[|r| - 1] != s[|s| - 1] {
      SubsequenceTrimLast(r, s');
    }
    SubsequenceExtend(init, s', s[|s| - 1]);
  }

  /** Elements of a subsequence of a sequence without repeats do not repeat. */
  lemma {:induction false} SubsequenceDistinct(r: seq<string>, s: seq<string>)
    requires IsSubsequence(r, s) && Distinct(s)
    ensures Distinct(r)
    ensures forall x :: x in r ==> x in s
    decreases |s|
  {
    if r != [] {
      var s' := s[..|s| - 1];
      assert Distinct(s');
      if r[|r| - 1] == s[|s| - 1] {
        var r' := r[..|r| - 1];
        SubsequenceDistinct(r', s');
        assert r == r' + [r[|r| - 1]];
        assert s[|s| - 1] !in s';
      } else {
        SubsequenceDistinct(r, s');
      }
    }
  }

  /** `found_categories` lists codes in the map's iteration order, with no
      code twice. */
  lemma {:induction false} FoundInOrder(m: seq<Category>, cleaned: string)
    ensures IsSubsequence(Found(m, cleaned), Codes(m))
  {
    if m != [] {
      var init := m[..|m| - 1];
      var last := m[|m| - 1];
      FoundInOrder(init, cleaned);
      assert Codes(m)[..|m| - 1] == Codes(init);
      if Present(last, cleaned) {
        assert Found(m, cleaned) == Found(init, cleaned) + [last.code];
        assert Found(m, cleaned)[..|Found(m, cleaned)| - 1] == Found(init, cleaned);
        assert Codes(m)[|m| - 1] == last.code;
      } else {
        assert Found(m, cleaned) == Found(init, cleaned);
        SubsequenceExtend(Found(init, cleaned), Codes(init), last.code);
        assert Codes(init) + [last.code] == Codes(m);
      }
    }
  }

  /** One occurring keyword is enough to list its category. */
  lemma KeywordMarks(m: seq<Category>, k: int, j: int, cleaned: string)
    requires 0 <= k < |m| && 0 <= j < |m[k].keywords|
    requires Contains(cleaned, m[k].keywords[j])
    ensures m[k].code in Found(m, cleaned)
  {
    FoundMembers(m, cleaned);
  }

  /** When no keyword of any category occurs, nothing is found. */
  lemma {:induction false} FoundNone(m: seq<Category>, cleaned: string)
    requires forall k :: 0 <= k < |m| ==> !Present(m[k], cleaned)
    ensures Found(m, cleaned) == []
  {
    if m != [] {
      FoundNone(m[..|m| - 1], cleaned);
    }
  }

  /** The vector of line 83: one column `prefix_code` per taxonomy code, 1 when
      the code was found and an explicit 0 otherwise. */
  function FeatureVector(prefix: string, found: seq<string>): (v: Frame)
    ensures |v| == |SkillCodes|
  {
    seq(|SkillCodes|, k requires 0 <= k < |SkillCodes| =>
      Column(ColumnName(prefix, SkillCodes[k]), if SkillCodes[k] in found then 1 else 0))
  }

  /** The column names of a frame, in order. */
  function Names(f: Frame): (r: seq<string>)
    ensures |r| == |f|
    ensures forall i :: 0 <= i < |f| ==> r[i] == f[i].name
  {
    seq(|f|, i requires 0 <= i < |f| => f[i].name)
  }

  /** The loop of lines 79-82: walk the map in order and record the code of
      every category one of whose keywords the cleaned text contains. */
  method FindCategories(mapper: seq<Category>, cleaned: string) returns (found: seq<string>)
    ensures found == Found(mapper, cleaned)
  {
    found := [];
    var i := 0;
    while i < |mapper|
      invariant 0 <= i <= |mapper|
      invariant found == Found(mapper[..i], cleaned)
    {
      var category := mapper[i];
      if AnyKeyword(category.keywords, cleaned) {
        found := found + [category.code];
      }
      assert mapper[..i + 1][..i] == mapper[..i];
      i := i + 1;
    }
    assert mapper[..i] == mapper;
  }

  /** `extract_features`: clean the text, walk the keyword map in order and
      record each category with a matching keyword, then build the vector. */
  method ExtractFeatures(text: string, prefix: string) returns (vector: Frame, found: seq<string>)
    ensures found == Found(SkillMapper, CleanText(text))
    ensures |vector| == |SkillCodes|
    ensures forall k :: 0 <= k < |SkillCodes| ==>
      vector[k].name == ColumnName(prefix, SkillCodes[k]) &&
      (SkillCodes[k] in found <==> Present(SkillMapper[k], CleanText(text))) &&
      vector[k].value == (if Present(SkillMapper[k], CleanText(text)) then 1 else 0)
  {
    var cleaned := CleanText(text);
    found := FindCategories(SkillMapper, cleaned);
    vector := FeatureVector(prefix, found);
    FeatureVectorMarks(prefix, cleaned);
  }

  /** Column k of the vector of the categories found in `cleaned` is named
      after the k-th code and holds 1 exactly when that category is present. */
  lemma FeatureVectorMarks(prefix: string, cleaned: string)
    ensures forall k :: 0 <= k < |SkillCodes| ==>
      var v := FeatureVector(prefix, Found(SkillMapper, cleaned));
      v[k].name == ColumnName(prefix, SkillCodes[k]) &&
      (SkillCodes[k] in Found(SkillMapper, cleaned) <==> Present(SkillMapper[k], cleaned)) &&
      v[k].value == (if Present(SkillMapper[k], cleaned) then 1 else 0)
  {
    SkillMapperFollowsSkillCodes();
    SkillCodesDistinct();
    FoundExactly(SkillMapper, cleaned);
  }

  /** `found_categories` has no repeats and lists codes in the order of
      `SKILL_CODES`, which is the iteration order of `SKILL_MAPPER`. */
  lemma FoundFollowsSkillCodes(cleaned: string)
    ensures IsSubsequence(Found(SkillMapper, cleaned), SkillCodes)
    ensures Distinct(Found(SkillMapper, cleaned))
  {
    FoundInOrder(SkillMapper, cleaned);
    SkillMapperFollowsSkillCodes();
    SkillCodesDistinct();
    SubsequenceDistinct(Found(SkillMapper, cleaned), SkillCodes);
  }

  /** A keyword shared by two categories marks both of them. */
  lemma SharedKeywordMarksBoth(text: string)
    ensures Contains(CleanText(text), "advertising") ==>
      "ADVR" in Found(SkillMapper, CleanText(text)) && "MRKT" in Found(SkillMapper, CleanText(text))
    ensures Contains(CleanText(text), "logistics") ==>
      "SUPL" in Found(SkillMapper, CleanText(text)) && "TRNS" in Found(SkillMapper, CleanText(text))
  {
    var cleaned := CleanText(text);
    SharedKeywords();
    FoundMembers(SkillMapper, cleaned);
    if Contains(cleaned, "advertising") {
      var j2 :| 0 <= j2 < |SkillMapper[2].keywords| && SkillMapper[2].keywords[j2] == "advertising";
      var j19 :| 0 <= j19 < |SkillMapper[19].keywords| && SkillMapper[19].keywords[j19] == "advertising";
      assert Present(SkillMapper[2], cleaned) && Present(SkillMapper[19], cleaned);
    }
    if Contains(cleaned, "logistics") {
      var j31 :| 0 <= j31 < |SkillMapper[31].keywords| && SkillMapper[31].keywords[j31] == "logistics";
      var j33 :| 0 <= j33 < |SkillMapper[33].keywords| && SkillMapper[33].keywords[j33] == "logistics";
      assert Present(SkillMapper[31], cleaned) && Present(SkillMapper[33], cleaned);
    }
  }

  /** Empty text finds no category and gives an all-zero vector. */
  lemma EmptyTextFindsNothing(prefix: string)
    ensures Found(SkillMapper, CleanText("")) == []
    ensures forall k :: 0 <= k < |SkillCodes| ==> FeatureVector(prefix, Found(SkillMapper, CleanText("")))[k].value == 0
  {
    KeywordsNonEmpty();
    FoundNone(SkillMapper, CleanText(""));
  }

  /** Substring matching ignores word boundaries: `java` inside the longer
      word `javascript` still marks IT. */
  lemma EmbeddedKeywordCounts(a: string, b: string)
    ensures "IT" in Found(SkillMapper, a + "javascript" + b)
  {
    var cleaned := a + "javascript" + b;
    assert cleaned == a + "java" + ("script" + b);
    ContainsInside(a, "java", "script" + b);
    assert SkillMapper[15].code == "IT" && SkillMapper[15].keywords[1] == "java";
    assert Present(SkillMapper[15], cleaned);
    FoundMembers(SkillMapper, cleaned);
  }

  /** The value `reindex` reads for column `name`: that of the column so
      named, or the fill value 0 when there is none. pandas refuses to reindex
      a frame with a repeated column name; here the first such column is
      read, which never matters, since the frames reindexed have distinct
      names (`ModelInputLayout`). */
  function ValueOf(f: Frame, name: string): (v: int)
    ensures name !in Names(f) ==> v == 0
    ensures f != [] && f[0].name == name ==> v == f[0].value
    ensures name in Names(f) ==> exists i :: 0 <= i < |f| && f[i].name == name && v == f[i].value
  {
    if f == [] then 0
    else if f[0].name == name then f[0].value
    else
      assert Names(f[1..]) == Names(f)[1..];
      ValueOf(f[1..], name)
  }

  /** `frame.reindex(columns=cols, fill_value=0)`: exactly the columns `cols`,
      in that order, each with the frame's value or 0. */
  function Reindex(f: Frame, cols: seq<string>): (r: Frame)
    ensures Names(r) == cols
    ensures forall i :: 0 <= i < |cols| ==> r[i].value == ValueOf(f, cols[i])
  {
    seq(|cols|, i requires 0 <= i < |cols| => Column(cols[i], ValueOf(f, cols[i])))
  }

  /** In a frame whose names do not repeat, looking a column up by its name
      gives that column's value. */
  lemma {:induction false} ValueOfAt(f: Frame, i: int)
    requires 0 <= i < |f| && Distinct(Names(f))
    ensures ValueOf(f, f[i].name) == f[i].value
  {
    if i > 0 {
      assert Names(f)[0] != Names(f)[i];
      assert Names(f[1..]) == Names(f)[1..];
      ValueOfAt(f[1..], i - 1);
    }
  }

  /** Reindexing a frame by its own distinct column names changes nothing. */
  lemma ReindexIdentity(f: Frame, cols: seq<string>)
    requires Names(f) == cols && Distinct(cols)
    ensures Reindex(f, cols) == f
  {
    forall i | 0 <= i < |f| ensures Reindex(f, cols)[i] == f[i] {
      ValueOfAt(f, i);
    }
  }

  /** Lines 115-116: concatenate the two one-row frames side by side, then
      reindex to `ALL_FEATURE_COLS`. */
  function ModelInput(resume: Frame, job: Frame): (input: Frame)
    ensures Names(input) == AllFeatureCols()
  {
    Reindex(resume + job, AllFeatureCols())
  }

  /** The classifier's input is the resume vector followed by the job vector:
      70 columns, R_c then J_c in taxonomy order, each value taken from its
      own side. The reindex step keeps every value and never fills one in. */
  lemma ModelInputLayout(resumeCats: seq<string>, jobCats: seq<string>)
    ensures var input := ModelInput(FeatureVector("R", resumeCats), FeatureVector("J", jobCats));
      && input == FeatureVector("R", resumeCats) + FeatureVector("J", jobCats)
      && |input| == 70
      && forall k :: 0 <= k < |SkillCodes| ==>
           input[k] == Column(ColumnName("R", SkillCodes[k]), if SkillCodes[k] in resumeCats then 1 else 0) &&
           input[|SkillCodes| + k] == Column(ColumnName("J", SkillCodes[k]), if SkillCodes[k] in jobCats then 1 else 0)
  {
    var both := FeatureVector("R", resumeCats) + FeatureVector("J", jobCats);
    AllFeatureColsLayout();
    assert Names(both) == AllFeatureCols();
    ReindexIdentity(both, AllFeatureCols());
  }

  /** As written, the ANLS keyword `scikit-learn` never matches: its hyphen is
      deleted from the text before matching, so ANLS is found only through its
      other ten keywords, even for a text that says `scikit-learn`. */
  lemma ScikitLearnNeverMatches(text: string)
    ensures SkillMapper[3].keywords[9] == "scikit-learn"
    ensures !Contains(CleanText(text), SkillMapper[3].keywords[9])
    ensures Present(SkillMapper[3], CleanText(text)) <==>
      exists j :: 0 <= j < |SkillMapper[3].keywords| && j != 9 &&
        Contains(CleanText(text), SkillMapper[3].keywords[j])
  {
    var kw := SkillMapper[3].keywords[9];
    assert kw[6] == '-';
    CleanedNeverContains(text, kw, 6);
  }

  /** Cleaning turns the source's keyword into the corrected one. The keyword
      is a parameter pinned by the precondition rather than a literal in the
      conclusion, so that the verifier does not evaluate the cleaning of the
      literal character by character, which it cannot do within its budget. */
  lemma CleanScikitLearn(kw: string)
    requires kw == "scikit-learn"
    ensures CleanText(kw) == "scikitlearn"
  {
    assert kw == "scikit" + ['-'] + "learn";
    assert AllAllowed("scikit") && AllAllowed("learn");
    CleanJoinsAround("scikit", '-', "learn");
  }

  /** A text that mentions `scikit-learn`, in any case, contains
      `scikitlearn` once cleaned. */
  lemma ScikitLearnCleaned(text: string, a: string, b: string)
    requires LowerText(text) == a + "scikit-learn" + b
    ensures Contains(CleanText(text), "scikitlearn")
  {
    MentionSurvivesCleaning(text, a, "scikit-learn", b);
    CleanScikitLearn("scikit-learn");
  }

  /** With the corrected map, a text that mentions `scikit-learn`, in any
      case and anywhere, is found to be ANLS. */
  lemma ScikitLearnMarksAnalysis(text: string, a: string, b: string)
    requires LowerText(text) == a + "scikit-learn" + b
    ensures "ANLS" in Found(CorrectedSkillMapper, CleanText(text))
  {
    ScikitLearnCleaned(text, a, b);
    SkillMapperRepairsOneKeyword();
    KeywordMarks(CorrectedSkillMapper, 3, 9, CleanText(text));
  }

  /** Two maps with the same distinct codes that differ only in the category
      at index `i` find the same codes everywhere else. */
  lemma FoundAgreesOutside(m: seq<Category>, m': seq<Category>, i: int, cleaned: string)
    requires |m| == |m'| && 0 <= i < |m| && Codes(m) == Codes(m') && Distinct(Codes(m))
    requires forall k :: 0 <= k < |m| && k != i ==> m[k] == m'[k]
    ensures forall k :: 0 <= k < |m| && k != i ==>
      (m[k].code in Found(m', cleaned) <==> m[k].code in Found(m, cleaned))
    ensures m[i].code in Found(m, cleaned) <==> Present(m[i], cleaned)
    ensures m[i].code in Found(m', cleaned) <==> Present(m'[i], cleaned)
  {
    FoundExactly(m, cleaned);
    FoundExactly(m', cleaned);
    assert m[i].code == Codes(m)[i] == Codes(m')[i] == m'[i].code;
  }

  /** Replacing a keyword that does not occur in the text by one that does
      not matter elsewhere: the new list matches exactly when the old one does
      or the new keyword occurs. */
  lemma AnyKeywordReplaced(before: seq<string>, after: seq<string>, i: int, cleaned: string)
    requires |before| == |after| && 0 <= i < |before|
    requires forall j :: 0 <= j < |before| && j != i ==> before[j] == after[j]
    requires !Contains(cleaned, before[i])
    ensures AnyKeyword(after, cleaned) <==> AnyKeyword(before, cleaned) || Contains(cleaned, after[i])
  {
    if AnyKeyword(after, cleaned) && !Contains(cleaned, after[i]) {
      var j :| 0 <= j < |after| && Contains(cleaned, after[j]);
      assert before[j] == after[j];
    }
    if AnyKeyword(before, cleaned) {
      var j :| 0 <= j < |before| && Contains(cleaned, before[j]);
      assert before[j] == after[j];
    }
  }

  /** On cleaned text, the corrected ANLS entry is present exactly when the
      source's is or the text contains `scikitlearn`. */
  lemma CorrectedAnalysisPresent(text: string)
    ensures Present(CorrectedSkillMapper[3], CleanText(text)) <==>
      Present(SkillMapper[3], CleanText(text)) || Contains(CleanText(text), "scikitlearn")
  {
    SkillMapperRepairsOneKeyword();
    ScikitLearnNeverMatches(text);
    AnyKeywordReplaced(SkillMapper[3].keywords, CorrectedSkillMapper[3].keywords, 9, CleanText(text));
  }

  /** The correction changes nothing else: on any cleaned text the corrected
      map finds every category other than ANLS exactly when `SKILL_MAPPER`
      does, and finds ANLS when `SKILL_MAPPER` does or the text contains
      `scikitlearn`. */
  lemma CorrectionOnlyAddsScikitLearn(text: string)
    ensures forall k :: 0 <= k < |SkillCodes| && k != 3 ==>
      (SkillCodes[k] in Found(CorrectedSkillMapper, CleanText(text)) <==>
       SkillCodes[k] in Found(SkillMapper, CleanText(text)))
    ensures "ANLS" in Found(CorrectedSkillMapper, CleanText(text)) <==>
      "ANLS" in Found(SkillMapper, CleanText(text)) || Contains(CleanText(text), "scikitlearn")
  {
    SkillMapperFollowsSkillCodes();
    SkillCodesDistinct();
    SkillMapperRepairsOneKeyword();
    FoundAgreesOutside(SkillMapper, CorrectedSkillMapper, 3, CleanText(text));
    CorrectedAnalysisPresent(text);
  }
}
