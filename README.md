# Job matcher core: text cleaning, skill features and the score guardrail

This is a Dafny model of the deterministic core of the "Intelligent Job
Recommendation Engine" Streamlit app (`notebooks/app.py`). The app turns a
resume and a job description into category features, asks a pre-trained
classifier for a match probability, and then corrects that probability with an
overlap-based guardrail. The model covers these pieces:

- `Text`: `clean_text`. It lower-cases the text and deletes every character
  outside `a-z`, `0-9` and whitespace. It also has Python's substring test
  `kw in text`.
- `Taxonomy`: the 35 ordered codes `SKILL_CODES`, the keyword map
  `SKILL_MAPPER` (an ordered list, as a Python dict iterates), and the 70-column
  order `ALL_FEATURE_COLS`.
- `Features`: `extract_features`, as the method `ExtractFeatures`. It cleans
  the text, calls the method `FindCategories`, whose loop walks the keyword map
  and appends each category that has a matching keyword, and builds the 0/1
  vector. `FindCategories` is proved against the specification function
  `Found`. The module also has the `pd.concat` + `reindex` step that produces
  the classifier's input.
- `Guardrail`: the in-place `final_score` adjustment. It is lifted out of the
  button handler as the method `Adjust`, proved against the tier function
  `FinalScore`, with exact `real` arithmetic.
- `Matcher`: the button handler's analysis. The classifier is passed in as a
  function from the input frame to a probability.

Three points of the code shape the model:
- An empty resume or job text shows "Inputs missing!" and computes nothing
  (`notebooks/app.py:108`, `:144-145`). No score and no critical mismatch are
  produced for it.
- With an empty overlap the code raises the critical-mismatch alert and also
  shows "Partial or Weak" (`notebooks/app.py:124-136`). With an overlap of two
  or more and a score of 70 or less it shows "Partial or Weak" too. So the
  model has an alert flag and a two-valued verdict, not a single label.
- The code does not check that the probability lies in [0, 1]. `Adjust` has no
  precondition. The range and verdict lemmas assume the range.

Keywords are matched with `SKILL_MAPPER` exactly as the source writes it
(`Taxonomy.SkillMapper`), including its one keyword that can never match (see
"## Findings").

## Model

| member | source | states |
|---|---|---|
| Text.CleanText | notebooks/app.py:72-74 | every character of the cleaned text is in `a-z`, `0-9` or whitespace, and it is no longer than the input |
| Text.CleanAppend | notebooks/app.py:72-74 | cleaning distributes over concatenation: `clean(a + b) == clean(a) + clean(b)` |
| Text.CleanAround | notebooks/app.py:72-74 | each character is cleaned on its own and in place: it becomes its lower-case form if that is allowed, or nothing; the text around it keeps its order |
| Text.CleanJoinsAround | notebooks/app.py:74 | a deleted character between two clean words joins them (`scikit-learn` becomes `scikitlearn`) |
| Text.CleanFixpoint | notebooks/app.py:72-74 | cleaning leaves a text unchanged if and only if all its characters are allowed |
| Text.CleanIdempotent | notebooks/app.py:72-74 | cleaning twice equals cleaning once |
| Text.CleanKeepsWhitespaceRun | notebooks/app.py:74 | a run of whitespace survives cleaning exactly, with no collapsing |
| Text.CleanIgnoresCase | notebooks/app.py:73 | lower-casing before cleaning changes nothing |
| Text.Contains | notebooks/app.py:80 | `kw in text` holds if and only if `kw` occurs at some position of `text` as a contiguous slice |
| Text.ContainsInside | notebooks/app.py:80 | a keyword placed anywhere inside a text is contained in it |
| Text.CleanedNeverContains | notebooks/app.py:74-80 | a keyword with a character that cleaning deletes is never contained in any cleaned text |
| Text.MentionSurvivesCleaning | notebooks/app.py:72-80 | a phrase the text mentions, in any case, occurs in cleaned form in the cleaned text |
| Taxonomy.SkillMapperFollowsSkillCodes | notebooks/app.py:12-54 | there are 35 codes, and `SKILL_MAPPER` iterates its codes in exactly the `SKILL_CODES` order, as does the corrected map |
| Taxonomy.SkillCodesDistinct | notebooks/app.py:12-15 | no code appears twice in `SKILL_CODES` |
| Taxonomy.KeywordsNonEmpty | notebooks/app.py:18-54 | no keyword is the empty phrase, which would match every text |
| Taxonomy.SharedKeywords | notebooks/app.py:21-52 | `advertising` belongs to ADVR and MRKT, `market research` to MRKT and RSCH, and `logistics` to SUPL and TRNS |
| Taxonomy.SkillMapperRepairsOneKeyword | notebooks/app.py:18-54 | the corrected map equals `SKILL_MAPPER` except for ANLS's `scikit-learn`, which becomes `scikitlearn` |
| Taxonomy.ColumnName | notebooks/app.py:83 | the column name is the prefix, an underscore and the code |
| Taxonomy.PrefixedNames | notebooks/app.py:57 | one column name per code, in code order |
| Taxonomy.ColumnNameInjective | notebooks/app.py:57 | two column names with one-letter prefixes are equal if and only if prefixes and codes are |
| Taxonomy.PrefixedPairDistinct | notebooks/app.py:57 | for distinct codes, the R_ names followed by the J_ names never repeat |
| Taxonomy.AllFeatureColsLayout | notebooks/app.py:57 | `ALL_FEATURE_COLS` has 70 distinct names: `R_c` at position k and `J_c` at position 35 + k |
| Features.AnyKeyword | notebooks/app.py:80 | `any(kw in cleaned for kw in keywords)` holds if and only if some keyword of the list is contained in the text |
| Features.FoundMembers | notebooks/app.py:78-81 | every listed code belongs to a category with a matching keyword, and every such category's code is listed |
| Features.FoundExactly | notebooks/app.py:78-81 | with distinct codes, a code is listed if and only if its own category has a matching keyword |
| Features.KeywordMarks | notebooks/app.py:80-81 | one matching keyword is enough to list its category |
| Features.FoundInOrder | notebooks/app.py:78-81 | the list of found codes is a subsequence of the map's codes, so it keeps their order |
| Features.SubsequenceDistinct | notebooks/app.py:78-81 | a subsequence of a sequence without repeats has no repeats and only elements of that sequence |
| Features.FoundNone | notebooks/app.py:79-81 | when no category has a matching keyword, nothing is found |
| Features.FindCategories | notebooks/app.py:78-82 | walking any keyword map in order yields exactly `Found` of that map over the cleaned text |
| Features.ExtractFeatures | notebooks/app.py:76-84 | the found list is `Found` over the cleaned text; the vector has one column `prefix_code` per code in `SKILL_CODES` order, valued 1 if that code's category has a matching keyword and an explicit 0 otherwise |
| Features.FeatureVectorMarks | notebooks/app.py:83 | column k of the vector is named `prefix_code` for the k-th code and holds 1 exactly when that category has a matching keyword, 0 otherwise |
| Features.FoundFollowsSkillCodes | notebooks/app.py:12-54 | the found categories have no repeats and follow the `SKILL_CODES` order |
| Features.SharedKeywordMarksBoth | notebooks/app.py:79-81 | a text containing `advertising` marks both ADVR and MRKT; one containing `logistics` marks both SUPL and TRNS |
| Features.EmptyTextFindsNothing | notebooks/app.py:79-83 | empty text finds no category and yields an all-zero vector |
| Features.EmbeddedKeywordCounts | notebooks/app.py:80 | matching ignores word boundaries: `java` inside `javascript` marks IT |
| Features.Names | notebooks/app.py:116 | the frame's column names, one per column, in order |
| Features.ValueOf | notebooks/app.py:116 | a column missing from the frame reads as the fill value 0; a name present reads as the value of a column with that name, the one at the front if it is there (only frames with distinct names are reindexed) |
| Features.Reindex | notebooks/app.py:116 | the reindexed frame has exactly the requested columns, in the requested order, each holding the frame's value for that name or the fill value 0 |
| Features.ValueOfAt | notebooks/app.py:116 | in a frame without repeated names, looking up a column's name gives that column's value |
| Features.ReindexIdentity | notebooks/app.py:116 | reindexing a frame by its own distinct names changes nothing |
| Features.ModelInput | notebooks/app.py:115-116 | the classifier's input has exactly the columns of `ALL_FEATURE_COLS` |
| Features.ModelInputLayout | notebooks/app.py:115-116 | the input is the resume vector followed by the job vector: 70 columns, each valued from its own side's categories, with nothing filled in |
| Features.ScikitLearnNeverMatches | notebooks/app.py:22 | as written, the keyword `scikit-learn` never matches any cleaned text, so ANLS is found only through its other ten keywords |
| Features.CleanScikitLearn | notebooks/app.py:22 | the cleaned form of `scikit-learn` is `scikitlearn` |
| Features.ScikitLearnCleaned | notebooks/app.py:72-74 | a text that mentions `scikit-learn`, in any case, contains `scikitlearn` once cleaned |
| Features.ScikitLearnMarksAnalysis | notebooks/app.py:22 | with the corrected map, any text that mentions `scikit-learn` is found to be ANLS |
| Features.FoundAgreesOutside | notebooks/app.py:78-81 | two maps with the same distinct codes that differ in one category find the same codes outside it |
| Features.AnyKeywordReplaced | notebooks/app.py:80 | replacing a keyword absent from the text by another, the list matches exactly when it did before or the new keyword occurs |
| Features.CorrectedAnalysisPresent | notebooks/app.py:22 | on cleaned text the corrected ANLS entry matches exactly when the source's does or the text contains `scikitlearn` |
| Features.CorrectionOnlyAddsScikitLearn | notebooks/app.py:18-54 | on any cleaned text the corrected map finds every other category exactly when `SKILL_MAPPER` does, and ANLS when `SKILL_MAPPER` does or the text contains `scikitlearn` |
| Guardrail.SetOf | notebooks/app.py:122 | `set(cats)` has exactly the elements of the list |
| Guardrail.Multiplier | notebooks/app.py:124-128 | every penalty multiplier is in (0, 1] |
| Guardrail.VerdictOf | notebooks/app.py:133-136 | the verdict is strong if and only if the score is above 70 |
| Guardrail.Adjust | notebooks/app.py:119-136 | the overlap is the intersection of the two category sets; the score is the base score times the overlap's tier; the alert is raised if and only if the overlap is empty; the verdict follows the score |
| Guardrail.Tiers | notebooks/app.py:124-128 | exactly one tier applies: 0.10 of the base score with no overlap, 0.50 with one shared category, the base score with two or more |
| Guardrail.ScoreInRange | notebooks/app.py:119-128 | for a probability in [0, 1] the score is in [0, 100], never above the base score, and at most 10 with no overlap |
| Guardrail.ScoreMonotone | notebooks/app.py:124-128 | for a non-negative probability the score never falls as the overlap grows |
| Guardrail.StrongExactly | notebooks/app.py:119-136 | for a probability in [0, 1] the verdict is strong if and only if at least two categories are shared and the probability is above 0.7 |
| Guardrail.ScenarioDisjoint | notebooks/app.py:119-136 | probability 0.90 with IT against FIN gives no overlap, score 9, the alert, and no strong verdict |
| Guardrail.ScenarioOneShared | notebooks/app.py:119-136 | probability 0.90 with IT, MGMT against IT gives overlap {IT}, score 45, and no strong verdict |
| Guardrail.ScenarioTwoShared | notebooks/app.py:119-136 | probability 0.95 with IT, MGMT on both sides gives overlap 2, score 95, and a strong verdict |
| Matcher.Analyze | notebooks/app.py:107-136 | it reports missing inputs if and only if either text is empty; otherwise it gives the categories of both sides, the 70-column input, the classifier's answer on that input and the guardrail's result, and, for a classifier answer in [0, 1], the score in [0, 100] and the verdict strong exactly for two or more shared categories and a probability above 0.7 |

## Findings

| source | as written | input that shows it | evidently intended | confidence | as-written member | corrected member |
|---|---|---|---|---|---|---|
| notebooks/app.py:22 | ANLS lists the keyword `scikit-learn`, but matching runs on the output of `clean_text` (line 74), which has already deleted every `-` | a resume whose only analysis keyword is "Scikit-Learn": it cleans to `scikitlearn`, the keyword never matches, and ANLS is not found | a text that mentions scikit-learn marks ANLS, as every other keyword does for its category | high (not executed) | Features.ScikitLearnNeverMatches | Features.ScikitLearnMarksAnalysis |

The corrected map `Taxonomy.CorrectedSkillMapper` equals `SKILL_MAPPER` except
that this one keyword is written `scikitlearn`
(`Taxonomy.SkillMapperRepairsOneKeyword`); it finds the same categories as
`SKILL_MAPPER` on every cleaned text, except that it also finds ANLS for a text
containing `scikitlearn` (`Features.CorrectionOnlyAddsScikitLearn`). The
operations themselves (`Features.ExtractFeatures`, `Matcher.Analyze`) match
with `SKILL_MAPPER` as written.

## Left out

- Streamlit layout, widgets and messages (`notebooks/app.py:9`, `:88-106`, `:130-131`, `:138-145`): presentation only. The verdict and the critical-mismatch alert are kept as values.
- PDF text extraction with `pdfplumber` (`notebooks/app.py:68-70`, `:97-99`): a foreign library doing I/O. The resume arrives as text.
- Loading the pickled model (`notebooks/app.py:61-66`) and `model.predict_proba` (`notebooks/app.py:118`): an opaque external classifier. `Matcher.Analyze` takes it as a function parameter.
- pandas DataFrame mechanics: a one-row frame is a sequence of named columns. Only the column names, their order and their values are modelled.
- Floating point: scores are exact reals, while the app computes them in IEEE doubles, so a score within rounding of 70 can fall on the other side of the threshold. For the probability 0.7000000000000001 (the next double after 0.7) with two shared categories, the exact score is above 70 and the model's verdict is strong, but the double product `p * 100` rounds to exactly 70.0 and the app shows "Partial or Weak".
- Display rounding `round(final_score, 1)` (`notebooks/app.py:131`) and the catch-all exception handler (`notebooks/app.py:142-143`): display and error formatting.
- `str(text)` (`notebooks/app.py:73`): the inputs are already strings.
- Text.Lower: lower-cases ASCII `A-Z` only. Python's `str.lower()` maps all of Unicode, and a few non-ASCII characters (such as U+0130 and the Kelvin sign U+212A) lower-case into ASCII letters, which cleaning would then keep.
- Text.CleanText: inherits the ASCII-only lower-casing of `Text.Lower`. Its whitespace class is the explicit character set that Python's `str.isspace()` accepts.
