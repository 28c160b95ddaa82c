/** The fixed skill taxonomy: the 35 ordered codes `SKILL_CODES`
    (notebooks/app.py:12-15), the keyword map `SKILL_MAPPER`
    (notebooks/app.py:18-54) and the classifier's column order
    `ALL_FEATURE_COLS` (notebooks/app.py:57). */
module Taxonomy {
  import opened Text

  /** One entry of `SKILL_MAPPER`: a category code and its keyword phrases.
      The Python dict keeps insertion order, so the map is an ordered list. */
  datatype Category = Category(code: string, keywords: seq<string>)

  /** No element of `s` appears twice. */
  predicate Distinct<T(==)>(s: seq<T>) {
    forall i, j :: 0 <= i < j < |s| ==> s[i] != s[j]
  }

  /** The codes of a keyword map, in its iteration order. */
  function Codes(m: seq<Category>): (r: seq<string>)
    ensures |r| == |m|
    ensures forall k :: 0 <= k < |m| ==> r[k] == m[k].code
  {
    seq(|m|, k requires 0 <= k < |m| => m[k].code)
  }

  /** `SKILL_CODES`: the order of the training features. */
  const SkillCodes: seq<string> :=
    ["ACCT", "ADM", "ADVR", "ANLS", "ART", "BD", "CNST", "DSGN", "EDCN", "ENG",
     "FASH", "FIN", "GENB", "HCPR", "HR", "IT", "LGL", "MGMT", "MNFC", "MRKT",
     "OTHR", "PR", "PRJM", "PROD", "PRSR", "QA", "REAL", "RSCH", "SALE", "SCI",
     "SPRT", "SUPL", "TECH", "TRNS", "WRT"]

  /** `SKILL_MAPPER`, keywords exactly as written. */
  const SkillMapper: seq<Category> := [
    Category("ACCT", ["accounting", "audit", "tax", "ledger", "reconciliation", "cpa", "billing"]),
    Category("ADM", ["administration", "office", "clerical", "data entry", "receptionist", "filing"]),
    Category("ADVR", ["advertising", "media planning", "campaigns", "copywriting", "ad strategy"]),
    Category("ANLS", ["data analysis", "statistics", "power bi", "tableau", "excel", "modeling", "insights", "pandas", "numpy", "scikit-learn", "r programming"]),
    Category("ART", ["graphic design", "illustration", "creative direction", "fine arts", "visuals"]),
    Category("BD", ["business development", "partnerships", "prospecting", "growth", "networking"]),
    Category("CNST", ["construction", "civil engineering", "building", "safety", "site management"]),
    Category("DSGN", ["ui ux", "product design", "figma", "sketch", "adobe xd", "prototyping"]),
    Category("EDCN", ["education", "teaching", "training", "curriculum", "mentoring", "pedagogy"]),
    Category("ENG", ["engineering", "mechanical", "electrical", "structural", "cad", "blueprints"]),
    Category("FASH", ["fashion", "apparel", "textiles", "merchandising", "styling", "garment"]),
    Category("FIN", ["finance", "investment", "banking", "portfolio", "equity", "trading", "valuation"]),
    Category("GENB", ["general business", "operations", "entrepreneurship", "commerce", "business admin"]),
    Category("HCPR", ["healthcare", "medical", "patient care", "clinical", "nursing", "diagnosis"]),
    Category("HR", ["human resources", "recruitment", "payroll", "onboarding", "employee relations"]),
    Category("IT", ["python", "java", "sql", "tensorflow", "pytorch", "aws", "cloud", "software", "machine learning", "deep learning", "neural networks"]),
    Category("LGL", ["legal", "law", "contract", "paralegal", "compliance", "litigation", "attorney"]),
    Category("MGMT", ["leadership", "management", "agile", "scrum", "strategy", "decision making"]),
    Category("MNFC", ["manufacturing", "production line", "assembly", "quality control", "lean"]),
    Category("MRKT", ["seo", "sem", "branding", "marketing", "social media", "content strategy", "advertising", "market research"]),
    Category("OTHR", ["general", "miscellaneous", "other"]),
    Category("PR", ["public relations", "press release", "communications", "media relations"]),
    Category("PRJM", ["project management", "pmp", "milestone", "resource planning", "gantt"]),
    Category("PROD", ["product management", "roadmap", "user stories", "product lifecycle"]),
    Category("PRSR", ["customer service", "hospitality", "support", "client relations"]),
    Category("QA", ["quality assurance", "testing", "automation", "manual testing", "bugs"]),
    Category("REAL", ["real estate", "property", "leasing", "mortgage", "broker", "housing"]),
    Category("RSCH", ["research", "market research", "survey", "investigation", "methodology"]),
    Category("SALE", ["sales", "crm", "account management", "negotiation", "closing", "leads"]),
    Category("SCI", ["science", "laboratory", "biology", "chemistry", "physics", "biotech"]),
    Category("SPRT", ["sports", "fitness", "coaching", "athletics", "physical education"]),
    Category("SUPL", ["supply chain", "logistics", "inventory", "procurement", "shipping"]),
    Category("TECH", ["technical support", "troubleshooting", "hardware", "it infrastructure"]),
    Category("TRNS", ["transportation", "logistics", "fleet", "delivery", "supply chain management"]),
    Category("WRT", ["writing", "editing", "content creation", "blogging", "journalism"])
  ]

  /** `SKILL_MAPPER` with its one keyword that contains a character cleaning
      deletes, `scikit-learn` of ANLS, written the way it appears in cleaned
      text. Only the corrected half of the scikit-learn finding uses it. */
  const CorrectedSkillMapper: seq<Category> :=
    SkillMapper[3 := Category("ANLS", SkillMapper[3].keywords[9 := "scikitlearn"])]

  /** The corrected map differs from the source's in that one keyword only. */
  lemma SkillMapperRepairsOneKeyword()
    ensures |CorrectedSkillMapper| == |SkillMapper|
    ensures SkillMapper[3].code == "ANLS" && SkillMapper[3].keywords[9] == "scikit-learn"
    ensures CorrectedSkillMapper[3].code == "ANLS" && CorrectedSkillMapper[3].keywords[9] == "scikitlearn"
    ensures forall k :: 0 <= k < |SkillMapper| && k != 3 ==> CorrectedSkillMapper[k] == SkillMapper[k]
    ensures |CorrectedSkillMapper[3].keywords| == |SkillMapper[3].keywords|
    ensures forall j :: 0 <= j < |SkillMapper[3].keywords| && j != 9 ==>
      CorrectedSkillMapper[3].keywords[j] == SkillMapper[3].keywords[j]
  {
  }

  /** `SKILL_MAPPER` iterates its codes in the `SKILL_CODES` order, and the
      correction keeps every code. */
  lemma SkillMapperFollowsSkillCodes()
    ensures |SkillCodes| == 35
    ensures Codes(SkillMapper) == SkillCodes
    ensures Codes(CorrectedSkillMapper) == SkillCodes
  {
    SourceCodes();
    SkillMapperRepairsOneKeyword();
    assert forall k :: 0 <= k < 35 ==> Codes(CorrectedSkillMapper)[k] == Codes(SkillMapper)[k];
  }

  lemma SourceCodes()
    ensures |SkillCodes| == 35
    ensures Codes(SkillMapper) == SkillCodes
  {
  }

  /** No code appears twice in `SKILL_CODES`. The codes before MGMT start
      with a letter up to L and the rest with M or later, so each half is
      checked on its own. */
  lemma SkillCodesDistinct()
    ensures Distinct(SkillCodes)
  {
    CodesDistinctWithin(0, 17);
    CodesDistinctWithin(17, 35);
    CodesInitials();
  }

  /** The two halves are one lemma with two admitted ranges: a single
      statement over all 35 codes compares 595 pairs of literals at once,
      which is more than the verifier handles reliably. */
  lemma CodesDistinctWithin(lo: int, hi: int)
    requires (lo, hi) == (0, 17) || (lo, hi) == (17, 35)
    ensures forall i, j :: lo <= i < j < hi ==> SkillCodes[i] != SkillCodes[j]
  {
  }

  lemma CodesInitials()
    ensures forall i :: 0 <= i < 17 ==> SkillCodes[i] != [] && SkillCodes[i][0] <= 'L'
    ensures forall i :: 17 <= i < 35 ==> SkillCodes[i] != [] && SkillCodes[i][0] >= 'M'
  {
  }

  /** No keyword is the empty phrase (Python's `'' in text` would hold for
      every text). */
  lemma KeywordsNonEmpty()
    ensures forall k, j :: 0 <= k < |SkillMapper| && 0 <= j < |SkillMapper[k].keywords| ==>
      SkillMapper[k].keywords[j] != []
  {
    KeywordsNonEmptyACCTtoENG();
    KeywordsNonEmptyFASHtoLGL();
    KeywordsNonEmptyMGMTtoQA();
    KeywordsNonEmptyREALtoWRT();
  }

  // The keyword lists are checked in four ranges of categories, each its own
  // proof obligation, because one statement over all 35 categories' literal
  // keywords is more than the verifier handles reliably.

  lemma KeywordsNonEmptyACCTtoENG()
    ensures forall k, j :: 0 <= k < 10 && 0 <= j < |SkillMapper[k].keywords| ==>
      SkillMapper[k].keywords[j] != []
  {
  }

  lemma KeywordsNonEmptyFASHtoLGL()
    ensures forall k, j :: 10 <= k < 17 && 0 <= j < |SkillMapper[k].keywords| ==>
      SkillMapper[k].keywords[j] != []
  {
  }

  lemma KeywordsNonEmptyMGMTtoQA()
    ensures forall k, j :: 17 <= k < 26 && 0 <= j < |SkillMapper[k].keywords| ==>
      SkillMapper[k].keywords[j] != []
  {
  }

  lemma KeywordsNonEmptyREALtoWRT()
    ensures forall k, j :: 26 <= k < 35 && 0 <= j < |SkillMapper[k].keywords| ==>
      SkillMapper[k].keywords[j] != []
  {
  }

  /** The keywords that two categories share: `advertising` (ADVR, MRKT),
      `market research` (MRKT, RSCH) and `logistics` (SUPL, TRNS). */
  lemma SharedKeywords()
    ensures SkillMapper[2].code == "ADVR" && "advertising" in SkillMapper[2].keywords
    ensures SkillMapper[19].code == "MRKT" && "advertising" in SkillMapper[19].keywords
    ensures "market research" in SkillMapper[19].keywords
    ensures SkillMapper[27].code == "RSCH" && "market research" in SkillMapper[27].keywords
    ensures SkillMapper[31].code == "SUPL" && "logistics" in SkillMapper[31].keywords
    ensures SkillMapper[33].code == "TRNS" && "logistics" in SkillMapper[33].keywords
  {
    SharedAdvertising();
    SharedMarketResearch();
    SharedLogistics();
  }

  // Each shared keyword is located by its index, one lemma per keyword, for
  // the same reason as the split above.

  lemma SharedAdvertising()
    ensures SkillMapper[2].code == "ADVR" && SkillMapper[2].keywords[0] == "advertising"
    ensures SkillMapper[19].code == "MRKT" && SkillMapper[19].keywords[6] == "advertising"
  {
  }

  lemma SharedMarketResearch()
    ensures SkillMapper[19].keywords[7] == "market research"
    ensures SkillMapper[27].code == "RSCH" && SkillMapper[27].keywords[1] == "market research"
  {
  }

  lemma SharedLogistics()
    ensures SkillMapper[31].code == "SUPL" && SkillMapper[31].keywords[1] == "logistics"
    ensures SkillMapper[33].code == "TRNS" && SkillMapper[33].keywords[1] == "logistics"
  {
  }

  /** The name of a feature column: `f'{prefix}_{code}'`. */
  function ColumnName(prefix: string, code: string): (n: string)
    ensures |n| == |prefix| + 1 + |code|
    ensures n[..|prefix|] == prefix && n[|prefix|] == '_' && n[|prefix| + 1..] == code
  {
    prefix + "_" + code
  }

  /** `[f'{prefix}_{c}' for c in codes]`. */
  function PrefixedNames(prefix: string, codes: seq<string>): (r: seq<string>)
    ensures |r| == |codes|
    ensures forall k :: 0 <= k < |codes| ==> r[k] == ColumnName(prefix, codes[k])
  {
    seq(|codes|, k requires 0 <= k < |codes| => ColumnName(prefix, codes[k]))
  }

  /** `ALL_FEATURE_COLS`: every R_ column in taxonomy order, then every J_
      column in taxonomy order. */
  function AllFeatureCols(): seq<string> {
    PrefixedNames("R", SkillCodes) + PrefixedNames("J", SkillCodes)
  }

  /** Two column names with one-character prefixes are equal exactly when
      their prefixes and their codes are. */
  lemma ColumnNameInjective(p: string, a: string, q: string, b: string)
    requires |p| == 1 && |q| == 1
    ensures ColumnName(p, a) == ColumnName(q, b) <==> p == q && a == b
  {
    if ColumnName(p, a) == ColumnName(q, b) {
      assert p == ColumnName(p, a)[..1] == ColumnName(q, b)[..1] == q;
      assert a == ColumnName(p, a)[2..] == ColumnName(q, b)[2..] == b;
    }
  }

  /** R_ names followed by J_ names of distinct codes never repeat. */
  lemma PrefixedPairDistinct(codes: seq<string>)
    requires Distinct(codes)
    ensures Distinct(PrefixedNames("R", codes) + PrefixedNames("J", codes))
  {
    var cols := PrefixedNames("R", codes) + PrefixedNames("J", codes);
    var n := |codes|;
    forall i, j | 0 <= i < j < |cols| ensures cols[i] != cols[j] {
      var p, a := if i < n then "R" else "J", codes[if i < n then i else i - n];
      var q, b := if j < n then "R" else "J", codes[if j < n then j else j - n];
      assert cols[i] == ColumnName(p, a) && cols[j] == ColumnName(q, b);
      ColumnNameInjective(p, a, q, b);
    }
  }

  /** The classifier sees 70 distinct columns: R_c at position k and J_c at
      position 35 + k, where c is the k-th code. */
  lemma AllFeatureColsLayout()
    ensures |AllFeatureCols()| == 2 * |SkillCodes| == 70
    ensures forall k :: 0 <= k < |SkillCodes| ==>
      AllFeatureCols()[k] == ColumnName("R", SkillCodes[k]) &&
      AllFeatureCols()[|SkillCodes| + k] == ColumnName("J", SkillCodes[k])
    ensures Distinct(AllFeatureCols())
  {
    SkillCodesDistinct();
    PrefixedPairDistinct(SkillCodes);
  }
}
