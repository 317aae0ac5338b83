/** The deterministic part of the Python scoring service: the lexical rubric
    helpers, the request checks of the `/score` endpoint and its 70/30
    aggregation into a response. What the language models, the tokenizer and
    the page parser return is taken as given (`MlSignals`, the token list,
    the preprocessed text and the fetched article text). Python's
    `round(x, n)` is `Round2`/`Round4`, exact round-half-even on reals. */
module PyService {
  import opened TextOps
  import opened Api

  // ---------------------------------------------------------------------
  // Count penalties: `1 - min(1, count / per)`

  /** The share of `per` hits still missing, a score that falls from 1 to 0
      as the count rises to `per`. */
  function Penalty(count: nat, per: real): (r: real)
    requires per > 0.0
    ensures 0.0 <= r <= 1.0
    ensures count == 0 ==> r == 1.0
    ensures count as real >= per ==> r == 0.0
    ensures count as real < per ==> r == 1.0 - count as real / per
  {
    1.0 - Min(1.0, count as real / per)
  }

  /** More hits never raise the score. */
  lemma PenaltyNonIncreasing(a: nat, b: nat, per: real)
    requires per > 0.0 && a <= b
    ensures Penalty(b, per) <= Penalty(a, per)
  {
    assert a as real / per <= b as real / per;
  }

  // ---------------------------------------------------------------------
  // `detect_bias` and `detect_extreme_statements` over the tokens of the
  // lower-cased text

  const BiasKeywords: set<string> := {"always", "never", "completely", "totally", "only"}
  const ExtremeKeywords: set<string> := {"worst", "best", "amazing", "horrible"}

  /** Tokens that are keywords, each occurrence counted. */
  function KeywordCount(tokens: seq<string>, keys: set<string>): (n: nat)
    ensures n <= |tokens|
    ensures n == 0 <==> forall i :: 0 <= i < |tokens| ==> tokens[i] !in keys
  {
    if tokens == [] then 0
    else
      var rest := KeywordCount(tokens[1..], keys);
      assert forall i :: 1 <= i < |tokens| ==> tokens[i] == tokens[1..][i - 1];
      (if tokens[0] in keys then 1 else 0) + rest
  }

  function DetectBias(tokens: seq<string>): (r: real)
    ensures 0.0 <= r <= 1.0
    ensures r == 1.0 <==> forall i :: 0 <= i < |tokens| ==> tokens[i] !in BiasKeywords
    ensures KeywordCount(tokens, BiasKeywords) >= 10 ==> r == 0.0
  {
    Penalty(KeywordCount(tokens, BiasKeywords), 10.0)
  }

  function DetectExtremeStatements(tokens: seq<string>): (r: real)
    ensures 0.0 <= r <= 1.0
    ensures r == 1.0 <==> forall i :: 0 <= i < |tokens| ==> tokens[i] !in ExtremeKeywords
    ensures KeywordCount(tokens, ExtremeKeywords) >= 5 ==> r == 0.0
  {
    Penalty(KeywordCount(tokens, ExtremeKeywords), 5.0)
  }

  // ---------------------------------------------------------------------
  // `calculate_objectivity` over the preprocessed text

  /** 0 with no words; otherwise the share of words that are not "ly"/"ive"
      words, which is already within 0..1, so the clamp never binds. */
  function Objectivity(processed: string): (r: real)
    ensures 0.0 <= r <= 1.0
    ensures PyWords(processed) == [] ==> r == 0.0
    ensures var w := PyWords(processed);
            w != [] ==> r == 1.0 - CountWhere(w, AdverbLike) as real / |w| as real
  {
    var words := PyWords(processed);
    if words == [] then 0.0
    else
      var a := CountWhere(words, AdverbLike) as real;
      var n := |words| as real;
      assert 0.0 <= a / n <= 1.0 by { RatioAtMostOne(a, n); }
      Clamp01(1.0 - a / Max(1.0, n))
  }

  lemma RatioAtMostOne(a: real, n: real)
    requires 0.0 <= a <= n && n > 0.0
    ensures 0.0 <= a / n <= 1.0
  {
    assert a / n * n == a;
  }

  // ---------------------------------------------------------------------
  // `calculate_topic_consistency`

  const TopicWords: seq<string> := ["computer", "technology", "politics", "economics", "science", "culture",
    "health", "business"]

  /** The topic words found, lower-cased (case-insensitive matching). */
  function Topics(text: string): seq<string>
  {
    WordHits(Lower(text), TopicWords)
  }

  /** 0 with no topic word; otherwise the share of distinct topics among the
      occurrences, in (0, 1], and 1 exactly when no topic repeats. */
  function TopicConsistency(text: string): (r: real)
    ensures Topics(text) == [] ==> r == 0.0
    ensures Topics(text) != [] ==> 0.0 < r <= 1.0
    ensures r == 1.0 <==> Topics(text) != [] && Distinct(Topics(text))
  {
    DistinctRatio(Topics(text))
  }

  // ---------------------------------------------------------------------
  // `calculate_sentence_complexity`

  /** Word counts of the non-blank pieces of `re.split(r"[.!?]+\s", text)`;
      a non-blank piece has at least one word. */
  function PieceLengths(pieces: seq<string>): (lens: seq<nat>)
    ensures |lens| <= |pieces|
    ensures forall i :: 0 <= i < |lens| ==> lens[i] >= 1
  {
    if pieces == [] then []
    else if NonBlank(pieces[0], IsPySpace) then
      NonBlankHasWord(pieces[0]);
      [|PyWords(pieces[0])|] + PieceLengths(pieces[1..])
    else PieceLengths(pieces[1..])
  }

  function SentenceLengths(text: string): seq<nat>
  {
    PieceLengths(Split(text, SentenceBreak, IsPySpace))
  }

  function NatSum(xs: seq<nat>): nat
  {
    if xs == [] then 0 else xs[0] + NatSum(xs[1..])
  }

  /** Counts that are all at least 1 add up to at least their number. */
  lemma {:induction false} NatSumAtLeastLength(xs: seq<nat>)
    requires forall i :: 0 <= i < |xs| ==> xs[i] >= 1
    ensures NatSum(xs) >= |xs|
  {
    if xs != [] {
      assert forall i :: 0 <= i < |xs| - 1 ==> xs[1..][i] == xs[i + 1];
      NatSumAtLeastLength(xs[1..]);
    }
  }

  /** 0 with no sentence; otherwise the mean words per sentence, less 1,
      over 49, capped at 1. The mean is at least 1, so the lower clamp
      never binds. */
  function SentenceComplexity(text: string): (r: real)
    ensures 0.0 <= r <= 1.0
    ensures SentenceLengths(text) == [] ==> r == 0.0
    ensures var lens := SentenceLengths(text);
            lens != [] ==> r == Min(1.0, (NatSum(lens) as real / |lens| as real - 1.0) / 49.0)
  {
    var lens := SentenceLengths(text);
    if lens == [] then 0.0
    else
      var avg := NatSum(lens) as real / |lens| as real;
      NatSumAtLeastLength(lens);
      MeanAtLeastOne(NatSum(lens) as real, |lens| as real);
      Clamp01((avg - 1.0) / (50.0 - 1.0))
  }

  lemma MeanAtLeastOne(s: real, n: real)
    requires n > 0.0 && s >= n
    ensures s / n >= 1.0
  {
    assert s / n * n == s;
  }

  // ---------------------------------------------------------------------
  // `measure_language_formality`

  /** Word-bounded, so "n't" only counts where it stands alone: in "don't"
      there is no word boundary before the 'n'. */
  const FormalContractions: seq<string> := ["can't", "won't", "n't", "it's", "i'm", "he's", "she's"]

  function ContractionHits(text: string): seq<string>
  {
    WordHits(Lower(text), FormalContractions)
  }

  /** An "n't" straight after a word character is never reported: the
      alternation needs a word boundary before the 'n'. */
  lemma NtInsideWordNoHit(s: string, i: int)
    requires 0 < i < |s| && IsWordChar(s[i - 1])
    ensures FirstAlternative(s, i, FormalContractions) != Some("n't")
  {
    if MatchAt(s, i, "n't") {
      assert s[i] == s[i..i + 3][0] == 'n';
      assert !Boundary(s, i);
    }
  }

  /** So "don't" is no contraction here, and scores as fully formal. */
  lemma DontIsFormal(s: string)
    requires s == "don't"
    ensures ContractionHits(s) == [] && Formality(s) == 1.0
  {
    assert Lower(s) == s;
    DontNoHits(s);
  }

  /** Every contraction starts with one of "chinsw". */
  lemma ContractionStarts()
    ensures forall p :: p in FormalContractions ==> p != [] && p[0] in "chinsw"
  {
  }

  lemma DontNoHits(s: string)
    requires s == "don't"
    ensures WordHits(s, FormalContractions) == []
  {
    ContractionStarts();
    FirstCharMiss(s, 4, FormalContractions, "chinsw");
    ScanSkips(s, FormalContractions, 4);
    FirstCharMiss(s, 3, FormalContractions, "chinsw");
    ScanSkips(s, FormalContractions, 3);
    assert !Boundary(s, 2) && !Boundary(s, 1);
    ScanSkips(s, FormalContractions, 2);
    ScanSkips(s, FormalContractions, 1);
    FirstCharMiss(s, 0, FormalContractions, "chinsw");
    ScanSkips(s, FormalContractions, 0);
  }

  /** Where no alternative is chosen, the scan moves on by one. */
  lemma ScanSkips(s: string, pats: seq<string>, i: nat)
    requires i < |s| && FirstAlternative(s, i, pats).None?
    ensures WordHitsFrom(s, pats, i) == WordHitsFrom(s, pats, i + 1)
  {
  }

  /** No alternative is chosen where none starts with the character there. */
  lemma FirstCharMiss(s: string, i: nat, pats: seq<string>, starts: string)
    requires forall p :: p in pats ==> p != [] && p[0] in starts
    requires i < |s| && s[i] !in starts
    ensures FirstAlternative(s, i, pats).None?
  {
    forall p | p in pats ensures !MatchAt(s, i, p) {
      if i + |p| <= |s| {
        assert s[i..i + |p|][0] == s[i];
      }
    }
  }

  /** 1 with no contraction, 0 with five or more. */
  function Formality(text: string): (r: real)
    ensures 0.0 <= r <= 1.0
    ensures ContractionHits(text) == [] ==> r == 1.0
    ensures |ContractionHits(text)| >= 5 ==> r == 0.0
  {
    Penalty(|ContractionHits(text)|, 5.0)
  }

  // ---------------------------------------------------------------------
  // Model-based criteria: the formulas applied to the models' outputs

  /** What the external models report for one article. */
  datatype MlSignals = MlSignals(
    factScore: Option<real>,      // zero-shot score of "fact", when that label is listed
    people: nat,                  // NER entities grouped as persons
    sentimentPos: real,           // VADER "pos"
    sentimentNeg: real,           // VADER "neg"
    gradeLevel: Option<real>,     // Flesch-Kincaid grade; None when textstat raises
    balancedScore: Option<real>,  // zero-shot score of "balanced", when listed
    rfProb: real)                 // random-forest probability of the positive class

  /** The model outputs that the service passes on unclamped lie in 0..1. */
  predicate SignalsInUnit(ml: MlSignals)
  {
    && (ml.factScore.Some? ==> 0.0 <= ml.factScore.value <= 1.0)
    && (ml.balancedScore.Some? ==> 0.0 <= ml.balancedScore.value <= 1.0)
    && 0.0 <= ml.rfProb <= 1.0
  }

  /** A zero-shot label score, 0.5 when the label is missing. */
  function LabelScore(s: Option<real>): (r: real)
    ensures s.None? ==> r == 0.5
    ensures s.Some? ==> r == s.value
  {
    if s.Some? then s.value else 0.5
  }

  /** One person gives a third, three or more give 1. */
  function AuthorCredibility(people: nat): (r: real)
    ensures 0.0 <= r <= 1.0
    ensures people >= 3 <==> r == 1.0
  {
    Min(people as real / 3.0, 1.0)
  }

  /** Net sentiment mapped from -1..1 onto 0..1. */
  function EmotionalLanguage(pos: real, neg: real): (r: real)
    ensures 0.0 <= r <= 1.0
    ensures -1.0 <= pos - neg <= 1.0 ==> r == (pos - neg + 1.0) / 2.0
  {
    Clamp01((pos - neg + 1.0) / 2.0)
  }

  /** 1 at grade 10, falling by 0.1 per grade either side; 0.5 when textstat fails. */
  function Readability(grade: Option<real>): (r: real)
    ensures 0.0 <= r <= 1.0
    ensures grade.None? ==> r == 0.5
    ensures grade.Some? ==> (r == 1.0 <==> grade.value == 10.0)
  {
    match grade
    case None => 0.5
    case Some(g) => Clamp01(1.0 - Abs(g / 20.0 - 0.5) * 2.0)
  }

  // ---------------------------------------------------------------------
  // `evaluate`: the eleven criteria, in the order of the dict

  const Labels: seq<string> := ["Factual Accuracy", "Author Credibility", "Emotional Language",
    "Extreme Statements", "Objectivity", "Language Style", "Sentence Complexity", "Topic Consistency",
    "Readability", "Balanced Coverage", "Bias"]

  datatype Criterion = Criterion(name: string, value: real)

  /** The eleven values, in the order of `Labels`. */
  function CriterionValues(text: string, tokens: seq<string>, processed: string, ml: MlSignals): (vs: seq<real>)
    ensures |vs| == |Labels|
    ensures SignalsInUnit(ml) ==> forall x :: x in vs ==> 0.0 <= x <= 1.0
  {
    [ LabelScore(ml.factScore),
      AuthorCredibility(ml.people),
      EmotionalLanguage(ml.sentimentPos, ml.sentimentNeg),
      DetectExtremeStatements(tokens),
      Objectivity(processed),
      Formality(text),
      SentenceComplexity(text),
      TopicConsistency(text),
      Readability(ml.gradeLevel),
      LabelScore(ml.balancedScore),
      DetectBias(tokens)]
  }

  /** The criteria named by `names`, paired with `vs` in order. */
  function Pair(names: seq<string>, vs: seq<real>): (rubric: seq<Criterion>)
    requires |names| == |vs|
    ensures |rubric| == |names|
    ensures forall i :: 0 <= i < |rubric| ==> rubric[i] == Criterion(names[i], vs[i])
  {
    seq(|names|, i requires 0 <= i < |names| => Criterion(names[i], vs[i]))
  }

  /** The `evaluate` dict: every criterion under its name, in order, each
      within 0..1 once the model outputs it passes on are. */
  function Evaluate(text: string, tokens: seq<string>, processed: string, ml: MlSignals): (rubric: seq<Criterion>)
    ensures |rubric| == |Labels|
    ensures forall i :: 0 <= i < |rubric| ==> rubric[i].name == Labels[i]
    ensures SignalsInUnit(ml) ==> forall i :: 0 <= i < |rubric| ==> 0.0 <= rubric[i].value <= 1.0
  {
    var vs := CriterionValues(text, tokens, processed, ml);
    var rubric := Pair(Labels, vs);
    assert forall i :: 0 <= i < |rubric| ==> rubric[i].value == vs[i] && vs[i] in vs;
    rubric
  }

  function RubricValues(rubric: seq<Criterion>): (vs: seq<real>)
    ensures |vs| == |rubric|
    ensures forall i :: 0 <= i < |vs| ==> vs[i] == rubric[i].value
  {
    if rubric == [] then [] else [rubric[0].value] + RubricValues(rubric[1..])
  }

  /** The mean of the criteria. */
  function Mean(rubric: seq<Criterion>): (m: real)
    requires rubric != []
    ensures (forall i :: 0 <= i < |rubric| ==> 0.0 <= rubric[i].value <= 1.0) ==> 0.0 <= m <= 1.0
  {
    var vs := RubricValues(rubric);
    if forall i :: 0 <= i < |rubric| ==> 0.0 <= rubric[i].value <= 1.0 then
      SumBounds(vs, 0.0, 1.0);
      MeanInUnit(Sum(vs), |vs| as real);
      Sum(vs) / |vs| as real
    else Sum(vs) / |vs| as real
  }

  lemma MeanInUnit(s: real, n: real)
    requires n > 0.0 && 0.0 <= s <= n * 1.0
    ensures 0.0 <= s / n <= 1.0
  {
    assert s / n * n == s;
  }

  function Combined(avg: real, rfProb: real): (c: real)
    ensures 0.0 <= avg <= 1.0 && 0.0 <= rfProb <= 1.0 ==> 0.0 <= c <= 1.0
  {
    0.7 * avg + 0.3 * rfProb
  }

  // ---------------------------------------------------------------------
  // `score`: validation, fetch outcome and the response

  /** `req.url.startswith(("http://", "https://"))`, case-sensitive. An empty
      url fails it too. */
  predicate ValidServiceUrl(url: string)
  {
    StartsWith(url, "http://") || StartsWith(url, "https://")
  }

  /** What fetching and parsing the article yields. */
  datatype FetchOutcome =
    | Fetched(status: int, text: string, title: Option<string>)  // the joined paragraph text and the <title> text
    | FetchRaised                                                // the request itself failed

  datatype ServiceReply =
    | ServiceError(status: int, detail: string)
    | ServiceOk(body: ScoreResponse)

  const ModelVersion: string := "fastapi-rf-70-30"

  /** One category of the response: the slug of the criterion's name
      (`PythonSlug` shows the service's own id expression gives it), its
      name, the display weight and the criterion as a percentage to two places. */
  function CategoryOf(c: Criterion, weight: real): (cat: ScoreCategory)
    ensures IsSlug(cat.id) && cat.id == Slug(c.name) && cat.caption == c.name
    ensures cat.weight == weight && cat.details.None?
    ensures -0.005 <= cat.score - c.value * 100.0 <= 0.005
    ensures 0.0 <= c.value <= 1.0 ==> 0.0 <= cat.score <= 100.0
  {
    ScoreCategory(Slug(c.name), c.name, weight, Round2(c.value * 100.0), None)
  }

  /** The loop that appends one category per criterion, in order. */
  method BuildCategories(rubric: seq<Criterion>, weight: real) returns (cats: seq<ScoreCategory>)
    ensures |cats| == |rubric|
    ensures forall i :: 0 <= i < |rubric| ==> cats[i] == CategoryOf(rubric[i], weight)
  {
    cats := [];
    var k := 0;
    while k < |rubric|
      invariant 0 <= k <= |rubric|
      invariant |cats| == k
      invariant forall i :: 0 <= i < k ==> cats[i] == CategoryOf(rubric[i], weight)
    {
      cats := cats + [CategoryOf(rubric[k], weight)];
      k := k + 1;
    }
  }

  /** The categories for the criteria, with 0.7 shared equally among them. */
  function CategoriesOf(rubric: seq<Criterion>): (cats: seq<ScoreCategory>)
    requires rubric != []
  {
    var weight := 0.7 / |rubric| as real;
    seq(|rubric|, i requires 0 <= i < |rubric| => CategoryOf(rubric[i], weight))
  }

  /** The response fields built from the categories, the blend and the probability. */
  function Assemble(url: string, title: Option<string>, cats: seq<ScoreCategory>, combined: real, rfProb: real): ScoreResponse
  {
    ScoreResponse(url, title, cats, Round2(combined * 100.0), Some(Round4(rfProb)), Some(combined >= 0.6),
      Some(LabelOf(combined >= 0.6)), Some(ModelVersion), None)
  }

  /** The response for an article that passed the checks. */
  function Response(url: string, title: Option<string>, rubric: seq<Criterion>, rfProb: real): ScoreResponse
    requires rubric != []
  {
    Assemble(url, title, CategoriesOf(rubric), Combined(Mean(rubric), rfProb), rfProb)
  }

  /** The response reports the 70/30 blend as a percentage to two places,
      the probability to four, the classification at 0.6 with its label, a
      category per criterion with weight 0.7 shared equally, and keeps every
      documented range when its inputs lie in 0..1. */
  lemma ResponseFacts(url: string, title: Option<string>, rubric: seq<Criterion>, rfProb: real)
    requires rubric != []
    ensures var r := Response(url, title, rubric, rfProb);
            var combined := Combined(Mean(rubric), rfProb);
            && r.url == url && r.title == title
            && |r.categories| == |rubric|
            && (forall i :: 0 <= i < |rubric| ==>
                  r.categories[i] == CategoryOf(rubric[i], 0.7 / |rubric| as real))
            && -0.005 <= r.total - combined * 100.0 <= 0.005
            && r.rfProb == Some(Round4(rfProb))
            && (r.classification == Some(true) <==> combined >= 0.6)
            && r.classification.Some?
            && LabelMirrorsClassification(r)
            && r.modelVersion == Some(ModelVersion) && r.notes.None?
    ensures (forall i :: 0 <= i < |rubric| ==> 0.0 <= rubric[i].value <= 1.0) && 0.0 <= rfProb <= 1.0
            ==> ValidResponse(Response(url, title, rubric, rfProb))
  {
    var r := Response(url, title, rubric, rfProb);
    var weight := 0.7 / |rubric| as real;
    assert 0.0 <= weight <= 1.0 by { MeanInUnit(0.7, |rubric| as real); }
    var combined := Combined(Mean(rubric), rfProb);
    if (forall i :: 0 <= i < |rubric| ==> 0.0 <= rubric[i].value <= 1.0) && 0.0 <= rfProb <= 1.0 {
      assert 0.0 <= combined <= 1.0;
      assert 0.0 <= combined * 100.0 <= 100.0;
      CategoriesValid(rubric);
    }
  }

  lemma CategoriesValid(rubric: seq<Criterion>)
    requires rubric != [] && forall i :: 0 <= i < |rubric| ==> 0.0 <= rubric[i].value <= 1.0
    ensures forall i :: 0 <= i < |rubric| ==> ValidCategory(CategoriesOf(rubric)[i])
  {
    var weight := 0.7 / |rubric| as real;
    MeanInUnit(0.7, |rubric| as real);
    forall i | 0 <= i < |rubric| ensures ValidCategory(CategoriesOf(rubric)[i]) {
      assert CategoriesOf(rubric)[i] == CategoryOf(rubric[i], weight);
    }
  }

  method Score(req: ScoreRequest, fetch: FetchOutcome, tokens: seq<string>, processed: string, ml: MlSignals)
    returns (reply: ServiceReply)
    // the checks, in order, and their replies
    ensures !ValidServiceUrl(req.url) ==> reply == ServiceError(400, "Invalid url")
    ensures ValidServiceUrl(req.url) && fetch.FetchRaised? ==> reply == ServiceError(500, "Internal Server Error")
    ensures (ValidServiceUrl(req.url) && fetch.Fetched? && fetch.status != 200)
              ==> reply == ServiceError(502, "Failed to fetch article URL")
    ensures (ValidServiceUrl(req.url) && fetch.Fetched? && fetch.status == 200 && |fetch.text| < 100)
              ==> reply == ServiceError(422, "Article text too short")
    // past them, the 70/30 response
    ensures reply.ServiceOk? <==>
              ValidServiceUrl(req.url) && fetch.Fetched? && fetch.status == 200 && |fetch.text| >= 100
    ensures reply.ServiceOk? ==>
              reply.body == Response(req.url, fetch.title, Evaluate(fetch.text, tokens, processed, ml), ml.rfProb)
  {
    if !ValidServiceUrl(req.url) {
      return ServiceError(400, "Invalid url");
    }
    if fetch.FetchRaised? {
      return ServiceError(500, "Internal Server Error");
    }
    if fetch.status != 200 {
      return ServiceError(502, "Failed to fetch article URL");
    }
    var text := fetch.text;
    if |text| < 100 {
      return ServiceError(422, "Article text too short");
    }
    var rubric := Evaluate(text, tokens, processed, ml);
    var avg := Mean(rubric);
    var combined := Combined(avg, ml.rfProb);
    var weight := 0.7 / |rubric| as real;
    var categories := BuildCategories(rubric, weight);
    assert categories == CategoriesOf(rubric);
    return ServiceOk(Assemble(req.url, fetch.title, categories, combined, ml.rfProb));
  }

  /** With the model outputs in range, every successful reply keeps the
      documented ranges of the contract. */
  lemma ScoreValid(url: string, text: string, title: Option<string>, tokens: seq<string>, processed: string, ml: MlSignals)
    requires SignalsInUnit(ml)
    ensures ValidResponse(Response(url, title, Evaluate(text, tokens, processed, ml), ml.rfProb))
  {
    ResponseFacts(url, title, Evaluate(text, tokens, processed, ml), ml.rfProb);
  }
}
