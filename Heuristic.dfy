/** The server's fallback scorer, `computeHeuristicScores`: eleven keyword
    and sentence-length metrics on a 0..100 scale, the equally weighted
    categories built from them, a pseudo model probability and the 70/30
    blend that gives the total and the classification. All arithmetic is on
    exact reals; `Math.round` is `RoundHalfUp`. */
module Heuristic {
  import opened TextOps
  import opened Api

  const EvidenceKeywords: seq<string> := ["figure", "table", "experiment", "evaluate", "metric", "benchmark",
    "ablation", "confidence", "p-value", "significant", "dataset", "results", "study", "data", "method"]
  const BiasWords: seq<string> := ["always", "never", "completely", "totally", "only", "worst", "best",
    "amazing", "horrible", "must", "everyone", "no one"]
  const Contractions: seq<string> := ["can't", "won't", "n't", "it's", "i'm", "he's", "she's", "they're", "we're"]
  const EmotionalWords: seq<string> := ["shocking", "unbelievable", "incredible", "disaster", "scandal",
    "outrage", "amazing", "horrible"]
  const TopicWords: seq<string> := ["computer", "technology", "politics", "economics", "science", "culture",
    "health", "business"]
  const ContrastMarkers: seq<string> := ["however", "but ", "on the other hand", "both"]

  /** The metric names, in the order the metrics record lists them. */
  const Labels: seq<string> := ["Factual Accuracy", "Author Credibility", "Emotional Language",
    "Extreme Statements", "Objectivity", "Language Style", "Sentence Complexity", "Topic Consistency",
    "Readability", "Balanced Coverage", "Bias"]

  // ---------------------------------------------------------------------
  // Keyword counts

  /** How many of the keywords `ks` occur in `s` (a `reduce` over `includes`). */
  function PresentCount(s: string, ks: seq<string>): (n: nat)
    ensures n <= |ks|
    ensures n == 0 <==> forall i :: 0 <= i < |ks| ==> !Contains(s, ks[i])
  {
    if ks == [] then 0
    else
      var rest := PresentCount(s, ks[1..]);
      assert forall i :: 1 <= i < |ks| ==> ks[i] == ks[1..][i - 1];
      (if Contains(s, ks[0]) then 1 else 0) + rest
  }

  /** The number of `\bk\b` matches, summed over the words `ks`, each word
      searched for on its own. */
  function BoundedHitTotal(s: string, ks: seq<string>): nat
  {
    if ks == [] then 0 else |WordHits(s, [ks[0]])| + BoundedHitTotal(s, ks[1..])
  }

  /** The number of (non-overlapping) matches of each literal of `ks`, summed. */
  function OccurrenceTotal(s: string, ks: seq<string>): nat
  {
    if ks == [] then 0 else CountOccurrences(s, ks[0]) + OccurrenceTotal(s, ks[1..])
  }

  lemma {:induction false} BoundedHitCounted(s: string, ks: seq<string>, i: nat)
    requires i < |ks|
    ensures |WordHits(s, [ks[i]])| <= BoundedHitTotal(s, ks)
  {
    if i > 0 {
      BoundedHitCounted(s, ks[1..], i - 1);
    }
  }

  /** Two different entries of `ks` contribute their counts separately. */
  lemma {:induction false} OccurrencesCounted(s: string, ks: seq<string>, i: nat, j: nat)
    requires i < j < |ks|
    ensures CountOccurrences(s, ks[i]) + CountOccurrences(s, ks[j]) <= OccurrenceTotal(s, ks)
  {
    if i > 0 {
      OccurrencesCounted(s, ks[1..], i - 1, j - 1);
    } else {
      OccurrenceCounted(s, ks[1..], j - 1);
    }
  }

  lemma {:induction false} OccurrenceCounted(s: string, ks: seq<string>, i: nat)
    requires i < |ks|
    ensures CountOccurrences(s, ks[i]) <= OccurrenceTotal(s, ks)
  {
    if i > 0 {
      OccurrenceCounted(s, ks[1..], i - 1);
    }
  }

  // ---------------------------------------------------------------------
  // Sentences and words

  /** The non-blank pieces of `text.split(/[.!?]+\s/)`. */
  function SentenceCount(text: string): nat
  {
    NonBlankCount(Split(text, SentenceBreak, IsJsSpace), IsJsSpace)
  }

  /** `text.split(/\s+/).length`, which is never 0. */
  function WordCount(text: string): (n: nat)
    ensures n >= 1
  {
    |Split(text, WhitespaceRun, IsJsSpace)|
  }

  /** Words per sentence, 0 when there is no sentence. */
  function AvgSentenceLength(text: string): (a: real)
    ensures a >= 0.0
    ensures a == 0.0 <==> SentenceCount(text) == 0
  {
    var n := SentenceCount(text);
    if n == 0 then 0.0 else WordCount(text) as real / n as real
  }

  /** 100 less 4000 times the share of "ly"/"ive" words, clamped to 0..100. */
  function ObjectivityScore(lower: string): (r: real)
    ensures 0.0 <= r <= 100.0
    ensures CountWhere(Split(lower, WhitespaceRun, IsJsSpace), AdverbLike) == 0 ==> r == 100.0
  {
    var words := Split(lower, WhitespaceRun, IsJsSpace);
    Clamp100(100.0 - (CountWhere(words, AdverbLike) as real / Max(1.0, |words| as real)) * 4000.0)
  }

  // ---------------------------------------------------------------------
  // The eleven metrics

  datatype Metrics = Metrics(
    factualAccuracy: real,
    authorCredibility: real,
    emotionalLanguage: real,
    extremeStatements: real,
    objectivity: real,
    languageStyle: real,
    sentenceComplexity: real,
    topicConsistency: real,
    readability: real,
    balancedCoverage: real,
    bias: real)

  /** The metric values in the order of `Labels`. */
  function Values(m: Metrics): (vs: seq<real>)
    ensures |vs| == |Labels|
  {
    [m.factualAccuracy, m.authorCredibility, m.emotionalLanguage, m.extremeStatements, m.objectivity,
     m.languageStyle, m.sentenceComplexity, m.topicConsistency, m.readability, m.balancedCoverage, m.bias]
  }

  predicate InUnit100(x: real)
  {
    0.0 <= x <= 100.0
  }

  predicate InRange(m: Metrics)
  {
    && InUnit100(m.factualAccuracy) && InUnit100(m.authorCredibility) && InUnit100(m.emotionalLanguage)
    && InUnit100(m.extremeStatements) && InUnit100(m.objectivity) && InUnit100(m.languageStyle)
    && InUnit100(m.sentenceComplexity) && InUnit100(m.topicConsistency) && InUnit100(m.readability)
    && InUnit100(m.balancedCoverage) && InUnit100(m.bias)
  }

  lemma ValuesInRange(m: Metrics)
    requires InRange(m)
    ensures forall i :: 0 <= i < |Values(m)| ==> 0.0 <= Values(m)[i] <= 100.0
  {
    var vs := Values(m);
    forall i | 0 <= i < |vs|
      ensures 0.0 <= vs[i] <= 100.0
    {
      if i < 6 {
        assert vs[i] in [m.factualAccuracy, m.authorCredibility, m.emotionalLanguage, m.extremeStatements,
          m.objectivity, m.languageStyle];
      } else {
        assert vs[i] in [m.sentenceComplexity, m.topicConsistency, m.readability, m.balancedCoverage, m.bias];
      }
    }
  }

  /** 8 points per evidence keyword present, at most 100. */
  function EvidenceScore(lower: string): real
  {
    Min(100.0, 8.0 * PresentCount(lower, EvidenceKeywords) as real)
  }

  function FactualAccuracy(lower: string): (r: real)
    ensures 0.0 <= r <= 100.0
  {
    RoundHalfUp(Min(100.0, EvidenceScore(lower))) as real
  }

  function AuthorCredibility(lower: string): (r: real)
    ensures 0.0 <= r <= 100.0
  {
    RoundHalfUp(Min(100.0, if Contains(lower, "by ") then 70.0 else 40.0)) as real
  }

  function EmotionalLanguage(lower: string): (r: real)
    ensures 0.0 <= r <= 100.0
  {
    Max(0.0, 100.0 - PresentCount(lower, EmotionalWords) as real * 15.0)
  }

  function ExtremeStatements(lower: string): (r: real)
    ensures 0.0 <= r <= 100.0
  {
    Max(0.0, 100.0 - BoundedHitTotal(lower, BiasWords) as real * 10.0)
  }

  function LanguageStyle(lower: string): (r: real)
    ensures 0.0 <= r <= 100.0
  {
    Max(0.0, 100.0 - Min(100.0, OccurrenceTotal(lower, Contractions) as real * 20.0))
  }

  function SentenceComplexity(text: string): (r: real)
    ensures 0.0 <= r <= 100.0
  {
    Clamp100(100.0 - Abs(22.0 - AvgSentenceLength(text)) * 4.0)
  }

  function TopicConsistency(lower: string): (r: real)
    ensures 0.0 <= r <= 100.0
  {
    RoundHalfUp(DistinctRatio(WordHits(lower, TopicWords)) * 100.0) as real
  }

  function Readability(text: string): (r: real)
    ensures 0.0 <= r <= 100.0
  {
    RoundHalfUp(Clamp100(100.0 - Abs(22.0 - AvgSentenceLength(text)) * 5.0)) as real
  }

  function BalancedCoverage(lower: string): (r: real)
    ensures 50.0 <= r <= 98.0
  {
    Min(100.0, 50.0 + 12.0 * PresentCount(lower, ContrastMarkers) as real)
  }

  function BiasScore(lower: string): (r: real)
    ensures 0.0 <= r <= ExtremeStatements(lower)
  {
    Max(0.0, 100.0 - Min(100.0, BoundedHitTotal(lower, BiasWords) as real * 12.0))
  }

  /** The `metrics` record of `computeHeuristicScores`, every entry within 0..100. */
  function ComputeMetrics(text: string): (m: Metrics)
    ensures InRange(m)
    ensures m.bias <= m.extremeStatements
    ensures 50.0 <= m.balancedCoverage <= 98.0
  {
    var lower := Lower(text);
    Metrics(FactualAccuracy(lower), AuthorCredibility(lower), EmotionalLanguage(lower),
      ExtremeStatements(lower), ObjectivityScore(lower), LanguageStyle(lower), SentenceComplexity(text),
      TopicConsistency(lower), Readability(text), BalancedCoverage(lower), BiasScore(lower))
  }

  /** Factual Accuracy is 8 points per distinct evidence keyword present,
      up to twelve of them; thirteen or more give 100. */
  lemma FactualAccuracyCounts(text: string)
    ensures var k := PresentCount(Lower(text), EvidenceKeywords);
            ComputeMetrics(text).factualAccuracy == if k <= 12 then 8.0 * k as real else 100.0
  {
    var k := PresentCount(Lower(text), EvidenceKeywords);
    var e := EvidenceScore(Lower(text));
    assert e == if k <= 12 then 8.0 * k as real else 100.0;
    RoundWhole(if k <= 12 then 8 * k else 100);
  }

  /** `Math.round` keeps a whole number. */
  lemma RoundWhole(n: int)
    ensures RoundHalfUp(n as real) == n
  {
  }

  /** Author Credibility is 70 when "by " occurs in the text and 40 otherwise. */
  lemma AuthorCredibilityByline(text: string)
    ensures ComputeMetrics(text).authorCredibility == if Contains(Lower(text), "by ") then 70.0 else 40.0
  {
    RoundWhole(70);
    RoundWhole(40);
  }

  /** Balanced Coverage starts at 50 and gains 12 per contrast marker present,
      so it is above 50 exactly when some marker occurs. */
  lemma BalancedCoverageMarkers(text: string)
    ensures var k := PresentCount(Lower(text), ContrastMarkers);
            ComputeMetrics(text).balancedCoverage == 50.0 + 12.0 * k as real
    ensures ComputeMetrics(text).balancedCoverage > 50.0
        <==> exists i :: 0 <= i < |ContrastMarkers| && Contains(Lower(text), ContrastMarkers[i])
  {
    assert PresentCount(Lower(text), ContrastMarkers) <= 4;
  }

  /** Emotional Language is 100 exactly when no emotional word occurs. */
  lemma EmotionalLanguageFull(text: string)
    ensures ComputeMetrics(text).emotionalLanguage == 100.0
        <==> forall i :: 0 <= i < |EmotionalWords| ==> !Contains(Lower(text), EmotionalWords[i])
  {
  }

  /** One word-bounded bias word costs Extreme Statements at least 10 points
      and Bias at least 12. */
  lemma BiasWordPenalty(text: string, w: nat, j: int)
    requires w < |BiasWords| && BoundedMatchAt(Lower(text), j, BiasWords[w])
    ensures ComputeMetrics(text).extremeStatements <= 90.0
    ensures ComputeMetrics(text).bias <= 88.0
  {
    var lower := Lower(text);
    assert |BiasWords[w]| > 0;
    WordHitFound(lower, [BiasWords[w]], 0, j, BiasWords[w]);
    BoundedHitCounted(lower, BiasWords, w);
  }

  /** Any contraction costs Language Style 20 points. Because "n't" is in the
      list and the search is not word-bounded, "can't" and "won't" are
      counted twice: one such word already costs 40. */
  lemma ContractionPenalty(text: string)
    ensures Contains(Lower(text), "n't") ==> ComputeMetrics(text).languageStyle <= 80.0
    ensures Contains(Lower(text), "can't") || Contains(Lower(text), "won't")
        ==> ComputeMetrics(text).languageStyle <= 60.0
  {
    var lower := Lower(text);
    if Contains(lower, "n't") {
      ContainsCounted(lower, "n't");
      assert Contractions[2] == "n't";
      OccurrenceCounted(lower, Contractions, 2);
    }
    if Contains(lower, "can't") {
      ContainsInner(lower, "can't", 2, "n't");
      ContainsCounted(lower, "can't");
      ContainsCounted(lower, "n't");
      assert Contractions[0] == "can't" && Contractions[2] == "n't";
      OccurrencesCounted(lower, Contractions, 0, 2);
    } else if Contains(lower, "won't") {
      ContainsInner(lower, "won't", 2, "n't");
      ContainsCounted(lower, "won't");
      ContainsCounted(lower, "n't");
      assert Contractions[1] == "won't" && Contractions[2] == "n't";
      OccurrencesCounted(lower, Contractions, 1, 2);
    }
  }

  /** With no sentence the average length is 0, so Readability is 0 and
      Sentence Complexity is 12. */
  lemma NoSentences(text: string)
    requires SentenceCount(text) == 0
    ensures ComputeMetrics(text).readability == 0.0
    ensures ComputeMetrics(text).sentenceComplexity == 12.0
  {
    RoundWhole(0);
  }

  /** Topic Consistency is 0 when no topic word occurs and 100 when every
      occurrence is a different topic. */
  lemma TopicConsistencyBounds(text: string)
    ensures WordHits(Lower(text), TopicWords) == [] ==> ComputeMetrics(text).topicConsistency == 0.0
    ensures var t := WordHits(Lower(text), TopicWords);
            t != [] && Distinct(t) ==> ComputeMetrics(text).topicConsistency == 100.0
  {
    RoundWhole(0);
    RoundWhole(100);
  }

  // ---------------------------------------------------------------------
  // Aggregation

  /** `avg0to1`: the sum of the metrics over 11 * 100. */
  function Average(m: Metrics): (a: real)
    ensures InRange(m) ==> 0.0 <= a <= 1.0
  {
    var vs := Values(m);
    if InRange(m) then ValuesInRange(m); SumBounds(vs, 0.0, 100.0); Sum(vs) / (|Labels| as real * 100.0)
    else Sum(vs) / (|Labels| as real * 100.0)
  }

  /** The pseudo model probability: Factual Accuracy plus Balanced Coverage over 200, clamped. */
  function RfProb(m: Metrics): (p: real)
    ensures 0.0 <= p <= 1.0
  {
    Min(1.0, Max(0.0, (m.factualAccuracy + m.balancedCoverage) / 200.0))
  }

  function Combined(m: Metrics): real
  {
    0.7 * Average(m) + 0.3 * RfProb(m)
  }

  /** `catWeight`: 70 % shared equally among the categories. */
  const CategoryWeight: real := 0.7 / 11.0

  /** One category per metric, in order: the slugged label as id, the label,
      the equal weight and the rounded metric as score. */
  function Categories(m: Metrics): (cats: seq<ScoreCategory>)
    ensures |cats| == |Labels|
  {
    var vs := Values(m);
    seq(|Labels|, i requires 0 <= i < |Labels| =>
      ScoreCategory(Slug(Labels[i]), Labels[i], CategoryWeight, RoundHalfUp(vs[i]) as real, None))
  }

  /** Every category names its metric, carries the equal weight and the
      rounded metric, and is within the documented ranges; the weights add
      up to 0.7. */
  lemma CategoriesFacts(m: Metrics)
    requires InRange(m)
    ensures var cats := Categories(m);
            && (forall i :: 0 <= i < |cats| ==>
                  && cats[i].caption == Labels[i]
                  && cats[i].id == Slug(Labels[i])
                  && cats[i].details.None?
                  && ValidCategory(cats[i])
                  && cats[i].weight == CategoryWeight
                  && cats[i].score == RoundHalfUp(Values(m)[i]) as real
                  && -0.5 < cats[i].score - Values(m)[i] <= 0.5)
            && WeightSum(cats) == 0.7
  {
    var cats := Categories(m);
    var vs := Values(m);
    ValuesInRange(m);
    forall i | 0 <= i < |cats|
      ensures && cats[i].caption == Labels[i]
              && cats[i].id == Slug(Labels[i])
              && cats[i].details.None?
              && ValidCategory(cats[i])
              && cats[i].weight == CategoryWeight
              && cats[i].score == RoundHalfUp(vs[i]) as real
              && -0.5 < cats[i].score - vs[i] <= 0.5
    {
      var n := RoundHalfUp(vs[i]);
      assert cats[i] == ScoreCategory(Slug(Labels[i]), Labels[i], CategoryWeight, n as real, None);
      assert 0.0 <= vs[i] <= 100.0;
      assert 0 <= n <= 100;
    }
    EqualSplitWeightSum(cats);
  }

  /** With every metric in range and Balanced Coverage at least 50, the
      probability stays within 0.25..0.99 and the blend within 0.075..0.997. */
  lemma BlendBounds(m: Metrics)
    requires InRange(m) && 50.0 <= m.balancedCoverage <= 98.0
    ensures 0.25 <= RfProb(m) <= 0.99
    ensures 0.075 <= Combined(m) <= 0.997
  {
    assert 0.0 <= Average(m) <= 1.0;
  }

  /** `Math.round(combined * 100)` for a blend within 0.075..0.997. */
  lemma TotalBounds(c: real)
    requires 0.075 <= c <= 0.997
    ensures 8 <= RoundHalfUp(100.0 * c) <= 100
    ensures c >= 0.6 ==> RoundHalfUp(100.0 * c) >= 60
  {
    var x := 100.0 * c;
    assert 7.5 <= x <= 99.7;
    assert c >= 0.6 ==> x >= 60.0;
  }

  datatype HeuristicScores = HeuristicScores(
    categories: seq<ScoreCategory>,
    total: real,
    rfProb: real,
    classification: bool,
    classificationLabel: ClassLabel)

  /** The aggregation over the eleven metrics: categories, the pseudo
      probability, the rounded total, the classification and its label. */
  function Aggregate(m: Metrics): (h: HeuristicScores)
    ensures h.categories == Categories(m) && h.rfProb == RfProb(m)
    ensures h.total == RoundHalfUp(100.0 * Combined(m)) as real
    ensures -0.5 < h.total - 100.0 * Combined(m) <= 0.5
    ensures h.classification <==> Combined(m) >= 0.6
    ensures h.classificationLabel == LabelOf(h.classification)
    ensures InRange(m) && 50.0 <= m.balancedCoverage <= 98.0 ==>
              && 0.25 <= h.rfProb <= 0.99
              && 8.0 <= h.total <= 100.0
              && (h.classification ==> h.total >= 60.0)
  {
    var combined := Combined(m);
    var total := RoundHalfUp(100.0 * combined);
    var h := HeuristicScores(Categories(m), total as real, RfProb(m), combined >= 0.6, LabelOf(combined >= 0.6));
    if InRange(m) && 50.0 <= m.balancedCoverage <= 98.0 then
      BlendBounds(m);
      TotalBounds(combined);
      h
    else h
  }

  /** `computeHeuristicScores`: the metrics of the text, aggregated. The
      rounded total lies in 8..100, the probability in 0.25..0.99, and a
      True classification always shows a total of at least 60. */
  function ComputeHeuristicScores(text: string): (h: HeuristicScores)
    ensures h == Aggregate(ComputeMetrics(text))
    ensures 0.25 <= h.rfProb <= 0.99
    ensures 8.0 <= h.total <= 100.0
    ensures h.classification ==> h.total >= 60.0
  {
    Aggregate(ComputeMetrics(text))
  }
}
