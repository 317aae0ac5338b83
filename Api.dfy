/** The JSON contract between the scorer and its clients: the request, the
    per-criterion category and the response, with the ranges their fields
    are documented to keep. */
module Api {
  import opened TextOps

  /** `classificationLabel` is the string "True" or "False". */
  type ClassLabel = s: string | s == "True" || s == "False" witness "False"

  function LabelOf(b: bool): (l: ClassLabel)
    ensures l == "True" <==> b
  {
    if b then "True" else "False"
  }

  datatype ScoreRequest = ScoreRequest(url: string)

  datatype ScoreCategory = ScoreCategory(
    id: string,
    caption: string,          // the `label` field ("label" is a Dafny keyword)
    weight: real,             // 0..1
    score: real,              // 0..100
    details: Option<string>)

  /** `url`, `categories` and `total` are required; the rest is optional. */
  datatype ScoreResponse = ScoreResponse(
    url: string,
    title: Option<string>,
    categories: seq<ScoreCategory>,
    total: real,              // 0..100
    rfProb: Option<real>,     // 0..1
    classification: Option<bool>,
    classificationLabel: Option<ClassLabel>,
    modelVersion: Option<string>,
    notes: Option<string>)

  predicate ValidCategory(c: ScoreCategory)
  {
    0.0 <= c.score <= 100.0 && 0.0 <= c.weight <= 1.0
  }

  /** The label, when present, mirrors the boolean classification. */
  predicate LabelMirrorsClassification(r: ScoreResponse)
  {
    && (r.classificationLabel.Some? <==> r.classification.Some?)
    && (r.classification.Some? ==> r.classificationLabel == Some(LabelOf(r.classification.value)))
  }

  /** Every documented range of a response holds. */
  predicate ValidResponse(r: ScoreResponse)
  {
    && (forall i :: 0 <= i < |r.categories| ==> ValidCategory(r.categories[i]))
    && 0.0 <= r.total <= 100.0
    && (r.rfProb.Some? ==> 0.0 <= r.rfProb.value <= 1.0)
    && LabelMirrorsClassification(r)
  }

  function WeightSum(cats: seq<ScoreCategory>): real
  {
    if cats == [] then 0.0 else cats[0].weight + WeightSum(cats[1..])
  }

  /** Equal weights of 0.7/11 add up to `|cats|` times that share; for the
      eleven rubric categories, to 0.7. */
  lemma {:induction false} EqualSplitWeightSum(cats: seq<ScoreCategory>)
    requires forall i :: 0 <= i < |cats| ==> cats[i].weight == 0.7 / 11.0
    ensures WeightSum(cats) == |cats| as real * (0.7 / 11.0)
    ensures |cats| == 11 ==> WeightSum(cats) == 0.7
  {
    if cats != [] {
      EqualSplitWeightSum(cats[1..]);
    }
  }
}
