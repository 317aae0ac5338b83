/** The scoring page: its URL check, the submit handler's state changes, the
    verdict shown for the overall score and the extra random-forest card. */
module IndexPage {
  import opened TextOps
  import opened Api
  import RubricCard

  /** `/^https?:\/\//i`: the URL starts with "http://" or "https://" in any case. */
  predicate ValidHttpUrl(url: string)
  {
    StartsWithCI(url, "http://") || StartsWithCI(url, "https://")
  }

  // ---------------------------------------------------------------------
  // The submit handler

  /** How the request to the scoring endpoint ends. */
  datatype ApiOutcome =
    | ApiOk(data: ScoreResponse)   // an OK reply whose body parses
    | ApiNotOk(text: string)       // a non-OK reply: its body becomes the error message
    | ApiThrew(message: string)    // the request, or reading its body, failed

  const InvalidUrlMessage: string := "Enter a valid http(s) URL"
  const FallbackMessage: string := "Something went wrong"

  /** `err?.message || "Something went wrong"`. */
  function ErrorMessage(message: string): (m: string)
    ensures m != ""
    ensures message != "" ==> m == message
  {
    if message == "" then FallbackMessage else message
  }

  /** The page's state. `requests` lists the URLs posted to the endpoint. */
  class ScoreForm {
    var url: string
    var loading: bool
    var error: Option<string>
    var result: Option<ScoreResponse>
    var requests: seq<string>

    /** Never an error and a result at once. */
    predicate Valid()
      reads this
    {
      !(error.Some? && result.Some?)
    }

    constructor ()
      ensures Valid() && !loading
      ensures url == "" && error.None? && result.None? && requests == []
    {
      url := "";
      loading := false;
      error := None;
      result := None;
      requests := [];
    }

    /** The input's `onChange`. */
    method SetUrl(u: string)
      modifies this
      ensures url == u
      ensures loading == old(loading) && error == old(error) && result == old(result)
      ensures requests == old(requests)
    {
      url := u;
    }

    /** The synchronous part of `handleSubmit`: both messages are cleared; an
        invalid URL sets the error and stops; otherwise the page is marked
        loading and the URL is posted. */
    method BeginSubmit() returns (sent: bool)
      modifies this
      ensures sent <==> ValidHttpUrl(url)
      ensures url == old(url) && result.None?
      ensures !sent ==> error == Some(InvalidUrlMessage) && loading == old(loading) && requests == old(requests)
      ensures sent ==> error.None? && loading && requests == old(requests) + [url]
      ensures Valid()
    {
      error := None;
      result := None;
      if !ValidHttpUrl(url) {
        error := Some(InvalidUrlMessage);
        return false;
      }
      loading := true;
      requests := requests + [url];
      return true;
    }

    /** The rest of `handleSubmit` once the request ends: the parsed body is
        the result, or the message is the error; loading ends either way. */
    method CompleteSubmit(outcome: ApiOutcome)
      requires error.None? && result.None?
      modifies this
      ensures !loading
      ensures url == old(url) && requests == old(requests)
      ensures outcome.ApiOk? ==> result == Some(outcome.data) && error.None?
      ensures outcome.ApiNotOk? ==> error == Some(ErrorMessage(outcome.text)) && result.None?
      ensures outcome.ApiThrew? ==> error == Some(ErrorMessage(outcome.message)) && result.None?
      ensures Valid()
    {
      match outcome {
        case ApiOk(data) => result := Some(data);
        case ApiNotOk(text) => error := Some(ErrorMessage(text));
        case ApiThrew(message) => error := Some(ErrorMessage(message));
      }
      loading := false;
    }

    /** A whole submission. */
    method HandleSubmit(outcome: ApiOutcome)
      modifies this
      ensures url == old(url) && Valid()
      ensures !ValidHttpUrl(url) ==>
                && error == Some(InvalidUrlMessage) && result.None?
                && loading == old(loading) && requests == old(requests)
      ensures ValidHttpUrl(url) ==>
                && !loading && requests == old(requests) + [url]
                && (outcome.ApiOk? ==> result == Some(outcome.data) && error.None?)
                && (outcome.ApiNotOk? ==> result.None? && error == Some(ErrorMessage(outcome.text)))
                && (outcome.ApiThrew? ==> result.None? && error == Some(ErrorMessage(outcome.message)))
    {
      var sent := BeginSubmit();
      if sent {
        CompleteSubmit(outcome);
      }
    }
  }

  // ---------------------------------------------------------------------
  // Verdict and the random-forest card

  datatype Verdict = DontTrust | ProceedWithCaution | Trustworthy | AlmostCertainlyTrue

  function VerdictText(v: Verdict): string
  {
    match v
    case DontTrust => "Don't trust this website"
    case ProceedWithCaution => "Proceed with caution"
    case Trustworthy => "Trustworthy"
    case AlmostCertainlyTrue => "Almost certainly true"
  }

  function Severity(v: Verdict): nat
  {
    match v
    case DontTrust => 0
    case ProceedWithCaution => 1
    case Trustworthy => 2
    case AlmostCertainlyTrue => 3
  }

  /** The verdict for the rounded total t: up to 20, 21..50, 51..70, above 70. */
  function VerdictFor(total: real): (v: Verdict)
    ensures var t := RoundHalfUp(total);
            && (v == DontTrust <==> t <= 20)
            && (v == ProceedWithCaution <==> 21 <= t <= 50)
            && (v == Trustworthy <==> 51 <= t <= 70)
            && (v == AlmostCertainlyTrue <==> t > 70)
  {
    var t := RoundHalfUp(total);
    if t <= 20 then DontTrust
    else if t <= 50 then ProceedWithCaution
    else if t <= 70 then Trustworthy
    else AlmostCertainlyTrue
  }

  /** A higher total never gets a worse verdict. */
  lemma VerdictMonotone(x: real, y: real)
    requires x <= y
    ensures Severity(VerdictFor(x)) <= Severity(VerdictFor(y))
  {
    RoundMonotone(x, y);
  }

  lemma RoundMonotone(x: real, y: real)
    requires x <= y
    ensures RoundHalfUp(x) <= RoundHalfUp(y)
  {
    assert (x + 0.5).Floor <= (y + 0.5).Floor;
  }

  /** What the page passes to a rubric card. */
  datatype CardProps = CardProps(caption: string, score: real, weight: real, binary: bool)

  /** One plain card per category, in order, then the random-forest card
      when the response carries a probability: its percentage, rounded, on a
      binary card with weight 0.3. */
  function Cards(resp: ScoreResponse): (cards: seq<CardProps>)
    ensures |cards| == |resp.categories| + (if resp.rfProb.Some? then 1 else 0)
    ensures forall i :: 0 <= i < |resp.categories| ==>
              var c := resp.categories[i];
              cards[i] == CardProps(c.caption, c.score, c.weight, false)
    ensures resp.rfProb.Some? ==>
              cards[|cards| - 1] == CardProps("Random Forest", RoundHalfUp(resp.rfProb.value * 100.0) as real, 0.3, true)
  {
    var plain := seq(|resp.categories|, i requires 0 <= i < |resp.categories| =>
      CardProps(resp.categories[i].caption, resp.categories[i].score, resp.categories[i].weight, false));
    match resp.rfProb
    case None => plain
    case Some(p) => plain + [CardProps("Random Forest", RoundHalfUp(p * 100.0) as real, 0.3, true)]
  }

  /** The card's "threshold 0.5" is in effect 0.495, because the probability
      is rounded to a whole percentage before it is binned. */
  lemma RfProbCardPasses(resp: ScoreResponse)
    requires resp.rfProb.Some?
    ensures var props := Cards(resp)[|Cards(resp)| - 1];
            var card := RubricCard.CardFor(props.score, props.binary);
            && (card.grade == RubricCard.A <==> resp.rfProb.value >= 0.495)
            && (card.grade == RubricCard.D <==> resp.rfProb.value < 0.495)
  {
    var p := resp.rfProb.value;
    var n := RoundHalfUp(p * 100.0);
    assert n >= 50 <==> p * 100.0 + 0.5 >= 50.0;
    RubricCard.BinaryGrade(n as real);
  }
}
