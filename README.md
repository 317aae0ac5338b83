# Article rubric scorer — a Dafny model

The system scores a news or research article given by URL.

- **Web server.** It fetches the page and reduces its HTML to plain text. Text and title come from regular expressions.
- **Local scorer.** It scores the text on eleven lexical rubric criteria (0–100 each). It blends their mean (70 %) with a pseudo model probability (30 %) into a total and a True/False classification.
- **Python service.** When configured, the server forwards the request to this service first. The service computes the same eleven criteria on a 0..1 scale, partly from language models, and aggregates them the same 70/30 way.
- **Web page.** It checks the URL and keeps the submit state (loading, error, result). It shows a grade card per criterion, an extra binary card for the model probability, and a verdict for the rounded total.

The model has one module per component:

| module | component |
|---|---|
| `TextOps` | shared text helpers standing in for the specific regular expressions used (ASCII case folding, the JavaScript and Python whitespace sets, literal containment and counting, `\b…\b` alternation scans, the two `split` separators), distinct-element ratios, the category-id slug, and both languages' rounding |
| `Api` | the request, category and response records and their documented ranges (shared/api.ts) |
| `HtmlText` | `stripHtml` and the `<title>` match of the server |
| `Heuristic` | `computeHeuristicScores`: the eleven metrics, the categories, `rfProb`, the blend, total and classification |
| `ScoreRoute` | `handleScore`, as a pure function of the request's `url` field, the backend setting and the outcomes of the outgoing requests; it returns the reply and the list of requests made |
| `PyService` | the Python lexical helpers, the formulas applied to model outputs, `evaluate`, and `score` (validation, the category loop, the response) |
| `RubricCard` | bin, shown score, grade, bar width and score text of a card |
| `IndexPage` | the URL test, a `ScoreForm` class for the submit handler's state, the verdict bands and the cards shown for a response |

Arithmetic is on exact reals.
- JavaScript's `Math.round` is `RoundHalfUp` (floor of x + 0.5).
- Python's `round(x, n)` is `Round2`/`Round4`: round-half-even of the exact value.

Properties of the code worth knowing; the member named in each item states it:
- **Slug trim.** The category-id trim `/^-|-$|/g` (server/routes/score.ts:57) is modelled as `StripEdgeDash`, which removes one leading and one trailing `-`. The global replace tries both anchored alternatives. The empty third alternative only replaces empty matches by nothing, so it changes nothing. Python's `strip("-")` removes every edge dash (`StripDashes`). After run collapsing there is at most one at each end, so both give the same id (`TextOps.PythonSlug`). One `Slug` therefore serves both services. Its letters and digits are the label's (`Slug`), and a slug is its own slug (`SlugIdempotent`).
- **Probability card threshold.** The rfProb card is labelled "threshold 0.5", but it bins `Math.round(rfProb*100)` at 50. Its effective threshold is therefore 0.495 (`IndexPage.RfProbCardPasses`).
- **Contractions in the server scorer.** The server counts contractions by unanchored substring search, and the list includes "n't". One "can't" or "won't" therefore counts twice, so Language Style is at most 60 (`Heuristic.ContractionPenalty`).
- **Contractions in the Python service.** The Python formality regex is word-bounded. An "n't" straight after a word character is never reported (`PyService.NtInsideWordNoHit`). So "don't" scores as fully formal there (`PyService.DontIsFormal`).
- **Total versus classification.** The classification is taken on the unrounded blend, so a blend of 0.597 would show total 60 and be classified False. What `Heuristic.TotalBounds` states is the one direction that holds: True implies total ≥ 60.

## Model

| member | source | states |
|---|---|---|
| TextOps.Clamp100 | server/routes/score.ts:45 | `Math.max(0, Math.min(100, x))` lies in 0..100 and leaves in-range values unchanged |
| TextOps.Clamp01 | python_service/app.py:139 | `max(0, min(1, x))` lies in 0..1 and leaves in-range values unchanged |
| TextOps.CountFromPositive | server/routes/score.ts:31 | an occurrence of a non-empty literal at or after the scan start is counted at least once |
| TextOps.ContainsCounted | server/routes/score.ts:31 | a contained non-empty literal has a global-match count of at least 1 |
| TextOps.ContainsInner | server/routes/score.ts:22 | a literal inside a contained literal is contained too ("n't" within "can't") |
| TextOps.CountOccurrences | server/routes/score.ts:31 | no contract of its own: the `match(/k/g)` count from position 0; stated by `CountFromPositive` and `ContainsCounted` |
| TextOps.Lower | server/routes/score.ts:16 | no contract of its own: `toLowerCase` on A-Z only (see Left out); used by every case-insensitive member |
| TextOps.FirstAlternative | server/routes/score.ts:36 | the alternative chosen at a position is one that matches with a word boundary on both sides; none is chosen only if no alternative matches |
| TextOps.FirstAlternativeFirst | server/routes/score.ts:36 | when some alternative matches, one is chosen, and it is written no later than any matching alternative: the first in written order wins |
| TextOps.WordHits | server/routes/score.ts:36 | no contract of its own: the scan from position 0; stated by `WordHitsFrom`, `WordHitFound` and `FirstAlternativeFirst` |
| TextOps.WordHitsFrom | server/routes/score.ts:36 | every reported match is one of the alternatives |
| TextOps.WordHitFound | server/routes/score.ts:30 | a word-bounded occurrence of an alternative makes the `\b…\b` scan report at least one match |
| TextOps.RunEnd | server/routes/score.ts:11 | a `\s+` (or punctuation) run is taken maximally: every character inside is in the class and the next is not |
| TextOps.SeparatorLength | server/routes/score.ts:24 | a separator match never runs past the end of the text |
| TextOps.SplitFrom | server/routes/score.ts:17 | `split` always yields at least one piece, so the word count is never 0 |
| TextOps.Split | server/routes/score.ts:17 | no contract of its own: the split from position 0; stated by `SplitFrom`, `NonBlankCount` and `SplitFromHasWord` |
| TextOps.NonBlankCount | server/routes/score.ts:24 | the number of non-blank sentences is at most the number of pieces |
| TextOps.SplitFromHasWord | python_service/app.py:170 | a piece with a non-space character has at least one word under `str.split()` |
| TextOps.NonBlankHasWord | python_service/app.py:170 | a sentence that survives `s.strip()` contributes a length of at least 1 |
| TextOps.Elems | python_service/app.py:165 | the set of found topics holds exactly the elements of the list |
| TextOps.ElemsCard | server/routes/score.ts:37 | the set of topics is no larger than the list, and equally large exactly when no topic repeats |
| TextOps.DistinctRatio | server/routes/score.ts:37 | `new Set(t).size / t.length` is 0 for no topics, otherwise in (0, 1], and 1 exactly when no topic repeats |
| TextOps.RatioFacts | server/routes/score.ts:37 | helper fact for the arithmetic of the rows that use it: a ratio of positive d ≤ n lies in (0, 1] and is 1 exactly when d = n |
| TextOps.CountWhere | server/routes/score.ts:45 | the number of `ly`/`ive` words is at most the number of words |
| TextOps.SumBounds | server/routes/score.ts:64 | values in lo..hi sum to between n·lo and n·hi |
| TextOps.DashRuns | server/routes/score.ts:57 | `[^a-z0-9]+` runs to "-": only slug characters and dashes remain, never two dashes in a row, a leading slug character is kept, and every letter and digit of the input is kept, in order |
| TextOps.Slug | python_service/app.py:261 | the id is a slug (lower-case letters, digits and single inner dashes, with no dash at either end), and its letters and digits are exactly those of the lower-cased label, in order |
| TextOps.DashRunsKeepsSlug | server/routes/score.ts:57 | run collapsing changes nothing in a text that is already dash-collapsed |
| TextOps.SlugIdempotent | server/routes/score.ts:57 | slugging a slug gives it back |
| TextOps.StripEdgeDash | server/routes/score.ts:57 | no contract of its own: removes one leading and one trailing '-'; stated by `StripEdgeDashLetters`, `Slug` and `StripDashesAgrees` |
| TextOps.StripEdgeDashLetters | server/routes/score.ts:57 | trimming the edge dashes removes no letter or digit |
| TextOps.DashRunsSqueeze | server/routes/score.ts:57 | run collapsing equals the reference reading: every character outside `[a-z0-9]` becomes '-', then each run of dashes is squeezed to one. So a '-' stands exactly where a maximal run of other characters stood |
| TextOps.SlugSqueezed | server/routes/score.ts:57 | the id is that reference reading of the lower-cased label with one edge dash removed at each end |
| TextOps.StripLeadingDashes | python_service/app.py:261 | the leading part of `strip("-")` returns a suffix of its input that does not start with '-' |
| TextOps.StripTrailingDashes | python_service/app.py:261 | the trailing part of `strip("-")` returns a prefix of its input that does not end with '-' |
| TextOps.StripDashes | python_service/app.py:261 | `strip("-")` leaves no '-' at either end |
| TextOps.StripDashesAgrees | python_service/app.py:261 | on text without two dashes in a row, `strip("-")` equals removing one '-' at each end |
| TextOps.PythonSlug | python_service/app.py:261 | the Python service's id expression gives the same id as the server's rule, `Slug` |
| TextOps.RoundHalfUp | server/routes/score.ts:67 | `Math.round` gives the integer within half a unit, rounding halves up |
| TextOps.RoundHalfEven | python_service/app.py:264 | Python's `round` gives the nearest integer, and an even one on ties |
| TextOps.Round2 | python_service/app.py:275 | `round(x, 2)` is within 0.005 of x and keeps 0..100 |
| TextOps.Round4 | python_service/app.py:276 | `round(x, 4)` is within 0.00005 of x and keeps 0..1 |
| Api.LabelOf | shared/api.ts:29-30 | the label is "True" exactly when the classification is true (and otherwise "False") |
| Api.EqualSplitWeightSum | server/routes/score.ts:55 | equal category weights of 0.7/11 add up to 0.7 over the eleven categories |
| HtmlText.FindCI | server/routes/score.ts:8-9 | a found case-insensitive closing lies within the text, after the search start |
| HtmlText.FindCIFirst | server/routes/score.ts:8-9 | the found closing is a real one and the first; "none" means there is none |
| HtmlText.BlockClose | server/routes/score.ts:8-9 | a block's closing lies after its opening and fits in the text |
| HtmlText.BlockCloseAt | server/routes/score.ts:8-9 | the lazy `[\s\S]*?` ends the block at the first closing after the opening, wherever that is |
| HtmlText.ReplaceBlocks | server/routes/score.ts:8-9 | no contract of its own: the lazy, case-insensitive block replacement; stated by `BlockCloseAt`, `BlocksClosedOff`, `ClosedOffAt`, `KeptPrefix`, `NoCloserKeeps` and `NoOpenKeeps` |
| HtmlText.KeptPrefix | server/routes/score.ts:8-9 | while the output's first n characters contain no space at all (so in particular no replacement space), they are the input's first n characters |
| HtmlText.NoCloserKeeps | server/routes/score.ts:8-9 | with no closing after the opening, the block pass changes nothing |
| HtmlText.ClosedOffAt | server/routes/score.ts:8-9 | in the output of a block pass, an opening that is left has no closing after it |
| HtmlText.BlocksClosedOff | server/routes/score.ts:8-9 | after a block pass, the search for a closing after any opening left in the text finds none: every block that had a closing was replaced, contents included, by a single space |
| HtmlText.NoOpenKeeps | server/routes/score.ts:8-9 | text without `<` passes the block passes unchanged |
| HtmlText.IndexOf | server/routes/score.ts:10 | finds the first `>` at or after a position |
| HtmlText.ReplaceTags | server/routes/score.ts:10 | `<[^>]+>` to " " keeps a leading non-`<` character and leaves text without `>` unchanged |
| HtmlText.ConsNoTag | server/routes/score.ts:10 | a non-`<` character in front of tag-free text leaves it tag-free |
| HtmlText.ReplaceTagsNoTag | server/routes/score.ts:10 | after the tag replace no `<X>` with non-empty, `>`-free X is left |
| HtmlText.CollapseSpaces | server/routes/score.ts:11 | `\s+` to " " keeps a leading non-space character, keeps non-empty text non-empty and introduces no `>` |
| HtmlText.CollapseNoAdjacent | server/routes/score.ts:11 | after collapsing, no two whitespace characters are adjacent |
| HtmlText.NoTagSuffix | server/routes/score.ts:10-11 | a suffix of tag-free text is tag-free |
| HtmlText.NoTagPrefix | server/routes/score.ts:10-11 | a prefix of tag-free text is tag-free |
| HtmlText.CollapseNoTag | server/routes/score.ts:11 | collapsing whitespace creates no tag |
| HtmlText.TrimStart | server/routes/score.ts:12 | `trim` leaves no leading whitespace |
| HtmlText.TrimEnd | server/routes/score.ts:12 | `trim` leaves no trailing whitespace |
| HtmlText.Trim | server/routes/score.ts:12 | the trimmed text starts and ends with a non-whitespace character, and all-whitespace text trims to empty |
| HtmlText.SliceKeepsNoAdjacent | server/routes/score.ts:12 | trimming keeps "no adjacent whitespace" |
| HtmlText.TrimKeeps | server/routes/score.ts:12 | trimming keeps "no adjacent whitespace" and "no tag" |
| HtmlText.StripHtml | server/routes/score.ts:6-13 | the plain text has no leading or trailing whitespace, no two adjacent whitespace characters and no remaining `<X>` tag |
| HtmlText.StripHtmlBlocksGone | server/routes/score.ts:8-9 | after the script pass no `<script` opening is followed by a `</script>`, and after the style pass no `<style` opening by a `</style>`: each closable block went with its contents |
| HtmlText.CollapseKeeps | server/routes/score.ts:11 | text whose only whitespace is single spaces passes the `\s+` pass unchanged |
| HtmlText.StripHtmlPlain | server/routes/score.ts:6-13 | text without `<` or `>`, with single inner spaces as its only whitespace, comes back from `stripHtml` unchanged |
| HtmlText.StripHtmlNoBlocks | server/routes/score.ts:8-9 | a `<script`/`<style` left in the plain text has no `>` after it, so it was never the start of a tag |
| HtmlText.TitleEnd | server/routes/score.ts:112 | the lazy `(.*?)` stops at the first `</title>` with no line terminator before it |
| HtmlText.TitleSpanFrom | server/routes/score.ts:112 | the match found is the leftmost `<title>…</title>` on one line |
| HtmlText.Title | server/routes/score.ts:112-113 | the title, when present, is the inner text of a case-insensitive `<title>…</title>` match with no line terminator; it is absent exactly when there is no such match |
| Heuristic.PresentCount | server/routes/score.ts:29 | the number of keywords present is at most the list length, and 0 exactly when none occurs |
| Heuristic.EvidenceScore | server/routes/score.ts:29 | no contract of its own: 8 per present evidence keyword, capped at 100; stated by `FactualAccuracy` and `FactualAccuracyCounts` |
| Heuristic.BoundedHitTotal | server/routes/score.ts:30 | no contract of its own: the sum of each bias word's `\b` match count; stated by `BoundedHitCounted` and `BiasWordPenalty` |
| Heuristic.OccurrenceTotal | server/routes/score.ts:31 | no contract of its own: the sum of each contraction's match count; stated by `OccurrenceCounted`, `OccurrencesCounted` and `ContractionPenalty` |
| Heuristic.BoundedHitCounted | server/routes/score.ts:30 | each bias word's `\b` matches are part of the total bias hits |
| Heuristic.OccurrenceCounted | server/routes/score.ts:31 | each contraction's matches are part of the total contraction hits |
| Heuristic.OccurrencesCounted | server/routes/score.ts:31 | two different contractions contribute their matches separately |
| Heuristic.WordCount | server/routes/score.ts:25 | `text.split(/\s+/).length` is at least 1 |
| Heuristic.SentenceCount | server/routes/score.ts:24 | no contract of its own: the number of non-blank pieces of the `[.!?]+\s` split; stated by `NonBlankCount`, `AvgSentenceLength` and `NoSentences` |
| Heuristic.AvgSentenceLength | server/routes/score.ts:24-25 | the average (all whitespace tokens over non-blank sentences) is non-negative, and 0 exactly when there is no sentence |
| Heuristic.ObjectivityScore | server/routes/score.ts:45 | Objectivity lies in 0..100 and is 100 with no `ly`/`ive` word |
| Heuristic.Values | server/routes/score.ts:40-52 | the metric record has one value per label |
| Heuristic.ValuesInRange | server/routes/score.ts:40-52 | every value in the record lies in 0..100 |
| Heuristic.FactualAccuracy | server/routes/score.ts:41 | Factual Accuracy lies in 0..100 |
| Heuristic.AuthorCredibility | server/routes/score.ts:42 | Author Credibility lies in 0..100 |
| Heuristic.EmotionalLanguage | server/routes/score.ts:43 | Emotional Language lies in 0..100 |
| Heuristic.ExtremeStatements | server/routes/score.ts:44 | Extreme Statements lies in 0..100 |
| Heuristic.LanguageStyle | server/routes/score.ts:46 | Language Style lies in 0..100 |
| Heuristic.SentenceComplexity | server/routes/score.ts:47 | Sentence Complexity lies in 0..100 |
| Heuristic.TopicConsistency | server/routes/score.ts:48 | Topic Consistency lies in 0..100 |
| Heuristic.Readability | server/routes/score.ts:26 | Readability lies in 0..100 |
| Heuristic.BalancedCoverage | server/routes/score.ts:50 | Balanced Coverage lies in 50..98, so its cap at 100 never binds |
| Heuristic.BiasScore | server/routes/score.ts:51 | Bias lies between 0 and Extreme Statements, both taken from the same hit count |
| Heuristic.ComputeMetrics | server/routes/score.ts:40-52 | every metric lies in 0..100, and Bias ≤ Extreme Statements for every text |
| Heuristic.FactualAccuracyCounts | server/routes/score.ts:29 | Factual Accuracy is 8·k for k ≤ 12 evidence keywords present, otherwise 100 |
| Heuristic.RoundWhole | server/routes/score.ts:41 | helper fact for the arithmetic of the rows that use it: rounding a whole number keeps it |
| Heuristic.AuthorCredibilityByline | server/routes/score.ts:42 | Author Credibility is 70 when "by " occurs and 40 otherwise |
| Heuristic.BalancedCoverageMarkers | server/routes/score.ts:50 | Balanced Coverage is 50 + 12·k for k contrast markers present, so it lies in {50, 62, 74, 86, 98}; it exceeds 50 exactly when a marker occurs |
| Heuristic.EmotionalLanguageFull | server/routes/score.ts:33-34 | Emotional Language is 100 exactly when no emotional word occurs |
| Heuristic.BiasWordPenalty | server/routes/score.ts:30 | one word-bounded bias word costs Extreme Statements at least 10 points and Bias at least 12 |
| Heuristic.ContractionPenalty | server/routes/score.ts:22 | any "n't" makes Language Style ≤ 80; one "can't" or "won't" already makes it ≤ 60, because it is also counted as "n't" |
| Heuristic.NoSentences | server/routes/score.ts:24-26 | with no non-blank sentence, Readability is 0 and Sentence Complexity is 12 |
| Heuristic.TopicConsistencyBounds | server/routes/score.ts:36-37 | Topic Consistency is 0 with no topic word and 100 when no topic repeats |
| Heuristic.Average | server/routes/score.ts:64 | `avg0to1`, taken over the unrounded metrics, lies in 0..1 |
| Heuristic.RfProb | server/routes/score.ts:65 | `rfProb` lies in 0..1 |
| Heuristic.Combined | server/routes/score.ts:66 | no contract of its own: 0.7 · avg + 0.3 · rfProb; stated by `BlendBounds` and `Aggregate` |
| Heuristic.Categories | server/routes/score.ts:56-62 | there is one category per label |
| Heuristic.CategoriesFacts | server/routes/score.ts:54-62 | the eleven categories follow the label order; each has id = slug(label), weight exactly 0.7/11 (sum 0.7), score exactly `Math.round` of its metric (so within half a point), a valid range and no details |
| Heuristic.BlendBounds | server/routes/score.ts:64-66 | `rfProb` lies in 0.25..0.99 and the blend in 0.075..0.997 |
| Heuristic.TotalBounds | server/routes/score.ts:67-68 | the rounded total lies in 8..100 and is at least 60 when the blend reaches 0.6 |
| Heuristic.Aggregate | server/routes/score.ts:54-70 | total is exactly `Math.round(100·combined)`, within half a point of it; classification holds iff combined ≥ 0.6, with the matching label; for in-range metrics rfProb lies in 0.25..0.99 and total in 8..100, and True implies total ≥ 60 |
| Heuristic.ComputeHeuristicScores | server/routes/score.ts:15-71 | the metrics of the text, aggregated: rfProb lies in 0.25..0.99, the whole-number total in 8..100, and a True classification shows a total of at least 60 |
| ScoreRoute.LocalResponse | server/routes/score.ts:110-127 | the local reply carries the url, the title, the heuristic scores; modelVersion is "python-external" iff a backend is configured, else "heuristic-fallback"; notes are present iff no backend is configured |
| ScoreRoute.HasUrl | server/routes/score.ts:76-78 | no contract of its own: `url` is a non-empty string; the 400 path is stated by `HandleScore` |
| ScoreRoute.BackendConfigured | server/routes/score.ts:80-82 | no contract of its own: `PYTHON_API_URL` is set and non-empty; the backend branch is stated by `HandleScore` |
| ScoreRoute.LocalResponseValid | server/routes/score.ts:115-127 | the locally built response keeps every documented range of the contract |
| ScoreRoute.FromPage | server/routes/score.ts:99-110 | the page is fetched; a failed or non-OK fetch gives 502 "Failed to fetch article URL"; an unreadable body gives 500 |
| ScoreRoute.HandleScore | server/routes/score.ts:73-134 | a missing, empty or non-string url gives 400 with no request made; a configured backend is asked first with the url only; its parsed OK reply is returned verbatim; a bad body gives 500; a failure falls through to the page fetch and local scoring |
| ScoreRoute.OwnRepliesValid | server/routes/score.ts:117-129 | every JSON reply is valid whenever the backend's replies are |
| ScoreRoute.LocalReplyValid | server/routes/score.ts:99-129 | with no backend, or a failed one, an OK page yields a valid local reply whose model version tells whether a backend was configured |
| PyService.Penalty | python_service/app.py:145 | `1 - min(1, count/per)` lies in 0..1, is 1 at count 0, 0 from `per` hits on, and otherwise exactly 1 − count/per |
| PyService.PenaltyNonIncreasing | python_service/app.py:195 | more hits never raise the score |
| PyService.KeywordCount | python_service/app.py:144 | the keyword count is at most the token count, and 0 exactly when no token is a keyword |
| PyService.DetectBias | python_service/app.py:142-145 | the bias score lies in 0..1, is 1 exactly when no absolutist token occurs, and is 0 from 10 hits on |
| PyService.DetectExtremeStatements | python_service/app.py:148-151 | the score lies in 0..1, is 1 exactly when no extreme token occurs, and is 0 from 5 hits on |
| PyService.Objectivity | python_service/app.py:134-139 | 0 with no words; otherwise exactly 1 − adjectives/len, within 0..1 (the clamp never binds) |
| PyService.RatioAtMostOne | python_service/app.py:139 | helper fact for the arithmetic of the rows that use it: a count of at most n over n lies in 0..1 |
| PyService.TopicConsistency | python_service/app.py:163-165 | 0 with no topic; otherwise in (0, 1], and 1 exactly when no topic repeats (case-insensitively) |
| PyService.Topics | python_service/app.py:164 | no contract of its own: the case-insensitive `findall` of the topic words; stated by `TopicConsistency` |
| PyService.PieceLengths | python_service/app.py:170 | every non-blank sentence has at least one word |
| PyService.SentenceLengths | python_service/app.py:169-170 | no contract of its own: the word counts of the non-blank sentences; stated by `PieceLengths` and `SentenceComplexity` |
| PyService.NatSumAtLeastLength | python_service/app.py:173 | helper fact for the arithmetic of the rows that use it: lengths of at least 1 sum to at least their number |
| PyService.SentenceComplexity | python_service/app.py:168-175 | 0 with no sentence; otherwise min(1, (mean − 1)/49), the mean being at least 1 |
| PyService.MeanAtLeastOne | python_service/app.py:173 | helper fact for the arithmetic of the rows that use it: a sum of at least n over n is at least 1 |
| PyService.Formality | python_service/app.py:193-195 | formality lies in 0..1, is 1 with no contraction and 0 with five or more |
| PyService.ContractionHits | python_service/app.py:194 | no contract of its own: the word-bounded `findall` on the lower-cased text; stated by `Formality`, `NtInsideWordNoHit` and `DontIsFormal` |
| PyService.NtInsideWordNoHit | python_service/app.py:194 | an "n't" straight after a word character is never the reported alternative |
| PyService.DontIsFormal | python_service/app.py:193-195 | "don't" yields no contraction hit, so its formality is 1 |
| PyService.LabelScore | python_service/app.py:182-184 | the zero-shot score of the wanted label, 0.5 when it is not listed |
| PyService.AuthorCredibility | python_service/app.py:187-190 | credibility lies in 0..1 and reaches 1 exactly from three persons on |
| PyService.EmotionalLanguage | python_service/app.py:127-131 | lies in 0..1 and is (pos − neg + 1)/2 when the net sentiment is within −1..1 |
| PyService.Readability | python_service/app.py:154-160 | lies in 0..1, is 0.5 when textstat fails, and 1 exactly at grade 10 |
| PyService.CriterionValues | python_service/app.py:222-234 | eleven values, all in 0..1 once the passed-on model outputs are |
| PyService.Pair | python_service/app.py:222-234 | the criteria pair the names with the values in order |
| PyService.Evaluate | python_service/app.py:220-234 | the rubric has the eleven criteria in dict order, all in 0..1 once the model outputs passed on are |
| PyService.RubricValues | python_service/app.py:250 | `list(rubric.values())` keeps order and length |
| PyService.Mean | python_service/app.py:251 | the mean of values in 0..1 lies in 0..1 |
| PyService.MeanInUnit | python_service/app.py:251 | helper fact for the arithmetic of the rows that use it: a sum within 0..n over n lies in 0..1 |
| PyService.Combined | python_service/app.py:254 | the 70/30 blend of two values in 0..1 lies in 0..1 |
| PyService.CategoryOf | python_service/app.py:259-267 | a category's id is the slug of its label, its score is within 0.005 of the criterion as a percentage and in 0..100 |
| PyService.BuildCategories | python_service/app.py:256-267 | the loop appends exactly one category per criterion, in order |
| PyService.CategoriesOf | python_service/app.py:256-267 | no contract of its own: one category per criterion at weight 0.7/n; `BuildCategories` computes exactly it, and `ResponseFacts` states it |
| PyService.Assemble | python_service/app.py:271-281 | no contract of its own: the response fields; stated by `ResponseFacts` |
| PyService.Response | python_service/app.py:249-281 | no contract of its own: the OK response of `score`; stated by `ResponseFacts` and `ScoreValid` |
| PyService.ResponseFacts | python_service/app.py:269-281 | total is within 0.005 of 100·(0.7·mean + 0.3·rf); weights are 0.7/len; classification holds iff the blend ≥ 0.6, with label "True"/"False"; the response is valid when its inputs lie in 0..1 |
| PyService.Score | python_service/app.py:241-282 | an empty or non-`http://`/`https://` url gives 400 before fetching; a non-200 fetch gives 502; text shorter than 100 characters gives 422; otherwise the 70/30 response, and only then |
| PyService.ValidServiceUrl | python_service/app.py:242 | no contract of its own: non-empty with a case-sensitive "http://" or "https://" prefix; `Score` states the 400 reply exactly when it fails |
| PyService.ScoreValid | python_service/app.py:271-281 | with the passed-on model outputs in 0..1, the response keeps every documented range |
| RubricCard.Bin | client/components/rubric/RubricCard.tsx:12 | bin is 1 iff the score is at least 50, else 0 |
| RubricCard.ShownGradeScore | client/components/rubric/RubricCard.tsx:13 | on a binary card the graded score is 0 or 100 (100 iff passing); otherwise it is the score |
| RubricCard.GradeOf | client/components/rubric/RubricCard.tsx:14 | A iff ≥ 85, B iff 70..85, C iff 55..70, D below 55 |
| RubricCard.GradeMonotone | client/components/rubric/RubricCard.tsx:14 | a higher shown score never gets a worse grade |
| RubricCard.BinaryGrade | client/components/rubric/RubricCard.tsx:12-14 | on a binary card the grade is A for a passing score and D otherwise |
| RubricCard.CardFor | client/components/rubric/RubricCard.tsx:12-29 | bin and graded score come from the card's score; a binary card's bar is 100 for a passing score and 0 otherwise, with text `bin/1` and grade A or D; a plain card's bar is the score, with text `score/100`; a 0..100 score gives a 0..100 bar |
| IndexPage.ErrorMessage | client/pages/Index.tsx:31 | the shown message is never empty and is the error's own message when that is not empty |
| IndexPage.ValidHttpUrl | client/pages/Index.tsx:16 | no contract of its own: `/^https?:\/\//i`, a case-insensitive "http://" or "https://" prefix; `ScoreForm.BeginSubmit` and `ScoreForm.HandleSubmit` state that a request is sent exactly when it holds |
| IndexPage.ScoreForm.constructor | client/pages/Index.tsx:7-10 | the page starts with an empty URL, no error, no result, not loading |
| IndexPage.ScoreForm.SetUrl | client/pages/Index.tsx:55 | editing the input changes only the URL |
| IndexPage.ScoreForm.BeginSubmit | client/pages/Index.tsx:12-26 | error and result are cleared; a URL without an http(s) prefix (any case) sets "Enter a valid http(s) URL" without loading or sending; otherwise loading starts and the URL is posted |
| IndexPage.ScoreForm.CompleteSubmit | client/pages/Index.tsx:27-34 | an OK reply becomes the result with no error; a non-OK reply or an exception becomes the error (or "Something went wrong") with no result; loading ends either way |
| IndexPage.ScoreForm.HandleSubmit | client/pages/Index.tsx:12-35 | exactly one request is sent iff the URL is valid, and loading is off afterwards; an OK reply becomes the result, a non-OK reply or an exception becomes the error message (or "Something went wrong"); never an error and a result at once |
| IndexPage.VerdictFor | client/pages/Index.tsx:86-91 | on t = round(total): t ≤ 20 "Don't trust this website", 21–50 "Proceed with caution", 51–70 "Trustworthy", above 70 "Almost certainly true" |
| IndexPage.VerdictText | client/pages/Index.tsx:88-91 | no contract of its own: the four verdict strings; the bands are stated by `VerdictFor` |
| IndexPage.RoundMonotone | client/pages/Index.tsx:86 | helper fact for the arithmetic of the rows that use it: rounding is monotone |
| IndexPage.VerdictMonotone | client/pages/Index.tsx:86-91 | a higher total never gets a worse verdict |
| IndexPage.Cards | client/pages/Index.tsx:102-114 | one plain card per category in order, then, only when rfProb is present, a binary "Random Forest" card with score round(rfProb·100) and weight 0.3 |
| IndexPage.RfProbCardPasses | client/pages/Index.tsx:105-113 | the Random Forest card grades A exactly when rfProb ≥ 0.495, and D otherwise |

## Left out

- Network, file and process I/O are not modelled. This covers `fetch`, `requests.get`, the model downloads and loading, Express/FastAPI wiring, logging and `process.env`. Their outcomes are parameters: `UrlField`, the backend setting, `BackendOutcome`, `PageOutcome`, `FetchOutcome` and `ApiOutcome`.
- Language models and NLP helpers are inputs (`MlSignals`, the token list, the preprocessed text, the fetched article text and title). This covers the zero-shot classifier, NER, VADER, textstat, the bag-of-words random forest, NLTK tokenising, stop words and BeautifulSoup.
- Case folding is ASCII only (`Lower`). JavaScript `toLowerCase`, Python `lower()` and `re.IGNORECASE` also fold non-ASCII letters.
- Python's `\b` is modelled with the ASCII word set [A-Za-z0-9_]. Python also treats non-ASCII letters and digits as word characters.
- IEEE floating point is not modelled. All ratios and blends are exact reals, and the roundings round the exact value.
- Async interleaving on the page is not modelled. `BeginSubmit` and `CompleteSubmit` are separate steps, but other events between them (a second submit, URL edits while loading) are not ruled in or out.
- The unused `lengthScore` (server/routes/score.ts:18) is dead code, and `log10` is not modelled.
- The metacharacter-escape `replace` (server/routes/score.ts:30-31) is not modelled. It has no effect on the fixed word lists, which contain no metacharacters.
- Presentation is not modelled. This covers React markup, CSS classes, the weight text `toFixed(1)`, the model-version line, SiteHeader, SiteFooter and NotFound.
- Python: an unhandled exception in `requests.get` is modelled as FastAPI's generic 500 reply. Exceptions raised by the models themselves are not modelled.
- ScoreRoute.HandleScore: the backend's parsed JSON is passed on without a check that it matches the contract. The model therefore only proves replies valid when the backend's are.
