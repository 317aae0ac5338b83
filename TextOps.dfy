/** Text helpers shared by the TypeScript scorer and the Python service: the
    character classes their regular expressions use, ASCII case folding,
    literal-pattern scans that stand in for the specific regular expressions
    of the source, string splitting, the category-id slug, and the rounding
    functions of both languages. */
module TextOps {

  datatype Option<T> = None | Some(value: T)

  function Min(a: real, b: real): real { if a <= b then a else b }
  function Max(a: real, b: real): real { if a >= b then a else b }
  function Abs(a: real): real { if a < 0.0 then -a else a }

  /** `Math.max(0, Math.min(100, x))` */
  function Clamp100(x: real): (r: real)
    ensures 0.0 <= r <= 100.0
    ensures 0.0 <= x <= 100.0 ==> r == x
  {
    Max(0.0, Min(100.0, x))
  }

  /** `max(0.0, min(1.0, x))` */
  function Clamp01(x: real): (r: real)
    ensures 0.0 <= r <= 1.0
    ensures 0.0 <= x <= 1.0 ==> r == x
  {
    Max(0.0, Min(1.0, x))
  }

  // ---------------------------------------------------------------------
  // Characters

  /** ASCII upper-case letters become lower case; every other character is kept. */
  function LowerChar(c: char): char
  {
    if 'A' <= c <= 'Z' then (c as int + 32) as char else c
  }

  function Lower(s: string): string
  {
    seq(|s|, i requires 0 <= i < |s| => LowerChar(s[i]))
  }

  /** JavaScript `\s` (also the set `String.prototype.trim` removes). */
  predicate IsJsSpace(c: char)
  {
    var n := c as int;
    (9 <= n <= 13) || n == 32 || n == 0xA0 || n == 0x1680 || (0x2000 <= n <= 0x200A)
    || n == 0x2028 || n == 0x2029 || n == 0x202F || n == 0x205F || n == 0x3000 || n == 0xFEFF
  }

  /** Python `str.isspace`, which `str.split()`, `str.strip()` and `re`'s `\s` use. */
  predicate IsPySpace(c: char)
  {
    var n := c as int;
    (9 <= n <= 13) || (0x1C <= n <= 0x1F) || n == 32 || n == 0x85 || n == 0xA0 || n == 0x1680
    || (0x2000 <= n <= 0x200A) || n == 0x2028 || n == 0x2029 || n == 0x202F || n == 0x205F || n == 0x3000
  }

  /** The characters a regular-expression `.` does not match. */
  predicate IsLineTerminator(c: char)
  {
    c == '\n' || c == '\r' || c as int == 0x2028 || c as int == 0x2029
  }

  /** Regular-expression word characters `[A-Za-z0-9_]`. */
  predicate IsWordChar(c: char)
  {
    'a' <= c <= 'z' || 'A' <= c <= 'Z' || '0' <= c <= '9' || c == '_'
  }

  predicate IsSentencePunct(c: char)
  {
    c == '.' || c == '!' || c == '?'
  }

  // ---------------------------------------------------------------------
  // Literal patterns

  predicate StartsWith(s: string, p: string)
  {
    |p| <= |s| && s[..|p|] == p
  }

  predicate EndsWith(s: string, p: string)
  {
    |p| <= |s| && s[|s| - |p|..] == p
  }

  /** Case-insensitive prefix test for a lower-case ASCII pattern (regex flag `i`). */
  predicate StartsWithCI(s: string, p: string)
  {
    |p| <= |s| && Lower(s[..|p|]) == p
  }

  /** A word ending in "ly" or "ive", which both scorers count as an adjective. */
  predicate AdverbLike(w: string)
  {
    EndsWith(w, "ly") || EndsWith(w, "ive")
  }

  /** The literal `p` occurs in `s` at position `i`. */
  predicate MatchAt(s: string, i: int, p: string)
  {
    0 <= i && i + |p| <= |s| && s[i..i + |p|] == p
  }

  /** `s.includes(p)` / Python `p in s`. */
  predicate Contains(s: string, p: string)
  {
    exists i :: 0 <= i <= |s| && MatchAt(s, i, p)
  }

  /** Number of non-overlapping occurrences of `p` in `s[i..]`, found left to
      right: the length of `s.match(/p/g)` for a literal `p`. */
  function CountFrom(s: string, p: string, i: nat): nat
    requires i <= |s|
    decreases |s| - i
  {
    if |p| == 0 then |s| - i + 1
    else if i + |p| > |s| then 0
    else if s[i..i + |p|] == p then 1 + CountFrom(s, p, i + |p|)
    else CountFrom(s, p, i + 1)
  }

  function CountOccurrences(s: string, p: string): nat
  {
    CountFrom(s, p, 0)
  }

  /** An occurrence of a non-empty pattern at or after `i` is counted. */
  lemma {:induction false} CountFromPositive(s: string, p: string, i: nat, j: int)
    requires i <= |s| && |p| > 0
    requires i <= j && MatchAt(s, j, p)
    ensures CountFrom(s, p, i) >= 1
    decreases |s| - i
  {
    if s[i..i + |p|] != p {
      assert i != j;
      CountFromPositive(s, p, i + 1, j);
    }
  }

  /** Containment and counting agree: a contained non-empty pattern is counted at least once. */
  lemma ContainsCounted(s: string, p: string)
    requires |p| > 0 && Contains(s, p)
    ensures CountOccurrences(s, p) >= 1
  {
    var j :| 0 <= j <= |s| && MatchAt(s, j, p);
    CountFromPositive(s, p, 0, j);
  }

  /** A pattern contained in a contained pattern is contained. */
  lemma ContainsInner(s: string, outer: string, k: nat, inner: string)
    requires Contains(s, outer)
    requires k + |inner| <= |outer| && outer[k..k + |inner|] == inner
    ensures Contains(s, inner)
  {
    var j :| 0 <= j <= |s| && MatchAt(s, j, outer);
    assert forall m :: 0 <= m < |outer| ==> s[j + m] == outer[m];
    assert forall t :: 0 <= t < |inner| ==> s[j + k + t] == outer[k + t] == inner[t];
    assert s[j + k..j + k + |inner|] == inner;
    assert MatchAt(s, j + k, inner);
  }

  // ---------------------------------------------------------------------
  // Word-boundary alternations: `\b(p1|p2|...)\b` with the flag `g`

  predicate WordAt(s: string, i: int)
  {
    0 <= i < |s| && IsWordChar(s[i])
  }

  /** `\b` at position `i`: a word character on exactly one side. */
  predicate Boundary(s: string, i: int)
  {
    WordAt(s, i - 1) != WordAt(s, i)
  }

  predicate BoundedMatchAt(s: string, i: int, p: string)
  {
    Boundary(s, i) && MatchAt(s, i, p) && Boundary(s, i + |p|)
  }

  /** The first alternative, in the order written, that matches at `i`. */
  function FirstAlternative(s: string, i: int, pats: seq<string>): (r: Option<string>)
    ensures r.Some? ==> r.value in pats && BoundedMatchAt(s, i, r.value)
    ensures r.None? ==> forall p :: p in pats ==> !BoundedMatchAt(s, i, p)
  {
    if pats == [] then None
    else if BoundedMatchAt(s, i, pats[0]) then Some(pats[0])
    else FirstAlternative(s, i, pats[1..])
  }

  /** The chosen alternative is the first in written order that matches:
      it is written no later than any alternative that matches at `i`. */
  lemma {:induction false} FirstAlternativeFirst(s: string, i: int, pats: seq<string>, m: nat)
    requires m < |pats| && BoundedMatchAt(s, i, pats[m])
    ensures FirstAlternative(s, i, pats).Some?
    ensures FirstAlternative(s, i, pats).value in pats[..m + 1]
    decreases m
  {
    if !BoundedMatchAt(s, i, pats[0]) {
      assert pats[1..][m - 1] == pats[m];
      FirstAlternativeFirst(s, i, pats[1..], m - 1);
      assert pats[1..][..m] == pats[1..m + 1];
    }
  }

  /** The list of matched alternatives of `\b(pats)\b` scanned from `i`,
      leftmost first, each scan resuming after the previous match. */
  function WordHitsFrom(s: string, pats: seq<string>, i: nat): (r: seq<string>)
    requires i <= |s|
    ensures forall k :: 0 <= k < |r| ==> r[k] in pats
    decreases |s| - i
  {
    if i == |s| then []
    else match FirstAlternative(s, i, pats)
      case Some(p) => [p] + WordHitsFrom(s, pats, if |p| == 0 then i + 1 else i + |p|)
      case None => WordHitsFrom(s, pats, i + 1)
  }

  function WordHits(s: string, pats: seq<string>): seq<string>
  {
    WordHitsFrom(s, pats, 0)
  }

  /** A word-bounded occurrence of one of the (non-empty) alternatives at or
      after `i` makes the scan report at least one match. */
  lemma {:induction false} WordHitFound(s: string, pats: seq<string>, i: nat, j: int, p: string)
    requires i <= |s| && i <= j
    requires forall q :: q in pats ==> |q| > 0
    requires p in pats && BoundedMatchAt(s, j, p)
    ensures |WordHitsFrom(s, pats, i)| >= 1
    decreases |s| - i
  {
    if FirstAlternative(s, i, pats).None? {
      assert i != j;
      WordHitFound(s, pats, i + 1, j, p);
    }
  }

  // ---------------------------------------------------------------------
  // Splitting on `/\s+/` and `/[.!?]+\s/`

  /** End of the longest run of `cls` characters that starts at `i`. */
  function RunEnd(s: string, i: nat, cls: char -> bool): (j: nat)
    requires i <= |s|
    ensures i <= j <= |s|
    ensures forall k :: i <= k < j ==> cls(s[k])
    ensures j == |s| || !cls(s[j])
    decreases |s| - i
  {
    if i < |s| && cls(s[i]) then RunEnd(s, i + 1, cls) else i
  }

  datatype Separator =
    | WhitespaceRun   // `\s+`
    | SentenceBreak   // `[.!?]+\s`

  /** Length of the separator match starting at `i`, 0 when there is none.
      For `[.!?]+\s` only the longest punctuation run can be followed by the
      whitespace, since punctuation is not whitespace; so backtracking the
      `+` never finds a different match. */
  function SeparatorLength(sep: Separator, ws: char -> bool, s: string, i: nat): (n: nat)
    requires i <= |s|
    ensures i + n <= |s|
  {
    match sep
    case WhitespaceRun => RunEnd(s, i, ws) - i
    case SentenceBreak =>
      var j := RunEnd(s, i, IsSentencePunct);
      if i < j < |s| && ws(s[j]) then j + 1 - i else 0
  }

  /** `s.split(re)` / `re.split(pattern, s)` for a separator that never
      matches the empty string: the pieces between successive leftmost matches. */
  function SplitFrom(s: string, sep: Separator, ws: char -> bool, start: nat, i: nat): (r: seq<string>)
    requires start <= i <= |s|
    ensures |r| >= 1
    decreases |s| - i
  {
    if i == |s| then [s[start..]]
    else
      var n := SeparatorLength(sep, ws, s, i);
      if n > 0 then [s[start..i]] + SplitFrom(s, sep, ws, i + n, i + n)
      else SplitFrom(s, sep, ws, start, i + 1)
  }

  function Split(s: string, sep: Separator, ws: char -> bool): seq<string>
  {
    SplitFrom(s, sep, ws, 0, 0)
  }

  function NonEmptyPieces(ss: seq<string>): seq<string>
  {
    if ss == [] then []
    else (if ss[0] != [] then [ss[0]] else []) + NonEmptyPieces(ss[1..])
  }

  /** Python `s.split()` with no argument: whitespace runs separate, empty pieces dropped. */
  function PyWords(s: string): seq<string>
  {
    NonEmptyPieces(Split(s, WhitespaceRun, IsPySpace))
  }

  /** `t.trim().length > 0` / `t.strip()` is non-empty. */
  predicate NonBlank(t: string, ws: char -> bool)
  {
    exists k :: 0 <= k < |t| && !ws(t[k])
  }

  function NonBlankCount(ss: seq<string>, ws: char -> bool): (n: nat)
    ensures n <= |ss|
  {
    if ss == [] then 0
    else (if NonBlank(ss[0], ws) then 1 else 0) + NonBlankCount(ss[1..], ws)
  }

  /** A piece under way (`start < i`) or a non-blank character ahead makes a
      whitespace split yield a non-empty piece. */
  lemma {:induction false} SplitFromHasWord(s: string, ws: char -> bool, start: nat, i: nat)
    requires start <= i <= |s|
    requires start < i || exists k :: i <= k < |s| && !ws(s[k])
    ensures |NonEmptyPieces(SplitFrom(s, WhitespaceRun, ws, start, i))| >= 1
    decreases |s| - i
  {
    var r := SplitFrom(s, WhitespaceRun, ws, start, i);
    if i == |s| {
      assert r == [s[start..]];
    } else {
      var n := SeparatorLength(WhitespaceRun, ws, s, i);
      if n > 0 {
        var rest := SplitFrom(s, WhitespaceRun, ws, i + n, i + n);
        assert r == [s[start..i]] + rest;
        assert r[1..] == rest;
        if start == i {
          var k :| i <= k < |s| && !ws(s[k]);
          assert i + n <= k;
          SplitFromHasWord(s, ws, i + n, i + n);
        }
      } else {
        SplitFromHasWord(s, ws, start, i + 1);
      }
    }
  }

  /** A non-blank Python string has at least one `split()` word. */
  lemma NonBlankHasWord(t: string)
    requires NonBlank(t, IsPySpace)
    ensures |PyWords(t)| >= 1
  {
    SplitFromHasWord(t, IsPySpace, 0, 0);
  }

  // ---------------------------------------------------------------------
  // Distinct elements (`new Set(xs).size`, `len(set(xs))`)

  function Elems(xs: seq<string>): (r: set<string>)
    ensures forall x :: x in r <==> x in xs
  {
    if xs == [] then {} else {xs[0]} + Elems(xs[1..])
  }

  predicate Distinct(xs: seq<string>)
  {
    forall i, j :: 0 <= i < j < |xs| ==> xs[i] != xs[j]
  }

  /** The set of a list is never larger than the list, and is as large exactly
      when no element repeats. */
  lemma {:induction false} ElemsCard(xs: seq<string>)
    ensures |Elems(xs)| <= |xs|
    ensures |Elems(xs)| == |xs| <==> Distinct(xs)
  {
    if xs != [] {
      var t := xs[1..];
      ElemsCard(t);
      if xs[0] in t {
        var j :| 0 <= j < |t| && t[j] == xs[0];
        assert xs[0] == xs[j + 1];
        assert {xs[0]} + Elems(t) == Elems(t);
      } else {
        assert xs[0] !in Elems(t);
        assert Distinct(xs) <==> Distinct(t) by {
          if Distinct(t) {
            forall i, j | 0 <= i < j < |xs| ensures xs[i] != xs[j] {
              if i > 0 { assert xs[i] == t[i - 1] && xs[j] == t[j - 1]; }
              else { assert xs[j] == t[j - 1]; }
            }
          }
          if Distinct(xs) {
            forall i, j | 0 <= i < j < |t| ensures t[i] != t[j] {
              assert t[i] == xs[i + 1] && t[j] == xs[j + 1];
            }
          }
        }
      }
    }
  }

  /** `len(set(xs)) / len(xs)`, or 0 for an empty list. */
  function DistinctRatio(xs: seq<string>): (r: real)
    ensures xs == [] ==> r == 0.0
    ensures xs != [] ==> 0.0 < r <= 1.0
    ensures r == 1.0 <==> xs != [] && Distinct(xs)
  {
    ElemsCard(xs);
    if xs == [] then 0.0
    else
      assert xs[0] in Elems(xs);
      RatioFacts(|Elems(xs)| as real, |xs| as real);
      |Elems(xs)| as real / |xs| as real
  }

  lemma RatioFacts(d: real, n: real)
    requires 0.0 < d <= n
    ensures 0.0 < d / n <= 1.0
    ensures d / n == 1.0 <==> d == n
  {
    assert d / n * n == d;
  }

  // ---------------------------------------------------------------------
  // Counting and summing

  function CountWhere(xs: seq<string>, f: string -> bool): (n: nat)
    ensures n <= |xs|
  {
    if xs == [] then 0 else (if f(xs[0]) then 1 else 0) + CountWhere(xs[1..], f)
  }

  function Sum(xs: seq<real>): real
  {
    if xs == [] then 0.0 else xs[0] + Sum(xs[1..])
  }

  /** Values between `lo` and `hi` sum to between `|xs|` times each. */
  lemma {:induction false} SumBounds(xs: seq<real>, lo: real, hi: real)
    requires forall i :: 0 <= i < |xs| ==> lo <= xs[i] <= hi
    ensures |xs| as real * lo <= Sum(xs) <= |xs| as real * hi
  {
    if xs != [] {
      SumBounds(xs[1..], lo, hi);
      assert |xs| as real * lo == (|xs| - 1) as real * lo + lo;
      assert |xs| as real * hi == (|xs| - 1) as real * hi + hi;
    }
  }

  // ---------------------------------------------------------------------
  // Category ids: lower case, `[^a-z0-9]+` runs to '-', edge '-' removed

  predicate IsSlugChar(c: char)
  {
    'a' <= c <= 'z' || '0' <= c <= '9'
  }

  predicate IsNotSlugChar(c: char)
  {
    !IsSlugChar(c)
  }

  /** The letters and digits of a text, in order. */
  function Letters(s: string): string
  {
    if s == [] then []
    else (if IsSlugChar(s[0]) then [s[0]] else []) + Letters(s[1..])
  }

  lemma {:induction false} LettersAppend(a: string, b: string)
    ensures Letters(a + b) == Letters(a) + Letters(b)
    decreases |a|
  {
    if a != [] {
      assert (a + b)[0] == a[0] && (a + b)[1..] == a[1..] + b;
      LettersAppend(a[1..], b);
      var h := if IsSlugChar(a[0]) then [a[0]] else [];
      assert Letters(a + b) == h + (Letters(a[1..]) + Letters(b));
      assert h + (Letters(a[1..]) + Letters(b)) == (h + Letters(a[1..])) + Letters(b);
    } else {
      assert a + b == b;
    }
  }

  lemma {:induction false} NoLetters(t: string)
    requires forall k :: 0 <= k < |t| ==> IsNotSlugChar(t[k])
    ensures Letters(t) == []
    decreases |t|
  {
    if t != [] {
      assert IsNotSlugChar(t[0]);
      NoLetters(t[1..]);
    }
  }

  /** `.replace(/[^a-z0-9]+/g, "-")` */
  function DashRuns(s: string): (r: string)
    ensures forall k :: 0 <= k < |r| ==> IsSlugChar(r[k]) || r[k] == '-'
    ensures s != [] && IsSlugChar(s[0]) ==> r != [] && r[0] == s[0]
    ensures forall k :: 0 <= k < |r| - 1 ==> !(r[k] == '-' && r[k + 1] == '-')
    ensures Letters(r) == Letters(s)
    decreases |s|
  {
    if s == [] then []
    else if IsSlugChar(s[0]) then
      var rest := DashRuns(s[1..]);
      LettersAppend([s[0]], rest);
      [s[0]] + rest
    else
      var j := RunEnd(s, 0, IsNotSlugChar);
      var rest := DashRuns(s[j..]);
      assert rest != [] ==> rest[0] != '-';
      LettersAppend("-", rest);
      assert Letters("-") == [];
      assert s == s[..j] + s[j..];
      LettersAppend(s[..j], s[j..]);
      NoLetters(s[..j]);
      "-" + rest
  }

  /** Removes one leading and one trailing '-'. In score.ts this is
      `.replace(/^-|-$|/g, "")`: the global replace removes a '-' at the
      start and one at the end, and its empty third alternative only
      replaces empty matches by nothing, so it changes nothing. In app.py it
      is `.strip("-")`, which agrees once runs are collapsed. */
  function StripEdgeDash(s: string): string
  {
    var a := if s != [] && s[0] == '-' then s[1..] else s;
    if a != [] && a[|a| - 1] == '-' then a[..|a| - 1] else a
  }

  predicate IsSlug(s: string)
  {
    && (forall k :: 0 <= k < |s| ==> IsSlugChar(s[k]) || s[k] == '-')
    && (forall k :: 0 <= k < |s| - 1 ==> !(s[k] == '-' && s[k + 1] == '-'))
    && (s != [] ==> s[0] != '-' && s[|s| - 1] != '-')
  }

  /** An id is made of its label: slug-shaped, and its letters and digits
      are exactly those of the lower-cased label, in order. */
  function Slug(name: string): (r: string)
    ensures IsSlug(r)
    ensures Letters(r) == Letters(Lower(name))
  {
    StripEdgeDashLetters(DashRuns(Lower(name)));
    StripEdgeDash(DashRuns(Lower(name)))
  }

  lemma {:induction false} DashRunsKeepsSlug(s: string)
    requires forall k :: 0 <= k < |s| ==> IsSlugChar(s[k]) || s[k] == '-'
    requires forall k :: 0 <= k < |s| - 1 ==> !(s[k] == '-' && s[k + 1] == '-')
    ensures DashRuns(s) == s
    decreases |s|
  {
    if s != [] {
      if IsSlugChar(s[0]) {
        DashRunsKeepsSlug(s[1..]);
      } else {
        var j := RunEnd(s, 0, IsNotSlugChar);
        assert IsNotSlugChar(s[0]);
        if |s| > 1 { assert !IsNotSlugChar(s[1]); }
        assert j == 1;
        DashRunsKeepsSlug(s[1..]);
        assert s == "-" + s[1..];
      }
    }
  }

  /** Applying the id rule to an id changes nothing. */
  lemma SlugIdempotent(name: string)
    ensures Slug(Slug(name)) == Slug(name)
  {
    var s := Slug(name);
    LowerKeepsSlug(s);
    DashRunsKeepsSlug(s);
    assert StripEdgeDash(s) == s;
  }

  lemma LowerKeepsSlug(s: string)
    requires IsSlug(s)
    ensures Lower(s) == s
  {
    forall k | 0 <= k < |s| ensures Lower(s)[k] == s[k] {
      assert IsSlugChar(s[k]) || s[k] == '-';
    }
  }

  /** Trimming the edge dashes keeps every letter and digit. */
  lemma StripEdgeDashLetters(s: string)
    ensures Letters(StripEdgeDash(s)) == Letters(s)
  {
    var a := if s != [] && s[0] == '-' then s[1..] else s;
    if s != [] && s[0] == '-' {
      assert s == "-" + s[1..];
      LettersAppend("-", s[1..]);
    }
    if a != [] && a[|a| - 1] == '-' {
      assert a == a[..|a| - 1] + "-";
      LettersAppend(a[..|a| - 1], "-");
    }
  }

  /** Reference reading of `[^a-z0-9]+` to "-": first every non-slug
      character becomes '-', then each run of dashes is squeezed to one. */
  function Dashed(s: string): (r: string)
    ensures |r| == |s|
  {
    seq(|s|, i requires 0 <= i < |s| => if IsSlugChar(s[i]) then s[i] else '-')
  }

  function Squeeze(s: string): string
  {
    if |s| <= 1 then s
    else if s[0] == '-' && s[1] == '-' then Squeeze(s[1..])
    else [s[0]] + Squeeze(s[1..])
  }

  lemma {:induction false} SqueezeRun(u: string, t: string)
    requires |u| >= 1 && forall k :: 0 <= k < |u| ==> u[k] == '-'
    requires t == [] || t[0] != '-'
    ensures Squeeze(u + t) == "-" + Squeeze(t)
    decreases |u|
  {
    if |u| == 1 {
      if t != [] {
        assert (u + t)[1..] == t;
      }
    } else {
      assert (u + t)[1..] == u[1..] + t;
      SqueezeRun(u[1..], t);
    }
  }

  lemma SqueezeCons(d: string)
    requires d != [] && d[0] != '-'
    ensures Squeeze(d) == [d[0]] + Squeeze(d[1..])
  {
  }

  lemma SqueezeDashedRun(s: string, j: nat)
    requires 0 < j <= |s| && forall k :: 0 <= k < j ==> IsNotSlugChar(s[k])
    requires j == |s| || !IsNotSlugChar(s[j])
    ensures Squeeze(Dashed(s)) == "-" + Squeeze(Dashed(s[j..]))
  {
    var d := Dashed(s);
    assert d[j..] == Dashed(s[j..]);
    assert d == d[..j] + d[j..];
    SqueezeRun(d[..j], d[j..]);
  }

  /** Run collapsing is the per-character replacement followed by squeezing
      dashes: a '-' stands exactly where a run of other characters stood. */
  lemma {:induction false} DashRunsSqueeze(s: string)
    ensures DashRuns(s) == Squeeze(Dashed(s))
    decreases |s|
  {
    if s != [] {
      var d := Dashed(s);
      if IsSlugChar(s[0]) {
        DashRunsSqueeze(s[1..]);
        assert d[1..] == Dashed(s[1..]);
        SqueezeCons(d);
      } else {
        var j := RunEnd(s, 0, IsNotSlugChar);
        DashRunsSqueeze(s[j..]);
        SqueezeDashedRun(s, j);
      }
    }
  }

  /** The id rule as one reference definition over the lower-cased label. */
  lemma SlugSqueezed(name: string)
    ensures Slug(name) == StripEdgeDash(Squeeze(Dashed(Lower(name))))
  {
    DashRunsSqueeze(Lower(name));
  }

  /** Python's `str.strip("-")`: every leading and trailing '-'. */
  function StripLeadingDashes(s: string): (r: string)
    ensures r == [] || r[0] != '-'
    ensures |r| <= |s| && r == s[|s| - |r|..]
  {
    if s != [] && s[0] == '-' then StripLeadingDashes(s[1..]) else s
  }

  function StripTrailingDashes(s: string): (r: string)
    ensures r == [] || r[|r| - 1] != '-'
    ensures |r| <= |s| && r == s[..|r|]
  {
    if s != [] && s[|s| - 1] == '-' then StripTrailingDashes(s[..|s| - 1]) else s
  }

  function StripDashes(s: string): (r: string)
    ensures r == [] || (r[0] != '-' && r[|r| - 1] != '-')
  {
    StripTrailingDashes(StripLeadingDashes(s))
  }

  predicate SingleDashes(s: string)
  {
    forall k :: 0 <= k < |s| - 1 ==> !(s[k] == '-' && s[k + 1] == '-')
  }

  lemma LeadingAgrees(s: string)
    requires SingleDashes(s)
    ensures StripLeadingDashes(s) == if s != [] && s[0] == '-' then s[1..] else s
  {
    if s != [] && s[0] == '-' && |s| > 1 {
      assert s[1..][0] == s[1] != '-';
    }
  }

  lemma TrailingAgrees(s: string)
    requires SingleDashes(s)
    ensures StripTrailingDashes(s) == if s != [] && s[|s| - 1] == '-' then s[..|s| - 1] else s
  {
    if s != [] && s[|s| - 1] == '-' && |s| > 1 {
      assert s[..|s| - 1][|s| - 2] == s[|s| - 2] != '-';
    }
  }

  /** Without two dashes in a row, stripping every edge dash is removing
      one at each end. */
  lemma StripDashesAgrees(s: string)
    requires SingleDashes(s)
    ensures StripDashes(s) == StripEdgeDash(s)
  {
    LeadingAgrees(s);
    if s != [] && s[0] == '-' {
      TailSingleDashes(s);
      TrailingAgrees(s[1..]);
    } else {
      TrailingAgrees(s);
    }
  }

  lemma TailSingleDashes(s: string)
    requires s != [] && SingleDashes(s)
    ensures SingleDashes(s[1..])
  {
    forall k | 0 <= k < |s| - 2 ensures !(s[1..][k] == '-' && s[1..][k + 1] == '-') {
      assert s[1..][k] == s[k + 1] && s[1..][k + 1] == s[k + 2];
    }
  }

  /** The Python service's id rule, `.strip("-")` after the same run
      collapsing, gives the same id as the server's. */
  lemma PythonSlug(name: string)
    ensures StripDashes(DashRuns(Lower(name))) == Slug(name)
  {
    StripDashesAgrees(DashRuns(Lower(name)));
  }

  // ---------------------------------------------------------------------
  // Rounding

  /** JavaScript `Math.round`: the nearest integer, ties toward +infinity. */
  function RoundHalfUp(x: real): (n: int)
    ensures x - 0.5 < n as real <= x + 0.5
  {
    (x + 0.5).Floor
  }

  /** The nearest integer, ties to the even one (Python's `round`). */
  function RoundHalfEven(y: real): (n: int)
    ensures y - 0.5 <= n as real <= y + 0.5
    ensures (n as real - y == 0.5 || y - n as real == 0.5) ==> n % 2 == 0
  {
    var f := y.Floor;
    var d := y - f as real;
    if d < 0.5 then f
    else if d > 0.5 then f + 1
    else if f % 2 == 0 then f
    else f + 1
  }

  /** Python `round(x, 2)` on the exact value. */
  function Round2(x: real): (r: real)
    ensures -0.005 <= r - x <= 0.005
    ensures 0.0 <= x <= 100.0 ==> 0.0 <= r <= 100.0
  {
    RoundHalfEven(x * 100.0) as real / 100.0
  }

  /** Python `round(x, 4)` on the exact value. */
  function Round4(x: real): (r: real)
    ensures -0.00005 <= r - x <= 0.00005
    ensures 0.0 <= x <= 1.0 ==> 0.0 <= r <= 1.0
  {
    RoundHalfEven(x * 10000.0) as real / 10000.0
  }
}
