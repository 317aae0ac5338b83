/** The server's text acquisition: the regex-based reduction of an HTML page
    to plain text (`stripHtml`) and the extraction of its `<title>`. Each
    regular expression is modelled as the left-to-right scan a global
    `replace` or a `match` performs. */
module HtmlText {
  import opened TextOps

  // ---------------------------------------------------------------------
  // Case-insensitive search

  /** The first position at or after `i` where `p` starts, ignoring ASCII case. */
  function FindCI(s: string, p: string, i: nat): (r: Option<nat>)
    requires i <= |s|
    ensures r.Some? ==> i <= r.value && r.value + |p| <= |s|
    decreases |s| - i
  {
    if StartsWithCI(s[i..], p) then Some(i)
    else if i == |s| then None
    else FindCI(s, p, i + 1)
  }

  /** `FindCI` finds an occurrence, the first one, and reports none only
      when there is none. */
  lemma {:induction false} FindCIFirst(s: string, p: string, i: nat)
    requires i <= |s|
    ensures FindCI(s, p, i).Some? ==> StartsWithCI(s[FindCI(s, p, i).value..], p)
    ensures FindCI(s, p, i).Some? ==> forall k :: i <= k < FindCI(s, p, i).value ==> !StartsWithCI(s[k..], p)
    ensures FindCI(s, p, i).None? ==> forall k :: i <= k <= |s| ==> !StartsWithCI(s[k..], p)
    decreases |s| - i
  {
    if !StartsWithCI(s[i..], p) && i < |s| {
      FindCIFirst(s, p, i + 1);
    }
  }

  // ---------------------------------------------------------------------
  // `/<script[\s\S]*?<\/script>/gi` and `/<style[\s\S]*?<\/style>/gi` to " "

  /** Where the block opening at the start of `s` ends: the position of the
      FIRST `close` after `open` (the lazy `*?`), if `s` opens a block and a
      closing follows. */
  function BlockClose(s: string, open: string, close: string): (r: Option<nat>)
    ensures r.Some? ==> |open| <= r.value && r.value + |close| <= |s|
  {
    if |open| > 0 && StartsWithCI(s, open) then FindCI(s, close, |open|) else None
  }

  /** Replaces every block that starts with `open` and runs to the first
      following `close` by one space. An opening with no closing after it is
      kept as text. */
  function ReplaceBlocks(s: string, open: string, close: string): string
    decreases |s|
  {
    if s == [] then []
    else match BlockClose(s, open, close)
      case Some(j) => " " + ReplaceBlocks(s[j + |close|..], open, close)
      case None => [s[0]] + ReplaceBlocks(s[1..], open, close)
  }

  /** The block opened at the start of `s` ends at the first closing after
      the opening, wherever that is. */
  lemma BlockCloseAt(s: string, open: string, close: string, c: nat)
    requires |open| > 0 && StartsWithCI(s, open)
    requires |open| + c <= |s| && StartsWithCI(s[|open| + c..], close)
    requires forall k :: |open| <= k < |open| + c ==> !StartsWithCI(s[k..], close)
    ensures BlockClose(s, open, close) == Some(|open| + c)
  {
    FindCIFirst(s, close, |open|);
  }

  /** One step of the scan at a block. */
  lemma ReplaceBlocksAt(s: string, open: string, close: string, j: nat)
    requires s != [] && BlockClose(s, open, close) == Some(j)
    ensures ReplaceBlocks(s, open, close) == " " + ReplaceBlocks(s[j + |close|..], open, close)
  {
  }

  /** A replaced block shows as a space at the front of the output. */
  lemma ReplacedHead(t: string, open: string, close: string)
    requires t != []
    ensures BlockClose(t, open, close).Some? ==> ReplaceBlocks(t, open, close)[0] == ' '
  {
  }

  lemma StartsWithCIAt(x: string, p: string, m: nat)
    requires StartsWithCI(x, p) && m < |p|
    ensures LowerChar(x[m]) == p[m]
  {
    assert Lower(x[..|p|])[m] == LowerChar(x[m]);
  }

  /** While the output shows no replacement space, it is the input itself. */
  lemma {:induction false} KeptPrefix(t: string, open: string, close: string, n: nat)
    requires n <= |ReplaceBlocks(t, open, close)|
    requires forall k :: 0 <= k < n ==> ReplaceBlocks(t, open, close)[k] != ' '
    ensures n <= |t| && ReplaceBlocks(t, open, close)[..n] == t[..n]
    decreases n
  {
    if n > 0 {
      var r := ReplaceBlocks(t, open, close);
      assert t != [];
      ReplacedHead(t, open, close);
      assert r[0] != ' ';
      var r' := ReplaceBlocks(t[1..], open, close);
      assert r == [t[0]] + r';
      forall k | 0 <= k < n - 1 ensures r'[k] != ' ' {
        assert r'[k] == r[k + 1];
      }
      KeptPrefix(t[1..], open, close, n - 1);
      assert r[..n] == [t[0]] + r'[..n - 1];
      assert t[..n] == [t[0]] + t[1..][..n - 1];
    }
  }

  /** With no closing at or after the opening's length, nothing is replaced. */
  lemma {:induction false} NoCloserKeeps(t: string, open: string, close: string)
    requires forall k :: |open| <= k <= |t| ==> !StartsWithCI(t[k..], close)
    ensures ReplaceBlocks(t, open, close) == t
    decreases |t|
  {
    if t != [] {
      if |open| > 0 && StartsWithCI(t, open) {
        FindCIFirst(t, close, |open|);
      }
      assert BlockClose(t, open, close).None?;
      forall k | |open| <= k <= |t[1..]| ensures !StartsWithCI(t[1..][k..], close) {
        assert t[1..][k..] == t[k + 1..];
      }
      NoCloserKeeps(t[1..], open, close);
      assert t == [t[0]] + t[1..];
    }
  }

  /** Dropping past a one-character head. */
  lemma DropHead(c: string, r: string, i: nat)
    requires |c| == 1 && 0 < i <= |c + r|
    ensures (c + r)[i..] == r[i - 1..]
  {
  }

  /** An opening left at `i` in the output has no closing after it. */
  lemma {:induction false} ClosedOffAt(s: string, open: string, close: string, i: nat, k: nat)
    requires |open| > 0 && ' ' !in open
    requires i + |open| <= k <= |ReplaceBlocks(s, open, close)|
    requires StartsWithCI(ReplaceBlocks(s, open, close)[i..], open)
    ensures !StartsWithCI(ReplaceBlocks(s, open, close)[k..], close)
    decreases |s|
  {
    var r := ReplaceBlocks(s, open, close);
    assert s != [];
    match BlockClose(s, open, close) {
      case Some(j) =>
        var s' := s[j + |close|..];
        var r' := ReplaceBlocks(s', open, close);
        assert r == " " + r';
        StartsWithCIAt(r[i..], open, 0);
        assert open[0] in open;
        assert LowerChar(' ') == ' ' && r[0] == ' ';
        assert i > 0;
        DropHead(" ", r', i);
        DropHead(" ", r', k);
        ClosedOffAt(s', open, close, i - 1, k - 1);
      case None =>
        var r' := ReplaceBlocks(s[1..], open, close);
        assert r == [s[0]] + r';
        if i == 0 {
          assert r[i..] == r;
          forall m | 0 <= m < |open| ensures r[m] != ' ' {
            StartsWithCIAt(r, open, m);
            assert open[m] in open;
          }
          KeptPrefix(s, open, close, |open|);
          assert s[..|open|] == r[..|open|];
          assert StartsWithCI(s, open);
          FindCIFirst(s, close, |open|);
          NoCloserKeeps(s, open, close);
        } else {
          DropHead([s[0]], r', i);
          DropHead([s[0]], r', k);
          ClosedOffAt(s[1..], open, close, i - 1, k - 1);
        }
    }
  }

  /** After the pass, an opening that is left is never followed by a
      closing: every block that could be closed has been replaced. */
  lemma BlocksClosedOff(s: string, open: string, close: string, i: nat)
    requires |open| > 0 && ' ' !in open
    requires i <= |ReplaceBlocks(s, open, close)| && StartsWithCI(ReplaceBlocks(s, open, close)[i..], open)
    ensures FindCI(ReplaceBlocks(s, open, close), close, i + |open|).None?
  {
    var r := ReplaceBlocks(s, open, close);
    forall k | i + |open| <= k <= |r| ensures !StartsWithCI(r[k..], close) {
      ClosedOffAt(s, open, close, i, k);
    }
    FindCIFirst(r, close, i + |open|);
  }

  /** Text without '<' has no block to replace. */
  lemma {:induction false} NoOpenKeeps(s: string, open: string, close: string)
    requires |open| > 0 && open[0] == '<' && '<' !in s
    ensures ReplaceBlocks(s, open, close) == s
    decreases |s|
  {
    if s != [] {
      assert BlockClose(s, open, close).None?;
      NoOpenKeeps(s[1..], open, close);
      assert s == [s[0]] + s[1..];
    }
  }

  // ---------------------------------------------------------------------
  // `/<[^>]+>/g` to " "

  /** The regex `<[^>]+>` matches at `i`: a '<', then at least one character
      before the first following '>'. */
  predicate TagAt(s: string, i: int)
  {
    0 <= i && i + 1 < |s| && s[i] == '<' && s[i + 1] != '>' && '>' in s[i + 2..]
  }

  predicate NoTag(s: string)
  {
    forall i :: 0 <= i < |s| ==> !TagAt(s, i)
  }

  function IndexOf(s: string, c: char, i: nat): (k: nat)
    requires i <= |s| && c in s[i..]
    ensures i <= k < |s| && s[k] == c
    ensures forall m :: i <= m < k ==> s[m] != c
    decreases |s| - i
  {
    if s[i] == c then i
    else
      assert s[i..] == [s[i]] + s[i + 1..];
      IndexOf(s, c, i + 1)
  }

  function ReplaceTags(s: string): (r: string)
    ensures s != [] && s[0] != '<' ==> r != [] && r[0] == s[0]
    ensures '>' !in s ==> r == s
    decreases |s|
  {
    if s == [] then []
    else if TagAt(s, 0) then
      " " + ReplaceTags(s[IndexOf(s, '>', 2) + 1..])
    else
      assert '>' !in s ==> '>' !in s[1..];
      [s[0]] + ReplaceTags(s[1..])
  }

  /** Putting a character in front of a tag-free text makes no tag when that
      character is not an opening '<' of one. */
  lemma ConsNoTag(c: char, t: string)
    requires NoTag(t)
    requires c == '<' ==> t == [] || t[0] == '>' || '>' !in t
    ensures NoTag([c] + t)
  {
    var u := [c] + t;
    forall i | 0 <= i < |u| ensures !TagAt(u, i) {
      if i > 0 {
        assert u[i..] == t[i - 1..];
        assert u[i + 1..] == t[i..];
        if i + 2 <= |u| { assert u[i + 2..] == t[i + 1..]; }
        assert !TagAt(t, i - 1);
      } else if c == '<' && |u| > 1 && t[0] != '>' {
        assert u[2..] == t[1..];
        assert '>' !in t;
      }
    }
  }

  /** After the tag pass no `<X>` with non-empty, '>'-free X is left. */
  lemma {:induction false} ReplaceTagsNoTag(s: string)
    ensures NoTag(ReplaceTags(s))
    decreases |s|
  {
    if s != [] {
      if TagAt(s, 0) {
        var k := IndexOf(s, '>', 2);
        ReplaceTagsNoTag(s[k + 1..]);
        ConsNoTag(' ', ReplaceTags(s[k + 1..]));
      } else {
        ReplaceTagsNoTag(s[1..]);
        if s[0] == '<' && |s| > 1 && s[1] != '>' {
          assert '>' !in s[2..];
          assert s[1..] == [s[1]] + s[2..];
          assert '>' !in s[1..];
        }
        ConsNoTag(s[0], ReplaceTags(s[1..]));
      }
    }
  }

  // ---------------------------------------------------------------------
  // `/\s+/g` to " ", then `trim()`

  predicate NoAdjacentSpaces(s: string)
  {
    forall i :: 0 <= i < |s| - 1 ==> !(IsJsSpace(s[i]) && IsJsSpace(s[i + 1]))
  }

  function CollapseSpaces(s: string): (r: string)
    ensures s != [] && !IsJsSpace(s[0]) ==> r != [] && r[0] == s[0]
    ensures s != [] ==> r != []
    ensures '>' !in s ==> '>' !in r
    decreases |s|
  {
    if s == [] then []
    else if IsJsSpace(s[0]) then
      var j := RunEnd(s, 0, IsJsSpace);
      assert '>' !in s ==> '>' !in s[j..];
      " " + CollapseSpaces(s[j..])
    else
      assert '>' !in s ==> '>' !in s[1..];
      [s[0]] + CollapseSpaces(s[1..])
  }

  lemma {:induction false} CollapseNoAdjacent(s: string)
    ensures NoAdjacentSpaces(CollapseSpaces(s))
    decreases |s|
  {
    if s != [] {
      if IsJsSpace(s[0]) {
        var j := RunEnd(s, 0, IsJsSpace);
        CollapseNoAdjacent(s[j..]);
        var t := CollapseSpaces(s[j..]);
        assert j < |s| ==> !IsJsSpace(s[j..][0]);
        assert t != [] ==> !IsJsSpace(t[0]);
        assert CollapseSpaces(s) == " " + t;
      } else {
        CollapseNoAdjacent(s[1..]);
        assert CollapseSpaces(s) == [s[0]] + CollapseSpaces(s[1..]);
      }
    }
  }

  lemma NoTagSuffix(s: string, j: nat)
    requires NoTag(s) && j <= |s|
    ensures NoTag(s[j..])
  {
    forall i | 0 <= i < |s| - j ensures !TagAt(s[j..], i) {
      assert !TagAt(s, i + j);
      if i + 2 <= |s| - j { assert s[j..][i + 2..] == s[i + j + 2..]; }
    }
  }

  lemma NoTagPrefix(s: string, j: nat)
    requires NoTag(s) && j <= |s|
    ensures NoTag(s[..j])
  {
    forall i | 0 <= i < j ensures !TagAt(s[..j], i) {
      assert !TagAt(s, i);
      if i + 2 <= j && '>' in s[..j][i + 2..] {
        var m :| 0 <= m < |s[..j][i + 2..]| && s[..j][i + 2..][m] == '>';
        assert s[i + 2..][m] == '>';
      }
    }
  }

  lemma {:induction false} CollapseNoTag(s: string)
    requires NoTag(s)
    ensures NoTag(CollapseSpaces(s))
    decreases |s|
  {
    if s != [] {
      if IsJsSpace(s[0]) {
        var j := RunEnd(s, 0, IsJsSpace);
        NoTagSuffix(s, j);
        CollapseNoTag(s[j..]);
        ConsNoTag(' ', CollapseSpaces(s[j..]));
      } else {
        NoTagSuffix(s, 1);
        CollapseNoTag(s[1..]);
        if s[0] == '<' && |s| > 1 && s[1] != '>' {
          assert !TagAt(s, 0);
          assert s[1..] == [s[1]] + s[2..];
          assert '>' !in s[1..];
        }
        ConsNoTag(s[0], CollapseSpaces(s[1..]));
      }
    }
  }

  function TrimStart(s: string): (r: string)
    ensures |r| <= |s| && r == s[|s| - |r|..]
    ensures r != [] ==> !IsJsSpace(r[0])
  {
    s[RunEnd(s, 0, IsJsSpace)..]
  }

  function TrimEnd(s: string): (r: string)
    ensures |r| <= |s| && r == s[..|r|]
    ensures r != [] ==> !IsJsSpace(r[|r| - 1])
    decreases |s|
  {
    if s != [] && IsJsSpace(s[|s| - 1]) then TrimEnd(s[..|s| - 1]) else s
  }

  /** `String.prototype.trim`. */
  function Trim(s: string): (r: string)
    ensures r != [] ==> !IsJsSpace(r[0]) && !IsJsSpace(r[|r| - 1])
    ensures (forall k :: 0 <= k < |s| ==> IsJsSpace(s[k])) ==> r == []
  {
    TrimEnd(TrimStart(s))
  }

  lemma SliceKeepsNoAdjacent(s: string, a: nat, b: nat)
    requires a <= b <= |s| && NoAdjacentSpaces(s)
    ensures NoAdjacentSpaces(s[a..b])
  {
    forall i | 0 <= i < b - a - 1 ensures !(IsJsSpace(s[a..b][i]) && IsJsSpace(s[a..b][i + 1])) {
      assert s[a..b][i] == s[a + i] && s[a..b][i + 1] == s[a + i + 1];
    }
  }

  lemma TrimKeeps(s: string)
    ensures NoAdjacentSpaces(s) ==> NoAdjacentSpaces(Trim(s))
    ensures NoTag(s) ==> NoTag(Trim(s))
  {
    var a := TrimStart(s);
    var r := TrimEnd(a);
    if NoAdjacentSpaces(s) {
      SliceKeepsNoAdjacent(s, |s| - |a|, |s|);
      SliceKeepsNoAdjacent(a, 0, |r|);
    }
    if NoTag(s) {
      NoTagSuffix(s, |s| - |a|);
      NoTagPrefix(a, |r|);
    }
  }

  // ---------------------------------------------------------------------
  // stripHtml

  const ScriptOpen := "<script"
  const ScriptClose := "</script>"
  const StyleOpen := "<style"
  const StyleClose := "</style>"

  /** The text the heuristic scores: script and style blocks, then every
      remaining tag, become spaces; whitespace runs become one space; the
      ends are trimmed. */
  function StripHtml(html: string): (text: string)
    ensures text != [] ==> !IsJsSpace(text[0]) && !IsJsSpace(text[|text| - 1])
    ensures NoAdjacentSpaces(text)
    ensures NoTag(text)
  {
    var noScript := ReplaceBlocks(html, ScriptOpen, ScriptClose);
    var noStyle := ReplaceBlocks(noScript, StyleOpen, StyleClose);
    var noTags := ReplaceTags(noStyle);
    var collapsed := CollapseSpaces(noTags);
    ReplaceTagsNoTag(noStyle);
    CollapseNoTag(noTags);
    CollapseNoAdjacent(noTags);
    TrimKeeps(collapsed);
    var t := Trim(collapsed);
    assert t != [] ==> t[0] == TrimStart(collapsed)[0];
    t
  }

  /** No `<script` or `<style` opening is left that a later '>' could close:
      with no tag left, such an opening would itself be one. */
  lemma StripHtmlNoBlocks(html: string, i: nat)
    requires i < |StripHtml(html)|
    requires StartsWithCI(StripHtml(html)[i..], ScriptOpen) || StartsWithCI(StripHtml(html)[i..], StyleOpen)
    ensures '>' !in StripHtml(html)[i + 2..]
  {
    var t := StripHtml(html);
    var p := if StartsWithCI(t[i..], ScriptOpen) then ScriptOpen else StyleOpen;
    assert StartsWithCI(t[i..], p);
    var pre := t[i..][..|p|];
    assert Lower(pre) == p && p[0] == '<' && p[1] == 's';
    assert Lower(pre)[0] == LowerChar(t[i]) && Lower(pre)[1] == LowerChar(t[i + 1]);
    assert t[i] == '<' && t[i + 1] != '>';
    assert !TagAt(t, i);
  }

  /** After each block pass, an opening of that block kind that is left has
      no closing after it: the script pass leaves no closable script block,
      and the style pass, run on its output, no closable style block. */
  lemma StripHtmlBlocksGone(html: string, i: nat, k: nat)
    ensures var noScript := ReplaceBlocks(html, ScriptOpen, ScriptClose);
            i <= |noScript| && StartsWithCI(noScript[i..], ScriptOpen) ==>
              FindCI(noScript, ScriptClose, i + |ScriptOpen|).None?
    ensures var noStyle := ReplaceBlocks(ReplaceBlocks(html, ScriptOpen, ScriptClose), StyleOpen, StyleClose);
            k <= |noStyle| && StartsWithCI(noStyle[k..], StyleOpen) ==>
              FindCI(noStyle, StyleClose, k + |StyleOpen|).None?
  {
    var noScript := ReplaceBlocks(html, ScriptOpen, ScriptClose);
    var noStyle := ReplaceBlocks(noScript, StyleOpen, StyleClose);
    assert ' ' !in ScriptOpen && ' ' !in StyleOpen;
    if i <= |noScript| && StartsWithCI(noScript[i..], ScriptOpen) {
      BlocksClosedOff(html, ScriptOpen, ScriptClose, i);
    }
    if k <= |noStyle| && StartsWithCI(noStyle[k..], StyleOpen) {
      BlocksClosedOff(noScript, StyleOpen, StyleClose, k);
    }
  }

  /** Text that is already plain: no angle brackets, only single inner
      spaces as whitespace. */
  predicate PlainText(s: string)
  {
    && '<' !in s && '>' !in s
    && NoAdjacentSpaces(s)
    && (forall k :: 0 <= k < |s| && IsJsSpace(s[k]) ==> s[k] == ' ')
    && (s != [] ==> !IsJsSpace(s[0]) && !IsJsSpace(s[|s| - 1]))
  }

  /** Single spaces are kept by the `\s+` pass. */
  lemma {:induction false} CollapseKeeps(s: string)
    requires NoAdjacentSpaces(s)
    requires forall k :: 0 <= k < |s| && IsJsSpace(s[k]) ==> s[k] == ' '
    ensures CollapseSpaces(s) == s
    decreases |s|
  {
    if s != [] {
      SliceKeepsNoAdjacent(s, 1, |s|);
      assert forall k :: 0 <= k < |s[1..]| ==> s[1..][k] == s[k + 1];
      CollapseKeeps(s[1..]);
      if IsJsSpace(s[0]) {
        var j := RunEnd(s, 0, IsJsSpace);
        assert |s| > 1 ==> !IsJsSpace(s[1]);
        assert j == 1;
        assert s[0] == ' ';
      }
      assert s == [s[0]] + s[1..];
    }
  }

  /** Plain text passes through `stripHtml` unchanged. */
  lemma StripHtmlPlain(s: string)
    requires PlainText(s)
    ensures StripHtml(s) == s
  {
    NoOpenKeeps(s, ScriptOpen, ScriptClose);
    NoOpenKeeps(s, StyleOpen, StyleClose);
    assert ReplaceTags(s) == s;
    CollapseKeeps(s);
    if s != [] {
      assert RunEnd(s, 0, IsJsSpace) == 0;
      assert TrimStart(s) == s;
    }
    assert Trim(s) == s;
  }

  // ---------------------------------------------------------------------
  // `html.match(/<title>(.*?)<\/title>/i)`

  const TitleOpen := "<title>"
  const TitleClose := "</title>"

  predicate LineFree(s: string, a: nat, b: nat)
    requires a <= b <= |s|
  {
    forall k :: a <= k < b ==> !IsLineTerminator(s[k])
  }

  /** The title regex matches with its opening at `i` and its closing at `j`. */
  predicate TitleMatch(s: string, i: int, j: int)
  {
    && 0 <= i && i + |TitleOpen| <= j <= |s|
    && StartsWithCI(s[i..], TitleOpen)
    && StartsWithCI(s[j..], TitleClose)
    && LineFree(s, i + |TitleOpen|, j)
  }

  /** The lazy `(.*?)`: the first closing at or after `k` not preceded by a
      line terminator. */
  function TitleEnd(s: string, k: nat): (r: Option<nat>)
    requires k <= |s|
    ensures r.Some? ==> k <= r.value <= |s| && StartsWithCI(s[r.value..], TitleClose) && LineFree(s, k, r.value)
    ensures r.Some? ==> forall j :: k <= j < r.value ==> !StartsWithCI(s[j..], TitleClose)
    ensures r.None? ==> forall j :: k <= j <= |s| && LineFree(s, k, j) ==> !StartsWithCI(s[j..], TitleClose)
    decreases |s| - k
  {
    if StartsWithCI(s[k..], TitleClose) then Some(k)
    else if k < |s| && !IsLineTerminator(s[k]) then
      var r := TitleEnd(s, k + 1);
      assert forall j :: k + 1 <= j <= |s| && LineFree(s, k, j) ==> LineFree(s, k + 1, j);
      r
    else
      assert forall j :: k < j <= |s| ==> !LineFree(s, k, j);
      None
  }

  /** The leftmost match, and at it the shortest one. */
  function TitleSpanFrom(s: string, i: nat): (r: Option<(nat, nat)>)
    requires i <= |s|
    ensures r.Some? ==> i <= r.value.0 && TitleMatch(s, r.value.0, r.value.1)
    ensures r.Some? ==> forall i', j' :: TitleMatch(s, i', j') && i <= i' ==>
                          r.value.0 < i' || (r.value.0 == i' && r.value.1 <= j')
    ensures r.None? ==> forall i', j' :: TitleMatch(s, i', j') ==> i' < i
    decreases |s| - i
  {
    if i + |TitleOpen| > |s| then None
    else if StartsWithCI(s[i..], TitleOpen) then
      match TitleEnd(s, i + |TitleOpen|)
      case Some(j) => Some((i, j))
      case None => TitleSpanFrom(s, i + 1)
    else TitleSpanFrom(s, i + 1)
  }

  /** `titleMatch ? titleMatch[1] : undefined`: the raw text between the first
      `<title>` and the first `</title>` after it, both matched ignoring case,
      found only when no line break lies between them. */
  function Title(html: string): (t: Option<string>)
    ensures t.Some? ==> exists i, j :: TitleMatch(html, i, j) && t.value == html[i + |TitleOpen|..j]
    ensures t.Some? ==> forall k :: 0 <= k < |t.value| ==> !IsLineTerminator(t.value[k])
    ensures t.None? <==> forall i, j :: !TitleMatch(html, i, j)
  {
    match TitleSpanFrom(html, 0)
    case Some((i, j)) =>
      var v := html[i + |TitleOpen|..j];
      assert forall k :: 0 <= k < |v| ==> v[k] == html[i + |TitleOpen| + k];
      Some(v)
    case None => None
  }
}
