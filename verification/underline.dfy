/**
 The "UnderLine" button of the tag editor: every whitespace character of the
 editor text other than a line feed becomes one underscore, and the result is
 then trimmed of leading and trailing whitespace (lodash `trim`). Since the
 replacement leaves no whitespace but line feeds, trimming can only remove
 line feeds; underscores produced at either end survive.

 Trimming is modelled the way lodash computes it: an end index found by
 walking back over whitespace, then a start index found by walking forward,
 then one slice.
 */
module UnderLine {

  /** The JavaScript `\s` class, which both the replacement regex and lodash
      `trim` use: ASCII tab, line feed, vertical tab, form feed, carriage
      return and space, plus the Unicode space separators, the line and
      paragraph separators and the byte-order mark. */
  predicate IsWhitespace(c: char): (w: bool)
    ensures c == ' ' || c == '\t' || c == '\n' || c == '\r' ==> w
    ensures c == '_' || 'a' <= c <= 'z' || 'A' <= c <= 'Z' || '0' <= c <= '9' ==> !w
    ensures w ==> c <= '\U{FEFF}'
  {
    || c == '\t' || c == '\n' || c == '\U{000B}' || c == '\U{000C}' || c == '\r' || c == ' '
    || c == '\U{00A0}' || c == '\U{1680}'
    || ('\U{2000}' <= c <= '\U{200A}')
    || c == '\U{2028}' || c == '\U{2029}' || c == '\U{202F}' || c == '\U{205F}'
    || c == '\U{3000}' || c == '\U{FEFF}'
  }

  /** A character the regex `[^\S\n]` matches: whitespace, but not a line feed. */
  predicate IsBlank(c: char): (b: bool)
    ensures b ==> IsWhitespace(c)
    ensures c == '\n' || c == '_' ==> !b
    ensures c == ' ' || c == '\t' || c == '\r' ==> b
  {
    IsWhitespace(c) && c != '\n'
  }

  /** The per-character effect of the global replacement. */
  function Underscore(c: char): (d: char)
    ensures IsWhitespace(d) <==> c == '\n'
    ensures !IsBlank(d)
  {
    if IsBlank(c) then '_' else c
  }

  /** `_.replace(text, /[^\S\n]/g, '_')`: a one-for-one replacement, so runs of
      blanks are not collapsed and every other character keeps its place. */
  function ReplaceBlanks(s: string): (r: string)
    ensures |r| == |s|
    ensures forall i :: 0 <= i < |s| ==> r[i] == (if IsBlank(s[i]) then '_' else s[i])
    ensures forall i :: 0 <= i < |s| ==> (IsWhitespace(r[i]) <==> s[i] == '\n')
  {
    seq(|s|, i requires 0 <= i < |s| => Underscore(s[i]))
  }

  /** lodash `trimmedEndIndex`, plus one: walking back from `i`, the index just
      past the last character that is not whitespace (0 if there is none). */
  function TrimmedEnd(s: string, i: nat): (n: nat)
    requires i <= |s|
    ensures n <= i
    ensures forall k :: n <= k < i ==> IsWhitespace(s[k])
    ensures n == 0 || !IsWhitespace(s[n - 1])
    decreases i
  {
    if i > 0 && IsWhitespace(s[i - 1]) then TrimmedEnd(s, i - 1) else i
  }

  /** The match of `/^\s+/` within `s[i..end]`: walking forward from `i`, the
      index of the first character that is not whitespace (`end` if none). */
  function TrimmedStart(s: string, i: nat, end: nat): (n: nat)
    requires i <= end <= |s|
    ensures i <= n <= end
    ensures forall k :: i <= k < n ==> IsWhitespace(s[k])
    ensures n == end || !IsWhitespace(s[n])
    decreases end - i
  {
    if i < end && IsWhitespace(s[i]) then TrimmedStart(s, i + 1, end) else i
  }

  /** lodash `trim` with no character argument: the end is cut first, then the start. */
  function Trim(s: string): (r: string)
    ensures |r| <= |s|
    ensures r == [] || (!IsWhitespace(r[0]) && !IsWhitespace(r[|r| - 1]))
    ensures (forall k :: 0 <= k < |s| ==> IsWhitespace(s[k])) <==> r == []
  {
    var e := TrimmedEnd(s, |s|);
    var b := TrimmedStart(s, 0, e);
    assert b < e ==> !IsWhitespace(s[e - 1]);
    s[b..e]
  }

  /** `r` is `s` with a whitespace-only prefix of length `lo` and a
      whitespace-only suffix removed, and neither end of `r` is whitespace. */
  ghost predicate TrimmedAt(r: string, s: string, lo: nat)
    requires lo + |r| <= |s|
  {
    && r == s[lo..lo + |r|]
    && (forall k :: 0 <= k < lo ==> IsWhitespace(s[k]))
    && (forall k :: lo + |r| <= k < |s| ==> IsWhitespace(s[k]))
    && (r == [] || (!IsWhitespace(r[0]) && !IsWhitespace(r[|r| - 1])))
  }

  /** Reference definition of trimming, independent of how lodash walks. */
  ghost predicate IsTrimOf(r: string, s: string) {
    exists lo :: 0 <= lo <= |s| - |r| && TrimmedAt(r, s, lo)
  }

  /** `Trim(s)` is a trim of `s` in the sense of `IsTrimOf`, and the only one. */
  lemma TrimCharacterized(r: string, s: string)
    ensures IsTrimOf(r, s) <==> r == Trim(s)
  {
    TrimIsTrimOf(s);
    if IsTrimOf(r, s) {
      var lo :| 0 <= lo <= |s| - |r| && TrimmedAt(r, s, lo);
      TrimUnique(r, s, lo);
    }
  }

  lemma TrimIsTrimOf(s: string)
    ensures IsTrimOf(Trim(s), s)
  {
    var e := TrimmedEnd(s, |s|);
    var b := TrimmedStart(s, 0, e);
    assert TrimmedAt(Trim(s), s, b);
  }

  lemma TrimUnique(r: string, s: string, lo: nat)
    requires lo + |r| <= |s| && TrimmedAt(r, s, lo)
    ensures r == Trim(s)
  {
    var t := Trim(s);
    TrimIsTrimOf(s);
    var lo' :| 0 <= lo' <= |s| - |t| && TrimmedAt(t, s, lo');
    if r == [] {
      assert forall k :: 0 <= k < |s| ==> IsWhitespace(s[k]);
    } else {
      assert !IsWhitespace(s[lo]) && !IsWhitespace(s[lo + |r| - 1]);
      assert t != [];
      assert !IsWhitespace(s[lo']) && !IsWhitespace(s[lo' + |t| - 1]);
      assert lo == lo';
      assert lo + |r| == lo' + |t|;
    }
  }

  /** The UnderLine transform `_.trim(_.replace(text, /[^\S\n]/g, '_'))`. */
  function Transform(s: string): (r: string)
    ensures |r| <= |s|
    ensures forall i :: 0 <= i < |r| ==> !IsBlank(r[i])
    ensures r == [] || (r[0] != '\n' && r[|r| - 1] != '\n')
  {
    Trim(ReplaceBlanks(s))
  }

  /** Walking back from `i` over line feeds. */
  function NewlinesEnd(s: string, i: nat): (n: nat)
    requires i <= |s|
    ensures n <= i
    ensures forall k :: n <= k < i ==> s[k] == '\n'
    ensures n == 0 || s[n - 1] != '\n'
    decreases i
  {
    if i > 0 && s[i - 1] == '\n' then NewlinesEnd(s, i - 1) else i
  }

  /** Walking forward from `i` over line feeds, up to `end`. */
  function NewlinesStart(s: string, i: nat, end: nat): (n: nat)
    requires i <= end <= |s|
    ensures i <= n <= end
    ensures forall k :: i <= k < n ==> s[k] == '\n'
    ensures n == end || s[n] != '\n'
    decreases end - i
  {
    if i < end && s[i] == '\n' then NewlinesStart(s, i + 1, end) else i
  }

  /** Where the text between the outer line feeds ends. */
  function CoreEnd(s: string): (e: nat)
    ensures e <= |s|
    ensures forall k :: e <= k < |s| ==> s[k] == '\n'
    ensures e == 0 || s[e - 1] != '\n'
  {
    NewlinesEnd(s, |s|)
  }

  /** Where the text between the outer line feeds starts. */
  function CoreStart(s: string): (b: nat)
    ensures b <= CoreEnd(s)
    ensures forall k :: 0 <= k < b ==> s[k] == '\n'
    ensures b == CoreEnd(s) || s[b] != '\n'
  {
    NewlinesStart(s, 0, CoreEnd(s))
  }

  /** After the replacement, walking back over whitespace stops exactly where
      walking back over line feeds of the input does. */
  lemma {:induction false} TrimmedEndReplaced(s: string, i: nat)
    requires i <= |s|
    ensures TrimmedEnd(ReplaceBlanks(s), i) == NewlinesEnd(s, i)
    decreases i
  {
    if i > 0 {
      assert ReplaceBlanks(s)[i - 1] == Underscore(s[i - 1]);
      if s[i - 1] == '\n' {
        TrimmedEndReplaced(s, i - 1);
      }
    }
  }

  /** After the replacement, walking forward over whitespace stops exactly
      where walking forward over line feeds of the input does. */
  lemma {:induction false} TrimmedStartReplaced(s: string, i: nat, end: nat)
    requires i <= end <= |s|
    ensures TrimmedStart(ReplaceBlanks(s), i, end) == NewlinesStart(s, i, end)
    decreases end - i
  {
    if i < end {
      assert ReplaceBlanks(s)[i] == Underscore(s[i]);
      if s[i] == '\n' {
        TrimmedStartReplaced(s, i + 1, end);
      }
    }
  }

  /** UnderLine keeps exactly the replaced text between the outer line feeds
      of the input. */
  lemma UnderLineIsSlice(s: string)
    ensures Transform(s) == ReplaceBlanks(s)[CoreStart(s)..CoreEnd(s)]
  {
    TrimmedEndReplaced(s, |s|);
    TrimmedStartReplaced(s, 0, CoreEnd(s));
  }

  /** Replacing then trimming is the same as cutting off the outer line feeds,
      then replacing: the two steps commute. */
  lemma UnderLineIsReplacedCore(s: string)
    ensures Transform(s) == ReplaceBlanks(s[CoreStart(s)..CoreEnd(s)])
  {
    UnderLineIsSlice(s);
    var b, e := CoreStart(s), CoreEnd(s);
    assert ReplaceBlanks(s)[b..e] == ReplaceBlanks(s[b..e]);
  }

  /** The output is the input's length less its leading and trailing line
      feeds, so it is never longer than the input; an input of line feeds
      only gives the empty text. */
  lemma UnderLineLength(s: string)
    ensures |Transform(s)| == CoreEnd(s) - CoreStart(s)
    ensures (forall k :: 0 <= k < |s| ==> s[k] == '\n') <==> Transform(s) == []
  {
    UnderLineIsSlice(s);
    if CoreStart(s) == CoreEnd(s) {
      assert forall k :: 0 <= k < |s| ==> s[k] == '\n';
    }
  }

  /** One input position between the outer line feeds: the output holds its
      replacement at the same offset past the leading line feeds. */
  lemma UnderLineAt(s: string, i: int)
    requires CoreStart(s) <= i < CoreEnd(s)
    ensures var r := Transform(s);
      i - CoreStart(s) < |r| && r[i - CoreStart(s)] == Underscore(s[i])
  {
    var b, e := CoreStart(s), CoreEnd(s);
    UnderLineIsSlice(s);
    assert ReplaceBlanks(s)[b..e][i - b] == ReplaceBlanks(s)[i];
  }

  /** Every non-whitespace character of the input is kept, shifted left by the
      number of leading line feeds (the same shift for all of them), so the
      order of the text is preserved. */
  lemma UnderLineKeepsChar(s: string, i: int)
    requires 0 <= i < |s| && !IsWhitespace(s[i])
    ensures var r := Transform(s);
      CoreStart(s) <= i && i - CoreStart(s) < |r| && r[i - CoreStart(s)] == s[i]
  {
    assert s[i] != '\n';
    UnderLineAt(s, i);
  }

  /** Every blank of the input becomes one underscore, shifted by the same
      amount as every other kept character, so runs of blanks are not
      collapsed. */
  lemma UnderLineBlankAt(s: string, i: int)
    requires 0 <= i < |s| && IsBlank(s[i])
    ensures var r := Transform(s);
      CoreStart(s) <= i && i - CoreStart(s) < |r| && r[i - CoreStart(s)] == '_'
  {
    assert s[i] != '\n';
    UnderLineAt(s, i);
  }

  /** A line feed between the outer ones is kept, shifted left by the number
      of leading line feeds like every other kept character. */
  lemma UnderLineNewlineAt(s: string, i: int)
    requires CoreStart(s) <= i < CoreEnd(s) && s[i] == '\n'
    ensures var r := Transform(s);
      i - CoreStart(s) < |r| && r[i - CoreStart(s)] == '\n'
  {
    UnderLineAt(s, i);
  }

  /** The output has no whitespace other than line feeds and none at either
      end, so neither step changes it again. */
  lemma UnderLineIdempotent(s: string)
    ensures Transform(Transform(s)) == Transform(s)
  {
    var r := Transform(s);
    assert ReplaceBlanks(r) == r;
    assert TrimmedEnd(r, |r|) == |r|;
    assert TrimmedStart(r, 0, |r|) == 0;
    assert r[0..|r|] == r;
  }

  /** Blanks at the ends of the text become underscores, which trimming keeps,
      and nothing is removed. */
  lemma UnderLineKeepsOuterUnderscores(s: string)
    requires |s| > 0 && IsBlank(s[0]) && IsBlank(s[|s| - 1])
    ensures var r := Transform(s); |r| == |s| && r[0] == '_' && r[|r| - 1] == '_'
  {
    assert CoreEnd(s) == |s|;
    assert CoreStart(s) == 0;
    UnderLineLength(s);
    UnderLineBlankAt(s, 0);
    UnderLineBlankAt(s, |s| - 1);
  }

  /** Concrete instance: a run of blanks is not collapsed. */
  lemma UnderLineRunExample()
    ensures Transform("a  b") == "a__b"
  {
    var s := "a  b";
    assert s[3] == 'b' && s[0] == 'a';
    assert CoreEnd(s) == 4 && CoreStart(s) == 0;
    UnderLineIsSlice(s);
    assert ReplaceBlanks(s) == "a__b";
  }

  /** Concrete instance: outer line feeds go, an interior one stays. */
  lemma UnderLineNewlineExample()
    ensures Transform("\na b\nc\n") == "a_b\nc"
  {
    var s := "\na b\nc\n";
    assert s[0] == '\n' && s[1] == 'a' && s[5] == 'c' && s[6] == '\n';
    assert CoreEnd(s) == 6;
    assert CoreStart(s) == 1;
    UnderLineIsSlice(s);
    assert ReplaceBlanks(s) == "\na_b\nc\n";
  }
}
