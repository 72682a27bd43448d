/** split_sentences_with_newline (src/doc_process/process_doc.py): a chain of
    rewrites that puts each sentence on its own line, modelled pass by pass. */
module Sentences {
  import opened Text

  // ---------------------------------------------------------------- pass 1: protect list markers

  /** Start of the run of digits that ends just before position j. */
  function DigitRunStart(t: string, j: nat): (k: nat)
    requires j <= |t|
    ensures k <= j
    ensures forall m :: k <= m < j ==> IsDigit(t[m])
    ensures k == 0 || !IsDigit(t[k - 1])
  {
    if j > 0 && IsDigit(t[j - 1]) then DigitRunStart(t, j - 1) else j
  }

  /** The regex `\b(chương\s+\d+|\d+)\.` matches with its final dot at position i:
      the dot follows a run of digits that starts at a word boundary. (The `chương`
      alternative only ever protects dots the `\d+` alternative protects too, since
      its digits follow whitespace; see ChuongMarkerNotBroken.) */
  predicate IsListMarkerDot(t: string, i: nat)
    requires i < |t|
  {
    t[i] == '.' && i > 0 && IsDigit(t[i - 1])
    && var k := DigitRunStart(t, i); (k == 0 || !IsWordChar(t[k - 1]))
  }

  const Placeholder: string := "<DOT>"

  /** The protected text from position i on: each list-marker dot becomes the placeholder. */
  function ProtectFrom(t: string, i: nat): string
    decreases |t| - i
  {
    if i >= |t| then [] else (if IsListMarkerDot(t, i) then Placeholder else [t[i]]) + ProtectFrom(t, i + 1)
  }

  function Protect(t: string): string
  {
    ProtectFrom(t, 0)
  }

  // ---------------------------------------------------------------- pass 2: break after punctuation

  predicate IsPunct(c: char) { c == '.' || c == '!' || c == '?' }

  /** s starts with an ellipsis "...". */
  predicate StartsWithEllipsis(s: string)
  {
    |s| >= 3 && s[0] == '.' && s[1] == '.' && s[2] == '.'
  }

  /** re.sub(r"(\.\.\.|[.!?])", r"\1\n", s): an ellipsis or one of . ! ? gets a line break after it. */
  function BreakPunct(s: string): string
    decreases |s|
  {
    if |s| == 0 then []
    else if StartsWithEllipsis(s) then "...\n" + BreakPunct(s[3..])
    else if IsPunct(s[0]) then [s[0], '\n'] + BreakPunct(s[1..])
    else [s[0]] + BreakPunct(s[1..])
  }

  // ---------------------------------------------------------------- pass 6: collapse line breaks

  /** re.sub(r"\n+", "\n", s), scanning with a flag that says the previous input
      character was a line break: a line break right after another one is dropped. */
  function CollapseAfter(s: string, afterBreak: bool): string
    decreases |s|
  {
    if |s| == 0 then []
    else if s[0] == '\n' && afterBreak then CollapseAfter(s[1..], true)
    else [s[0]] + CollapseAfter(s[1..], s[0] == '\n')
  }

  function CollapseNewlines(s: string): string
  {
    CollapseAfter(s, false)
  }

  // ---------------------------------------------------------------- the whole rewrite

  const LeftQuote: char := '\U{201C}'
  const RightQuote: char := '\U{201D}'

  /** Curly double quotes become straight ones. */
  function NormalizeQuotes(s: string): string
  {
    Replace(Replace(s, [LeftQuote], "\""), [RightQuote], "\"")
  }

  function SplitSentencesWithNewline(text: string): string
  {
    var broken := BreakPunct(Protect(text));
    var restored := Replace(broken, Placeholder, ".");
    var quoted := NormalizeQuotes(restored);
    var ellipsis := Replace(quoted, "...", ".\n");
    Strip(CollapseNewlines(ellipsis))
  }

  // ---------------------------------------------------------------- output format

  /** No two line breaks in a row. */
  predicate NoBlankLine(s: string)
  {
    forall i :: 0 <= i < |s| - 1 && s[i] == '\n' ==> s[i + 1] != '\n'
  }

  /** Every occurrence of c is the last character or is followed by a line break. */
  predicate BrokenAfter(s: string, c: char)
  {
    forall i :: 0 <= i < |s| - 1 && s[i] == c ==> s[i + 1] == '\n'
  }

  lemma {:induction false} CollapseNoBlankLine(s: string, afterBreak: bool)
    ensures NoBlankLine(CollapseAfter(s, afterBreak))
    ensures afterBreak && |CollapseAfter(s, afterBreak)| > 0 ==> CollapseAfter(s, afterBreak)[0] != '\n'
    decreases |s|
  {
    if |s| > 0 {
      if s[0] == '\n' && afterBreak {
        CollapseNoBlankLine(s[1..], true);
      } else {
        CollapseNoBlankLine(s[1..], s[0] == '\n');
      }
    }
  }

  lemma {:induction false} CollapseChars(s: string, afterBreak: bool, c: char)
    requires c !in s
    ensures c !in CollapseAfter(s, afterBreak)
    decreases |s|
  {
    if |s| > 0 {
      CollapseChars(s[1..], if s[0] == '\n' then true else false, c);
      CollapseChars(s[1..], true, c);
    }
  }

  lemma StripIsSlice(s: string) returns (a: nat, b: nat)
    ensures a <= b <= |s| && Strip(s) == s[a..b]
  {
    a := LeadingSpaces(s);
    var t := s[a..];
    b := a + |t| - TrailingSpaces(t);
    assert t[..|t| - TrailingSpaces(t)] == s[a..b];
  }

  lemma SliceNoBlankLine(s: string, a: nat, b: nat)
    requires a <= b <= |s| && NoBlankLine(s)
    ensures NoBlankLine(s[a..b])
  {
    forall i | 0 <= i < b - a - 1 && s[a..b][i] == '\n'
      ensures s[a..b][i + 1] != '\n'
    {
      assert s[a + i] == '\n';
    }
  }

  lemma SliceBrokenAfter(s: string, a: nat, b: nat, c: char)
    requires a <= b <= |s| && BrokenAfter(s, c)
    ensures BrokenAfter(s[a..b], c)
  {
    forall i | 0 <= i < b - a - 1 && s[a..b][i] == c
      ensures s[a..b][i + 1] == '\n'
    {
      assert s[a + i] == c;
    }
  }

  lemma BrokenAfterConcat(x: string, y: string, c: char)
    requires BrokenAfter(x, c) && BrokenAfter(y, c)
    requires |x| > 0 && x[|x| - 1] == c && |y| > 0 ==> y[0] == '\n'
    ensures BrokenAfter(x + y, c)
  {
    var s := x + y;
    forall i | 0 <= i < |s| - 1 && s[i] == c
      ensures s[i + 1] == '\n'
    {
      if i < |x| - 1 {
        assert x[i] == c;
      } else if i == |x| - 1 {
        assert s[i + 1] == y[0];
      } else {
        assert y[i - |x|] == c;
      }
    }
  }

  /** After the punctuation pass, every ! and ? is followed by a line break. */
  lemma {:induction false} BreakPunctBreaksAfter(s: string, c: char)
    requires c == '!' || c == '?'
    ensures BrokenAfter(BreakPunct(s), c)
    decreases |s|
  {
    if |s| > 0 {
      if StartsWithEllipsis(s) {
        BreakPunctBreaksAfter(s[3..], c);
        BrokenAfterConcat("...\n", BreakPunct(s[3..]), c);
      } else if IsPunct(s[0]) {
        BreakPunctBreaksAfter(s[1..], c);
        BrokenAfterConcat([s[0], '\n'], BreakPunct(s[1..]), c);
      } else {
        BreakPunctBreaksAfter(s[1..], c);
        BrokenAfterConcat([s[0]], BreakPunct(s[1..]), c);
      }
    }
  }

  lemma ReplaceHead(s: string, pat: string, rep: string)
    requires |pat| > 0 && |s| > 0 && s[0] != pat[0]
    ensures Replace(s, pat, rep) == [s[0]] + Replace(s[1..], pat, rep)
  {
  }

  /** A replacement whose pattern does not start with a line break, and whose
      replacement text does not contain c, keeps every c followed by a line break. */
  lemma {:induction false} ReplaceBrokenAfter(s: string, pat: string, rep: string, c: char)
    requires |pat| > 0 && pat[0] != '\n' && c !in rep
    requires BrokenAfter(s, c)
    ensures BrokenAfter(Replace(s, pat, rep), c)
    decreases |s|
  {
    if |s| > 0 {
      if pat <= s {
        SliceBrokenAfter(s, |pat|, |s|, c);
        ReplaceBrokenAfter(s[|pat|..], pat, rep, c);
        BrokenAfterConcat(rep, Replace(s[|pat|..], pat, rep), c);
      } else {
        SliceBrokenAfter(s, 1, |s|, c);
        ReplaceBrokenAfter(s[1..], pat, rep, c);
        if s[0] == c && |s| > 1 {
          ReplaceHead(s[1..], pat, rep);
        }
        BrokenAfterConcat([s[0]], Replace(s[1..], pat, rep), c);
      }
    }
  }

  lemma {:induction false} CollapseBrokenAfter(s: string, afterBreak: bool, c: char)
    requires c != '\n' && BrokenAfter(s, c)
    ensures BrokenAfter(CollapseAfter(s, afterBreak), c)
    decreases |s|
  {
    if |s| > 0 {
      SliceBrokenAfter(s, 1, |s|, c);
      if s[0] == '\n' && afterBreak {
        CollapseBrokenAfter(s[1..], true, c);
      } else {
        CollapseBrokenAfter(s[1..], s[0] == '\n', c);
        BrokenAfterConcat([s[0]], CollapseAfter(s[1..], s[0] == '\n'), c);
      }
    }
  }

  /** The rewrite's output is stripped, has no blank line, no curly double quote,
      and every ! and ? in it ends a line (or the text). */
  lemma SplitSentencesFormat(text: string)
    ensures IsStripped(SplitSentencesWithNewline(text))
    ensures NoBlankLine(SplitSentencesWithNewline(text))
    ensures LeftQuote !in SplitSentencesWithNewline(text) && RightQuote !in SplitSentencesWithNewline(text)
    ensures BrokenAfter(SplitSentencesWithNewline(text), '!') && BrokenAfter(SplitSentencesWithNewline(text), '?')
  {
    var broken := BreakPunct(Protect(text));
    var restored := Replace(broken, Placeholder, ".");
    var q1 := Replace(restored, [LeftQuote], "\"");
    var quoted := Replace(q1, [RightQuote], "\"");
    var ellipsis := Replace(quoted, "...", ".\n");
    var collapsed := CollapseNewlines(ellipsis);
    var a, b := StripIsSlice(collapsed);
    // no blank line
    CollapseNoBlankLine(ellipsis, false);
    SliceNoBlankLine(collapsed, a, b);
    // no curly quotes
    ReplaceRemovesChar(restored, LeftQuote, "\"");
    ReplaceChars(q1, [RightQuote], "\"", LeftQuote);
    ReplaceRemovesChar(q1, RightQuote, "\"");
    ReplaceChars(quoted, "...", ".\n", LeftQuote);
    ReplaceChars(quoted, "...", ".\n", RightQuote);
    CollapseChars(ellipsis, false, LeftQuote);
    CollapseChars(ellipsis, false, RightQuote);
    // ! and ? end lines
    forall c | c == '!' || c == '?'
      ensures BrokenAfter(SplitSentencesWithNewline(text), c)
    {
      BreakPunctBreaksAfter(Protect(text), c);
      ReplaceBrokenAfter(broken, Placeholder, ".", c);
      ReplaceBrokenAfter(restored, [LeftQuote], "\"", c);
      ReplaceBrokenAfter(q1, [RightQuote], "\"", c);
      ReplaceBrokenAfter(quoted, "...", ".\n", c);
      CollapseBrokenAfter(ellipsis, false, c);
      SliceBrokenAfter(collapsed, a, b, c);
    }
  }

  // ---------------------------------------------------------------- locality of the passes

  lemma ProtectFromShift(t: string, i: nat, k: nat) returns (w: string)
    requires i <= k <= |t|
    ensures ProtectFrom(t, i) == w + ProtectFrom(t, k)
    decreases k - i
  {
    if i == k {
      w := [];
    } else {
      var w' := ProtectFromShift(t, i + 1, k);
      w := (if IsListMarkerDot(t, i) then Placeholder else [t[i]]) + w';
    }
  }

  /** Protection copies a stretch of text without dots. */
  lemma {:induction false} ProtectCopies(t: string, i: nat, piece: string)
    requires i + |piece| <= |t| && t[i..i + |piece|] == piece
    requires forall j :: 0 <= j < |piece| ==> piece[j] != '.'
    ensures ProtectFrom(t, i) == piece + ProtectFrom(t, i + |piece|)
    decreases |piece|
  {
    if |piece| > 0 {
      assert t[i] == piece[0];
      ProtectPlainStep(t, i);
      assert t[i + 1..i + |piece|] == piece[1..];
      ProtectCopies(t, i + 1, piece[1..]);
    }
  }

  lemma ProtectPlainStep(t: string, i: nat)
    requires i < |t| && t[i] != '.'
    ensures ProtectFrom(t, i) == [t[i]] + ProtectFrom(t, i + 1)
  {
  }

  lemma BreakPunctStep(u: string, v: string)
    requires |u| > 0 && |v| > 0 && v[0] != '.'
    ensures StartsWithEllipsis(u + v) <==> StartsWithEllipsis(u)
    ensures StartsWithEllipsis(u) ==> (u + v)[3..] == u[3..] + v
    ensures (u + v)[0] == u[0] && (u + v)[1..] == u[1..] + v
  {
    if |u| < 3 {
      assert (u + v)[|u|] == v[0];
    }
  }

  lemma {:induction false} BreakPunctSplit(u: string, v: string)
    requires |v| > 0 && v[0] != '.'
    ensures BreakPunct(u + v) == BreakPunct(u) + BreakPunct(v)
    decreases |u|
  {
    if |u| == 0 {
      assert u + v == v;
    } else {
      BreakPunctStep(u, v);
      if StartsWithEllipsis(u) {
        BreakPunctSplit(u[3..], v);
        assert BreakPunct(u + v) == "...\n" + BreakPunct(u[3..] + v);
        Assoc("...\n", BreakPunct(u[3..]), BreakPunct(v));
      } else {
        BreakPunctSplit(u[1..], v);
        var h := if IsPunct(u[0]) then [u[0], '\n'] else [u[0]];
        assert BreakPunct(u + v) == h + BreakPunct(u[1..] + v);
        assert BreakPunct(u) == h + BreakPunct(u[1..]);
        Assoc(h, BreakPunct(u[1..]), BreakPunct(v));
      }
    }
  }

  lemma {:induction false} BreakPunctKeep(m: string, v: string)
    requires forall i :: 0 <= i < |m| ==> !IsPunct(m[i])
    ensures BreakPunct(m + v) == m + BreakPunct(v)
    decreases |m|
  {
    if |m| == 0 {
      assert m + v == v;
    } else {
      assert (m + v)[0] == m[0];
      assert (m + v)[1..] == m[1..] + v;
      BreakPunctKeep(m[1..], v);
    }
  }

  lemma {:induction false} CollapseSplit(u: string, v: string, afterBreak: bool)
    requires |v| > 0 && v[0] != '\n'
    ensures CollapseAfter(u + v, afterBreak) == CollapseAfter(u, afterBreak) + CollapseAfter(v, false)
    decreases |u|
  {
    if |u| == 0 {
      assert u + v == v;
    } else {
      assert (u + v)[0] == u[0];
      assert (u + v)[1..] == u[1..] + v;
      if u[0] == '\n' && afterBreak {
        CollapseSplit(u[1..], v, true);
      } else {
        CollapseSplit(u[1..], v, u[0] == '\n');
      }
    }
  }

  lemma {:induction false} CollapseKeep(m: string, v: string, afterBreak: bool)
    requires |m| > 0
    requires forall i :: 0 <= i < |m| ==> m[i] != '\n'
    ensures CollapseAfter(m + v, afterBreak) == m + CollapseAfter(v, false)
    decreases |m|
  {
    assert (m + v)[0] == m[0];
    assert (m + v)[1..] == m[1..] + v;
    if |m| > 1 {
      CollapseKeep(m[1..], v, false);
    } else {
      assert m[1..] + v == v;
    }
  }

  lemma ReplaceMatchHead(rest: string, pat: string, rep: string)
    requires |pat| > 0
    ensures Replace(pat + rest, pat, rep) == rep + Replace(rest, pat, rep)
  {
    assert pat <= pat + rest;
    assert (pat + rest)[|pat|..] == rest;
  }

  lemma WordCharIsPlain(c: char)
    requires IsWordChar(c)
    ensures !IsSpace(c) && !IsPunct(c) && c != '\n' && c != '<' && c != LeftQuote && c != RightQuote
  {
  }

  lemma DigitRunStartOfRun(t: string, k: nat, d: string)
    requires k + |d| <= |t| && t[k..k + |d|] == d
    requires forall m :: 0 <= m < |d| ==> IsDigit(d[m])
    requires k == 0 || !IsDigit(t[k - 1])
    ensures DigitRunStart(t, k + |d|) == k
  {
    var j := k + |d|;
    assert forall m :: k <= m < j ==> t[m] == d[m - k];
    DigitRunStartAt(t, k, j);
  }

  lemma {:induction false} DigitRunStartAt(t: string, k: nat, j: nat)
    requires k <= j <= |t|
    requires forall m :: k <= m < j ==> IsDigit(t[m])
    requires k == 0 || !IsDigit(t[k - 1])
    ensures DigitRunStart(t, j) == k
    decreases j
  {
    if j > k {
      DigitRunStartAt(t, k, j - 1);
    }
  }

  // ---------------------------------------------------------------- where lines break

  /** A character that none of the passes rewrites or breaks after. */
  predicate PlainChar(c: char)
  {
    !IsPunct(c) && c != '\n' && c != '<' && c != LeftQuote && c != RightQuote
  }

  predicate Plain(s: string)
  {
    forall i :: 0 <= i < |s| ==> PlainChar(s[i])
  }

  /** Blanks inside a line: spaces, tabs and the like, but no line break. */
  predicate InlineSpaces(ws: string)
  {
    forall i :: 0 <= i < |ws| ==> IsSpace(ws[i]) && ws[i] != '\n'
  }

  lemma InlineSpacesThenWord(ws: string, c: char)
    requires InlineSpaces(ws) && IsWordChar(c)
    ensures Plain(ws + [c]) && (ws + [c])[0] != '.'
    ensures forall i :: 0 <= i < |ws + [c]| ==> (ws + [c])[i] != '.' && (ws + [c])[i] != '\n'
  {
    WordCharIsPlain(c);
  }

  lemma DigitsPlain(d: string)
    requires forall i :: 0 <= i < |d| ==> IsDigit(d[i])
    ensures Plain(d)
    ensures forall i :: 0 <= i < |d| ==> d[i] !in Placeholder && d[i] !in "..." && IsWordChar(d[i])
  {
  }

  /** The two quote passes leave a piece without curly quotes in place. */
  lemma QuotesKeep(x: string, mid: string, y: string) returns (x': string, y': string)
    requires |mid| > 0 && forall i :: 0 <= i < |mid| ==> mid[i] != LeftQuote && mid[i] != RightQuote
    ensures NormalizeQuotes(x + mid + y) == x' + mid + y'
  {
    ReplaceAround(x, mid, y, [LeftQuote], "\"");
    var x2 := Replace(x, [LeftQuote], "\"");
    var y2 := Replace(y, [LeftQuote], "\"");
    ReplaceAround(x2, mid, y2, [RightQuote], "\"");
    x' := Replace(x2, [RightQuote], "\"");
    y' := Replace(y2, [RightQuote], "\"");
  }

  /** The ellipsis pass leaves a marker "digits, dot, plain rest" in place. */
  lemma EllipsisPassKeepsMarker(x: string, d: string, m1: string, y: string)
    requires |d| > 0 && forall i :: 0 <= i < |d| ==> IsDigit(d[i])
    requires |m1| > 0 && Plain(m1)
    ensures Replace(x + (d + "." + m1) + y, "...", ".\n")
         == Replace(x, "...", ".\n") + (d + "." + m1) + Replace(y, "...", ".\n")
  {
    DigitsPlain(d);
    assert x + (d + "." + m1) + y == x + d + ("." + m1 + y);
    ReplaceAround(x, d, "." + m1 + y, "...", ".\n");
    assert ("." + m1 + y)[1] == m1[0];
    ReplaceNoMatchHead("." + m1 + y, "...", ".\n");
    assert ("." + m1 + y)[1..] == m1 + y;
    ReplaceKeep(m1, y, "...", ".\n");
  }

  /** Collapsing and stripping keep a piece without line breaks that does not start or
      end with a blank. */
  lemma CollapseStripKeep(x: string, mid: string, y: string)
    requires |mid| > 0 && !IsSpace(mid[0]) && !IsSpace(mid[|mid| - 1])
    requires forall i :: 0 <= i < |mid| ==> mid[i] != '\n'
    ensures IsInfix(mid, Strip(CollapseNewlines(x + mid + y)))
  {
    assert x + mid + y == x + (mid + y);
    CollapseSplit(x, mid + y, false);
    CollapseKeep(mid, y, false);
    assert CollapseNewlines(x + mid + y) == CollapseAfter(x, false) + mid + CollapseAfter(y, false);
    StripKeepsInfix(CollapseAfter(x, false), mid, CollapseAfter(y, false));
  }

  lemma MarkerChars(d: string, m1: string)
    requires |d| > 0 && forall i :: 0 <= i < |d| ==> IsDigit(d[i])
    requires Plain(m1)
    ensures forall i :: 0 <= i < |d + "." + m1| ==>
      (d + "." + m1)[i] != LeftQuote && (d + "." + m1)[i] != RightQuote && (d + "." + m1)[i] != '\n'
  {
    var mid := d + "." + m1;
    forall i | 0 <= i < |mid|
      ensures mid[i] != LeftQuote && mid[i] != RightQuote && mid[i] != '\n'
    {
      if i < |d| {
        assert mid[i] == d[i];
      } else if i > |d| {
        assert mid[i] == m1[i - |d| - 1];
      }
    }
  }

  /** The passes after the restore keep a marker "digits, dot, plain rest". */
  lemma LaterPassesKeepMarker(x: string, d: string, m1: string, y: string)
    requires |d| > 0 && forall i :: 0 <= i < |d| ==> IsDigit(d[i])
    requires |m1| > 0 && Plain(m1) && !IsSpace(m1[|m1| - 1])
    ensures IsInfix(d + "." + m1, Strip(CollapseNewlines(Replace(NormalizeQuotes(x + (d + "." + m1) + y), "...", ".\n"))))
  {
    var mid := d + "." + m1;
    MarkerChars(d, m1);
    var x', y' := QuotesKeep(x, mid, y);
    EllipsisPassKeepsMarker(x', d, m1, y');
    CollapseStripKeep(Replace(x', "...", ".\n"), mid, Replace(y', "...", ".\n"));
  }

  /** Protection turns the dot of a list marker into the placeholder and copies the
      digits before it and the plain text after it. */
  lemma ProtectMarker(a: string, d: string, m1: string, b: string) returns (w: string, r: string)
    requires |d| > 0 && forall i :: 0 <= i < |d| ==> IsDigit(d[i])
    requires a == [] || !IsWordChar(a[|a| - 1])
    requires Plain(m1)
    ensures Protect(a + d + "." + m1 + b) == w + d + Placeholder + m1 + r
  {
    var t := a + d + "." + m1 + b;
    MarkerLayout(a, d, m1, b);
    w, r := ProtectMarkerIn(t, |a|, d, m1);
  }

  /** The same, for a text in which the digits start at k and the plain text follows the dot. */
  lemma ProtectMarkerIn(t: string, k: nat, d: string, m1: string) returns (w: string, r: string)
    requires |d| > 0 && forall i :: 0 <= i < |d| ==> IsDigit(d[i])
    requires Plain(m1)
    requires k + |d| < |t| && t[k..k + |d|] == d && t[k + |d|] == '.'
    requires k + |d| + 1 + |m1| <= |t| && t[k + |d| + 1..k + |d| + 1 + |m1|] == m1
    requires k == 0 || !IsWordChar(t[k - 1])
    ensures Protect(t) == w + d + Placeholder + m1 + r
  {
    var i := k + |d|;
    w := ProtectFromShift(t, 0, k);
    ProtectAtMarker(t, k, d);
    ProtectCopies(t, i + 1, m1);
    r := ProtectFrom(t, i + 1 + |m1|);
    ConcatChain(Protect(t), ProtectFrom(t, k), ProtectFrom(t, i + 1), w, d, m1, r);
  }

  lemma ConcatChain(whole: string, from: string, after: string, w: string, d: string, m1: string, r: string)
    requires whole == w + from && from == d + Placeholder + after && after == m1 + r
    ensures whole == w + d + Placeholder + m1 + r
  {
    ConcatAssoc(w, d, Placeholder, m1, r);
  }

  /** Where the parts of "a, digits, dot, m1, b" sit in the text. */
  lemma MarkerLayout(a: string, d: string, m1: string, b: string)
    ensures var t := a + d + "." + m1 + b; var i := |a| + |d|;
      i < |t| && t[|a|..i] == d && t[i] == '.' && (|a| > 0 ==> t[|a| - 1] == a[|a| - 1])
      && t[i + 1..i + 1 + |m1|] == m1
  {
    var t := a + d + "." + m1 + b;
    var i := |a| + |d|;
    assert t == a + d + ("." + m1 + b);
    assert t[i + 1..] == m1 + b;
  }

  lemma ConcatAssoc(s1: string, s2: string, s3: string, s4: string, s5: string)
    ensures s1 + (s2 + s3 + (s4 + s5)) == s1 + s2 + s3 + s4 + s5
  {
  }

  lemma ProtectAtMarker(t: string, k: nat, d: string)
    requires |d| > 0 && forall i :: 0 <= i < |d| ==> IsDigit(d[i])
    requires k + |d| < |t| && t[k..k + |d|] == d && t[k + |d|] == '.'
    requires k == 0 || !IsWordChar(t[k - 1])
    ensures ProtectFrom(t, k) == d + Placeholder + ProtectFrom(t, k + |d| + 1)
  {
    var i := k + |d|;
    ProtectCopies(t, k, d);
    ProtectMarkerDot(t, k, d);
    Assoc(d, Placeholder, ProtectFrom(t, i + 1));
  }

  /** The digits before the dot form a run that starts at k. */
  lemma DigitRunBeforeDot(t: string, k: nat, d: string)
    requires |d| > 0 && forall i :: 0 <= i < |d| ==> IsDigit(d[i])
    requires k + |d| <= |t| && t[k..k + |d|] == d
    requires k == 0 || !IsWordChar(t[k - 1])
    ensures IsDigit(t[k + |d| - 1]) && DigitRunStart(t, k + |d|) == k
  {
    assert t[k + |d| - 1] == t[k..k + |d|][|d| - 1];
    DigitRunStartOfRun(t, k, d);
  }

  /** A dot after a run of digits that starts at a word boundary is a list-marker dot. */
  lemma ProtectMarkerDot(t: string, k: nat, d: string)
    requires |d| > 0 && forall i :: 0 <= i < |d| ==> IsDigit(d[i])
    requires k + |d| < |t| && t[k..k + |d|] == d && t[k + |d|] == '.'
    requires k == 0 || !IsWordChar(t[k - 1])
    ensures ProtectFrom(t, k + |d|) == Placeholder + ProtectFrom(t, k + |d| + 1)
  {
    DigitRunBeforeDot(t, k, d);
    assert IsListMarkerDot(t, k + |d|);
  }

  /** The punctuation pass and the restore turn "digits, placeholder, plain rest" back
      into "digits, dot, plain rest" without a break. */
  lemma BreakRestoreMarker(w: string, d: string, m1: string, r: string) returns (x: string, y: string)
    requires |d| > 0 && forall i :: 0 <= i < |d| ==> IsDigit(d[i])
    requires Plain(m1)
    ensures Replace(BreakPunct(w + d + Placeholder + m1 + r), Placeholder, ".") == x + (d + "." + m1) + y
  {
    BreakAroundMarker(w, d, m1, r);
    x := Replace(BreakPunct(w), Placeholder, ".");
    y := Replace(BreakPunct(r), Placeholder, ".");
    RestoreAroundMarker(BreakPunct(w), d, m1, BreakPunct(r));
  }

  /** The punctuation pass leaves digits, the placeholder and plain text as they are. */
  lemma BreakAroundMarker(w: string, d: string, m1: string, r: string)
    requires |d| > 0 && forall i :: 0 <= i < |d| ==> IsDigit(d[i])
    requires Plain(m1)
    ensures BreakPunct(w + d + Placeholder + m1 + r) == BreakPunct(w) + d + (Placeholder + (m1 + BreakPunct(r)))
  {
    DigitsPlain(d);
    var t3 := m1 + r;
    var t2 := Placeholder + t3;
    var t1 := d + t2;
    assert w + d + Placeholder + m1 + r == w + t1;
    BreakPunctSplit(w, t1);
    BreakPunctKeep(d, t2);
    BreakPunctKeep(Placeholder, t3);
    BreakPunctKeep(m1, r);
  }

  /** The restore turns the placeholder after the digits back into a dot and copies the
      digits and the plain text. */
  lemma RestoreAroundMarker(bx: string, d: string, m1: string, bt: string)
    requires |d| > 0 && forall i :: 0 <= i < |d| ==> IsDigit(d[i])
    requires Plain(m1)
    ensures Replace(bx + d + (Placeholder + (m1 + bt)), Placeholder, ".")
         == Replace(bx, Placeholder, ".") + (d + "." + m1) + Replace(bt, Placeholder, ".")
  {
    DigitsPlain(d);
    var u3 := m1 + bt;
    ReplaceAround(bx, d, Placeholder + u3, Placeholder, ".");
    ReplaceMatchHead(u3, Placeholder, ".");
    ReplaceKeep(m1, bt, Placeholder, ".");
    var x, y := Replace(bx, Placeholder, "."), Replace(bt, Placeholder, ".");
    RegroupDot(x, d, m1, y);
  }

  lemma RegroupDot(x: string, d: string, m1: string, y: string)
    ensures x + d + ("." + (m1 + y)) == x + (d + "." + m1) + y
  {
  }

  /** A list marker "N." that starts at a word boundary is not split from what follows
      it on the line: "1. Intro" stays on one line. */
  lemma ListMarkerNotBroken(a: string, d: string, ws: string, c: char, b: string)
    requires |d| > 0 && forall i :: 0 <= i < |d| ==> IsDigit(d[i])
    requires a == [] || !IsWordChar(a[|a| - 1])
    requires InlineSpaces(ws) && IsWordChar(c)
    ensures IsInfix(d + "." + ws + [c], SplitSentencesWithNewline(a + d + "." + ws + [c] + b))
  {
    var m1 := ws + [c];
    InlineSpacesThenWord(ws, c);
    WordCharIsPlain(c);
    assert a + d + "." + ws + [c] + b == a + d + "." + m1 + b;
    var w, r := ProtectMarker(a, d, m1, b);
    var x, y := BreakRestoreMarker(w, d, m1, r);
    LaterPassesKeepMarker(x, d, m1, y);
    assert d + "." + ws + [c] == d + "." + m1;
  }

  /** "Chương N." (chapter N) is not split either: its digits follow a blank, so the
      dot is protected as a list marker. */
  lemma ChapterMarkerNotBroken(a: string, ws0: string, d: string, ws: string, c: char, b: string)
    requires |ws0| > 0 && forall i :: 0 <= i < |ws0| ==> IsSpace(ws0[i])
    requires |d| > 0 && forall i :: 0 <= i < |d| ==> IsDigit(d[i])
    requires InlineSpaces(ws) && IsWordChar(c)
    ensures IsInfix(d + "." + ws + [c],
      SplitSentencesWithNewline(a + "Ch\U{1B0}\U{1A1}ng" + ws0 + d + "." + ws + [c] + b))
  {
    var a' := a + "Ch\U{1B0}\U{1A1}ng" + ws0;
    assert a'[|a'| - 1] == ws0[|ws0| - 1];
    assert a + "Ch\U{1B0}\U{1A1}ng" + ws0 + d + "." + ws + [c] + b == a' + d + "." + ws + [c] + b;
    ListMarkerNotBroken(a', d, ws, c, b);
  }

  // ---------------------------------------------------------------- sentence ends

  lemma ProtectNoDigitBefore(t: string, i: nat)
    requires 0 < i < |t| && !IsDigit(t[i - 1])
    ensures ProtectFrom(t, i) == [t[i]] + ProtectFrom(t, i + 1)
  {
  }

  lemma BreakPunctOne(p: char, rest: string)
    requires IsPunct(p) && |rest| > 0 && rest[0] != '.'
    ensures BreakPunct([p] + rest) == [p, '\n'] + BreakPunct(rest)
  {
    assert ([p] + rest)[1..] == rest;
  }

  lemma BreakPunctEllipsis(rest: string)
    ensures BreakPunct("..." + rest) == "...\n" + BreakPunct(rest)
  {
    assert ("..." + rest)[3..] == rest;
  }

  /** A run of line breaks collapses to one (or to none right after a break). */
  lemma {:induction false} CollapseBreaks(nl: string, rest: string, afterBreak: bool)
    requires |nl| > 0 && forall i :: 0 <= i < |nl| ==> nl[i] == '\n'
    ensures CollapseAfter(nl + rest, afterBreak)
         == (if afterBreak then [] else ['\n']) + CollapseAfter(rest, true)
    decreases |nl|
  {
    assert (nl + rest)[0] == '\n';
    assert (nl + rest)[1..] == nl[1..] + rest;
    if |nl| > 1 {
      CollapseBreaks(nl[1..], rest, true);
    } else {
      assert nl[1..] + rest == rest;
    }
  }

  /** The collapse and the strip leave "x p" followed by one line break and the next words. */
  lemma CollapseStripBreak(x4: string, x: char, p: char, nl: string, m1: string, y4: string)
    requires IsWordChar(x) && IsPunct(p)
    requires |nl| > 0 && forall i :: 0 <= i < |nl| ==> nl[i] == '\n'
    requires |m1| > 0 && Plain(m1) && !IsSpace(m1[|m1| - 1])
    ensures IsInfix([x, p, '\n'] + m1, Strip(CollapseNewlines(x4 + [x, p] + nl + m1 + y4)))
  {
    WordCharIsPlain(x);
    var mid := [x, p, '\n'] + m1;
    assert x4 + [x, p] + nl + m1 + y4 == x4 + ([x, p] + (nl + (m1 + y4)));
    CollapseSplit(x4, [x, p] + (nl + (m1 + y4)), false);
    CollapseKeep([x, p], nl + (m1 + y4), false);
    CollapseBreaks(nl, m1 + y4, false);
    CollapseKeep(m1, y4, true);
    var cx := CollapseAfter(x4, false);
    var cy := CollapseAfter(y4, false);
    calc {
      CollapseNewlines(x4 + [x, p] + nl + m1 + y4);
      cx + ([x, p] + (['\n'] + (m1 + cy)));
      cx + mid + cy;
    }
    StripKeepsInfix(cx, mid, cy);
  }

  lemma ProtectSentenceEnd(a: string, x: char, p: char, m1: string, b: string) returns (w: string, r: string)
    requires IsWordChar(x) && !IsDigit(x) && IsPunct(p) && Plain(m1)
    ensures Protect(a + [x, p] + m1 + b) == w + [x, p] + m1 + r
  {
    var t := a + [x, p] + m1 + b;
    var i := |a|;
    WordCharIsPlain(x);
    assert t[i] == x && t[i + 1] == p;
    assert t[i + 2..i + 2 + |m1|] == m1;
    w := ProtectFromShift(t, 0, i);
    ProtectPlainStep(t, i);
    ProtectNoDigitBefore(t, i + 1);
    ProtectCopies(t, i + 2, m1);
    r := ProtectFrom(t, i + 2 + |m1|);
    calc {
      Protect(t);
      w + ([x] + ([p] + (m1 + r)));
      w + [x, p] + m1 + r;
    }
  }

  lemma BreakSentenceEnd(w: string, x: char, p: char, m1: string, r: string) returns (px: string, pt: string)
    requires IsWordChar(x) && IsPunct(p) && |m1| > 0 && Plain(m1)
    ensures BreakPunct(w + [x, p] + m1 + r) == (px + [x]) + (([p, '\n'] + m1) + pt)
  {
    WordCharIsPlain(x);
    assert w + [x, p] + m1 + r == w + ([x] + ([p] + (m1 + r)));
    BreakPunctSplit(w, [x] + ([p] + (m1 + r)));
    BreakPunctKeep([x], [p] + (m1 + r));
    BreakPunctOne(p, m1 + r);
    BreakPunctKeep(m1, r);
    px := BreakPunct(w);
    pt := BreakPunct(r);
    calc {
      BreakPunct(w + [x, p] + m1 + r);
      px + ([x] + ([p, '\n'] + (m1 + pt)));
      (px + [x]) + (([p, '\n'] + m1) + pt);
    }
  }

  lemma RestoreSentenceEnd(px: string, x: char, p: char, m1: string, pt: string)
    requires IsWordChar(x) && IsPunct(p) && Plain(m1)
    ensures Replace((px + [x]) + (([p, '\n'] + m1) + pt), Placeholder, ".")
         == Replace(px, Placeholder, ".") + ([x, p, '\n'] + m1) + Replace(pt, Placeholder, ".")
  {
    WordCharIsPlain(x);
    assert (px + [x])[|px + [x]| - 1] == x;
    ReplaceSplit(px + [x], ([p, '\n'] + m1) + pt, Placeholder, ".");
    ReplaceAppendChar(px, x, Placeholder, ".");
    NoOpenAfterMark(p, m1);
    ReplaceKeep([p, '\n'] + m1, pt, Placeholder, ".");
    EndRegroup(Replace(px, Placeholder, "."), x, p, m1, Replace(pt, Placeholder, "."));
  }

  lemma NoOpenAfterMark(p: char, m1: string)
    requires IsPunct(p) && Plain(m1)
    ensures forall i :: 0 <= i < |[p, '\n'] + m1| ==> ([p, '\n'] + m1)[i] != '<'
  {
    forall i | 0 <= i < |[p, '\n'] + m1|
      ensures ([p, '\n'] + m1)[i] != '<'
    {
      if i >= 2 {
        assert ([p, '\n'] + m1)[i] == m1[i - 2];
      }
    }
  }

  lemma EndRegroup(a: string, x: char, p: char, m1: string, b: string)
    ensures a + [x] + (([p, '\n'] + m1) + b) == a + ([x, p, '\n'] + m1) + b
  {
  }

  /** The ellipsis pass copies a punctuation mark followed by a line break and plain text. */
  lemma EllipsisPassKeepsBreak(p: char, m1: string, y': string)
    requires IsPunct(p) && |m1| > 0 && Plain(m1)
    ensures Replace([p, '\n'] + m1 + y', "...", ".\n") == [p, '\n'] + m1 + Replace(y', "...", ".\n")
  {
    var t := [p, '\n'] + m1 + y';
    assert t[1] == '\n';
    ReplaceNoMatchHead(t, "...", ".\n");
    assert t[1..] == ['\n'] + m1 + y';
    ReplaceKeep(['\n'] + m1, y', "...", ".\n");
  }

  /** The ellipsis pass leaves "x p", a line break and plain text in place. */
  lemma EllipsisPassKeepsEnd(x': string, x: char, p: char, m1: string, y': string)
    requires IsWordChar(x) && IsPunct(p) && |m1| > 0 && Plain(m1)
    ensures Replace(x' + ([x, p, '\n'] + m1) + y', "...", ".\n")
         == Replace(x', "...", ".\n") + [x, p] + "\n" + m1 + Replace(y', "...", ".\n")
  {
    WordCharIsPlain(x);
    var t := [p, '\n'] + m1 + y';
    assert x' + ([x, p, '\n'] + m1) + y' == x' + ([x] + t);
    ReplaceSplit(x', [x] + t, "...", ".\n");
    ReplaceKeep([x], t, "...", ".\n");
    EllipsisPassKeepsBreak(p, m1, y');
  }

  /** A sentence that ends with . ! or ? after a word (not after a number) is broken
      there: the next words start a new line. */
  lemma SentenceEndBroken(a: string, x: char, p: char, ws: string, c: char, b: string)
    requires IsWordChar(x) && !IsDigit(x) && IsPunct(p)
    requires InlineSpaces(ws) && IsWordChar(c)
    ensures IsInfix([x, p, '\n'] + ws + [c], SplitSentencesWithNewline(a + [x, p] + ws + [c] + b))
  {
    var m1 := ws + [c];
    InlineSpacesThenWord(ws, c);
    WordCharIsPlain(x);
    WordCharIsPlain(c);
    assert a + [x, p] + ws + [c] + b == a + [x, p] + m1 + b;
    var w, r := ProtectSentenceEnd(a, x, p, m1, b);
    var px, pt := BreakSentenceEnd(w, x, p, m1, r);
    RestoreSentenceEnd(px, x, p, m1, pt);
    var bx, bt := Replace(px, Placeholder, "."), Replace(pt, Placeholder, ".");
    var mid := [x, p, '\n'] + m1;
    assert forall i :: 0 <= i < |mid| ==> mid[i] != LeftQuote && mid[i] != RightQuote;
    var qx, qy := QuotesKeep(bx, mid, bt);
    EllipsisPassKeepsEnd(qx, x, p, m1, qy);
    CollapseStripBreak(Replace(qx, "...", ".\n"), x, p, "\n", m1, Replace(qy, "...", ".\n"));
    assert [x, p, '\n'] + ws + [c] == [x, p, '\n'] + m1;
  }

  // ---------------------------------------------------------------- ellipses

  lemma ProtectEllipsis(a: string, x: char, m1: string, b: string) returns (w: string, r: string)
    requires IsWordChar(x) && !IsDigit(x) && Plain(m1)
    ensures Protect(a + [x] + "..." + m1 + b) == w + [x] + "..." + m1 + r
  {
    var t := a + [x] + "..." + m1 + b;
    var i := |a|;
    WordCharIsPlain(x);
    assert t[i] == x && t[i + 1] == '.' && t[i + 2] == '.' && t[i + 3] == '.';
    assert t[i + 4..i + 4 + |m1|] == m1;
    w := ProtectFromShift(t, 0, i);
    ProtectPlainStep(t, i);
    ProtectNoDigitBefore(t, i + 1);
    ProtectNoDigitBefore(t, i + 2);
    ProtectNoDigitBefore(t, i + 3);
    ProtectCopies(t, i + 4, m1);
    r := ProtectFrom(t, i + 4 + |m1|);
    assert ProtectFrom(t, i + 3) == ['.'] + (m1 + r);
    assert ProtectFrom(t, i + 2) == ['.'] + (['.'] + (m1 + r));
    assert ProtectFrom(t, i) == [x] + (['.'] + (['.'] + (['.'] + (m1 + r))));
    RegroupEllipsis(w, x, m1, r);
  }

  lemma RegroupEllipsis(w: string, x: char, m1: string, r: string)
    ensures w + ([x] + (['.'] + (['.'] + (['.'] + (m1 + r))))) == w + [x] + "..." + m1 + r
  {
  }

  lemma BreakEllipsis(w: string, x: char, m1: string, r: string) returns (px: string, pt: string)
    requires IsWordChar(x) && |m1| > 0 && Plain(m1)
    ensures BreakPunct(w + [x] + "..." + m1 + r) == (px + [x]) + (("...\n" + m1) + pt)
  {
    WordCharIsPlain(x);
    assert w + [x] + "..." + m1 + r == w + ([x] + ("..." + (m1 + r)));
    BreakPunctSplit(w, [x] + ("..." + (m1 + r)));
    BreakPunctKeep([x], "..." + (m1 + r));
    BreakPunctEllipsis(m1 + r);
    BreakPunctKeep(m1, r);
    px := BreakPunct(w);
    pt := BreakPunct(r);
    calc {
      BreakPunct(w + [x] + "..." + m1 + r);
      px + ([x] + ("...\n" + (m1 + pt)));
      (px + [x]) + (("...\n" + m1) + pt);
    }
  }

  lemma RestoreEllipsis(px: string, x: char, m1: string, pt: string)
    requires IsWordChar(x) && Plain(m1)
    ensures Replace((px + [x]) + (("...\n" + m1) + pt), Placeholder, ".")
         == Replace(px, Placeholder, ".") + ([x] + "...\n" + m1) + Replace(pt, Placeholder, ".")
  {
    WordCharIsPlain(x);
    ReplaceSplit(px + [x], ("...\n" + m1) + pt, Placeholder, ".");
    ReplaceAppendChar(px, x, Placeholder, ".");
    ReplaceKeep("...\n" + m1, pt, Placeholder, ".");
  }

  /** The ellipsis pass turns the broken ellipsis "...\n" into ".\n\n". */
  lemma EllipsisPassOnEllipsis(qx: string, x: char, m1: string, qy: string)
    requires IsWordChar(x) && Plain(m1)
    ensures Replace(qx + ([x] + "...\n" + m1) + qy, "...", ".\n")
         == Replace(qx, "...", ".\n") + [x, '.'] + "\n\n" + m1 + Replace(qy, "...", ".\n")
  {
    WordCharIsPlain(x);
    var t := "\n" + m1 + qy;
    EllipsisRegroup(qx, x, m1, qy);
    ReplaceSplit(qx, [x] + ("..." + t), "...", ".\n");
    ReplaceKeep([x], "..." + t, "...", ".\n");
    ReplaceMatchHead(t, "...", ".\n");
    NoDotAfterBreak(m1);
    ReplaceKeep("\n" + m1, qy, "...", ".\n");
    BrokenRegroup(Replace(qx, "...", ".\n"), x, m1, Replace(qy, "...", ".\n"));
  }

  lemma EllipsisRegroup(qx: string, x: char, m1: string, qy: string)
    ensures qx + ([x] + "...\n" + m1) + qy == qx + ([x] + ("..." + ("\n" + m1 + qy)))
  {
  }

  lemma NoDotAfterBreak(m1: string)
    requires Plain(m1)
    ensures forall i :: 0 <= i < |"\n" + m1| ==> ("\n" + m1)[i] != '.'
  {
    forall i | 0 <= i < |"\n" + m1|
      ensures ("\n" + m1)[i] != '.'
    {
      if i > 0 {
        assert ("\n" + m1)[i] == m1[i - 1];
      }
    }
  }

  lemma BrokenRegroup(a: string, x: char, m1: string, b: string)
    ensures a + ([x] + (".\n" + ("\n" + m1 + b))) == a + [x, '.'] + "\n\n" + m1 + b
  {
  }

  /** An ellipsis after a word ends the sentence with a single dot and a single line
      break: "wait... then" becomes "wait." and "then" on the next line. */
  lemma EllipsisEndsSentence(a: string, x: char, ws: string, c: char, b: string)
    requires IsWordChar(x) && !IsDigit(x)
    requires InlineSpaces(ws) && IsWordChar(c)
    ensures IsInfix([x, '.', '\n'] + ws + [c], SplitSentencesWithNewline(a + [x] + "..." + ws + [c] + b))
  {
    var m1 := ws + [c];
    InlineSpacesThenWord(ws, c);
    WordCharIsPlain(c);
    EllipsisThenPlain(a, x, m1, b);
    RegroupTail(a + [x] + "...", ws, c, b);
    RegroupWord([x, '.', '\n'], ws, c);
  }

  lemma RegroupTail(p: string, ws: string, c: char, b: string)
    ensures p + ws + [c] + b == p + (ws + [c]) + b
  {
  }

  lemma RegroupWord(p: string, ws: string, c: char)
    ensures p + ws + [c] == p + (ws + [c])
  {
  }

  /** The ellipsis pass over a word, an ellipsis and a plain piece. */
  lemma EllipsisThenPlain(a: string, x: char, m1: string, b: string)
    requires IsWordChar(x) && !IsDigit(x)
    requires |m1| > 0 && Plain(m1) && !IsSpace(m1[|m1| - 1])
    ensures IsInfix([x, '.', '\n'] + m1, SplitSentencesWithNewline(a + [x] + "..." + m1 + b))
  {
    WordCharIsPlain(x);
    var w, r := ProtectEllipsis(a, x, m1, b);
    var px, pt := BreakEllipsis(w, x, m1, r);
    RestoreEllipsis(px, x, m1, pt);
    var mid := [x] + "...\n" + m1;
    NoQuotesAround(x, m1);
    var qx, qy := QuotesKeep(Replace(px, Placeholder, "."), mid, Replace(pt, Placeholder, "."));
    EllipsisPassOnEllipsis(qx, x, m1, qy);
    CollapseStripBreak(Replace(qx, "...", ".\n"), x, '.', "\n\n", m1, Replace(qy, "...", ".\n"));
  }

  lemma NoQuotesAround(x: char, m1: string)
    requires IsWordChar(x) && Plain(m1)
    ensures var mid := [x] + "...\n" + m1;
      forall i :: 0 <= i < |mid| ==> mid[i] != LeftQuote && mid[i] != RightQuote
  {
    WordCharIsPlain(x);
    var mid := [x] + "...\n" + m1;
    forall i | 0 <= i < |mid|
      ensures mid[i] != LeftQuote && mid[i] != RightQuote
    {
      if i >= 5 {
        assert mid[i] == m1[i - 5];
      }
    }
  }
}
