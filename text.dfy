/** Character classes and the Python string operations the pipeline relies on
    (str.strip, str.split, str.join, str.replace, str(int)), over seq<char>. */
module Text {
  import opened Wrappers

  /** Python's str.isspace() character set. */
  predicate IsSpace(c: char)
  {
    c == ' ' || c == '\t' || c == '\n' || c == '\r' || c == '\U{B}' || c == '\U{C}'
    || ('\U{1C}' <= c <= '\U{1F}') || c == '\U{85}' || c == '\U{A0}' || c == '\U{1680}'
    || ('\U{2000}' <= c <= '\U{200A}') || c == '\U{2028}' || c == '\U{2029}' || c == '\U{202F}'
    || c == '\U{205F}' || c == '\U{3000}'
  }

  predicate IsDigit(c: char) { '0' <= c <= '9' }

  predicate IsLower(c: char) { 'a' <= c <= 'z' }

  /** Regex `\w`, restricted to ASCII letters and digits, '_' and the Latin letter
      blocks used by Vietnamese text (Latin-1 letters, Latin Extended-A/B, U+1E00-U+1EFF). */
  predicate IsWordChar(c: char)
  {
    IsDigit(c) || ('a' <= c <= 'z') || ('A' <= c <= 'Z') || c == '_'
    || ('\U{C0}' <= c <= '\U{24F}' && c != '\U{D7}' && c != '\U{F7}')
    || ('\U{1E00}' <= c <= '\U{1EFF}')
  }

  /** ASCII lower-casing, as str.lower() acts on ASCII letters. */
  function Lower(s: string): (r: string)
    ensures |r| == |s|
    ensures forall i :: 0 <= i < |s| ==> r[i] == (if 'A' <= s[i] <= 'Z' then (s[i] as int + 32) as char else s[i])
  {
    if s == [] then [] else [if 'A' <= s[0] <= 'Z' then (s[0] as int + 32) as char else s[0]] + Lower(s[1..])
  }

  predicate EndsWith(s: string, suffix: string)
  {
    |suffix| <= |s| && s[|s| - |suffix|..] == suffix
  }

  /** m occurs as a contiguous piece of s. */
  ghost predicate IsInfix(m: string, s: string)
  {
    exists i :: InfixAt(m, s, i)
  }

  predicate InfixAt(m: string, s: string, i: int)
  {
    0 <= i && i + |m| <= |s| && s[i..i + |m|] == m
  }

  // ---------------------------------------------------------------- strip

  predicate IsStripped(s: string)
  {
    s == [] || (!IsSpace(s[0]) && !IsSpace(s[|s| - 1]))
  }

  function LeadingSpaces(s: string): (n: nat)
    ensures n <= |s|
    ensures forall k :: 0 <= k < n ==> IsSpace(s[k])
    ensures n < |s| ==> !IsSpace(s[n])
  {
    if |s| > 0 && IsSpace(s[0]) then 1 + LeadingSpaces(s[1..]) else 0
  }

  function TrailingSpaces(s: string): (n: nat)
    ensures n <= |s|
    ensures forall k :: |s| - n <= k < |s| ==> IsSpace(s[k])
    ensures n < |s| ==> !IsSpace(s[|s| - 1 - n])
  {
    if |s| > 0 && IsSpace(s[|s| - 1]) then 1 + TrailingSpaces(s[..|s| - 1]) else 0
  }

  /** str.strip(): drop leading, then trailing whitespace. */
  function Strip(s: string): (r: string)
    ensures IsStripped(r)
    ensures |r| <= |s|
    ensures forall c :: c in r ==> c in s
  {
    var t := s[LeadingSpaces(s)..];
    var r := t[..|t| - TrailingSpaces(t)];
    assert r != [] ==> r[0] == s[LeadingSpaces(s)];
    r
  }

  /** Strip removes whitespace only at the two ends: it keeps any piece whose
      first and last characters are not whitespace. */
  lemma StripKeepsInfix(u: string, m: string, v: string)
    requires m != [] && !IsSpace(m[0]) && !IsSpace(m[|m| - 1])
    ensures IsInfix(m, Strip(u + m + v))
  {
    MiddleSlice(u, m, v);
    StripKeepsSlice(u + m + v, |u|, m);
  }

  lemma StripKeepsSlice(s: string, lo: nat, m: string)
    requires m != [] && !IsSpace(m[0]) && !IsSpace(m[|m| - 1])
    requires lo + |m| <= |s| && s[lo..lo + |m|] == m
    ensures IsInfix(m, Strip(s))
  {
    assert s[lo] == m[0] && s[lo + |m| - 1] == m[|m| - 1];
    var a, b := StripCuts(s, lo, lo + |m|);
    SliceKeeps(s, a, b, lo, m);
    assert InfixAt(m, Strip(s), lo - a);
  }

  lemma MiddleSlice(u: string, m: string, v: string)
    ensures (u + m + v)[|u|..|u| + |m|] == m
  {
  }

  /** What Strip cuts from each end stays outside s[lo..hi]. */
  lemma StripCuts(s: string, lo: nat, hi: nat) returns (a: nat, b: nat)
    requires lo < hi <= |s| && !IsSpace(s[lo]) && !IsSpace(s[hi - 1])
    ensures a == LeadingSpaces(s) && a <= lo && hi <= |s| - b
    ensures Strip(s) == s[a..][..|s| - a - b]
  {
    a := LeadingSpaces(s);
    LeadingBound(s, lo);
    TrailingBoundSuffix(s, a, hi - 1);
    b := TrailingSpaces(s[a..]);
  }

  lemma TrailingBoundSuffix(s: string, a: nat, j: nat)
    requires a <= j < |s| && !IsSpace(s[j])
    ensures TrailingSpaces(s[a..]) <= |s| - 1 - j
  {
    assert s[a..][j - a] == s[j];
    TrailingBound(s[a..], j - a);
  }

  /** Cutting a from the front and b from the back keeps what lies between. */
  lemma SliceKeeps(s: string, a: nat, b: nat, lo: nat, m: string)
    requires a <= lo && lo + |m| <= |s| - b && s[lo..lo + |m|] == m
    ensures InfixAt(m, s[a..][..|s| - a - b], lo - a)
  {
    assert s[a..][..|s| - a - b][lo - a..lo - a + |m|] == s[lo..lo + |m|];
  }

  lemma LeadingBound(s: string, j: nat)
    requires j < |s| && !IsSpace(s[j])
    ensures LeadingSpaces(s) <= j
  {
  }

  lemma TrailingBound(t: string, j: nat)
    requires j < |t| && !IsSpace(t[j])
    ensures TrailingSpaces(t) <= |t| - 1 - j
  {
  }

  lemma StripOfStripped(s: string)
    requires IsStripped(s)
    ensures Strip(s) == s
  {
  }

  /** A string built by prefixing whitespace to a stripped string strips back to it. */
  lemma StripSpacePrefix(w: string, s: string)
    requires forall k :: 0 <= k < |w| ==> IsSpace(w[k])
    requires IsStripped(s)
    ensures Strip(w + s) == s
  {
    var x := w + s;
    if s == [] {
      assert LeadingSpaces(x) == |x| by { LeadingAllSpaces(x); }
    } else {
      assert LeadingSpaces(x) == |w| by { LeadingBeforeNonSpace(x, |w|); }
      assert x[|w|..] == s;
    }
  }

  lemma LeadingAllSpaces(s: string)
    requires forall k :: 0 <= k < |s| ==> IsSpace(s[k])
    ensures LeadingSpaces(s) == |s|
  {
  }

  lemma LeadingBeforeNonSpace(s: string, n: nat)
    requires n < |s| && !IsSpace(s[n])
    requires forall k :: 0 <= k < n ==> IsSpace(s[k])
    ensures LeadingSpaces(s) == n
  {
    if n > 0 {
      LeadingBeforeNonSpace(s[1..], n - 1);
    }
  }

  // ---------------------------------------------------------------- split / join

  /** str.join with separator sep. */
  function Join(parts: seq<string>, sep: string): string
  {
    if |parts| == 0 then [] else if |parts| == 1 then parts[0] else parts[0] + sep + Join(parts[1..], sep)
  }

  lemma Assoc(a: string, b: string, c: string)
    ensures a + b + c == a + (b + c)
  {
  }

  lemma Assoc4(a: string, b: string, c: string, d: string)
    ensures a + b + c + d == a + (b + c + d)
  {
  }

  /** Joining one more part adds the separator and the part. */
  lemma {:induction false} JoinSnoc(parts: seq<string>, sep: string, s: string)
    requires |parts| > 0
    ensures Join(parts + [s], sep) == Join(parts, sep) + sep + s
    decreases |parts|
  {
    if |parts| == 1 {
      assert parts + [s] == [parts[0], s];
    } else {
      assert (parts + [s])[1..] == parts[1..] + [s];
      JoinSnoc(parts[1..], sep, s);
    }
  }

  /** Joining two non-empty lists of parts puts one separator between them. */
  lemma {:induction false} JoinConcat(a: seq<string>, b: seq<string>, sep: string)
    requires |a| > 0 && |b| > 0
    ensures Join(a + b, sep) == Join(a, sep) + sep + Join(b, sep)
    decreases |a|
  {
    assert (a + b)[0] == a[0];
    if |a| == 1 {
      assert (a + b)[1..] == b;
    } else {
      assert (a + b)[1..] == a[1..] + b;
      JoinConcat(a[1..], b, sep);
      Assoc4(a[0], sep, Join(a[1..], sep), sep + Join(b, sep));
    }
  }

  /** str.split(sep) for a non-empty separator: cut at each occurrence of sep,
      scanning left to right without overlaps. */
  function SplitOn(s: string, sep: string): (r: seq<string>)
    requires |sep| > 0
    ensures |r| >= 1
    decreases |s|
  {
    if sep <= s then [[]] + SplitOn(s[|sep|..], sep)
    else if |s| == 0 then [[]]
    else var rest := SplitOn(s[1..], sep); [[s[0]] + rest[0]] + rest[1..]
  }

  /** Splitting and re-joining with the same separator gives the input back. */
  lemma {:induction false} JoinSplitOn(s: string, sep: string)
    requires |sep| > 0
    ensures Join(SplitOn(s, sep), sep) == s
    decreases |s|
  {
    if sep <= s {
      JoinSplitOn(s[|sep|..], sep);
      JoinAfterSep(s, sep);
    } else if |s| > 0 {
      JoinSplitOn(s[1..], sep);
      JoinAfterChar(s, sep);
    }
  }

  lemma JoinAfterSep(s: string, sep: string)
    requires |sep| > 0 && sep <= s
    requires Join(SplitOn(s[|sep|..], sep), sep) == s[|sep|..]
    ensures Join(SplitOn(s, sep), sep) == s
  {
    var t := s[|sep|..];
    var r := SplitOn(t, sep);
    var parts: seq<string> := [[]] + r;
    assert SplitOn(s, sep) == parts;
    assert |parts| >= 2 && parts[0] == [] && parts[1..] == r;
    assert Join(parts, sep) == parts[0] + sep + Join(r, sep);
    assert parts[0] + sep == sep;
    assert s[..|sep|] == sep;
    assert s == s[..|sep|] + t;
  }

  lemma JoinAfterChar(s: string, sep: string)
    requires |sep| > 0 && !(sep <= s) && |s| > 0
    requires Join(SplitOn(s[1..], sep), sep) == s[1..]
    ensures Join(SplitOn(s, sep), sep) == s
  {
    var rest := SplitOn(s[1..], sep);
    SplitOnCharStep(s, sep);
    JoinHeadChar(s[0], rest, sep);
    HeadTail(s);
  }

  lemma HeadTail(s: string)
    requires |s| > 0
    ensures [s[0]] + s[1..] == s
  {
  }

  lemma SplitOnCharStep(s: string, sep: string)
    requires |sep| > 0 && !(sep <= s) && |s| > 0
    ensures SplitOn(s, sep) == [[s[0]] + SplitOn(s[1..], sep)[0]] + SplitOn(s[1..], sep)[1..]
  {
  }

  /** Putting a character in front of the first part puts it in front of the join. */
  lemma JoinHeadChar(c: char, rest: seq<string>, sep: string)
    requires |rest| >= 1
    ensures Join([[c] + rest[0]] + rest[1..], sep) == [c] + Join(rest, sep)
  {
    var h := [c] + rest[0];
    var parts := [h] + rest[1..];
    if |rest| == 1 {
      assert parts == [h];
    } else {
      assert |parts| >= 2 && parts[0] == h && parts[1..] == rest[1..];
      assert Join(parts, sep) == h + sep + Join(rest[1..], sep);
      Assoc4([c], rest[0], sep, Join(rest[1..], sep));
    }
  }

  /** No piece produced by a one-character split contains that character. */
  lemma {:induction false} SplitOnPiecesFree(s: string, c: char)
    ensures forall k :: 0 <= k < |SplitOn(s, [c])| ==> c !in SplitOn(s, [c])[k]
    decreases |s|
  {
    if |s| > 0 {
      SplitOnPiecesFree(s[1..], c);
    }
  }

  /** sep occurs in s (sep in s, for str). */
  predicate OccursIn(sep: string, s: string)
  {
    exists i :: 0 <= i <= |s| && sep <= s[i..]
  }

  /** Without an occurrence of the separator, split gives the whole string back. */
  lemma {:induction false} SplitOnAbsent(s: string, sep: string)
    requires |sep| > 0 && !OccursIn(sep, s)
    ensures SplitOn(s, sep) == [s]
    decreases |s|
  {
    assert s[0..] == s;
    if |s| > 0 {
      assert !OccursIn(sep, s[1..]) by {
        forall i | 0 <= i <= |s[1..]|
          ensures !(sep <= s[1..][i..])
        {
          assert s[1..][i..] == s[i + 1..];
        }
      }
      SplitOnAbsent(s[1..], sep);
      assert [s[0]] + s[1..] == s;
    }
  }

  /** A character absent from s does not occur in it as a one-character separator. */
  lemma CharNotOccurs(c: char, s: string)
    requires c !in s
    ensures !OccursIn([c], s)
  {
    forall i | 0 <= i <= |s|
      ensures !([c] <= s[i..])
    {
      if i < |s| {
        assert s[i..][0] == s[i];
      }
    }
  }

  /** Splitting at the first occurrence of a one-character separator. */
  lemma {:induction false} SplitOnCutAt(a: string, c: char, b: string)
    requires c !in a
    ensures SplitOn(a + [c] + b, [c]) == [a] + SplitOn(b, [c])
    decreases |a|
  {
    var s := a + [c] + b;
    if |a| == 0 {
      assert s == [c] + b;
      assert [c] <= s;
      assert s[1..] == b;
    } else {
      assert s[0] == a[0];
      assert s[1..] == a[1..] + [c] + b;
      SplitOnCutAt(a[1..], c, b);
      assert [a[0]] + a[1..] == a;
    }
  }

  /** Splitting a join at a one-character separator absent from every part gives the
      parts back. */
  lemma {:induction false} SplitOnJoin(parts: seq<string>, c: char)
    requires |parts| > 0
    requires forall k :: 0 <= k < |parts| ==> c !in parts[k]
    ensures SplitOn(Join(parts, [c]), [c]) == parts
    decreases |parts|
  {
    if |parts| == 1 {
      CharNotOccurs(c, parts[0]);
      SplitOnAbsent(parts[0], [c]);
    } else {
      SplitOnJoin(parts[1..], c);
      SplitOnCutAt(parts[0], c, Join(parts[1..], [c]));
      assert [parts[0]] + parts[1..] == parts;
    }
  }

  /** No occurrence at the head and none in the tail: none at all. */
  lemma NotOccursCons(sep: string, s: string)
    requires |s| > 0 && !(sep <= s) && !OccursIn(sep, s[1..])
    ensures !OccursIn(sep, s)
  {
    forall i | 1 <= i <= |s|
      ensures !(sep <= s[i..])
    {
      assert s[1..][i - 1..] == s[i..];
    }
    assert s[0..] == s;
  }

  /** What SplitOnLastPiece states of a split ps of s, with pre the text before its last
      piece. */
  predicate LastPieceSplit(s: string, sep: string, ps: seq<string>, pre: string)
  {
    |ps| > 0 && s == pre + ps[|ps| - 1] && !OccursIn(sep, ps[|ps| - 1])
    && (|ps| == 1 ==> pre == [])
    && (|ps| > 1 ==> |pre| >= |sep| && pre[|pre| - |sep|..] == sep)
  }

  /** The last piece of a split is the text after the last cut: it holds no occurrence of
      the separator, and whenever there was a cut, a separator ends the text before it. */
  lemma {:induction false} SplitOnLastPiece(s: string, sep: string) returns (pre: string)
    requires |sep| > 0
    ensures LastPieceSplit(s, sep, SplitOn(s, sep), pre)
    decreases |s|
  {
    if sep <= s {
      var pre' := SplitOnLastPiece(s[|sep|..], sep);
      pre := LastPieceMatch(s, sep, pre');
    } else if |s| == 0 {
      pre := [];
    } else {
      var pre' := SplitOnLastPiece(s[1..], sep);
      pre := LastPieceRaw(s, sep, pre');
    }
  }

  /** Split cuts the text exactly when the separator occurs in it. */
  lemma SplitOnCuts(s: string, sep: string)
    requires |sep| > 0
    ensures |SplitOn(s, sep)| > 1 <==> OccursIn(sep, s)
  {
    var ps := SplitOn(s, sep);
    var pre := SplitOnLastPiece(s, sep);
    if |ps| == 1 {
      assert s == ps[0];
    } else {
      var i := |pre| - |sep|;
      assert s[i..] == sep + ps[|ps| - 1];
    }
  }

  lemma LastPieceMatch(s: string, sep: string, pre': string) returns (pre: string)
    requires |sep| > 0 && sep <= s
    requires LastPieceSplit(s[|sep|..], sep, SplitOn(s[|sep|..], sep), pre')
    ensures LastPieceSplit(s, sep, SplitOn(s, sep), pre)
  {
    var ps := SplitOn(s, sep);
    var ps' := SplitOn(s[|sep|..], sep);
    assert ps == [[]] + ps';
    pre := sep + pre';
    assert s == sep + s[|sep|..];
    assert ps[|ps| - 1] == ps'[|ps'| - 1];
    if |ps'| > 1 {
      assert pre[|pre| - |sep|..] == pre'[|pre'| - |sep|..];
    }
  }

  lemma LastPieceRaw(s: string, sep: string, pre': string) returns (pre: string)
    requires |sep| > 0 && !(sep <= s) && |s| > 0
    requires LastPieceSplit(s[1..], sep, SplitOn(s[1..], sep), pre')
    ensures LastPieceSplit(s, sep, SplitOn(s, sep), pre)
  {
    var ps := SplitOn(s, sep);
    var rest := SplitOn(s[1..], sep);
    assert ps == [[s[0]] + rest[0]] + rest[1..];
    if |rest| == 1 {
      pre := [];
      assert ps[|ps| - 1] == s;
      NotOccursCons(sep, s);
    } else {
      pre := [s[0]] + pre';
      assert ps[|ps| - 1] == rest[|rest| - 1];
      assert pre[|pre| - |sep|..] == pre'[|pre'| - |sep|..];
    }
  }

  /** A character absent from the input is absent from every piece of a split. */
  lemma {:induction false} SplitOnKeepsAbsent(s: string, sep: string, c: char)
    requires |sep| > 0 && c !in s
    ensures forall k :: 0 <= k < |SplitOn(s, sep)| ==> c !in SplitOn(s, sep)[k]
    decreases |s|
  {
    if sep <= s {
      SplitOnKeepsAbsent(s[|sep|..], sep, c);
    } else if |s| > 0 {
      SplitOnKeepsAbsent(s[1..], sep, c);
    }
  }

  /** Joining pieces and a separator without c gives a string without c. */
  lemma {:induction false} JoinKeepsAbsent(parts: seq<string>, sep: string, c: char)
    requires c !in sep && forall k :: 0 <= k < |parts| ==> c !in parts[k]
    ensures c !in Join(parts, sep)
    decreases |parts|
  {
    if |parts| > 1 {
      JoinKeepsAbsent(parts[1..], sep, c);
    }
  }

  // ---------------------------------------------------------------- replace

  /** str.replace(pat, rep) for a non-empty pattern: left to right, without overlaps. */
  function Replace(s: string, pat: string, rep: string): string
    requires |pat| > 0
    decreases |s|
  {
    if |s| == 0 then []
    else if pat <= s then rep + Replace(s[|pat|..], pat, rep)
    else [s[0]] + Replace(s[1..], pat, rep)
  }

  /** Replace distributes over a cut that no occurrence of the pattern straddles:
      it suffices that the character on one side of the cut is not in the pattern. */
  lemma {:induction false} ReplaceSplit(u: string, v: string, pat: string, rep: string)
    requires |pat| > 0
    requires (|v| > 0 && v[0] !in pat) || (|u| > 0 && u[|u| - 1] !in pat)
    ensures Replace(u + v, pat, rep) == Replace(u, pat, rep) + Replace(v, pat, rep)
    decreases |u|
  {
    if |u| == 0 {
      assert u + v == v;
    } else if pat <= u + v {
      PrefixWithinCut(u, v, pat);
      var u' := u[|pat|..];
      ReplaceMatchStep(u, v, pat, rep);
      if |u'| == 0 {
        assert u' + v == v;
      } else {
        assert u'[|u'| - 1] == u[|u| - 1];
        ReplaceSplit(u', v, pat, rep);
      }
      assert Replace(u' + v, pat, rep) == Replace(u', pat, rep) + Replace(v, pat, rep);
      Assoc(rep, Replace(u', pat, rep), Replace(v, pat, rep));
    } else {
      NotPrefixOfPart(u, v, pat);
      ReplaceRawStep(u, v, pat, rep);
      if |u| == 1 {
        assert u[1..] + v == v;
      } else {
        ReplaceSplit(u[1..], v, pat, rep);
      }
      assert Replace(u[1..] + v, pat, rep) == Replace(u[1..], pat, rep) + Replace(v, pat, rep);
      Assoc([u[0]], Replace(u[1..], pat, rep), Replace(v, pat, rep));
    }
  }

  lemma ReplaceMatchStep(u: string, v: string, pat: string, rep: string)
    requires |pat| > 0 && |pat| <= |u| && pat <= u
    ensures Replace(u + v, pat, rep) == rep + Replace(u[|pat|..] + v, pat, rep)
    ensures Replace(u, pat, rep) == rep + Replace(u[|pat|..], pat, rep)
  {
    assert pat <= u + v by { assert (u + v)[..|pat|] == u[..|pat|]; }
    assert (u + v)[|pat|..] == u[|pat|..] + v;
  }

  lemma ReplaceRawStep(u: string, v: string, pat: string, rep: string)
    requires |pat| > 0 && |u| > 0 && !(pat <= u + v) && !(pat <= u)
    ensures Replace(u + v, pat, rep) == [u[0]] + Replace(u[1..] + v, pat, rep)
    ensures Replace(u, pat, rep) == [u[0]] + Replace(u[1..], pat, rep)
  {
    assert (u + v)[1..] == u[1..] + v;
    assert (u + v)[0] == u[0];
  }

  lemma NotPrefixOfPart(u: string, v: string, pat: string)
    requires !(pat <= u + v)
    ensures !(pat <= u)
  {
  }

  lemma PrefixAt(pat: string, s: string, j: int)
    requires pat <= s && 0 <= j < |pat|
    ensures j < |s| && pat[j] == s[j]
  {
  }

  lemma PrefixWithinCut(u: string, v: string, pat: string)
    requires |pat| > 0 && |u| > 0 && pat <= u + v
    requires (|v| > 0 && v[0] !in pat) || u[|u| - 1] !in pat
    ensures |pat| <= |u| && pat <= u
  {
    if |pat| > |u| {
      if |v| > 0 && v[0] !in pat {
        PrefixAt(pat, u + v, |u|);
      } else {
        PrefixAt(pat, u + v, |u| - 1);
      }
      assert false;
    }
    assert u[..|pat|] == (u + v)[..|pat|];
  }

  /** A piece none of whose characters can start the pattern passes through unchanged. */
  lemma {:induction false} ReplaceKeep(m: string, v: string, pat: string, rep: string)
    requires |pat| > 0
    requires forall i :: 0 <= i < |m| ==> m[i] != pat[0]
    ensures Replace(m + v, pat, rep) == m + Replace(v, pat, rep)
    decreases |m|
  {
    if |m| > 0 {
      assert (m + v)[0] == m[0];
      assert (m + v)[1..] == m[1..] + v;
      ReplaceKeep(m[1..], v, pat, rep);
    } else {
      assert m + v == v;
    }
  }

  /** A piece that starts with a character outside the pattern and holds no character
      that starts the pattern passes through unchanged between its neighbours. */
  lemma ReplaceAround(x: string, m: string, y: string, pat: string, rep: string)
    requires |pat| > 0 && |m| > 0 && m[0] !in pat
    requires forall i :: 0 <= i < |m| ==> m[i] != pat[0]
    ensures Replace(x + m + y, pat, rep) == Replace(x, pat, rep) + m + Replace(y, pat, rep)
  {
    assert x + m + y == x + (m + y);
    ReplaceSplit(x, m + y, pat, rep);
    ReplaceKeep(m, y, pat, rep);
  }

  /** Where the pattern does not start, the first character is copied. */
  lemma ReplaceNoMatchHead(s: string, pat: string, rep: string)
    requires |pat| > 0 && |s| > 0 && !(pat <= s)
    ensures Replace(s, pat, rep) == [s[0]] + Replace(s[1..], pat, rep)
  {
  }

  /** A last character that cannot end an occurrence of the pattern is copied. */
  lemma {:induction false} ReplaceAppendChar(u: string, c: char, pat: string, rep: string)
    requires |pat| > 0 && c != pat[|pat| - 1]
    ensures Replace(u + [c], pat, rep) == Replace(u, pat, rep) + [c]
    decreases |u|
  {
    if |u| == 0 {
      assert u + [c] == [c];
    } else if pat <= u + [c] {
      assert |pat| <= |u|;
      ReplaceMatchStep(u, [c], pat, rep);
      ReplaceAppendChar(u[|pat|..], c, pat, rep);
    } else {
      NotPrefixOfPart(u, [c], pat);
      ReplaceRawStep(u, [c], pat, rep);
      ReplaceAppendChar(u[1..], c, pat, rep);
    }
  }

  /** Every character of the result comes from the input or from the replacement. */
  lemma {:induction false} ReplaceChars(s: string, pat: string, rep: string, c: char)
    requires |pat| > 0
    requires c !in s && c !in rep
    ensures c !in Replace(s, pat, rep)
    decreases |s|
  {
    if |s| > 0 {
      if pat <= s {
        ReplaceChars(s[|pat|..], pat, rep, c);
      } else {
        ReplaceChars(s[1..], pat, rep, c);
      }
    }
  }

  /** Replacing a one-character pattern by text without that character removes it. */
  lemma {:induction false} ReplaceRemovesChar(s: string, c: char, rep: string)
    requires c !in rep
    ensures c !in Replace(s, [c], rep)
    decreases |s|
  {
    if |s| > 0 {
      if [c] <= s {
        ReplaceRemovesChar(s[1..], c, rep);
      } else {
        assert s[0] != c;
        ReplaceRemovesChar(s[1..], c, rep);
      }
    }
  }

  /** str.replace(pat, rep) is the join, with rep, of str.split(pat). */
  lemma {:induction false} ReplaceIsSplitJoin(s: string, pat: string, rep: string)
    requires |pat| > 0
    ensures Replace(s, pat, rep) == Join(SplitOn(s, pat), rep)
    decreases |s|
  {
    if |s| == 0 {
      assert !(pat <= s);
    } else if pat <= s {
      ReplaceIsSplitJoin(s[|pat|..], pat, rep);
    } else {
      var rest := SplitOn(s[1..], pat);
      ReplaceIsSplitJoin(s[1..], pat, rep);
      if |rest| > 1 {
        calc {
          Join(SplitOn(s, pat), rep);
          ([s[0]] + rest[0]) + rep + Join(rest[1..], rep);
          [s[0]] + (rest[0] + rep + Join(rest[1..], rep));
        }
      }
    }
  }

  // ---------------------------------------------------------------- numbers

  function DigitChar(d: nat): (c: char)
    requires d < 10
    ensures IsDigit(c) && DigitValue(c) == d
  {
    ('0' as int + d) as char
  }

  function DigitValue(c: char): nat
    requires IsDigit(c)
  {
    c as int - '0' as int
  }

  /** str(n) for a natural number. */
  function NatToString(n: nat): (r: string)
    ensures |r| >= 1
    ensures forall i :: 0 <= i < |r| ==> IsDigit(r[i])
  {
    if n < 10 then [DigitChar(n)] else NatToString(n / 10) + [DigitChar(n % 10)]
  }

  /** The value of a string of decimal digits (int() on a digit string). */
  function ParseNat(s: string): nat
    requires forall i :: 0 <= i < |s| ==> IsDigit(s[i])
  {
    if |s| == 0 then 0 else ParseNat(s[..|s| - 1]) * 10 + DigitValue(s[|s| - 1])
  }

  lemma {:induction false} ParseNatToString(n: nat)
    ensures ParseNat(NatToString(n)) == n
  {
    if n >= 10 {
      var r := NatToString(n);
      assert r[..|r| - 1] == NatToString(n / 10);
      ParseNatToString(n / 10);
    }
  }

  lemma NatToStringInjective(a: nat, b: nat)
    requires NatToString(a) == NatToString(b)
    ensures a == b
  {
    ParseNatToString(a);
    ParseNatToString(b);
  }

  /** A digit string followed by text that starts with a non-digit is read back uniquely. */
  lemma DigitsThenMark(a: nat, x: string, b: nat, y: string)
    requires |x| > 0 && !IsDigit(x[0]) && |y| > 0 && !IsDigit(y[0])
    requires NatToString(a) + x == NatToString(b) + y
    ensures a == b && x == y
  {
    var sa := NatToString(a);
    var sb := NatToString(b);
    assert !IsDigit((sa + x)[|sa|]);
    assert !IsDigit((sb + y)[|sb|]);
    assert |sa| == |sb|;
    assert sa == (sa + x)[..|sa|] && sb == (sb + y)[..|sb|];
    NatToStringInjective(a, b);
    assert x == (sa + x)[|sa|..] && y == (sb + y)[|sb|..];
  }

  /** str(i) for any integer, with a leading '-' for negatives. */
  function IntToString(i: int): (r: string)
    ensures |r| >= 1
  {
    if i < 0 then "-" + NatToString(-i) else NatToString(i)
  }

  /** Two digits with a leading zero, as the format spec `02d` writes 0..99. */
  function Pad2(n: nat): (r: string)
    requires n < 100
    ensures |r| == 2 && IsDigit(r[0]) && IsDigit(r[1])
    ensures ParseNat(r) == n
  {
    var r := [DigitChar(n / 10), DigitChar(n % 10)];
    assert r[..1][..0] == [];
    assert ParseNat(r[..1]) == n / 10;
    assert ParseNat(r) == ParseNat(r[..1]) * 10 + n % 10;
    r
  }

  /** int(s) on a decimal literal: surrounding white space, an optional sign, then one or
      more ASCII digits. */
  function ParseInt(s: string): (r: Option<int>)
    ensures r.Some? <==> IsIntLiteral(Strip(s))
  {
    var t := Strip(s);
    if IsIntLiteral(t) then
      if t[0] == '-' then Some(0 - ParseNat(t[1..]) as int)
      else if t[0] == '+' then Some(ParseNat(t[1..]))
      else Some(ParseNat(t))
    else None
  }

  predicate AllDigits(s: string)
  {
    forall i :: 0 <= i < |s| ==> IsDigit(s[i])
  }

  predicate IsIntLiteral(t: string)
  {
    if |t| > 0 && (t[0] == '-' || t[0] == '+') then |t| > 1 && AllDigits(t[1..])
    else |t| > 0 && AllDigits(t)
  }

  /** int() reads str(n) back. */
  lemma ParseIntOfNat(n: nat)
    ensures ParseInt(NatToString(n)) == Some(n)
  {
    ParseIntOfDigits(NatToString(n));
    ParseNatToString(n);
  }

  /** int() on a plain digit string is its value. */
  lemma ParseIntOfDigits(s: string)
    requires |s| >= 1 && AllDigits(s)
    ensures ParseInt(s) == Some(ParseNat(s))
  {
    assert IsDigit(s[0]) && IsDigit(s[|s| - 1]);
    StripOfStripped(s);
    assert IsIntLiteral(s);
  }

  /** s.split(c)[-1]: the text after the last occurrence of c, or all of s. */
  function AfterLast(s: string, c: char): (r: string)
    ensures |r| <= |s| && r == s[|s| - |r|..] && c !in r
    ensures |r| < |s| ==> s[|s| - |r| - 1] == c
  {
    if |s| == 0 then []
    else if s[|s| - 1] == c then []
    else AfterLast(s[..|s| - 1], c) + [s[|s| - 1]]
  }

  /** s.split(c)[0]: the text before the first occurrence of c, or all of s. */
  function BeforeFirst(s: string, c: char): (r: string)
    ensures |r| <= |s| && r == s[..|r|] && c !in r
    ensures |r| < |s| ==> s[|r|] == c
  {
    if |s| == 0 then []
    else if s[0] == c then []
    else [s[0]] + BeforeFirst(s[1..], c)
  }

  /** A text that ends with c followed by a c-free tail has that tail as its last piece. */
  lemma AfterLastOf(u: string, c: char, v: string)
    requires c !in v
    ensures AfterLast(u + [c] + v, c) == v
  {
    var s := u + [c] + v;
    assert s[|s| - |v| - 1] == c;
    assert s[|s| - |v|..] == v;
  }

  /** A c-free head followed by c has that head as its first piece. */
  lemma BeforeFirstOf(u: string, c: char, v: string)
    requires c !in u
    ensures BeforeFirst(u + [c] + v, c) == u
  {
    var s := u + [c] + v;
    assert s[|u|] == c;
    assert s[..|u|] == u;
  }

  // ---------------------------------------------------------------- exception texts

  /** str() of the IndexError a subscript past the end of a list raises. */
  const IndexOutOfRange := "list index out of range"

  function HexDigit(v: nat): (c: char)
    requires v < 16
  {
    if v < 10 then ('0' as int + v) as char else ('a' as int + v - 10) as char
  }

  /** Characters repr() writes as a \x escape: the C0 and C1 controls, DEL, the no-break
      space and the soft hyphen. */
  predicate HexEscaped(c: char)
  {
    c < ' ' || ('\U{7F}' <= c <= '\U{A0}') || c == '\U{AD}'
  }

  /** One character as repr() writes it between the quotes q. */
  function ReprChar(c: char, q: char): string
  {
    if c == '\\' then "\\\\"
    else if c == q then ['\\', q]
    else if c == '\t' then "\\t"
    else if c == '\n' then "\\n"
    else if c == '\r' then "\\r"
    else if HexEscaped(c) then "\\x" + [HexDigit(c as int / 16), HexDigit(c as int % 16)]
    else [c]
  }

  function ReprBody(s: string, q: char): string
  {
    if |s| == 0 then [] else ReprChar(s[0], q) + ReprBody(s[1..], q)
  }

  /** repr() of a text: between single quotes, or between double quotes when the text
      holds a single quote and no double quote. */
  function Repr(s: string): string
  {
    var q := if '\'' in s && '"' !in s then '"' else '\'';
    [q] + ReprBody(s, q) + [q]
  }

  /** Characters repr() copies as they are. */
  predicate ReprPlain(s: string)
  {
    forall i :: 0 <= i < |s| ==>
      s[i] != '\'' && s[i] != '"' && s[i] != '\\' && s[i] != '\t' && s[i] != '\n' && s[i] != '\r' && !HexEscaped(s[i])
  }

  /** A text of plain characters is written between single quotes as it is. */
  lemma {:induction false} ReprOfPlain(s: string)
    requires ReprPlain(s)
    ensures Repr(s) == "'" + s + "'"
  {
    ReprBodyPlain(s);
  }

  lemma {:induction false} ReprBodyPlain(s: string)
    requires ReprPlain(s)
    ensures ReprBody(s, '\'') == s
    decreases |s|
  {
    if |s| > 0 {
      assert ReprPlain(s[1..]) by {
        forall i | 0 <= i < |s[1..]|
          ensures s[1..][i] == s[i + 1]
        {
        }
      }
      ReprBodyPlain(s[1..]);
      HeadTail(s);
    }
  }

  /** str() of the ValueError int() raises on a text that is not an integer: the repr
      of the text, cut to 200 characters. */
  function IntLiteralError(t: string): (r: string)
    ensures |r| <= 41 + 200
  {
    var shown := Repr(t);
    "invalid literal for int() with base 10: " + (if |shown| <= 200 then shown else shown[..200])
  }

  /** str() of the UnboundLocalError raised on reading a local variable that was never
      assigned, as Python 3.11 and later word it. */
  function UnboundError(name: string): string
  {
    "cannot access local variable '" + name + "' where it is not associated with a value"
  }
}
