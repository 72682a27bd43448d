/** chunk_sentences (src/doc_process/process_doc.py): greedy packing of the lines of a
    text into chunks, proved against a description by groups of consecutive lines. */
module Chunker {
  import opened Text

  /** The text the loop accumulates for a group of consecutive lines: each line is added
      after a single space, except to an empty accumulation. */
  function Packed(g: seq<string>): string
  {
    if |g| == 0 then []
    else
      var p := Packed(g[..|g| - 1]);
      p + (if p != [] then " " else []) + g[|g| - 1]
  }

  /** What closing an accumulation emits: nothing when it is empty, else its stripped text. */
  function Emit(current: string): (r: seq<string>)
    ensures |r| <= 1
    ensures forall k :: 0 <= k < |r| ==> IsStripped(r[k]) && |r[k]| <= |current|
  {
    if current != [] then [Strip(current)] else []
  }

  /** The chunks a sequence of groups gives, one per group with a non-empty accumulation. */
  function EmitAll(groups: seq<seq<string>>): seq<string>
  {
    if |groups| == 0 then [] else Emit(Packed(groups[0])) + EmitAll(groups[1..])
  }

  function Concat(groups: seq<seq<string>>): seq<string>
  {
    if |groups| == 0 then [] else groups[0] + Concat(groups[1..])
  }

  /** The loop of chunk_sentences from the state (chunks emitted so far, current
      accumulation) over the remaining lines, and the final flush. */
  function Pack(lines: seq<string>, done: seq<string>, current: string, maxLen: int): seq<string>
    decreases |lines|
  {
    if |lines| == 0 then done + Emit(current)
    else if |current| + |lines[0]| + 1 <= maxLen then
      Pack(lines[1..], done, current + (if current != [] then " " else []) + lines[0], maxLen)
    else
      Pack(lines[1..], done + Emit(current), lines[0], maxLen)
  }

  function Chunks(text: string, maxLen: int): seq<string>
  {
    Pack(SplitOn(text, "\n"), [], [], maxLen)
  }

  method ChunkSentences(text: string, maxLen: int) returns (chunks: seq<string>)
    ensures chunks == Chunks(text, maxLen)
  {
    var lines := SplitOn(text, "\n");
    chunks := [];
    var current := "";
    for i := 0 to |lines|
      invariant Pack(lines[i..], chunks, current, maxLen) == Chunks(text, maxLen)
    {
      var sentence := lines[i];
      assert lines[i..][0] == sentence && lines[i..][1..] == lines[i + 1..];
      if |current| + |sentence| + 1 <= maxLen {
        current := current + (if current != "" then " " else "") + sentence;
      } else {
        ghost var next := chunks + Emit(current);
        if current != "" {
          chunks := chunks + [Strip(current)];
        }
        assert chunks == next;
        current := sentence;
      }
    }
    if current != "" {
      chunks := chunks + [Strip(current)];
    }
  }

  // ---------------------------------------------------------------- the groups

  /** A group packed by the loop's first branch at least once fits the bound. */
  predicate GroupFits(g: seq<string>, maxLen: int)
  {
    |g| >= 2 ==> |Packed(g)| <= maxLen
  }

  predicate WellGrouped(groups: seq<seq<string>>, maxLen: int)
  {
    forall k :: 0 <= k < |groups| ==> |groups[k]| > 0 && GroupFits(groups[k], maxLen)
  }

  lemma PackedSnoc(g: seq<string>, s: string)
    ensures Packed(g + [s]) == Packed(g) + (if Packed(g) != [] then " " else []) + s
  {
    assert (g + [s])[..|g|] == g;
  }

  lemma ConcatCons(g: seq<string>, groups: seq<seq<string>>)
    ensures Concat([g] + groups) == g + Concat(groups)
  {
    assert ([g] + groups)[1..] == groups;
  }

  lemma EmitAllCons(g: seq<string>, groups: seq<seq<string>>)
    ensures EmitAll([g] + groups) == Emit(Packed(g)) + EmitAll(groups)
  {
    assert ([g] + groups)[1..] == groups;
  }

  lemma WellGroupedCons(g: seq<string>, rest: seq<seq<string>>, maxLen: int)
    requires |g| > 0 && GroupFits(g, maxLen) && WellGrouped(rest, maxLen)
    ensures WellGrouped([g] + rest, maxLen)
  {
    forall k | 0 <= k < |[g] + rest|
      ensures |([g] + rest)[k]| > 0 && GroupFits(([g] + rest)[k], maxLen)
    {
      if k > 0 {
        assert ([g] + rest)[k] == rest[k - 1];
      }
    }
  }

  lemma PackedSingle(s: string)
    ensures Packed([s]) == s
  {
    assert [s][..0] == [];
  }

  /** From a state whose accumulation is the packed current group g, the loop emits the
      chunks of a grouping of g followed by the remaining lines. */
  lemma {:induction false} PackGroups(lines: seq<string>, done: seq<string>, g: seq<string>, maxLen: int)
    returns (groups: seq<seq<string>>)
    requires GroupFits(g, maxLen)
    ensures Pack(lines, done, Packed(g), maxLen) == done + EmitAll(groups)
    ensures Concat(groups) == g + lines
    ensures WellGrouped(groups, maxLen)
    decreases |lines|
  {
    var cur := Packed(g);
    if |lines| == 0 {
      if |g| > 0 {
        groups := [g];
        ConcatCons(g, []);
        EmitAllCons(g, []);
        WellGroupedCons(g, [], maxLen);
      } else {
        groups := [];
      }
    } else if |cur| + |lines[0]| + 1 <= maxLen {
      groups := PackGroupsFit(lines, done, g, maxLen);
    } else {
      groups := PackGroupsCut(lines, done, g, maxLen);
    }
  }

  lemma {:induction false} PackGroupsFit(lines: seq<string>, done: seq<string>, g: seq<string>, maxLen: int)
    returns (groups: seq<seq<string>>)
    requires GroupFits(g, maxLen)
    requires |lines| > 0 && |Packed(g)| + |lines[0]| + 1 <= maxLen
    ensures Pack(lines, done, Packed(g), maxLen) == done + EmitAll(groups)
    ensures Concat(groups) == g + lines
    ensures WellGrouped(groups, maxLen)
    decreases |lines|, 0
  {
    var g' := g + [lines[0]];
    GrowGroup(lines, done, g, maxLen);
    groups := PackGroups(lines[1..], done, g', maxLen);
    MoveHead(g, lines);
  }

  /** Moving the first line onto the group keeps the lines in order. */
  lemma MoveHead<T>(g: seq<T>, lines: seq<T>)
    requires |lines| > 0
    ensures g + [lines[0]] + lines[1..] == g + lines
  {
    assert [lines[0]] + lines[1..] == lines;
  }

  /** The loop's first branch: the line joins the current group, which still fits. */
  lemma GrowGroup(lines: seq<string>, done: seq<string>, g: seq<string>, maxLen: int)
    requires |lines| > 0 && |Packed(g)| + |lines[0]| + 1 <= maxLen
    ensures Pack(lines, done, Packed(g), maxLen) == Pack(lines[1..], done, Packed(g + [lines[0]]), maxLen)
    ensures GroupFits(g + [lines[0]], maxLen)
  {
    PackedSnoc(g, lines[0]);
    PackFit(lines, done, Packed(g), maxLen);
  }

  lemma PackFit(lines: seq<string>, done: seq<string>, current: string, maxLen: int)
    requires |lines| > 0 && |current| + |lines[0]| + 1 <= maxLen
    ensures Pack(lines, done, current, maxLen)
         == Pack(lines[1..], done, current + (if current != [] then " " else []) + lines[0], maxLen)
  {
  }

  lemma {:induction false} PackGroupsCut(lines: seq<string>, done: seq<string>, g: seq<string>, maxLen: int)
    returns (groups: seq<seq<string>>)
    requires GroupFits(g, maxLen)
    requires |lines| > 0 && |Packed(g)| + |lines[0]| + 1 > maxLen
    ensures Pack(lines, done, Packed(g), maxLen) == done + EmitAll(groups)
    ensures Concat(groups) == g + lines
    ensures WellGrouped(groups, maxLen)
    decreases |lines|, 0
  {
    PackedSingle(lines[0]);
    var e := Emit(Packed(g));
    var rest := PackGroups(lines[1..], done + e, [lines[0]], maxLen);
    PackCut(lines, done, Packed(g), maxLen);
    assert Pack(lines, done, Packed(g), maxLen) == (done + e) + EmitAll(rest);
    assert [lines[0]] + lines[1..] == lines;
    if |g| > 0 {
      groups := [g] + rest;
      GroupThenRest(g, rest, done, maxLen);
    } else {
      NoGroupYet(g, done, lines);
      groups := rest;
    }
  }

  /** A closed group g in front of the groups that follow it. */
  lemma GroupThenRest(g: seq<string>, rest: seq<seq<string>>, done: seq<string>, maxLen: int)
    requires |g| > 0 && GroupFits(g, maxLen) && WellGrouped(rest, maxLen)
    ensures (done + Emit(Packed(g))) + EmitAll(rest) == done + EmitAll([g] + rest)
    ensures Concat([g] + rest) == g + Concat(rest)
    ensures WellGrouped([g] + rest, maxLen)
  {
    ConcatCons(g, rest);
    EmitAllCons(g, rest);
    WellGroupedCons(g, rest, maxLen);
  }

  /** The loop's second branch: the accumulation is emitted and the line starts the next one. */
  lemma PackCut(lines: seq<string>, done: seq<string>, current: string, maxLen: int)
    requires |lines| > 0 && |current| + |lines[0]| + 1 > maxLen
    ensures Pack(lines, done, current, maxLen) == Pack(lines[1..], done + Emit(current), lines[0], maxLen)
  {
  }

  lemma NoGroupYet(g: seq<string>, done: seq<string>, lines: seq<string>)
    requires |g| == 0
    ensures done + Emit(Packed(g)) == done && g + lines == lines
  {
    assert g == [];
  }

  /** chunk_sentences cuts the lines of the text into consecutive groups, never splitting
      or reordering a line; each group whose accumulation is non-empty gives one chunk, and
      every group of two or more lines fits the bound. */
  lemma ChunkGroups(text: string, maxLen: int) returns (groups: seq<seq<string>>)
    ensures Concat(groups) == SplitOn(text, "\n")
    ensures WellGrouped(groups, maxLen)
    ensures Chunks(text, maxLen) == EmitAll(groups)
  {
    groups := PackGroups(SplitOn(text, "\n"), [], [], maxLen);
  }

  /** A chunk comes from one group. */
  lemma {:induction false} EmitAllSource(groups: seq<seq<string>>, k: nat) returns (j: nat)
    requires k < |EmitAll(groups)|
    ensures j < |groups| && Packed(groups[j]) != [] && EmitAll(groups)[k] == Strip(Packed(groups[j]))
    decreases |groups|
  {
    var e := Emit(Packed(groups[0]));
    var rest := EmitAll(groups[1..]);
    assert EmitAll(groups) == e + rest;
    if k < |e| {
      j := 0;
      IndexLeft(e, rest, k);
    } else {
      IndexRight(e, rest, k);
      var j' := EmitAllSource(groups[1..], k - |e|);
      j := j' + 1;
      assert groups[1..][j'] == groups[j];
    }
  }

  lemma IndexLeft<T>(a: seq<T>, b: seq<T>, k: nat)
    requires k < |a|
    ensures (a + b)[k] == a[k]
  {
  }

  lemma IndexRight<T>(a: seq<T>, b: seq<T>, k: nat)
    requires |a| <= k < |a + b|
    ensures k - |a| < |b| && (a + b)[k] == b[k - |a|]
  {
  }

  lemma {:induction false} ConcatMember(groups: seq<seq<string>>, j: nat, i: nat)
    requires j < |groups| && i < |groups[j]|
    ensures groups[j][i] in Concat(groups)
    decreases |groups|
  {
    if j > 0 {
      ConcatMember(groups[1..], j - 1, i);
    }
  }

  /** Every chunk is stripped, and a chunk longer than max_len is a single input line. */
  lemma ChunkBound(text: string, maxLen: int)
    ensures forall c :: c in Chunks(text, maxLen) ==> IsStripped(c)
    ensures forall c :: c in Chunks(text, maxLen) && |c| > maxLen ==>
      exists line :: line in SplitOn(text, "\n") && c == Strip(line)
  {
    var groups := ChunkGroups(text, maxLen);
    var chunks := Chunks(text, maxLen);
    forall c | c in chunks
      ensures IsStripped(c)
      ensures |c| > maxLen ==> exists line :: line in SplitOn(text, "\n") && c == Strip(line)
    {
      var k :| 0 <= k < |chunks| && chunks[k] == c;
      var j := EmitAllSource(groups, k);
      var g := groups[j];
      if |c| > maxLen {
        assert GroupFits(g, maxLen);
        assert |g| == 1;
        assert Packed(g) == g[0] by {
          assert g[..0] == [];
        }
        ConcatMember(groups, j, 0);
      }
    }
  }

  /** Once a group starts with a non-empty line, its lines are joined with single spaces. */
  lemma {:induction false} PackedIsJoin(g: seq<string>)
    requires |g| > 0 && g[0] != []
    ensures Packed(g) == Join(g, " ")
    ensures Packed(g) != []
    decreases |g|
  {
    if |g| > 1 {
      var init := g[..|g| - 1];
      PackedIsJoin(init);
      JoinSnoc(init, " ", g[|g| - 1]);
      assert init + [g[|g| - 1]] == g;
    } else {
      assert g[..0] == [];
    }
  }

  /** A text that does not start with the separator keeps its first character in its first piece. */
  lemma SplitOnPlainHead(s: string, sep: string)
    requires |s| > 0 && |sep| > 0 && s[0] != sep[0]
    ensures SplitOn(s, sep) == [[s[0]] + SplitOn(s[1..], sep)[0]] + SplitOn(s[1..], sep)[1..]
  {
  }

  /** The lines of the text " \nabc". */
  lemma TwoLines()
    ensures SplitOn(" \nabc", "\n") == [" ", "abc"]
  {
    CharNotOccurs('\n', "abc");
    SplitOnAbsent("abc", "\n");
    assert "\nabc"[1..] == "abc" && "\n" <= "\nabc";
    assert SplitOn("\nabc", "\n") == [[], "abc"];
    assert " \nabc"[1..] == "\nabc";
    SplitOnPlainHead(" \nabc", "\n");
    assert [' '] + [] == " ";
  }

  /** A whitespace-only line that starts an accumulation yields an empty chunk. */
  lemma EmptyChunk()
    ensures Chunks(" \nabc", 1) == ["", "abc"]
  {
    TwoLines();
    PackTwoLines(" ", "abc", 1);
    StripSamples();
  }

  lemma StripSamples()
    ensures Strip(" ") == [] && Strip("abc") == "abc"
  {
    LeadingAllSpaces(" ");
    StripOfStripped("abc");
  }

  /** Two non-empty lines that do not fit together give one chunk each. */
  lemma PackTwoLines(a: string, b: string, maxLen: int)
    requires a != [] && b != [] && |a| + 1 > maxLen && |b| + |a| + 1 > maxLen
    ensures Pack([a, b], [], [], maxLen) == [Strip(a), Strip(b)]
  {
    var lines := [a, b];
    assert lines[1..] == [b] && lines[1..][1..] == [];
    assert [] + Emit([]) == [];
    assert Pack(lines, [], [], maxLen) == Pack([b], [], a, maxLen);
    assert [] + Emit(a) == [Strip(a)];
    assert Pack([b], [], a, maxLen) == Pack([], [Strip(a)], b, maxLen);
    assert [Strip(a)] + Emit(b) == [Strip(a), Strip(b)];
  }
}
