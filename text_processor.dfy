/** TextProcessor (src/doc_process/text_processor.py): the PDF name check and the naming of
    the combined DTBook, and the two TTS manifests, written as rows appended to one TSV file
    per chapter. The disk is a map from path to the lines written there. */
module TextProcessing {
  import opened Text
  import opened Wrappers
  import opened Chunker
  import opened Segmenter
  import opened Dtbook
  import opened DtbookSplit

  datatype TextError =
    | Unsupported              // ValueError("Unsupported file format. Only PDF and XML are supported.")
    | PdfFailed(pdf: PdfError)
    | SplitFailed(split: SplitError)
    | UnboundFile              // f.close() with no file opened yet in the run (UnboundLocalError)

  /** str() of the exception behind each error. */
  function TextMessage(e: TextError): string
  {
    match e
    case Unsupported => "Unsupported file format. Only PDF and XML are supported."
    case PdfFailed(p) => PdfMessage(p)
    case SplitFailed(s) => SplitMessage(s)
    case UnboundFile => UnboundError("f")
  }

  /** The files on disk, as the lines written to each path. */
  type Files = map<string, seq<string>>

  function Existing(fs: Files, p: string): seq<string>
  {
    if p in fs then fs[p] else []
  }

  /** Opening p in append mode to write ls: the lines go after what p holds, a file is
      created only by a write, and no other file changes. */
  function Append(fs: Files, p: string, ls: seq<string>): (r: Files)
    ensures Existing(r, p) == Existing(fs, p) + ls
    ensures p in r <==> p in fs || ls != []
    ensures forall q :: q != p ==> (q in r <==> q in fs) && Existing(r, q) == Existing(fs, q)
  {
    if ls == [] then fs else fs[p := Existing(fs, p) + ls]
  }

  // ---------------------------------------------------------------- make_xml_lst

  /** input_file.lower().endswith('.pdf'). */
  predicate IsPdfName(name: string)
  {
    EndsWith(Lower(name), ".pdf")
  }

  /** The check looks at the last four characters only, in any letter case. */
  lemma PdfNameAnyCase(stem: string, ext: string)
    requires |ext| == 4
    ensures IsPdfName(stem + ext) <==> Lower(ext) == ".pdf"
  {
    LowerTail(stem, ext);
  }

  /** Lower-casing works character by character, so it keeps the end of a text apart. */
  lemma LowerTail(a: string, b: string)
    ensures Lower(a + b)[|a|..] == Lower(b)
  {
    var l := Lower(a + b);
    var lb := Lower(b);
    assert |l[|a|..]| == |lb|;
    forall k | 0 <= k < |b|
      ensures l[|a|..][k] == lb[k]
    {
      var c := (a + b)[|a| + k];
      assert c == b[k];
      assert l[|a| + k] == (if 'A' <= c <= 'Z' then (c as int + 32) as char else c);
    }
  }

  /** title.replace(".pdf", ".xml"): the name of the combined DTBook. */
  function XmlName(title: string): string
  {
    Replace(title, ".pdf", ".xml")
  }

  /** A title "stem.pdf" names the file "stem.xml". */
  lemma XmlNameOfPdf(stem: string)
    requires '.' !in stem
    ensures XmlName(stem + ".pdf") == stem + ".xml"
  {
    ReplaceKeep(stem, ".pdf", ".pdf", ".xml");
    assert Replace(".pdf"[4..], ".pdf", ".xml") == [];
  }

  /** A title without ".pdf" (the default "book title") names a file without an extension. */
  lemma XmlNameWithoutPdf(title: string)
    requires !OccursIn(".pdf", title)
    ensures XmlName(title) == title
  {
    ReplaceIsSplitJoin(title, ".pdf", ".xml");
    SplitOnAbsent(title, ".pdf");
  }

  /** What split_dtbook_by_chapter gives for the parsed combined document. */
  function ChapterOutputs(root: Element, dir: string): (r: Result<seq<Output>, TextError>)
  {
    match Chapters(root)
    case Err(e) => Err(SplitFailed(e))
    case Ok(chs) => Ok(seq(|chs|, k requires 0 <= k < |chs| => Output(ChapterPath(dir, k), ChapterDoc(root, chs[k]))))
  }

  /** The combined DTBook make_xml_lst writes: its path and its text. */
  function CombinedXml(sections: seq<Section>, dir: string, title: string, author: string, date: string,
                       publisher: string, uid: string, splitBySentence: bool, chunkSize: int): (string, string)
  {
    (dir + "/" + XmlName(title), Header(title, author, publisher, "vi", uid, date) + Body(sections, splitBySentence, chunkSize) + Footer)
  }

  /** The part of make_xml_lst after process_pdf: write the combined DTBook, then split the
      tree read back from it. */
  method WriteAndSplit(sections: seq<Section>, parsed: Element, dir: string, title: string, author: string,
                       date: string, publisher: string, uid: string, splitBySentence: bool, chunkSize: int)
    returns (written: Option<(string, string)>, r: Result<seq<Output>, TextError>)
    ensures written == Some(CombinedXml(sections, dir, title, author, date, publisher, uid, splitBySentence, chunkSize))
    ensures r == ChapterOutputs(parsed, dir)
  {
    var outputFile := Replace(title, ".pdf", ".xml");
    var dtbook := CreateDtbookXml(sections, title, author, publisher, "vi", uid, date, splitBySentence, chunkSize);
    written := Some((dir + "/" + outputFile, dtbook));
    r := SplitChapters(parsed, dir);
  }

  /** split_dtbook_by_chapter, with its ValueError as a TextError. */
  method SplitChapters(root: Element, dir: string) returns (r: Result<seq<Output>, TextError>)
    ensures r == ChapterOutputs(root, dir)
  {
    var split := SplitDtbookByChapter(root, dir);
    SplitOutputs(root, dir, split);
    if split.Err? {
      return Err(SplitFailed(split.error));
    }
    r := Ok(split.value);
  }

  lemma SplitOutputs(root: Element, dir: string, split: Result<seq<Output>, SplitError>)
    requires split.Err? <==> Chapters(root).Err?
    requires split.Err? ==> split.error == Chapters(root).error
    requires split.Ok? ==> |split.value| == |Chapters(root).value|
    requires split.Ok? ==> forall idx :: 0 <= idx < |split.value| ==>
      split.value[idx] == Output(ChapterPath(dir, idx), ChapterDoc(root, Chapters(root).value[idx]))
    ensures ChapterOutputs(root, dir) == if split.Err? then Err(SplitFailed(split.error)) else Ok(split.value)
  {
    if split.Ok? {
      var chs := Chapters(root).value;
      var outs := seq(|chs|, k requires 0 <= k < |chs| => Output(ChapterPath(dir, k), ChapterDoc(root, chs[k])));
      assert outs == split.value;
    }
  }

  // ---------------------------------------------------------------- the line manifest

  /** A manifest row before formatting: the line index j and the text. */
  datatype Row = Row(j: nat, text: string)

  /** Stripped lines that are dropped. */
  const DropList: seq<string> := [".", "(", ")", "<", ">", "", ";", "'", "\""]

  predicate IsDropChar(c: char)
  {
    c == '.' || c == '(' || c == ')' || c == '<' || c == '>' || c == ';' || c == '\'' || c == '"'
  }

  /** t in DropList, tested character-wise: the empty line or one of the eight marks. */
  predicate Dropped(t: string)
  {
    |t| == 0 || (|t| == 1 && IsDropChar(t[0]))
  }

  lemma DroppedIsDropList(t: string)
    ensures Dropped(t) <==> t in DropList
  {
    if |t| == 1 {
      assert t == [t[0]];
    }
  }

  /** The rows of create_tsv_for_tts for the lines from index from on, with short holding
      the buffered short lines. A kept line shorter than 10 characters is buffered after a
      space; a longer one is written, prefixed by the buffer; a buffer left at the end is
      written with the last line index. */
  function Rows(lines: seq<string>, from: nat, short: string): seq<Row>
    requires from <= |lines| && (short != [] ==> from > 0)
    decreases |lines| - from
  {
    if from == |lines| then
      if short != [] then [Row(|lines| - 1, Strip(short))] else []
    else
      var t := Strip(lines[from]);
      if Dropped(t) then Rows(lines, from + 1, short)
      else if |t| < 10 then Rows(lines, from + 1, short + " " + t)
      else [Row(from, LongRowText(short, t))] + Rows(lines, from + 1, [])
  }

  /** A long line's row text: the line, after the buffer when there is one. */
  function LongRowText(short: string, t: string): string
  {
    if short != [] then Strip(short + " " + t) else t
  }

  /** The inner loop of create_tsv_for_tts over the lines of one chapter. */
  method LineRows(lines: seq<string>) returns (rows: seq<Row>)
    ensures rows == Rows(lines, 0, [])
  {
    rows := [];
    var short := "";
    for j := 0 to |lines|
      invariant short != [] ==> j > 0
      invariant rows + Rows(lines, j, short) == Rows(lines, 0, [])
    {
      var t := Strip(lines[j]);
      if Dropped(t) {
      } else if |t| < 10 {
        short := short + " " + t;
      } else {
        var text := t;
        if short != "" {
          text := Strip(short + " " + t);
          short := "";
        }
        ghost var rest := Rows(lines, j + 1, []);
        assert rows + ([Row(j, text)] + rest) == (rows + [Row(j, text)]) + rest;
        rows := rows + [Row(j, text)];
      }
    }
    if short != "" {
      rows := rows + [Row(|lines| - 1, Strip(short))];
    }
  }

  /** The stripped lines that are not dropped, in order. */
  function Kept(lines: seq<string>, from: nat): (r: seq<string>)
    requires from <= |lines|
    ensures forall k :: 0 <= k < |r| ==> !Dropped(r[k]) && IsStripped(r[k])
    decreases |lines| - from
  {
    if from == |lines| then []
    else
      var t := Strip(lines[from]);
      if Dropped(t) then Kept(lines, from + 1) else [t] + Kept(lines, from + 1)
  }

  function Texts(rows: seq<Row>): (r: seq<string>)
    ensures |r| == |rows|
  {
    if |rows| == 0 then [] else [rows[0].text] + Texts(rows[1..])
  }

  /** The buffer built from the short lines ps: each one after a space. */
  function Buf(ps: seq<string>): string
  {
    if |ps| == 0 then [] else Buf(ps[..|ps| - 1]) + " " + ps[|ps| - 1]
  }

  predicate Good(ps: seq<string>)
  {
    forall k :: 0 <= k < |ps| ==> ps[k] != [] && IsStripped(ps[k])
  }

  lemma {:induction false} BufJoin(ps: seq<string>)
    requires |ps| > 0
    ensures Buf(ps) == " " + Join(ps, " ")
    decreases |ps|
  {
    var init := ps[..|ps| - 1];
    var last := ps[|ps| - 1];
    if |ps| == 1 {
      assert init == [];
    } else {
      BufJoin(init);
      JoinSnoc(init, " ", last);
      assert init + [last] == ps;
    }
  }

  lemma {:induction false} JoinGood(ps: seq<string>)
    requires |ps| > 0 && Good(ps)
    ensures Join(ps, " ") != [] && IsStripped(Join(ps, " "))
    decreases |ps|
  {
    if |ps| > 1 {
      var init := ps[..|ps| - 1];
      var last := ps[|ps| - 1];
      JoinGood(init);
      JoinSnoc(init, " ", last);
      assert init + [last] == ps;
      var j := Join(init, " ") + " " + last;
      assert j[0] == Join(init, " ")[0];
      assert j[|j| - 1] == last[|last| - 1];
    }
  }

  /** Stripping the buffer gives its lines joined by single spaces. */
  lemma BufStrip(ps: seq<string>)
    requires |ps| > 0 && Good(ps)
    ensures Buf(ps) != [] && Strip(Buf(ps)) == Join(ps, " ")
  {
    BufJoin(ps);
    JoinGood(ps);
    StripSpacePrefix(" ", Join(ps, " "));
  }

  lemma TextsCons(r: Row, rest: seq<Row>)
    ensures Texts([r] + rest) == [r.text] + Texts(rest)
  {
    assert ([r] + rest)[1..] == rest;
  }

  lemma JoinCons(x: string, rest: seq<string>, sep: string)
    requires |rest| > 0
    ensures Join([x] + rest, sep) == x + sep + Join(rest, sep)
  {
    assert ([x] + rest)[1..] == rest;
  }

  /** No kept text is lost, added or reordered: the row texts joined by spaces are the
      buffered and the remaining kept lines joined by spaces, and there are rows exactly
      when there is kept text. */
  lemma {:induction false} RowsText(lines: seq<string>, from: nat, pending: seq<string>)
    requires from <= |lines| && (pending != [] ==> from > 0) && Good(pending)
    ensures Buf(pending) != [] ==> from > 0
    ensures Join(Texts(Rows(lines, from, Buf(pending))), " ") == Join(pending + Kept(lines, from), " ")
    ensures Rows(lines, from, Buf(pending)) == [] <==> pending + Kept(lines, from) == []
    decreases |lines| - from
  {
    if pending != [] {
      BufStrip(pending);
    }
    if from == |lines| {
      assert pending + Kept(lines, from) == pending;
      assert Rows(lines, from, Buf(pending)) == if pending != [] then [Row(|lines| - 1, Join(pending, " "))] else [];
    } else {
      var t := Strip(lines[from]);
      RowsStep(lines, from, Buf(pending));
      if Dropped(t) {
        RowsText(lines, from + 1, pending);
      } else if |t| < 10 {
        RowsShort(lines, from, pending);
      } else {
        RowsLong(lines, from, pending);
      }
    }
  }

  lemma {:induction false} RowsShort(lines: seq<string>, from: nat, pending: seq<string>)
    requires from < |lines| && (pending != [] ==> from > 0) && Good(pending)
    requires !Dropped(Strip(lines[from])) && |Strip(lines[from])| < 10
    ensures Buf(pending) != [] ==> from > 0
    ensures Join(Texts(Rows(lines, from, Buf(pending))), " ") == Join(pending + Kept(lines, from), " ")
    ensures Rows(lines, from, Buf(pending)) == [] <==> pending + Kept(lines, from) == []
    decreases |lines| - from, 0
  {
    var t := Strip(lines[from]);
    var p' := pending + [t];
    if pending != [] {
      BufStrip(pending);
    }
    assert p'[..|pending|] == pending;
    assert Buf(p') == Buf(pending) + " " + t;
    var kept := Kept(lines, from + 1);
    RowsStep(lines, from, Buf(pending));
    assert Rows(lines, from, Buf(pending)) == Rows(lines, from + 1, Buf(p'));
    GoodSnoc(pending, t);
    RowsText(lines, from + 1, p');
    SeqAssoc(pending, [t], kept);
  }

  lemma GoodSnoc(ps: seq<string>, t: string)
    requires Good(ps) && t != [] && IsStripped(t)
    ensures Good(ps + [t])
  {
  }

  lemma SeqAssoc<T>(a: seq<T>, b: seq<T>, c: seq<T>)
    ensures a + (b + c) == (a + b) + c
  {
  }

  lemma {:induction false} RowsLong(lines: seq<string>, from: nat, pending: seq<string>)
    requires from < |lines| && (pending != [] ==> from > 0) && Good(pending)
    requires !Dropped(Strip(lines[from])) && |Strip(lines[from])| >= 10
    ensures Buf(pending) != [] <==> pending != []
    ensures Join(Texts(Rows(lines, from, Buf(pending))), " ") == Join(pending + Kept(lines, from), " ")
    ensures Rows(lines, from, Buf(pending)) != [] && pending + Kept(lines, from) != []
    decreases |lines| - from, 0
  {
    var t := Strip(lines[from]);
    LongText(pending, t);
    RowsLongUnfold(lines, from, Buf(pending));
    assert Buf([]) == [];
    RowsText(lines, from + 1, []);
    JoinStep(pending, t, Kept(lines, from + 1), from, Rows(lines, from + 1, []));
  }

  /** One step of the loop on a dropped or a short line. */
  lemma RowsStep(lines: seq<string>, from: nat, short: string)
    requires from < |lines| && (short != [] ==> from > 0)
    ensures Dropped(Strip(lines[from])) ==>
      Rows(lines, from, short) == Rows(lines, from + 1, short) && Kept(lines, from) == Kept(lines, from + 1)
    ensures !Dropped(Strip(lines[from])) && |Strip(lines[from])| < 10 ==>
      Rows(lines, from, short) == Rows(lines, from + 1, short + " " + Strip(lines[from]))
      && Kept(lines, from) == [Strip(lines[from])] + Kept(lines, from + 1)
  {
  }

  lemma RowsLongUnfold(lines: seq<string>, from: nat, short: string)
    requires from < |lines| && (short != [] ==> from > 0)
    requires !Dropped(Strip(lines[from])) && |Strip(lines[from])| >= 10
    ensures Rows(lines, from, short)
         == [Row(from, LongRowText(short, Strip(lines[from])))] + Rows(lines, from + 1, [])
    ensures Kept(lines, from) == [Strip(lines[from])] + Kept(lines, from + 1)
  {
  }

  lemma JoinStep(pending: seq<string>, t: string, kept: seq<string>, from: nat, rest: seq<Row>)
    requires Join(Texts(rest), " ") == Join([] + kept, " ") && (rest == [] <==> [] + kept == [])
    ensures Join(Texts([Row(from, Join(pending + [t], " "))] + rest), " ") == Join(pending + ([t] + kept), " ")
  {
    var p' := pending + [t];
    var x := Join(p', " ");
    TextsCons(Row(from, x), rest);
    assert [] + kept == kept;
    assert pending + ([t] + kept) == p' + kept;
    if rest != [] {
      JoinCons(x, Texts(rest), " ");
      JoinConcat(p', kept, " ");
    } else {
      assert p' + kept == p';
    }
  }

  /** The text of a row written for a long line t after the buffered lines pending. */
  lemma LongText(pending: seq<string>, t: string)
    requires Good(pending) && t != [] && IsStripped(t)
    ensures Buf(pending) != [] <==> pending != []
    ensures LongRowText(Buf(pending), t) == Join(pending + [t], " ")
  {
    var p' := pending + [t];
    assert Good(p');
    if pending != [] {
      BufStrip(pending);
      assert p'[..|pending|] == pending;
      assert Buf(p') == Buf(pending) + " " + t;
      BufStrip(p');
    } else {
      assert p' == [t];
    }
  }

  /** The whole chapter: the rows carry its kept lines, joined by spaces, and a chapter
      writes nothing exactly when every line is dropped. */
  lemma RowsKeepText(lines: seq<string>)
    ensures Join(Texts(Rows(lines, 0, [])), " ") == Join(Kept(lines, 0), " ")
    ensures Rows(lines, 0, []) == [] <==> Kept(lines, 0) == []
  {
    assert Buf([]) == [];
    RowsText(lines, 0, []);
    assert [] + Kept(lines, 0) == Kept(lines, 0);
  }

  predicate IdsIncrease(rows: seq<Row>)
  {
    forall a, b :: 0 <= a < b < |rows| ==> rows[a].j < rows[b].j
  }

  predicate IdsWithin(rows: seq<Row>, lo: int, hi: int)
  {
    forall k :: 0 <= k < |rows| ==> lo <= rows[k].j < hi
  }

  /** Row ids are line indexes: strictly increasing, below the line count and, with an
      empty buffer, not below the first line looked at (a buffer may carry the row back to
      the last line index). */
  lemma {:induction false} RowIds(lines: seq<string>, from: nat, short: string)
    requires from <= |lines| && (short != [] ==> from > 0)
    ensures IdsIncrease(Rows(lines, from, short))
    ensures IdsWithin(Rows(lines, from, short), if short == [] then from else from - 1, |lines|)
    decreases |lines| - from
  {
    if from < |lines| {
      var t := Strip(lines[from]);
      if Dropped(t) {
        RowIds(lines, from + 1, short);
      } else if |t| < 10 {
        RowIds(lines, from + 1, short + " " + t);
      } else {
        var x := if short != [] then Strip(short + " " + t) else t;
        var rest := Rows(lines, from + 1, []);
        assert Rows(lines, from, short) == [Row(from, x)] + rest;
        RowIds(lines, from + 1, []);
        IdsCons(Row(from, x), rest, if short == [] then from else from - 1, |lines|);
      }
    }
  }

  lemma IdsCons(r: Row, rest: seq<Row>, lo: int, hi: int)
    requires lo <= r.j < hi && IdsIncrease(rest) && IdsWithin(rest, r.j + 1, hi)
    ensures IdsIncrease([r] + rest) && IdsWithin([r] + rest, lo, hi)
  {
    var rows := [r] + rest;
    assert forall k :: 1 <= k < |rows| ==> rows[k] == rest[k - 1];
  }

  predicate ShortOnlyLast(rows: seq<Row>)
  {
    forall k :: 0 <= k < |rows| - 1 ==> |rows[k].text| >= 10
  }

  /** Only the last row of a chapter can be shorter than 10 characters. */
  lemma {:induction false} RowsShortOnlyLast(lines: seq<string>, from: nat, short: string)
    requires from <= |lines| && (short != [] ==> from > 0)
    ensures ShortOnlyLast(Rows(lines, from, short))
    decreases |lines| - from
  {
    if from < |lines| {
      var t := Strip(lines[from]);
      if Dropped(t) {
        assert Rows(lines, from, short) == Rows(lines, from + 1, short);
        RowsShortOnlyLast(lines, from + 1, short);
      } else if |t| < 10 {
        assert Rows(lines, from, short) == Rows(lines, from + 1, short + " " + t);
        RowsShortOnlyLast(lines, from + 1, short + " " + t);
      } else {
        RowsShortOnlyLast(lines, from + 1, []);
        LongRowShortOnlyLast(lines, from, short);
      }
    }
  }

  /** A long line starts a row of at least 10 characters before the rows that follow it. */
  lemma LongRowShortOnlyLast(lines: seq<string>, from: nat, short: string)
    requires from < |lines| && (short != [] ==> from > 0)
    requires !Dropped(Strip(lines[from])) && |Strip(lines[from])| >= 10
    requires ShortOnlyLast(Rows(lines, from + 1, []))
    ensures ShortOnlyLast(Rows(lines, from, short))
  {
    var t := Strip(lines[from]);
    var rest := Rows(lines, from + 1, []);
    LongRowLength(short, t);
    assert Rows(lines, from, short) == [Row(from, LongRowText(short, t))] + rest;
    ShortOnlyLastCons(Row(from, LongRowText(short, t)), rest);
  }

  /** A long line joined to the buffer is still at least 10 characters once stripped. */
  lemma LongRowLength(short: string, t: string)
    requires IsStripped(t) && |t| >= 10
    ensures |LongRowText(short, t)| >= 10
  {
    if short != [] {
      assert short + " " + t == (short + " ") + t + [];
      StripKeepsInfix(short + " ", t, []);
      var i :| InfixAt(t, Strip(short + " " + t), i);
    }
  }

  lemma ShortOnlyLastCons(r: Row, rest: seq<Row>)
    requires |r.text| >= 10 && ShortOnlyLast(rest)
    ensures ShortOnlyLast([r] + rest)
  {
    var rows := [r] + rest;
    assert forall k :: 1 <= k < |rows| ==> rows[k] == rest[k - 1];
  }

  // ---------------------------------------------------------------- the chunk manifest

  /** The rows of create_tts_for_tts_with_chunks: one per chunk, numbered by position. */
  function ChunkRows(chunks: seq<string>): seq<Row>
  {
    seq(|chunks|, j requires 0 <= j < |chunks| => Row(j, Strip(chunks[j])))
  }

  /** The inner loop of create_tts_for_tts_with_chunks over the chunks of one chapter. */
  method ChunkLineRows(chunks: seq<string>) returns (rows: seq<Row>)
    ensures rows == ChunkRows(chunks)
  {
    rows := [];
    for j := 0 to |chunks|
      invariant rows == ChunkRows(chunks[..j])
    {
      ChunkRowsSnoc(chunks, j);
      rows := rows + [Row(j, Strip(chunks[j]))];
    }
    assert chunks[..|chunks|] == chunks;
  }

  /** The chunk manifest of a chapter text writes its chunks, in order, numbered
      0..k-1; the strip at the write changes nothing since every chunk is stripped. */
  lemma ChunkRowsAreChunks(text: string, maxLen: int)
    ensures |ChunkRows(Chunks(text, maxLen))| == |Chunks(text, maxLen)|
    ensures forall j :: 0 <= j < |Chunks(text, maxLen)| ==>
      ChunkRows(Chunks(text, maxLen))[j] == Row(j, Chunks(text, maxLen)[j])
  {
    var chunks := Chunks(text, maxLen);
    ChunkBound(text, maxLen);
    forall j | 0 <= j < |chunks|
      ensures Strip(chunks[j]) == chunks[j]
    {
      assert chunks[j] in chunks;
      StripOfStripped(chunks[j]);
    }
  }

  lemma ChunkRowsSnoc(chunks: seq<string>, j: nat)
    requires j < |chunks|
    ensures ChunkRows(chunks[..j + 1]) == ChunkRows(chunks[..j]) + [Row(j, Strip(chunks[j]))]
  {
  }

  // ---------------------------------------------------------------- rows and files

  function RowId(i: nat, j: nat): string
  {
    "chapter_" + NatToString(i) + "_" + NatToString(j)
  }

  /** One line of the TSV file of chapter i. */
  function RowLine(i: nat, row: Row, wav: string, prompt: string): string
  {
    RowId(i, row.j) + "\t" + prompt + "\t" + wav + "\t" + row.text + "\n"
  }

  function RowLines(i: nat, rows: seq<Row>, wav: string, prompt: string): (r: seq<string>)
    ensures |r| == |rows|
  {
    seq(|rows|, k requires 0 <= k < |rows| => RowLine(i, rows[k], wav, prompt))
  }

  /** A row holds four tab-separated fields, the id, the prompt text, the prompt wav and
      the text, and reads back into them when none of the last three holds a tab. */
  lemma RowFields(i: nat, row: Row, wav: string, prompt: string)
    requires '\t' !in prompt && '\t' !in wav && '\t' !in row.text
    ensures RowLine(i, row, wav, prompt) == Join([RowId(i, row.j), prompt, wav, row.text], "\t") + "\n"
    ensures SplitOn(Join([RowId(i, row.j), prompt, wav, row.text], "\t"), "\t") == [RowId(i, row.j), prompt, wav, row.text]
  {
    var id := RowId(i, row.j);
    var parts := [id, prompt, wav, row.text];
    assert '\t' !in id by {
      var a := NatToString(i);
      var b := NatToString(row.j);
      assert forall k :: 0 <= k < |a| ==> IsDigit(a[k]);
      assert forall k :: 0 <= k < |b| ==> IsDigit(b[k]);
    }
    assert Join([wav, row.text], "\t") == wav + "\t" + row.text by {
      assert [wav, row.text][1..] == [row.text];
    }
    assert Join([prompt, wav, row.text], "\t") == prompt + "\t" + (wav + "\t" + row.text) by {
      assert [prompt, wav, row.text][1..] == [wav, row.text];
    }
    assert Join(parts, "\t") == id + "\t" + (prompt + "\t" + (wav + "\t" + row.text)) by {
      assert parts[1..] == [prompt, wav, row.text];
    }
    SplitOnJoin(parts, '\t');
  }

  /** f"{output_dir}/{chapter_name}/chapter_{i}.tsv" with chapter_name = f"chapter_{i}". */
  function TsvPath(dir: string, i: nat): string
  {
    dir + "/chapter_" + NatToString(i) + "/chapter_" + NatToString(i) + ".tsv"
  }

  /** Every chapter appends to a file of its own. */
  lemma TsvPathsDistinct(dir: string, i: nat, j: nat)
    requires i != j
    ensures TsvPath(dir, i) != TsvPath(dir, j)
  {
    var pre := dir + "/chapter_";
    var x := "/chapter_" + NatToString(i) + ".tsv";
    var y := "/chapter_" + NatToString(j) + ".tsv";
    assert TsvPath(dir, i) == pre + (NatToString(i) + x);
    assert TsvPath(dir, j) == pre + (NatToString(j) + y);
    if TsvPath(dir, i) == TsvPath(dir, j) {
      assert (pre + (NatToString(i) + x))[|pre|..] == NatToString(i) + x;
      assert (pre + (NatToString(j) + y))[|pre|..] == NatToString(j) + y;
      DigitsThenMark(i, x, j, y);
    }
  }

  /** The rows written for one chapter in either mode. */
  function RowsFor(sec: Section, byChunk: bool, chunkSize: int): seq<Row>
  {
    var text := sec.title + "\n" + sec.content;
    if byChunk then ChunkRows(Chunks(text, chunkSize)) else Rows(SplitOn(text, "\n"), 0, [])
  }

  /** The outer loop from chapter i on: chapter i appends its rows to its file; the first
      chapter writing nothing leaves f unbound at f.close(). */
  function Tsv(lst: seq<Section>, i: nat, fs: Files, wav: string, prompt: string, dir: string,
               byChunk: bool, chunkSize: int): Result<Files, TextError>
    requires i <= |lst|
    decreases |lst| - i
  {
    if i == |lst| then Ok(fs)
    else
      var rows := RowsFor(lst[i], byChunk, chunkSize);
      if i == 0 && rows == [] then Err(UnboundFile)
      else Tsv(lst, i + 1, Append(fs, TsvPath(dir, i), RowLines(i, rows, wav, prompt)), wav, prompt, dir, byChunk, chunkSize)
  }

  lemma TsvUnfold(lst: seq<Section>, i: nat, fs: Files, wav: string, prompt: string, dir: string,
                  byChunk: bool, chunkSize: int)
    requires i < |lst|
    ensures Tsv(lst, i, fs, wav, prompt, dir, byChunk, chunkSize)
         == if i == 0 && RowsFor(lst[i], byChunk, chunkSize) == [] then Err(UnboundFile)
            else Tsv(lst, i + 1, Append(fs, TsvPath(dir, i), RowLines(i, RowsFor(lst[i], byChunk, chunkSize), wav, prompt)),
                     wav, prompt, dir, byChunk, chunkSize)
  {
  }

  /** Chapter files from chapter from on got their rows after what they held, and no other
      file changed. */
  ghost predicate AppendedFrom(lst: seq<Section>, from: nat, before: Files, after: Files, wav: string, prompt: string,
                               dir: string, byChunk: bool, chunkSize: int)
    requires from <= |lst|
  {
    (forall k :: from <= k < |lst| ==>
       Existing(after, TsvPath(dir, k))
       == Existing(before, TsvPath(dir, k)) + RowLines(k, RowsFor(lst[k], byChunk, chunkSize), wav, prompt))
    && (forall p :: (forall k :: from <= k < |lst| ==> p != TsvPath(dir, k)) ==>
          (p in after <==> p in before) && Existing(after, p) == Existing(before, p))
  }

  /** The run fails exactly when the first chapter writes no row. */
  lemma TsvOk(lst: seq<Section>, fs: Files, wav: string, prompt: string, dir: string, byChunk: bool, chunkSize: int)
    ensures Tsv(lst, 0, fs, wav, prompt, dir, byChunk, chunkSize).Err? <==>
      |lst| > 0 && RowsFor(lst[0], byChunk, chunkSize) == []
    ensures Tsv(lst, 0, fs, wav, prompt, dir, byChunk, chunkSize).Err? ==>
      Tsv(lst, 0, fs, wav, prompt, dir, byChunk, chunkSize).error == UnboundFile
  {
    if |lst| > 0 && RowsFor(lst[0], byChunk, chunkSize) != [] {
      var rows := RowsFor(lst[0], byChunk, chunkSize);
      TsvLaterOk(lst, 1, Append(fs, TsvPath(dir, 0), RowLines(0, rows, wav, prompt)), wav, prompt, dir, byChunk, chunkSize);
    }
  }

  lemma {:induction false} TsvLaterOk(lst: seq<Section>, i: nat, fs: Files, wav: string, prompt: string, dir: string,
                                      byChunk: bool, chunkSize: int)
    requires 0 < i <= |lst|
    ensures Tsv(lst, i, fs, wav, prompt, dir, byChunk, chunkSize).Ok?
    decreases |lst| - i
  {
    if i < |lst| {
      var rows := RowsFor(lst[i], byChunk, chunkSize);
      TsvLaterOk(lst, i + 1, Append(fs, TsvPath(dir, i), RowLines(i, rows, wav, prompt)), wav, prompt, dir, byChunk, chunkSize);
    }
  }

  /** Append mode: a run appends to each chapter file its rows after what the file held,
      and touches no other file. */
  lemma {:induction false} TsvAppends(lst: seq<Section>, i: nat, fs: Files, wav: string, prompt: string, dir: string,
                                      byChunk: bool, chunkSize: int)
    requires i <= |lst| && Tsv(lst, i, fs, wav, prompt, dir, byChunk, chunkSize).Ok?
    ensures AppendedFrom(lst, i, fs, Tsv(lst, i, fs, wav, prompt, dir, byChunk, chunkSize).value, wav, prompt, dir, byChunk, chunkSize)
    decreases |lst| - i
  {
    if i < |lst| {
      var mid := TsvNext(lst, i, fs, wav, prompt, dir, byChunk, chunkSize);
      TsvAppends(lst, i + 1, mid, wav, prompt, dir, byChunk, chunkSize);
      AppendedStep(lst, i, fs, mid, Tsv(lst, i + 1, mid, wav, prompt, dir, byChunk, chunkSize).value,
                   wav, prompt, dir, byChunk, chunkSize);
    }
  }

  /** A run that succeeds from chapter i goes on from chapter i + 1 with i's rows appended. */
  lemma TsvNext(lst: seq<Section>, i: nat, fs: Files, wav: string, prompt: string, dir: string,
                byChunk: bool, chunkSize: int) returns (mid: Files)
    requires i < |lst| && Tsv(lst, i, fs, wav, prompt, dir, byChunk, chunkSize).Ok?
    ensures mid == Append(fs, TsvPath(dir, i), RowLines(i, RowsFor(lst[i], byChunk, chunkSize), wav, prompt))
    ensures Tsv(lst, i + 1, mid, wav, prompt, dir, byChunk, chunkSize) == Tsv(lst, i, fs, wav, prompt, dir, byChunk, chunkSize)
  {
    mid := Append(fs, TsvPath(dir, i), RowLines(i, RowsFor(lst[i], byChunk, chunkSize), wav, prompt));
    TsvUnfold(lst, i, fs, wav, prompt, dir, byChunk, chunkSize);
  }

  lemma AppendedStep(lst: seq<Section>, i: nat, fs: Files, mid: Files, after: Files, wav: string, prompt: string,
                     dir: string, byChunk: bool, chunkSize: int)
    requires i < |lst|
    requires mid == Append(fs, TsvPath(dir, i), RowLines(i, RowsFor(lst[i], byChunk, chunkSize), wav, prompt))
    requires AppendedFrom(lst, i + 1, mid, after, wav, prompt, dir, byChunk, chunkSize)
    ensures AppendedFrom(lst, i, fs, after, wav, prompt, dir, byChunk, chunkSize)
  {
    var here := TsvPath(dir, i);
    forall k | i < k < |lst|
      ensures here != TsvPath(dir, k)
    {
      TsvPathsDistinct(dir, i, k);
    }
    AppendedHere(here, RowLines(i, RowsFor(lst[i], byChunk, chunkSize), wav, prompt), fs, mid, after);
    forall k | i < k < |lst|
      ensures Existing(after, TsvPath(dir, k))
           == Existing(fs, TsvPath(dir, k)) + RowLines(k, RowsFor(lst[k], byChunk, chunkSize), wav, prompt)
    {
      assert Existing(mid, TsvPath(dir, k)) == Existing(fs, TsvPath(dir, k));
    }
    forall p | forall k :: i <= k < |lst| ==> p != TsvPath(dir, k)
      ensures (p in after <==> p in fs) && Existing(after, p) == Existing(fs, p)
    {
      assert p != here;
    }
  }

  /** The file appended to at this step is not appended to later. */
  lemma AppendedHere(here: string, ls: seq<string>, fs: Files, mid: Files, after: Files)
    requires mid == Append(fs, here, ls)
    requires (here in after <==> here in mid) && Existing(after, here) == Existing(mid, here)
    ensures Existing(after, here) == Existing(fs, here) + ls
  {
  }

  // ---------------------------------------------------------------- the processor

  class TextProcessor {
    var inputFile: string
    var outputDir: string
    var splitBySentence: bool
    var chunkSize: int
    var processedLst: seq<Section>

    /** The output directory is created when missing; directories are not modelled. */
    constructor (inputFile: string, outputDir: string, splitBySentence: bool, chunkSize: int)
      ensures this.inputFile == inputFile && this.outputDir == outputDir
      ensures this.splitBySentence == splitBySentence && this.chunkSize == chunkSize
      ensures processedLst == []
    {
      this.inputFile := inputFile;
      this.outputDir := outputDir;
      this.splitBySentence := splitBySentence;
      this.chunkSize := chunkSize;
      processedLst := [];
    }

    /** make_xml_lst over the PDF's table of contents and page texts. parsed stands for the
        tree lxml reads back from the written DTBook. written is the combined DTBook's path
        and text, once it is written. */
    method MakeXmlLst(toc: seq<TocEntry>, pages: seq<string>, parsed: Element,
                      title: string, author: string, date: string, publisher: string, uid: string)
      returns (written: Option<(string, string)>, r: Result<seq<Output>, TextError>)
      modifies this
      ensures inputFile == old(inputFile) && outputDir == old(outputDir)
      ensures splitBySentence == old(splitBySentence) && chunkSize == old(chunkSize)
      ensures !IsPdfName(inputFile) ==>
        written == None && r == Err(Unsupported) && processedLst == old(processedLst)
      ensures IsPdfName(inputFile) && Sections(toc, pages).Err? ==>
        written == None && r == Err(PdfFailed(Sections(toc, pages).error)) && processedLst == old(processedLst)
      ensures IsPdfName(inputFile) && Sections(toc, pages).Ok? ==>
        processedLst == Sections(toc, pages).value
        && written == Some(CombinedXml(processedLst, outputDir, title, author, date, publisher, uid, splitBySentence, chunkSize))
        && r == ChapterOutputs(parsed, outputDir)
    {
      var dir, bySentence, size := outputDir, splitBySentence, chunkSize;
      if !EndsWith(Lower(inputFile), ".pdf") {
        return None, Err(Unsupported);
      }
      var sections := ProcessPdf(toc, pages);
      if sections.Err? {
        return None, Err(PdfFailed(sections.error));
      }
      processedLst := sections.value;
      written, r := WriteAndSplit(sections.value, parsed, dir, title, author, date, publisher, uid, bySentence, size);
    }

    /** create_tsv_for_tts: the line manifest of every processed chapter. */
    method CreateTsvForTts(fs: Files, wav: string, prompt: string, dir: string) returns (r: Result<Files, TextError>)
      ensures r == Tsv(processedLst, 0, fs, wav, prompt, dir, false, chunkSize)
    {
      var out := fs;
      for i := 0 to |processedLst|
        invariant Tsv(processedLst, i, out, wav, prompt, dir, false, chunkSize)
               == Tsv(processedLst, 0, fs, wav, prompt, dir, false, chunkSize)
      {
        var chapter := processedLst[i];
        var rows := LineRows(SplitOn(chapter.title + "\n" + chapter.content, "\n"));
        assert rows == RowsFor(chapter, false, chunkSize);
        TsvUnfold(processedLst, i, out, wav, prompt, dir, false, chunkSize);
        if i == 0 && rows == [] {
          return Err(UnboundFile);
        }
        out := Append(out, TsvPath(dir, i), RowLines(i, rows, wav, prompt));
      }
      r := Ok(out);
    }

    /** create_tts_for_tts_with_chunks: the chunk manifest of every processed chapter. */
    method CreateTtsForTtsWithChunks(fs: Files, wav: string, prompt: string, dir: string)
      returns (r: Result<Files, TextError>)
      ensures r == Tsv(processedLst, 0, fs, wav, prompt, dir, true, chunkSize)
    {
      var out := fs;
      for i := 0 to |processedLst|
        invariant Tsv(processedLst, i, out, wav, prompt, dir, true, chunkSize)
               == Tsv(processedLst, 0, fs, wav, prompt, dir, true, chunkSize)
      {
        var chapter := processedLst[i];
        var chunks := ChunkSentences(chapter.title + "\n" + chapter.content, chunkSize);
        var rows := ChunkLineRows(chunks);
        assert rows == RowsFor(chapter, true, chunkSize);
        TsvUnfold(processedLst, i, out, wav, prompt, dir, true, chunkSize);
        if i == 0 && rows == [] {
          return Err(UnboundFile);
        }
        out := Append(out, TsvPath(dir, i), RowLines(i, rows, wav, prompt));
      }
      r := Ok(out);
    }
  }
}
