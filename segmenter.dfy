/** process_pdf (src/doc_process/process_doc.py): cutting the text of a PDF into one
    section per table-of-contents entry. The document is given as the text of each page
    and its table of contents. */
module Segmenter {
  import opened Text
  import opened Wrappers
  import opened Sentences

  /** A table-of-contents entry: level, title and 1-based start page. */
  datatype TocEntry = TocEntry(level: int, title: string, page: int)

  datatype Section = Section(title: string, page: int, content: string)

  datatype PdfError =
    | EmptyToc          // doc.get_toc()[0] on an empty table of contents
    | UnboundLastEntry  // a one-entry table of contents never binds the loop's variables
    | EmptySeparator    // str.split("") on an empty title
    | BadStartPage      // doc.pages(start, stop) with a start past the last page

  /** str() of the exception behind each error. */
  function PdfMessage(e: PdfError): string
  {
    match e
    case EmptyToc => IndexOutOfRange
    case UnboundLastEntry => UnboundError("current_page")
    case EmptySeparator => "empty separator"
    case BadStartPage => "bad start page number"
  }

  function ConcatAll(ps: seq<string>): string
  {
    if |ps| == 0 then [] else ps[0] + ConcatAll(ps[1..])
  }

  /** load_page(pno): a negative page number counts from the end of the document. */
  function LoadIndex(n: nat, pno: int): (r: nat)
    requires n > 0 && pno < n
    ensures r < n && (pno >= 0 ==> r == pno)
  {
    if pno < 0 then pno % n else pno
  }

  /** The 0-based page numbers PyMuPDF's doc.pages(start, stop) yields in a document of n
      pages. A negative start counts from the end; a start that is still past the last
      page raises; a stop past the end is the end; and a start after the stop walks
      backwards, as range(start, stop, -1) does. An empty document yields nothing. */
  function PageNumbers(n: nat, start: int, stop: int): (r: Result<seq<nat>, PdfError>)
    ensures r.Err? <==> n > 0 && start >= n
    ensures r.Err? ==> r.error == BadStartPage
    ensures r.Ok? ==> forall k :: 0 <= k < |r.value| ==> r.value[k] < n
  {
    if n == 0 then Ok([])
    else
      var s := if start < 0 then start % n else start;
      var e := if stop <= n then stop else n;
      if s >= n then Err(BadStartPage)
      else if s <= e then Ok(seq(e - s, k requires 0 <= k < e - s => s + k))
      else Ok(seq(s - e, k requires 0 <= k < s - e => LoadIndex(n, s - k)))
  }

  /** The text doc.pages(start, stop) yields, page after page. */
  function PagesText(pages: seq<string>, start: int, stop: int): (r: Result<string, PdfError>)
    ensures r.Err? <==> |pages| > 0 && start >= |pages|
  {
    match PageNumbers(|pages|, start, stop)
    case Err(e) => Err(e)
    case Ok(ns) => Ok(ConcatAll(seq(|ns|, k requires 0 <= k < |ns| => pages[ns[k]])))
  }

  /** Pages read forwards: from an in-document start up to the stop, cut at the end. */
  lemma PagesForward(pages: seq<string>, start: int, stop: int)
    requires 0 <= start < |pages| && start <= stop
    ensures PagesText(pages, start, stop) == Ok(ConcatAll(pages[start..if stop <= |pages| then stop else |pages|]))
  {
    var hi := if stop <= |pages| then stop else |pages|;
    var ns := PageNumbers(|pages|, start, stop).value;
    assert seq(|ns|, k requires 0 <= k < |ns| => pages[ns[k]]) == pages[start..hi];
  }

  /** Pages read backwards: a start after the stop yields pages start, start - 1, ...,
      down to the page after the stop. */
  lemma PagesBackward(pages: seq<string>, start: int, stop: int)
    requires 0 <= stop < start < |pages|
    ensures PagesText(pages, start, stop) == Ok(ConcatAll(Reversed(pages[stop + 1..start + 1])))
  {
    var ns := PageNumbers(|pages|, start, stop).value;
    var got := seq(|ns|, k requires 0 <= k < |ns| => pages[ns[k]]);
    var want := Reversed(pages[stop + 1..start + 1]);
    assert |got| == |want|;
    forall k | 0 <= k < |got|
      ensures got[k] == want[k]
    {
      ReversedAt(pages[stop + 1..start + 1], k);
    }
    assert got == want;
  }

  /** A negative start is the same start counted from the end of the document. */
  lemma PagesFromEnd(pages: seq<string>, start: int, stop: int)
    requires -|pages| <= start < 0
    ensures PagesText(pages, start, stop) == PagesText(pages, start + |pages|, stop)
  {
    assert start % |pages| == start + |pages|;
  }

  function Reversed<T>(xs: seq<T>): (r: seq<T>)
    ensures |r| == |xs|
  {
    if |xs| == 0 then [] else Reversed(xs[1..]) + [xs[0]]
  }

  lemma {:induction false} ReversedAt<T>(xs: seq<T>, k: nat)
    requires k < |xs|
    ensures Reversed(xs)[k] == xs[|xs| - 1 - k]
    decreases |xs|
  {
    if k < |xs| - 1 {
      ReversedAt(xs[1..], k);
    }
  }

  /** The page text with its line breaks turned into spaces. */
  function Flatten(s: string): (r: string)
    ensures '\n' !in r
  {
    ReplaceRemovesChar(s, '\n', " ");
    Replace(s, "\n", " ")
  }

  /** len(title.split(" ")) == 1: the title holds no space. */
  predicate SingleWord(title: string)
  {
    ' ' !in title
  }

  function Last(xs: seq<string>): string
    requires |xs| > 0
  {
    xs[|xs| - 1]
  }

  /** The content of a section that is followed by another one, before stripping: raw
      is the text of its pages, title its own title and next the next entry's title. */
  function ChapterContent(raw: string, title: string, next: string): Result<string, PdfError>
  {
    var flat := Flatten(raw);
    if SingleWord(title) then
      if next == [] || title == [] then Err(EmptySeparator)
      else
        var before := SplitOn(flat, next)[0];
        Ok(Join(SplitOn(before, title)[1..], title + " "))
    else if next == [] then Err(EmptySeparator)
    else
      Ok(SplitSentencesWithNewline(SplitOn(Last(SplitOn(flat, title)), next)[0]))
  }

  /** The content of the last section, before stripping: the loop's last content is not
      cleared, so the final pages are appended to it. */
  function FinalContent(carry: string, raw: string, title: string): Result<string, PdfError>
  {
    if title == [] then Err(EmptySeparator)
    else Ok(SplitSentencesWithNewline(Last(SplitOn(Flatten(carry + raw), title))))
  }

  /** The raw text of the section of entry i-1, bounded by entry i: from its own start
      page through the start page of the next entry. */
  function ChapterRaw(toc: seq<TocEntry>, pages: seq<string>, i: nat): Result<string, PdfError>
    requires 0 < i < |toc|
  {
    PagesText(pages, toc[i - 1].page - 1, toc[i].page)
  }

  /** The raw text of the last section: from its start page to the end of the document. */
  function FinalRaw(toc: seq<TocEntry>, pages: seq<string>): Result<string, PdfError>
    requires |toc| > 0
  {
    PagesText(pages, toc[|toc| - 1].page - 1, |pages|)
  }

  function FinalSection(toc: seq<TocEntry>, pages: seq<string>, sections: seq<Section>, carry: string)
    : Result<seq<Section>, PdfError>
    requires |toc| > 0
  {
    var e := toc[|toc| - 1];
    match FinalRaw(toc, pages)
    case Err(err) => Err(err)
    case Ok(raw) =>
      match FinalContent(carry, raw, e.title)
      case Err(err) => Err(err)
      case Ok(c) => Ok(sections + [Section(e.title, e.page, Strip(c))])
  }

  /** The unstripped content of the section of entry i, for every entry but the last. */
  function BodyContent(toc: seq<TocEntry>, pages: seq<string>, i: nat): Result<string, PdfError>
    requires i + 1 < |toc|
  {
    match ChapterRaw(toc, pages, i + 1)
    case Err(err) => Err(err)
    case Ok(raw) => ChapterContent(raw, toc[i].title, toc[i + 1].title)
  }

  /** The loop of process_pdf from entry i on, with the sections built so far and the
      content of the previous section. */
  function Loop(toc: seq<TocEntry>, pages: seq<string>, i: nat, sections: seq<Section>, carry: string)
    : Result<seq<Section>, PdfError>
    requires 0 < i <= |toc|
    decreases |toc| - i
  {
    if i == |toc| then FinalSection(toc, pages, sections, carry)
    else
      match BodyContent(toc, pages, i - 1)
      case Err(err) => Err(err)
      case Ok(c) => Loop(toc, pages, i + 1, sections + [Section(toc[i - 1].title, toc[i - 1].page, Strip(c))], c)
  }

  function Sections(toc: seq<TocEntry>, pages: seq<string>): Result<seq<Section>, PdfError>
  {
    if |toc| == 0 then Err(EmptyToc)
    else if |toc| == 1 then Err(UnboundLastEntry)
    else Loop(toc, pages, 1, [], [])
  }

  /** The content of the section titled title, cut from the flattened text of its pages
      at the next title. */
  method CutChapter(raw: string, title: string, next: string) returns (r: Result<string, PdfError>)
    ensures r == ChapterContent(raw, title, next)
  {
    var flat := Flatten(raw);
    if SingleWord(title) {
      if next == "" || title == "" {
        return Err(EmptySeparator);
      }
      var before := SplitOn(flat, next)[0];
      r := Ok(Join(SplitOn(before, title)[1..], title + " "));
    } else {
      if next == "" {
        return Err(EmptySeparator);
      }
      var pieces := SplitOn(flat, title);
      r := Ok(SplitSentencesWithNewline(SplitOn(pieces[|pieces| - 1], next)[0]));
    }
  }

  /** The content of the last section: the text after the last occurrence of its title in
      the previous content followed by the final pages. */
  method CutFinal(carry: string, raw: string, title: string) returns (r: Result<string, PdfError>)
    ensures r == FinalContent(carry, raw, title)
  {
    if title == "" {
      return Err(EmptySeparator);
    }
    var flat := Flatten(carry + raw);
    var pieces := SplitOn(flat, title);
    r := Ok(SplitSentencesWithNewline(pieces[|pieces| - 1]));
  }

  method ProcessPdf(toc: seq<TocEntry>, pages: seq<string>) returns (r: Result<seq<Section>, PdfError>)
    ensures r == Sections(toc, pages)
  {
    if |toc| == 0 {
      return Err(EmptyToc);
    }
    var lastName := toc[0].title;
    var lastPage := toc[0].page;
    var sections: seq<Section> := [];
    var chapterContent := "";
    if |toc| == 1 {
      return Err(UnboundLastEntry);
    }
    var i := 1;
    while i < |toc|
      invariant 1 <= i <= |toc|
      invariant lastName == toc[i - 1].title && lastPage == toc[i - 1].page
      invariant Loop(toc, pages, i, sections, chapterContent) == Sections(toc, pages)
    {
      var currentName := toc[i].title;
      var currentPage := toc[i].page;
      var raw := PagesText(pages, lastPage - 1, currentPage);
      if raw.Err? {
        return Err(raw.error);
      }
      var cut := CutChapter(raw.value, lastName, currentName);
      if cut.Err? {
        return Err(cut.error);
      }
      chapterContent := cut.value;
      sections := sections + [Section(lastName, lastPage, Strip(chapterContent))];
      lastName := currentName;
      lastPage := currentPage;
      i := i + 1;
    }
    var finalName := toc[|toc| - 1].title;
    var finalPage := toc[|toc| - 1].page;
    var raw := PagesText(pages, finalPage - 1, |pages|);
    if raw.Err? {
      return Err(raw.error);
    }
    var cut := CutFinal(chapterContent, raw.value, finalName);
    if cut.Err? {
      return Err(cut.error);
    }
    r := Ok(sections + [Section(finalName, finalPage, Strip(cut.value))]);
  }

  // ---------------------------------------------------------------- what the sections are

  /** The section of entry i, for every entry but the last: its content depends only on
      the pages of that entry and on its own and the next title. */
  function BodySection(toc: seq<TocEntry>, pages: seq<string>, i: nat): Result<Section, PdfError>
    requires i + 1 < |toc|
  {
    match BodyContent(toc, pages, i)
    case Err(err) => Err(err)
    case Ok(c) => Ok(Section(toc[i].title, toc[i].page, Strip(c)))
  }

  /** The last section: cut after the last occurrence of its title in the previous
      section's content followed by the pages from its own start page to the end. */
  function LastSectionOf(toc: seq<TocEntry>, pages: seq<string>): Result<Section, PdfError>
    requires |toc| >= 2
  {
    var e := toc[|toc| - 1];
    match BodyContent(toc, pages, |toc| - 2)
    case Err(err) => Err(err)
    case Ok(carry) =>
      match FinalRaw(toc, pages)
      case Err(err) => Err(err)
      case Ok(raw) =>
        match FinalContent(carry, raw, e.title)
        case Err(err) => Err(err)
        case Ok(c) => Ok(Section(e.title, e.page, Strip(c)))
  }

  /** What process_pdf needs of an entry: a non-empty title to split on, and a start page
      that doc.pages accepts (an empty document accepts every start). */
  predicate EntryOk(e: TocEntry, pageCount: nat)
  {
    e.title != [] && (pageCount == 0 || e.page - 1 < pageCount)
  }

  predicate EntriesOk(toc: seq<TocEntry>, pageCount: nat)
  {
    forall i :: 0 <= i < |toc| ==> EntryOk(toc[i], pageCount)
  }

  lemma ChapterContentOk(raw: string, title: string, next: string)
    ensures ChapterContent(raw, title, next).Ok? <==> title != [] && next != []
  {
  }

  /** The sections tail[k] are those of the entries from + k: same title and page,
      stripped content, and for every entry but the last the content BodySection gives. */
  predicate Matches(tail: seq<Section>, toc: seq<TocEntry>, pages: seq<string>, from: nat)
  {
    |tail| + from == |toc|
    && (forall k :: 0 <= k < |tail| ==>
          tail[k].title == toc[from + k].title && tail[k].page == toc[from + k].page
          && IsStripped(tail[k].content))
    && (forall k :: 0 <= k < |tail| - 1 ==> Ok(tail[k]) == BodySection(toc, pages, from + k))
  }

  lemma MatchesCons(s: Section, tail: seq<Section>, toc: seq<TocEntry>, pages: seq<string>, from: nat)
    requires from + 1 < |toc| && Matches(tail, toc, pages, from + 1)
    requires s.title == toc[from].title && s.page == toc[from].page && IsStripped(s.content)
    requires Ok(s) == BodySection(toc, pages, from)
    ensures Matches([s] + tail, toc, pages, from)
  {
    var t := [s] + tail;
    forall k | 0 <= k < |t|
      ensures t[k].title == toc[from + k].title && t[k].page == toc[from + k].page
      ensures IsStripped(t[k].content)
    {
      if k > 0 {
        assert t[k] == tail[k - 1];
      }
    }
    forall k | 0 <= k < |t| - 1
      ensures Ok(t[k]) == BodySection(toc, pages, from + k)
    {
      if k > 0 {
        assert t[k] == tail[k - 1];
      }
    }
  }

  lemma {:induction false} LoopOk(toc: seq<TocEntry>, pages: seq<string>, i: nat, sections: seq<Section>, carry: string)
    requires 0 < i <= |toc|
    ensures Loop(toc, pages, i, sections, carry).Ok? <==> EntriesFrom(toc, |pages|, i - 1)
    decreases |toc| - i
  {
    EntriesFromStep(toc, |pages|, i - 1);
    if i == |toc| {
      FinalSectionOk(toc, pages, sections, carry);
    } else {
      EntriesFromStep(toc, |pages|, i);
      var cc := BodyContentOk(toc, pages, i - 1);
      LoopUnfold(toc, pages, i, sections, carry, cc);
      if cc.Ok? {
        LoopOk(toc, pages, i + 1, sections + [Section(toc[i - 1].title, toc[i - 1].page, Strip(cc.value))], cc.value);
      }
    }
  }

  /** One entry of the loop, given the content cut for it. */
  lemma LoopUnfold(toc: seq<TocEntry>, pages: seq<string>, i: nat, sections: seq<Section>, carry: string,
                   cc: Result<string, PdfError>)
    requires 0 < i < |toc| && cc == BodyContent(toc, pages, i - 1)
    ensures cc.Err? ==> Loop(toc, pages, i, sections, carry).Err?
    ensures cc.Ok? ==>
      Loop(toc, pages, i, sections, carry)
      == Loop(toc, pages, i + 1, sections + [Section(toc[i - 1].title, toc[i - 1].page, Strip(cc.value))], cc.value)
  {
  }

  /** The final step succeeds exactly when the last entry is usable. */
  lemma FinalSectionOk(toc: seq<TocEntry>, pages: seq<string>, sections: seq<Section>, carry: string)
    requires |toc| > 0
    ensures FinalSection(toc, pages, sections, carry).Ok? <==> EntryOk(toc[|toc| - 1], |pages|)
  {
  }

  /** Cutting the section of entry i succeeds exactly when entry i is usable and the
      next title is non-empty. */
  lemma BodyContentOk(toc: seq<TocEntry>, pages: seq<string>, i: nat) returns (cc: Result<string, PdfError>)
    requires i + 1 < |toc|
    ensures cc == BodyContent(toc, pages, i)
    ensures cc.Ok? <==> EntryOk(toc[i], |pages|) && toc[i + 1].title != []
  {
    cc := BodyContent(toc, pages, i);
    var raw := ChapterRaw(toc, pages, i + 1);
    if raw.Ok? {
      ChapterContentOk(raw.value, toc[i].title, toc[i + 1].title);
    }
  }

  /** Every entry from entry j on is usable. */
  predicate EntriesFrom(toc: seq<TocEntry>, pageCount: nat, j: nat)
  {
    forall k :: j <= k < |toc| ==> EntryOk(toc[k], pageCount)
  }

  lemma EntriesFromStep(toc: seq<TocEntry>, pageCount: nat, j: nat)
    requires j < |toc|
    ensures EntriesFrom(toc, pageCount, j) <==> EntryOk(toc[j], pageCount) && EntriesFrom(toc, pageCount, j + 1)
  {
  }

  /** The loop from entry i on keeps the sections built so far and appends one section
      per remaining entry. */
  lemma {:induction false} LoopSections(toc: seq<TocEntry>, pages: seq<string>, i: nat, sections: seq<Section>, carry: string)
    requires 0 < i <= |toc|
    requires Loop(toc, pages, i, sections, carry).Ok?
    ensures var r := Loop(toc, pages, i, sections, carry).value;
      |sections| <= |r| && r[..|sections|] == sections && Matches(r[|sections|..], toc, pages, i - 1)
    decreases |toc| - i
  {
    var r := Loop(toc, pages, i, sections, carry).value;
    if i == |toc| {
      LastSection(toc, pages, sections, carry);
    } else {
      var s, c := LoopStep(toc, pages, i, sections, carry);
      LoopSections(toc, pages, i + 1, sections + [s], c);
      SectionsPrefixStep(r, sections, s, toc, pages, i - 1);
    }
  }

  /** The loop at the last entry appends the final section. */
  lemma LastSection(toc: seq<TocEntry>, pages: seq<string>, sections: seq<Section>, carry: string)
    requires |toc| > 0 && Loop(toc, pages, |toc|, sections, carry).Ok?
    ensures var r := Loop(toc, pages, |toc|, sections, carry).value;
      |sections| <= |r| && r[..|sections|] == sections && Matches(r[|sections|..], toc, pages, |toc| - 1)
  {
    var e := toc[|toc| - 1];
    var c := FinalContent(carry, FinalRaw(toc, pages).value, e.title).value;
    var x := Section(e.title, e.page, Strip(c));
    assert Loop(toc, pages, |toc|, sections, carry).value == sections + [x];
    SnocParts(sections, x);
    assert Matches([x], toc, pages, |toc| - 1);
  }

  /** The section the loop appends last is LastSectionOf: the content carried into the
      final step is that of the second-to-last entry. */
  lemma {:induction false} LoopLast(toc: seq<TocEntry>, pages: seq<string>, i: nat, sections: seq<Section>, carry: string)
    requires 0 < i <= |toc| && |toc| >= 2 && Loop(toc, pages, i, sections, carry).Ok?
    requires i == |toc| ==> Ok(carry) == BodyContent(toc, pages, |toc| - 2)
    ensures var r := Loop(toc, pages, i, sections, carry).value;
      |r| > 0 && Ok(r[|r| - 1]) == LastSectionOf(toc, pages)
    decreases |toc| - i
  {
    if i < |toc| {
      var s, c := LoopStep(toc, pages, i, sections, carry);
      LoopLast(toc, pages, i + 1, sections + [s], c);
    }
  }

  /** One entry of the loop: the section it appends is the entry's BodySection. */
  lemma LoopStep(toc: seq<TocEntry>, pages: seq<string>, i: nat, sections: seq<Section>, carry: string)
    returns (s: Section, c: string)
    requires 0 < i < |toc| && Loop(toc, pages, i, sections, carry).Ok?
    ensures Ok(s) == BodySection(toc, pages, i - 1) && Ok(c) == BodyContent(toc, pages, i - 1)
    ensures s.title == toc[i - 1].title && s.page == toc[i - 1].page && IsStripped(s.content)
    ensures Loop(toc, pages, i, sections, carry) == Loop(toc, pages, i + 1, sections + [s], c)
  {
    var cc := BodyContent(toc, pages, i - 1);
    assert cc.Ok?;
    c := cc.value;
    s := Section(toc[i - 1].title, toc[i - 1].page, Strip(c));
  }

  lemma SnocParts<T>(xs: seq<T>, x: T)
    ensures (xs + [x])[..|xs|] == xs && (xs + [x])[|xs|..] == [x]
  {
  }

  /** A sequence that starts with xs and then x. */
  lemma PrefixThen<T>(r: seq<T>, xs: seq<T>, x: T)
    requires |xs| + 1 <= |r| && r[..|xs| + 1] == xs + [x]
    ensures r[..|xs|] == xs && r[|xs|..] == [x] + r[|xs| + 1..]
  {
    assert r[..|xs|] == r[..|xs| + 1][..|xs|];
    assert r[|xs|] == r[..|xs| + 1][|xs|];
  }

  /** One more section in front of the ones matched from entry from + 1 on. */
  lemma SectionsPrefixStep(r: seq<Section>, sections: seq<Section>, s: Section, toc: seq<TocEntry>, pages: seq<string>, from: nat)
    requires from + 1 < |toc|
    requires |sections + [s]| <= |r| && r[..|sections + [s]|] == sections + [s]
    requires Matches(r[|sections + [s]|..], toc, pages, from + 1)
    requires s.title == toc[from].title && s.page == toc[from].page && IsStripped(s.content)
    requires Ok(s) == BodySection(toc, pages, from)
    ensures |sections| <= |r| && r[..|sections|] == sections && Matches(r[|sections|..], toc, pages, from)
  {
    PrefixThen(r, sections, s);
    MatchesCons(s, r[|sections| + 1..], toc, pages, from);
  }

  /** process_pdf fails on an empty table of contents, fails on a one-entry one, and
      otherwise fails exactly when a title is empty or a start page lies past the end of
      a non-empty document. */
  lemma SectionsOk(toc: seq<TocEntry>, pages: seq<string>)
    ensures |toc| == 0 ==> Sections(toc, pages) == Err(EmptyToc)
    ensures |toc| == 1 ==> Sections(toc, pages) == Err(UnboundLastEntry)
    ensures Sections(toc, pages).Ok? <==> |toc| >= 2 && EntriesOk(toc, |pages|)
  {
    if |toc| >= 2 {
      LoopOk(toc, pages, 1, [], []);
    }
  }

  /** On success process_pdf gives one section per entry, in order, each with the entry's
      title and page and stripped content; the section of every entry but the last depends
      only on that entry's pages and the titles that bound it, and the last one is cut
      from the previous content followed by the final pages. */
  lemma SectionsShape(toc: seq<TocEntry>, pages: seq<string>)
    requires Sections(toc, pages).Ok?
    ensures var r := Sections(toc, pages).value;
      |r| == |toc|
      && (forall k :: 0 <= k < |toc| ==>
            r[k].title == toc[k].title && r[k].page == toc[k].page && IsStripped(r[k].content))
      && (forall k :: 0 <= k < |toc| - 1 ==> Ok(r[k]) == BodySection(toc, pages, k))
      && Ok(r[|toc| - 1]) == LastSectionOf(toc, pages)
  {
    assert Sections(toc, pages) == Loop(toc, pages, 1, [], []);
    var r := Sections(toc, pages).value;
    LoopSections(toc, pages, 1, [], []);
    assert r[0..] == r;
    assert Matches(r, toc, pages, 0);
    LoopLast(toc, pages, 1, [], []);
    assert |r| - 1 == |toc| - 1;
  }

  /** A one-word title that does not occur in the text before the next title gives an
      empty section. */
  lemma SingleWordTitleAbsent(raw: string, title: string, next: string)
    requires SingleWord(title) && title != [] && next != []
    requires !OccursIn(title, SplitOn(Flatten(raw), next)[0])
    ensures ChapterContent(raw, title, next) == Ok([])
  {
    SplitOnAbsent(SplitOn(Flatten(raw), next)[0], title);
  }

  /** The content of a one-word-titled section is not split into sentences: it holds no
      line break. */
  lemma SingleWordNoLineBreaks(raw: string, title: string, next: string)
    requires SingleWord(title) && '\n' !in title
    requires ChapterContent(raw, title, next).Ok?
    ensures '\n' !in ChapterContent(raw, title, next).value
  {
    var flat := Flatten(raw);
    SplitOnKeepsAbsent(flat, next, '\n');
    var before := SplitOn(flat, next)[0];
    SplitOnKeepsAbsent(before, title, '\n');
    var parts := SplitOn(before, title)[1..];
    assert forall k :: 0 <= k < |parts| ==> parts[k] == SplitOn(before, title)[k + 1];
    JoinKeepsAbsent(parts, title + " ", '\n');
  }

  /** The content of a section with a title of several words, and of the last section,
      is split into sentences: one per line, no blank line, curly quotes straightened. */
  lemma SplitSectionsAreSentences(raw: string, title: string, next: string)
    requires !SingleWord(title)
    requires ChapterContent(raw, title, next).Ok?
    ensures var c := ChapterContent(raw, title, next).value;
      IsStripped(c) && NoBlankLine(c) && LeftQuote !in c && RightQuote !in c
  {
    var flat := Flatten(raw);
    SplitSentencesFormat(SplitOn(Last(SplitOn(flat, title)), next)[0]);
  }

  /** The last section is cut from the previous section's content followed by the final
      pages: when the final title occurs in neither, the previous content reappears in it. */
  lemma FinalRepeatsPrevious(carry: string, raw: string, title: string)
    requires title != [] && !OccursIn(title, Flatten(carry + raw))
    ensures FinalContent(carry, raw, title) == Ok(SplitSentencesWithNewline(Flatten(carry + raw)))
  {
    SplitOnAbsent(Flatten(carry + raw), title);
  }

  /** Otherwise only the text after the last occurrence of the title is kept: a suffix
      of the text holding no occurrence of the title, right after one. */
  lemma FinalAfterLastTitle(carry: string, raw: string, title: string) returns (before: string, after: string)
    requires title != [] && OccursIn(title, Flatten(carry + raw))
    ensures Flatten(carry + raw) == before + title + after && !OccursIn(title, after)
    ensures FinalContent(carry, raw, title) == Ok(SplitSentencesWithNewline(after))
  {
    var flat := Flatten(carry + raw);
    var ps := SplitOn(flat, title);
    var pre := SplitOnLastPiece(flat, title);
    SplitOnCuts(flat, title);
    before := pre[..|pre| - |title|];
    after := ps[|ps| - 1];
    assert pre == before + title;
  }
}
