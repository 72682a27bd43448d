/** create_dtbook_xml (src/doc_process/process_xml.py): the DAISY 3 (ANSI/NISO Z39.86-2005)
    DTBook text of a book, one <level1> per section, every sentence tagged with an id. */
module Dtbook {
  import opened Text
  import opened Chunker
  import opened Segmenter

  // ---------------------------------------------------------------- escaping

  /** What xml.sax.saxutils.escape does to one character: the three characters XML 1.0
      (section 2.4) reserves in character data become entity references. */
  function EscapeChar(c: char): string
  {
    if c == '&' then "&amp;" else if c == '<' then "&lt;" else if c == '>' then "&gt;" else [c]
  }

  function Escape(s: string): string
  {
    if |s| == 0 then [] else EscapeChar(s[0]) + Escape(s[1..])
  }

  /** The inverse reading: entity references back to their characters. */
  function Unescape(s: string): string
  {
    if |s| == 0 then []
    else if "&amp;" <= s then "&" + Unescape(s[5..])
    else if "&lt;" <= s then "<" + Unescape(s[4..])
    else if "&gt;" <= s then ">" + Unescape(s[4..])
    else [s[0]] + Unescape(s[1..])
  }

  /** Text with no raw '<' or '>', in which every '&' starts one of the three entities. */
  predicate WellEscaped(s: string)
  {
    if |s| == 0 then true
    else if "&amp;" <= s then WellEscaped(s[5..])
    else if "&lt;" <= s || "&gt;" <= s then WellEscaped(s[4..])
    else s[0] != '&' && s[0] != '<' && s[0] != '>' && WellEscaped(s[1..])
  }

  lemma EscapeCons(c: char, s: string)
    ensures Escape([c] + s) == EscapeChar(c) + Escape(s)
  {
    assert ([c] + s)[1..] == s;
  }

  lemma UnescapeStep(c: char, rest: string)
    ensures Unescape(EscapeChar(c) + rest) == [c] + Unescape(rest)
    ensures WellEscaped(EscapeChar(c) + rest) == WellEscaped(rest)
  {
    var t := EscapeChar(c) + rest;
    if c == '&' {
      assert "&amp;" <= t && t[5..] == rest;
    } else if c == '<' {
      assert t[1] == 'l' && "&lt;" <= t && t[4..] == rest;
    } else if c == '>' {
      assert t[1] == 'g' && "&gt;" <= t && t[4..] == rest;
    } else {
      assert t[0] == c && t[1..] == rest;
    }
  }

  /** Escaped text is well escaped and reads back as the original text. */
  lemma {:induction false} EscapeRoundTrip(s: string)
    ensures WellEscaped(Escape(s))
    ensures Unescape(Escape(s)) == s
    decreases |s|
  {
    if |s| > 0 {
      EscapeRoundTrip(s[1..]);
      UnescapeStep(s[0], Escape(s[1..]));
      assert s == [s[0]] + s[1..];
    }
  }

  /** Well-escaped text holds no raw '<' or '>'. */
  lemma {:induction false} WellEscapedNoMarkup(s: string)
    requires WellEscaped(s)
    ensures '<' !in s && '>' !in s
    decreases |s|
  {
    if |s| > 0 {
      if "&amp;" <= s {
        WellEscapedNoMarkup(s[5..]);
        assert s[..5] == "&amp;";
        NoMarkupSplit(s, 5);
      } else if "&lt;" <= s || "&gt;" <= s {
        WellEscapedNoMarkup(s[4..]);
        assert s[..4] == "&lt;" || s[..4] == "&gt;";
        NoMarkupSplit(s, 4);
      } else {
        WellEscapedNoMarkup(s[1..]);
        NoMarkupSplit(s, 1);
      }
    }
  }

  lemma NoMarkupSplit(s: string, k: nat)
    requires k <= |s| && '<' !in s[..k] && '>' !in s[..k] && '<' !in s[k..] && '>' !in s[k..]
    ensures '<' !in s && '>' !in s
  {
    assert s == s[..k] + s[k..];
  }

  /** Escaping changes nothing in text without '&', '<' and '>'. */
  lemma {:induction false} EscapePlain(s: string)
    requires '&' !in s && '<' !in s && '>' !in s
    ensures Escape(s) == s
    decreases |s|
  {
    if |s| > 0 {
      EscapePlain(s[1..]);
      assert s == [s[0]] + s[1..];
    }
  }

  // ---------------------------------------------------------------- ids

  /** The id of a section's heading sentence: c{idx}_title. */
  function TitleId(idx: nat): string
  {
    "c" + NatToString(idx) + "_title"
  }

  /** The id of sentence n of section idx: c{idx}_c{n}. */
  function SentId(idx: nat, n: nat): string
  {
    "c" + NatToString(idx) + "_c" + NatToString(n)
  }

  lemma ConsTail(c: char, s: string)
    ensures ([c] + s)[1..] == s
  {
  }

  lemma TailAfterC(i: nat, x: string, j: nat, y: string)
    requires |x| > 0 && !IsDigit(x[0]) && |y| > 0 && !IsDigit(y[0])
    requires "c" + NatToString(i) + x == "c" + NatToString(j) + y
    ensures i == j && x == y
  {
    Assoc("c", NatToString(i), x);
    Assoc("c", NatToString(j), y);
    ConsTail('c', NatToString(i) + x);
    ConsTail('c', NatToString(j) + y);
    DigitsThenMark(i, x, j, y);
  }

  /** Heading and sentence ids never coincide, and each names one section and position. */
  lemma IdsInjective(i: nat, n: nat, j: nat, m: nat)
    ensures TitleId(i) == TitleId(j) ==> i == j
    ensures SentId(i, n) == SentId(j, m) ==> i == j && n == m
    ensures TitleId(i) != SentId(j, m)
  {
    if TitleId(i) == TitleId(j) {
      TailAfterC(i, "_title", j, "_title");
    }
    if SentId(i, n) == SentId(j, m) {
      assert SentId(i, n) == "c" + NatToString(i) + ("_c" + NatToString(n));
      assert SentId(j, m) == "c" + NatToString(j) + ("_c" + NatToString(m));
      TailAfterC(i, "_c" + NatToString(n), j, "_c" + NatToString(m));
      assert ("_c" + NatToString(n))[2..] == NatToString(n);
      assert ("_c" + NatToString(m))[2..] == NatToString(m);
      NatToStringInjective(n, m);
    }
    assert SentId(j, m) == "c" + NatToString(j) + ("_c" + NatToString(m));
    assert "_title"[1] != ("_c" + NatToString(m))[1];
    if TitleId(i) == SentId(j, m) {
      TailAfterC(i, "_title", j, "_c" + NatToString(m));
    }
  }

  // ---------------------------------------------------------------- the sentences of a section

  /** A sentence to tag: its position n among the lines or chunks, and its stripped text. */
  datatype Item = Item(n: nat, text: string)

  /** enumerate(pieces), keeping the pieces that are not empty once stripped. */
  function Items(pieces: seq<string>): seq<Item>
  {
    if |pieces| == 0 then []
    else
      var i := |pieces| - 1;
      var init := Items(pieces[..i]);
      var s := Strip(pieces[i]);
      init + (if s != [] then [Item(i, s)] else [])
  }

  /** Each tagged sentence is the stripped, non-empty text of the piece at its position,
      and positions strictly increase (so they skip the blank pieces). */
  predicate SoundItems(pieces: seq<string>, r: seq<Item>)
  {
    ItemTexts(pieces, r) && Increasing(r)
  }

  predicate ItemTexts(pieces: seq<string>, r: seq<Item>)
  {
    forall k :: 0 <= k < |r| ==> r[k].n < |pieces| && r[k].text == Strip(pieces[r[k].n]) && r[k].text != []
  }

  predicate Increasing(r: seq<Item>)
  {
    forall k, l :: 0 <= k < l < |r| ==> r[k].n < r[l].n
  }

  /** Every piece that is not empty once stripped is tagged. */
  predicate CompleteItems(pieces: seq<string>, r: seq<Item>)
  {
    forall j :: 0 <= j < |pieces| && Strip(pieces[j]) != [] ==> exists k :: 0 <= k < |r| && r[k].n == j
  }

  lemma ItemsSound(pieces: seq<string>)
    ensures SoundItems(pieces, Items(pieces))
  {
    ItemsTextsHold(pieces);
    ItemsIncrease(pieces);
  }

  lemma {:induction false} ItemsTextsHold(pieces: seq<string>)
    ensures ItemTexts(pieces, Items(pieces))
    decreases |pieces|
  {
    if |pieces| > 0 {
      var i := |pieces| - 1;
      ItemsTextsHold(pieces[..i]);
      ItemTextsSnoc(pieces, Items(pieces[..i]));
    }
  }

  /** The items of the earlier pieces stay valid, and the last piece adds its own. */
  lemma ItemTextsSnoc(pieces: seq<string>, init: seq<Item>)
    requires |pieces| > 0 && ItemTexts(pieces[..|pieces| - 1], init)
    ensures var i := |pieces| - 1; var st := Strip(pieces[i]);
      ItemTexts(pieces, init + (if st != [] then [Item(i, st)] else []))
  {
    var i := |pieces| - 1;
    var st := Strip(pieces[i]);
    var r := init + (if st != [] then [Item(i, st)] else []);
    forall k | 0 <= k < |init|
      ensures r[k] == init[k] && pieces[..i][init[k].n] == pieces[init[k].n]
    {
    }
  }

  lemma {:induction false} ItemsIncrease(pieces: seq<string>)
    ensures Increasing(Items(pieces)) && forall k :: 0 <= k < |Items(pieces)| ==> Items(pieces)[k].n < |pieces|
    decreases |pieces|
  {
    if |pieces| > 0 {
      var i := |pieces| - 1;
      ItemsIncrease(pieces[..i]);
      IncreasingSnoc(Items(pieces[..i]), i, Strip(pieces[i]));
    }
  }

  /** An item numbered above all earlier ones keeps the numbers increasing. */
  lemma IncreasingSnoc(init: seq<Item>, i: nat, st: string)
    requires Increasing(init) && forall k :: 0 <= k < |init| ==> init[k].n < i
    ensures var r := init + (if st != [] then [Item(i, st)] else []);
      Increasing(r) && forall k :: 0 <= k < |r| ==> r[k].n < i + 1
  {
    var r := init + (if st != [] then [Item(i, st)] else []);
    forall k | 0 <= k < |init|
      ensures r[k] == init[k]
    {
    }
  }

  lemma {:induction false} ItemsCompleteAt(pieces: seq<string>, j: nat) returns (k: nat)
    requires j < |pieces| && Strip(pieces[j]) != []
    ensures k < |Items(pieces)| && Items(pieces)[k].n == j
    decreases |pieces|
  {
    var i := |pieces| - 1;
    if j == i {
      k := |Items(pieces[..i])|;
    } else {
      assert pieces[..i][j] == pieces[j];
      k := ItemsCompleteAt(pieces[..i], j);
      assert Items(pieces)[k] == Items(pieces[..i])[k];
    }
  }

  lemma ItemsComplete(pieces: seq<string>)
    ensures CompleteItems(pieces, Items(pieces))
  {
    forall j | 0 <= j < |pieces| && Strip(pieces[j]) != []
      ensures exists k :: 0 <= k < |Items(pieces)| && Items(pieces)[k].n == j
    {
      var k := ItemsCompleteAt(pieces, j);
    }
  }

  /** The lines (sentence mode) or chunks (chunk mode) of a section's content. */
  function Pieces(content: string, splitBySentence: bool, chunkSize: int): seq<string>
  {
    if splitBySentence then SplitOn(content, "\n") else Chunks(content, chunkSize)
  }

  /** A <sent> element of the body: the id is written as its data-pid and as its id. */
  function SentElement(id: string, text: string): string
  {
    "        <sent data-pid=\"" + id + "\" id=\"" + id + "\">" + Escape(text) + "</sent>\n"
  }

  function SentXml(idx: nat, item: Item): string
  {
    SentElement(SentId(idx, item.n), item.text)
  }

  function SentsXml(idx: nat, items: seq<Item>): string
  {
    if |items| == 0 then []
    else SentsXml(idx, items[..|items| - 1]) + SentXml(idx, items[|items| - 1])
  }

  /** The opening of a section's block, up to its paragraph: the page number and the
      heading, whose <sent> carries the id as its id and its data-pid. */
  function HeadingOpen(id: string, sec: Section): string
  {
    "      <level1 class=\"chapter\">\n"
    + "        <pagenum>" + IntToString(sec.page) + "</pagenum>\n"
    + "        <h1><sent id=\"" + id + "\" data-pid=\"" + id + "\">"
    + Escape(sec.title) + "</sent></h1>\n"
    + "          <p>\n"
  }

  function SectionOpen(idx: nat, sec: Section): string
  {
    HeadingOpen(TitleId(idx), sec)
  }

  const SectionClose := "          </p>\n      </level1>\n"

  function SectionXml(idx: nat, sec: Section, splitBySentence: bool, chunkSize: int): string
  {
    SectionOpen(idx, sec) + SentsXml(idx, Items(Pieces(sec.content, splitBySentence, chunkSize)))
    + SectionClose
  }

  /** The body: the sections' blocks in input order, numbered from 0. */
  function Body(sections: seq<Section>, splitBySentence: bool, chunkSize: int): string
  {
    if |sections| == 0 then []
    else
      var i := |sections| - 1;
      Body(sections[..i], splitBySentence, chunkSize) + SectionXml(i, sections[i], splitBySentence, chunkSize)
  }

  /** The fixed text of the document, kept in constants. */
  const Prolog := "<?xml version=\"1.0\" encoding=\"UTF-8\"?>\n"
    + "<!DOCTYPE dtbook PUBLIC \"-//NISO//DTD dtbook 2005-3//EN\"\n"
    + "    \"http://www.daisy.org/z3986/2005/dtbook-2005-3.dtd\">\n"
    + "<dtbook version=\"2005-3\" xml:lang=\""
  const RootClose := "\" xmlns=\"http://www.daisy.org/z3986/2005/dtbook/\">\n  <head>\n"
  const MetaOpen := "    <meta name=\""
  const MetaContent := "\" content=\""
  const MetaClose := "\"/>\n"
  const FormatMeta := "    <meta name=\"dc:Format\" content=\"ANSI/NISO Z39.86-2005\"/>\n"
  const FrontOpen := "  </head>\n  <book>\n    <frontmatter>\n      <doctitle>"
  const DocAuthor := "</doctitle>\n      <docauthor>"
  const FrontClose := "</docauthor>\n    </frontmatter>\n    <bodymatter>\n"

  /** One <meta> element of <head>, its content escaped. */
  function Meta(name: string, content: string): string
  {
    MetaOpen + name + MetaContent + Escape(content) + MetaClose
  }

  /** Everything before the first section: the XML declaration, the doctype, <head> with
      the Dublin Core metadata, and <frontmatter> with the title and the author. */
  function Header(title: string, author: string, publisher: string, lang: string, uid: string, date: string): string
  {
    Prolog + lang + RootClose
    + Meta("dc:Title", title) + Meta("dc:Creator", author) + Meta("dc:Publisher", publisher)
    + Meta("dc:Language", lang) + Meta("dc:Date", date) + FormatMeta + Meta("dc:Identifier", uid)
    + FrontOpen + Escape(title) + DocAuthor + Escape(author) + FrontClose
  }

  const Footer := "    </bodymatter>\n    <rearmatter></rearmatter>\n  </book>\n</dtbook>\n"

  lemma ItemsSnoc(pieces: seq<string>, n: nat)
    requires n < |pieces|
    ensures Items(pieces[..n + 1])
         == Items(pieces[..n]) + (if Strip(pieces[n]) != [] then [Item(n, Strip(pieces[n]))] else [])
  {
    assert pieces[..n + 1][..n] == pieces[..n];
  }

  lemma SentsXmlSnoc(idx: nat, items: seq<Item>, it: Item)
    ensures SentsXml(idx, items + [it]) == SentsXml(idx, items) + SentXml(idx, it)
  {
    assert (items + [it])[..|items|] == items;
  }

  lemma BodySnoc(sections: seq<Section>, idx: nat, splitBySentence: bool, chunkSize: int)
    requires idx < |sections|
    ensures Body(sections[..idx + 1], splitBySentence, chunkSize)
         == Body(sections[..idx], splitBySentence, chunkSize) + SectionXml(idx, sections[idx], splitBySentence, chunkSize)
  {
    assert sections[..idx + 1][..idx] == sections[..idx];
  }

  /** The inner loop of create_dtbook_xml: one <sent> per piece that is not empty once
      stripped, appended to body. */
  method AppendSentences(body: string, idx: nat, pieces: seq<string>) returns (out: string)
    ensures out == body + SentsXml(idx, Items(pieces))
  {
    out := body;
    for n := 0 to |pieces|
      invariant out == body + SentsXml(idx, Items(pieces[..n]))
    {
      var line := Strip(pieces[n]);
      ItemsSnoc(pieces, n);
      if line != "" {
        SentsXmlSnoc(idx, Items(pieces[..n]), Item(n, line));
        Assoc(body, SentsXml(idx, Items(pieces[..n])), SentXml(idx, Item(n, line)));
        out := out + SentXml(idx, Item(n, line));
      } else {
        assert Items(pieces[..n + 1]) == Items(pieces[..n]);
      }
    }
    assert pieces[..|pieces|] == pieces;
  }

  /** The text create_dtbook_xml writes to output_path, built as the source grows
      body_content. */
  method CreateDtbookXml(sections: seq<Section>, title: string, author: string, publisher: string,
                         lang: string, uid: string, date: string, splitBySentence: bool, chunkSize: int)
    returns (doc: string)
    ensures doc == Header(title, author, publisher, lang, uid, date) + Body(sections, splitBySentence, chunkSize) + Footer
  {
    var header := Header(title, author, publisher, lang, uid, date);
    var body := "";
    for idx := 0 to |sections|
      invariant body == Body(sections[..idx], splitBySentence, chunkSize)
    {
      var sec := sections[idx];
      ghost var prior := body;
      body := body + SectionOpen(idx, sec);
      var pieces: seq<string>;
      if splitBySentence {
        pieces := SplitOn(sec.content, "\n");
      } else {
        pieces := ChunkSentences(sec.content, chunkSize);
      }
      assert pieces == Pieces(sec.content, splitBySentence, chunkSize);
      body := AppendSentences(body, idx, pieces);
      body := body + SectionClose;
      Assoc4(prior, SectionOpen(idx, sec), SentsXml(idx, Items(pieces)), SectionClose);
      BodySnoc(sections, idx, splitBySentence, chunkSize);
    }
    assert sections[..|sections|] == sections;
    doc := header + body + Footer;
  }

  // ---------------------------------------------------------------- distinct ids

  /** The ids the body writes, in order: one heading and its sentences per section. */
  datatype Key = TitleKey(idx: nat) | SentKey(idx: nat, n: nat)

  function IdOf(k: Key): string
  {
    match k
    case TitleKey(i) => TitleId(i)
    case SentKey(i, n) => SentId(i, n)
  }

  function SentKeys(idx: nat, items: seq<Item>): (ks: seq<Key>)
    ensures |ks| == |items|
  {
    seq(|items|, k requires 0 <= k < |items| => SentKey(idx, items[k].n))
  }

  function SectionKeys(idx: nat, items: seq<Item>): seq<Key>
  {
    [TitleKey(idx)] + SentKeys(idx, items)
  }

  function BodyKeys(sections: seq<Section>, splitBySentence: bool, chunkSize: int): seq<Key>
  {
    if |sections| == 0 then []
    else
      var i := |sections| - 1;
      BodyKeys(sections[..i], splitBySentence, chunkSize)
      + SectionKeys(i, Items(Pieces(sections[i].content, splitBySentence, chunkSize)))
  }

  /** Document order of keys: by section, the heading before the sentences, then by position. */
  function Rank(k: Key): int
  {
    if k.TitleKey? then -1 else k.n
  }

  predicate Before(a: Key, b: Key)
  {
    a.idx < b.idx || (a.idx == b.idx && Rank(a) < Rank(b))
  }

  predicate Ordered(ks: seq<Key>)
  {
    forall p, q :: 0 <= p < q < |ks| ==> Before(ks[p], ks[q])
  }

  predicate AllBelow(ks: seq<Key>, n: nat)
  {
    forall p :: 0 <= p < |ks| ==> ks[p].idx < n
  }

  lemma SectionKeysOrdered(idx: nat, items: seq<Item>)
    requires forall k, l :: 0 <= k < l < |items| ==> items[k].n < items[l].n
    ensures Ordered(SectionKeys(idx, items))
    ensures forall p :: 0 <= p < |SectionKeys(idx, items)| ==> SectionKeys(idx, items)[p].idx == idx
  {
    var ks := SectionKeys(idx, items);
    forall p, q | 0 <= p < q < |ks|
      ensures Before(ks[p], ks[q])
    {
      assert ks[q] == SentKey(idx, items[q - 1].n);
      if p > 0 {
        assert ks[p] == SentKey(idx, items[p - 1].n);
      }
    }
  }

  /** The keys of the body come in strictly increasing document order. */
  lemma {:induction false} BodyKeysOrdered(sections: seq<Section>, splitBySentence: bool, chunkSize: int)
    ensures AllBelow(BodyKeys(sections, splitBySentence, chunkSize), |sections|)
    ensures Ordered(BodyKeys(sections, splitBySentence, chunkSize))
    decreases |sections|
  {
    if |sections| > 0 {
      var i := |sections| - 1;
      var init := BodyKeys(sections[..i], splitBySentence, chunkSize);
      var items := Items(Pieces(sections[i].content, splitBySentence, chunkSize));
      var last := SectionKeys(i, items);
      assert BodyKeys(sections, splitBySentence, chunkSize) == init + last;
      BodyKeysOrdered(sections[..i], splitBySentence, chunkSize);
      ItemsSound(Pieces(sections[i].content, splitBySentence, chunkSize));
      SectionKeysOrdered(i, items);
      KeysConcat(init, last, i);
    }
  }

  lemma KeysConcat(init: seq<Key>, last: seq<Key>, i: nat)
    requires AllBelow(init, i) && Ordered(init) && Ordered(last)
    requires forall p :: 0 <= p < |last| ==> last[p].idx == i
    ensures AllBelow(init + last, i + 1) && Ordered(init + last)
  {
    var ks := init + last;
    forall p | 0 <= p < |ks|
      ensures ks[p].idx < i + 1
    {
      if p < |init| {
        assert ks[p] == init[p];
      } else {
        assert ks[p] == last[p - |init|];
      }
    }
    forall p, q | 0 <= p < q < |ks|
      ensures Before(ks[p], ks[q])
    {
      if q < |init| {
        assert ks[p] == init[p] && ks[q] == init[q];
      } else if p < |init| {
        assert ks[p] == init[p] && ks[q] == last[q - |init|];
      } else {
        assert ks[p] == last[p - |init|] && ks[q] == last[q - |init|];
      }
    }
  }

  /** All ids written in the body are distinct. */
  lemma BodyIdsDistinct(sections: seq<Section>, splitBySentence: bool, chunkSize: int)
    ensures forall p, q :: 0 <= p < q < |BodyKeys(sections, splitBySentence, chunkSize)| ==>
      IdOf(BodyKeys(sections, splitBySentence, chunkSize)[p]) != IdOf(BodyKeys(sections, splitBySentence, chunkSize)[q])
  {
    var ks := BodyKeys(sections, splitBySentence, chunkSize);
    BodyKeysOrdered(sections, splitBySentence, chunkSize);
    forall p, q | 0 <= p < q < |ks|
      ensures IdOf(ks[p]) != IdOf(ks[q])
    {
      var a := ks[p];
      var b := ks[q];
      assert Before(a, b);
      IdsInjective(a.idx, if a.SentKey? then a.n else 0, b.idx, if b.SentKey? then b.n else 0);
      IdsInjective(b.idx, if b.SentKey? then b.n else 0, a.idx, if a.SentKey? then a.n else 0);
    }
  }

  // ---------------------------------------------------------------- the ids are the keys

  /** The text the body writes for a key: for a heading, the close of the section before
      it, if any, and the heading's opening; for a sentence, its <sent> element. The only
      id each writes is IdOf(k). */
  function Fragment(sections: seq<Section>, splitBySentence: bool, chunkSize: int, k: Key): string
  {
    match k
    case TitleKey(i) =>
      (if i > 0 then SectionClose else []) + (if i < |sections| then HeadingOpen(IdOf(k), sections[i]) else [])
    case SentKey(i, n) =>
      if i < |sections| && n < |Pieces(sections[i].content, splitBySentence, chunkSize)| then
        SentElement(IdOf(k), Strip(Pieces(sections[i].content, splitBySentence, chunkSize)[n]))
      else []
  }

  /** The fragments of the keys, in order. */
  function Fragments(sections: seq<Section>, splitBySentence: bool, chunkSize: int, ks: seq<Key>): string
  {
    if |ks| == 0 then []
    else Fragments(sections, splitBySentence, chunkSize, ks[..|ks| - 1])
         + Fragment(sections, splitBySentence, chunkSize, ks[|ks| - 1])
  }

  /** The body is the fragments of its keys in order, then the close of the last section:
      the id attributes it writes are exactly IdOf of BodyKeys, in that order. */
  lemma BodyIsFragments(sections: seq<Section>, splitBySentence: bool, chunkSize: int)
    ensures Body(sections, splitBySentence, chunkSize)
         == Fragments(sections, splitBySentence, chunkSize, BodyKeys(sections, splitBySentence, chunkSize))
            + (if |sections| > 0 then SectionClose else [])
  {
    BodyPrefixFragments(sections, splitBySentence, chunkSize, |sections|);
    assert sections[..|sections|] == sections;
  }

  lemma {:induction false} BodyPrefixFragments(sections: seq<Section>, splitBySentence: bool, chunkSize: int, m: nat)
    requires m <= |sections|
    ensures Body(sections[..m], splitBySentence, chunkSize)
         == Fragments(sections, splitBySentence, chunkSize, BodyKeys(sections[..m], splitBySentence, chunkSize))
            + (if m > 0 then SectionClose else [])
    decreases m
  {
    if m > 0 {
      var i := m - 1;
      BodyPrefixFragments(sections, splitBySentence, chunkSize, i);
      BodySnoc(sections, i, splitBySentence, chunkSize);
      KeysStepFragments(sections, i, splitBySentence, chunkSize);
      SectionFragments(sections, i, splitBySentence, chunkSize);
      assert m == i + 1;
      Assoc(Fragments(sections, splitBySentence, chunkSize, BodyKeys(sections[..i], splitBySentence, chunkSize)),
            if i > 0 then SectionClose else [], SectionXml(i, sections[i], splitBySentence, chunkSize));
    }
  }

  /** The fragments of the keys of one more section: those before, then its heading's and its
      sentences'. */
  lemma KeysStepFragments(sections: seq<Section>, i: nat, splitBySentence: bool, chunkSize: int)
    requires i < |sections|
    ensures var sents := SentKeys(i, Items(Pieces(sections[i].content, splitBySentence, chunkSize)));
            (Fragments(sections, splitBySentence, chunkSize, BodyKeys(sections[..i + 1], splitBySentence, chunkSize))
             + SectionClose
             == Fragments(sections, splitBySentence, chunkSize, BodyKeys(sections[..i], splitBySentence, chunkSize))
                + (Fragments(sections, splitBySentence, chunkSize, [TitleKey(i)])
                   + Fragments(sections, splitBySentence, chunkSize, sents) + SectionClose))
  {
    var items := Items(Pieces(sections[i].content, splitBySentence, chunkSize));
    var init := BodyKeys(sections[..i], splitBySentence, chunkSize);
    BodyKeysSnoc(sections, i, splitBySentence, chunkSize);
    FragmentsConcat(sections, splitBySentence, chunkSize, init, [TitleKey(i)]);
    FragmentsConcat(sections, splitBySentence, chunkSize, init + [TitleKey(i)], SentKeys(i, items));
    SeqAssoc(init, [TitleKey(i)], SentKeys(i, items));
    Assoc4(Fragments(sections, splitBySentence, chunkSize, init), Fragments(sections, splitBySentence, chunkSize, [TitleKey(i)]),
           Fragments(sections, splitBySentence, chunkSize, SentKeys(i, items)), SectionClose);
  }

  /** The fragments of a section's own keys, closed, are the close of the section before it,
      if any, and the section's block. */
  lemma SectionFragments(sections: seq<Section>, i: nat, splitBySentence: bool, chunkSize: int)
    requires i < |sections|
    ensures var sents := SentKeys(i, Items(Pieces(sections[i].content, splitBySentence, chunkSize)));
            (Fragments(sections, splitBySentence, chunkSize, [TitleKey(i)])
             + Fragments(sections, splitBySentence, chunkSize, sents) + SectionClose
             == (if i > 0 then SectionClose else []) + SectionXml(i, sections[i], splitBySentence, chunkSize))
  {
    var items := Items(Pieces(sections[i].content, splitBySentence, chunkSize));
    TitleFragment(sections, splitBySentence, chunkSize, i);
    ItemsSound(Pieces(sections[i].content, splitBySentence, chunkSize));
    SentsFragments(sections, splitBySentence, chunkSize, i, items);
    Assoc4(if i > 0 then SectionClose else [], SectionOpen(i, sections[i]), SentsXml(i, items), SectionClose);
  }

  lemma BodyKeysSnoc(sections: seq<Section>, i: nat, splitBySentence: bool, chunkSize: int)
    requires i < |sections|
    ensures BodyKeys(sections[..i + 1], splitBySentence, chunkSize)
         == BodyKeys(sections[..i], splitBySentence, chunkSize)
            + SectionKeys(i, Items(Pieces(sections[i].content, splitBySentence, chunkSize)))
  {
    assert sections[..i + 1][..i] == sections[..i];
  }

  lemma TitleFragment(sections: seq<Section>, splitBySentence: bool, chunkSize: int, i: nat)
    requires i < |sections|
    ensures Fragments(sections, splitBySentence, chunkSize, [TitleKey(i)])
         == (if i > 0 then SectionClose else []) + SectionOpen(i, sections[i])
  {
    assert [TitleKey(i)][..0] == [];
  }

  lemma SeqAssoc<T>(a: seq<T>, b: seq<T>, c: seq<T>)
    ensures a + (b + c) == a + b + c
  {
  }

  lemma {:induction false} FragmentsConcat(sections: seq<Section>, splitBySentence: bool, chunkSize: int, a: seq<Key>, b: seq<Key>)
    ensures Fragments(sections, splitBySentence, chunkSize, a + b)
         == Fragments(sections, splitBySentence, chunkSize, a) + Fragments(sections, splitBySentence, chunkSize, b)
    decreases |b|
  {
    if |b| == 0 {
      assert a + b == a;
    } else {
      var b' := b[..|b| - 1];
      var k := b[|b| - 1];
      SnocSplit(a, b);
      FragmentsSnoc(sections, splitBySentence, chunkSize, a + b', k);
      FragmentsSnoc(sections, splitBySentence, chunkSize, b', k);
      FragmentsConcat(sections, splitBySentence, chunkSize, a, b');
      Assoc(Fragments(sections, splitBySentence, chunkSize, a), Fragments(sections, splitBySentence, chunkSize, b'),
            Fragment(sections, splitBySentence, chunkSize, k));
    }
  }

  lemma SnocSplit<T>(a: seq<T>, b: seq<T>)
    requires |b| > 0
    ensures a + b[..|b| - 1] + [b[|b| - 1]] == a + b
    ensures b[..|b| - 1] + [b[|b| - 1]] == b
  {
  }

  lemma FragmentsSnoc(sections: seq<Section>, splitBySentence: bool, chunkSize: int, ks: seq<Key>, k: Key)
    ensures Fragments(sections, splitBySentence, chunkSize, ks + [k])
         == Fragments(sections, splitBySentence, chunkSize, ks) + Fragment(sections, splitBySentence, chunkSize, k)
  {
    assert (ks + [k])[..|ks|] == ks;
  }

  /** The sentences of a section are the fragments of its sentence keys. */
  lemma {:induction false} SentsFragments(sections: seq<Section>, splitBySentence: bool, chunkSize: int, i: nat, items: seq<Item>)
    requires i < |sections|
    requires ItemTexts(Pieces(sections[i].content, splitBySentence, chunkSize), items)
    ensures Fragments(sections, splitBySentence, chunkSize, SentKeys(i, items)) == SentsXml(i, items)
    decreases |items|
  {
    if |items| > 0 {
      var init := items[..|items| - 1];
      var it := items[|items| - 1];
      var pieces := Pieces(sections[i].content, splitBySentence, chunkSize);
      ItemTextsPrefix(pieces, items);
      SentsFragments(sections, splitBySentence, chunkSize, i, init);
      SentsFragmentsStep(sections, splitBySentence, chunkSize, i, pieces, init, it);
      SnocSplit([], items);
    }
  }

  lemma SentsFragmentsStep(sections: seq<Section>, splitBySentence: bool, chunkSize: int, i: nat, pieces: seq<string>,
                           init: seq<Item>, it: Item)
    requires i < |sections| && pieces == Pieces(sections[i].content, splitBySentence, chunkSize)
    requires it.n < |pieces| && it.text == Strip(pieces[it.n])
    requires Fragments(sections, splitBySentence, chunkSize, SentKeys(i, init)) == SentsXml(i, init)
    ensures Fragments(sections, splitBySentence, chunkSize, SentKeys(i, init + [it])) == SentsXml(i, init + [it])
  {
    SentKeysSnoc(i, init, it);
    FragmentsSnoc(sections, splitBySentence, chunkSize, SentKeys(i, init), SentKey(i, it.n));
    SentFragment(sections, splitBySentence, chunkSize, i, pieces, it);
    SentsXmlSnoc(i, init, it);
  }

  lemma ItemTextsPrefix(pieces: seq<string>, items: seq<Item>)
    requires |items| > 0 && ItemTexts(pieces, items)
    ensures ItemTexts(pieces, items[..|items| - 1])
    ensures items[|items| - 1].n < |pieces| && items[|items| - 1].text == Strip(pieces[items[|items| - 1].n])
  {
    var init := items[..|items| - 1];
    forall k | 0 <= k < |init|
      ensures init[k] == items[k]
    {
    }
  }

  lemma SentKeysSnoc(idx: nat, items: seq<Item>, it: Item)
    ensures SentKeys(idx, items + [it]) == SentKeys(idx, items) + [SentKey(idx, it.n)]
  {
  }

  /** A sentence's fragment is its <sent> element. */
  lemma SentFragment(sections: seq<Section>, splitBySentence: bool, chunkSize: int, i: nat, pieces: seq<string>, it: Item)
    requires i < |sections| && pieces == Pieces(sections[i].content, splitBySentence, chunkSize)
    requires it.n < |pieces| && it.text == Strip(pieces[it.n])
    ensures Fragment(sections, splitBySentence, chunkSize, SentKey(i, it.n)) == SentXml(i, it)
  {
  }


  // ---------------------------------------------------------------- what is tagged

  /** Chunk mode tags each non-empty chunk of chunk_sentences, numbered by chunk position,
      with the chunk's own text. */
  lemma ChunkModeItems(content: string, chunkSize: int)
    ensures forall k :: 0 <= k < |Items(Chunks(content, chunkSize))| ==>
      Items(Chunks(content, chunkSize))[k].n < |Chunks(content, chunkSize)| &&
      Items(Chunks(content, chunkSize))[k].text == Chunks(content, chunkSize)[Items(Chunks(content, chunkSize))[k].n]
    ensures forall j :: 0 <= j < |Chunks(content, chunkSize)| && Chunks(content, chunkSize)[j] != [] ==>
      exists k :: 0 <= k < |Items(Chunks(content, chunkSize))| && Items(Chunks(content, chunkSize))[k].n == j
  {
    var cs := Chunks(content, chunkSize);
    ChunkBound(content, chunkSize);
    ItemsSound(cs);
    ItemsComplete(cs);
    forall j | 0 <= j < |cs|
      ensures Strip(cs[j]) == cs[j]
    {
      assert cs[j] in cs;
      StripOfStripped(cs[j]);
    }
  }
}
