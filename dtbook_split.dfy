/** split_dtbook_by_chapter (src/doc_process/process_xml.py): one DTBook document per
    chapter, over an element tree. Tags are in Clark notation ("{namespace}local"). */
module DtbookSplit {
  import opened Text
  import opened Wrappers

  /** An element: tag, attributes, its text, and its children in document order. */
  datatype Element = Element(tag: string, attrs: seq<(string, string)>, text: string, children: seq<Element>)

  datatype SplitError =
    | NoBodymatter  // ValueError("No <bodymatter> found in the DTBook XML")
    | NoChapters    // ValueError("No <level1> chapters found in the DTBook XML")

  function SplitMessage(e: SplitError): string
  {
    match e
    case NoBodymatter => "No <bodymatter> found in the DTBook XML"
    case NoChapters => "No <level1> chapters found in the DTBook XML"
  }

  /** A written chapter file: its path and the tree written to it. */
  datatype Output = Output(path: string, doc: Element)

  function TrimLeft(s: string, c: char): (r: string)
    ensures |r| <= |s| && r == s[|s| - |r|..]
    ensures |r| > 0 ==> r[0] != c
  {
    if |s| > 0 && s[0] == c then TrimLeft(s[1..], c) else s
  }

  function TrimRight(s: string, c: char): (r: string)
    ensures |r| <= |s| && r == s[..|r|]
    ensures |r| > 0 ==> r[|r| - 1] != c
  {
    if |s| > 0 && s[|s| - 1] == c then TrimRight(s[..|s| - 1], c) else s
  }

  /** The namespace prefix "{NS}" of the root tag, or "" when the root has no namespace:
      NS is the text before the first '}', with '{' trimmed from both ends. */
  function NsPrefix(rootTag: string): string
  {
    if |rootTag| > 0 && rootTag[0] == '{' then
      "{" + TrimRight(TrimLeft(SplitOn(rootTag, "}")[0], '{'), '{') + "}"
    else ""
  }

  /** For a tag "{ns}local", the prefix is "{ns}" itself. */
  lemma NsPrefixOfClark(ns: string, local: string)
    requires '}' !in ns && (|ns| > 0 ==> ns[0] != '{' && ns[|ns| - 1] != '{')
    ensures NsPrefix("{" + ns + "}" + local) == "{" + ns + "}"
  {
    var tag := "{" + ns + "}" + local;
    var head := "{" + ns;
    assert tag == head + "}" + local;
    SplitOnFirst(head, "}", local);
    assert TrimLeft(head, '{') == TrimLeft(ns, '{') by {
      assert head[1..] == ns;
    }
  }

  /** Splitting at a one-character separator absent from the head gives the head first. */
  lemma {:induction false} SplitOnFirst(head: string, sep: string, rest: string)
    requires |sep| == 1 && sep[0] !in head
    ensures SplitOn(head + sep + rest, sep)[0] == head
    decreases |head|
  {
    var s := head + sep + rest;
    if |head| == 0 {
      assert s == sep + rest;
      assert sep <= s;
    } else {
      assert s[0] == head[0];
      assert !(sep <= s);
      SplitOnFirst(head[1..], sep, rest);
      assert s[1..] == head[1..] + sep + rest;
    }
  }

  // ---------------------------------------------------------------- searching the tree

  /** find(tag): the first direct child with that tag. */
  function FindChild(nodes: seq<Element>, tag: string): (r: Option<Element>)
    ensures r.Some? ==> r.value in nodes && r.value.tag == tag
    ensures r.None? <==> forall k :: 0 <= k < |nodes| ==> nodes[k].tag != tag
  {
    if |nodes| == 0 then None
    else if nodes[0].tag == tag then Some(nodes[0])
    else
      var r := FindChild(nodes[1..], tag);
      assert forall k :: 1 <= k < |nodes| ==> nodes[k] == nodes[1..][k - 1];
      r
  }

  /** findall(tag): the direct children with that tag, in order. */
  function FindChildren(nodes: seq<Element>, tag: string): (r: seq<Element>)
    ensures forall k :: 0 <= k < |r| ==> r[k].tag == tag && r[k] in nodes
    ensures |r| == 0 <==> forall k :: 0 <= k < |nodes| ==> nodes[k].tag != tag
  {
    if |nodes| == 0 then []
    else
      var rest := FindChildren(nodes[1..], tag);
      assert forall k :: 1 <= k < |nodes| ==> nodes[k] == nodes[1..][k - 1];
      if nodes[0].tag == tag then [nodes[0]] + rest else rest
  }

  /** find(".//" + tag): the first element with that tag among the descendants, in
      document order. */
  function FindDesc(nodes: seq<Element>, tag: string): (r: Option<Element>)
    ensures r.Some? ==> r.value.tag == tag
    decreases nodes
  {
    if |nodes| == 0 then None
    else if nodes[0].tag == tag then Some(nodes[0])
    else
      match FindDescIn(nodes[0], tag)
      case Some(e) => Some(e)
      case None => FindDesc(nodes[1..], tag)
  }

  function FindDescIn(e: Element, tag: string): (r: Option<Element>)
    ensures r.Some? ==> r.value.tag == tag
    decreases e
  {
    FindDesc(e.children, tag)
  }

  /** A direct child with the tag is found by the descendant search too, unless an earlier
      element in document order has it. */
  lemma {:induction false} FindDescSeesChildren(nodes: seq<Element>, tag: string)
    requires FindChild(nodes, tag).Some?
    ensures FindDesc(nodes, tag).Some?
    decreases |nodes|
  {
    if nodes[0].tag != tag && FindDescIn(nodes[0], tag).None? {
      FindDescSeesChildren(nodes[1..], tag);
    }
  }

  // ---------------------------------------------------------------- the chapter documents

  function OrEmpty(e: Option<Element>, tag: string): Element
  {
    if e.Some? then e.value else Element(tag, [], "", [])
  }

  /** The document written for one chapter: a new dtbook root with the input root's
      attributes, a copy of <head> when the root has one as a direct child, and a new <book>
      holding <frontmatter> (found at any depth, else empty), a new <bodymatter> with the
      chapter alone, and <rearmatter> (a direct child of the root, else empty). */
  function ChapterDoc(root: Element, chapter: Element): Element
  {
    var p := NsPrefix(root.tag);
    var head := FindChild(root.children, p + "head");
    var front := FindDesc(root.children, p + "frontmatter");
    var rear := FindChild(root.children, p + "rearmatter");
    var book := Element("book", [], "", [OrEmpty(front, "frontmatter"),
                                         Element("bodymatter", [], "", [chapter]),
                                         OrEmpty(rear, "rearmatter")]);
    Element("dtbook", root.attrs, "", (if head.Some? then [head.value] else []) + [book])
  }

  /** os.path.join(output_dir, name). */
  function PathJoin(dir: string, name: string): string
  {
    if dir == [] || dir[|dir| - 1] == '/' then dir + name else dir + "/" + name
  }

  function ChapterPath(dir: string, idx: nat): string
  {
    PathJoin(dir, "chapter_" + NatToString(idx) + ".dtbook.xml")
  }

  /** The <level1> children of the first <bodymatter>, or why there are none. */
  function Chapters(root: Element): Result<seq<Element>, SplitError>
  {
    var p := NsPrefix(root.tag);
    match FindDesc(root.children, p + "bodymatter")
    case None => Err(NoBodymatter)
    case Some(body) =>
      var chapters := FindChildren(body.children, p + "level1");
      if |chapters| == 0 then Err(NoChapters) else Ok(chapters)
  }

  method SplitDtbookByChapter(root: Element, outputDir: string) returns (r: Result<seq<Output>, SplitError>)
    ensures r.Err? <==> Chapters(root).Err?
    ensures r.Err? ==> r.error == Chapters(root).error
    ensures r.Ok? ==> |r.value| == |Chapters(root).value|
    ensures r.Ok? ==> forall idx :: 0 <= idx < |r.value| ==>
      r.value[idx] == Output(ChapterPath(outputDir, idx), ChapterDoc(root, Chapters(root).value[idx]))
  {
    var p := NsPrefix(root.tag);
    var bodymatter := FindDesc(root.children, p + "bodymatter");
    if bodymatter.None? {
      return Err(NoBodymatter);
    }
    var chapters := FindChildren(bodymatter.value.children, p + "level1");
    if |chapters| == 0 {
      return Err(NoChapters);
    }
    var outputs: seq<Output> := [];
    for idx := 0 to |chapters|
      invariant |outputs| == idx
      invariant forall k :: 0 <= k < idx ==>
        outputs[k] == Output(ChapterPath(outputDir, k), ChapterDoc(root, chapters[k]))
    {
      var chapterCopy := chapters[idx];
      var head := FindChild(root.children, p + "head");
      var front := FindDesc(root.children, p + "frontmatter");
      var rear := FindChild(root.children, p + "rearmatter");
      var newBody := Element("bodymatter", [], "", [chapterCopy]);
      var book := Element("book", [], "", [OrEmpty(front, "frontmatter"), newBody, OrEmpty(rear, "rearmatter")]);
      var newRoot := Element("dtbook", root.attrs, "", (if head.Some? then [head.value] else []) + [book]);
      outputs := outputs + [Output(ChapterPath(outputDir, idx), newRoot)];
    }
    r := Ok(outputs);
  }

  // ---------------------------------------------------------------- properties

  /** The search for the chapters fails exactly when no <bodymatter> is found at any depth,
      or when the first one found has no direct <level1> child. */
  lemma ChaptersErrors(root: Element)
    ensures var p := NsPrefix(root.tag);
      Chapters(root) == Err(NoBodymatter) <==> FindDesc(root.children, p + "bodymatter").None?
    ensures var p := NsPrefix(root.tag);
      Chapters(root) == Err(NoChapters) <==>
        (FindDesc(root.children, p + "bodymatter").Some?
         && forall k :: 0 <= k < |FindDesc(root.children, p + "bodymatter").value.children| ==>
              FindDesc(root.children, p + "bodymatter").value.children[k].tag != p + "level1")
  {
  }

  /** Every chapter document holds its chapter alone in its <bodymatter>, after a
      <frontmatter> and before a <rearmatter>. */
  lemma ChapterDocShape(root: Element, chapter: Element)
    ensures var d := ChapterDoc(root, chapter); var book := d.children[|d.children| - 1];
      d.tag == "dtbook" && d.attrs == root.attrs && book.tag == "book" && |book.children| == 3
      && book.children[1] == Element("bodymatter", [], "", [chapter])
      && book.children[0].tag in {"frontmatter", NsPrefix(root.tag) + "frontmatter"}
      && book.children[2].tag in {"rearmatter", NsPrefix(root.tag) + "rearmatter"}
  {
  }

  /** A <rearmatter> that is not a direct child of the root (the one create_dtbook_xml
      writes sits under <book>) is not copied: each chapter gets an empty one. A
      <frontmatter> at any depth is copied. */
  lemma NestedMatter(root: Element, chapter: Element)
    requires var p := NsPrefix(root.tag);
      forall k :: 0 <= k < |root.children| ==> root.children[k].tag != p + "rearmatter"
    ensures var book := ChapterDoc(root, chapter).children[|ChapterDoc(root, chapter).children| - 1];
      book.children[2] == Element("rearmatter", [], "", [])
      && book.children[0] == OrEmpty(FindDesc(root.children, NsPrefix(root.tag) + "frontmatter"), "frontmatter")
  {
  }

  /** The chapter files have distinct names. */
  lemma ChapterPathsDistinct(dir: string, i: nat, j: nat)
    requires i != j
    ensures ChapterPath(dir, i) != ChapterPath(dir, j)
  {
    var x := ".dtbook.xml";
    ChapterPathSplit(dir, i);
    ChapterPathSplit(dir, j);
    if ChapterPath(dir, i) == ChapterPath(dir, j) {
      PrefixCancel(ChapterPrefix(dir), NatToString(i) + x, NatToString(j) + x);
      DigitsThenMark(i, x, j, x);
    }
  }

  /** The part of a chapter path before its number. */
  function ChapterPrefix(dir: string): string
  {
    if dir == [] || dir[|dir| - 1] == '/' then dir + "chapter_" else dir + "/" + "chapter_"
  }

  lemma ChapterPathSplit(dir: string, idx: nat)
    ensures ChapterPath(dir, idx) == ChapterPrefix(dir) + (NatToString(idx) + ".dtbook.xml")
  {
    var n := NatToString(idx);
    assert "chapter_" + n + ".dtbook.xml" == "chapter_" + (n + ".dtbook.xml");
    if !(dir == [] || dir[|dir| - 1] == '/') {
      assert dir + "/" + ("chapter_" + (n + ".dtbook.xml")) == dir + "/" + "chapter_" + (n + ".dtbook.xml");
    }
  }

  lemma PrefixCancel(pre: string, u: string, v: string)
    requires pre + u == pre + v
    ensures u == v
  {
    assert (pre + u)[|pre|..] == u;
    assert (pre + v)[|pre|..] == v;
  }
}
