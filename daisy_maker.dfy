/** DaisyMaker (src/daisy_maker.py): the whole conversion of one book, from the PDF to the
    packaged DAISY archive, reporting its steps in the job's status record. The PDF reader,
    the speech engine and the Anemone packager are given by a `World`; the disk is the TSV
    files, the combined DTBook texts and the archives. */
module DaisyMaking {
  import opened Text
  import opened Wrappers
  import opened JobStatus
  import opened Segmenter
  import opened DtbookSplit
  import opened TextProcessing
  import opened Audio

  // ---------------------------------------------------------------- the book date

  /** What strptime's %m accepts: 1-9, 01-09 or 10-12. */
  predicate MonthField(s: string)
  {
    (|s| == 1 && '1' <= s[0] <= '9')
    || (|s| == 2 && s[0] == '0' && '1' <= s[1] <= '9')
    || (|s| == 2 && s[0] == '1' && '0' <= s[1] <= '2')
  }

  /** What strptime's %d accepts: 1-9, 01-09, 10-29, 30, 31, or a space and 1-9. */
  predicate DayField(s: string)
  {
    (|s| == 1 && '1' <= s[0] <= '9')
    || (|s| == 2 && (s[0] == '0' || s[0] == ' ') && '1' <= s[1] <= '9')
    || (|s| == 2 && (s[0] == '1' || s[0] == '2') && IsDigit(s[1]))
    || (|s| == 2 && s[0] == '3' && (s[1] == '0' || s[1] == '1'))
  }

  /** What strptime's %Y accepts: exactly four digits. */
  predicate YearField(s: string)
  {
    |s| == 4 && IsDigit(s[0]) && IsDigit(s[1]) && IsDigit(s[2]) && IsDigit(s[3])
  }

  /** int() of a month or day field. */
  function FieldValue(s: string): (v: nat)
    requires MonthField(s) || DayField(s)
    ensures MonthField(s) ==> 1 <= v <= 12
    ensures DayField(s) ==> 1 <= v <= 31
  {
    if |s| == 1 then DigitValue(s[0])
    else if s[0] == ' ' then DigitValue(s[1])
    else DigitValue(s[0]) * 10 + DigitValue(s[1])
  }

  function YearValue(s: string): (v: nat)
    requires YearField(s)
    ensures v < 10000
  {
    DigitValue(s[0]) * 1000 + DigitValue(s[1]) * 100 + DigitValue(s[2]) * 10 + DigitValue(s[3])
  }

  predicate IsLeap(y: nat)
  {
    y % 4 == 0 && (y % 100 != 0 || y % 400 == 0)
  }

  function DaysIn(y: nat, m: nat): nat
    requires 1 <= m <= 12
  {
    if m == 2 then (if IsLeap(y) then 29 else 28)
    else if m == 4 || m == 6 || m == 9 || m == 11 then 30
    else 31
  }

  /** A day of the proleptic Gregorian calendar that datetime accepts. */
  predicate ValidDate(y: nat, m: nat, d: nat)
  {
    1 <= y <= 9999 && 1 <= m <= 12 && 1 <= d <= DaysIn(y, m)
  }

  /** %Y as strftime writes it: four digits. */
  function Pad4(y: nat): (r: string)
    requires y < 10000
    ensures YearField(r) && YearValue(r) == y
  {
    var hi, lo := Pad2(y / 100), Pad2(y % 100);
    assert hi[..1][..0] == [] && lo[..1][..0] == [];
    assert DigitValue(hi[0]) * 10 + DigitValue(hi[1]) == y / 100;
    assert DigitValue(lo[0]) * 10 + DigitValue(lo[1]) == y % 100;
    hi + lo
  }

  /** strftime("%Y-%m-%d"). */
  function IsoDate(y: nat, m: nat, d: nat): string
    requires y < 10000 && m < 100 && d < 100
  {
    Pad4(y) + "-" + Pad2(m) + "-" + Pad2(d)
  }

  datatype DaisyError =
    | DateFormat(date: string)       // strptime: the text does not start with a "%m/%d/%Y" date
    | DateUnconverted(rest: string)  // strptime: text is left after the date
    | YearZero                       // datetime: year 0
    | DayRange                       // datetime: a day past the end of its month
    | TextFailed(text: TextError)
    | NoPrompt                       // read_txt_file(...)[0] on an empty prompt text
    | BadDirName(name: string)       // int() on a chapter directory name
    | AudioFailed(audio: AudioError)
    | CountMismatch
    | AnemoneFailed(message: string)

  /** What the pattern strptime builds for "%m/%d/%Y" matches at the start of a text:
      the month and the day fields, the four year digits, and the text after them. */
  datatype DateMatch = DateMatch(month: string, day: string, year: string, rest: string)

  /** The match of that pattern. The month and day fields hold no '/', so each ends at
      the next '/'; the year is the four characters after the second one. */
  function MatchDate(s: string): (r: Option<DateMatch>)
    ensures r.Some? ==> s == r.value.month + "/" + r.value.day + "/" + r.value.year + r.value.rest
    ensures r.Some? ==> MonthField(r.value.month) && DayField(r.value.day) && YearField(r.value.year)
  {
    var mm := BeforeFirst(s, '/');
    if |mm| == |s| then None
    else
      var t := s[|mm| + 1..];
      var dd := BeforeFirst(t, '/');
      if |dd| == |t| then None
      else
        var u := t[|dd| + 1..];
        if MonthField(mm) && DayField(dd) && |u| >= 4 && YearField(u[..4]) then
          SlashCut(s, |mm|);
          SlashCut(t, |dd|);
          DateRegroup(s, mm, t, dd, u);
          Some(DateMatch(mm, dd, u[..4], u[4..]))
        else None
  }

  lemma SlashCut(s: string, k: nat)
    requires k < |s| && s[k] == '/'
    ensures s == s[..k] + "/" + s[k + 1..]
  {
  }

  lemma DateRegroup(s: string, mm: string, t: string, dd: string, u: string)
    requires |u| >= 4 && s == mm + "/" + t && t == dd + "/" + u
    ensures s == mm + "/" + dd + "/" + u[..4] + u[4..]
  {
    assert u == u[..4] + u[4..];
  }

  /** A text made of a month, '/', a day, '/', four digits and anything else matches
      with exactly those fields: the match is the only one. */
  lemma MatchDateOf(mm: string, dd: string, yy: string, rest: string)
    requires MonthField(mm) && DayField(dd) && YearField(yy)
    ensures MatchDate(mm + "/" + dd + "/" + yy + rest) == Some(DateMatch(mm, dd, yy, rest))
  {
    var u := yy + rest;
    var t := dd + "/" + u;
    DateRegroupOf(mm, dd, yy, rest);
    assert '/' !in mm && '/' !in dd;
    SlashAfter(mm, t);
    SlashAfter(dd, u);
    assert u[..4] == yy && u[4..] == rest;
  }

  lemma DateRegroupOf(mm: string, dd: string, yy: string, rest: string)
    ensures mm + "/" + dd + "/" + yy + rest == mm + "/" + (dd + "/" + (yy + rest))
  {
  }

  /** A '/'-free head, then '/': the head is the first piece and the tail follows it. */
  lemma SlashAfter(a: string, b: string)
    requires '/' !in a
    ensures BeforeFirst(a + "/" + b, '/') == a && (a + "/" + b)[|a| + 1..] == b
  {
    assert a + "/" + b == a + ['/'] + b;
    BeforeFirstOf(a, '/', b);
  }

  /** datetime.strptime(date, "%m/%d/%Y").strftime("%Y-%m-%d"): no match, text left
      after the match, year 0 and a day past the month's end are the four errors. */
  function ReformatDate(s: string): (r: Result<string, DaisyError>)
    ensures r.Ok? ==> exists y, m, d :: ValidDate(y, m, d) && r.value == IsoDate(y, m, d)
    ensures r == Err(DateFormat(s)) <==> MatchDate(s).None?
    ensures r.Err? && r.error.DateUnconverted? ==> MatchDate(s).Some? && r.error.rest == MatchDate(s).value.rest != []
  {
    match MatchDate(s)
    case None => Err(DateFormat(s))
    case Some(dm) =>
      if dm.rest != [] then Err(DateUnconverted(dm.rest))
      else
        var y, m, d := YearValue(dm.year), FieldValue(dm.month), FieldValue(dm.day);
        if y == 0 then Err(YearZero)
        else if d > DaysIn(y, m) then Err(DayRange)
        else Ok(IsoDate(y, m, d))
  }

  lemma Pad2Fields(n: nat)
    requires 1 <= n <= 31
    ensures DayField(Pad2(n)) && FieldValue(Pad2(n)) == n
    ensures n <= 12 ==> MonthField(Pad2(n))
  {
  }

  /** A date written "MM/DD/YYYY" and followed by rest: any trailing text is refused
      first, then year 0, then a day past the end of its month; otherwise the date comes
      out as "YYYY-MM-DD". */
  lemma DateOutcome(y: nat, m: nat, d: nat, rest: string)
    requires y < 10000 && 1 <= m <= 12 && 1 <= d <= 31
    ensures ReformatDate(Pad2(m) + "/" + Pad2(d) + "/" + Pad4(y) + rest)
         == if rest != [] then Err(DateUnconverted(rest))
            else if y == 0 then Err(YearZero)
            else if d > DaysIn(y, m) then Err(DayRange)
            else Ok(IsoDate(y, m, d))
  {
    Pad2Fields(m);
    Pad2Fields(d);
    MatchDateOf(Pad2(m), Pad2(d), Pad4(y), rest);
  }

  /** A date written "MM/DD/YYYY" comes out as "YYYY-MM-DD". */
  lemma DateRoundTrip(y: nat, m: nat, d: nat)
    requires ValidDate(y, m, d)
    ensures ReformatDate(Pad2(m) + "/" + Pad2(d) + "/" + Pad4(y)) == Ok(IsoDate(y, m, d))
  {
    DateOutcome(y, m, d, []);
    assert Pad2(m) + "/" + Pad2(d) + "/" + Pad4(y) + [] == Pad2(m) + "/" + Pad2(d) + "/" + Pad4(y);
  }

  /** A date already in the "YYYY-MM-DD" form is refused. */
  lemma IsoDateRefused(y: nat, m: nat, d: nat)
    requires y < 10000 && m < 100 && d < 100
    ensures ReformatDate(IsoDate(y, m, d)) == Err(DateFormat(IsoDate(y, m, d)))
  {
    var s := IsoDate(y, m, d);
    assert '/' !in s;
  }

  /** The default book date of create_daisy_for_book is in that form, so a call that
      leaves it out always ends in an error. */
  lemma DefaultDateRefused()
    ensures ReformatDate("2023-01-01") == Err(DateFormat("2023-01-01"))
  {
    assert IsoDate(2023, 1, 1) == "2023-01-01";
    IsoDateRefused(2023, 1, 1);
  }

  // ---------------------------------------------------------------- the conversion

  const XmlStatus := "Creating XML from PDF..."
  const TsvStatus := "Creating TSV files for TTS..."
  const TtsStatus := "Starting Text-to-Speech synthesis..."
  const PackStatus := "Packaging DAISY book..."
  const Finished := "finished"
  const PromptWav := "src/model/prompt.wav"
  /** Where Anemone leaves the archive it packs. */
  const OutputZip := "output_daisy.zip"
  const CountMessage := "The number of sync json files, audio files and xml files are not equal."

  /** str() of the exception that ends a failed conversion. */
  function Message(e: DaisyError): string
  {
    match e
    case DateFormat(s) => "time data " + Repr(s) + " does not match format '%m/%d/%Y'"
    case DateUnconverted(rest) => "unconverted data remains: " + rest
    case YearZero => "year 0 is out of range"
    case DayRange => "day is out of range for month"
    case TextFailed(t) => TextMessage(t)
    case NoPrompt => IndexOutOfRange
    case BadDirName(dir) => IntLiteralError(DirLiteral(dir))
    case AudioFailed(a) => AudioMessage(a)
    case CountMismatch => CountMessage
    case AnemoneFailed(msg) => msg
  }

  /** The text a date strptime cannot match leaves in the error status: the date quoted as
      repr quotes text without quotes, backslashes or control characters. */
  lemma DateFormatMessage(s: string)
    requires MatchDate(s).None? && ReprPlain(s)
    ensures ReformatDate(s).Err?
    ensures Message(ReformatDate(s).error) == "time data " + ("'" + s + "'") + " does not match format '%m/%d/%Y'"
  {
    ReprOfPlain(s);
    assert ReformatDate(s) == Err(DateFormat(s));
  }

  /** The disk: the TSV files as the lines written to them, the texts of the combined
      DTBook documents, and the archives. */
  datatype Disk = Disk(files: Files, texts: map<string, string>, archives: set<string>)

  /** What the conversion reads from outside: the PDF's table of contents and page texts,
      the tree lxml reads back from the combined DTBook, the lines of the prompt text, the
      chapter directories glob lists in the TSV directory, the speech engine, the order in
      which the merges finish, and what Anemone does with its arguments (None: it packs
      the archive; Some(message): it raises). */
  datatype World = World(toc: seq<TocEntry>, pages: seq<string>, parsed: Element, promptLines: seq<string>,
                         chapterDirs: seq<string>, eng: Engine, order: seq<nat>,
                         anemone: seq<string> -> Option<string>)

  /** The maker's directories. */
  datatype Config = Config(daisyDir: string, audioDir: string, xmlDir: string)

  /** The arguments of create_daisy_for_book. */
  datatype Args = Args(jobId: string, inputFile: string, title: string, author: string, date: string,
                       publisher: string, uid: string)

  /** The record updates, the disk left behind, and the final archive or the error. */
  datatype Run = Run(writes: seq<Write>, disk: Disk, outcome: Result<string, DaisyError>)

  /** os.path.join("data", f"tsv_dir_{job_id}"). */
  function TsvDir(jobId: string): string
  {
    PathJoin("data", "tsv_dir_" + jobId)
  }

  /** shutil.rmtree: every file below the directory goes. */
  function RemoveTree(fs: Files, dir: string): (r: Files)
    ensures forall p :: p in r <==> p in fs && !(dir + "/" <= p)
    ensures forall p :: p in r ==> r[p] == fs[p]
  {
    map p | p in fs && !(dir + "/" <= p) :: fs[p]
  }

  function Paths(outs: seq<Output>): (r: seq<string>)
    ensures |r| == |outs| && forall k :: 0 <= k < |outs| ==> r[k] == outs[k].path
  {
    seq(|outs|, k requires 0 <= k < |outs| => outs[k].path)
  }

  /** The command line given to Anemone. */
  function AnemoneArgs(title: string, author: string, date: string, publisher: string,
                       wavs: seq<string>, xmls: seq<string>, syncs: seq<string>): seq<string>
  {
    ["anemone", "--title", title, "--creator", author, "--lang", "vi", "--date", date,
     "--publisher", publisher, "--daisy3"] + wavs + xmls + syncs
  }

  /** f"error: {str(e)}". */
  function ErrorStatus(e: DaisyError): string
  {
    "error: " + Message(e)
  }

  lemma LogAssoc(a: seq<Write>, b: seq<Write>, c: seq<Write>)
    ensures a + b + c == a + (b + c)
  {
  }

  lemma LogPair(a: seq<Write>, x: Write, y: Write)
    ensures a + [x, y] == a + [x] + [y]
  {
  }

  /** The record updates so far, then the error status. */
  function Fail(ws: seq<Write>, disk: Disk, e: DaisyError): Run
  {
    Run(ws + [StatusW(ErrorStatus(e))], disk, Err(e))
  }


  /** The run ends on the status create_daisy_for_book leaves behind: "finished" on
      success, the error's text otherwise. */
  predicate Ends(r: Run)
  {
    |r.writes| > 0
    && (r.outcome.Ok? ==> r.writes[|r.writes| - 1] == StatusW(Finished))
    && (r.outcome.Err? ==> r.writes[|r.writes| - 1] == StatusW(ErrorStatus(r.outcome.error)))
  }

  /** No file is left below the directory. */
  ghost predicate Cleared(fs: Files, dir: string)
  {
    forall p :: p in fs ==> !(dir + "/" <= p)
  }

  /** Where the finished book is moved: "<title>_daisy.zip" in the DAISY directory. */
  function FinalZip(cfg: Config, a: Args): string
  {
    PathJoin(cfg.daisyDir, a.title + "_daisy.zip")
  }

  /** The record updates of a successful step 4. */
  const PackWrites: seq<Write> := [StatusW(PackStatus), ProgressW(95), ProgressW(100), StatusW(Finished)]

  /** A successful conversion ends with the book in the DAISY directory and no TSV file left. */
  ghost predicate Delivered(r: Run, cfg: Config, a: Args, tsvPath: string)
  {
    r.outcome.Ok? ==> r.outcome.value == FinalZip(cfg, a) && FinalZip(cfg, a) in r.disk.archives
                      && Cleared(r.disk.files, tsvPath)
  }

  /** Step 4: the count check, Anemone, the move of its archive and the removal of the
      TSV directory. */
  function PackStage(cfg: Config, a: Args, date: string, xmls: seq<string>, syncs: seq<string>, wavs: seq<string>,
                     w: World, ws: seq<Write>, disk: Disk, tsvPath: string): (r: Run)
    ensures Ends(r) && Delivered(r, cfg, a, tsvPath)
    ensures r.outcome.Ok? ==> |syncs| == |xmls| && |wavs| == |xmls| && r.writes == ws + PackWrites
    ensures r.outcome.Ok? ==> r.disk.archives == (disk.archives - {OutputZip}) + {FinalZip(cfg, a)}
    ensures r.outcome.Err? ==> r.disk == disk
  {
    if |syncs| != |xmls| || |wavs| != |xmls| then Fail(ws, disk, CountMismatch)
    else
      var ws' := ws + [StatusW(PackStatus), ProgressW(95)];
      match w.anemone(AnemoneArgs(a.title, a.author, date, a.publisher, wavs, xmls, syncs))
      case Some(msg) => Fail(ws', disk, AnemoneFailed(msg))
      case None =>
        var zip := FinalZip(cfg, a);
        assert ws' + [ProgressW(100), StatusW(Finished)] == ws + PackWrites;
        Run(ws' + [ProgressW(100), StatusW(Finished)],
            Disk(RemoveTree(disk.files, tsvPath), disk.texts, (disk.archives - {OutputZip}) + {zip}), Ok(zip))
  }

  /** Step 4 once the counts agree: what Anemone does decides the rest. */
  lemma PackStageRan(cfg: Config, a: Args, date: string, xmls: seq<string>, syncs: seq<string>, wavs: seq<string>,
                     w: World, ws: seq<Write>, disk: Disk, tsvPath: string)
    requires |syncs| == |xmls| && |wavs| == |xmls|
    ensures var ws' := ws + [StatusW(PackStatus), ProgressW(95)];
      var out := w.anemone(AnemoneArgs(a.title, a.author, date, a.publisher, wavs, xmls, syncs));
      var run := PackStage(cfg, a, date, xmls, syncs, wavs, w, ws, disk, tsvPath);
      (out.Some? ==> run == Fail(ws', disk, AnemoneFailed(out.value)))
      && (out.None? ==> run.writes == ws' + [ProgressW(100), StatusW(Finished)])
      && (out.None? ==> run.disk == Disk(RemoveTree(disk.files, tsvPath), disk.texts,
                                         (disk.archives - {OutputZip}) + {PathJoin(cfg.daisyDir, a.title + "_daisy.zip")}))
  {
  }

  /** One synchronisation file and one audio file per chapter directory. */
  lemma AudioLengths(dirs: seq<string>, eng: Engine, outDir: string, order: seq<nat>)
    requires IsPermutation(order, |dirs|) && BookAudio(dirs, eng, outDir, order).Ok?
    ensures |BookAudio(dirs, eng, outDir, order).value.0| == |dirs|
    ensures |BookAudio(dirs, eng, outDir, order).value.1| == |dirs|
  {
    BookAudioLists(dirs, eng, outDir, order);
  }

  /** Step 3: the chapter directories sorted by number, and the audio of the book. */
  function AudioStage(cfg: Config, a: Args, date: string, xmls: seq<string>, w: World, ws: seq<Write>,
                      disk: Disk, tsvPath: string): (r: Run)
    requires IsPermutation(w.order, |w.chapterDirs|)
    ensures Ends(r) && Delivered(r, cfg, a, tsvPath)
    ensures r.outcome.Ok? ==> |xmls| == |w.chapterDirs| && SortedListing(w.chapterDirs, DirKey).Ok?
    ensures r.outcome.Ok? ==>
      r.writes == ws + AudioWrites(SortedListing(w.chapterDirs, DirKey).value, w.eng, cfg.audioDir) + PackWrites
    ensures r.outcome.Err? ==> r.disk == disk
    ensures r.outcome.Ok? ==> r.disk.archives == (disk.archives - {OutputZip}) + {FinalZip(cfg, a)}
  {
    match SortedListing(w.chapterDirs, DirKey)
    case Err(name) => Fail(ws, disk, BadDirName(name))
    case Ok(tsvLst) =>
      var ws' := ws + AudioWrites(tsvLst, w.eng, cfg.audioDir);
      match BookAudio(tsvLst, w.eng, cfg.audioDir, w.order)
      case Err(e) => Fail(ws', disk, AudioFailed(e))
      case Ok(lists) =>
        AudioLengths(tsvLst, w.eng, cfg.audioDir, w.order);
        PackStage(cfg, a, date, xmls, lists.0, lists.1, w, ws', disk, tsvPath)
  }

  /** Step 3 once the chapter directories are sorted. */
  lemma AudioStageListed(cfg: Config, a: Args, date: string, xmls: seq<string>, w: World, ws: seq<Write>,
                         disk: Disk, tsvPath: string, tsvLst: seq<string>)
    requires IsPermutation(w.order, |w.chapterDirs|) && SortedListing(w.chapterDirs, DirKey) == Ok(tsvLst)
    ensures IsPermutation(w.order, |tsvLst|)
    ensures var ws' := ws + AudioWrites(tsvLst, w.eng, cfg.audioDir);
      AudioStage(cfg, a, date, xmls, w, ws, disk, tsvPath)
      == match BookAudio(tsvLst, w.eng, cfg.audioDir, w.order)
         case Err(e) => Fail(ws', disk, AudioFailed(e))
         case Ok(lists) => PackStage(cfg, a, date, xmls, lists.0, lists.1, w, ws', disk, tsvPath)
  {
  }

  /** Step 2: the chunk manifests, written afresh into the job's TSV directory. */
  function TsvStage(cfg: Config, a: Args, date: string, xmls: seq<string>, sections: seq<Section>, w: World,
                    ws: seq<Write>, disk: Disk): (r: Run)
    requires IsPermutation(w.order, |w.chapterDirs|)
    ensures Ends(r) && Delivered(r, cfg, a, TsvDir(a.jobId))
    ensures r.outcome.Ok? ==> |xmls| == |w.chapterDirs| && SortedListing(w.chapterDirs, DirKey).Ok?
    ensures r.outcome.Ok? ==>
      r.writes == ws + [ProgressW(20), StatusW(TtsStatus)]
                  + AudioWrites(SortedListing(w.chapterDirs, DirKey).value, w.eng, cfg.audioDir) + PackWrites
    ensures r.outcome.Err? ==> r.disk.archives == disk.archives && r.disk.texts == disk.texts
    ensures r.outcome.Ok? ==> r.disk.archives == (disk.archives - {OutputZip}) + {FinalZip(cfg, a)}
  {
    if |w.promptLines| == 0 then Fail(ws, disk, NoPrompt)
    else
      var tsvPath := TsvDir(a.jobId);
      var cleared := disk.(files := RemoveTree(disk.files, tsvPath));
      match Tsv(sections, 0, cleared.files, PromptWav, w.promptLines[0], tsvPath, true, 200)
      case Err(e) => Fail(ws, cleared, TextFailed(e))
      case Ok(files) =>
        AudioStage(cfg, a, date, xmls, w, ws + [ProgressW(20), StatusW(TtsStatus)], cleared.(files := files), tsvPath)
  }

  /** Step 1: the DTBook of the whole book and one per chapter, with a text processor in
      its default configuration. */
  function XmlStage(cfg: Config, a: Args, date: string, w: World, disk: Disk): (r: Run)
    requires IsPermutation(w.order, |w.chapterDirs|)
    ensures Ends(r) && Delivered(r, cfg, a, TsvDir(a.jobId))
    ensures r.outcome.Ok? ==> ChapterOutputs(w.parsed, cfg.xmlDir).Ok? && SortedListing(w.chapterDirs, DirKey).Ok?
    ensures r.outcome.Ok? ==> |ChapterOutputs(w.parsed, cfg.xmlDir).value| == |w.chapterDirs|
    ensures r.outcome.Ok? ==>
      r.writes == [StatusW(XmlStatus)] + [ProgressW(10), StatusW(TsvStatus)] + [ProgressW(20), StatusW(TtsStatus)]
                  + AudioWrites(SortedListing(w.chapterDirs, DirKey).value, w.eng, cfg.audioDir) + PackWrites
    ensures r.outcome.Err? ==> r.disk.archives == disk.archives
    ensures r.outcome.Ok? ==> r.disk.archives == (disk.archives - {OutputZip}) + {FinalZip(cfg, a)}
  {
    var ws := [StatusW(XmlStatus)];
    if !IsPdfName(a.inputFile) then Fail(ws, disk, TextFailed(Unsupported))
    else match Sections(w.toc, w.pages)
      case Err(e) => Fail(ws, disk, TextFailed(PdfFailed(e)))
      case Ok(sections) =>
        var xml := CombinedXml(sections, cfg.xmlDir, a.title, a.author, date, a.publisher, a.uid, false, 200);
        var disk' := disk.(texts := disk.texts[xml.0 := xml.1]);
        match ChapterOutputs(w.parsed, cfg.xmlDir)
        case Err(e) => Fail(ws, disk', TextFailed(e))
        case Ok(outs) => TsvStage(cfg, a, date, Paths(outs), sections, w, ws + [ProgressW(10), StatusW(TsvStatus)], disk')
  }

  /** create_daisy_for_book: the book date, then the four steps. */
  function MakerRun(cfg: Config, a: Args, w: World, disk: Disk): (r: Run)
    requires IsPermutation(w.order, |w.chapterDirs|)
    ensures Ends(r) && Delivered(r, cfg, a, TsvDir(a.jobId))
    ensures r.outcome.Ok? ==> ReformatDate(a.date).Ok? && ChapterOutputs(w.parsed, cfg.xmlDir).Ok?
    ensures r.outcome.Ok? ==> |ChapterOutputs(w.parsed, cfg.xmlDir).value| == |w.chapterDirs|
    ensures r.outcome.Err? ==> r.disk.archives == disk.archives
    ensures r.outcome.Ok? ==> r.disk.archives == (disk.archives - {OutputZip}) + {FinalZip(cfg, a)}
  {
    match ReformatDate(a.date)
    case Err(e) => Fail([], disk, e)
    case Ok(date) => XmlStage(cfg, a, date, w, disk)
  }

  /** The run once the DTBook side has succeeded. */
  lemma XmlStageDone(cfg: Config, a: Args, w: World, disk: Disk, date: string, sections: seq<Section>,
                     outs: seq<Output>)
    requires IsPermutation(w.order, |w.chapterDirs|)
    requires IsPdfName(a.inputFile) && Sections(w.toc, w.pages) == Ok(sections)
    requires ChapterOutputs(w.parsed, cfg.xmlDir) == Ok(outs)
    ensures var xml := CombinedXml(sections, cfg.xmlDir, a.title, a.author, date, a.publisher, a.uid, false, 200);
      XmlStage(cfg, a, date, w, disk)
      == TsvStage(cfg, a, date, Paths(outs), sections, w, [StatusW(XmlStatus)] + [ProgressW(10), StatusW(TsvStatus)],
                  disk.(texts := disk.texts[xml.0 := xml.1]))
  {
  }

  /** The run once the chunk manifests are written. */
  lemma TsvStageWritten(cfg: Config, a: Args, date: string, xmls: seq<string>, sections: seq<Section>, w: World,
                        ws: seq<Write>, disk: Disk, files: Files)
    requires IsPermutation(w.order, |w.chapterDirs|) && |w.promptLines| > 0
    requires Tsv(sections, 0, RemoveTree(disk.files, TsvDir(a.jobId)), PromptWav, w.promptLines[0], TsvDir(a.jobId), true, 200)
             == Ok(files)
    ensures TsvStage(cfg, a, date, xmls, sections, w, ws, disk)
            == AudioStage(cfg, a, date, xmls, w, ws + [ProgressW(20), StatusW(TtsStatus)], disk.(files := files), TsvDir(a.jobId))
  {
  }

  /** The command line: the twelve fixed words, then the audio files, the chapter
      documents and the synchronisation files, each list in its own order. */
  lemma ArgvLayout(title: string, author: string, date: string, publisher: string,
                   wavs: seq<string>, xmls: seq<string>, syncs: seq<string>)
    ensures var args := AnemoneArgs(title, author, date, publisher, wavs, xmls, syncs);
      |args| == 12 + |wavs| + |xmls| + |syncs|
      && args[0] == "anemone" && args[2] == title && args[4] == author && args[8] == date && args[10] == publisher
      && (forall k :: 0 <= k < |wavs| ==> args[12 + k] == wavs[k])
      && (forall k :: 0 <= k < |xmls| ==> args[12 + |wavs| + k] == xmls[k])
      && (forall k :: 0 <= k < |syncs| ==> args[12 + |wavs| + |xmls| + k] == syncs[k])
  {
  }

  /** A successful step 4 leaves the record finished at 100, and keeps its total. */
  lemma ReplayPack(s: Snapshot)
    ensures var r := Replay(s, PackWrites);
      r.status == Finished && r.progress == 100 && r.total == s.total
  {
    var p1 := [StatusW(PackStatus)];
    var p2 := p1 + [ProgressW(95)];
    var p3 := p2 + [ProgressW(100)];
    assert PackWrites == p3 + [StatusW(Finished)];
    ReplaySnoc(s, p3, StatusW(Finished));
    ReplaySnoc(s, p2, ProgressW(100));
    ReplaySnoc(s, p1, ProgressW(95));
    ReplaySnoc(s, [], StatusW(PackStatus));
    assert [] + [StatusW(PackStatus)] == p1;
  }

  /** The record after the updates of a successful run. */
  lemma SucceededRecord(o: Snapshot, pre: seq<Write>, tsvLst: seq<string>, eng: Engine, audioDir: string)
    ensures var s := Replay(o, pre + AudioWrites(tsvLst, eng, audioDir) + PackWrites);
      s.status == Finished && s.progress == 100 && s.total == |tsvLst|
  {
    var audio := AudioWrites(tsvLst, eng, audioDir);
    ReplayConcat(o, pre + audio, PackWrites);
    ReplayConcat(o, pre, audio);
    AudioRecord(Replay(o, pre), tsvLst, eng, audioDir);
    ReplayPack(Replay(o, pre + audio));
  }

  lemma ErrorIsNotFinished(e: DaisyError)
    ensures ErrorStatus(e) != Finished
  {
    assert ErrorStatus(e)[0] == 'e' && Finished[0] == 'f';
  }

  /** The record after create_daisy_for_book: "finished" exactly when the book was made,
      the error's text otherwise; after success the progress is 100 while the total is
      the number of chapters the audio step set. */
  lemma MakerRecord(o: Snapshot, cfg: Config, a: Args, w: World, disk: Disk)
    requires IsPermutation(w.order, |w.chapterDirs|)
    ensures var run := MakerRun(cfg, a, w, disk);
      var s := Replay(o, run.writes);
      (s.status == Finished <==> run.outcome.Ok?)
      && (run.outcome.Err? ==> s.status == ErrorStatus(run.outcome.error))
      && (run.outcome.Ok? ==> s.progress == 100 && s.total == |w.chapterDirs|)
  {
    var run := MakerRun(cfg, a, w, disk);
    if run.outcome.Err? {
      LastStatus(o, run.writes);
      ErrorIsNotFinished(run.outcome.error);
    } else {
      var date := ReformatDate(a.date).value;
      var tsvLst := SortedListing(w.chapterDirs, DirKey).value;
      var pre := [StatusW(XmlStatus)] + [ProgressW(10), StatusW(TsvStatus)] + [ProgressW(20), StatusW(TtsStatus)];
      assert run == XmlStage(cfg, a, date, w, disk);
      SucceededRecord(o, pre, tsvLst, w.eng, cfg.audioDir);
    }
  }

  /** A call that leaves the book date at its default fails before step 1, and the only
      update of the record is the error. */
  lemma DefaultDateFails(cfg: Config, a: Args, w: World, disk: Disk)
    requires IsPermutation(w.order, |w.chapterDirs|) && a.date == "2023-01-01"
    ensures MakerRun(cfg, a, w, disk)
            == Run([StatusW(ErrorStatus(DateFormat(a.date)))], disk, Err(DateFormat(a.date)))
  {
    DefaultDateRefused();
  }

  class DaisyMaker {
    var daisyOutputDir: string
    var audioOutputDir: string
    var xmlOutputDir: string
    var ttsCheckpointDir: string
    var ttsModelDir: string
    var isSplitBySentence: bool
    var chunkSize: int
    var audioProcessor: AudioProcessor
    var textProcessor: TextProcessor

    /** `wavText` is the first line of the prompt text, which the audio processor reads.
        The text processor gets the configured mode and chunk size; making the
        directories is not modelled. */
    constructor (daisyOutputDir: string, audioOutputDir: string, xmlOutputDir: string, wavFilePath: string,
                 wavText: string, ttsModelDir: string, ttsCheckpointDir: string, isSplitBySentence: bool, chunkSize: int)
      ensures this.daisyOutputDir == daisyOutputDir && this.audioOutputDir == audioOutputDir
      ensures this.xmlOutputDir == xmlOutputDir && this.isSplitBySentence == isSplitBySentence
      ensures this.chunkSize == chunkSize && audioProcessor.audioOutputDir == audioOutputDir
      ensures textProcessor.outputDir == xmlOutputDir && textProcessor.splitBySentence == isSplitBySentence
      ensures textProcessor.chunkSize == chunkSize
    {
      this.daisyOutputDir := daisyOutputDir;
      this.audioOutputDir := audioOutputDir;
      this.xmlOutputDir := xmlOutputDir;
      this.ttsCheckpointDir := ttsCheckpointDir;
      this.ttsModelDir := ttsModelDir;
      this.isSplitBySentence := isSplitBySentence;
      this.chunkSize := chunkSize;
      audioProcessor := new AudioProcessor(audioOutputDir, wavFilePath, wavText, ttsModelDir, ttsCheckpointDir);
      textProcessor := new TextProcessor("", xmlOutputDir, isSplitBySentence, chunkSize);
    }

    /** create_daisy_for_book: every step reports in the status record, and the first
        failure ends the run with an "error: " status. */
    method CreateDaisyForBook(status: StatusRecord, jobId: string, inputFile: string, title: string, author: string,
                              date: string, publisher: string, uid: string, w: World, disk: Disk)
      returns (after: Disk)
      requires status.Valid() && IsPermutation(w.order, |w.chapterDirs|)
      modifies this, status
      ensures status.Valid() && status.origin == old(status.origin)
      ensures daisyOutputDir == old(daisyOutputDir) && xmlOutputDir == old(xmlOutputDir)
      ensures audioProcessor == old(audioProcessor) && isSplitBySentence == old(isSplitBySentence)
      ensures chunkSize == old(chunkSize)
      ensures textProcessor.splitBySentence == false && textProcessor.chunkSize == 200
      ensures var run := MakerRun(Config(daisyOutputDir, audioProcessor.audioOutputDir, xmlOutputDir),
                                  Args(jobId, inputFile, title, author, date, publisher, uid), w, disk);
        status.writes == old(status.writes) + run.writes && after == run.disk
    {
      ghost var cfg := Config(daisyOutputDir, audioProcessor.audioOutputDir, xmlOutputDir);
      var a := Args(jobId, inputFile, title, author, date, publisher, uid);
      textProcessor := new TextProcessor(inputFile, xmlOutputDir, false, 200);
      var bookDate := ReformatDate(date);
      if bookDate.Err? {
        status.SetStatus(ErrorStatus(bookDate.error));
        assert [] + [StatusW(ErrorStatus(bookDate.error))] == [StatusW(ErrorStatus(bookDate.error))];
        return disk;
      }
      after := XmlStep(status, textProcessor, cfg, a, bookDate.value, w, disk);
    }

    /** Steps 1 and 2. */
    method XmlStep(status: StatusRecord, tp: TextProcessor, ghost cfg: Config, a: Args, bookDate: string, w: World,
                   disk: Disk)
      returns (after: Disk)
      requires status.Valid() && IsPermutation(w.order, |w.chapterDirs|)
      requires cfg == Config(daisyOutputDir, audioProcessor.audioOutputDir, xmlOutputDir)
      requires tp.inputFile == a.inputFile && tp.outputDir == xmlOutputDir && !tp.splitBySentence && tp.chunkSize == 200
      modifies status, tp
      ensures status.Valid() && status.origin == old(status.origin)
      ensures tp.splitBySentence == false && tp.chunkSize == 200
      ensures var run := XmlStage(cfg, a, bookDate, w, disk);
        status.writes == old(status.writes) + run.writes && after == run.disk
    {
      ghost var start := status.writes;
      status.SetStatus(XmlStatus);
      ghost var log := [StatusW(XmlStatus)];
      var written, xmlChapters := tp.MakeXmlLst(w.toc, w.pages, w.parsed, a.title, a.author, bookDate, a.publisher, a.uid);
      var disk1 := if written.Some? then disk.(texts := disk.texts[written.value.0 := written.value.1]) else disk;
      if xmlChapters.Err? {
        LogAssoc(start, log, [StatusW(ErrorStatus(TextFailed(xmlChapters.error)))]);
        status.SetStatus(ErrorStatus(TextFailed(xmlChapters.error)));
        return disk1;
      }
      var xmls := Paths(xmlChapters.value);
      XmlStageDone(cfg, a, w, disk, bookDate, tp.processedLst, xmlChapters.value);
      LogAssoc(start, log, [ProgressW(10)]);
      status.SetProgress(10);
      LogAssoc(start, log + [ProgressW(10)], [StatusW(TsvStatus)]);
      status.SetStatus(TsvStatus);
      LogPair(log, ProgressW(10), StatusW(TsvStatus));
      log := log + [ProgressW(10), StatusW(TsvStatus)];
      after := TsvStep(status, tp, cfg, a, bookDate, xmls, w, start, log, disk1);
    }

    /** Step 2, then steps 3 and 4. */
    method TsvStep(status: StatusRecord, tp: TextProcessor, ghost cfg: Config, a: Args, bookDate: string,
                   xmls: seq<string>, w: World, ghost start: seq<Write>, ghost ws: seq<Write>, disk: Disk)
      returns (after: Disk)
      requires status.Valid() && status.writes == start + ws && IsPermutation(w.order, |w.chapterDirs|)
      requires cfg == Config(daisyOutputDir, audioProcessor.audioOutputDir, xmlOutputDir)
      requires tp.chunkSize == 200
      modifies status
      ensures status.Valid() && status.origin == old(status.origin)
      ensures var run := TsvStage(cfg, a, bookDate, xmls, tp.processedLst, w, ws, disk);
        status.writes == start + run.writes && after == run.disk
    {
      if |w.promptLines| == 0 {
        LogAssoc(start, ws, [StatusW(ErrorStatus(NoPrompt))]);
        status.SetStatus(ErrorStatus(NoPrompt));
        return disk;
      }
      var promptText := w.promptLines[0];
      var tsvPath := TsvDir(a.jobId);
      var cleared := disk.(files := RemoveTree(disk.files, tsvPath));
      var tsv := tp.CreateTtsForTtsWithChunks(cleared.files, PromptWav, promptText, tsvPath);
      if tsv.Err? {
        LogAssoc(start, ws, [StatusW(ErrorStatus(TextFailed(tsv.error)))]);
        status.SetStatus(ErrorStatus(TextFailed(tsv.error)));
        return cleared;
      }
      TsvStageWritten(cfg, a, bookDate, xmls, tp.processedLst, w, ws, disk, tsv.value);
      LogAssoc(start, ws, [ProgressW(20)]);
      status.SetProgress(20);
      LogAssoc(start, ws + [ProgressW(20)], [StatusW(TtsStatus)]);
      status.SetStatus(TtsStatus);
      LogPair(ws, ProgressW(20), StatusW(TtsStatus));
      after := AudioStep(status, cfg, a, bookDate, xmls, w, start, ws + [ProgressW(20), StatusW(TtsStatus)],
                         cleared.(files := tsv.value), tsvPath);
    }

    /** Steps 3 and 4: the audio of the chapters, then the packaging. */
    method AudioStep(status: StatusRecord, ghost cfg: Config, a: Args, bookDate: string, xmls: seq<string>, w: World,
                     ghost start: seq<Write>, ghost ws: seq<Write>, disk: Disk, tsvPath: string)
      returns (after: Disk)
      requires status.Valid() && status.writes == start + ws && IsPermutation(w.order, |w.chapterDirs|)
      requires cfg == Config(daisyOutputDir, audioProcessor.audioOutputDir, xmlOutputDir)
      modifies status
      ensures status.Valid() && status.origin == old(status.origin)
      ensures var run := AudioStage(cfg, a, bookDate, xmls, w, ws, disk, tsvPath);
        status.writes == start + run.writes && after == run.disk
    {
      var tsvLst := SortedListing(w.chapterDirs, DirKey);
      if tsvLst.Err? {
        LogAssoc(start, ws, [StatusW(ErrorStatus(BadDirName(tsvLst.error)))]);
        status.SetStatus(ErrorStatus(BadDirName(tsvLst.error)));
        return disk;
      }
      AudioStageListed(cfg, a, bookDate, xmls, w, ws, disk, tsvPath, tsvLst.value);
      var lists := audioProcessor.CreateAudioForBook(tsvLst.value, status, w.eng, w.order);
      ghost var log := ws + AudioWrites(tsvLst.value, w.eng, cfg.audioDir);
      LogAssoc(start, ws, AudioWrites(tsvLst.value, w.eng, cfg.audioDir));
      if lists.Err? {
        LogAssoc(start, log, [StatusW(ErrorStatus(AudioFailed(lists.error)))]);
        status.SetStatus(ErrorStatus(AudioFailed(lists.error)));
        return disk;
      }
      var syncs, wavs := lists.value.0, lists.value.1;
      if |syncs| != |xmls| || |wavs| != |xmls| {
        LogAssoc(start, log, [StatusW(ErrorStatus(CountMismatch))]);
        status.SetStatus(ErrorStatus(CountMismatch));
        return disk;
      }
      PackStageRan(cfg, a, bookDate, xmls, syncs, wavs, w, log, disk, tsvPath);
      LogAssoc(start, log, [StatusW(PackStatus)]);
      status.SetStatus(PackStatus);
      LogAssoc(start, log + [StatusW(PackStatus)], [ProgressW(95)]);
      status.SetProgress(95);
      LogPair(log, StatusW(PackStatus), ProgressW(95));
      log := log + [StatusW(PackStatus), ProgressW(95)];
      var argv := AnemoneArgs(a.title, a.author, bookDate, a.publisher, wavs, xmls, syncs);
      var failure := w.anemone(argv);
      if failure.Some? {
        LogAssoc(start, log, [StatusW(ErrorStatus(AnemoneFailed(failure.value)))]);
        status.SetStatus(ErrorStatus(AnemoneFailed(failure.value)));
        return disk;
      }
      var finalZip := PathJoin(daisyOutputDir, a.title + "_daisy.zip");
      after := Disk(disk.files, disk.texts, (disk.archives - {OutputZip}) + {finalZip});
      after := after.(files := RemoveTree(after.files, tsvPath));
      LogAssoc(start, log, [ProgressW(100)]);
      status.SetProgress(100);
      LogAssoc(start, log + [ProgressW(100)], [StatusW(Finished)]);
      status.SetStatus(Finished);
      LogPair(log, ProgressW(100), StatusW(Finished));
    }
  }
}
