/** The HTTP service (server.py): the job table, the background run of one conversion and
    the status and download endpoints. The job id (a uuid4), whether a file exists and
    what the conversion reads from outside are given by the caller. */
module Server {
  import opened Text
  import opened Wrappers
  import opened JobStatus
  import opened Audio
  import opened DaisyMaking
  import opened DtbookSplit

  /** The body of a /process request; chunk_size defaults to 400. */
  datatype Book = Book(inputFile: string, title: string, author: string, date: string, publisher: string,
                       uid: string, chunkSize: int)

  datatype HttpError = HttpError(code: int, detail: string)

  /** The answer of /process. */
  datatype Started = Started(message: string, jobId: string)

  const OutputDir := "data/book_outputs"
  const InitStatus := "Initializing..."
  const ZipMissing := "Final DAISY zip file not found."
  const PromptText := "src/model/prompt.txt"
  const ModelDir := "src/model"
  const Checkpoint := "iter-525000-avg-2.pt"

  /** The reset of the record that opens the background run. */
  const InitWrites: seq<Write> := [StatusW(InitStatus), ProgressW(0), TotalW(1)]

  function DaisyDir(jobId: string): string
  {
    OutputDir + "/" + jobId + "/daisy_output"
  }

  function AudioDir(jobId: string): string
  {
    OutputDir + "/" + jobId + "/audio_output"
  }

  function XmlDir(jobId: string): string
  {
    OutputDir + "/" + jobId + "/xml_output"
  }

  /** Sentence mode is chosen when no chunk size is given or it is not positive. */
  function SentenceMode(chunkSize: Option<int>): bool
  {
    chunkSize.None? || chunkSize.value <= 0
  }

  /** The maker's directories for a job. */
  function JobConfig(jobId: string): Config
  {
    Config(DaisyDir(jobId), AudioDir(jobId), XmlDir(jobId))
  }

  /** create_daisy_for_book(status_dict=..., job_id=..., **book_data): chunk_size lands
      in the ignored keyword arguments. */
  function JobArgs(jobId: string, book: Book): Args
  {
    Args(jobId, book.inputFile, book.title, book.author, book.date, book.publisher, book.uid)
  }

  /** A path directly inside dir, as a one-level glob lists it. */
  predicate DirectlyIn(p: string, dir: string)
  {
    |dir| < |p| && p[..|dir| + 1] == dir + "/" && '/' !in p[|dir| + 1..]
  }

  /** daisy_output_dir.glob("*.zip"): the archives directly in the directory. */
  function ZipsIn(archives: set<string>, dir: string): (r: set<string>)
    ensures forall p :: p in r <==> p in archives && DirectlyIn(p, dir) && EndsWith(p, ".zip")
  {
    set p | p in archives && DirectlyIn(p, dir) && EndsWith(p, ".zip")
  }

  /** The record updates of run_daisy_creation, given which archive glob yields first
      (None: it yields none). */
  function RunWrites(jobId: string, book: Book, w: World, disk: Disk, picked: Option<string>): (r: seq<Write>)
    requires IsPermutation(w.order, |w.chapterDirs|)
    ensures |r| > 3 && r[..3] == InitWrites
  {
    if |w.promptLines| == 0 then InitWrites + [StatusW("error: " + IndexOutOfRange)]
    else
      var run := MakerRun(JobConfig(jobId), JobArgs(jobId, book), w, disk);
      InitWrites + run.writes + (if picked.None? then [StatusW("error: " + ZipMissing)]
                           else [StatusW(Finished), ResultW(picked)])
  }

  /** The disk after run_daisy_creation. */
  function RunDisk(jobId: string, book: Book, w: World, disk: Disk): Disk
    requires IsPermutation(w.order, |w.chapterDirs|)
  {
    if |w.promptLines| == 0 then disk else MakerRun(JobConfig(jobId), JobArgs(jobId, book), w, disk).disk
  }

  /** run_daisy_creation, the target of the background process: the record is reset, a
      maker is built (its audio processor reads the first line of the prompt text), the
      book is converted, and the job is finished only when an archive lies in the job's
      DAISY directory; otherwise the status says it is missing. */
  method RunDaisyCreation(jobId: string, status: StatusRecord, book: Book, w: World, disk: Disk)
    returns (after: Disk, picked: Option<string>, maker: DaisyMaker?)
    requires status.Valid() && IsPermutation(w.order, |w.chapterDirs|)
    modifies status
    ensures status.Valid() && status.origin == old(status.origin)
    ensures status.writes == old(status.writes) + RunWrites(jobId, book, w, disk, picked)
    ensures after == RunDisk(jobId, book, w, disk)
    ensures |w.promptLines| == 0 ==> picked.None? && maker == null
    ensures |w.promptLines| > 0 ==> (picked.None? <==> ZipsIn(after.archives, DaisyDir(jobId)) == {})
    ensures picked.Some? ==> picked.value in ZipsIn(after.archives, DaisyDir(jobId))
    ensures maker != null ==> maker.isSplitBySentence == SentenceMode(Some(book.chunkSize))
    ensures maker != null ==> !maker.textProcessor.splitBySentence && maker.textProcessor.chunkSize == 200
  {
    ghost var start := status.writes;
    Reset(status);
    if |w.promptLines| == 0 {
      LogAssoc(start, InitWrites, [StatusW("error: " + IndexOutOfRange)]);
      status.SetStatus("error: " + IndexOutOfRange);
      return disk, None, null;
    }
    after, maker := Convert(status, jobId, book, w, disk);
    ghost var run := MakerRun(JobConfig(jobId), JobArgs(jobId, book), w, disk);
    LogAssoc(start, InitWrites, run.writes);
    picked := Finish(status, jobId, after, start, InitWrites + run.writes);
    LogAssoc(start, InitWrites + run.writes, if picked.None? then [StatusW("error: " + ZipMissing)]
                                             else [StatusW(Finished), ResultW(picked)]);
  }

  /** The maker of the job, configured from the request, and its conversion of the book. */
  method Convert(status: StatusRecord, jobId: string, book: Book, w: World, disk: Disk)
    returns (after: Disk, maker: DaisyMaker)
    requires status.Valid() && IsPermutation(w.order, |w.chapterDirs|) && |w.promptLines| > 0
    modifies status
    ensures status.Valid() && status.origin == old(status.origin)
    ensures var run := MakerRun(JobConfig(jobId), JobArgs(jobId, book), w, disk);
      status.writes == old(status.writes) + run.writes && after == run.disk
    ensures maker.isSplitBySentence == SentenceMode(Some(book.chunkSize))
    ensures !maker.textProcessor.splitBySentence && maker.textProcessor.chunkSize == 200
  {
    var mode := SentenceMode(Some(book.chunkSize));
    maker := new DaisyMaker(DaisyDir(jobId), AudioDir(jobId), XmlDir(jobId), PromptWav, w.promptLines[0],
                            ModelDir, Checkpoint, mode, book.chunkSize);
    after := maker.CreateDaisyForBook(status, jobId, book.inputFile, book.title, book.author, book.date,
                                      book.publisher, book.uid, w, disk);
  }

  /** The three assignments that open the background run. */
  method Reset(status: StatusRecord)
    requires status.Valid()
    modifies status
    ensures status.Valid() && status.origin == old(status.origin)
    ensures status.writes == old(status.writes) + InitWrites
  {
    status.SetStatus(InitStatus);
    status.SetProgress(0);
    status.SetTotal(1);
  }

  /** The end of the background run: the first archive glob finds, or the error. */
  method Finish(status: StatusRecord, jobId: string, after: Disk, ghost start: seq<Write>, ghost log: seq<Write>)
    returns (picked: Option<string>)
    requires status.Valid() && status.writes == start + log
    modifies status
    ensures status.Valid() && status.origin == old(status.origin)
    ensures picked.None? <==> ZipsIn(after.archives, DaisyDir(jobId)) == {}
    ensures picked.Some? ==> picked.value in ZipsIn(after.archives, DaisyDir(jobId))
    ensures status.writes == start + log + (if picked.None? then [StatusW("error: " + ZipMissing)]
                                            else [StatusW(Finished), ResultW(picked)])
  {
    var zips := ZipsIn(after.archives, DaisyDir(jobId));
    if zips == {} {
      status.SetStatus("error: " + ZipMissing);
      picked := None;
    } else {
      var z :| z in zips;
      picked := Some(z);
      status.SetStatus(Finished);
      status.SetResultPath(picked);
      LogPair(start + log, StatusW(Finished), ResultW(picked));
    }
  }

  /** The record after the background run: the conversion's own final status never
      survives. The job is "finished" with the picked archive as its result exactly when
      an archive was found; otherwise the status is the missing-archive error, or the
      IndexError of an empty prompt text. */
  lemma RunRecord(o: Snapshot, jobId: string, book: Book, w: World, disk: Disk, picked: Option<string>)
    requires IsPermutation(w.order, |w.chapterDirs|)
    ensures var s := Replay(o, RunWrites(jobId, book, w, disk, picked));
      (|w.promptLines| == 0 ==> s.status == "error: " + IndexOutOfRange)
      && (|w.promptLines| > 0 && picked.None? ==> s.status == "error: " + ZipMissing)
      && (|w.promptLines| > 0 && picked.Some? ==> s.status == Finished && s.resultPath == picked)
  {
    var ws := RunWrites(jobId, book, w, disk, picked);
    if |w.promptLines| > 0 && picked.Some? {
      var pre := ws[..|ws| - 1];
      assert ws == pre + [ResultW(picked)];
      assert pre[|pre| - 1] == StatusW(Finished);
      ReplaySnoc(o, pre, ResultW(picked));
      LastStatus(o, pre);
    } else {
      LastStatus(o, ws);
    }
  }

  /** A slash-free name joined to a directory that does not end in a slash. */
  lemma JoinedName(d: string, name: string)
    requires |d| > 0 && d[|d| - 1] != '/' && '/' !in name
    ensures PathJoin(d, name) == d + "/" + name && DirectlyIn(d + "/" + name, d)
    ensures Basename(d + "/" + name) == name
  {
    var z := d + "/" + name;
    assert z[..|d| + 1] == d + "/";
    assert z[|d| + 1..] == name;
    AfterLastOf(d, '/', name);
  }

  lemma EndsWithAppend(u: string, v: string, suffix: string)
    requires EndsWith(v, suffix)
    ensures EndsWith(u + v, suffix)
  {
    assert (u + v)[|u + v| - |suffix|..] == v[|v| - |suffix|..];
  }

  lemma ZipName(title: string)
    ensures EndsWith(title + "_daisy.zip", ".zip")
    ensures '/' !in title ==> '/' !in title + "_daisy.zip"
  {
    EndsWithAppend(title, "_daisy.zip", ".zip");
  }

  lemma DaisyDirEnd(jobId: string)
    ensures |DaisyDir(jobId)| > 0 && DaisyDir(jobId)[|DaisyDir(jobId)| - 1] != '/'
  {
    var u, v := OutputDir + "/" + jobId, "/daisy_output";
    assert DaisyDir(jobId) == u + v;
    assert (u + v)[|u + v| - 1] == v[|v| - 1];
  }

  /** A title without a slash names an archive directly in the DAISY directory, and
      that archive is downloaded under the name "<title>_daisy.zip". */
  lemma FinalZipInDir(jobId: string, book: Book)
    requires '/' !in book.title
    ensures var z := FinalZip(JobConfig(jobId), JobArgs(jobId, book));
      DirectlyIn(z, DaisyDir(jobId)) && EndsWith(z, ".zip") && Basename(z) == book.title + "_daisy.zip"
  {
    var name := book.title + "_daisy.zip";
    DaisyDirEnd(jobId);
    ZipName(book.title);
    JoinedName(DaisyDir(jobId), name);
    EndsWithAppend(DaisyDir(jobId) + "/", name, ".zip");
  }

  /** In a fresh job directory, the background run finds exactly the book the conversion
      moved there, and nothing when the conversion failed: a failure's own message is
      then replaced by the missing-archive error. */
  lemma RunFindsBook(jobId: string, book: Book, w: World, disk: Disk)
    requires IsPermutation(w.order, |w.chapterDirs|) && |w.promptLines| > 0
    requires ZipsIn(disk.archives, DaisyDir(jobId)) == {} && '/' !in book.title
    ensures var run := MakerRun(JobConfig(jobId), JobArgs(jobId, book), w, disk);
      ZipsIn(RunDisk(jobId, book, w, disk).archives, DaisyDir(jobId))
      == if run.outcome.Ok? then {FinalZip(JobConfig(jobId), JobArgs(jobId, book))} else {}
  {
    var run := MakerRun(JobConfig(jobId), JobArgs(jobId, book), w, disk);
    if run.outcome.Ok? {
      FinalZipInDir(jobId, book);
      ZipsAfterMove(disk.archives, DaisyDir(jobId), FinalZip(JobConfig(jobId), JobArgs(jobId, book)));
    }
  }

  /** Moving an archive into a directory that held none leaves exactly that one there. */
  lemma ZipsAfterMove(archives: set<string>, d: string, z: string)
    requires ZipsIn(archives, d) == {} && DirectlyIn(z, d) && EndsWith(z, ".zip")
    ensures ZipsIn((archives - {OutputZip}) + {z}, d) == {z}
  {
    var found := ZipsIn((archives - {OutputZip}) + {z}, d);
    assert z in found;
    forall p | p in found
      ensures p == z
    {
      assert p !in ZipsIn(archives, d);
    }
  }

  /** The server's job table: None until the startup hook has made the shared dictionary. */
  class JobServer {
    var jobs: Option<map<string, StatusRecord>>

    constructor ()
      ensures jobs == None
    {
      jobs := None;
    }

    /** The records the table holds. */
    function Records(): set<StatusRecord>
      reads this
    {
      if jobs.Some? then jobs.value.Values else {}
    }

    /** The startup hook. */
    method Startup()
      modifies this
      ensures jobs == Some(map[])
    {
      jobs := Some(map[]);
    }

    /** POST /process: a new record under a fresh id, once the table exists and the input
        file does; the background run is started by the caller with that record. */
    method ProcessBook(book: Book, jobId: string, inputExists: bool) returns (r: Result<Started, HttpError>)
      modifies this
      ensures old(jobs).None? ==> r == Err(HttpError(500, "Job manager not initialized")) && jobs == old(jobs)
      ensures old(jobs).Some? && !inputExists ==>
        r == Err(HttpError(404, "Input file not found: " + book.inputFile)) && jobs == old(jobs)
      ensures old(jobs).Some? && inputExists ==>
        r == Ok(Started("Processing started", jobId))
        && jobs.Some? && jobs.value.Keys == old(jobs).value.Keys + {jobId}
        && (forall id :: id in old(jobs).value && id != jobId ==> jobs.value[id] == old(jobs).value[id])
        && fresh(jobs.value[jobId]) && jobs.value[jobId].Valid() && jobs.value[jobId].writes == []
        && jobs.value[jobId].Copy() == Snapshot("starting", 0, 1, None)
    {
      if jobs.None? {
        return Err(HttpError(500, "Job manager not initialized"));
      }
      if !inputExists {
        return Err(HttpError(404, "Input file not found: " + book.inputFile));
      }
      var record := new StatusRecord("starting", 0, 1, None);
      jobs := Some(jobs.value[jobId := record]);
      r := Ok(Started("Processing started", jobId));
    }

    /** GET /status/{job_id}: a copy of the record, or 404. */
    function GetStatus(jobId: string): (r: Result<Snapshot, HttpError>)
      reads this, Records()
      ensures r.Err? <==> jobs.None? || jobId !in jobs.value
      ensures r.Err? ==> r.error == HttpError(404, "Job not found")
      ensures r.Ok? ==> r.value.status == jobs.value[jobId].status && r.value.progress == jobs.value[jobId].progress
      ensures r.Ok? ==> r.value.total == jobs.value[jobId].total && r.value.resultPath == jobs.value[jobId].resultPath
    {
      if jobs.None? || jobs.value == map[] || jobId !in jobs.value then Err(HttpError(404, "Job not found"))
      else Ok(jobs.value[jobId].Copy())
    }

    /** GET /download/{job_id}: the archive and its file name, only for a finished job
        whose result path is set and exists. */
    function DownloadResult(jobId: string, onDisk: string -> bool): (r: Result<(string, string), HttpError>)
      reads this, Records()
      ensures r.Ok? <==> jobs.Some? && jobId in jobs.value && jobs.value[jobId].status == Finished
                         && jobs.value[jobId].resultPath.Some? && jobs.value[jobId].resultPath.value != []
                         && onDisk(jobs.value[jobId].resultPath.value)
      ensures r.Ok? ==> r.value == (jobs.value[jobId].resultPath.value, Basename(jobs.value[jobId].resultPath.value))
      ensures r.Err? && (jobs.None? || jobId !in jobs.value || jobs.value[jobId].status != Finished) ==>
        r.error == HttpError(404, "Job not found or not finished")
      ensures r.Err? && jobs.Some? && jobId in jobs.value && jobs.value[jobId].status == Finished ==>
        r.error == HttpError(404, "Result file not found.")
    {
      if jobs.None? || jobs.value == map[] || jobId !in jobs.value || jobs.value[jobId].status != Finished then
        Err(HttpError(404, "Job not found or not finished"))
      else
        var path := jobs.value[jobId].resultPath;
        if path.None? || path.value == [] || !onDisk(path.value) then Err(HttpError(404, "Result file not found."))
        else Ok((path.value, Basename(path.value)))
    }
  }
}
