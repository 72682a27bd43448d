/** The audio side of the pipeline (src/audio_process/audio_processor.py): merging the
    per-chunk recordings of a chapter into one track with a synchronisation map, and the
    chapter loop of create_audio_for_book. Audio is modelled by durations in milliseconds. */
module Audio {
  import opened Text
  import opened Wrappers
  import opened AnemoneTime
  import opened JobStatus
  import TextProcessing

  /** The silence put between two body recordings. */
  const PauseMs := 800

  /** One entry of the sync map: a marker id and its "M:SS.FF" time. */
  datatype Marker = Marker(id: string, time: string)

  /** A piece of the merged track: recording number `file` of the chapter, or the pause. */
  datatype Piece = Clip(file: nat) | Silence

  /** What merging a chapter produces: the sync file and the track file it writes, the
      markers written to the sync file, the pieces of the track and its length. */
  datatype Merged = Merged(syncPath: string, wavPath: string, markers: seq<Marker>, track: seq<Piece>, lengthMs: nat)

  datatype AudioError =
    | NoAudio(chapter: int)        // IndexError: the chapter has no recording
    | Undecodable(path: string)    // a recording that cannot be read
    | BadNumber(tsvFile: string)   // ValueError from int() on the number in a TTS list's name
    | BadWavName(path: string)     // ValueError from int() on the number in a recording's name
    | UnboundChapter               // no TTS list in the first chapter directory

  /** str() of the exception behind each error. The decoder's own text is not known, so
      an undecodable recording is reported by its path. */
  function AudioMessage(e: AudioError): string
  {
    match e
    case NoAudio(_) => IndexOutOfRange
    case Undecodable(path) => "could not decode " + path
    case BadNumber(tsvFile) => IntLiteralError(AfterLast(ChapterOfTsv(tsvFile), '_'))
    case BadWavName(path) => IntLiteralError(WavLiteral(path))
    case UnboundChapter => UnboundError("chapter")
  }

  // ---------------------------------------------------------------- one chapter

  /** Total duration of the recordings. */
  function Sum(c: seq<nat>): nat
  {
    if |c| == 0 then 0 else Sum(c[..|c| - 1]) + c[|c| - 1]
  }

  lemma SumPrefix(c: seq<nat>, m: nat)
    requires m < |c|
    ensures Sum(c[..m + 1]) == Sum(c[..m]) + c[m]
  {
    assert c[..m + 1][..m] == c[..m];
  }

  /** Where recording i (1 <= i < |c|) starts in the merged track: after the title, the
      recordings 1 .. i-1 and a pause after each of them. */
  function Start(c: seq<nat>, i: nat): nat
    requires 1 <= i <= |c|
  {
    Sum(c[..i]) + PauseMs * (i - 1)
  }

  /** The length of the merged track: every recording, and a pause after each body
      recording except the last (none after the title). */
  function MergedLength(c: seq<nat>): nat
  {
    Sum(c) + PauseMs * (if |c| >= 2 then |c| - 2 else 0)
  }

  function TitleMarker(chapter: int): Marker
  {
    Marker("c" + IntToString(chapter) + "_title", "0:00")
  }

  function BodyMarker(chapter: int, idx: nat, ms: nat): Marker
  {
    Marker("c" + IntToString(chapter) + "_c" + NatToString(idx), MsToAnemoneTime(ms))
  }

  /** The markers of a chapter: the title at "0:00", then one per body recording, at the
      time that recording starts. */
  function Markers(c: seq<nat>, chapter: int): (r: seq<Marker>)
    requires |c| >= 1
    ensures |r| == |c| && r[0] == TitleMarker(chapter)
  {
    [TitleMarker(chapter)] + seq(|c| - 1, i requires 0 <= i < |c| - 1 => BodyMarker(chapter, i, Start(c, i + 1)))
  }

  /** The pieces after the first m recordings of n were appended. */
  function Layout(n: nat, m: nat): (t: seq<Piece>)
    requires 1 <= m <= n
    decreases m
  {
    if m == 1 then [Clip(0)]
    else Layout(n, m - 1) + [Clip(m - 1)] + (if m - 1 < n - 1 then [Silence] else [])
  }

  function PieceMs(p: Piece, c: seq<nat>): nat
  {
    match p
    case Clip(f) => if f < |c| then c[f] else 0
    case Silence => PauseMs
  }

  /** The length of a track: the durations of its pieces added up. */
  function TrackMs(t: seq<Piece>, c: seq<nat>): nat
  {
    if |t| == 0 then 0 else TrackMs(t[..|t| - 1], c) + PieceMs(t[|t| - 1], c)
  }

  lemma TrackMsSnoc(t: seq<Piece>, p: Piece, c: seq<nat>)
    ensures TrackMs(t + [p], c) == TrackMs(t, c) + PieceMs(p, c)
  {
    assert (t + [p])[..|t|] == t;
  }

  /** The pauses in the first m recordings: one after each body recording but the last. */
  function Gaps(n: nat, m: nat): nat
    requires 1 <= m <= n
  {
    if m < n then m - 1 else if n >= 2 then n - 2 else 0
  }

  /** The length of a partial track is the recordings so far plus their pauses. */
  lemma {:induction false} LayoutMs(c: seq<nat>, m: nat)
    requires 1 <= m <= |c|
    ensures TrackMs(Layout(|c|, m), c) == Sum(c[..m]) + PauseMs * Gaps(|c|, m)
    decreases m
  {
    var n := |c|;
    if m == 1 {
      assert c[..1][..0] == [];
      assert TrackMs([Clip(0)], c) == TrackMs([], c) + PieceMs(Clip(0), c);
    } else {
      LayoutMs(c, m - 1);
      var before := Layout(n, m - 1);
      TrackMsSnoc(before, Clip(m - 1), c);
      SumPrefix(c, m - 1);
      if m - 1 < n - 1 {
        TrackMsSnoc(before + [Clip(m - 1)], Silence, c);
      } else {
        assert before + [Clip(m - 1)] + [] == before + [Clip(m - 1)];
      }
    }
  }

  function SyncPath(outDir: string, chapter: int): string
  {
    outDir + "/chapter_" + IntToString(chapter) + "/sync_" + IntToString(chapter) + ".json"
  }

  function FullWavPath(outDir: string, chapter: int): string
  {
    outDir + "/chapter_" + IntToString(chapter) + "/full_" + IntToString(chapter) + ".wav"
  }

  /** _merge_wav_in_chapter on the durations of the chapter's recordings, in the order
      given: the first is the title, the rest are the body chunks. */
  method MergeWavInChapter(outDir: string, c: seq<nat>, chapter: int) returns (r: Result<Merged, AudioError>)
    ensures |c| == 0 ==> r == Err(NoAudio(chapter))
    ensures |c| > 0 ==> (r.Ok?
      && r.value.syncPath == SyncPath(outDir, chapter) && r.value.wavPath == FullWavPath(outDir, chapter)
      && r.value.markers == Markers(c, chapter)
      && r.value.track == Layout(|c|, |c|)
      && r.value.lengthMs == MergedLength(c))
  {
    if |c| == 0 {
      return Err(NoAudio(chapter));
    }
    var n := |c|;
    var markers := [TitleMarker(chapter)];
    var combined := [Clip(0)];
    var currentMs: nat := c[0];
    assert c[..1][..0] == [];
    for idx := 0 to n - 1
      invariant |markers| == idx + 1 && markers[0] == TitleMarker(chapter)
      invariant forall k :: 1 <= k <= idx ==> markers[k] == BodyMarker(chapter, k - 1, Start(c, k))
      invariant combined == Layout(n, idx + 1)
      invariant currentMs == Sum(c[..idx + 1]) + PauseMs * Gaps(n, idx + 1)
    {
      markers := AppendMarker(c, chapter, markers, idx, currentMs);
      LayoutStep(c, idx + 1);
      combined := combined + [Clip(idx + 1)];
      currentMs := currentMs + c[idx + 1];
      if idx < n - 2 {
        combined := combined + [Silence];
        currentMs := currentMs + PauseMs;
      }
    }
    assert c[..n] == c;
    MarkersAre(c, chapter, markers);
    r := Ok(Merged(SyncPath(outDir, chapter), FullWavPath(outDir, chapter), markers, combined, currentMs));
  }

  /** audio_sync_lst.append: the marker of body recording idx + 1, which starts at
      currentMs, extends the sync map. */
  method AppendMarker(c: seq<nat>, chapter: int, markers: seq<Marker>, idx: nat, currentMs: nat) returns (r: seq<Marker>)
    requires idx + 1 < |c| && |markers| == idx + 1
    requires forall k :: 1 <= k <= idx ==> markers[k] == BodyMarker(chapter, k - 1, Start(c, k))
    requires currentMs == Sum(c[..idx + 1]) + PauseMs * Gaps(|c|, idx + 1)
    ensures |r| == idx + 2 && r[0] == markers[0]
    ensures forall k :: 1 <= k <= idx + 1 ==> r[k] == BodyMarker(chapter, k - 1, Start(c, k))
  {
    r := markers + [BodyMarker(chapter, idx, currentMs)];
  }

  /** Appending recording m, and the pause after it unless it is the last, lengthens the
      track by that recording and that pause. */
  lemma LayoutStep(c: seq<nat>, m: nat)
    requires 1 <= m < |c|
    ensures Layout(|c|, m + 1) == Layout(|c|, m) + [Clip(m)] + (if m < |c| - 1 then [Silence] else [])
    ensures Sum(c[..m + 1]) + PauseMs * Gaps(|c|, m + 1)
         == Sum(c[..m]) + PauseMs * Gaps(|c|, m) + c[m] + (if m < |c| - 1 then PauseMs else 0)
  {
    SumPrefix(c, m);
    assert Layout(|c|, m) + [Clip(m)] + [] == Layout(|c|, m) + [Clip(m)];
  }

  /** A list with the title marker first and marker i at the start of recording i is the
      sync map. */
  lemma MarkersAre(c: seq<nat>, chapter: int, ms: seq<Marker>)
    requires |ms| == |c| >= 1 && ms[0] == TitleMarker(chapter)
    requires forall k :: 1 <= k < |c| ==> ms[k] == BodyMarker(chapter, k - 1, Start(c, k))
    ensures ms == Markers(c, chapter)
  {
    forall k | 1 <= k < |c|
      ensures ms[k] == Markers(c, chapter)[k]
    {
      MarkerAt(c, chapter, k);
    }
  }

  lemma MarkerAt(c: seq<nat>, chapter: int, i: nat)
    requires 1 <= i < |c|
    ensures Markers(c, chapter)[i] == BodyMarker(chapter, i - 1, Start(c, i))
  {
  }

  // ---------------------------------------------------------------- properties of a chapter

  /** The merged length is the length of the pieces laid down. */
  lemma MergedLengthIsTrack(c: seq<nat>)
    requires |c| >= 1
    ensures TrackMs(Layout(|c|, |c|), c) == MergedLength(c)
  {
    LayoutMs(c, |c|);
    assert c[..|c|] == c;
  }

  /** The track is the title, then each body recording followed by a pause, except the
      last body recording, which is followed by nothing. */
  lemma {:induction false} LayoutShape(n: nat, m: nat)
    requires 1 <= m <= n
    ensures var t := Layout(n, m);
      |t| == (if m < n then 2 * m - 1 else if n >= 2 then 2 * n - 2 else 1)
      && t[0] == Clip(0)
      && (forall i :: 1 <= i < m ==> t[2 * i - 1] == Clip(i))
      && (forall i :: 1 <= i < m && i < n - 1 ==> t[2 * i] == Silence)
    decreases m
  {
    if m > 1 {
      LayoutShape(n, m - 1);
    }
  }

  /** Each body marker is later than the one before it, by the previous recording and
      its pause. */
  lemma StartsIncrease(c: seq<nat>, i: nat)
    requires 1 <= i && i + 1 < |c|
    ensures Start(c, i + 1) == Start(c, i) + c[i] + PauseMs
    ensures Start(c, i) < Start(c, i + 1)
  {
    SumPrefix(c, i);
  }

  /** The body markers start no earlier than the end of the title and end no later than
      the track. */
  lemma {:induction false} StartsWithin(c: seq<nat>, i: nat)
    requires 1 <= i < |c|
    ensures c[0] <= Start(c, i) <= MergedLength(c)
    decreases i
  {
    if i == 1 {
      assert c[..1][..0] == [];
      SumPrefix(c, 0);
      LayoutMs(c, |c|);
      SumWithin(c, 1);
    } else {
      StartsWithin(c, i - 1);
      StartsIncrease(c, i - 1);
      SumWithin(c, i);
      SumPrefix(c, i);
    }
  }

  lemma {:induction false} SumWithin(c: seq<nat>, m: nat)
    requires m <= |c|
    ensures Sum(c[..m]) + Sum(c[m..]) == Sum(c)
    decreases |c| - m
  {
    if m == |c| {
      assert c[..m] == c && c[m..] == [];
    } else {
      SumWithin(c, m + 1);
      SumPrefix(c, m);
      SumCons(c[m..]);
      assert c[m..][1..] == c[m + 1..];
    }
  }

  lemma {:induction false} SumCons(c: seq<nat>)
    requires |c| > 0
    ensures Sum(c) == c[0] + Sum(c[1..])
    decreases |c|
  {
    if |c| > 1 {
      SumCons(c[..|c| - 1]);
      assert c[..|c| - 1][1..] == c[1..][..|c| - 2];
    }
  }

  /** Read back, the marker times never go down along the sync map. */
  lemma MarkerTimesMonotone(c: seq<nat>, chapter: int, i: nat, j: nat)
    requires 1 <= i <= j < |c|
    ensures ParseAnemoneTime(Markers(c, chapter)[i].time).Some?
    ensures ParseAnemoneTime(Markers(c, chapter)[j].time).Some?
    ensures ParseAnemoneTime(Markers(c, chapter)[i].time).value <= ParseAnemoneTime(Markers(c, chapter)[j].time).value
  {
    var a, b := Start(c, i), Start(c, j);
    MarkerAt(c, chapter, i);
    MarkerAt(c, chapter, j);
    assert Markers(c, chapter)[i].time == MsToAnemoneTime(a);
    assert Markers(c, chapter)[j].time == MsToAnemoneTime(b);
    StartsMonotone(c, i, j);
    Monotone(a, b);
  }

  lemma {:induction false} StartsMonotone(c: seq<nat>, i: nat, j: nat)
    requires 1 <= i <= j < |c|
    ensures Start(c, i) <= Start(c, j)
    decreases j - i
  {
    if i < j {
      StartsIncrease(c, i);
      StartsMonotone(c, i + 1, j);
    }
  }

  // ---------------------------------------------------------------- file names and sorting

  /** os.path.basename: the text after the last '/'. */
  function Basename(p: string): string
  {
    AfterLast(p, '/')
  }

  /** os.path.normpath, as far as it matters here: trailing slashes are dropped. */
  function NormPath(p: string): (r: string)
    ensures |r| <= |p| && (|r| > 1 ==> r[|r| - 1] != '/')
  {
    if |p| > 1 && p[|p| - 1] == '/' then NormPath(p[..|p| - 1]) else p
  }

  /** The sort key of a recording: int(x.split("_")[-1].split(".")[0]). */
  function WavKey(path: string): Option<int>
  {
    ParseInt(WavLiteral(path))
  }

  /** What the sort key of a recording hands to int(): x.split("_")[-1].split(".")[0]. */
  function WavLiteral(path: string): string
  {
    BeforeFirst(AfterLast(path, '_'), '.')
  }

  /** The sort key of a chapter directory: int(basename(normpath(x)).split("_")[-1]). */
  function DirKey(dir: string): Option<int>
  {
    ParseInt(DirLiteral(dir))
  }

  /** What the sort key of a chapter directory hands to int(). */
  function DirLiteral(dir: string): string
  {
    AfterLast(Basename(NormPath(dir)), '_')
  }

  /** The keys of the items, computed in order as sorted() does before it sorts; the first
      item whose key int() rejects is the error. */
  function Keyed(items: seq<string>, key: string -> Option<int>): (r: Result<seq<(int, string)>, string>)
    ensures r.Ok? <==> forall k :: 0 <= k < |items| ==> key(items[k]).Some?
    ensures r.Ok? ==> |r.value| == |items|
    ensures r.Ok? ==> forall k :: 0 <= k < |items| ==> r.value[k] == (key(items[k]).value, items[k])
    ensures r.Err? ==> exists k :: 0 <= k < |items| && key(items[k]).None? && r.error == items[k]
  {
    if |items| == 0 then Ok([])
    else match key(items[0])
      case None => Err(items[0])
      case Some(v) =>
        match Keyed(items[1..], key)
        case Err(e) => Err(e)
        case Ok(rest) => Ok([(v, items[0])] + rest)
  }

  predicate SortedByKey(s: seq<(int, string)>)
  {
    forall i :: 0 < i < |s| ==> s[i - 1].0 <= s[i].0
  }

  /** Inserts x before the first item whose key is not smaller. */
  function Insert(x: (int, string), s: seq<(int, string)>): (r: seq<(int, string)>)
    requires SortedByKey(s)
    ensures multiset(r) == multiset(s) + multiset{x} && SortedByKey(r) && |r| == |s| + 1
    ensures r[0] == x || (|s| > 0 && r[0] == s[0])
  {
    if |s| == 0 then [x]
    else if x.0 <= s[0].0 then [x] + s
    else
      assert s == [s[0]] + s[1..];
      [s[0]] + Insert(x, s[1..])
  }

  /** sorted(items, key=...) once the keys are known: a stable sort by ascending key. */
  function SortByKey(xs: seq<(int, string)>): (r: seq<(int, string)>)
    ensures multiset(r) == multiset(xs) && SortedByKey(r) && |r| == |xs|
  {
    if |xs| == 0 then []
    else
      assert xs == [xs[0]] + xs[1..];
      Insert(xs[0], SortByKey(xs[1..]))
  }

  function Items(xs: seq<(int, string)>): (r: seq<string>)
    ensures |r| == |xs| && forall k :: 0 <= k < |xs| ==> r[k] == xs[k].1
  {
    seq(|xs|, k requires 0 <= k < |xs| => xs[k].1)
  }

  /** Sorting a listing: the keys are computed first (int() may reject a name), then the
      items are sorted by key. */
  function SortedListing(items: seq<string>, key: string -> Option<int>): (r: Result<seq<string>, string>)
    ensures r.Ok? ==> |r.value| == |items|
  {
    match Keyed(items, key)
    case Err(e) => Err(e)
    case Ok(keyed) => Ok(Items(SortByKey(keyed)))
  }

  /** In a list sorted by key, every key is at most the ones after it. */
  lemma {:induction false} SortedPairs(s: seq<(int, string)>, i: nat, j: nat)
    requires SortedByKey(s) && i <= j < |s|
    ensures s[i].0 <= s[j].0
    decreases j - i
  {
    if i < j {
      SortedPairs(s, i, j - 1);
    }
  }

  /** Two lists sorted by key, with distinct keys and the same items, are the same list:
      the sorted order does not depend on the order of the listing. */
  lemma {:induction false} SortedUnique(a: seq<(int, string)>, b: seq<(int, string)>)
    requires SortedByKey(a) && SortedByKey(b) && multiset(a) == multiset(b)
    requires forall i, j :: 0 <= i < j < |a| ==> a[i].0 != a[j].0
    ensures a == b
    decreases |a|
  {
    SameLength(a, b);
    if |a| > 0 {
      SameHead(a, b);
      SameTail(a, b);
      SortedUnique(a[1..], b[1..]);
    }
  }

  lemma SameLength<T>(a: seq<T>, b: seq<T>)
    requires multiset(a) == multiset(b)
    ensures |a| == |b|
  {
    assert |a| == |multiset(a)| && |b| == |multiset(b)|;
  }

  lemma SameTail<T>(a: seq<T>, b: seq<T>)
    requires |a| > 0 && |b| > 0 && a[0] == b[0] && multiset(a) == multiset(b)
    ensures multiset(a[1..]) == multiset(b[1..])
  {
    assert a == [a[0]] + a[1..] && b == [b[0]] + b[1..];
    assert multiset(a) == multiset{a[0]} + multiset(a[1..]);
    assert multiset(b) == multiset{b[0]} + multiset(b[1..]);
    assert multiset(a[1..]) == multiset(a) - multiset{a[0]};
    assert multiset(b[1..]) == multiset(b) - multiset{b[0]};
  }

  /** The first items of two such lists both carry the smallest key, so they agree. */
  lemma SameHead(a: seq<(int, string)>, b: seq<(int, string)>)
    requires SortedByKey(a) && SortedByKey(b) && multiset(a) == multiset(b) && |a| > 0 && |b| > 0
    requires forall i, j :: 0 <= i < j < |a| ==> a[i].0 != a[j].0
    ensures a[0] == b[0]
  {
    assert a[0] in multiset(b) && b[0] in multiset(a);
    var ia :| 0 <= ia < |b| && b[ia] == a[0];
    var ib :| 0 <= ib < |a| && a[ib] == b[0];
    SortedPairs(b, 0, ia);
    SortedPairs(a, 0, ib);
  }

  // ---------------------------------------------------------------- the book

  /** What the file system and the speech engine supply. `tsvLists` maps a chapter
      directory to the TTS lists glob finds in it, in sorted order; `recordings` maps a
      result directory to the recordings the engine wrote there, in the order glob lists
      them; `durations` maps a recording to its length in milliseconds. */
  datatype Engine = Engine(tsvLists: map<string, seq<string>>, recordings: map<string, seq<string>>,
                           durations: map<string, nat>)

  /** A directory listing; a missing directory lists nothing. */
  function Listing(m: map<string, seq<string>>, key: string): (r: seq<string>)
    ensures key !in m ==> r == []
  {
    if key in m then m[key] else []
  }

  /** The variables the loop over a chapter's TTS lists leaves set: the chapter name, its
      number and the result directory of the engine. */
  datatype Current = Current(chapter: string, chapterId: int, resultDir: string)

  /** A submitted merge: the recordings in sorted order and the chapter number. */
  datatype Job = Job(wavs: seq<string>, chapterId: int)

  /** basename(tts_file).split(".")[0]. */
  function ChapterOfTsv(tsvFile: string): string
  {
    BeforeFirst(Basename(tsvFile), '.')
  }

  /** The loop over a chapter directory's TTS lists: each list sets the variables. With no
      list the variables keep the previous chapter's values, and before the first chapter
      they are unbound. */
  function TsvLoop(files: seq<string>, outDir: string, carried: Option<Current>): Result<Current, AudioError>
    decreases |files|
  {
    if |files| == 0 then
      if carried.None? then Err(UnboundChapter) else Ok(carried.value)
    else
      var chapter := ChapterOfTsv(files[0]);
      match ParseInt(AfterLast(chapter, '_'))
      case None => Err(BadNumber(files[0]))
      case Some(id) => TsvLoop(files[1..], outDir, Some(Current(chapter, id, outDir + "/" + chapter)))
  }

  /** One pass of the loop over the TTS lists, from the list at index k. */
  lemma TsvLoopStep(files: seq<string>, k: nat, outDir: string, current: Option<Current>)
    requires k < |files|
    ensures var chapter := ChapterOfTsv(files[k]);
      var id := ParseInt(AfterLast(chapter, '_'));
      (id.None? ==> TsvLoop(files[k..], outDir, current) == Err(BadNumber(files[k])))
      && (id.Some? ==> TsvLoop(files[k..], outDir, current)
                       == TsvLoop(files[k + 1..], outDir, Some(Current(chapter, id.value, outDir + "/" + chapter))))
  {
    assert files[k..][0] == files[k] && files[k..][1..] == files[k + 1..];
  }

  /** One chapter of the submission loop: the TTS lists, then the recordings sorted by
      their number. */
  function ChapterJob(dir: string, eng: Engine, outDir: string, carried: Option<Current>): Result<(Current, Job), AudioError>
  {
    match TsvLoop(Listing(eng.tsvLists, dir), outDir, carried)
    case Err(e) => Err(e)
    case Ok(cur) =>
      match SortedListing(Listing(eng.recordings, cur.resultDir), WavKey)
      case Err(name) => Err(BadWavName(name))
      case Ok(wavs) => Ok((cur, Job(wavs, cur.chapterId)))
  }

  /** The state of the submission loop after some chapters: the merges submitted, the
      loop variables, and the exception that ended the loop, if one did. */
  datatype Plan = Plan(jobs: seq<Job>, current: Option<Current>, failure: Option<AudioError>)

  function Submitted(dirs: seq<string>, eng: Engine, outDir: string, i: nat): (p: Plan)
    requires i <= |dirs|
    ensures p.failure.None? ==> |p.jobs| == i
    ensures p.failure.Some? ==> |p.jobs| < i
  {
    if i == 0 then Plan([], None, None)
    else
      var p := Submitted(dirs, eng, outDir, i - 1);
      if p.failure.Some? then p
      else match ChapterJob(dirs[i - 1], eng, outDir, p.current)
        case Err(e) => p.(failure := Some(e))
        case Ok(step) => Plan(p.jobs + [step.1], Some(step.0), None)
  }

  /** Once the loop has failed, the later chapters change nothing. */
  lemma {:induction false} SubmittedSticks(dirs: seq<string>, eng: Engine, outDir: string, i: nat, j: nat)
    requires i <= j <= |dirs| && Submitted(dirs, eng, outDir, i).failure.Some?
    ensures Submitted(dirs, eng, outDir, j) == Submitted(dirs, eng, outDir, i)
    decreases j - i
  {
    if i < j {
      SubmittedSticks(dirs, eng, outDir, i, j - 1);
    }
  }

  /** from_wav on each recording: the durations, or the first recording that cannot be read. */
  function Decoded(paths: seq<string>, eng: Engine): (r: Result<seq<nat>, AudioError>)
    ensures r.Ok? ==> |r.value| == |paths|
  {
    if |paths| == 0 then Ok([])
    else if paths[0] !in eng.durations then Err(Undecodable(paths[0]))
    else match Decoded(paths[1..], eng)
      case Err(e) => Err(e)
      case Ok(rest) => Ok([eng.durations[paths[0]]] + rest)
  }

  /** What merging a chapter gives, as MergeWavInChapter computes it. */
  function MergeOutcome(outDir: string, c: seq<nat>, chapter: int): Result<Merged, AudioError>
  {
    if |c| == 0 then Err(NoAudio(chapter))
    else Ok(Merged(SyncPath(outDir, chapter), FullWavPath(outDir, chapter), Markers(c, chapter),
                   Layout(|c|, |c|), MergedLength(c)))
  }

  function JobOutcome(job: Job, outDir: string, eng: Engine): Result<Merged, AudioError>
  {
    match Decoded(job.wavs, eng)
    case Err(e) => Err(e)
    case Ok(c) => MergeOutcome(outDir, c, job.chapterId)
  }

  function Outcomes(jobs: seq<Job>, outDir: string, eng: Engine): (r: seq<Result<Merged, AudioError>>)
    ensures |r| == |jobs| && forall k :: 0 <= k < |jobs| ==> r[k] == JobOutcome(jobs[k], outDir, eng)
  {
    seq(|jobs|, k requires 0 <= k < |jobs| => JobOutcome(jobs[k], outDir, eng))
  }

  /** The order in which as_completed hands back the merges: each one exactly once. */
  predicate IsPermutation(order: seq<nat>, n: nat)
  {
    |order| == n && (forall j :: 0 <= j < n ==> order[j] < n)
    && (forall i, j :: 0 <= i < j < n ==> order[i] != order[j])
  }

  /** The collection loop after j results: both lists grow together, and the first failed
      merge ends it. */
  function Collected(results: seq<Result<Merged, AudioError>>, order: seq<nat>, j: nat): Result<(seq<string>, seq<string>), AudioError>
    requires j <= |order| && forall k :: 0 <= k < |order| ==> order[k] < |results|
  {
    if j == 0 then Ok(([], []))
    else match Collected(results, order, j - 1)
      case Err(e) => Err(e)
      case Ok(lists) =>
        match results[order[j - 1]]
        case Err(e) => Err(e)
        case Ok(m) => Ok((lists.0 + [m.syncPath], lists.1 + [m.wavPath]))
  }

  lemma {:induction false} CollectedSticks(results: seq<Result<Merged, AudioError>>, order: seq<nat>, i: nat, j: nat)
    requires i <= j <= |order| && forall k :: 0 <= k < |order| ==> order[k] < |results|
    requires Collected(results, order, i).Err?
    ensures Collected(results, order, j) == Collected(results, order, i)
    decreases j - i
  {
    if i < j {
      CollectedSticks(results, order, i, j - 1);
    }
  }

  /** create_audio_for_book: the sync files and the tracks, in the order the merges are
      handed back, or the exception that ended it. */
  function BookAudio(dirs: seq<string>, eng: Engine, outDir: string, order: seq<nat>): Result<(seq<string>, seq<string>), AudioError>
    requires IsPermutation(order, |dirs|)
  {
    var plan := Submitted(dirs, eng, outDir, |dirs|);
    if plan.failure.Some? then Err(plan.failure.value)
    else Collected(Outcomes(plan.jobs, outDir, eng), order, |order|)
  }

  function RunningStatus(dir: string, total: nat): string
  {
    "Running TTS for chapter " + AfterLast(Basename(NormPath(dir)), '_') + "/" + NatToString(total)
  }

  /** The record updates of the submission loop after k chapters: the total and a zero
      progress, then for each chapter its status and the progress that counts it. */
  function SubmitWrites(dirs: seq<string>, k: nat): (ws: seq<Write>)
    requires k <= |dirs|
    ensures |ws| == 2 * k + 2
  {
    if k == 0 then [TotalW(|dirs|), ProgressW(0)]
    else SubmitWrites(dirs, k - 1) + [StatusW(RunningStatus(dirs[k - 1], |dirs|)), ProgressW(k)]
  }

  /** Every record update create_audio_for_book makes: those of the chapters submitted,
      and the status of the chapter whose submission failed. */
  function AudioWrites(dirs: seq<string>, eng: Engine, outDir: string): seq<Write>
  {
    var plan := Submitted(dirs, eng, outDir, |dirs|);
    if plan.failure.Some? then SubmitWrites(dirs, |plan.jobs|) + [StatusW(RunningStatus(dirs[|plan.jobs|], |dirs|))]
    else SubmitWrites(dirs, |plan.jobs|)
  }

  /** When the chapter at index i is the one that fails, the later chapters change nothing. */
  lemma AudioFailedAt(dirs: seq<string>, eng: Engine, outDir: string, i: nat)
    requires i < |dirs| && Submitted(dirs, eng, outDir, i).failure.None?
    requires Submitted(dirs, eng, outDir, i + 1).failure.Some?
    ensures AudioWrites(dirs, eng, outDir) == SubmitWrites(dirs, i) + [StatusW(RunningStatus(dirs[i], |dirs|))]
    ensures Submitted(dirs, eng, outDir, |dirs|) == Submitted(dirs, eng, outDir, i + 1)
  {
    SubmittedSticks(dirs, eng, outDir, i + 1, |dirs|);
  }

  lemma OutcomesSnoc(jobs: seq<Job>, job: Job, outDir: string, eng: Engine)
    ensures Outcomes(jobs + [job], outDir, eng) == Outcomes(jobs, outDir, eng) + [JobOutcome(job, outDir, eng)]
  {
    var a := Outcomes(jobs + [job], outDir, eng);
    var b := Outcomes(jobs, outDir, eng) + [JobOutcome(job, outDir, eng)];
    assert forall k :: 0 <= k < |a| ==> a[k] == b[k] by {
      forall k | 0 <= k < |a|
        ensures a[k] == b[k]
      {
        if k < |jobs| {
          assert (jobs + [job])[k] == jobs[k];
        }
      }
    }
  }

  lemma AppendPair<T>(a: seq<T>, b: seq<T>, x: T, y: T)
    ensures a + b + [x] + [y] == a + (b + [x, y])
  {
  }

  lemma AppendOne<T>(a: seq<T>, b: seq<T>, x: T)
    ensures a + b + [x] == a + (b + [x])
  {
  }

  class AudioProcessor {
    var wavFile: string
    var wavText: string
    var audioOutputDir: string
    var modelDir: string
    var checkpointDir: string

    /** `wavText` is the first line of the prompt text file. */
    constructor (audioOutputDir: string, wavFilePath: string, wavText: string, modelDir: string, checkpointDir: string)
      ensures this.audioOutputDir == audioOutputDir && this.wavFile == wavFilePath && this.wavText == wavText
      ensures this.modelDir == modelDir && this.checkpointDir == checkpointDir
    {
      this.wavFile := wavFilePath;
      this.wavText := wavText;
      this.audioOutputDir := audioOutputDir;
      this.modelDir := modelDir;
      this.checkpointDir := checkpointDir;
    }

    /** One chapter of the submission loop, up to the merge it submits. */
    method SubmitChapter(dir: string, eng: Engine, carried: Option<Current>) returns (r: Result<(Current, Job), AudioError>)
      ensures r == ChapterJob(dir, eng, audioOutputDir, carried)
    {
      var files := Listing(eng.tsvLists, dir);
      var current := carried;
      for k := 0 to |files|
        invariant TsvLoop(files[k..], audioOutputDir, current) == TsvLoop(files, audioOutputDir, carried)
      {
        TsvLoopStep(files, k, audioOutputDir, current);
        var chapter := ChapterOfTsv(files[k]);
        var chapterId := ParseInt(AfterLast(chapter, '_'));
        if chapterId.None? {
          return Err(BadNumber(files[k]));
        }
        current := Some(Current(chapter, chapterId.value, audioOutputDir + "/" + chapter));
        // the speech engine writes this list's recordings into the result directory
      }
      if current.None? {
        return Err(UnboundChapter);
      }
      var wavs := SortedListing(Listing(eng.recordings, current.value.resultDir), WavKey);
      if wavs.Err? {
        return Err(BadWavName(wavs.error));
      }
      r := Ok((current.value, Job(wavs.value, current.value.chapterId)));
    }

    /** The merge the worker runs for a submitted chapter. */
    method RunMerge(job: Job, eng: Engine) returns (r: Result<Merged, AudioError>)
      ensures r == JobOutcome(job, audioOutputDir, eng)
    {
      var c := Decoded(job.wavs, eng);
      if c.Err? {
        return Err(c.error);
      }
      r := MergeWavInChapter(audioOutputDir, c.value, job.chapterId);
    }

    /** The collection loop over as_completed. */
    method Collect(results: seq<Result<Merged, AudioError>>, order: seq<nat>) returns (r: Result<(seq<string>, seq<string>), AudioError>)
      requires forall k :: 0 <= k < |order| ==> order[k] < |results|
      ensures r == Collected(results, order, |order|)
    {
      var syncJsonLst: seq<string> := [];
      var mergeAudioLst: seq<string> := [];
      for j := 0 to |order|
        invariant Collected(results, order, j) == Ok((syncJsonLst, mergeAudioLst))
      {
        var res := results[order[j]];
        if res.Err? {
          CollectedSticks(results, order, j + 1, |order|);
          return Err(res.error);
        }
        syncJsonLst := syncJsonLst + [res.value.syncPath];
        mergeAudioLst := mergeAudioLst + [res.value.wavPath];
      }
      r := Ok((syncJsonLst, mergeAudioLst));
    }

    method CreateAudioForBook(tsvChapterList: seq<string>, status: StatusRecord?, eng: Engine, order: seq<nat>)
      returns (r: Result<(seq<string>, seq<string>), AudioError>)
      requires IsPermutation(order, |tsvChapterList|)
      requires status != null ==> status.Valid()
      modifies status
      ensures r == BookAudio(tsvChapterList, eng, audioOutputDir, order)
      ensures status != null ==> status.Valid() && status.origin == old(status.origin)
      ensures status != null ==> status.writes == old(status.writes) + AudioWrites(tsvChapterList, eng, audioOutputDir)
    {
      var n := |tsvChapterList|;
      ghost var start := if status != null then status.writes else [];
      Update(status, TotalW(n));
      Update(status, ProgressW(0));
      var results: seq<Result<Merged, AudioError>> := [];
      var current: Option<Current> := None;
      ghost var jobs: seq<Job> := [];
      for i := 0 to n
        invariant Submitted(tsvChapterList, eng, audioOutputDir, i) == Plan(jobs, current, None)
        invariant results == Outcomes(jobs, audioOutputDir, eng)
        invariant status != null ==> (status.Valid() && status.origin == old(status.origin)
          && status.writes == start + SubmitWrites(tsvChapterList, i))
      {
        var dir := tsvChapterList[i];
        Update(status, StatusW(RunningStatus(dir, n)));
        var step := SubmitChapter(dir, eng, current);
        if step.Err? {
          AudioFailedAt(tsvChapterList, eng, audioOutputDir, i);
          AppendOne(start, SubmitWrites(tsvChapterList, i), StatusW(RunningStatus(dir, n)));
          return Err(step.error);
        }
        var merged := RunMerge(step.value.1, eng);
        OutcomesSnoc(jobs, step.value.1, audioOutputDir, eng);
        results := results + [merged];
        jobs := jobs + [step.value.1];
        current := Some(step.value.0);
        Update(status, ProgressW(i + 1));
        AppendPair(start, SubmitWrites(tsvChapterList, i), StatusW(RunningStatus(dir, n)), ProgressW(i + 1));
      }
      r := Collect(results, order);
    }
  }

  // ---------------------------------------------------------------- properties of the book loop

  /** The collected lists grow together, one entry per result handed back, and both come
      from the same merge; the loop succeeds exactly when every result it reads is a merge. */
  lemma {:induction false} CollectedLists(results: seq<Result<Merged, AudioError>>, order: seq<nat>, j: nat)
    requires j <= |order| && forall k :: 0 <= k < |order| ==> order[k] < |results|
    ensures Collected(results, order, j).Ok? <==> forall k :: 0 <= k < j ==> results[order[k]].Ok?
    ensures Collected(results, order, j).Ok? ==>
      var lists := Collected(results, order, j).value;
      |lists.0| == j && |lists.1| == j
      && forall k :: 0 <= k < j ==>
           lists.0[k] == results[order[k]].value.syncPath && lists.1[k] == results[order[k]].value.wavPath
    decreases j
  {
    if j > 0 {
      CollectedLists(results, order, j - 1);
    }
  }

  /** A merge names its files after its own chapter. */
  lemma JobOutcomePaths(job: Job, outDir: string, eng: Engine)
    requires JobOutcome(job, outDir, eng).Ok?
    ensures JobOutcome(job, outDir, eng).value.syncPath == SyncPath(outDir, job.chapterId)
    ensures JobOutcome(job, outDir, eng).value.wavPath == FullWavPath(outDir, job.chapterId)
  {
  }

  /** The result of create_audio_for_book: one sync file and one track per chapter directory,
      position by position from the same chapter, in the order the merges were handed back. */
  lemma BookAudioLists(dirs: seq<string>, eng: Engine, outDir: string, order: seq<nat>)
    requires IsPermutation(order, |dirs|) && BookAudio(dirs, eng, outDir, order).Ok?
    ensures var plan := Submitted(dirs, eng, outDir, |dirs|);
      var lists := BookAudio(dirs, eng, outDir, order).value;
      plan.failure.None? && |lists.0| == |dirs| && |lists.1| == |dirs|
      && forall j :: 0 <= j < |dirs| ==>
           lists.0[j] == SyncPath(outDir, plan.jobs[order[j]].chapterId)
           && lists.1[j] == FullWavPath(outDir, plan.jobs[order[j]].chapterId)
  {
    var plan := Submitted(dirs, eng, outDir, |dirs|);
    var results := Outcomes(plan.jobs, outDir, eng);
    CollectedLists(results, order, |order|);
    forall j | 0 <= j < |dirs|
      ensures results[order[j]].value.syncPath == SyncPath(outDir, plan.jobs[order[j]].chapterId)
      ensures results[order[j]].value.wavPath == FullWavPath(outDir, plan.jobs[order[j]].chapterId)
    {
      JobOutcomePaths(plan.jobs[order[j]], outDir, eng);
    }
  }

  /** When every chapter is submitted and every merge succeeds, the book succeeds. */
  lemma BookAudioSucceeds(dirs: seq<string>, eng: Engine, outDir: string, order: seq<nat>)
    requires IsPermutation(order, |dirs|)
    requires Submitted(dirs, eng, outDir, |dirs|).failure.None?
    requires var jobs := Submitted(dirs, eng, outDir, |dirs|).jobs;
      forall k :: 0 <= k < |jobs| ==> JobOutcome(jobs[k], outDir, eng).Ok?
    ensures BookAudio(dirs, eng, outDir, order).Ok?
  {
    var plan := Submitted(dirs, eng, outDir, |dirs|);
    CollectedLists(Outcomes(plan.jobs, outDir, eng), order, |order|);
  }

  /** The order 0, 1, ..., n - 1. */
  function Identity(n: nat): (r: seq<nat>)
    ensures IsPermutation(r, n) && forall j :: 0 <= j < n ==> r[j] == j
  {
    seq(n, k requires 0 <= k < n => k as nat)
  }

  /** Handed back in submission order, the lists follow the chapter directories. */
  lemma InOrder(dirs: seq<string>, eng: Engine, outDir: string)
    requires BookAudio(dirs, eng, outDir, Identity(|dirs|)).Ok?
    ensures var jobs := Submitted(dirs, eng, outDir, |dirs|).jobs;
      var lists := BookAudio(dirs, eng, outDir, Identity(|dirs|)).value;
      |jobs| == |dirs| && |lists.0| == |dirs| && |lists.1| == |dirs|
      && forall j :: 0 <= j < |dirs| ==>
           lists.0[j] == SyncPath(outDir, jobs[j].chapterId) && lists.1[j] == FullWavPath(outDir, jobs[j].chapterId)
  {
    BookAudioLists(dirs, eng, outDir, Identity(|dirs|));
  }

  /** The status texts of the first k submissions. */
  function RunningStatuses(dirs: seq<string>, k: nat): (st: seq<string>)
    requires k <= |dirs|
    ensures |st| == k
    ensures forall j :: 0 <= j < k ==> st[j] == RunningStatus(dirs[j], |dirs|)
  {
    seq(k, j requires 0 <= j < k => RunningStatus(dirs[j], |dirs|))
  }

  /** The submission loop is a progress loop over the running statuses. */
  lemma {:induction false} SubmitWritesProgress(dirs: seq<string>, k: nat)
    requires k <= |dirs|
    ensures SubmitWrites(dirs, k) == ProgressWrites(|dirs|, RunningStatuses(dirs, k))
    decreases k
  {
    if k > 0 {
      SubmitWritesProgress(dirs, k - 1);
      var st := RunningStatuses(dirs, k);
      assert st[..k - 1] == RunningStatuses(dirs, k - 1);
    }
  }

  /** The record after the submission of k chapters: the total is the number of chapter
      directories, the progress counts the chapters submitted, and the status names the
      last of them. */
  lemma ReplaySubmitWrites(r: Snapshot, dirs: seq<string>, k: nat)
    requires k <= |dirs|
    ensures var s := Replay(r, SubmitWrites(dirs, k));
      s.total == |dirs| && s.progress == k && s.resultPath == r.resultPath
      && s.status == (if k == 0 then r.status else RunningStatus(dirs[k - 1], |dirs|))
  {
    SubmitWritesProgress(dirs, k);
    ReplayProgress(r, |dirs|, RunningStatuses(dirs, k));
  }


  /** Progress never passes the total: after create_audio_for_book the record counts the
      chapters submitted out of all chapter directories, and a failed chapter is named in
      the status. */
  lemma AudioRecord(r: Snapshot, dirs: seq<string>, eng: Engine, outDir: string)
    ensures var plan := Submitted(dirs, eng, outDir, |dirs|);
      var s := Replay(r, AudioWrites(dirs, eng, outDir));
      s.total == |dirs| && s.progress == |plan.jobs| && 0 <= s.progress <= s.total
      && (plan.failure.None? ==> s.progress == s.total)
      && (plan.failure.Some? ==> s.status == RunningStatus(dirs[|plan.jobs|], |dirs|))
  {
    var plan := Submitted(dirs, eng, outDir, |dirs|);
    ReplaySubmitWrites(r, dirs, |plan.jobs|);
    if plan.failure.Some? {
      ReplaySnoc(r, SubmitWrites(dirs, |plan.jobs|), StatusW(RunningStatus(dirs[|plan.jobs|], |dirs|)));
    }
  }

  /** A digit string holds no separator. */
  lemma DigitsFree(i: nat, c: char)
    requires !IsDigit(c)
    ensures c !in NatToString(i)
  {
  }

  /** The name of chapter i and its number. */
  lemma ChapterNameNumber(i: nat)
    ensures AfterLast("chapter_" + NatToString(i), '_') == NatToString(i)
    ensures '/' !in "chapter_" + NatToString(i) && '.' !in "chapter_" + NatToString(i)
  {
    DigitsFree(i, '_');
    DigitsFree(i, '/');
    DigitsFree(i, '.');
    NameThenNumber(NatToString(i));
  }

  lemma NameThenNumber(n: string)
    requires '_' !in n && '/' !in n && '.' !in n
    ensures AfterLast("chapter_" + n, '_') == n
    ensures '/' !in "chapter_" + n && '.' !in "chapter_" + n
  {
    ChapterPrefixSplit(n);
    AfterLastOf("chapter", '_', n);
    NotInAppend('/', "chapter_", n);
    NotInAppend('.', "chapter_", n);
  }

  lemma ChapterPrefixSplit(n: string)
    ensures "chapter_" + n == "chapter" + ['_'] + n
  {
  }

  lemma NotInAppend(c: char, a: string, b: string)
    requires c !in a && c !in b
    ensures c !in a + b
  {
  }

  /** The file name of chapter i's TTS list, cut at its last '/'. */
  lemma TsvPathParts(dir: string, n: string)
    ensures dir + "/chapter_" + n + "/chapter_" + n + ".tsv" == (dir + "/chapter_" + n) + ['/'] + ("chapter_" + n + ".tsv")
  {
    assert "/chapter_" == ['/'] + "chapter_";
  }

  /** The file name of chapter i's TTS list, cut at its first '.'. */
  lemma TsvNameParts(i: nat)
    ensures var name := "chapter_" + NatToString(i);
      '/' !in name + ".tsv" && name + ".tsv" == name + ['.'] + "tsv"
  {
    var name := "chapter_" + NatToString(i);
    ChapterNameNumber(i);
    TsvSuffix();
    NotInEither('/', name, ".tsv");
  }

  lemma TsvSuffix()
    ensures ".tsv" == ['.'] + "tsv" && '/' !in ".tsv"
  {
  }

  lemma NotInEither<T>(x: T, a: seq<T>, b: seq<T>)
    requires x !in a && x !in b
    ensures x !in a + b
  {
  }

  /** The TTS list the text side writes for chapter i names that chapter: its number is
      read back and its recordings are looked for in a directory of the same name. */
  lemma TsvListOfChapter(dir: string, i: nat, outDir: string, carried: Option<Current>)
    ensures var name := "chapter_" + NatToString(i);
      TsvLoop([TextProcessing.TsvPath(dir, i)], outDir, carried) == Ok(Current(name, i, outDir + "/" + name))
  {
    ChapterOfTsvPath(dir, i);
    ChapterNameNumber(i);
    ParseIntOfNat(i);
    TsvLoopSingle(TextProcessing.TsvPath(dir, i), outDir, carried, "chapter_" + NatToString(i), i);
  }

  /** A single TTS list whose chapter name ends in a number. */
  lemma TsvLoopSingle(f: string, outDir: string, carried: Option<Current>, name: string, id: int)
    requires ChapterOfTsv(f) == name && ParseInt(AfterLast(name, '_')) == Some(id)
    ensures TsvLoop([f], outDir, carried) == Ok(Current(name, id, outDir + "/" + name))
  {
    assert [f][1..] == [];
  }

  /** The TTS list of chapter i sits in the directory of that chapter. */
  lemma ChapterOfTsvPath(dir: string, i: nat)
    ensures ChapterOfTsv(TextProcessing.TsvPath(dir, i)) == "chapter_" + NatToString(i)
  {
    var n := NatToString(i);
    var name := "chapter_" + n;
    TsvPathParts(dir, n);
    TsvNameParts(i);
    AfterLastOf(dir + "/chapter_" + n, '/', name + ".tsv");
    BeforeFirstOf(name, '.', "tsv");
  }

  /** The chapter directories the text side creates sort by their chapter number. */
  lemma DirKeyOfChapter(dir: string, i: nat)
    ensures DirKey(dir + "/chapter_" + NatToString(i)) == Some(i)
  {
    var n := NatToString(i);
    var name := "chapter_" + n;
    var p := dir + ['/'] + name;
    assert dir + "/chapter_" + n == p;
    assert p[|p| - 1] == n[|n| - 1];
    assert NormPath(p) == p;
    ChapterNameNumber(i);
    AfterLastOf(dir, '/', name);
    ParseIntOfNat(i);
  }
}
