/** The status record of a job: the shared dictionary with the keys "status", "progress",
    "total" and "result_path" that the server creates, the background run and the DAISY
    maker update in place, and a client polls. */
module JobStatus {
  import opened Wrappers

  /** One assignment to a key of the record, in the order the code performs them. */
  datatype Write =
    | StatusW(status: string)
    | ProgressW(progress: int)
    | TotalW(total: int)
    | ResultW(resultPath: Option<string>)

  /** A copy of the record, as `dict(job_status)` returns it. */
  datatype Snapshot = Snapshot(status: string, progress: int, total: int, resultPath: Option<string>)

  class StatusRecord {
    var status: string
    var progress: int
    var total: int
    var resultPath: Option<string>
    /** Every assignment made to the record since it was created, oldest first. */
    ghost var writes: seq<Write>
    /** The record as it was created. */
    ghost var origin: Snapshot

    /** The record is what its creation and the logged assignments left. */
    ghost predicate Valid()
      reads this
    {
      Copy() == Replay(origin, writes)
    }

    constructor (status: string, progress: int, total: int, resultPath: Option<string>)
      ensures this.status == status && this.progress == progress && this.total == total
      ensures this.resultPath == resultPath && writes == [] && Valid()
    {
      this.status := status;
      this.progress := progress;
      this.total := total;
      this.resultPath := resultPath;
      writes := [];
      origin := Snapshot(status, progress, total, resultPath);
    }

    function Copy(): (r: Snapshot)
      reads this
      ensures r.status == status && r.progress == progress && r.total == total && r.resultPath == resultPath
    {
      Snapshot(status, progress, total, resultPath)
    }

    method SetStatus(s: string)
      requires Valid()
      modifies this
      ensures Valid() && origin == old(origin)
      ensures status == s && progress == old(progress) && total == old(total) && resultPath == old(resultPath)
      ensures writes == old(writes) + [StatusW(s)]
    {
      status := s;
      writes := writes + [StatusW(s)];
    }

    method SetProgress(p: int)
      requires Valid()
      modifies this
      ensures Valid() && origin == old(origin)
      ensures progress == p && status == old(status) && total == old(total) && resultPath == old(resultPath)
      ensures writes == old(writes) + [ProgressW(p)]
    {
      progress := p;
      writes := writes + [ProgressW(p)];
    }

    method SetTotal(t: int)
      requires Valid()
      modifies this
      ensures Valid() && origin == old(origin)
      ensures total == t && status == old(status) && progress == old(progress) && resultPath == old(resultPath)
      ensures writes == old(writes) + [TotalW(t)]
    {
      total := t;
      writes := writes + [TotalW(t)];
    }

    method SetResultPath(p: Option<string>)
      requires Valid()
      modifies this
      ensures Valid() && origin == old(origin)
      ensures resultPath == p && status == old(status) && progress == old(progress) && total == old(total)
      ensures writes == old(writes) + [ResultW(p)]
    {
      resultPath := p;
      writes := writes + [ResultW(p)];
    }
  }

  /** An assignment guarded by a truth test of the status dictionary: with no record, nothing
      happens. A record always holds its keys, so it is never empty and the test is false
      exactly when there is no record. */
  method Update(status: StatusRecord?, w: Write)
    requires status != null ==> status.Valid()
    modifies status
    ensures status != null ==> status.Valid() && status.origin == old(status.origin)
    ensures status != null ==> status.writes == old(status.writes) + [w]
  {
    if status != null {
      match w
      case StatusW(s) => status.SetStatus(s);
      case ProgressW(p) => status.SetProgress(p);
      case TotalW(t) => status.SetTotal(t);
      case ResultW(path) => status.SetResultPath(path);
    }
  }

  /** The record after one assignment. */
  function Apply(s: Snapshot, w: Write): (r: Snapshot)
    ensures w.StatusW? ==> r == s.(status := w.status)
    ensures w.ProgressW? ==> r == s.(progress := w.progress)
    ensures w.TotalW? ==> r == s.(total := w.total)
    ensures w.ResultW? ==> r == s.(resultPath := w.resultPath)
  {
    match w
    case StatusW(st) => s.(status := st)
    case ProgressW(p) => s.(progress := p)
    case TotalW(t) => s.(total := t)
    case ResultW(path) => s.(resultPath := path)
  }

  /** The record a sequence of assignments leaves behind, starting from `r`. */
  ghost function Replay(r: Snapshot, ws: seq<Write>): (s: Snapshot)
    ensures (forall k :: 0 <= k < |ws| ==> !ws[k].StatusW?) ==> s.status == r.status
    decreases |ws|
  {
    if |ws| == 0 then r
    else Apply(Replay(r, ws[..|ws| - 1]), ws[|ws| - 1])
  }

  /** One more assignment. */
  lemma ReplaySnoc(r: Snapshot, ws: seq<Write>, w: Write)
    ensures Replay(r, ws + [w]) == Apply(Replay(r, ws), w)
  {
    assert (ws + [w])[..|ws|] == ws;
  }

  /** Two more assignments. */
  lemma ReplayTwo(r: Snapshot, ws: seq<Write>, a: Write, b: Write)
    ensures Replay(r, ws + [a, b]) == Apply(Apply(Replay(r, ws), a), b)
  {
    ReplaySnoc(r, ws, a);
    ReplaySnoc(r, ws + [a], b);
    assert ws + [a] + [b] == ws + [a, b];
  }

  /** The assignments of a progress loop: the total and a zero progress, then for each
      step its status and the progress that counts it. */
  function ProgressWrites(total: int, statuses: seq<string>): (ws: seq<Write>)
    ensures |ws| == 2 * |statuses| + 2
    decreases |statuses|
  {
    if |statuses| == 0 then [TotalW(total), ProgressW(0)]
    else ProgressWrites(total, statuses[..|statuses| - 1]) + [StatusW(statuses[|statuses| - 1]), ProgressW(|statuses|)]
  }

  /** After a progress loop the record holds the total, counts every step, names the
      last step in its status and keeps its result path. */
  lemma {:induction false} ReplayProgress(r: Snapshot, total: int, statuses: seq<string>)
    ensures var s := Replay(r, ProgressWrites(total, statuses));
      s.total == total && s.progress == |statuses| && s.resultPath == r.resultPath
      && s.status == (if |statuses| == 0 then r.status else statuses[|statuses| - 1])
    decreases |statuses|
  {
    if |statuses| == 0 {
      ReplayTwo(r, [], TotalW(total), ProgressW(0));
      assert ProgressWrites(total, statuses) == [] + [TotalW(total), ProgressW(0)];
    } else {
      var init := statuses[..|statuses| - 1];
      ReplayProgress(r, total, init);
      ReplayTwo(r, ProgressWrites(total, init), StatusW(statuses[|statuses| - 1]), ProgressW(|statuses|));
    }
  }

  /** The status is the one the last assignment wrote. */
  lemma LastStatus(r: Snapshot, ws: seq<Write>)
    requires |ws| > 0 && ws[|ws| - 1].StatusW?
    ensures Replay(r, ws).status == ws[|ws| - 1].status
  {
  }

  /** Replaying a log in two parts is replaying the whole. */
  lemma {:induction false} ReplayConcat(r: Snapshot, a: seq<Write>, b: seq<Write>)
    ensures Replay(r, a + b) == Replay(Replay(r, a), b)
    decreases |b|
  {
    if |b| == 0 {
      assert a + b == a;
    } else {
      assert (a + b)[..|a + b| - 1] == a + b[..|b| - 1];
      ReplayConcat(r, a, b[..|b| - 1]);
    }
  }
}
