/** Chunked transfers: the per-task counters the upload and download handlers
    hold, and what one controller reply (a continuation) does to them. */
module Transfer {
  import opened Messages
  import opened Jobs

  /** What the upload and download handlers' start operations (StartUploadJob,
      StartDownloadJob) work out from the task: the download's chunk count,
      and the upload's chunk size and destination path. */
  datatype TransferPlan = TransferPlan(total_chunks: int, chunk_size: int, path: string)

  /** The counters of an upload (MythicUploadJob). total_chunks == 0 means
      "not yet reported by the controller". The record shares the
      cancellation token of the job it was started for. */
  class UploadJob {
    var chunk_num: int
    var total_chunks: int
    const chunk_size: int
    const path: string
    const job: Job

    constructor (job: Job, chunk_size: int, path: string)
      ensures State() == UploadState(0, 0)
      ensures this.job == job && this.chunk_size == chunk_size && this.path == path
    {
      this.job, this.chunk_size, this.path := job, chunk_size, path;
      chunk_num, total_chunks := 0, 0;
    }

    function State(): UploadState
      reads this
    {
      UploadState(chunk_num, total_chunks)
    }

    /** The counter updates of one continuation; returns the result to
        buffer and whether the upload is finished. */
    method Continue(p: Piece) returns (result: Response, finished: bool)
      modifies this
      ensures State() == UploadStep(old(State()), chunk_size, path, p).state
      ensures result == UploadStep(old(State()), chunk_size, path, p).result
      ensures finished == UploadStep(old(State()), chunk_size, path, p).finished
    {
      if total_chunks == 0 {
        total_chunks := p.total_chunks;
      }
      if p.chunk_data != "" {
        // writing the decoded bytes (UploadNextChunk) is the upload handler's business
        chunk_num := chunk_num + 1;
        finished := p.chunk_num == total_chunks;
        result := UploadResult(p.task_id, finished, "", "", UploadData(chunk_num, p.file_id, chunk_size, path));
      } else {
        finished := false;
        result := Result(p.task_id, true, "error", NoUploadData);
      }
    }
  }

  /** The counters of a download (MythicDownloadJob); file_id "" means unset.
      The record shares the cancellation token of the job it was started for. */
  class DownloadJob {
    var file_id: string
    var chunk_num: int
    var total_chunks: int
    const job: Job

    constructor (job: Job, total_chunks: int)
      ensures State() == DownloadState("", 0, total_chunks) && this.job == job
    {
      this.job, this.total_chunks := job, total_chunks;
      file_id, chunk_num := "", 0;
    }

    function State(): DownloadState
      reads this
    {
      DownloadState(file_id, chunk_num, total_chunks)
    }

    /** The counter updates of one continuation; `chunk` is what
        DownloadNextChunk returns. Returns the result to buffer and whether
        the download is finished. */
    method Continue(p: Piece, chunk: string) returns (result: Response, finished: bool)
      modifies this
      ensures State() == DownloadStep(old(State()), p, chunk).state
      ensures result == DownloadStep(old(State()), p, chunk).result
      ensures finished == DownloadStep(old(State()), p, chunk).finished
    {
      if file_id == "" && p.file_id == "" {
        finished := true;
        result := DownloadResult(p.task_id, true, "error", NoFileId, "", 0, "", 0, "");
        return;
      }
      if file_id == "" {
        file_id := p.file_id;
      }
      if p.status == "success" {
        if chunk_num != total_chunks {
          chunk_num := chunk_num + 1;
          finished := false;
          result := DownloadResult(p.task_id, false, "", "", "", -1, file_id, chunk_num, chunk);
        } else {
          finished := true;
          result := DownloadResult(p.task_id, true, "", "", "", -1, file_id, chunk_num, chunk);
        }
      } else {
        finished := false;
        result := DownloadResult(p.task_id, false, "", "", "", 0, file_id, chunk_num, chunk);
      }
    }
  }

  datatype UploadState = UploadState(chunk_num: int, total_chunks: int)
  datatype DownloadState = DownloadState(file_id: string, chunk_num: int, total_chunks: int)

  /** What one continuation does: the transfer's new counters, the one result
      it buffers, and whether it finishes the transfer (the job then leaves
      the registry and its handler). */
  datatype UploadOutcome = UploadOutcome(state: UploadState, result: Response, finished: bool)
  datatype DownloadOutcome = DownloadOutcome(state: DownloadState, result: Response, finished: bool)

  // ---------------------------------------------------------------- upload

  /** One upload continuation (HandleUploadPiece after its cancellation check). */
  function UploadStep(s: UploadState, chunkSize: int, path: string, p: Piece): (o: UploadOutcome)
    ensures o.state.total_chunks == if s.total_chunks == 0 then p.total_chunks else s.total_chunks
    ensures o.result.task_id == p.task_id
    ensures p.chunk_data != "" ==>
              && o.state.chunk_num == s.chunk_num + 1
              && o.result.UploadResult?
              && o.result.upload == UploadData(o.state.chunk_num, p.file_id, chunkSize, path)
              && (o.finished <==> p.chunk_num == o.state.total_chunks)
              && o.result.completed == o.finished
    ensures p.chunk_data == "" ==>
              && o.state.chunk_num == s.chunk_num
              && !o.finished
              && o.result == Result(p.task_id, true, "error", NoUploadData)
  {
    var total := if s.total_chunks == 0 then p.total_chunks else s.total_chunks;
    if p.chunk_data != "" then
      var n := s.chunk_num + 1;
      var done := p.chunk_num == total;
      UploadOutcome(UploadState(n, total), UploadResult(p.task_id, done, "", "", UploadData(n, p.file_id, chunkSize, path)), done)
    else
      UploadOutcome(UploadState(s.chunk_num, total), Result(p.task_id, true, "error", NoUploadData), false)
  }

  /** The counters after a series of continuations. */
  function UploadAfter(s: UploadState, chunkSize: int, path: string, pieces: seq<Piece>): UploadState
  {
    if pieces == [] then s
    else UploadStep(UploadAfter(s, chunkSize, path, pieces[..|pieces| - 1]), chunkSize, path, pieces[|pieces| - 1]).state
  }

  /** The controller sends pieces 1, 2, ... of n, each with data: after k of
      them the local chunk_num is k and total_chunks is n (seeded by the first). */
  lemma {:induction false} UploadCounts(chunkSize: int, path: string, pieces: seq<Piece>, n: int)
    requires n != 0
    requires forall i :: 0 <= i < |pieces| ==>
               pieces[i].chunk_data != "" && pieces[i].chunk_num == i + 1 && pieces[i].total_chunks == n
    ensures UploadAfter(UploadState(0, 0), chunkSize, path, pieces) == UploadState(|pieces|, if pieces == [] then 0 else n)
  {
    if pieces != [] {
      UploadCounts(chunkSize, path, pieces[..|pieces| - 1], n);
    }
  }

  /** ... and the upload finishes on piece n, and on no piece before it. */
  lemma {:induction false} UploadFinishesOnLastPiece(chunkSize: int, path: string, pieces: seq<Piece>, n: int)
    requires n > 0
    requires forall i :: 0 <= i < |pieces| ==>
               pieces[i].chunk_data != "" && pieces[i].chunk_num == i + 1 && pieces[i].total_chunks == n
    ensures forall i :: 0 <= i < |pieces| ==>
              (UploadStep(UploadAfter(UploadState(0, 0), chunkSize, path, pieces[..i]), chunkSize, path, pieces[i]).finished
               <==> i + 1 == n)
  {
    forall i | 0 <= i < |pieces|
      ensures UploadStep(UploadAfter(UploadState(0, 0), chunkSize, path, pieces[..i]), chunkSize, path, pieces[i]).finished
              <==> i + 1 == n
    {
      UploadCounts(chunkSize, path, pieces[..i], n);
    }
  }

  /** Once total_chunks is known (non-zero), no later piece changes it. */
  lemma {:induction false} UploadTotalSticks(s: UploadState, chunkSize: int, path: string, pieces: seq<Piece>)
    requires s.total_chunks != 0
    ensures UploadAfter(s, chunkSize, path, pieces).total_chunks == s.total_chunks
  {
    if pieces != [] {
      UploadTotalSticks(s, chunkSize, path, pieces[..|pieces| - 1]);
    }
  }

  // ---------------------------------------------------------------- download

  /** One download continuation (HandleDownloadPiece after its cancellation
      check); `chunk` is what the download handler's DownloadNextChunk returns. */
  function DownloadStep(s: DownloadState, p: Piece, chunk: string): (o: DownloadOutcome)
    ensures o.result.task_id == p.task_id
    ensures s.file_id == "" && p.file_id == "" ==>
              && o.finished && o.state == s
              && o.result.completed && o.result.status == "error" && o.result.user_output == NoFileId
    ensures s.file_id != "" || p.file_id != "" ==>
              && o.state.file_id == (if s.file_id == "" then p.file_id else s.file_id)
              && o.state.file_id != ""
              && o.state.total_chunks == s.total_chunks
              && o.result.DownloadResult? && o.result.file_id == o.state.file_id
              && o.result.chunk_num == o.state.chunk_num && o.result.chunk_data == chunk
    ensures (s.file_id != "" || p.file_id != "") && p.status == "success" ==>
              && (o.finished <==> s.chunk_num == s.total_chunks)
              && o.state.chunk_num == (if o.finished then s.chunk_num else s.chunk_num + 1)
              && o.result.completed == o.finished
              && o.result.total_chunks == -1
    ensures (s.file_id != "" || p.file_id != "") && p.status != "success" ==>
              o.state.chunk_num == s.chunk_num && !o.finished && !o.result.completed
  {
    if s.file_id == "" && p.file_id == "" then
      DownloadOutcome(s, DownloadResult(p.task_id, true, "error", NoFileId, "", 0, "", 0, ""), true)
    else
      var f := if s.file_id == "" then p.file_id else s.file_id;
      if p.status == "success" then
        if s.chunk_num != s.total_chunks then
          var n := s.chunk_num + 1;
          DownloadOutcome(DownloadState(f, n, s.total_chunks), DownloadResult(p.task_id, false, "", "", "", -1, f, n, chunk), false)
        else
          DownloadOutcome(DownloadState(f, s.chunk_num, s.total_chunks),
                          DownloadResult(p.task_id, true, "", "", "", -1, f, s.chunk_num, chunk), true)
      else
        DownloadOutcome(DownloadState(f, s.chunk_num, s.total_chunks), DownloadResult(p.task_id, false, "", "", "", 0, f, s.chunk_num, chunk), false)
  }

  /** The counters after k successful continuations with the same reply. */
  function DownloadAfter(s: DownloadState, p: Piece, chunk: string, k: nat): DownloadState
  {
    if k == 0 then s else DownloadStep(DownloadAfter(s, p, chunk, k - 1), p, chunk).state
  }

  /** From chunk c of t (0 <= c <= t), successful continuations advance
      chunk_num by one each, and the (t - c + 1)-th finishes the download: it
      is the one and only terminal result. */
  lemma {:induction false} DownloadFinishesAtTotal(s: DownloadState, p: Piece, chunk: string, k: nat)
    requires p.status == "success" && (s.file_id != "" || p.file_id != "")
    requires 0 <= s.chunk_num <= s.total_chunks
    requires k <= s.total_chunks - s.chunk_num
    ensures DownloadAfter(s, p, chunk, k).chunk_num == s.chunk_num + k
    ensures DownloadAfter(s, p, chunk, k).total_chunks == s.total_chunks
    ensures DownloadAfter(s, p, chunk, k).file_id != "" || p.file_id != ""
    ensures DownloadStep(DownloadAfter(s, p, chunk, k), p, chunk).finished <==> k == s.total_chunks - s.chunk_num
  {
    if k > 0 {
      DownloadFinishesAtTotal(s, p, chunk, k - 1);
    }
  }
}
