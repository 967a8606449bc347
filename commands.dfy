/** The job registry and dispatcher (CommandHandler): a map from task id to
    job, a bag of results waiting to be collected, and the log of
    notifications raised for the lifecycle subscribers. */
module Commands {
  import opened Messages
  import opened Jobs
  import opened Transfer

  /** The notifications a command raises for its job, as log entries. */
  function Raised(kind: Option<NoticeKind>, taskId: string): (log: seq<Notice>)
    ensures kind.None? ==> log == []
    ensures kind.Some? ==> log == [Notice(kind.value, taskId)]
  {
    match kind
    case None => []
    case Some(k) => [Notice(k, taskId)]
  }

  /** `after` is `before` plus the jobs result for task `taskId` listing `jobs`. */
  ghost predicate BuffersListing(before: multiset<Response>, after: multiset<Response>, taskId: string,
                                 jobs: map<string, JobStatus>)
  {
    exists entries :: Lists(entries, jobs) && after == before + multiset{JobsReport(taskId, entries)}
  }

  /** The buffered results as a list, in some order (ConcurrentBag.ToList). */
  method ToList(bag: multiset<Response>) returns (s: seq<Response>)
    ensures multiset(s) == bag
  {
    s := [];
    var rest := bag;
    while rest != multiset{}
      invariant multiset(s) + rest == bag
      decreases |rest|
    {
      var r :| r in rest;
      s := s + [r];
      rest := rest - multiset{r};
    }
  }

  class CommandHandler {
    var activeJobs: map<string, Job>
    var responseResults: multiset<Response>
    var notifications: seq<Notice>
    /** The transfers held by the upload and download handlers. Those
        handlers are not part of this model: their own start operations
        (StartUploadJob, StartDownloadJob) fill these maps. */
    var uploadJobs: map<string, UploadJob>
    var downloadJobs: map<string, DownloadJob>

    /** Every job is registered under its own task id (so no job object is
        registered under two ids). */
    ghost predicate Valid()
      reads this`activeJobs
    {
      forall id :: id in activeJobs ==> activeJobs[id].task.id == id
    }

    /** The registry as values. */
    function Status(): map<string, JobStatus>
      reads this`activeJobs, activeJobs.Values
    {
      map id | id in activeJobs :: activeJobs[id].Status()
    }

    constructor ()
      ensures Valid() && activeJobs == map[] && responseResults == multiset{} && notifications == []
      ensures uploadJobs == map[] && downloadJobs == map[]
    {
      activeJobs, responseResults, notifications := map[], multiset{}, [];
      uploadJobs, downloadJobs := map[], map[];
    }

    /** activeJobs.GetOrAdd(task.id, new MythicJob(task)) and job.started = true. */
    method GetOrAdd(task: Task) returns (job: Job)
      requires Valid()
      modifies this`activeJobs, if task.id in activeJobs then {activeJobs[task.id]} else {}
      ensures Valid()
      ensures task.id in activeJobs && job == activeJobs[task.id]
      ensures task.id in old(activeJobs) ==> job == old(activeJobs[task.id])
      ensures task.id !in old(activeJobs) ==> fresh(job)
      ensures activeJobs.Keys == old(activeJobs).Keys + {task.id}
      ensures forall id :: id in old(activeJobs) ==> activeJobs[id] == old(activeJobs[id])
      ensures Status() == Register(old(Status()), task)
      ensures Status()[task.id].task == job.task
    {
      ghost var before := Status();
      if task.id in activeJobs {
        job := activeJobs[task.id];
        job.started := true;
        assert forall id | id in activeJobs && id != task.id :: activeJobs[id] != job;
      } else {
        job := new Job(task);
        activeJobs := activeJobs[task.id := job];
        job.started := true;
      }
      assert Status().Keys == Register(before, task).Keys;
      assert Status() == Register(before, task);
    }

    /** activeJobs.Remove(id, out _). */
    method Retire(id: string)
      requires Valid()
      modifies this`activeJobs
      ensures Valid()
      ensures activeJobs == old(activeJobs) - {id}
      ensures Status() == old(Status()) - {id}
    {
      activeJobs := activeJobs - {id};
      assert Status() == old(Status()) - {id};
    }

    /** Signals the cancellation token of the registered job `target`. */
    method CancelJob(target: string)
      requires Valid() && target in activeJobs
      modifies activeJobs[target]
      ensures Valid()
      ensures Status() == Cancel(old(Status()), target)
    {
      activeJobs[target].cancelled := true;
      assert Status() == Cancel(old(Status()), target);
    }

    /** Starts a task sent by the controller. `reply` is what the unseen
        handler returns for the commands it serves (StartDownloadJob,
        StartUploadJob, ExecuteAssembly, LoadCommandAsync, LoadAssemblyAsync,
        ClearAssemblyLoadContext, ShellExec, RunLoadedCommand); `isLoaded` is
        the assembly handler's CommandIsLoaded; `socksAction` is the "action"
        member of the registered job's JSON parameters. The command dispatched
        on is the registered job's, which for a reused id is the first
        arrival's; jobkill reads its target from `task.parameters`. */
    method StartJob(task: Task, reply: Response, isLoaded: string -> bool, socksAction: string, plan: TransferPlan)
      requires Valid()
      modifies this, activeJobs.Values
      ensures Valid()
      // download and upload register a transfer sharing the job's token
      ensures var c := CommandOf(Register(old(Status()), task)[task.id].task.command);
              if c == Download && task.id !in old(downloadJobs) then
                && task.id in activeJobs && NewDownload(task.id, activeJobs[task.id], plan)
                && fresh(downloadJobs[task.id]) && downloadJobs == old(downloadJobs)[task.id := downloadJobs[task.id]]
              else downloadJobs == old(downloadJobs)
      ensures var c := CommandOf(Register(old(Status()), task)[task.id].task.command);
              if c == Upload && task.id !in old(downloadJobs) && task.id !in old(uploadJobs) then
                && task.id in activeJobs && NewUpload(task.id, activeJobs[task.id], plan)
                && fresh(uploadJobs[task.id]) && uploadJobs == old(uploadJobs)[task.id := uploadJobs[task.id]]
              else uploadJobs == old(uploadJobs)
      // registration reuses the job already registered under the id
      ensures task.id in activeJobs && task.id in old(activeJobs) ==> activeJobs[task.id] == old(activeJobs[task.id])
      ensures task.id in activeJobs && task.id !in old(activeJobs) ==> fresh(activeJobs[task.id])
      ensures forall id :: id in activeJobs && id != task.id ==> id in old(activeJobs) && activeJobs[id] == old(activeJobs[id])
      // which jobs stay registered, and which one jobkill cancels
      ensures var reg := Register(old(Status()), task);
              var t := reg[task.id].task;
              var c := CommandOf(t.command);
              var killed := if c == JobKill && task.parameters in reg then Cancel(reg, task.parameters) else reg;
              Status() == if Retires(c) then killed - {task.id} else killed
      // the notification raised
      ensures var t := Register(old(Status()), task)[task.id].task;
              notifications == old(notifications) + Raised(NoticeFor(CommandOf(t.command), socksAction), task.id)
      // the result buffered
      ensures var reg := Register(old(Status()), task);
              var t := reg[task.id].task;
              var c := CommandOf(t.command);
              c != ListJobs ==>
                responseResults == old(responseResults)
                  + Buffered(ReplyFor(c, t, reply, task.id in old(downloadJobs), isLoaded(t.command), task.parameters in reg))
      ensures var reg := Register(old(Status()), task);
              CommandOf(reg[task.id].task.command) == ListJobs ==>
                BuffersListing(old(responseResults), responseResults, task.id, reg)
    {
      var job := GetOrAdd(task);
      ghost var reg := Status();
      ghost var buffered := responseResults;
      assert reg == Register(old(Status()), task) && buffered == old(responseResults);
      assert reg[task.id].task == job.task;
      Dispatch(task, job, reply, isLoaded, socksAction, plan);
      assert CommandOf(job.task.command) == ListJobs ==> BuffersListing(buffered, responseResults, task.id, reg);
      assert !Retires(CommandOf(job.task.command)) ==> task.id in activeJobs && activeJobs[task.id] == job;
    }

    /** The switch of StartJob, once `job` is registered under the task's id.
        The one switch statement is laid out in layers, each with its own
        contract: Switch runs Perform (the case's own work: Run for every
        command but jobs, BufferListing for jobs) and then Conclude (the
        event and the removal), and Dispatch adds StartTransfer, the
        handler-side start of download and upload. */
    method Dispatch(task: Task, job: Job, reply: Response, isLoaded: string -> bool, socksAction: string, plan: TransferPlan)
      requires Valid() && task.id in activeJobs && activeJobs[task.id] == job
      modifies this, activeJobs.Values
      ensures Valid()
      ensures if CommandOf(job.task.command) == Download && task.id !in old(downloadJobs) then
                && NewDownload(task.id, job, plan)
                && fresh(downloadJobs[task.id]) && downloadJobs == old(downloadJobs)[task.id := downloadJobs[task.id]]
              else downloadJobs == old(downloadJobs)
      ensures if CommandOf(job.task.command) == Upload && task.id !in old(downloadJobs) && task.id !in old(uploadJobs) then
                && NewUpload(task.id, job, plan)
                && fresh(uploadJobs[task.id]) && uploadJobs == old(uploadJobs)[task.id := uploadJobs[task.id]]
              else uploadJobs == old(uploadJobs)
      ensures activeJobs == if Retires(CommandOf(job.task.command)) then old(activeJobs) - {task.id} else old(activeJobs)
      ensures var c := CommandOf(job.task.command);
              var killed := if c == JobKill && task.parameters in old(Status()) then Cancel(old(Status()), task.parameters) else old(Status());
              Status() == if Retires(c) then killed - {task.id} else killed
      ensures notifications == old(notifications) + Raised(NoticeFor(CommandOf(job.task.command), socksAction), task.id)
      ensures var c := CommandOf(job.task.command);
              c != ListJobs ==>
                responseResults == old(responseResults)
                  + Buffered(ReplyFor(c, job.task, reply, task.id in old(downloadJobs), isLoaded(job.task.command), task.parameters in old(Status())))
      ensures CommandOf(job.task.command) == ListJobs ==>
                BuffersListing(old(responseResults), responseResults, task.id, old(Status()))
    {
      var c := CommandOf(job.task.command);
      Switch(task, job.task, c, reply, isLoaded(job.task.command), socksAction);
      ghost var switched, buffered, raised := Status(), responseResults, notifications;
      StartTransfer(c, task.id, job, plan);
      assert Status() == switched && responseResults == buffered && notifications == raised;
    }

    /** The switch of StartJob apart from the transfer start operations:
        `t` is the task of the job registered under the task's id, `c` the
        case its command selects and `loaded` whether a plugin of that name
        is loaded. */
    method Switch(task: Task, t: Task, c: Command, reply: Response, loaded: bool, socksAction: string)
      requires Valid() && t.id == task.id
      modifies this, activeJobs.Values
      ensures Valid()
      ensures uploadJobs == old(uploadJobs) && downloadJobs == old(downloadJobs)
      ensures activeJobs == if Retires(c) then old(activeJobs) - {task.id} else old(activeJobs)
      ensures var killed := if c == JobKill && task.parameters in old(Status()) then Cancel(old(Status()), task.parameters) else old(Status());
              Status() == if Retires(c) then killed - {task.id} else killed
      ensures notifications == old(notifications) + Raised(NoticeFor(c, socksAction), task.id)
      ensures c != ListJobs ==>
                responseResults == old(responseResults)
                  + Buffered(ReplyFor(c, t, reply, task.id in old(downloadJobs), loaded, task.parameters in old(Status())))
      ensures c == ListJobs ==> BuffersListing(old(responseResults), responseResults, task.id, old(Status()))
    {
      Perform(task, t, c, reply, loaded);
      ghost var after := responseResults;
      Conclude(c, task.id, socksAction);
      assert responseResults == after;
    }

    /** The command's own work, before the job is retired: jobs buffers the
        listing, every other command runs. */
    method Perform(task: Task, t: Task, c: Command, reply: Response, loaded: bool)
      requires Valid() && t.id == task.id
      modifies this`responseResults, activeJobs.Values
      ensures Valid() && activeJobs == old(activeJobs)
      ensures Status() == if c == JobKill && task.parameters in old(Status()) then Cancel(old(Status()), task.parameters) else old(Status())
      ensures c != ListJobs ==>
                responseResults == old(responseResults)
                  + Buffered(ReplyFor(c, t, reply, task.id in downloadJobs, loaded, task.parameters in old(Status())))
      ensures c == ListJobs ==> BuffersListing(old(responseResults), responseResults, task.id, old(Status()))
    {
      ghost var before, buffered := Status(), responseResults;
      if c == ListJobs {
        BufferListing(task.id);
        assert Status() == before && BuffersListing(buffered, responseResults, task.id, before);
      } else {
        Run(c, t, task.parameters, reply, loaded);
      }
    }

    /** The transfer registered for job `id` with the download handler. */
    ghost predicate NewDownload(id: string, job: Job, plan: TransferPlan)
      reads this`downloadJobs, downloadJobs.Values
    {
      id in downloadJobs && downloadJobs[id].job == job && downloadJobs[id].State() == DownloadState("", 0, plan.total_chunks)
    }

    /** The transfer registered for job `id` with the upload handler. */
    ghost predicate NewUpload(id: string, job: Job, plan: TransferPlan)
      reads this`uploadJobs, uploadJobs.Values
    {
      && id in uploadJobs && uploadJobs[id].job == job && uploadJobs[id].State() == UploadState(0, 0)
      && uploadJobs[id].chunk_size == plan.chunk_size && uploadJobs[id].path == plan.path
    }

    /** The start operations of the download and upload cases
        (StartDownloadJob, StartUploadJob), reached only when the download
        handler holds no transfer of the id: a new record sharing the job's
        cancellation token joins the handler of the command's kind. The
        upload handler keeps a transfer of the id it already holds. */
    method StartTransfer(c: Command, id: string, job: Job, plan: TransferPlan)
      modifies this`uploadJobs, this`downloadJobs
      ensures if c == Download && id !in old(downloadJobs) then
                && NewDownload(id, job, plan)
                && fresh(downloadJobs[id]) && downloadJobs == old(downloadJobs)[id := downloadJobs[id]]
              else downloadJobs == old(downloadJobs)
      ensures if c == Upload && id !in old(downloadJobs) && id !in old(uploadJobs) then
                && NewUpload(id, job, plan)
                && fresh(uploadJobs[id]) && uploadJobs == old(uploadJobs)[id := uploadJobs[id]]
              else uploadJobs == old(uploadJobs)
    {
      if c == Download && id !in downloadJobs {
        var d := new DownloadJob(job, plan.total_chunks);
        downloadJobs := downloadJobs[id := d];
      } else if c == Upload && id !in downloadJobs && id !in uploadJobs {
        var u := new UploadJob(job, plan.chunk_size, plan.path);
        uploadJobs := uploadJobs[id := u];
      }
    }

    /** The end of each case of the switch: the command's notification, then
        the removal of its job when the command retires it. */
    method Conclude(c: Command, id: string, socksAction: string)
      requires Valid()
      modifies this`notifications, this`activeJobs
      ensures Valid()
      ensures notifications == old(notifications) + Raised(NoticeFor(c, socksAction), id)
      ensures activeJobs == if Retires(c) then old(activeJobs) - {id} else old(activeJobs)
      ensures Status() == if Retires(c) then old(Status()) - {id} else old(Status())
    {
      Raise(NoticeFor(c, socksAction), id);
      if Retires(c) {
        Retire(id);
      }
    }

    /** The jobs command: buffers the listing of every registered job. */
    method BufferListing(taskId: string)
      requires Valid()
      modifies this`responseResults
      ensures BuffersListing(old(responseResults), responseResults, taskId, Status())
    {
      var listing := GetJobs(taskId);
      Buffer(Some(listing));
    }

    /** Every command but jobs, after registration: jobkill cancels its
        target when registered, then the command's reply is buffered. */
    method Run(c: Command, t: Task, target: string, reply: Response, loaded: bool)
      requires Valid()
      modifies this`responseResults, activeJobs.Values
      ensures Valid() && activeJobs == old(activeJobs)
      ensures Status() == if c == JobKill && target in old(Status()) then Cancel(old(Status()), target) else old(Status())
      ensures responseResults == old(responseResults) + Buffered(ReplyFor(c, t, reply, t.id in downloadJobs, loaded, target in old(Status())))
    {
      // jobkill looks its target up after the caller is registered
      var targetActive := target in activeJobs;
      if c == JobKill && targetActive {
        CancelJob(target);
      }
      // download and upload both ask the download handler
      var r := ReplyFor(c, t, reply, t.id in downloadJobs, loaded, targetActive);
      Buffer(r);
    }

    /** responseResults.Add, when there is a result to add. */
    method Buffer(r: Option<Response>)
      modifies this`responseResults
      ensures responseResults == old(responseResults) + Buffered(r)
    {
      if r.Some? {
        responseResults := responseResults + multiset{r.value};
      }
    }

    /** Invokes the event of the given kind, when there is one, for job `id`. */
    method Raise(kind: Option<NoticeKind>, id: string)
      modifies this`notifications
      ensures notifications == old(notifications) + Raised(kind, id)
    {
      if kind.Some? {
        notifications := notifications + [Notice(kind.value, id)];
      }
    }

    /** The listing of every registered job, the caller included. */
    method GetJobs(taskId: string) returns (r: Response)
      requires Valid()
      ensures exists entries :: Lists(entries, Status()) && r == JobsReport(taskId, entries)
    {
      var jobs := Status();
      assert Keyed(jobs);
      var text := ListingText(jobs);
      r := Result(taskId, true, "", text);
      ghost var entries :| Lists(entries, jobs) && text == Render(entries);
      assert r == JobsReport(taskId, entries);
    }

    /** Everything buffered, then the running assembly's output, then the
        running shell jobs' output; the buffer is empty afterwards. The
        assembly and shell handlers are unseen: whether they are running and
        what they return are parameters. */
    method GetResponses(assemblyIsRunning: bool, assemblyOutput: Response,
                        shellHasRunningJobs: bool, shellOutput: seq<Response>)
      returns (responses: seq<Response>)
      modifies this
      ensures |old(responseResults)| <= |responses|
      ensures multiset(responses[..|old(responseResults)|]) == old(responseResults)
      ensures responses[|old(responseResults)|..]
              == (if assemblyIsRunning then [assemblyOutput] else []) + (if shellHasRunningJobs then shellOutput else [])
      ensures responseResults == multiset{}
      ensures activeJobs == old(activeJobs) && notifications == old(notifications)
      ensures uploadJobs == old(uploadJobs) && downloadJobs == old(downloadJobs)
    {
      responses := ToList(responseResults);
      ghost var buffered := responses;
      if assemblyIsRunning {
        responses := responses + [assemblyOutput];
      }
      if shellHasRunningJobs {
        responses := responses + shellOutput;
      }
      assert responses[..|buffered|] == buffered;
      responseResults := multiset{};
    }

    /** AddResponse(object): buffers one result. */
    method AddResponse(response: Response)
      modifies this
      ensures responseResults == old(responseResults) + multiset{response}
      ensures activeJobs == old(activeJobs) && notifications == old(notifications)
      ensures uploadJobs == old(uploadJobs) && downloadJobs == old(downloadJobs)
    {
      responseResults := responseResults + multiset{response};
    }

    /** AddResponse(List<object>) as written: each Prepend builds a new
        sequence that is thrown away, so the buffer does not change. */
    method AddResponses(responses: seq<Response>)
      ensures responseResults == old(responseResults)
    {
    }

    /** AddResponse(List<object>) as its comment intends: every result is buffered. */
    method AddResponsesIntended(responses: seq<Response>)
      modifies this
      ensures responseResults == old(responseResults) + multiset(responses)
      ensures activeJobs == old(activeJobs) && notifications == old(notifications)
      ensures uploadJobs == old(uploadJobs) && downloadJobs == old(downloadJobs)
    {
      var added := multiset{};
      for i := 0 to |responses|
        invariant added == multiset(responses[..i])
      {
        assert responses[..i + 1] == responses[..i] + [responses[i]];
        added := added + multiset{responses[i]};
      }
      assert responses[..|responses|] == responses;
      responseResults := responseResults + added;
    }

    /** The next piece of an upload, sent by the controller. The source
        dereferences the upload handler's transfer unchecked, so it must exist. */
    method HandleUploadPiece(response: Piece)
      requires Valid()
      requires response.task_id in uploadJobs
      modifies this, uploadJobs[response.task_id]
      ensures Valid()
      ensures var transfer := old(uploadJobs[response.task_id]);
              transfer.State() == UploadStep(old(transfer.State()), transfer.chunk_size, transfer.path, response).state
      ensures var transfer := old(uploadJobs[response.task_id]);
              responseResults == old(responseResults) + multiset{UploadStep(old(transfer.State()), transfer.chunk_size, transfer.path, response).result}
      ensures var transfer := old(uploadJobs[response.task_id]);
              var gone := old(transfer.job.cancelled) || UploadStep(old(transfer.State()), transfer.chunk_size, transfer.path, response).finished;
              && activeJobs == (if gone then old(activeJobs) - {response.task_id} else old(activeJobs))
              && uploadJobs == (if gone then old(uploadJobs) - {response.task_id} else old(uploadJobs))
      ensures downloadJobs == old(downloadJobs) && notifications == old(notifications)
    {
      var transfer := uploadJobs[response.task_id];
      if transfer.job.cancelled {
        activeJobs := activeJobs - {response.task_id};
        uploadJobs := uploadJobs - {response.task_id};
      }
      // the source goes on after the cancellation branch
      var result, finished := transfer.Continue(response);
      if finished {
        uploadJobs := uploadJobs - {response.task_id};
        activeJobs := activeJobs - {response.task_id};
      }
      responseResults := responseResults + multiset{result};
    }

    /** The next piece of a download, acknowledged by the controller. `chunk`
        is what the download handler's DownloadNextChunk returns. A cancelled
        download is removed from the registry and, as written, from the UPLOAD
        handler. */
    method HandleDownloadPiece(response: Piece, chunk: string)
      requires Valid()
      requires response.task_id in downloadJobs
      modifies this, downloadJobs[response.task_id]
      ensures Valid()
      ensures var transfer := old(downloadJobs[response.task_id]);
              transfer.State() == DownloadStep(old(transfer.State()), response, chunk).state
      ensures var transfer := old(downloadJobs[response.task_id]);
              responseResults == old(responseResults) + multiset{DownloadStep(old(transfer.State()), response, chunk).result}
      ensures var transfer := old(downloadJobs[response.task_id]);
              var finished := DownloadStep(old(transfer.State()), response, chunk).finished;
              && activeJobs == (if old(transfer.job.cancelled) || finished then old(activeJobs) - {response.task_id} else old(activeJobs))
              && downloadJobs == (if finished then old(downloadJobs) - {response.task_id} else old(downloadJobs))
              && uploadJobs == (if old(transfer.job.cancelled) then old(uploadJobs) - {response.task_id} else old(uploadJobs))
      ensures notifications == old(notifications)
    {
      var transfer := downloadJobs[response.task_id];
      if transfer.job.cancelled {
        activeJobs := activeJobs - {response.task_id};
        // as written, a cancelled download is completed in the upload handler
        uploadJobs := uploadJobs - {response.task_id};
      }
      // the source goes on after the cancellation branch
      var result, finished := transfer.Continue(response, chunk);
      if finished {
        downloadJobs := downloadJobs - {response.task_id};
        activeJobs := activeJobs - {response.task_id};
      }
      responseResults := responseResults + multiset{result};
    }

    /** Whether the upload handler holds a transfer for the task. */
    method HasUploadJob(taskId: string) returns (b: bool)
      ensures b <==> taskId in uploadJobs
    {
      b := taskId in uploadJobs;
    }

    /** Whether the download handler holds a transfer for the task. */
    method HasDownloadJob(taskId: string) returns (b: bool)
      ensures b <==> taskId in downloadJobs
    {
      b := taskId in downloadJobs;
    }
  }
}
