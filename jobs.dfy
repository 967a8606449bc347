/** The job registry's records, the `jobs` listing, and the specification of
    what the dispatcher (CommandHandler.StartJob) does with each command:
    whether the job stays registered, which notification it raises and which
    result it buffers. */
module Jobs {
  import opened Messages

  /** A snapshot of one job's flags. */
  datatype JobStatus = JobStatus(task: Task, started: bool, complete: bool, cancelled: bool)

  /** The agent-side record of a task (MythicJob). Its flags are updated in
      place by the handler; `cancelled` stands for its cancellation token. */
  class Job {
    const task: Task
    var started: bool
    var complete: bool
    var cancelled: bool

    constructor (task: Task)
      ensures this.task == task && !started && !complete && !cancelled
    {
      this.task := task;
      started, complete, cancelled := false, false, false;
    }

    function Status(): JobStatus
      reads this
    {
      JobStatus(task, started, complete, cancelled)
    }
  }

  // ---------------------------------------------------------------- registration

  /** The registry after `activeJobs.GetOrAdd(task.id, new MythicJob(task))`
      followed by `job.started = true`. */
  function Register(jobs: map<string, JobStatus>, task: Task): (r: map<string, JobStatus>)
    ensures r.Keys == jobs.Keys + {task.id}
    ensures r[task.id].started
    ensures task.id in jobs ==> r[task.id] == jobs[task.id].(started := true)
    ensures task.id !in jobs ==> r[task.id] == JobStatus(task, true, false, false)
    ensures forall id :: id in jobs && id != task.id ==> r[id] == jobs[id]
  {
    var job := if task.id in jobs then jobs[task.id] else JobStatus(task, false, false, false);
    jobs[task.id := job.(started := true)]
  }

  /** A second arrival of the same id reuses the registered job: registering
      it again changes nothing, and the registry grows by at most one. */
  lemma RegisterIdempotent(jobs: map<string, JobStatus>, task: Task, again: Task)
    requires again.id == task.id
    ensures Register(Register(jobs, task), again) == Register(jobs, task)
    ensures Register(jobs, task)[task.id].task == (if task.id in jobs then jobs[task.id].task else task)
    ensures |Register(jobs, task)| == if task.id in jobs then |jobs| else |jobs| + 1
  {
    var r := Register(jobs, task);
    var r2 := Register(r, again);
    assert r[task.id].(started := true) == r[task.id];
    assert r2.Keys == r.Keys;
    assert r2 == r;
    if task.id in jobs {
      assert r.Keys == jobs.Keys;
    } else {
      assert r.Keys == jobs.Keys + {task.id};
    }
  }

  /** The registry after `jobkill` signals the target's cancellation token. */
  function Cancel(jobs: map<string, JobStatus>, target: string): (r: map<string, JobStatus>)
    requires target in jobs
    ensures r.Keys == jobs.Keys
    ensures r[target] == JobStatus(jobs[target].task, jobs[target].started, jobs[target].complete, true)
    ensures forall id :: id in jobs && id != target ==> r[id] == jobs[id]
  {
    jobs[target := jobs[target].(cancelled := true)]
  }

  // ---------------------------------------------------------------- the jobs listing

  /** One job as GetJobs lists it. */
  datatype JobEntry = JobEntry(id: string, command: string, status: string)

  function EntryFor(s: JobStatus): (e: JobEntry)
    ensures e.id == s.task.id && e.command == s.task.command
    ensures e.status == "Started" <==> s.started && !s.complete
    ensures e.status == "Queued" <==> !(s.started && !s.complete)
  {
    JobEntry(s.task.id, s.task.command, if s.started && !s.complete then "Started" else "Queued")
  }

  /** The three lines GetJobs appends for one job (AppendLine ends each with a newline). */
  function EntryText(e: JobEntry): (text: string)
    ensures |text| == 38 + |e.id| + |e.command| + |e.status|
    ensures text[..7] == "{\"id\":\"" && text[7..7 + |e.id|] == e.id
    ensures text[|text| - 3..] == "},\n"
  {
    "{\"id\":\"" + e.id + "\",\n" + "\"command\":\"" + e.command + "\",\n" + "\"status\":\"" + e.status + "\"},\n"
  }

  /** The command and the status appear in an entry's lines, after their
      quoted keys. */
  lemma EntryTextFields(e: JobEntry)
    ensures var text := EntryText(e);
            text[21 + |e.id|..21 + |e.id| + |e.command|] == e.command
    ensures var text := EntryText(e);
            text[34 + |e.id| + |e.command|..34 + |e.id| + |e.command| + |e.status|] == e.status
  {
  }

  function Render(entries: seq<JobEntry>): string
  {
    if entries == [] then "" else Render(entries[..|entries| - 1]) + EntryText(entries[|entries| - 1])
  }

  /** The rendering grows by one entry's text per entry listed. */
  lemma RenderAppend(entries: seq<JobEntry>, e: JobEntry)
    ensures Render(entries + [e]) == Render(entries) + EntryText(e)
  {
    assert (entries + [e])[..|entries|] == entries;
  }

  /** `entries` lists the jobs of `jobs` whose ids are in `done`: each
      once, in some order, with the status derived from the job's flags. */
  ghost predicate ListsPart(entries: seq<JobEntry>, jobs: map<string, JobStatus>, done: set<string>)
  {
    && (forall i, k :: 0 <= i < k < |entries| ==> entries[i].id != entries[k].id)
    && (forall i :: 0 <= i < |entries| ==>
          entries[i].id in done && entries[i].id in jobs && entries[i] == EntryFor(jobs[entries[i].id]))
    && (forall id :: id in done ==> exists i :: 0 <= i < |entries| && entries[i].id == id)
  }

  /** `entries` lists the whole registry `jobs`. */
  ghost predicate Lists(entries: seq<JobEntry>, jobs: map<string, JobStatus>)
  {
    ListsPart(entries, jobs, jobs.Keys)
  }

  /** Every job is registered under its own task id. */
  ghost predicate Keyed(jobs: map<string, JobStatus>)
  {
    forall id :: id in jobs ==> jobs[id].task.id == id
  }

  /** Listing one more job of a keyed registry extends a partial listing. */
  lemma ListsPartStep(entries: seq<JobEntry>, jobs: map<string, JobStatus>, done: set<string>, id: string)
    requires Keyed(jobs) && ListsPart(entries, jobs, done)
    requires id in jobs && id !in done
    ensures ListsPart(entries + [EntryFor(jobs[id])], jobs, done + {id})
  {
    var es := entries + [EntryFor(jobs[id])];
    forall j | j in done + {id}
      ensures exists i :: 0 <= i < |es| && es[i].id == j
    {
      if j == id {
        assert es[|entries|].id == id;
      } else {
        var i :| 0 <= i < |entries| && entries[i].id == j;
        assert es[i].id == j;
      }
    }
  }

  /** The text of the `jobs` listing: one entry per registered job, in the
      (unspecified) order the registry is enumerated. */
  method ListingText(jobs: map<string, JobStatus>) returns (text: string)
    requires Keyed(jobs)
    ensures exists entries :: Lists(entries, jobs) && text == Render(entries)
  {
    text := "";
    ghost var entries: seq<JobEntry> := [];
    ghost var done: set<string> := {};
    var pending := jobs.Keys;
    while pending != {}
      invariant pending <= jobs.Keys && done == jobs.Keys - pending
      invariant text == Render(entries)
      invariant ListsPart(entries, jobs, done)
      decreases |pending|
    {
      var id :| id in pending;
      var j := jobs[id];
      var e := JobEntry(j.task.id, j.task.command, if j.started && !j.complete then "Started" else "Queued");
      ListingStep(entries, jobs, done, id, e);
      text := text + EntryText(e);
      entries := entries + [e];
      pending := pending - {id};
      done := done + {id};
    }
    assert done == jobs.Keys;
  }

  /** One pass of the listing loop: the entry built for `id` extends both the
      listing and its rendering. */
  lemma ListingStep(entries: seq<JobEntry>, jobs: map<string, JobStatus>, done: set<string>, id: string, e: JobEntry)
    requires Keyed(jobs) && ListsPart(entries, jobs, done)
    requires id in jobs && id !in done && e == EntryFor(jobs[id])
    ensures ListsPart(entries + [e], jobs, done + {id})
    ensures Render(entries + [e]) == Render(entries) + EntryText(e)
  {
    ListsPartStep(entries, jobs, done, id);
    RenderAppend(entries, e);
  }

  /** The single completed result the `jobs` command buffers. */
  function JobsReport(taskId: string, entries: seq<JobEntry>): (r: Response)
    ensures r.Result? && r.task_id == taskId && r.completed && r.user_output == Render(entries)
  {
    Result(taskId, true, "", Render(entries))
  }

  ghost function Ids(entries: seq<JobEntry>): set<string>
  {
    set i | 0 <= i < |entries| :: entries[i].id
  }

  lemma {:induction false} DistinctIdsCount(entries: seq<JobEntry>)
    requires forall i, k :: 0 <= i < k < |entries| ==> entries[i].id != entries[k].id
    ensures |Ids(entries)| == |entries|
  {
    if entries != [] {
      var n := |entries| - 1;
      var front := entries[..n];
      DistinctIdsCount(front);
      assert Ids(entries) == Ids(front) + {entries[n].id};
      assert entries[n].id !in Ids(front);
    }
  }

  /** A listing has exactly one entry per registered job. */
  lemma {:induction false} ListingSize(entries: seq<JobEntry>, jobs: map<string, JobStatus>)
    requires Lists(entries, jobs)
    ensures |entries| == |jobs|
  {
    assert Ids(entries) == jobs.Keys;
    DistinctIdsCount(entries);
  }

  /** The listing the `jobs` command produces includes the `jobs` task itself
      (it was registered and marked started first), and has one entry per job
      that was registered before it plus, for a new id, one more. */
  lemma JobsListsItself(jobs: map<string, JobStatus>, task: Task, entries: seq<JobEntry>)
    requires Lists(entries, Register(jobs, task))
    ensures exists i :: 0 <= i < |entries| && entries[i].id == task.id
    ensures |entries| == if task.id in jobs then |jobs| else |jobs| + 1
  {
    ListingSize(entries, Register(jobs, task));
    RegisterIdempotent(jobs, task, task);
  }

  // ---------------------------------------------------------------- dispatch

  /** The cases of StartJob's switch over the command name; every name the
      switch does not list goes to the plugin check. */
  datatype Command =
    | Download | ExecuteAssembly | Exit | ListJobs | JobKill | Link | Load | LoadAssembly
    | ResetAssemblyContext | Shell | Sleep | Socks | StopAssembly | Unlink | Upload
    | Plugin(name: string)

  /** The command names the switch lists. */
  const Builtins: set<string> := {"download", "execute-assembly", "exit", "jobs", "jobkill", "link", "load",
                                  "load-assembly", "reset-assembly-context", "shell", "sleep", "socks",
                                  "stop-assembly", "unlink", "upload"}

  /** The switch case a command name selects: a listed name its own case,
      any other name the plugin check for that name. */
  function CommandOf(name: string): (c: Command)
    ensures name !in Builtins <==> c == Plugin(name)
    ensures name in Builtins ==> NameOf(c) == name
  {
    match name
    case "download" => Download
    case "execute-assembly" => ExecuteAssembly
    case "exit" => Exit
    case "jobs" => ListJobs
    case "jobkill" => JobKill
    case "link" => Link
    case "load" => Load
    case "load-assembly" => LoadAssembly
    case "reset-assembly-context" => ResetAssemblyContext
    case "shell" => Shell
    case "sleep" => Sleep
    case "socks" => Socks
    case "stop-assembly" => StopAssembly
    case "unlink" => Unlink
    case "upload" => Upload
    case _ => Plugin(name)
  }

  /** The label of a switch case; a plugin's is its own name. */
  function NameOf(c: Command): (name: string)
    ensures c.Plugin? ==> name == c.name
    ensures !c.Plugin? ==> name in Builtins
  {
    match c
    case Download => "download"
    case ExecuteAssembly => "execute-assembly"
    case Exit => "exit"
    case ListJobs => "jobs"
    case JobKill => "jobkill"
    case Link => "link"
    case Load => "load"
    case LoadAssembly => "load-assembly"
    case ResetAssemblyContext => "reset-assembly-context"
    case Shell => "shell"
    case Sleep => "sleep"
    case Socks => "socks"
    case StopAssembly => "stop-assembly"
    case Unlink => "unlink"
    case Upload => "upload"
    case Plugin(name) => name
  }

  /** The case of each label is the one it selects: the switch's own case for
      a listed name, the plugin check for any other. */
  lemma CommandOfNameOf(c: Command)
    requires c.Plugin? ==> c.name !in Builtins
    ensures CommandOf(NameOf(c)) == c
  {
  }

  /** Case by case, the one name that selects each listed case. */
  lemma CommandOfCases(name: string)
    ensures CommandOf(name) == Download <==> name == "download"
    ensures CommandOf(name) == ExecuteAssembly <==> name == "execute-assembly"
    ensures CommandOf(name) == Exit <==> name == "exit"
    ensures CommandOf(name) == ListJobs <==> name == "jobs"
    ensures CommandOf(name) == JobKill <==> name == "jobkill"
    ensures CommandOf(name) == Link <==> name == "link"
    ensures CommandOf(name) == Load <==> name == "load"
    ensures CommandOf(name) == LoadAssembly <==> name == "load-assembly"
    ensures CommandOf(name) == ResetAssemblyContext <==> name == "reset-assembly-context"
    ensures CommandOf(name) == Shell <==> name == "shell"
    ensures CommandOf(name) == Sleep <==> name == "sleep"
    ensures CommandOf(name) == Socks <==> name == "socks"
    ensures CommandOf(name) == StopAssembly <==> name == "stop-assembly"
    ensures CommandOf(name) == Unlink <==> name == "unlink"
    ensures CommandOf(name) == Upload <==> name == "upload"
  {
  }

  /** Different command names select different cases: no name is
      dispatched as another. */
  lemma CommandOfInjective(a: string, b: string)
    requires a != b
    ensures CommandOf(a) != CommandOf(b)
  {
  }

  /** The commands that only raise a notification. */
  predicate IsNotification(c: Command)
  {
    c in {Exit, Link, Unlink, Sleep, Socks}
  }

  /** Whether StartJob removes the job it dispatched from the registry. */
  predicate Retires(c: Command)
    ensures !Retires(c) <==> c.Plugin? || c in {Download, Upload, ExecuteAssembly, Exit}
  {
    match c
    case ListJobs | JobKill | Link | Load | LoadAssembly | ResetAssemblyContext | Shell | Sleep | Socks
      | StopAssembly | Unlink => true
    case Download | ExecuteAssembly | Exit | Upload | Plugin(_) => false
  }

  /** The notification StartJob raises for a command; `socksAction` is the
      "action" member of the socks task's JSON parameters. */
  function NoticeFor(c: Command, socksAction: string): (kind: Option<NoticeKind>)
    ensures kind.Some? <==> IsNotification(c)
    ensures kind == Some(ExitRequested) <==> c == Exit
    ensures kind == Some(StartForwarder) <==> c == Link
    ensures kind == Some(StopForwarder) <==> c == Unlink
    ensures kind == Some(SetSleepAndJitter) <==> c == Sleep
    ensures kind == Some(StartSocks) <==> c == Socks && socksAction == "start"
    ensures kind == Some(StopSocks) <==> c == Socks && socksAction != "start"
  {
    match c
    case Exit => Some(ExitRequested)
    case Link => Some(StartForwarder)
    case Unlink => Some(StopForwarder)
    case Sleep => Some(SetSleepAndJitter)
    case Socks => Some(if socksAction == "start" then StartSocks else StopSocks)
    case _ => None
  }

  /** The cases whose result is the unseen handler's reply. */
  predicate HandlerServed(c: Command)
  {
    c in {ExecuteAssembly, Load, LoadAssembly, ResetAssemblyContext, Shell}
  }

  /** The fallback for a command StartJob does not know: run the loaded
      plugin's reply, or an error result when no plugin of that name is loaded. */
  function CheckAndRunPlugin(task: Task, loaded: bool, pluginReply: Response): (r: Response)
    ensures loaded ==> r == pluginReply
    ensures !loaded ==> r.Result? && r.task_id == task.id && r.completed && r.status == "error"
    ensures !loaded ==> r.user_output == PluginNotLoaded
  {
    if loaded then pluginReply
    else Result(task.id, true, "error", PluginNotLoaded)
  }

  /** The result StartJob buffers for command `c` of every kind except `jobs`
      (whose listing is built from the registry). `task` is the registered job's
      task, `reply` what the unseen handler returns, `inDownloads` whether the
      download handler already holds a transfer of this id, `loaded` whether
      a plugin of this name is loaded and `targetActive` whether jobkill's
      target id is registered. */
  function ReplyFor(c: Command, task: Task, reply: Response, inDownloads: bool, loaded: bool, targetActive: bool)
    : (r: Option<Response>)
    ensures r.None? <==> IsNotification(c) || c == ListJobs || ((c == Download || c == Upload) && inDownloads)
    ensures r.Some? && r.value != reply ==> r.value.Result? && r.value.task_id == task.id && r.value.completed
    ensures HandlerServed(c) ==> r == Some(reply)
    ensures (c == Download || c == Upload) && !inDownloads ==> r == Some(reply)
  {
    match c
    case Download | Upload => if inDownloads then None else Some(reply)
    case ExecuteAssembly | Load | LoadAssembly | ResetAssemblyContext | Shell => Some(reply)
    case JobKill =>
      Some(if targetActive then Result(task.id, true, "", CancelledJob)
           else Result(task.id, true, "error", JobDoesNotExist))
    case StopAssembly => Some(Result(task.id, true, "", NotImplemented))
    case ListJobs | Exit | Link | Unlink | Sleep | Socks => None
    case Plugin(_) => Some(CheckAndRunPlugin(task, loaded, reply))
  }

  /** link, unlink, sleep and socks raise exactly one notification, buffer no
      result and retire their job; exit raises ExitRequested, buffers nothing
      and leaves its job registered. No other command notifies. */
  lemma NotificationCommandsOnlyNotify(c: Command, task: Task, reply: Response, inDownloads: bool, loaded: bool,
                                       targetActive: bool, socksAction: string)
    ensures NoticeFor(c, socksAction).Some? <==> IsNotification(c)
    ensures IsNotification(c) ==> ReplyFor(c, task, reply, inDownloads, loaded, targetActive) == None
    ensures IsNotification(c) ==> (Retires(c) <==> c != Exit)
    ensures NoticeFor(c, socksAction) == Some(ExitRequested) <==> c == Exit && !Retires(c)
  {
  }

  /** socks raises StartSocks exactly when its action is "start", StopSocks otherwise. */
  lemma SocksNotice(socksAction: string)
    ensures NoticeFor(CommandOf("socks"), socksAction) == Some(StartSocks) <==> socksAction == "start"
    ensures NoticeFor(CommandOf("socks"), socksAction) == Some(StopSocks) <==> socksAction != "start"
  {
  }

  /** By name: jobs retires its job and raises nothing; exit raises
      ExitRequested and keeps its job; link, unlink and sleep raise
      StartForwarder, StopForwarder and SetSleepAndJitter and retire. None of
      them buffers a result here (the jobs listing is buffered apart). */
  lemma NamedCases(name: string, task: Task, reply: Response, inDownloads: bool, loaded: bool,
                   targetActive: bool, socksAction: string)
    ensures name == "jobs" ==> CommandOf(name) == ListJobs && Retires(CommandOf(name))
                               && NoticeFor(CommandOf(name), socksAction) == None
    ensures name == "exit" ==> !Retires(CommandOf(name)) && NoticeFor(CommandOf(name), socksAction) == Some(ExitRequested)
    ensures name == "link" ==> Retires(CommandOf(name)) && NoticeFor(CommandOf(name), socksAction) == Some(StartForwarder)
    ensures name == "unlink" ==> Retires(CommandOf(name)) && NoticeFor(CommandOf(name), socksAction) == Some(StopForwarder)
    ensures name == "sleep" ==> Retires(CommandOf(name)) && NoticeFor(CommandOf(name), socksAction) == Some(SetSleepAndJitter)
    ensures name in {"jobs", "exit", "link", "unlink", "sleep"} ==>
              ReplyFor(CommandOf(name), task, reply, inDownloads, loaded, targetActive) == None
  {
  }

  /** execute-assembly, load, load-assembly, reset-assembly-context and shell
      buffer exactly the handler's reply and raise nothing; all but
      execute-assembly retire their job. */
  lemma HandlerReplies(name: string, task: Task, reply: Response, inDownloads: bool, loaded: bool,
                       targetActive: bool, socksAction: string)
    requires name in {"execute-assembly", "load", "load-assembly", "reset-assembly-context", "shell"}
    ensures ReplyFor(CommandOf(name), task, reply, inDownloads, loaded, targetActive) == Some(reply)
    ensures NoticeFor(CommandOf(name), socksAction) == None
    ensures Retires(CommandOf(name)) <==> name != "execute-assembly"
  {
  }

  /** jobkill buffers one completed result for its own task ("Cancelled job"
      when the target is registered, the error "Job doesn't exist" otherwise)
      and always retires itself. */
  lemma JobkillReply(task: Task, reply: Response, inDownloads: bool, loaded: bool, targetActive: bool)
    requires task.command == "jobkill"
    ensures var r := ReplyFor(CommandOf(task.command), task, reply, inDownloads, loaded, targetActive);
            r.Some? && r.value.Result? && r.value.task_id == task.id && r.value.completed
            && (targetActive <==> r.value.user_output == CancelledJob)
            && (!targetActive <==> r.value.status == "error" && r.value.user_output == JobDoesNotExist)
    ensures Retires(CommandOf(task.command))
  {
  }

  /** An unknown command without a loaded plugin buffers exactly one error
      result and its job stays registered; stop-assembly buffers "Not
      implemented yet." and retires. */
  lemma FallbackReplies(task: Task, reply: Response, inDownloads: bool, targetActive: bool)
    ensures task.command !in Builtins ==>
              ReplyFor(CommandOf(task.command), task, reply, inDownloads, false, targetActive)
                == Some(Result(task.id, true, "error", PluginNotLoaded))
              && !Retires(CommandOf(task.command))
    ensures task.command == "stop-assembly" ==>
              ReplyFor(CommandOf(task.command), task, reply, inDownloads, false, targetActive) == Some(Result(task.id, true, "", NotImplemented))
              && Retires(CommandOf(task.command))
  {
  }

  /** download and upload buffer the handler's reply only when the download
      handler does not already hold a transfer of that id (upload consults
      the download handler too), and both stay registered. */
  lemma TransferStartReplies(task: Task, reply: Response, inDownloads: bool, loaded: bool, targetActive: bool)
    requires task.command == "download" || task.command == "upload"
    ensures ReplyFor(CommandOf(task.command), task, reply, inDownloads, loaded, targetActive) == (if inDownloads then None else Some(reply))
    ensures !Retires(CommandOf(task.command))
  {
  }
}
