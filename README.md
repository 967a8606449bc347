# Athena agent: command handler and SMB relay server

A Dafny model of two parts of the Athena agent.

**The command handler** (`CommandHandler`) has three pieces of state:

- the job registry (`activeJobs`, task id to `MythicJob`);
- the bag of results waiting for the controller (`responseResults`);
- the events it raises for its subscribers, modelled as a log of notifications.

It has these operations:

- `StartJob` registers a task and dispatches on the command name. For each command it decides whether the job stays registered, which notification is raised and which result is buffered.
- `GetJobs` lists the registry.
- `CheckAndRunPlugin` is the fallback for unknown commands.
- `GetResponses` and the two `AddResponse` overloads drain and fill the buffer.
- `HandleUploadPiece` and `HandleDownloadPiece` advance chunked transfers when the controller replies.

The upload and download handlers are not part of this model. Their per-task transfer records (`MythicUploadJob`, `MythicDownloadJob`) are modelled as classes whose counters change in place. Each record holds the registered job, so it sees that job's cancellation. The handler holds the records in two maps.

**The SMB relay server** (`SmbServer`) has two message lists, one per direction, and a background loop. The loop accepts a peer on a named pipe, then repeats three steps:

1. read one length-prefixed frame into `messageOut`;
2. wait for `messageIn` to be non-empty;
3. write `messageIn` back out as frames.

The model has:

- `List<DelegateMessage>` as a class, so `GetMessages` can return the very list it clears;
- the pipe as an object holding the bytes written to it;
- the loop as one method per step between its blocking points, with a `Phase` field saying where the loop stands;
- the frame codec as a pair of pure functions, with its round trip proved.

Files:

- `messages.dfy`: the values exchanged (tasks, results, controller pieces, notifications).
- `jobs.dfy`: the job record, the registry as values, the `jobs` listing, and the specification of the dispatch (`CommandOf`, `Retires`, `NoticeFor`, `ReplyFor`).
- `transfer.dfy`: the upload and download records, with one continuation step of each as a function and as a method.
- `commands.dfy`: the `CommandHandler` class.
- `frames.dfy`: the wire format (little-endian 32-bit length, then ASCII bytes) and its reader.
- `smb.dfy`: the message lists, the pipe and the `SmbServer` class.

The model follows the code as written. Behaviours a reader may not expect:

- `jobs` lists its own task. It is registered and marked started before the listing is built (`Jobs.JobsListsItself`).
- `exit` leaves its job registered.
- An unknown command leaves its job registered, whether or not its plugin is loaded.
- `jobkill` only signals the target's cancellation. The target stays registered, and only the `jobkill` task itself is removed.
- Every download result with a successful status is tagged `total_chunks = -1`, the terminal one included. The retry result for any other status, and the "No file_id received from Mythic" error, carry 0.
- A download finishes on the continuation that arrives when `chunk_num == total_chunks`. Starting from chunk 0 of 5, that is the sixth successful continuation (`Transfer.DownloadFinishesAtTotal`).
- Outbound frames carry ASCII bytes, with every other character written as `?`. They are not UTF-8.
- The length is written and read little-endian, as BinaryWriter and BinaryReader do. It is not in native byte order.
- Cancellation is checked only inside the message loop. A server that is waiting for its first peer stops only after a peer connects.
- A cancelled download is removed from the registry and, as the code is written, from the upload handler, not the download handler (`HandleDownloadPiece`).

## Model

| member | source | states |
|---|---|---|
| Jobs.Job.constructor | Payload_Type/athena/agent_code/Athena/Commands/CommandHandler.cs:51 | a new job carries the task, not started, not complete, not cancelled |
| Jobs.Register | Payload_Type/athena/agent_code/Athena/Commands/CommandHandler.cs:51-52 | registration adds the id (keeping the job already there, else a new one), marks it started, and changes no other id |
| Jobs.RegisterIdempotent | Payload_Type/athena/agent_code/Athena/Commands/CommandHandler.cs:51-52 | registering the same id again changes nothing; the registered task is the first arrival's; the registry grows by one only for a new id |
| Jobs.Cancel | Payload_Type/athena/agent_code/Athena/Commands/CommandHandler.cs:72-75 | jobkill sets the target's cancellation flag and keeps its task, started and complete flags; every other job is unchanged and the registered ids stay the same |
| Jobs.EntryText | Payload_Type/athena/agent_code/Athena/Commands/CommandHandler.cs:264-273 | one job's three lines: 38 characters plus the id, command and status; they open with `{"id":"` and the id, and close with `},` and a newline |
| Jobs.EntryTextFields | Payload_Type/athena/agent_code/Athena/Commands/CommandHandler.cs:264-273 | the command and the status appear in an entry's lines, each at its place after its quoted key |
| Jobs.EntryFor | Payload_Type/athena/agent_code/Athena/Commands/CommandHandler.cs:264-273 | a listed job shows its id and command, status "Started" iff started and not complete, otherwise "Queued" |
| Jobs.ListingText | Payload_Type/athena/agent_code/Athena/Commands/CommandHandler.cs:261-274 | the text built by the loop over the registry is the rendering of a listing with exactly one correct entry per registered job |
| Jobs.JobsReport | Payload_Type/athena/agent_code/Athena/Commands/CommandHandler.cs:276-281 | the jobs result is a completed result for the requesting task whose output is the rendered listing |
| Jobs.ListingSize | Payload_Type/athena/agent_code/Athena/Commands/CommandHandler.cs:262-274 | a listing has as many entries as the registry has jobs |
| Jobs.JobsListsItself | Payload_Type/athena/agent_code/Athena/Commands/CommandHandler.cs:49-71 | the listing the jobs command produces contains the jobs task itself, and has one entry per job registered before it, plus one for a new id |
| Jobs.CommandOf | Payload_Type/athena/agent_code/Athena/Commands/CommandHandler.cs:54-152 | a name the switch lists selects the case labelled with that name (NameOf gives it back); every other name reaches the plugin check with the name unchanged |
| Jobs.CommandOfCases | Payload_Type/athena/agent_code/Athena/Commands/CommandHandler.cs:54-152 | each of the fifteen names the switch lists selects its own case, and no other name selects that case |
| Jobs.CommandOfNameOf | Payload_Type/athena/agent_code/Athena/Commands/CommandHandler.cs:54-152 | the label of every case selects that case again: the switch's labels and cases correspond one to one |
| Jobs.CommandOfInjective | Payload_Type/athena/agent_code/Athena/Commands/CommandHandler.cs:54-152 | different command names select different cases |
| Jobs.Retires | Payload_Type/athena/agent_code/Athena/Commands/CommandHandler.cs:54-152 | a job stays registered exactly for plugins, download, upload, execute-assembly and exit; every other case removes it |
| Jobs.NoticeFor | Payload_Type/athena/agent_code/Athena/Commands/CommandHandler.cs:65-130 | a notification is raised exactly for exit, link, unlink, sleep and socks: ExitRequested exactly for exit, StartForwarder for link, StopForwarder for unlink, SetSleepAndJitter for sleep, and StartSocks or StopSocks for socks as its action is "start" or not |
| Jobs.ReplyFor | Payload_Type/athena/agent_code/Athena/Commands/CommandHandler.cs:54-152 | no result exactly for the notification commands, jobs (buffered separately), and download or upload when the download handler holds the id; execute-assembly, load, load-assembly, reset-assembly-context and shell, and download or upload otherwise, buffer exactly the handler's reply; any other result is a completed result for the task |
| Jobs.NamedCases | Payload_Type/athena/agent_code/Athena/Commands/CommandHandler.cs:65-143 | by name: jobs retires and raises nothing; exit raises ExitRequested and stays registered; link, unlink and sleep raise StartForwarder, StopForwarder and SetSleepAndJitter and retire; none buffers a result in the switch's reply |
| Jobs.HandlerReplies | Payload_Type/athena/agent_code/Athena/Commands/CommandHandler.cs:62-114 | execute-assembly, load, load-assembly, reset-assembly-context and shell buffer exactly the handler's reply and raise nothing; all but execute-assembly retire |
| Jobs.CheckAndRunPlugin | Payload_Type/athena/agent_code/Athena/Commands/CommandHandler.cs:287-302 | a loaded plugin's reply is returned unchanged; otherwise a completed error result "Plugin not loaded..." for the task |
| Jobs.NotificationCommandsOnlyNotify | Payload_Type/athena/agent_code/Athena/Commands/CommandHandler.cs:65-143 | exactly exit, link, unlink, sleep and socks raise a notification; they buffer no result; all but exit retire their job; only exit raises ExitRequested |
| Jobs.SocksNotice | Payload_Type/athena/agent_code/Athena/Commands/CommandHandler.cs:119-130 | socks raises StartSocks iff its action is "start", StopSocks otherwise |
| Jobs.JobkillReply | Payload_Type/athena/agent_code/Athena/Commands/CommandHandler.cs:72-94 | jobkill buffers one completed result: "Cancelled job" iff the target is registered, else the error "Job doesn't exist"; jobkill always retires itself |
| Jobs.FallbackReplies | Payload_Type/athena/agent_code/Athena/Commands/CommandHandler.cs:131-152 | an unknown command without a loaded plugin buffers exactly the "Plugin not loaded" error and stays registered; stop-assembly buffers "Not implemented yet." and retires |
| Jobs.TransferStartReplies | Payload_Type/athena/agent_code/Athena/Commands/CommandHandler.cs:144-149 | download and upload buffer the handler's reply only when the download handler holds no transfer of the id, and both stay registered |
| Commands.ToList | Payload_Type/athena/agent_code/Athena/Commands/CommandHandler.cs:222 | the list holds exactly the bag's results, with multiplicity |
| Commands.CommandHandler.constructor | Payload_Type/athena/agent_code/Athena/Commands/CommandHandler.cs:36-44 | the registry, buffer and transfer maps start empty and no notification has been raised |
| Commands.CommandHandler.GetOrAdd | Payload_Type/athena/agent_code/Athena/Commands/CommandHandler.cs:51-52 | the job under the id is reused (the same object) or freshly created, other ids keep their objects, and the registry becomes Register of the old one |
| Commands.CommandHandler.StartJob | Payload_Type/athena/agent_code/Athena/Commands/CommandHandler.cs:49-154 | after registration, the registry, notification log and buffer change exactly as Retires, Cancel, NoticeFor and ReplyFor (or the jobs listing) say for the registered job's command; download, when the download handler lacks the id, and upload, when neither handler holds it, add a fresh record holding the registered job; otherwise the transfer maps are unchanged |
| Commands.CommandHandler.Dispatch | Payload_Type/athena/agent_code/Athena/Commands/CommandHandler.cs:54-153 | the switch over the registered command: which job leaves the registry, which is cancelled, which notification and which result are added, and which transfer record starts for the job |
| Commands.CommandHandler.Switch | Payload_Type/athena/agent_code/Athena/Commands/CommandHandler.cs:54-152 | the switch without the transfer starts: the registry, notification log and buffer change as Retires, Cancel, NoticeFor and ReplyFor say, and the transfer maps are unchanged |
| Commands.CommandHandler.Perform | Payload_Type/athena/agent_code/Athena/Commands/CommandHandler.cs:56-151 | each case's work before its removal: jobs buffers a listing of the registry; every other command cancels jobkill's target if registered and buffers ReplyFor's result; the registry's ids are unchanged |
| Commands.CommandHandler.Run | Payload_Type/athena/agent_code/Athena/Commands/CommandHandler.cs:56-151 | every case but jobs: jobkill cancels its target only when registered, and the buffered result is ReplyFor's for the command |
| Commands.CommandHandler.BufferListing | Payload_Type/athena/agent_code/Athena/Commands/CommandHandler.cs:68-69 | jobs buffers a report listing the current registry |
| Commands.CommandHandler.Conclude | Payload_Type/athena/agent_code/Athena/Commands/CommandHandler.cs:65-143 | the command's notification is logged, and the job leaves the registry iff the command retires it |
| Commands.CommandHandler.Retire | Payload_Type/athena/agent_code/Athena/Commands/CommandHandler.cs:70 | activeJobs.Remove: exactly the id leaves the registry |
| Commands.CommandHandler.Buffer | Payload_Type/athena/agent_code/Athena/Commands/CommandHandler.cs:59 | responseResults.Add: the result, when there is one, is added to the buffer and nothing else is |
| Commands.CommandHandler.Raise | Payload_Type/athena/agent_code/Athena/Commands/CommandHandler.cs:159-208 | the event helpers (RequestExit … UpdateSleepAndJitter): the event of the given kind, when there is one, is appended to the notification log for the job |
| Commands.CommandHandler.CancelJob | Payload_Type/athena/agent_code/Athena/Commands/CommandHandler.cs:75 | the target's cancellation token is signalled, and the registry becomes Cancel of the old one |
| Commands.CommandHandler.StartTransfer | Payload_Type/athena/agent_code/Athena/Commands/CommandHandler.cs:56-149 | download with no transfer of the id in the download handler adds a fresh record holding the job and the plan's chunk count; upload likewise (keeping an upload transfer of the id) with the plan's chunk size and path; any other case leaves both maps |
| Commands.CommandHandler.GetJobs | Payload_Type/athena/agent_code/Athena/Commands/CommandHandler.cs:259-282 | the result is the report of a listing of the current registry |
| Commands.CommandHandler.GetResponses | Payload_Type/athena/agent_code/Athena/Commands/CommandHandler.cs:220-235 | the responses are every buffered result, then the assembly output if one runs, then the shell outputs if shell jobs run; the buffer is empty afterwards |
| Commands.CommandHandler.AddResponse | Payload_Type/athena/agent_code/Athena/Commands/CommandHandler.cs:240-243 | exactly one result is added; nothing else changes |
| Commands.CommandHandler.AddResponses | Payload_Type/athena/agent_code/Athena/Commands/CommandHandler.cs:248-254 | as written, the buffer is unchanged |
| Commands.CommandHandler.AddResponsesIntended | Payload_Type/athena/agent_code/Athena/Commands/CommandHandler.cs:248-254 | as intended, every result in the list is added to the buffer |
| Commands.CommandHandler.HandleUploadPiece | Payload_Type/athena/agent_code/Athena/Commands/CommandHandler.cs:308-369 | the upload record advances by UploadStep, its result is buffered, and the job leaves the registry and the upload handler iff it was cancelled or is finished |
| Commands.CommandHandler.HandleDownloadPiece | Payload_Type/athena/agent_code/Athena/Commands/CommandHandler.cs:374-450 | the download record advances by DownloadStep, its result is buffered, the job leaves the registry iff cancelled or finished, and the download handler iff finished |
| Commands.CommandHandler.HasUploadJob | Payload_Type/athena/agent_code/Athena/Commands/CommandHandler.cs:455-458 | true iff the upload handler holds a transfer of the id |
| Commands.CommandHandler.HasDownloadJob | Payload_Type/athena/agent_code/Athena/Commands/CommandHandler.cs:463-466 | true iff the download handler holds a transfer of the id |
| Transfer.UploadJob.constructor | Payload_Type/athena/agent_code/Athena/Commands/CommandHandler.cs:147 | a new upload record holds the job, chunk size and path, with both counters 0 |
| Transfer.DownloadJob.constructor | Payload_Type/athena/agent_code/Athena/Commands/CommandHandler.cs:59 | a new download record holds the job and the chunk count, at chunk 0 with no file id |
| Transfer.UploadJob.Continue | Payload_Type/athena/agent_code/Athena/Commands/CommandHandler.cs:317-368 | the in-place counter updates of an upload continuation are those of UploadStep, and its result and finishing are UploadStep's |
| Transfer.DownloadJob.Continue | Payload_Type/athena/agent_code/Athena/Commands/CommandHandler.cs:383-448 | the in-place counter updates of a download continuation are those of DownloadStep, and its result and finishing are DownloadStep's |
| Transfer.UploadStep | Payload_Type/athena/agent_code/Athena/Commands/CommandHandler.cs:317-368 | total_chunks is set only when 0; data advances chunk_num by one and yields one upload result, completed (and finishing) iff the piece's chunk_num equals total_chunks; no data yields the error "Mythic sent no data to upload!" and leaves chunk_num |
| Transfer.UploadCounts | Payload_Type/athena/agent_code/Athena/Commands/CommandHandler.cs:317-326 | after pieces 1..k of n, chunk_num is k and total_chunks is n |
| Transfer.UploadFinishesOnLastPiece | Payload_Type/athena/agent_code/Athena/Commands/CommandHandler.cs:317-341 | over pieces 1..n of n, the upload finishes on piece n and on no earlier piece |
| Transfer.UploadTotalSticks | Payload_Type/athena/agent_code/Athena/Commands/CommandHandler.cs:317-320 | once total_chunks is non-zero, no piece changes it |
| Transfer.DownloadStep | Payload_Type/athena/agent_code/Athena/Commands/CommandHandler.cs:383-448 | both file ids empty: a terminal error "No file_id received from Mythic"; otherwise file_id is seeded only when empty; on success chunk_num advances (result tagged -1) unless it equals total_chunks, which finishes with a completed result; any other status leaves chunk_num |
| Transfer.DownloadFinishesAtTotal | Payload_Type/athena/agent_code/Athena/Commands/CommandHandler.cs:402-437 | successive successful continuations advance chunk_num by one each and the one reaching total_chunks finishes the download, no earlier one |
| Frames.AsciiByte | Payload_Type/Athena/agent_code/Athena/Config/SMBConfig.cs:81 | an ASCII character becomes its code, any other character '?' |
| Frames.AsciiBytes | Payload_Type/Athena/agent_code/Athena/Config/SMBConfig.cs:81 | one byte per character, each the character's ASCII byte |
| Frames.CharOf | Payload_Type/Athena/agent_code/Athena/Config/SMBConfig.cs:69 | an ASCII byte reads back as that character |
| Frames.Chars | Payload_Type/Athena/agent_code/Athena/Config/SMBConfig.cs:69 | one character per byte read, each that byte's character |
| Frames.Le32 | Payload_Type/Athena/agent_code/Athena/Config/SMBConfig.cs:82 | a uint is written as four bytes |
| Frames.U32 | Payload_Type/Athena/agent_code/Athena/Config/SMBConfig.cs:68 | four bytes read back as a uint below 2^32 |
| Frames.U32OfLe32 | Payload_Type/Athena/agent_code/Athena/Config/SMBConfig.cs:68-82 | reading the four bytes of a written uint gives it back |
| Frames.Le32OfU32 | Payload_Type/Athena/agent_code/Athena/Config/SMBConfig.cs:68-82 | writing the uint read from four bytes gives the same bytes |
| Frames.Frame | Payload_Type/Athena/agent_code/Athena/Config/SMBConfig.cs:81-83 | an outbound frame is four bytes longer than the message |
| Frames.FrameLayout | Payload_Type/Athena/agent_code/Athena/Config/SMBConfig.cs:81-83 | a frame is the little-endian ASCII byte count, reading back as that count, then exactly the ASCII bytes |
| Frames.ReadFrame | Payload_Type/Athena/agent_code/Athena/Config/SMBConfig.cs:68-69 | fewer than four bytes end the stream; a length above int.MaxValue is a negative count; otherwise exactly that many characters are read, or every byte left when fewer remain, each decoded by CharOf, and the rest of the input is exactly the bytes after them |
| Frames.ReadWrittenFrame | Payload_Type/Athena/agent_code/Athena/Config/SMBConfig.cs:68-83 | reading a written frame followed by any bytes yields the message's ASCII decoding, exactly the message when it is ASCII (the empty one included), and leaves the following bytes |
| Frames.AsciiRoundTrip | Payload_Type/Athena/agent_code/Athena/Config/SMBConfig.cs:68-83 | ASCII text survives encoding and decoding |
| Frames.NonAsciiReplaced | Payload_Type/Athena/agent_code/Athena/Config/SMBConfig.cs:81 | every non-ASCII character comes back as '?' |
| Smb.MessageList.constructor | Payload_Type/Athena/agent_code/Athena/Config/SMBConfig.cs:24-25 | a new list is empty |
| Smb.MessageList.Add | Payload_Type/Athena/agent_code/Athena/Config/SMBConfig.cs:31 | appends the message at the end |
| Smb.MessageList.Clear | Payload_Type/Athena/agent_code/Athena/Config/SMBConfig.cs:37 | the list becomes empty |
| Smb.MessageList.Remove | Payload_Type/Athena/agent_code/Athena/Config/SMBConfig.cs:84 | removes the first occurrence iff there is one, reporting whether there was; removing the head drops exactly the head |
| Smb.Pipe.constructor | Payload_Type/Athena/agent_code/Athena/Config/SMBConfig.cs:50 | a new pipe is open and nothing has been written to it |
| Smb.SmbServer.constructor | Payload_Type/Athena/agent_code/Athena/Config/SMBConfig.cs:20-27 | both lists empty and distinct, named "pipe_name", not cancelled, the loop listening on a fresh pipe |
| Smb.SmbServer.AddToQueue | Payload_Type/Athena/agent_code/Athena/Config/SMBConfig.cs:29-32 | the message is appended to messageIn; messageOut is unchanged |
| Smb.SmbServer.GetMessages | Payload_Type/Athena/agent_code/Athena/Config/SMBConfig.cs:34-39 | as written, the list returned is messageOut itself and is empty; messageIn is unchanged |
| Smb.SmbServer.TakeMessages | Payload_Type/Athena/agent_code/Athena/Config/SMBConfig.cs:34-39 | as intended, the messages returned are those messageOut held, and messageOut is empty afterwards |
| Smb.SmbServer.Stop | Payload_Type/Athena/agent_code/Athena/Config/SMBConfig.cs:99-102 | cancellation is requested |
| Smb.SmbServer.Connect | Payload_Type/Athena/agent_code/Athena/Config/SMBConfig.cs:53 | a listening loop gets a connected peer |
| Smb.SmbServer.Reset | Payload_Type/Athena/agent_code/Athena/Config/SMBConfig.cs:91-94 | from a connected or waiting loop, an IOException closes the old pipe, messageOut is cleared, messageIn is kept, and the loop listens again on a fresh pipe |
| Smb.SmbServer.Receive | Payload_Type/Athena/agent_code/Athena/Config/SMBConfig.cs:60-73 | cancelled: the server stops for good; a short stream: reset; a negative count or unparsable payload: the loop faults; otherwise exactly the parsed message is appended to messageOut |
| Smb.SmbServer.Send | Payload_Type/Athena/agent_code/Athena/Config/SMBConfig.cs:76-85 | as written: the first queued message's frame is written and the message removed, then the loop faults; a broken pipe resets instead |
| Smb.SmbServer.WriteFirst | Payload_Type/Athena/agent_code/Athena/Config/SMBConfig.cs:79-84 | one pass of the drain: the first message's frame is appended to the pipe and the message leaves messageIn |
| Smb.SmbServer.Drain | Payload_Type/Athena/agent_code/Athena/Config/SMBConfig.cs:79-85 | as intended: the pipe receives the frames of every queued message in order, messageIn ends empty, and the loop returns to its top |
| Smb.LostDelivery | Payload_Type/Athena/agent_code/Athena/Config/SMBConfig.cs:34-39 | for any ASCII JSON text the deserialiser reads as a message (such as `{"message":"hi"}` for "hi"), the framed text lands in messageOut as that message, yet GetMessages delivers nothing |
| Smb.Delivery | Payload_Type/Athena/agent_code/Athena/Config/SMBConfig.cs:34-39 | with TakeMessages the same message is delivered |

## Left out

- Concurrency: async/await, `Task.Run`, and the thread safety of `ConcurrentDictionary` and `ConcurrentBag`. Operations run one at a time, and the bag is a multiset with no order.
- The handlers' internals, which are not part of this model: assembly loading and execution, shell execution, file reads and writes, base64 decoding, and `DownloadNextChunk`. Their replies are parameters (`reply`, `isLoaded`, `chunk`, and the `GetResponses` parameters).
- The transfer handlers' own start and completion operations (`StartUploadJob`, `StartDownloadJob`, `CompleteUploadJob`, `CompleteDownloadJob`). Completion is modelled only as the removal from the handler's map. `StartTransfer` and the record constructors stand in for the start operations, and the `plan` parameter of `StartJob` stands for the chunk count, chunk size and path they compute.
- The class definitions of `MythicUploadJob` and `MythicDownloadJob` are not part of this model; their fields are modelled as `UploadJob` and `DownloadJob`. The model takes it that a transfer record shares the cancellation token of the job it was started for, so a `jobkill` of that job is what a continuation sees.
- Commands.CommandHandler.HandleUploadPiece: requires that the upload handler holds a transfer of the id. The source dereferences the record it looks up without a check, so a continuation for an unknown id (a null dereference) is not modelled.
- Commands.CommandHandler.HandleDownloadPiece: requires that the download handler holds a transfer of the id, for the same unchecked dereference.
- JSON: the socks parameters arrive as an already-parsed `socksAction`. The relay's deserialiser is a `parse` parameter that returns None when it throws. A JSON `null` payload (which yields a null message) is not distinguished from a parse failure.
- C# events: each raised event is a log entry. A missing subscriber (a null event, which would throw) is not modelled.
- `StopJob`: its body is empty.
- null strings are the same as "" and unset numbers are 0. The handler tests `chunk_data` and `file_id` with `String.IsNullOrEmpty`, so for those the two coincide.
- The ArgumentNullException that `activeJobs.GetOrAdd` (a null task id) and `activeJobs.ContainsKey` (a null `jobkill` parameter) throw is not modelled. A null `jobkill` parameter is read as "", which is then looked up like any other id and, when absent, gets "Job doesn't exist".
- `Jobs.EntryText`: `AppendLine` ends each line with "\n". The platform line separator is not modelled.
- The named pipe itself: creating it, the blocking `WaitForConnection`, and the byte transport. A connection is the `Connect` step, and the bytes the peer sends are the `input` of `Receive`. An IOException while writing is the `broken` flag of `Send`.
- The busy-wait for `messageIn`: `Send` and the corrected `Drain` run only once it has ended, which each states as the precondition that `messageIn` is non-empty.
- `Frames.ReadFrame`: inbound bytes outside ASCII read back as U+FFFD, one character per byte. The reader's UTF-8 decoding of multi-byte sequences is not modelled.
- The constructor starts the loop on a separate task. The model takes the loop's first step (a fresh pipe, Listening) as part of construction.

## Findings

| source | as written | input that shows it | evidently intended | confidence | as-written member | corrected member |
|---|---|---|---|---|---|---|
| Payload_Type/athena/agent_code/Athena/Commands/CommandHandler.cs:248-254 | each `Prepend` returns a new sequence that is discarded, so no result is added | any non-empty list of results | every result is added to the buffer | high, not executed | Commands.CommandHandler.AddResponses | Commands.CommandHandler.AddResponsesIntended |
| Payload_Type/Athena/agent_code/Athena/Config/SMBConfig.cs:34-39 | returns `messageOut` itself after clearing it, so the caller always receives an empty list | the peer sends the frame of `{"message":"hi"}` (or of any other ASCII JSON message), then `GetMessages` is called | the caller receives what the peer sent | high, not executed | Smb.LostDelivery | Smb.Delivery |
| Payload_Type/Athena/agent_code/Athena/Config/SMBConfig.cs:79-85 | removing from `messageIn` inside the `foreach` over it makes the next step of the enumeration throw InvalidOperationException, which the loop does not catch | any non-empty `messageIn` once a frame has been received | every queued message is written, in order, and the loop goes on | high, not executed | Smb.SmbServer.Send | Smb.SmbServer.Drain |
