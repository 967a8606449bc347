/** Values exchanged between the agent's command handler, the controller and
    the notification subscribers. Unset strings of the C# objects (null) are
    written "" here and unset numbers 0, which is how the handler itself
    tests them (String.IsNullOrEmpty). */
module Messages {

  datatype Option<T> = None | Some(value: T)

  /** A unit of work sent by the controller (MythicTask). */
  datatype Task = Task(id: string, command: string, parameters: string)

  /** Transfer metadata carried by an upload result (UploadResponseData). */
  datatype UploadData = UploadData(chunk_num: int, file_id: string, chunk_size: int, full_path: string)

  /** A result buffered for the controller: a plain ResponseResult, an
      UploadResponse or a DownloadResponse. `completed` is true exactly when
      the source sets completed = "true". */
  datatype Response =
    | Result(task_id: string, completed: bool, status: string, user_output: string)
    | UploadResult(task_id: string, completed: bool, status: string, user_output: string,
                   upload: UploadData)
    | DownloadResult(task_id: string, completed: bool, status: string, user_output: string,
                     full_path: string, total_chunks: int, file_id: string, chunk_num: int,
                     chunk_data: string)

  /** The part of a controller reply (MythicResponseResult) that drives a
      transfer continuation. */
  datatype Piece = Piece(task_id: string, status: string, file_id: string, chunk_num: int,
                         total_chunks: int, chunk_data: string)

  /** The events the handler raises; each carries the id of the job it was raised for. */
  datatype NoticeKind = SetSleepAndJitter | StartForwarder | StopForwarder | StartSocks | StopSocks | ExitRequested
  datatype Notice = Notice(kind: NoticeKind, task_id: string)

  const CancelledJob := "Cancelled job"
  const JobDoesNotExist := "Job doesn't exist"
  const NotImplemented := "Not implemented yet."
  const PluginNotLoaded := "Plugin not loaded. Please use the load command to load the plugin!"
  const NoUploadData := "Mythic sent no data to upload!"
  const NoFileId := "No file_id received from Mythic"

  /** An optional result as the (empty or one-element) bag it adds to the buffer. */
  function Buffered(r: Option<Response>): (b: multiset<Response>)
    ensures r.None? ==> b == multiset{}
    ensures r.Some? ==> b == multiset{r.value}
  {
    match r
    case None => multiset{}
    case Some(x) => multiset{x}
  }
}
