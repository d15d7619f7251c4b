/** The remote-analysis workflow of app.py: the id extraction of
    `upload_file_and_get_id` and `run_skin_analysis_task`, and the control
    logic of `poll_for_result`. The HTTP requests themselves are abstracted as
    the replies they produce, the wall-clock deadline as the finite sequence of
    replies to the polls that start before it, and the result archive as its
    entry names and decoded contents. */
module Workflow {
  import opened PyJson
  import opened Results

  /** The outcome of one HTTP request as app.py sees it: a
      `requests.RequestException` (connection failure, per-call timeout, an
      error status raised by `raise_for_status`, a body that is not JSON), or
      the decoded JSON body. */
  datatype Reply = RequestFailed(reason: string) | Received(body: Json)

  // ---------------------------------------------------------------------
  // Id extraction
  // ---------------------------------------------------------------------

  /** `data.get("data", {}).get("files", [{}])[0].get("file_id")` and the
      falsiness check after it. Indexing or calling `.get` on something that
      is not a list or dict is a shape error. */
  function FileIdOf(body: Json): (r: Result<Json, ParseReason>)
    ensures r.Ok? ==> Truthy(r.value)
    ensures forall entry :: FirstFile(body, entry) ==>
      r == if Truthy(Get(entry, "file_id", Null)) then Ok(Get(entry, "file_id", Null))
           else Err(MissingField("file_id"))
    ensures (forall entry :: !FirstFile(body, entry)) <==> r == Err(UnexpectedShape)
    ensures r.Ok? <==> exists entry :: FirstFile(body, entry) && Truthy(Get(entry, "file_id", Null))
  {
    if !body.Obj? then Err(UnexpectedShape)
    else
      var data := Get(body.fields, "data", EmptyObj);
      if !data.Obj? then Err(UnexpectedShape)
      else
        match Get(data.fields, "files", Arr([EmptyObj]))
        case Arr(items) =>
          if items == [] || !items[0].Obj? then Err(UnexpectedShape)
          else
            assert FirstFile(body, items[0].fields);
            var id := Get(items[0].fields, "file_id", Null);
            if Truthy(id) then Ok(id) else Err(MissingField("file_id"))
        case _ => Err(UnexpectedShape)
  }

  /** `entry` is the dict `data.get("data", {}).get("files", [{}])[0]`
      reaches: the body and its `data` are dicts, and `files` (by default
      `[{}]`) is a non-empty list whose first element is the dict `entry`. */
  ghost predicate FirstFile(body: Json, entry: map<string, Json>)
  {
    && body.Obj?
    && Get(body.fields, "data", EmptyObj).Obj?
    && var files := Get(Get(body.fields, "data", EmptyObj).fields, "files", Arr([EmptyObj]));
       files.Arr? && |files.items| > 0 && files.items[0] == Obj(entry)
  }

  /** `upload_file_and_get_id` after the request: a request failure is a
      network error (502), an unusable body a parse error (500). */
  function UploadOutcome(reply: Reply): (r: Result<Json, Failure>)
    ensures reply.RequestFailed? ==> r == Err(NetworkError(Upload, reply.reason))
    ensures reply.Received? ==> match FileIdOf(reply.body)
      case Ok(id) => r == Ok(id)
      case Err(why) => r == Err(ParseError(Upload, why))
    ensures r.Err? ==> HttpStatus(r.error) == if reply.RequestFailed? then 502 else 500
  {
    match reply
    case RequestFailed(reason) => Err(NetworkError(Upload, reason))
    case Received(body) =>
      (match FileIdOf(body)
       case Ok(id) => Ok(id)
       case Err(why) => Err(ParseError(Upload, why)))
  }

  /** `data.get("data", {}).get("task_id")` and the falsiness check after it. */
  function TaskIdOf(body: Json): (r: Result<Json, ParseReason>)
    ensures r.Ok? ==> Truthy(r.value)
    ensures forall data :: DataOf(body, data) ==>
      r == if Truthy(Get(data, "task_id", Null)) then Ok(Get(data, "task_id", Null))
           else Err(MissingField("task_id"))
    ensures (forall data :: !DataOf(body, data)) <==> r == Err(UnexpectedShape)
    ensures r.Ok? <==> exists data :: DataOf(body, data) && Truthy(Get(data, "task_id", Null))
    ensures r.Err? ==> r.error == UnexpectedShape || r.error == MissingField("task_id")
  {
    if !body.Obj? then Err(UnexpectedShape)
    else
      var data := Get(body.fields, "data", EmptyObj);
      if !data.Obj? then Err(UnexpectedShape)
      else
        assert DataOf(body, data.fields);
        var id := Get(data.fields, "task_id", Null);
        if Truthy(id) then Ok(id) else Err(MissingField("task_id"))
  }

  /** `data` is the dict `body.get("data", {})` reaches. */
  ghost predicate DataOf(body: Json, data: map<string, Json>)
  {
    body.Obj? && Get(body.fields, "data", EmptyObj) == Obj(data)
  }

  /** `run_skin_analysis_task` after the request. */
  function RunTaskOutcome(reply: Reply): (r: Result<Json, Failure>)
    ensures reply.RequestFailed? ==> r == Err(NetworkError(RunTask, reply.reason))
    ensures reply.Received? ==> match TaskIdOf(reply.body)
      case Ok(id) => r == Ok(id)
      case Err(why) => r == Err(ParseError(RunTask, why))
    ensures r.Err? ==> HttpStatus(r.error) == if reply.RequestFailed? then 502 else 500
  {
    match reply
    case RequestFailed(reason) => Err(NetworkError(RunTask, reason))
    case Received(body) =>
      (match TaskIdOf(body)
       case Ok(id) => Ok(id)
       case Err(why) => Err(ParseError(RunTask, why)))
  }

  /** The response shape the remote service documents yields its id,
      whatever else the reply and its first file entry hold. */
  lemma UploadWellFormed(top: map<string, Json>, data: map<string, Json>, entry: map<string, Json>, more: seq<Json>)
    requires Get(top, "data", EmptyObj) == Obj(data)
    requires Get(data, "files", Arr([EmptyObj])) == Arr([Obj(entry)] + more)
    requires Truthy(Get(entry, "file_id", Null))
    ensures UploadOutcome(Received(Obj(top))) == Ok(Get(entry, "file_id", Null))
  {
    assert FirstFile(Obj(top), entry);
  }

  /** A missing or falsy `file_id` (`None`, `""`, `0`, `False`, `[]`, `{}`)
      in an otherwise well-formed upload reply is a parse error (500), never
      a network error (502). */
  lemma MissingFileIdIsParseError(top: map<string, Json>, data: map<string, Json>, entry: map<string, Json>,
                                  more: seq<Json>)
    requires Get(top, "data", EmptyObj) == Obj(data)
    requires Get(data, "files", Arr([EmptyObj])) == Arr([Obj(entry)] + more)
    requires !Truthy(Get(entry, "file_id", Null))
    ensures UploadOutcome(Received(Obj(top))) == Err(ParseError(Upload, MissingField("file_id")))
    ensures HttpStatus(UploadOutcome(Received(Obj(top))).error) == 500
  {
    assert FirstFile(Obj(top), entry);
  }

  /** The same for a missing or falsy `task_id` in a task-start reply. */
  lemma MissingTaskIdIsParseError(task: map<string, Json>, taskData: map<string, Json>)
    requires Get(task, "data", EmptyObj) == Obj(taskData)
    requires !Truthy(Get(taskData, "task_id", Null))
    ensures RunTaskOutcome(Received(Obj(task))) == Err(ParseError(RunTask, MissingField("task_id")))
    ensures HttpStatus(RunTaskOutcome(Received(Obj(task))).error) == 500
  {
    assert DataOf(Obj(task), taskData);
  }

  // ---------------------------------------------------------------------
  // The result archive
  // ---------------------------------------------------------------------

  /** What the chosen archive entry decodes to with `json.load`. */
  datatype EntryContent = Document(doc: Json) | NotJson

  datatype ZipEntry = ZipEntry(name: string, content: EntryContent)

  /** What downloading `result_url` yields: a request failure (caught, 502),
      bytes that are not a zip archive, or the archive's entries in order. */
  datatype Download = DownloadFailed(reason: string) | NotAZip | Zip(entries: seq<ZipEntry>)

  const ScoreFileSuffix := "score_info.json"

  /** `s.endswith(suffix)`. */
  predicate EndsWith(s: string, suffix: string)
  {
    |suffix| <= |s| && s[|s| - |suffix|..] == suffix
  }

  /** `z.namelist()`. */
  function Names(entries: seq<ZipEntry>): (names: seq<string>)
    ensures |names| == |entries|
    ensures forall i :: 0 <= i < |entries| ==> names[i] == entries[i].name
  {
    seq(|entries|, i requires 0 <= i < |entries| => entries[i].name)
  }

  /** The position of the first name ending with the score-file suffix. */
  function ScoreEntryIndex(names: seq<string>): (r: Option<nat>)
    ensures r.Some? ==> r.value < |names| && EndsWith(names[r.value], ScoreFileSuffix)
    ensures r.Some? ==> forall j :: 0 <= j < r.value ==> !EndsWith(names[j], ScoreFileSuffix)
    ensures r.None? <==> forall j :: 0 <= j < |names| ==> !EndsWith(names[j], ScoreFileSuffix)
  {
    if names == [] then None
    else if EndsWith(names[0], ScoreFileSuffix) then Some(0)
    else
      match ScoreEntryIndex(names[1..])
      case Some(k) => Some(k + 1)
      case None => None
  }

  /** `next((f for f in names if f.endswith("score_info.json")), None)`. */
  method FindScoreEntry(names: seq<string>) returns (r: Option<nat>)
    ensures r == ScoreEntryIndex(names)
  {
    var i := 0;
    while i < |names|
      invariant 0 <= i <= |names|
      invariant forall j :: 0 <= j < i ==> !EndsWith(names[j], ScoreFileSuffix)
    {
      if EndsWith(names[i], ScoreFileSuffix) {
        return Some(i);
      }
      i := i + 1;
    }
    return None;
  }

  /** The entry `z.open(name)` reads: when names repeat, the last one. */
  function LastNamed(entries: seq<ZipEntry>, name: string): (r: Option<nat>)
    ensures r.Some? ==> r.value < |entries| && entries[r.value].name == name
    ensures r.Some? ==> forall j :: r.value < j < |entries| ==> entries[j].name != name
    ensures r.None? ==> forall j :: 0 <= j < |entries| ==> entries[j].name != name
  {
    if entries == [] then None
    else if entries[|entries| - 1].name == name then Some(|entries| - 1)
    else LastNamed(entries[..|entries| - 1], name)
  }

  /** `content` is what the entry `z.open` reads for the first name that ends
      with the score-file suffix holds: the last entry bearing that name. */
  ghost predicate ChoseScoreEntry(entries: seq<ZipEntry>, content: EntryContent)
  {
    exists k, j :: ChoseAt(entries, k, j) && entries[j].content == content
  }

  /** `k` is the first entry whose name ends with the suffix, `j` the last
      entry with that name. */
  ghost predicate ChoseAt(entries: seq<ZipEntry>, k: int, j: int)
  {
    && 0 <= k <= j < |entries|
    && EndsWith(entries[k].name, ScoreFileSuffix)
    && (forall i :: 0 <= i < k ==> !EndsWith(entries[i].name, ScoreFileSuffix))
    && entries[j].name == entries[k].name
    && (forall i :: j < i < |entries| ==> entries[i].name != entries[k].name)
  }

  /** The entry `z.open(score_file_name)` reads, if some name ends with the
      suffix. */
  function ScoreEntry(entries: seq<ZipEntry>): (r: Option<nat>)
    ensures r.Some? ==> r.value < |entries| && ChoseScoreEntry(entries, entries[r.value].content)
    ensures forall content :: ChoseScoreEntry(entries, content) ==> r.Some? && entries[r.value].content == content
    ensures r.None? <==> forall j :: 0 <= j < |entries| ==> !EndsWith(entries[j].name, ScoreFileSuffix)
  {
    var names := Names(entries);
    match ScoreEntryIndex(names)
    case None => None
    case Some(k) =>
      match LastNamed(entries, names[k])
      case None => assert false; None
      case Some(j) =>
        assert ChoseAt(entries, k, j);
        ChoiceIsDetermined(entries, k, j);
        Some(j)
  }

  /** The first matching name and the last entry bearing it are determined by
      the archive. */
  lemma ChoiceIsDetermined(entries: seq<ZipEntry>, k: nat, j: nat)
    requires ChoseAt(entries, k, j)
    ensures forall k', j' :: ChoseAt(entries, k', j') ==> k' == k && j' == j
  {
    forall k', j' | ChoseAt(entries, k', j') ensures k' == k && j' == j {
      assert !(k' < k) && !(k < k');
    }
  }

  /** The outcome of downloading and reading the result archive. */
  function ReadScores(download: Download): (r: Result<Json, Failure>)
    ensures download.DownloadFailed? ==> r == Err(NetworkError(Polling, download.reason))
    ensures download.NotAZip? ==> r == Err(ParseError(Polling, UnexpectedShape))
    ensures download.Zip? ==>
      (r == Err(ParseError(Polling, ScoreFileMissing(Names(download.entries))))
       <==> forall j :: 0 <= j < |download.entries| ==> !EndsWith(download.entries[j].name, ScoreFileSuffix))
    ensures r.Ok? ==> download.Zip? && ChoseScoreEntry(download.entries, Document(r.value))
    ensures forall doc :: download.Zip? && ChoseScoreEntry(download.entries, Document(doc)) ==> r == Ok(doc)
    ensures download.Zip? ==>
      (r == Err(ParseError(Polling, MalformedScoreFile)) <==> ChoseScoreEntry(download.entries, NotJson))
  {
    match download
    case DownloadFailed(reason) => Err(NetworkError(Polling, reason))
    case NotAZip => Err(ParseError(Polling, UnexpectedShape))
    case Zip(entries) =>
      match ScoreEntry(entries)
      case None => Err(ParseError(Polling, ScoreFileMissing(Names(entries))))
      case Some(j) =>
        match entries[j].content
        case Document(doc) => Ok(doc)
        case NotJson => Err(ParseError(Polling, MalformedScoreFile))
  }

  // ---------------------------------------------------------------------
  // Polling
  // ---------------------------------------------------------------------

  /** What one poll reply does to the loop: go on polling (carrying the
      status seen), or stop with the function's outcome. */
  datatype Step = Continue(status: Json) | Stop(outcome: Result<Json, Failure>)

  /** One iteration of the `poll_for_result` loop. */
  function PollStep(reply: Reply, download: Download): (s: Step)
    ensures s.Stop? ==> !(s.outcome.Err? && s.outcome.error.Timeout?)
    ensures reply.RequestFailed? ==> s == Stop(Err(NetworkError(Polling, reply.reason)))
  {
    match reply
    case RequestFailed(reason) => Stop(Err(NetworkError(Polling, reason)))
    case Received(body) =>
      if !body.Obj? then Stop(Err(ParseError(Polling, UnexpectedShape)))
      else
        var data := Get(body.fields, "data", EmptyObj);
        if !data.Obj? then Stop(Err(ParseError(Polling, UnexpectedShape)))
        else
          var status := Get(data.fields, "status", Null);
          if status == Str("done") then
            if !Truthy(Get(data.fields, "result_url", Null)) then
              Stop(Err(ParseError(Polling, MissingField("result_url"))))
            else Stop(ReadScores(download))
          else if status == Str("failed") then
            Stop(Err(RemoteTaskFailed(Get(data.fields, "error", Null))))
          else Continue(status)
  }

  /** `poll_for_result(task_id, max_wait)` over the replies to the polls that
      start before the deadline. */
  function Poll(polls: seq<Reply>, download: Download, taskId: Json, maxWait: int): (r: Result<Json, Failure>)
    ensures polls == [] ==> r == Err(Timeout(taskId, maxWait))
    ensures r.Err? && r.error.Timeout? ==> r == Err(Timeout(taskId, maxWait))
  {
    if polls == [] then Err(Timeout(taskId, maxWait))
    else
      match PollStep(polls[0], download)
      case Stop(outcome) => outcome
      case Continue(_) => Poll(polls[1..], download, taskId, maxWait)
  }

  /** The polling loop of app.py, one reply per iteration. */
  method PollForResult(polls: seq<Reply>, download: Download, taskId: Json, maxWait: int)
    returns (r: Result<Json, Failure>)
    ensures r == Poll(polls, download, taskId, maxWait)
  {
    var i := 0;
    while i < |polls|
      invariant 0 <= i <= |polls|
      invariant Poll(polls[i..], download, taskId, maxWait) == Poll(polls, download, taskId, maxWait)
    {
      PollUnfold(polls, download, taskId, maxWait, i);
      match polls[i]
      case RequestFailed(reason) =>
        return Err(NetworkError(Polling, reason));
      case Received(body) =>
        if !body.Obj? {
          return Err(ParseError(Polling, UnexpectedShape));
        }
        var data := Get(body.fields, "data", EmptyObj);
        if !data.Obj? {
          return Err(ParseError(Polling, UnexpectedShape));
        }
        var status := Get(data.fields, "status", Null);
        if status == Str("done") {
          if !Truthy(Get(data.fields, "result_url", Null)) {
            return Err(ParseError(Polling, MissingField("result_url")));
          }
          r := Fetch(download);
          return;
        } else if status == Str("failed") {
          return Err(RemoteTaskFailed(Get(data.fields, "error", Null)));
        }
      i := i + 1;
    }
    return Err(Timeout(taskId, maxWait));
  }

  /** One iteration of the loop: the reply at `i` either ends it or hands on
      to the replies after it. */
  lemma PollUnfold(polls: seq<Reply>, download: Download, taskId: Json, maxWait: int, i: nat)
    requires i < |polls|
    ensures Poll(polls[i..], download, taskId, maxWait)
            == if PollStep(polls[i], download).Stop? then PollStep(polls[i], download).outcome
               else Poll(polls[i + 1..], download, taskId, maxWait)
  {
    assert polls[i..][0] == polls[i] && polls[i..][1..] == polls[i + 1..];
  }

  /** Download the archive, pick the score entry and decode it. */
  method Fetch(download: Download) returns (r: Result<Json, Failure>)
    ensures r == ReadScores(download)
  {
    match download
    case DownloadFailed(reason) =>
      r := Err(NetworkError(Polling, reason));
    case NotAZip =>
      r := Err(ParseError(Polling, UnexpectedShape));
    case Zip(entries) =>
      var names := Names(entries);
      var k := FindScoreEntry(names);
      if k.None? {
        return Err(ParseError(Polling, ScoreFileMissing(names)));
      }
      var j := LastNamed(entries, names[k.value]);
      if j.None? {
        assert false;
      }
      match entries[j.value].content
      case Document(doc) =>
        r := Ok(doc);
      case NotJson =>
        r := Err(ParseError(Polling, MalformedScoreFile));
  }

  /** Timeout happens exactly when no reply before the deadline is terminal,
      a request failure or unusable. */
  lemma {:induction false} PollTimeoutIff(polls: seq<Reply>, download: Download, taskId: Json, maxWait: int)
    ensures Poll(polls, download, taskId, maxWait) == Err(Timeout(taskId, maxWait))
            <==> forall k :: 0 <= k < |polls| ==> PollStep(polls[k], download).Continue?
  {
    if polls != [] {
      PollTimeoutIff(polls[1..], download, taskId, maxWait);
      assert forall k :: 1 <= k < |polls| ==> polls[k] == polls[1..][k - 1];
    }
  }

  /** The loop ends at the first reply that does not say to go on, with that
      reply's outcome: every earlier status led to another poll. */
  lemma {:induction false} PollStopsAtFirst(polls: seq<Reply>, download: Download, taskId: Json, maxWait: int, k: nat)
    requires k < |polls| && PollStep(polls[k], download).Stop?
    requires forall j :: 0 <= j < k ==> PollStep(polls[j], download).Continue?
    ensures Poll(polls, download, taskId, maxWait) == PollStep(polls[k], download).outcome
  {
    if k > 0 {
      assert polls[1..][k - 1] == polls[k];
      PollStopsAtFirst(polls[1..], download, taskId, maxWait, k - 1);
    }
  }

  /** A request failure on any poll, reached before a terminal status, aborts
      with a 502 naming the polling phase. */
  lemma PollRequestFailure(polls: seq<Reply>, download: Download, taskId: Json, maxWait: int, k: nat)
    requires k < |polls| && polls[k].RequestFailed?
    requires forall j :: 0 <= j < k ==> PollStep(polls[j], download).Continue?
    ensures Poll(polls, download, taskId, maxWait) == Err(NetworkError(Polling, polls[k].reason))
    ensures HttpStatus(Poll(polls, download, taskId, maxWait).error) == 502
  {
    PollStopsAtFirst(polls, download, taskId, maxWait, k);
  }

  /** A reply with status `"failed"` ends the loop with the remote error. */
  lemma PollRemoteFailure(top: map<string, Json>, data: map<string, Json>, download: Download)
    requires Get(top, "data", EmptyObj) == Obj(data)
    requires Get(data, "status", Null) == Str("failed")
    ensures PollStep(Received(Obj(top)), download)
            == Stop(Err(RemoteTaskFailed(Get(data, "error", Null))))
  {
  }

  /** A reply with status `"done"` ends the loop: without a truthy
      `result_url` it is a parse error, otherwise the archive decides. */
  lemma PollDone(top: map<string, Json>, data: map<string, Json>, download: Download)
    requires Get(top, "data", EmptyObj) == Obj(data)
    requires Get(data, "status", Null) == Str("done")
    ensures PollStep(Received(Obj(top)), download)
            == Stop(if Truthy(Get(data, "result_url", Null)) then ReadScores(download)
                    else Err(ParseError(Polling, MissingField("result_url"))))
  {
  }

  /** Any other status, an absent one included, means keep polling; so does
      a reply without `data`, whose status is then `None`. */
  lemma PollOtherStatus(top: map<string, Json>, data: map<string, Json>, download: Download)
    requires Get(top, "data", EmptyObj) == Obj(data)
    requires Get(data, "status", Null) != Str("done") && Get(data, "status", Null) != Str("failed")
    ensures PollStep(Received(Obj(top)), download) == Continue(Get(data, "status", Null))
  {
  }

  /** A reply that is not a dict, or whose `data` is not a dict, ends the
      loop with a parse error: the `.get` calls on it raise. */
  lemma PollShapeError(body: Json, download: Download)
    requires !body.Obj? || !Get(body.fields, "data", EmptyObj).Obj?
    ensures PollStep(Received(body), download) == Stop(Err(ParseError(Polling, UnexpectedShape)))
    ensures HttpStatus(PollStep(Received(body), download).outcome.error) == 500
  {
  }

  /** Processing until the last poll before the deadline, then done: the
      archive decides the outcome, not the timeout. */
  lemma DoneJustBeforeDeadline(n: nat, url: Json, download: Download, taskId: Json, maxWait: int)
    requires Truthy(url)
    ensures Poll(seq(n, _ => Received(Obj(map["data" := Obj(map["status" := Str("processing")])])))
                 + [Received(Obj(map["data" := Obj(map["status" := Str("done"), "result_url" := url])]))],
                 download, taskId, maxWait)
            == ReadScores(download)
  {
    var processing := Received(Obj(map["data" := Obj(map["status" := Str("processing")])]));
    var done := Received(Obj(map["data" := Obj(map["status" := Str("done"), "result_url" := url])]));
    var polls := seq(n, _ => processing) + [done];
    assert PollStep(processing, download).Continue?;
    assert polls[n] == done;
    PollStopsAtFirst(polls, download, taskId, maxWait, n);
  }
}
