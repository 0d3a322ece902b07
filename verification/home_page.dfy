/**
 * The upload page: it owns the selection, the e-mail text, the processing
 * flag, the progress display, the result list and its counts, and runs the
 * submit sequence validate -> upload -> report -> settle.
 *
 * The request itself is not performed: its progress events and the way it
 * ends are arguments, and every form sent is appended to `sent`.
 * Notifications are appended to `toasts`.
 */
module HomePage {
  import opened Wrappers
  import opened Uploads
  import opened Results
  import opened Progress
  import EmailPattern
  import Area = FileUploadArea

  datatype BlockReason = NoFileSelected | InvalidEmailFormat

  /** A submit either stops before any request or sends one form. */
  datatype SubmitOutcome = Blocked(reason: BlockReason) | Started(form: UploadForm)

  /** The checks a submit makes, in order, before it sends anything: a file
      must be selected, and a non-empty e-mail text must match the pattern. */
  function Validate(selectedFile: Option<FileInfo>, email: string): (o: SubmitOutcome)
    ensures o.Started? <==> selectedFile.Some? && (email == "" || EmailPattern.MatchesEmailRegex(email))
    ensures o.Started? ==> o.form == BuildForm(selectedFile.value, email)
    ensures selectedFile.None? ==> o == Blocked(NoFileSelected)
    ensures selectedFile.Some? && email != "" && !EmailPattern.MatchesEmailRegex(email) ==>
      o == Blocked(InvalidEmailFormat)
  {
    if selectedFile.None? then Blocked(NoFileSelected)
    else if email != "" && !EmailPattern.IsValidEmail(email) then Blocked(InvalidEmailFormat)
    else Started(BuildForm(selectedFile.value, email))
  }

  function BlockToast(reason: BlockReason): (t: Toast)
    ensures t.kind == ErrorToast
    ensures t == NoFileToast <==> reason == NoFileSelected
    ensures t == BadEmailToast <==> reason == InvalidEmailFormat
  {
    match reason
    case NoFileSelected => NoFileToast
    case InvalidEmailFormat => BadEmailToast
  }

  /** The selection after the page is offered `file`: taken when its type is
      accepted, otherwise the prior selection stays. */
  function SelectionAfter(prior: Option<FileInfo>, file: FileInfo): (sel: Option<FileInfo>)
    ensures sel == Some(file) <==> IsValidFileType(file.mimeType) || prior == Some(file)
    ensures sel != prior ==> sel == Some(file)
  {
    if IsValidFileType(file.mimeType) then Some(file) else prior
  }

  /** The notifications raised when the page is offered `file`. */
  function SelectionToasts(file: FileInfo): seq<Toast> {
    if IsValidFileType(file.mimeType) then [] else [InvalidTypeToast]
  }

  /** The percentage and status the bar shows after the progress events of one
      upload, before the request ends. */
  function ProgressAfter(events: seq<ProgressEvent>): (nat, string) {
    if events == [] then (StartPercent, StartStatus)
    else
      var p := UploadPercent(events[|events| - 1]);
      (p, UploadingStatus(p))
  }

  class Home {
    var email: string
    var selectedFile: Option<FileInfo>
    var isProcessing: bool
    var progress: nat
    var progressStatus: string
    var results: seq<ResultRecord>
    var stats: Stats
    /** Notifications shown so far, oldest first. */
    var toasts: seq<Toast>
    /** Upload forms sent to the service so far, oldest first. */
    var sent: seq<UploadForm>
    /** Every percentage the progress bar has been set to, oldest first. */
    ghost var shownPercents: seq<nat>
    /** The drop zone rendered by the page. */
    const uploadArea: Area.FileUploadArea

    /** The counts always describe the result list. */
    ghost predicate Valid()
      reads this
    {
      stats == DeriveStats(results)
    }

    constructor ()
      ensures Valid()
      ensures email == "" && selectedFile == None && !isProcessing
      ensures progress == 0 && progressStatus == DefaultStatus
      ensures results == [] && stats == NoStats
      ensures toasts == [] && sent == [] && shownPercents == []
      ensures fresh(uploadArea) && !uploadArea.isDragging
    {
      email := "";
      selectedFile := None;
      isProcessing := false;
      progress := 0;
      progressStatus := DefaultStatus;
      results := [];
      stats := NoStats;
      toasts := [];
      sent := [];
      shownPercents := [];
      uploadArea := new Area.FileUploadArea();
    }

    /** The submit button is disabled while processing. */
    predicate SubmitEnabled()
      reads this
    {
      !isProcessing
    }

    /** The stat cards are shown exactly when the result list is. */
    predicate ShowsStatsCards()
      reads this
      ensures Valid() ==> (ShowsStatsCards() <==> ShowsResults(results))
    {
      PanelsAgree(results);
      ShowsStats(stats)
    }

    /** Typing in the e-mail field. */
    method SetEmail(text: string)
      modifies this`email
      ensures email == text
    {
      email := text;
    }

    /** `handleFileSelect`: accepts a file of a listed MIME type; any other
        file leaves the selection as it was and raises an error notification. */
    method HandleFileSelect(file: FileInfo)
      modifies this`selectedFile, this`toasts
      ensures selectedFile == SelectionAfter(old(selectedFile), file)
      ensures toasts == old(toasts) + SelectionToasts(file)
    {
      if file.mimeType in ValidFileTypes {
        selectedFile := Some(file);
      } else {
        toasts := toasts + [InvalidTypeToast];
      }
    }

    /** `handleFileClear`: drops the selection, whatever it was. */
    method HandleFileClear()
      modifies this`selectedFile, this`toasts
      ensures selectedFile == None
      ensures toasts == old(toasts) + [ClearedToast]
    {
      selectedFile := None;
      toasts := toasts + [ClearedToast];
    }

    /** `updateProgress`. */
    method UpdateProgress(percent: nat, statusText: string)
      modifies this`progress, this`progressStatus, this`shownPercents
      ensures progress == percent && progressStatus == statusText
      ensures shownPercents == old(shownPercents) + [percent]
    {
      progress := percent;
      progressStatus := statusText;
      shownPercents := shownPercents + [percent];
    }

    /** The upload's progress callback. */
    method OnUploadProgress(e: ProgressEvent)
      modifies this`progress, this`progressStatus, this`shownPercents
      ensures progress == UploadPercent(e) && progressStatus == UploadingStatus(progress)
      ensures shownPercents == old(shownPercents) + [progress]
    {
      var percent := UploadPercent(e);
      UpdateProgress(percent, UploadingStatus(percent));
    }

    /** The first part of `processFile`: the checks, then (when they pass) the
        processing flag, the starting progress and the request. A blocked
        submit only raises its notification. */
    method StartProcessing() returns (outcome: SubmitOutcome)
      requires SubmitEnabled() // a disabled button delivers no click
      modifies this`isProcessing, this`progress, this`progressStatus, this`shownPercents, this`toasts, this`sent
      ensures outcome == Validate(selectedFile, email)
      ensures outcome.Blocked? ==>
        toasts == old(toasts) + [BlockToast(outcome.reason)] &&
        !isProcessing && progress == old(progress) &&
        progressStatus == old(progressStatus) && shownPercents == old(shownPercents) &&
        sent == old(sent)
      ensures outcome.Started? ==>
        toasts == old(toasts) && isProcessing &&
        progress == StartPercent && progressStatus == StartStatus &&
        shownPercents == old(shownPercents) + [StartPercent] &&
        sent == old(sent) + [outcome.form]
    {
      if selectedFile.None? {
        toasts := toasts + [NoFileToast];
        return Blocked(NoFileSelected);
      }
      if email != "" && !EmailPattern.IsValidEmail(email) {
        toasts := toasts + [BadEmailToast];
        return Blocked(InvalidEmailFormat);
      }
      isProcessing := true;
      UpdateProgress(StartPercent, StartStatus);
      var form := BuildForm(selectedFile.value, email);
      sent := sent + [form];
      outcome := Started(form);
    }

    /** The end of `processFile`: report the answer or the failure, then clear
        the processing flag. Only an answer that carries a result list replaces
        the list and its counts; a failure leaves both as they were. */
    method FinishProcessing(response: UploadResponse)
      requires Valid()
      modifies this`isProcessing, this`progress, this`progressStatus, this`shownPercents, this`toasts,
        this`results, this`stats
      ensures Valid() && !isProcessing
      ensures response.Answered? ==>
        progress == DonePercent && progressStatus == DoneStatus &&
        shownPercents == old(shownPercents) + [DonePercent] &&
        toasts == old(toasts) + [UploadedToast(response.message)] &&
        results == (if response.results.Some? then response.results.value else old(results))
      ensures response.Rejected? ==>
        progress == old(progress) && progressStatus == old(progressStatus) &&
        shownPercents == old(shownPercents) &&
        toasts == old(toasts) + [UploadErrorToast(response.serverMessage, response.errorMessage)] &&
        results == old(results) && stats == old(stats)
    {
      match response {
        case Answered(message, rs) =>
          UpdateProgress(DonePercent, DoneStatus);
          toasts := toasts + [UploadedToast(message)];
          if rs.Some? {
            results := rs.value;
            var successCount := SuccessCount(rs.value);
            stats := Stats(|rs.value|, successCount, |rs.value| - successCount);
          }
        case Rejected(serverMessage, errorMessage) =>
          toasts := toasts + [UploadErrorToast(serverMessage, errorMessage)];
      }
      isProcessing := false;
    }

    /** The delayed reset after a request ends: `updateProgress(0)`, which also
        puts back the default status text. */
    method Settle()
      modifies this`progress, this`progressStatus, this`shownPercents
      ensures progress == 0 && progressStatus == DefaultStatus
      ensures shownPercents == old(shownPercents) + [0]
    {
      UpdateProgress(0, DefaultStatus);
    }

    /** `processFile` from the click to the end of the request, with the
        request's progress events and its end given. */
    method ProcessFile(events: seq<ProgressEvent>, response: UploadResponse) returns (outcome: SubmitOutcome)
      requires Valid() && SubmitEnabled()
      modifies this`isProcessing, this`progress, this`progressStatus, this`shownPercents, this`toasts,
        this`sent, this`results, this`stats
      ensures Valid()
      ensures outcome == Validate(selectedFile, email)
      ensures outcome.Blocked? ==>
        toasts == old(toasts) + [BlockToast(outcome.reason)] && sent == old(sent) &&
        !isProcessing && progress == old(progress) &&
        progressStatus == old(progressStatus) && shownPercents == old(shownPercents) &&
        results == old(results) && stats == old(stats)
      ensures outcome.Started? ==> sent == old(sent) + [outcome.form] && !isProcessing
      ensures outcome.Started? && response.Answered? ==>
        progress == DonePercent && progressStatus == DoneStatus &&
        shownPercents == old(shownPercents) + [StartPercent] + Percents(events) + [DonePercent] &&
        toasts == old(toasts) + [UploadedToast(response.message)] &&
        results == (if response.results.Some? then response.results.value else old(results))
      ensures outcome.Started? && response.Rejected? ==>
        (progress, progressStatus) == ProgressAfter(events) &&
        shownPercents == old(shownPercents) + [StartPercent] + Percents(events) &&
        toasts == old(toasts) + [UploadErrorToast(response.serverMessage, response.errorMessage)] &&
        results == old(results) && stats == old(stats)
    {
      outcome := StartProcessing();
      if outcome.Blocked? {
        return;
      }
      ghost var started := shownPercents;
      DeliverProgress(events);
      assert shownPercents == started + Percents(events);
      FinishProcessing(response);
    }

    /** The progress callback run on each event of one request, in order. */
    method DeliverProgress(events: seq<ProgressEvent>)
      modifies this`progress, this`progressStatus, this`shownPercents
      ensures events != [] ==> (progress, progressStatus) == ProgressAfter(events)
      ensures events == [] ==> progress == old(progress) && progressStatus == old(progressStatus)
      ensures shownPercents == old(shownPercents) + Percents(events)
    {
      var i := 0;
      while i < |events|
        invariant 0 <= i <= |events|
        invariant i > 0 ==> (progress, progressStatus) == ProgressAfter(events[..i])
        invariant i == 0 ==> progress == old(progress) && progressStatus == old(progressStatus)
        invariant shownPercents == old(shownPercents) + Percents(events[..i])
      {
        OnUploadProgress(events[i]);
        assert events[..i + 1][..i] == events[..i];
        i := i + 1;
      }
      assert events[..i] == events;
    }

    /** A click on the drop zone. */
    method ClickUploadArea(inputMounted: bool) returns (opensPicker: bool)
      ensures opensPicker <==> !isProcessing && inputMounted
    {
      opensPicker := uploadArea.HandleClick(isProcessing, inputMounted);
    }

    /** Files chosen in the picker: the first one is offered to the page. */
    method PickFiles(files: Option<seq<FileInfo>>)
      modifies this`selectedFile, this`toasts
      ensures var f := Area.FirstFile(files);
        if f.Some? then selectedFile == SelectionAfter(old(selectedFile), f.value) &&
                        toasts == old(toasts) + SelectionToasts(f.value)
        else selectedFile == old(selectedFile) && toasts == old(toasts)
    {
      var forwarded := uploadArea.HandleFileChange(files);
      if forwarded.Some? {
        HandleFileSelect(forwarded.value);
      }
    }

    method DragEnterArea()
      modifies uploadArea
      ensures uploadArea.isDragging == (!isProcessing || old(uploadArea.isDragging))
    {
      uploadArea.HandleDragEnter(isProcessing);
    }

    method DragLeaveArea()
      modifies uploadArea
      ensures !uploadArea.isDragging
    {
      uploadArea.HandleDragLeave();
    }

    /** Files dropped on the zone: the first one is offered to the page, but
        not while it is processing. */
    method DropOnArea(files: Option<seq<FileInfo>>)
      modifies this`selectedFile, this`toasts, uploadArea
      ensures !uploadArea.isDragging
      ensures var f := Area.FirstFile(files);
        if f.Some? && !isProcessing then
          selectedFile == SelectionAfter(old(selectedFile), f.value) &&
          toasts == old(toasts) + SelectionToasts(f.value)
        else selectedFile == old(selectedFile) && toasts == old(toasts)
    {
      var forwarded := uploadArea.HandleDrop(files, isProcessing);
      if forwarded.Some? {
        HandleFileSelect(forwarded.value);
      }
    }

    /** A click on the clear button (rendered only while a file is selected):
        clears the selection and does not open the picker. */
    method ClickClearButton() returns (opensPicker: bool)
      requires Area.ShowsClearButton(selectedFile)
      modifies this`selectedFile, this`toasts
      ensures selectedFile == None && toasts == old(toasts) + [ClearedToast]
      ensures !opensPicker
    {
      var clears;
      clears, opensPicker := uploadArea.HandleClearButtonClick(selectedFile);
      if clears {
        HandleFileClear();
      }
    }
  }
}
