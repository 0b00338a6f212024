/**
  The conversion server as the client sees it: starting a conversion
  registers a process record and hands it to `MessageHab.StartProcess`, and
  the record is later
  completed with the path of the produced pdf.

  The file store returns the html path it is given, so the stored path is
  the input path. The Guid a new process gets is a parameter, and so is the
  outcome of `MessageHab.StartProcess` (`announce`: None when it returns,
  the exception when it throws), which opens a broker connection and channel
  and publishes nothing.
 */
module ConverterServer {
  import opened Wrappers
  import opened Errors
  import opened ProcessStorage

  datatype Server = Server(storage: Storage)

  function Create(): (s: Server)
    ensures Keyed(s.storage)
    ensures forall id :: IsConvertFinished(s, id) == Err(ProcessNotFound(id))
  {
    Server(Empty())
  }

  /** `string.IsNullOrEmpty`. */
  predicate IsNullOrEmpty(p: Option<string>)
  {
    p.None? || p.value == ""
  }

  /**
    `prepareProcess`: save a record for the fresh id holding the html path,
    with no pdf and neither flag set; the id is returned with it.
   */
  function PrepareProcess(s: Server, htmlFilePath: string, freshId: string): (r: (Server, ProcessItem))
    ensures r.1 == ProcessItem(Some(freshId), htmlFilePath, None, false, false)
    ensures Keyed(s.storage) ==> Keyed(r.0.storage)
    ensures GetProcessById(r.0.storage, freshId) == Ok(r.1)
    ensures forall id :: id != freshId ==> GetProcessById(r.0.storage, id) == GetProcessById(s.storage, id)
  {
    var item := ProcessItem(Some(freshId), htmlFilePath, None, false, false);
    var saved := SaveProcess(s.storage, item);
    (Server(saved.value), item)
  }

  /**
    `runProcess`, run to completion: call `MessageHab.StartProcess`, then
    mark the record as sent and save it again. The saved item is the very
    object the store holds, so the marking is applied to the stored record.
    If `StartProcess` throws, the task faults before marking and nothing
    changes.
   */
  function RunProcess(s: Server, processId: string, announce: Option<Fault>): (s': Server)
    requires Keyed(s.storage) && processId in s.storage.items
    ensures Keyed(s'.storage)
    ensures announce.Some? ==> s' == s
    ensures announce.None? ==> GetProcessById(s'.storage, processId) == Ok(s.storage.items[processId].(convertStartSended := true))
    ensures forall id :: id != processId ==> GetProcessById(s'.storage, id) == GetProcessById(s.storage, id)
  {
    if announce.Some? then s
    else
      var item := s.storage.items[processId].(convertStartSended := true);
      Server(SaveProcess(s.storage, item).value)
  }

  /**
    `StartConvert`: prepare the process, run it, and return its id. The new
    record holds the html path, has no pdf yet, and is marked as sent exactly
    when `StartProcess` returned without throwing.
   */
  function StartConvert(s: Server, htmlFilePath: string, freshId: string, announce: Option<Fault>): (r: (Server, string))
    requires Keyed(s.storage)
    ensures Keyed(r.0.storage)
    ensures r.1 == freshId
    ensures GetProcessById(r.0.storage, r.1) == Ok(ProcessItem(Some(freshId), htmlFilePath, None, announce.None?, false))
    ensures IsConvertFinished(r.0, r.1) == Ok(false)
    ensures GetPdfByProcessId(r.0, r.1) == Err(ProcessNotFinished(freshId))
    ensures forall id :: id != freshId ==> GetProcessById(r.0.storage, id) == GetProcessById(s.storage, id)
  {
    var (prepared, item) := PrepareProcess(s, htmlFilePath, freshId);
    (RunProcess(prepared, freshId, announce), freshId)
  }

  /**
    `IsConvertFinished`: whether the process has a pdf; ProcessNotFoundException
    for an unknown id.
   */
  function IsConvertFinished(s: Server, processId: string): (r: Result<bool, Fault>)
    ensures r.Err? <==> processId !in s.storage.items
    ensures r.Err? ==> r.error == ProcessNotFound(processId)
    ensures r.Ok? ==> (r.value <==> !IsNullOrEmpty(s.storage.items[processId].pdfFilePath))
  {
    match GetProcessById(s.storage, processId)
    case Err(e) => Err(e)
    case Ok(item) => Ok(!IsNullOrEmpty(item.pdfFilePath))
  }

  /**
    `GetPdfByProcessId`: the pdf path of a finished process;
    ProcessNotFoundException for an unknown id and ProcessNotFinishedException
    while there is no pdf.
   */
  function GetPdfByProcessId(s: Server, processId: string): (r: Result<string, Fault>)
    ensures processId !in s.storage.items ==> r == Err(ProcessNotFound(processId))
    ensures processId in s.storage.items && IsNullOrEmpty(s.storage.items[processId].pdfFilePath) ==>
      r == Err(ProcessNotFinished(processId))
    ensures r.Ok? ==> Some(r.value) == s.storage.items[processId].pdfFilePath && r.value != ""
  {
    match GetProcessById(s.storage, processId)
    case Err(e) => Err(e)
    case Ok(item) =>
      if IsNullOrEmpty(item.pdfFilePath) then Err(ProcessNotFinished(processId)) else Ok(item.pdfFilePath.value)
  }

  /**
    `OnProcessFinished`: record the pdf path on a known process and mark the
    result as received; an unknown id is ignored.
   */
  function OnProcessFinished(s: Server, processId: string, pathToPdf: Option<string>): (s': Server)
    requires Keyed(s.storage)
    ensures Keyed(s'.storage)
    ensures processId !in s.storage.items ==> s' == s
    ensures processId in s.storage.items ==>
      && processId in s'.storage.items
      && s'.storage.items[processId] == s.storage.items[processId].(pdfFilePath := pathToPdf, convertFinishRecived := true)
    ensures forall id :: id != processId ==> GetProcessById(s'.storage, id) == GetProcessById(s.storage, id)
  {
    match GetProcessById(s.storage, processId)
    case Err(_) => s
    case Ok(item) =>
      var finished := item.(pdfFilePath := pathToPdf, convertFinishRecived := true);
      Server(SaveProcess(s.storage, finished).value)
  }

  /** A pdf can be fetched exactly when the process reports itself finished. */
  lemma PdfAvailableIffFinished(s: Server, processId: string)
    ensures GetPdfByProcessId(s, processId).Ok? <==> IsConvertFinished(s, processId) == Ok(true)
    ensures GetPdfByProcessId(s, processId).Err? && processId in s.storage.items ==>
      GetPdfByProcessId(s, processId) == Err(ProcessNotFinished(processId))
  {
  }

  /**
    Once a known process is told its non-empty pdf path, it is finished and
    fetching its pdf returns that path.
   */
  lemma FinishedProcessYieldsPdf(s: Server, processId: string, pathToPdf: string)
    requires Keyed(s.storage)
    requires processId in s.storage.items && pathToPdf != ""
    ensures IsConvertFinished(OnProcessFinished(s, processId, Some(pathToPdf)), processId) == Ok(true)
    ensures GetPdfByProcessId(OnProcessFinished(s, processId, Some(pathToPdf)), processId) == Ok(pathToPdf)
  {
  }

  /**
    The whole life of one conversion: started, then finished with a pdf,
    then fetched. The fetch returns the pdf and the record still holds the
    original html path.
   */
  lemma StartFinishFetch(s: Server, htmlFilePath: string, freshId: string, announce: Option<Fault>, pathToPdf: string)
    requires Keyed(s.storage)
    requires pathToPdf != ""
    ensures
      var (started, id) := StartConvert(s, htmlFilePath, freshId, announce);
      var finished := OnProcessFinished(started, id, Some(pathToPdf));
      && GetPdfByProcessId(finished, id) == Ok(pathToPdf)
      && GetProcessById(finished.storage, id).Ok?
      && GetProcessById(finished.storage, id).value.htmlFilePath == htmlFilePath
      && GetProcessById(finished.storage, id).value.convertFinishRecived
  {
    var (started, id) := StartConvert(s, htmlFilePath, freshId, announce);
    FinishedProcessYieldsPdf(started, id, pathToPdf);
  }
}
