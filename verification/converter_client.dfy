/**
  The console client's bookkeeping: the map of processes it has submitted
  and not yet seen finish, the per-process poll that fetches the pdf once
  the server reports it finished, and disposal, which cancels every poll.

  The client calls the server in-process, so the server is part of the
  client's state. Console output and the token-source calls are recorded as
  an appended trace of effects; the delay between polls is not modelled.
 */
module ConverterClient {
  import opened Wrappers
  import opened Errors
  import opened ProcessStorage
  import opened ConverterServer

  datatype ClientEffect =
    | ShowFinished(processId: string, pdfFilePath: string)
    | Cancel
    | DisposeTokenSource

  datatype Client = Client(
    server: Server,
    active: map<string, string>,
    cancelled: bool,
    disposed: bool,
    effects: seq<ClientEffect>)

  /** What every client reachable from `Create` satisfies. */
  predicate Valid(c: Client)
  {
    Keyed(c.server.storage) && (c.disposed ==> c.cancelled)
  }

  function Create(): (c: Client)
    ensures Valid(c)
    ensures c.active == map[] && !c.cancelled && c.effects == []
  {
    Client(ConverterServer.Create(), map[], false, false, [])
  }

  /**
    `AddConvertFile`: start a conversion on the server and record the id it
    returns against the html path, then launch the poll (`PollStep`). The
    poll needs the token of the token source, which throws
    ObjectDisposedException once the client is disposed; by then the server
    has started the process and the id is recorded, so the returned client
    keeps both and no poll is launched.
   */
  function AddConvertFile(c: Client, htmlFilePath: string, freshId: string, announce: Option<Fault>): (r: (Client, Option<Fault>))
    requires Valid(c)
    ensures Valid(r.0)
    ensures r.1.Some? <==> c.disposed
    ensures r.1.Some? ==> r.1 == Some(ObjectDisposed)
    ensures freshId in r.0.active && r.0.active[freshId] == htmlFilePath
    ensures r.0.active.Keys == c.active.Keys + {freshId}
    ensures forall id :: id in c.active && id != freshId ==> r.0.active[id] == c.active[id]
    ensures IsConvertFinished(r.0.server, freshId) == Ok(false)
    // the server call of line 32: the new record is stored, and no other record changes
    ensures GetProcessById(r.0.server.storage, freshId) == Ok(ProcessItem(Some(freshId), htmlFilePath, None, announce.None?, false))
    ensures forall id :: id != freshId ==> GetProcessById(r.0.server.storage, id) == GetProcessById(c.server.storage, id)
    ensures r.0.cancelled == c.cancelled && r.0.disposed == c.disposed && r.0.effects == c.effects
  {
    var (server, processId) := StartConvert(c.server, htmlFilePath, freshId, announce);
    var c' := c.(server := server, active := c.active[processId := htmlFilePath]);
    (c', if c.disposed then Some(ObjectDisposed) else None)
  }

  /**
    `OnConvertFinished`: for an active process, fetch its pdf, show it, and
    forget the process. An id that is not active is ignored. If the fetch
    throws, the exception escapes before anything changes, so the process
    stays active.
   */
  function OnConvertFinished(c: Client, processId: string): (r: Result<Client, Fault>)
    ensures processId !in c.active ==> r == Ok(c)
    ensures processId in c.active ==> (r.Ok? <==> GetPdfByProcessId(c.server, processId).Ok?)
    ensures processId in c.active && r.Err? ==> r.error == GetPdfByProcessId(c.server, processId).error
    ensures processId in c.active && r.Ok? ==>
      && r.value.active.Keys == c.active.Keys - {processId}
      && (forall id :: id in r.value.active ==> r.value.active[id] == c.active[id])
      && r.value.effects == c.effects + [ShowFinished(processId, GetPdfByProcessId(c.server, processId).value)]
      && r.value.server == c.server && r.value.cancelled == c.cancelled && r.value.disposed == c.disposed
  {
    if processId !in c.active then Ok(c)
    else
      match GetPdfByProcessId(c.server, processId)
      case Err(e) => Err(e)
      case Ok(pdfFilePath) =>
        Ok(c.(active := c.active - {processId}, effects := c.effects + [ShowFinished(processId, pdfFilePath)]))
  }

  /** What one turn of the poll loop does. */
  datatype PollOutcome =
    | Cancelled                  // the token was cancelled: the loop ends
    | Wait                       // not finished yet: delay and poll again
    | Completed(client: Client)  // finished: the result was handled and the loop ends
    | Failed(fault: Fault)       // an exception ended the poll task

  /**
    One turn of `CheckIfConvertFinished`: stop if cancelled; otherwise ask
    the server, and hand a finished process to `OnConvertFinished`.
   */
  function PollStep(c: Client, processId: string): (r: PollOutcome)
    ensures c.cancelled <==> r.Cancelled?
    ensures r.Wait? <==> !c.cancelled && IsConvertFinished(c.server, processId) == Ok(false)
    ensures r.Failed? ==> processId !in c.server.storage.items && r.fault == ProcessNotFound(processId)
    ensures !c.cancelled && processId !in c.server.storage.items ==> r == Failed(ProcessNotFound(processId))
    ensures r.Completed? ==> OnConvertFinished(c, processId) == Ok(r.client)
    ensures r.Completed? ==> processId !in r.client.active
  {
    if c.cancelled then Cancelled
    else
      match IsConvertFinished(c.server, processId)
      case Err(e) => Failed(e)
      case Ok(finished) =>
        if !finished then Wait
        else
          PdfAvailableIffFinished(c.server, processId);
          Completed(OnConvertFinished(c, processId).value)
  }

  /**
    The poll the client launched for a process it submitted ends with that
    process no longer active once the server has its non-empty pdf path, and
    the pdf shown is that path.
   */
  lemma FinishThenPollCompletes(c: Client, processId: string, pathToPdf: string)
    requires Valid(c) && !c.cancelled
    requires processId in c.active && processId in c.server.storage.items && pathToPdf != ""
    ensures
      var told := c.(server := OnProcessFinished(c.server, processId, Some(pathToPdf)));
      && PollStep(told, processId).Completed?
      && PollStep(told, processId).client.active.Keys == c.active.Keys - {processId}
      && PollStep(told, processId).client.effects == c.effects + [ShowFinished(processId, pathToPdf)]
  {
    FinishedProcessYieldsPdf(c.server, processId, pathToPdf);
  }

  /** A submitted process is polled, and keeps being polled, until the server finishes it. */
  lemma SubmittedProcessWaits(c: Client, htmlFilePath: string, freshId: string, announce: Option<Fault>)
    requires Valid(c) && !c.cancelled
    ensures AddConvertFile(c, htmlFilePath, freshId, announce).1 == None
    ensures PollStep(AddConvertFile(c, htmlFilePath, freshId, announce).0, freshId) == Wait
  {
  }

  /**
    Adding a file to a disposed client fails with ObjectDisposed, yet the
    server has started the process and the client records it as active; no
    poll will ever report it.
   */
  lemma AddAfterDisposeStrandsProcess(c: Client, htmlFilePath: string, freshId: string, announce: Option<Fault>, processId: string)
    requires Valid(c) && c.disposed
    ensures var r := AddConvertFile(c, htmlFilePath, freshId, announce);
      && r.1 == Some(ObjectDisposed)
      && freshId in r.0.active
      && freshId in r.0.server.storage.items
      && PollStep(r.0, processId) == Cancelled
  {
  }

  /**
    `Dispose`: the first call cancels the token source and disposes it;
    later calls do nothing.
   */
  function Dispose(c: Client): (c': Client)
    ensures c.disposed ==> c' == c
    ensures !c.disposed ==> c'.effects == c.effects + [Cancel, DisposeTokenSource]
    ensures c'.disposed && (Valid(c) ==> Valid(c'))
    ensures c'.server == c.server && c'.active == c.active
  {
    if c.disposed then c
    else c.(cancelled := true, disposed := true, effects := c.effects + [Cancel, DisposeTokenSource])
  }

  /**
    A second `Dispose` changes nothing, so the token source is cancelled and
    disposed once, by the first call.
   */
  lemma DisposeIsIdempotent(c: Client)
    ensures Dispose(Dispose(c)) == Dispose(c)
    ensures !c.disposed ==> Dispose(Dispose(c)).effects == c.effects + [Cancel, DisposeTokenSource]
  {
  }

  /** Once the client is disposed every poll stops at its next turn. */
  lemma DisposeStopsPolling(c: Client, processId: string)
    requires Valid(c)
    ensures PollStep(Dispose(c), processId) == Cancelled
  {
  }
}
