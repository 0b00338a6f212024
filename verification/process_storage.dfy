/**
  The conversion server's process store: a dictionary from process id to
  the process record. Saving upserts under the record's own id and refuses
  a record without one; lookup of an unknown id fails with
  ProcessNotFoundException.
 */
module ProcessStorage {
  import opened Wrappers
  import opened Errors

  /**
    A process record. The paths are nullable strings in the original, hence
    `Option`; the two timestamps are not modelled.
   */
  datatype ProcessItem = ProcessItem(
    processId: Option<string>,
    htmlFilePath: string,
    pdfFilePath: Option<string>,
    convertStartSended: bool,
    convertFinishRecived: bool)

  datatype Storage = Storage(items: map<string, ProcessItem>)

  /** Every record sits under its own id, as `SaveProcess` always puts it. */
  predicate Keyed(s: Storage)
  {
    forall id :: id in s.items ==> s.items[id].processId == Some(id)
  }

  function Empty(): (s: Storage)
    ensures Keyed(s)
    ensures forall id :: GetProcessById(s, id) == Err(ProcessNotFound(id))
  {
    Storage(map[])
  }

  /**
    `SaveProcess`: store the record under its own id, replacing whatever was
    stored there; a record with no id is refused with ArgumentException and
    nothing is stored.
   */
  function SaveProcess(s: Storage, item: ProcessItem): (r: Result<Storage, Fault>)
    ensures r.Err? <==> item.processId.None?
    ensures r.Err? ==> r.error == MissingProcessId
    ensures r.Ok? && Keyed(s) ==> Keyed(r.value)
    ensures r.Ok? ==> r.value.items.Keys == s.items.Keys + {item.processId.value}
    ensures r.Ok? ==> GetProcessById(r.value, item.processId.value) == Ok(item)
    ensures r.Ok? ==> forall id :: id != item.processId.value ==> GetProcessById(r.value, id) == GetProcessById(s, id)
  {
    match item.processId
    case None => Err(MissingProcessId)
    case Some(id) => Ok(Storage(s.items[id := item]))
  }

  /**
    `GetProcessById`: the record stored under `processId`, or
    ProcessNotFoundException naming the id. Being a function of the store, it
    leaves the store as it was.
   */
  function GetProcessById(s: Storage, processId: string): (r: Result<ProcessItem, Fault>)
    ensures r.Ok? <==> processId in s.items
    ensures r.Err? ==> r.error == ProcessNotFound(processId)
    ensures r.Ok? ==> r.value == s.items[processId]
  {
    if processId in s.items then Ok(s.items[processId]) else Err(ProcessNotFound(processId))
  }

  /** A record that went in comes back out under its id. */
  lemma GetAfterSave(s: Storage, item: ProcessItem, id: string)
    requires item.processId == Some(id)
    ensures SaveProcess(s, item).Ok?
    ensures GetProcessById(SaveProcess(s, item).value, id) == Ok(item)
  {
  }

  /** Saving twice under the same id keeps only the second record. */
  lemma SaveOverwrites(s: Storage, first: ProcessItem, second: ProcessItem)
    requires first.processId.Some? && second.processId == first.processId
    ensures SaveProcess(s, first).Ok?
    ensures SaveProcess(SaveProcess(s, first).value, second) == SaveProcess(s, second)
  {
    var id := first.processId.value;
    assert s.items[id := first][id := second] == s.items[id := second];
  }

  /** Saves under distinct ids commute: neither disturbs the other's record. */
  lemma SavesUnderDistinctIdsCommute(s: Storage, a: ProcessItem, b: ProcessItem)
    requires a.processId.Some? && b.processId.Some? && a.processId != b.processId
    ensures SaveProcess(s, a).Ok? && SaveProcess(s, b).Ok?
    ensures SaveProcess(SaveProcess(s, a).value, b) == SaveProcess(SaveProcess(s, b).value, a)
  {
    var x, y := a.processId.value, b.processId.value;
    assert s.items[x := a][y := b] == s.items[y := b][x := a];
  }
}
