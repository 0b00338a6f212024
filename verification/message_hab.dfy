/**
  The publisher-confirm tracker of the conversion server: a FIFO send queue,
  the outstanding confirms keyed by publish sequence number, and one pending
  task per process id, completed when the broker acks that process's message.

  The broker channel is not modelled: `nextPublishSeqNo` stands for
  `IModel.NextPublishSeqNo`, which each publish advances by one, and each
  publish is appended to `published`. Tasks are named by numbers handed out
  from `nextTask`.
 */
module MessageHab {
  import opened Wrappers
  import opened Errors

  const ExchangeName: string := "ExchangeName"
  const ProcessStartQueue: string := "ProcessStart"

  /** `SendMessage`: the process id and the html path. */
  datatype SendMessage = SendMessage(guid: string, path: string)

  /** A `TaskCompletionSource<bool>`'s task. */
  datatype TaskState = Pending | Succeeded | Faulted(fault: Fault)

  /** One `BasicPublish`: the sequence number it took, where it went, and its body (`ToBody` is always empty). */
  datatype Publish = Publish(seqNo: nat, exchange: string, routingKey: string, body: seq<bv8>)

  datatype Hab = Hab(
    queue: seq<SendMessage>,
    outstanding: map<nat, SendMessage>,
    callbacks: map<string, nat>,
    tasks: map<nat, TaskState>,
    nextPublishSeqNo: nat,
    nextTask: nat,
    published: seq<Publish>)

  /** A hub just constructed: confirms selected, so the first publish gets sequence number 1. */
  function Initial(): (h: Hab)
    ensures Valid(h)
  {
    Hab([], map[], map[], map[], 1, 0, [])
  }

  /**
    What every reachable hub satisfies: outstanding numbers are already
    used, each registered callback is a distinct pending task, and task names
    are below the next one.
   */
  predicate Valid(h: Hab)
  {
    && (forall k :: k in h.outstanding ==> k < h.nextPublishSeqNo)
    && (forall p :: p in h.callbacks ==> h.callbacks[p] in h.tasks && h.tasks[h.callbacks[p]] == Pending)
    && (forall p, q :: p in h.callbacks && q in h.callbacks && p != q ==> h.callbacks[p] != h.callbacks[q])
    && (forall t :: t in h.tasks ==> t < h.nextTask)
  }

  /**
    `StartProcessAsync`: enqueue the message, then register a fresh pending
    task for the process id; a task already registered for that id is
    faulted with ProcessResendedException and replaced.
   */
  function StartProcessAsync(h: Hab, htmlFilePath: string, processId: string): (r: (Hab, nat))
    ensures var (h', t) := r;
      && h'.queue == h.queue + [SendMessage(processId, htmlFilePath)]
      && (Valid(h) ==> t !in h.tasks)
      && h'.callbacks == h.callbacks[processId := t]
      && t in h'.tasks && h'.tasks[t] == Pending
      && (processId in h.callbacks && h.callbacks[processId] != t ==>
            h.callbacks[processId] in h'.tasks && h'.tasks[h.callbacks[processId]] == Faulted(ProcessResended))
      && (forall u :: u in h.tasks && u != t && (processId !in h.callbacks || u != h.callbacks[processId]) ==>
            u in h'.tasks && h'.tasks[u] == h.tasks[u])
      && h'.outstanding == h.outstanding && h'.published == h.published
      && h'.nextPublishSeqNo == h.nextPublishSeqNo
    ensures Valid(h) ==> Valid(r.0)
  {
    var t := h.nextTask;
    var tasks :=
      if processId in h.callbacks then h.tasks[h.callbacks[processId] := Faulted(ProcessResended)] else h.tasks;
    var h' := h.(
      queue := h.queue + [SendMessage(processId, htmlFilePath)],
      callbacks := h.callbacks[processId := t],
      tasks := tasks[t := Pending],
      nextTask := t + 1);
    (h', t)
  }

  /**
    One iteration of the inner loop of `SendMessages`: take the head of the
    queue, record it under the channel's next sequence number unless that
    number is already taken (`TryAdd`), then publish.
   */
  function SendNext(h: Hab): (h': Hab)
    requires h.queue != []
    ensures h'.queue == h.queue[1..] && h'.nextPublishSeqNo == h.nextPublishSeqNo + 1
    ensures h'.callbacks == h.callbacks && h'.tasks == h.tasks && h'.nextTask == h.nextTask
    ensures h'.published == h.published + [Publish(h.nextPublishSeqNo, ExchangeName, ProcessStartQueue, [])]
    ensures forall k :: k in h.outstanding ==> k in h'.outstanding && h'.outstanding[k] == h.outstanding[k]
    ensures forall k :: k in h'.outstanding ==> k in h.outstanding || k == h.nextPublishSeqNo
    ensures h.nextPublishSeqNo !in h.outstanding ==>
      h.nextPublishSeqNo in h'.outstanding && h'.outstanding[h.nextPublishSeqNo] == h.queue[0]
  {
    var n := h.nextPublishSeqNo;
    h.(
      queue := h.queue[1..],
      outstanding := if n in h.outstanding then h.outstanding else h.outstanding[n := h.queue[0]],
      nextPublishSeqNo := n + 1,
      published := h.published + [Publish(n, ExchangeName, ProcessStartQueue, [])])
  }

  /** The publishes of `count` messages numbered from `from`. */
  function Publishes(from: nat, count: nat): seq<Publish>
    decreases count
  {
    if count == 0 then [] else [Publish(from, ExchangeName, ProcessStartQueue, [])] + Publishes(from + 1, count - 1)
  }

  /**
    `SendMessages`, one pass of the reader loop: drain the queue in FIFO
    order. The i-th queued message is published with sequence number
    `nextPublishSeqNo + i` and, when that number was free, recorded under it;
    entries already outstanding are never overwritten.
   */
  function SendMessages(h: Hab): (h': Hab)
    decreases |h.queue|
    ensures h'.queue == []
    ensures h'.nextPublishSeqNo == h.nextPublishSeqNo + |h.queue|
    ensures h'.callbacks == h.callbacks && h'.tasks == h.tasks && h'.nextTask == h.nextTask
    ensures h'.published == h.published + Publishes(h.nextPublishSeqNo, |h.queue|)
    ensures forall k :: k in h.outstanding ==> k in h'.outstanding && h'.outstanding[k] == h.outstanding[k]
    ensures forall k :: k in h'.outstanding ==> k in h.outstanding || h.nextPublishSeqNo <= k < h'.nextPublishSeqNo
  {
    if h.queue == [] then h
    else
      var h1 := SendNext(h);
      PublishesAfterSendNext(h, |h.queue|);
      SendMessages(h1)
  }

  /**
    Each drained message whose number was free is recorded under its number:
    the head under the current one, the rest, by induction, under the
    following ones.
   */
  lemma {:induction false} SendMessagesRecords(h: Hab)
    decreases |h.queue|
    ensures var h' := SendMessages(h);
      forall k :: h.nextPublishSeqNo <= k < h'.nextPublishSeqNo && k !in h.outstanding ==>
        k in h'.outstanding && h'.outstanding[k] == h.queue[k - h.nextPublishSeqNo]
  {
    if h.queue != [] {
      SendMessagesRecords(SendNext(h));
      SendNextThenRest(h, SendMessages(SendNext(h)));
    }
  }

  /** The inductive step of `SendMessagesRecords`, for any `r` the rest of the queue is drained into. */
  lemma SendNextThenRest(h: Hab, r: Hab)
    requires h.queue != []
    requires var h1 := SendNext(h);
      && r.nextPublishSeqNo == h1.nextPublishSeqNo + |h1.queue|
      && (forall k :: k in h1.outstanding ==> k in r.outstanding && r.outstanding[k] == h1.outstanding[k])
      && (forall k :: h1.nextPublishSeqNo <= k < r.nextPublishSeqNo && k !in h1.outstanding ==>
            k in r.outstanding && r.outstanding[k] == h1.queue[k - h1.nextPublishSeqNo])
    ensures forall k :: h.nextPublishSeqNo <= k < r.nextPublishSeqNo && k !in h.outstanding ==>
      k in r.outstanding && r.outstanding[k] == h.queue[k - h.nextPublishSeqNo]
  {
    var h1 := SendNext(h);
    forall k | h.nextPublishSeqNo <= k < r.nextPublishSeqNo && k !in h.outstanding
      ensures k in r.outstanding && r.outstanding[k] == h.queue[k - h.nextPublishSeqNo]
    {
      if k > h.nextPublishSeqNo {
        assert h1.nextPublishSeqNo <= k < r.nextPublishSeqNo && k !in h1.outstanding;
        assert h1.queue[k - h1.nextPublishSeqNo] == h.queue[k - h.nextPublishSeqNo];
      } else {
        assert k in h1.outstanding && h1.outstanding[k] == h.queue[0];
      }
    }
  }

  /** Draining the queue keeps the hub valid. */
  lemma SendMessagesValid(h: Hab)
    requires Valid(h)
    ensures Valid(SendMessages(h))
  {
  }

  /** In a valid hub every drained message is recorded, in FIFO order under consecutive numbers. */
  lemma SendMessagesRecordsAll(h: Hab)
    requires Valid(h)
    ensures forall i :: 0 <= i < |h.queue| ==>
      h.nextPublishSeqNo + i in SendMessages(h).outstanding && SendMessages(h).outstanding[h.nextPublishSeqNo + i] == h.queue[i]
  {
    var h' := SendMessages(h);
    SendMessagesRecords(h);
    forall i | 0 <= i < |h.queue|
      ensures h.nextPublishSeqNo + i in h'.outstanding && h'.outstanding[h.nextPublishSeqNo + i] == h.queue[i]
    {
      var k := h.nextPublishSeqNo + i;
      assert k !in h.outstanding;
      assert k - h.nextPublishSeqNo == i;
    }
  }

  /**
    The message `BasicPublish` throws on: read off the queue and recorded
    under the channel's next sequence number unless taken (`TryAdd`), but not
    published.
   */
  function Strand(h: Hab): Hab
    requires h.queue != []
  {
    var n := h.nextPublishSeqNo;
    h.(queue := h.queue[1..],
       outstanding := if n in h.outstanding then h.outstanding else h.outstanding[n := h.queue[0]])
  }

  /**
    The inner loop of `SendMessages` when the `j`-th `BasicPublish` of the
    pass throws `faults(j)`: messages before it go out as in `SendNext`; the
    one it throws on is stranded (`Strand`), and the exception ends the loop
    with the rest of the queue unsent. `j` counts the publishes of the pass
    so far.
   */
  function SendMessagesOrThrow(h: Hab, faults: nat -> Option<Fault>, j: nat): (r: (Hab, Option<Fault>))
    decreases |h.queue|
    ensures r.0.callbacks == h.callbacks && r.0.tasks == h.tasks && r.0.nextTask == h.nextTask
  {
    if h.queue == [] then (h, None)
    else if faults(j).Some? then (Strand(h), faults(j))
    else SendMessagesOrThrow(SendNext(h), faults, j + 1)
  }

  /** A publish that goes through hands the rest of the pass to the next message. */
  lemma SendMessagesOrThrowStep(h: Hab, faults: nat -> Option<Fault>, j: nat)
    requires h.queue != [] && faults(j).None?
    ensures SendMessagesOrThrow(h, faults, j) == SendMessagesOrThrow(SendNext(h), faults, j + 1)
  {
  }

  /** A pass that throws still never overwrites an outstanding entry. */
  lemma {:induction false} SendMessagesOrThrowKeeps(h: Hab, faults: nat -> Option<Fault>, j: nat)
    decreases |h.queue|
    ensures var h' := SendMessagesOrThrow(h, faults, j).0;
      forall k :: k in h.outstanding ==> k in h'.outstanding && h'.outstanding[k] == h.outstanding[k]
  {
    if h.queue != [] && faults(j).None? {
      SendMessagesOrThrowKeeps(SendNext(h), faults, j + 1);
    }
  }

  /** With no `BasicPublish` throwing, the pass is `SendMessages`; and a pass that ends without an exception had none thrown. */
  lemma {:induction false} SendMessagesOrThrowAgrees(h: Hab, faults: nat -> Option<Fault>, j: nat)
    decreases |h.queue|
    ensures (forall i :: j <= i < j + |h.queue| ==> faults(i).None?) <==> SendMessagesOrThrow(h, faults, j).1.None?
    ensures SendMessagesOrThrow(h, faults, j).1.None? ==> SendMessagesOrThrow(h, faults, j).0 == SendMessages(h)
  {
    if h.queue != [] && faults(j).None? {
      SendMessagesOrThrowStep(h, faults, j);
      assert SendMessages(h) == SendMessages(SendNext(h));
      SendMessagesOrThrowAgrees(SendNext(h), faults, j + 1);
    }
  }

  /**
    When the `i`-th publish of the pass throws, the messages before it are
    published under consecutive numbers, the `i`-th is recorded under the
    next number (when free) with no publish ever carrying that number, and
    the messages after it stay queued.
   */
  lemma {:induction false} SendMessagesThrowStrands(h: Hab, faults: nat -> Option<Fault>, i: nat)
    requires i < |h.queue| && faults(i).Some?
    requires forall k :: 0 <= k < i ==> faults(k).None?
    requires forall p :: p in h.published ==> p.seqNo < h.nextPublishSeqNo
    ensures var (h', f) := SendMessagesOrThrow(h, faults, 0);
      var n := h.nextPublishSeqNo + i;
      && f == faults(i)
      && h'.published == h.published + Publishes(h.nextPublishSeqNo, i)
      && h'.queue == h.queue[i + 1..]
      && (n !in h.outstanding ==> n in h'.outstanding && h'.outstanding[n] == h.queue[i])
      && (forall p :: p in h'.published ==> p.seqNo != n)
  {
    SendMessagesThrowFrom(h, faults, 0, i);
    SendMessagesThrowPublishes(h, faults, 0, i);
    SendMessagesThrowRecords(h, faults, 0, i);
    PublishesNumbers(h.nextPublishSeqNo, i);
  }

  /** What the pass returns and leaves queued, from publish `j` of the pass on. */
  lemma {:induction false} SendMessagesThrowFrom(h: Hab, faults: nat -> Option<Fault>, j: nat, i: nat)
    requires j <= i < j + |h.queue| && faults(i).Some?
    requires forall k :: j <= k < i ==> faults(k).None?
    decreases |h.queue|
    ensures var r := SendMessagesOrThrow(h, faults, j);
      r.1 == faults(i) && r.0.queue == h.queue[i - j + 1..]
  {
    if i > j {
      var h1 := SendNext(h);
      SendMessagesOrThrowStep(h, faults, j);
      SendMessagesThrowFrom(h1, faults, j + 1, i);
      assert h1.queue[i - (j + 1) + 1..] == h.queue[i - j + 1..];
    }
  }

  /** What the pass publishes before the throw, from publish `j` of the pass on. */
  lemma {:induction false} SendMessagesThrowPublishes(h: Hab, faults: nat -> Option<Fault>, j: nat, i: nat)
    requires j <= i < j + |h.queue| && faults(i).Some?
    requires forall k :: j <= k < i ==> faults(k).None?
    decreases |h.queue|
    ensures SendMessagesOrThrow(h, faults, j).0.published == h.published + Publishes(h.nextPublishSeqNo, i - j)
  {
    if i > j {
      var h1 := SendNext(h);
      SendMessagesOrThrowStep(h, faults, j);
      SendMessagesThrowPublishes(h1, faults, j + 1, i);
      PublishesAfterSendNext(h, i - j);
    } else {
      assert Publishes(h.nextPublishSeqNo, 0) == [];
    }
  }

  /** Publishing `count` messages is sending the first, then publishing the rest. */
  lemma PublishesAfterSendNext(h: Hab, count: nat)
    requires h.queue != [] && count >= 1
    ensures h.published + Publishes(h.nextPublishSeqNo, count)
      == SendNext(h).published + Publishes(SendNext(h).nextPublishSeqNo, count - 1)
  {
    assert Publishes(h.nextPublishSeqNo, count)
      == [Publish(h.nextPublishSeqNo, ExchangeName, ProcessStartQueue, [])] + Publishes(h.nextPublishSeqNo + 1, count - 1);
  }

  /** After one send, the `m`-th queued message is the `(m-1)`-th, still due the same free number. */
  lemma SendNextShifts(h: Hab, m: nat)
    requires 1 <= m < |h.queue|
    ensures SendNext(h).queue[m - 1] == h.queue[m]
    ensures SendNext(h).nextPublishSeqNo + (m - 1) == h.nextPublishSeqNo + m
    ensures h.nextPublishSeqNo + m !in h.outstanding ==> h.nextPublishSeqNo + m !in SendNext(h).outstanding
  {
  }

  /** The message the pass throws on is recorded under the number it would have been published with, from publish `j` on. */
  lemma {:induction false} SendMessagesThrowRecords(h: Hab, faults: nat -> Option<Fault>, j: nat, i: nat)
    requires j <= i < j + |h.queue| && faults(i).Some?
    requires forall k :: j <= k < i ==> faults(k).None?
    decreases |h.queue|
    ensures var h' := SendMessagesOrThrow(h, faults, j).0;
      var n := h.nextPublishSeqNo + (i - j);
      n !in h.outstanding ==> n in h'.outstanding && h'.outstanding[n] == h.queue[i - j]
  {
    var n := h.nextPublishSeqNo + (i - j);
    if i > j {
      SendMessagesOrThrowStep(h, faults, j);
      SendNextShifts(h, i - j);
      SendMessagesThrowRecords(SendNext(h), faults, j + 1, i);
    } else {
      assert SendMessagesOrThrow(h, faults, j).0 == Strand(h);
    }
  }

  /** The publishes of `count` messages numbered from `from` carry exactly the numbers `from .. from + count - 1`. */
  lemma {:induction false} PublishesNumbers(from: nat, count: nat)
    decreases count
    ensures forall p :: p in Publishes(from, count) ==> from <= p.seqNo < from + count
  {
    if count > 0 {
      PublishesNumbers(from + 1, count - 1);
    }
  }

  /**
    `DoProcessAckNack` for one tag. A tag that is not outstanding changes
    nothing. Otherwise the entry is removed; if a callback is registered for
    its process it is removed too, and an ack completes the task with `true`
    while a nack puts the message back on the queue. With
    `keepCallbackOnNack` the nack leaves the callback registered instead
    (the corrected behaviour, see `DoProcessAckNackCorrected`).
   */
  function AckNackOne(h: Hab, tag: nat, ok: bool, keepCallbackOnNack: bool): (h': Hab)
  {
    if tag !in h.outstanding then h
    else
      var m := h.outstanding[tag];
      var h1 := h.(outstanding := h.outstanding - {tag});
      if m.guid !in h.callbacks then h1
      else if ok then
        h1.(callbacks := h.callbacks - {m.guid}, tasks := h.tasks[h.callbacks[m.guid] := Succeeded])
      else if keepCallbackOnNack then
        h1.(queue := h.queue + [m])
      else
        h1.(callbacks := h.callbacks - {m.guid}, queue := h.queue + [m])
  }

  /** `DoProcessAckNack`, as written. */
  function DoProcessAckNack(h: Hab, tag: nat, ok: bool): (h': Hab)
    // unknown tag: no change at all
    ensures tag !in h.outstanding ==> h' == h
    // a known tag: only that entry leaves the outstanding map
    ensures tag in h.outstanding ==> h'.outstanding == h.outstanding - {tag}
    ensures h'.published == h.published && h'.nextPublishSeqNo == h.nextPublishSeqNo && h'.nextTask == h.nextTask
    ensures tag in h.outstanding && h.outstanding[tag].guid in h.callbacks ==>
      var m := h.outstanding[tag];
      var t := h.callbacks[m.guid];
      && h'.callbacks == h.callbacks - {m.guid}
      && (ok ==> h'.tasks == h.tasks[t := Succeeded] && h'.queue == h.queue)
      && (!ok ==> h'.tasks == h.tasks && h'.queue == h.queue + [m])
    // no callback: the message is dropped, even on a nack
    ensures tag in h.outstanding && h.outstanding[tag].guid !in h.callbacks ==>
      h' == h.(outstanding := h.outstanding - {tag})
    ensures Valid(h) ==> Valid(h')
  {
    AckNackOne(h, tag, ok, false)
  }

  /** `ProcessAckNack` with `multiple`: every outstanding tag up to `tag`, in ascending order. */
  function AckNackUpTo(h: Hab, tag: nat, ok: bool, keepCallbackOnNack: bool): (h': Hab)
    decreases tag
  {
    var before := if tag == 0 then h else AckNackUpTo(h, tag - 1, ok, keepCallbackOnNack);
    AckNackOne(before, tag, ok, keepCallbackOnNack)
  }

  /** What a multiple ack/nack does to the outstanding map, and that it keeps the other fields' frame. */
  lemma {:induction false} AckNackUpToOutstanding(h: Hab, tag: nat, ok: bool, keep: bool)
    ensures var h' := AckNackUpTo(h, tag, ok, keep);
      && (forall k :: k in h'.outstanding <==> k in h.outstanding && k > tag)
      && (forall k :: k in h'.outstanding ==> h'.outstanding[k] == h.outstanding[k])
      && h'.published == h.published && h'.nextPublishSeqNo == h.nextPublishSeqNo && h'.nextTask == h.nextTask
      && (ok ==> h'.queue == h.queue)
      && h'.callbacks.Keys <= h.callbacks.Keys
    decreases tag
  {
    if tag > 0 {
      AckNackUpToOutstanding(h, tag - 1, ok, keep);
    }
  }

  /** The processes of the outstanding messages numbered below `n`. */
  function GuidsBelow(h: Hab, n: nat): set<string>
  {
    set k | k in h.outstanding && k < n :: h.outstanding[k].guid
  }

  /** The tasks of those processes that have a callback registered. */
  function AckedTasks(h: Hab, n: nat): set<nat>
  {
    set g | g in h.callbacks && g in GuidsBelow(h, n) :: h.callbacks[g]
  }

  /**
    The messages a multiple nack up to `tag` puts back on the queue, in
    ascending order: each outstanding message whose process has a callback,
    except that, unless the callback is kept on a nack, a process's callback
    is gone after its first nacked message, so only that one is resent.
   */
  function Resent(h: Hab, tag: nat, keepCallbackOnNack: bool): seq<SendMessage>
    decreases tag
  {
    var earlier := if tag == 0 then [] else Resent(h, tag - 1, keepCallbackOnNack);
    if tag in h.outstanding && h.outstanding[tag].guid in h.callbacks
       && (keepCallbackOnNack || h.outstanding[tag].guid !in GuidsBelow(h, tag))
    then earlier + [h.outstanding[tag]]
    else earlier
  }

  /** One more tag adds that tag's process, if it is outstanding. */
  lemma GuidsBelowNext(h: Hab, tag: nat)
    ensures GuidsBelow(h, tag + 1) == GuidsBelow(h, tag) + (if tag in h.outstanding then {h.outstanding[tag].guid} else {})
  {
    var extra := if tag in h.outstanding then {h.outstanding[tag].guid} else {};
    forall g | g in GuidsBelow(h, tag + 1)
      ensures g in GuidsBelow(h, tag) + extra
    {
      var k :| k in h.outstanding && k < tag + 1 && h.outstanding[k].guid == g;
      if k < tag {
        assert g in GuidsBelow(h, tag);
      }
    }
  }

  /** One more tag adds the task of that tag's process, if it is outstanding and has a callback. */
  lemma AckedTasksNext(h: Hab, tag: nat)
    ensures AckedTasks(h, tag + 1) == AckedTasks(h, tag)
      + (if tag in h.outstanding && h.outstanding[tag].guid in h.callbacks
         then {h.callbacks[h.outstanding[tag].guid]} else {})
  {
    GuidsBelowNext(h, tag);
  }

  /** What the hub reached after the tags below `tag` still shares with `h` at `tag`. */
  predicate SameAt(h: Hab, before: Hab, tag: nat)
  {
    (tag in before.outstanding <==> tag in h.outstanding)
    && (tag in h.outstanding ==> before.outstanding[tag] == h.outstanding[tag])
  }

  /** The callbacks after the tags below `tag`, against `h`. */
  function CallbacksAfter(h: Hab, tag: nat, ok: bool, keep: bool): map<string, nat>
  {
    if !ok && keep then h.callbacks else h.callbacks - GuidsBelow(h, tag)
  }

  /** The tasks after the tags below `tag`, against `h`. */
  function TasksAfter(h: Hab, tag: nat, ok: bool): map<nat, TaskState>
  {
    map t | t in h.tasks :: if ok && t in AckedTasks(h, tag) then Succeeded else h.tasks[t]
  }

  /** The step at `tag` of `AckNackUpToCallbacksQueue`. */
  lemma AckNackOneCallbacksQueue(h: Hab, before: Hab, tag: nat, ok: bool, keep: bool)
    requires SameAt(h, before, tag)
    requires before.callbacks == CallbacksAfter(h, tag, ok, keep)
    requires before.queue == (if ok || tag == 0 then h.queue else h.queue + Resent(h, tag - 1, keep))
    ensures var h' := AckNackOne(before, tag, ok, keep);
      && h'.callbacks == CallbacksAfter(h, tag + 1, ok, keep)
      && h'.queue == (if ok then h.queue else h.queue + Resent(h, tag, keep))
  {
    GuidsBelowNext(h, tag);
    if tag == 0 {
      assert GuidsBelow(h, 0) == {};
    }
  }

  /** The step at `tag` of `AckNackUpToTasks`. */
  lemma AckNackOneTasks(h: Hab, before: Hab, tag: nat, ok: bool, keep: bool)
    requires Valid(h)
    requires SameAt(h, before, tag)
    requires before.callbacks == CallbacksAfter(h, tag, ok, keep)
    requires before.tasks == TasksAfter(h, tag, ok)
    ensures AckNackOne(before, tag, ok, keep).tasks == TasksAfter(h, tag + 1, ok)
  {
    AckedTasksNext(h, tag);
    var h' := AckNackOne(before, tag, ok, keep);
    if ok && tag in h.outstanding && h.outstanding[tag].guid in before.callbacks {
      var g := h.outstanding[tag].guid;
      assert h'.tasks == before.tasks[h.callbacks[g] := Succeeded];
    } else if ok && tag in h.outstanding && h.outstanding[tag].guid in h.callbacks {
      // the process was acked below `tag` already: its task is completed and stays so
      var g := h.outstanding[tag].guid;
      assert g in GuidsBelow(h, tag);
      assert h.callbacks[g] in AckedTasks(h, tag);
      assert AckedTasks(h, tag + 1) == AckedTasks(h, tag);
    }
  }

  /**
    What a multiple ack/nack up to `tag` does to the callbacks and the queue,
    against the hub it starts from: the callbacks of every process with a
    message numbered up to `tag` are removed (kept on a corrected nack), an
    ack leaves the queue alone, and a nack appends `Resent`.
   */
  lemma {:induction false} AckNackUpToCallbacksQueue(h: Hab, tag: nat, ok: bool, keep: bool)
    ensures var h' := AckNackUpTo(h, tag, ok, keep);
      && h'.callbacks == CallbacksAfter(h, tag + 1, ok, keep)
      && h'.queue == (if ok then h.queue else h.queue + Resent(h, tag, keep))
    decreases tag
  {
    var before := if tag == 0 then h else AckNackUpTo(h, tag - 1, ok, keep);
    if tag == 0 {
      assert GuidsBelow(h, 0) == {};
    } else {
      AckNackUpToCallbacksQueue(h, tag - 1, ok, keep);
      AckNackUpToOutstanding(h, tag - 1, ok, keep);
    }
    AckNackOneCallbacksQueue(h, before, tag, ok, keep);
  }

  /** A multiple ack completes exactly the tasks of the acked processes that had a callback; a nack completes none. */
  lemma {:induction false} AckNackUpToTasks(h: Hab, tag: nat, ok: bool, keep: bool)
    requires Valid(h)
    ensures AckNackUpTo(h, tag, ok, keep).tasks == TasksAfter(h, tag + 1, ok)
    decreases tag
  {
    var before := if tag == 0 then h else AckNackUpTo(h, tag - 1, ok, keep);
    if tag == 0 {
      assert GuidsBelow(h, 0) == {};
      assert AckedTasks(h, 0) == {};
    } else {
      AckNackUpToTasks(h, tag - 1, ok, keep);
      AckNackUpToCallbacksQueue(h, tag - 1, ok, keep);
      AckNackUpToOutstanding(h, tag - 1, ok, keep);
    }
    AckNackOneTasks(h, before, tag, ok, keep);
  }

  /** `ProcessAckNack`, as written. */
  function ProcessAckNack(h: Hab, multiple: bool, tag: nat, ok: bool): (h': Hab)
    ensures !multiple ==> h' == DoProcessAckNack(h, tag, ok)
    ensures multiple ==> forall k :: k in h'.outstanding <==> k in h.outstanding && k > tag
    ensures forall k :: k in h'.outstanding ==> h'.outstanding[k] == h.outstanding[k]
    ensures ok ==> h'.queue == h.queue
    ensures h'.published == h.published && h'.nextPublishSeqNo == h.nextPublishSeqNo
  {
    AckNackUpToOutstanding(h, tag, ok, false);
    if multiple then AckNackUpTo(h, tag, ok, false) else DoProcessAckNack(h, tag, ok)
  }

  /**
    `ProcessAckNack` with `multiple`, as written: every process with a
    message numbered up to `tag` loses its callback; an ack completes the
    tasks of those that had one and leaves the queue alone; a nack completes
    nothing and puts back only the first message of each such process.
   */
  lemma ProcessAckNackMultiple(h: Hab, tag: nat, ok: bool)
    requires Valid(h)
    ensures var h' := ProcessAckNack(h, true, tag, ok);
      && h'.callbacks == h.callbacks - GuidsBelow(h, tag + 1)
      && h'.tasks == TasksAfter(h, tag + 1, ok)
      && h'.queue == (if ok then h.queue else h.queue + Resent(h, tag, false))
  {
    AckNackUpToCallbacksQueue(h, tag, ok, false);
    AckNackUpToTasks(h, tag, ok, false);
  }

  /** Validity survives every multiple ack/nack. */
  lemma {:induction false} AckNackUpToValid(h: Hab, tag: nat, ok: bool)
    requires Valid(h)
    ensures Valid(AckNackUpTo(h, tag, ok, false))
    decreases tag
  {
    if tag > 0 {
      AckNackUpToValid(h, tag - 1, ok);
    }
    var before := if tag == 0 then h else AckNackUpTo(h, tag - 1, ok, false);
    assert AckNackUpTo(h, tag, ok, false) == DoProcessAckNack(before, tag, ok);
  }

  /** Validity survives every ack and nack. */
  lemma ProcessAckNackValid(h: Hab, multiple: bool, tag: nat, ok: bool)
    requires Valid(h)
    ensures Valid(ProcessAckNack(h, multiple, tag, ok))
  {
    if multiple {
      AckNackUpToValid(h, tag, ok);
    }
  }

  /**
    A task whose callback is no longer registered can never be completed by
    an ack or a nack: only a registered callback's task is ever touched.
   */
  lemma {:induction false} OrphanedTaskUntouched(h: Hab, multiple: bool, tag: nat, ok: bool, t: nat)
    requires Valid(h) && t in h.tasks
    requires forall p :: p in h.callbacks ==> h.callbacks[p] != t
    ensures var h' := ProcessAckNack(h, multiple, tag, ok);
      t in h'.tasks && h'.tasks[t] == h.tasks[t] && (forall p :: p in h'.callbacks ==> h'.callbacks[p] != t)
  {
    if multiple {
      OrphanedTaskUntouchedUpTo(h, tag, ok, t);
    }
  }

  lemma {:induction false} OrphanedTaskUntouchedUpTo(h: Hab, tag: nat, ok: bool, t: nat)
    requires t in h.tasks
    requires forall p :: p in h.callbacks ==> h.callbacks[p] != t
    ensures var h' := AckNackUpTo(h, tag, ok, false);
      t in h'.tasks && h'.tasks[t] == h.tasks[t] && (forall p :: p in h'.callbacks ==> h'.callbacks[p] != t)
    decreases tag
  {
    if tag > 0 {
      OrphanedTaskUntouchedUpTo(h, tag - 1, ok, t);
    }
  }

  /**
    The defect, on a concrete run: a process is started, its message is
    published as number 1 and nacked, which re-enqueues it but drops the
    callback; the resend goes out as number 2 and is acked, yet the task the
    caller awaits is still pending, with nothing outstanding and no callback
    left that could ever complete it.
   */
  lemma NackedResendIsNeverConfirmed(htmlFilePath: string, processId: string)
    ensures
      var (h1, t) := StartProcessAsync(Initial(), htmlFilePath, processId);
      var h2 := SendMessages(h1);
      var h3 := ProcessAckNack(h2, false, 1, false);
      var h4 := SendMessages(h3);
      var h5 := ProcessAckNack(h4, false, 2, true);
      && h4.outstanding == map[2 := SendMessage(processId, htmlFilePath)]
      && t in h5.tasks && h5.tasks[t] == Pending
      && h5.callbacks == map[] && h5.outstanding == map[] && h5.queue == []
  {
    var (h1, t) := StartProcessAsync(Initial(), htmlFilePath, processId);
    var m := SendMessage(processId, htmlFilePath);
    var h2 := SendMessages(h1);
    assert h2.outstanding == map[1 := m];
    var h3 := ProcessAckNack(h2, false, 1, false);
    assert h3.queue == [m] && h3.callbacks == map[];
    var h4 := SendMessages(h3);
    assert h4.outstanding == map[2 := m];
  }

  /**
    The defect in general: in any valid hub, when the broker nacks a message
    whose process has a callback, the message is resent, and the resend is
    acked, the process's task is still pending and no callback refers to it
    any more, so no later ack or nack can complete it (`OrphanedTaskUntouched`).
   */
  lemma NackedResendLeavesTaskOrphaned(h: Hab, tag: nat)
    requires Valid(h)
    requires tag in h.outstanding && h.outstanding[tag].guid in h.callbacks
    ensures
      var t := h.callbacks[h.outstanding[tag].guid];
      var h3 := ProcessAckNack(h, false, tag, false);
      var h4 := SendMessages(h3);
      var h5 := ProcessAckNack(h4, false, h.nextPublishSeqNo + |h.queue|, true);
      && t in h5.tasks && h5.tasks[t] == Pending
      && (forall p :: p in h5.callbacks ==> h5.callbacks[p] != t)
      && h.outstanding[tag] !in h5.queue
  {
    NackThenResend(h, tag);
  }

  /**
    The first half of `NackedResendLeavesTaskOrphaned`: after the nack and
    the resend, the message is outstanding under the next free number, its
    process has no callback, and its task is pending with no callback on it.
   */
  lemma NackThenResend(h: Hab, tag: nat)
    requires Valid(h)
    requires tag in h.outstanding && h.outstanding[tag].guid in h.callbacks
    ensures
      var m := h.outstanding[tag];
      var t := h.callbacks[m.guid];
      var h4 := SendMessages(ProcessAckNack(h, false, tag, false));
      var n := h.nextPublishSeqNo + |h.queue|;
      && n in h4.outstanding && h4.outstanding[n] == m
      && m.guid !in h4.callbacks && h4.queue == []
      && t in h4.tasks && h4.tasks[t] == Pending
      && (forall p :: p in h4.callbacks ==> h4.callbacks[p] != t)
  {
    var m := h.outstanding[tag];
    var t := h.callbacks[m.guid];
    var h3 := ProcessAckNack(h, false, tag, false);
    assert h3.queue == h.queue + [m] && m.guid !in h3.callbacks;
    assert forall p :: p in h3.callbacks ==> h3.callbacks[p] != t;
    SendMessagesRecordsAll(h3);
    assert h3.nextPublishSeqNo == h.nextPublishSeqNo && h3.queue[|h.queue|] == m;
  }

  /** The evidently intended behaviour: a nack re-enqueues the message and keeps its callback registered. */
  function DoProcessAckNackCorrected(h: Hab, tag: nat, ok: bool): (h': Hab)
    ensures tag !in h.outstanding ==> h' == h
    ensures tag in h.outstanding ==> h'.outstanding == h.outstanding - {tag}
    ensures ok ==> h' == DoProcessAckNack(h, tag, ok)
    ensures !ok && tag in h.outstanding ==>
      && h'.callbacks == h.callbacks && h'.tasks == h.tasks
      && h'.queue == h.queue + (if h.outstanding[tag].guid in h.callbacks then [h.outstanding[tag]] else [])
    ensures Valid(h) ==> Valid(h')
  {
    AckNackOne(h, tag, ok, true)
  }

  /** `ProcessAckNack` over the corrected single-tag step. */
  function ProcessAckNackCorrected(h: Hab, multiple: bool, tag: nat, ok: bool): (h': Hab)
    ensures !multiple ==> h' == DoProcessAckNackCorrected(h, tag, ok)
    ensures multiple ==> forall k :: k in h'.outstanding <==> k in h.outstanding && k > tag
    ensures ok ==> h' == ProcessAckNack(h, multiple, tag, ok)
  {
    AckNackUpToOutstanding(h, tag, ok, true);
    AckUpToIgnoresCorrection(h, tag, ok);
    if multiple then AckNackUpTo(h, tag, ok, true) else DoProcessAckNackCorrected(h, tag, ok)
  }

  /**
    `ProcessAckNackCorrected` with `multiple`: an ack behaves as before; a
    nack keeps every callback and task and puts back, in ascending order,
    every message up to `tag` whose process has a callback.
   */
  lemma ProcessAckNackCorrectedMultiple(h: Hab, tag: nat, ok: bool)
    requires Valid(h)
    ensures var h' := ProcessAckNackCorrected(h, true, tag, ok);
      && h'.callbacks == (if ok then h.callbacks - GuidsBelow(h, tag + 1) else h.callbacks)
      && h'.tasks == TasksAfter(h, tag + 1, ok)
      && h'.queue == (if ok then h.queue else h.queue + Resent(h, tag, true))
  {
    AckNackUpToCallbacksQueue(h, tag, ok, true);
    AckNackUpToTasks(h, tag, ok, true);
  }

  /** For acks the correction makes no difference: it concerns nacks only. */
  lemma {:induction false} AckUpToIgnoresCorrection(h: Hab, tag: nat, ok: bool)
    ensures ok ==> AckNackUpTo(h, tag, ok, true) == AckNackUpTo(h, tag, ok, false)
    decreases tag
  {
    if tag > 0 {
      AckUpToIgnoresCorrection(h, tag - 1, ok);
    }
  }

  /**
    With the correction, a nacked message of a process whose callback is
    registered is resent and the ack of the resend completes that process's
    task.
   */
  lemma NackedResendIsConfirmedWhenCorrected(h: Hab, tag: nat)
    requires Valid(h)
    requires tag in h.outstanding && h.outstanding[tag].guid in h.callbacks
    ensures
      var t := h.callbacks[h.outstanding[tag].guid];
      var h3 := ProcessAckNackCorrected(h, false, tag, false);
      var h4 := SendMessages(h3);
      var h5 := ProcessAckNackCorrected(h4, false, h.nextPublishSeqNo + |h.queue|, true);
      t in h5.tasks && h5.tasks[t] == Succeeded
  {
    var m := h.outstanding[tag];
    var t := h.callbacks[m.guid];
    var h3 := ProcessAckNackCorrected(h, false, tag, false);
    assert h3.queue == h.queue + [m];
    SendMessagesRecordsAll(h3);
    var h4 := SendMessages(h3);
    var n := h.nextPublishSeqNo + |h.queue|;
    assert h3.nextPublishSeqNo == h.nextPublishSeqNo && h3.queue[|h.queue|] == m;
    assert n in h4.outstanding && h4.outstanding[n] == m;
    assert m.guid in h4.callbacks && h4.callbacks[m.guid] == t;
  }

  /** The same concrete run as `NackedResendIsNeverConfirmed`, corrected: the awaited task succeeds. */
  lemma NackedResendConfirmedRun(htmlFilePath: string, processId: string)
    ensures
      var (h1, t) := StartProcessAsync(Initial(), htmlFilePath, processId);
      var h2 := SendMessages(h1);
      var h3 := ProcessAckNackCorrected(h2, false, 1, false);
      var h4 := SendMessages(h3);
      var h5 := ProcessAckNackCorrected(h4, false, 2, true);
      t in h5.tasks && h5.tasks[t] == Succeeded && h5.callbacks == map[]
  {
    var (h1, t) := StartProcessAsync(Initial(), htmlFilePath, processId);
    var m := SendMessage(processId, htmlFilePath);
    var h2 := SendMessages(h1);
    assert h2.outstanding == map[1 := m];
    var h3 := ProcessAckNackCorrected(h2, false, 1, false);
    assert h3.queue == [m] && h3.callbacks == map[processId := t];
    var h4 := SendMessages(h3);
    assert h4.outstanding == map[2 := m];
  }
}
