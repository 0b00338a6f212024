# HtmlToPdfConsole — a Dafny model of the event bus and the conversion bookkeeping

The model covers HtmlToPdfConsole, a C# system in which a console client submits html files for conversion to pdf. The system has two halves.

The first half is a RabbitMQ event bus:
- an in-memory subscription registry;
- a persistent-connection supervisor, which reconnects through a Polly retry policy and reconnects again from the connection's fault callbacks;
- a publish path with two nested retry policies.

The second half is the conversion side:
- a publisher-confirm tracker (`MessageHab`), which matches broker acks and nacks to per-process tasks;
- the server's process store and its `ConverterServer` operations;
- the client's bookkeeping of active processes, its poll, and its disposal.

Everything is a functional state machine. Immutable datatypes hold maps, sequences and flags. Each operation is a pure function from state to state. What an operation does to the broker or the console is appended to a trace of effects.

The outside world becomes parameters:
- what the connection factory, `CreateModel`, `ExchangeDeclare` and `BasicPublish` return or throw, try by try (the bus's `World`, and the fault sequence of `MessageHab.SendMessagesOrThrow`);
- the Guid of a new process.

Exceptions become values: `Attempt.Raised` or `Result.Err`, carrying an `Errors.Fault`.

`Retry` models Polly's `WaitAndRetry` once, generically. The action is retried while it throws a handled exception and fewer than `retryCount` retries have been made. Retry `k` sleeps `2^k` seconds. When the budget is spent the last exception is rethrown. The connection supervisor and both bus policies are instances of it. On the bus, each sleep also appears in the trace as a `Pause` entry of the policy that slept, just before the try it delays, so the trace shows the outer and inner sleeps in the order they happen.

Three behaviours of the code worth noting:
- When the connect policy is exhausted, `TryConnect` does not return `false`. Polly rethrows the last exception, so the `false` branch is reached only when the factory returns a connection that is not open (`PersistentConnection.UnreachableBrokerExhausts`).
- The routing key of a published event is the simple name of its runtime type (`GetEventName`). It is not the registry's `GetEventKey`, which uses the static type argument.
- `EventBusRabbitMQ.Subscribe` has an empty body. It neither registers a handler nor binds a queue. There is no inbound dispatch loop in the code.

## Model

| member | source | states |
|---|---|---|
| Retry.Execute | EventBusRabbitMQ/DefaultRabbitMQPersistentConnection.cs:122-141 | The policy runs between 1 and `retryCount + 1` tries, and the last try's outcome is the result. Every earlier try threw a handled exception. A handled exception escapes only once the budget is spent. Retry `k` is preceded by a sleep of `2^k` seconds. The effects are exactly those of the tries that ran. |
| Retry.FirstSuccessRunsOnce | EventBusRabbitMQ/DefaultRabbitMQPersistentConnection.cs:138-141 | An action that succeeds first time runs once, with no sleep. |
| Retry.RetriedOnceThenReturned | EventBusRabbitMQ/DefaultRabbitMQPersistentConnection.cs:122-141 | An action that throws a handled exception and then succeeds runs twice, with one sleep of two seconds, and the effects of both tries. |
| Retry.LastTryInRun | EventBusRabbitMQ/DefaultRabbitMQPersistentConnection.cs:122-141 | Whatever the last try did is in the run's effects. |
| Retry.UnhandledFaultNotRetried | EventBusRabbitMQ/DefaultRabbitMQPersistentConnection.cs:122-123 | An exception the policy does not handle escapes from the first try, unretried. |
| Retry.Exhaustion | EventBusRabbitMQ/DefaultRabbitMQPersistentConnection.cs:124-128 | When every try throws a handled exception, there are `retryCount + 1` tries. The sleeps total `2^(retryCount+1) - 2` seconds, and the last exception is rethrown. |
| Retry.DefaultBudgetSleeps62Seconds | EventBusRabbitMQ/DefaultRabbitMQPersistentConnection.cs:124-128 | With the default five retries, a policy that keeps failing sleeps 62 seconds before giving up. |
| Subscriptions.Empty | EventBus/InMemoryEventBusSubscriptionsManager.cs:13 | A new registry has no event types and satisfies the representation invariant. |
| Subscriptions.AddSubscription | EventBus/InMemoryEventBusSubscriptionsManager.cs:14-32 | Afterwards the event type is a key and the handler is in its list. A pair already present changes nothing. Otherwise the handler is appended at the end of the list, and a new key goes last in key order. Other keys' lists are unchanged, and handler lists stay duplicate-free. |
| Subscriptions.AddSubscriptionIdempotent | EventBus/InMemoryEventBusSubscriptionsManager.cs:21-31 | Adding the same pair twice gives exactly the registry that one add gives. |
| Subscriptions.AddSubscriptionOnlyGrows | EventBus/InMemoryEventBusSubscriptionsManager.cs:13-32 | Nothing is removed. Key order is extended, and every existing handler list is a prefix of its new value. |
| Subscriptions.GetEventKey | EventBus/InMemoryEventBusSubscriptionsManager.cs:34-37 | The key is the simple name of the static type argument. |
| Subscriptions.EventKeyIgnoresArgument | EventBus/InMemoryEventBusSubscriptionsManager.cs:34-37 | The key is the same for every argument, including null. |
| Subscriptions.GetEventType | EventBus/InMemoryEventBusSubscriptionsManager.cs:39-42 | Null iff no registered type has that simple name. Otherwise it returns a registered type with that name, and no type registered before it has that name. |
| Subscriptions.GetHandlersForEvent | EventBus/InMemoryEventBusSubscriptionsManager.cs:44-53 | Null iff no registered type has that name. Otherwise it returns the list of a registered type with that name, and the list has no duplicates. |
| Subscriptions.HasSubscriptionsForEvent | EventBus/InMemoryEventBusSubscriptionsManager.cs:55-58 | True iff some registered type has that name, iff `GetHandlersForEvent` is not null. |
| Subscriptions.LookupAfterSubscribe | EventBus/InMemoryEventBusSubscriptionsManager.cs:14-58 | After a subscription, lookups by the event type's name find a type. |
| Subscriptions.LookupFindsSubscribedHandler | EventBus/InMemoryEventBusSubscriptionsManager.cs:14-53 | When no other type shares the simple name, a lookup by name returns that type's list, which holds the new handler. |
| PersistentConnection.Create | EventBusRabbitMQ/DefaultRabbitMQPersistentConnection.cs:27-35 | A new supervisor holds no connection, is not disposed, and keeps the given retry count. |
| PersistentConnection.TryCreateConnection | EventBusRabbitMQ/DefaultRabbitMQPersistentConnection.cs:120-144 | The factory is called between 1 and `retryCount + 1` times, and its last answer is the result. Every earlier call threw a socket or broker-unreachable exception. Such an exception escapes only after the last retry. There is one sleep per retry, and retry `k` sleeps `2^k` seconds. |
| PersistentConnection.ClearConnection | EventBusRabbitMQ/DefaultRabbitMQPersistentConnection.cs:146-165 | Nothing for no connection. Otherwise three unsubscribes from that connection, then its disposal, last. |
| PersistentConnection.SubscribeConnection | EventBusRabbitMQ/DefaultRabbitMQPersistentConnection.cs:167-172 | Three subscriptions, all to the given connection. |
| PersistentConnection.ClearUndoesSubscribe | EventBusRabbitMQ/DefaultRabbitMQPersistentConnection.cs:146-172 | Clearing detaches exactly the handlers subscribing attached, each before the connection is disposed. |
| PersistentConnection.TryConnect | EventBusRabbitMQ/DefaultRabbitMQPersistentConnection.cs:66-105 | While connected, it returns true with no factory call and no change. Otherwise an open connection from the policy does four things: the old connection is cleared, the new one is held, the new one is subscribed to, and the result is true. A connection that is not open gives false and changes nothing. An exception from the policy propagates. The held connection changes only to an open one, and only on success. |
| PersistentConnection.ConnectedIffNoFactoryCall | EventBusRabbitMQ/DefaultRabbitMQPersistentConnection.cs:37-82 | `IsConnected` (not disposed, and the held connection is open) holds exactly when `TryConnect` calls no factory. |
| PersistentConnection.NewConnectionKeptIffOpen | EventBusRabbitMQ/DefaultRabbitMQPersistentConnection.cs:84-103 | When not connected, the first connection the factory delivers is held, with success, exactly when `isConnectionOpen` accepts it. Otherwise `TryConnect` returns false after one factory call, with no other change. |
| PersistentConnection.OpenChannelOn | EventBusRabbitMQ/DefaultRabbitMQPersistentConnection.cs:54 | A channel opened on the held connection belongs to it. The client library's exception propagates, and the supervisor is unchanged. |
| PersistentConnection.CreateModel | EventBusRabbitMQ/DefaultRabbitMQPersistentConnection.cs:47-55 | When not connected and `TryConnect` returns false, it throws InvalidOperationException and changes nothing. Once connected, by the fast path or by a reconnect, it returns a channel exactly when the client library opens one, and otherwise passes on the library's exception. An exception from the reconnect propagates and changes nothing. A returned channel belongs to the held connection, which is open. While connected, no reconnect happens and the only effect is opening the channel. After a reconnect, the supervisor, the sleeps and the effects are those of `TryConnect`, followed by opening the channel on the connection it just stored. |
| PersistentConnection.Dispose | EventBusRabbitMQ/DefaultRabbitMQPersistentConnection.cs:107-116 | The first call marks the supervisor disposed and runs `clearConnection` on the held connection: its three handlers are detached and it is disposed, but it stays referenced. Later calls do nothing. Afterwards it is not connected. |
| PersistentConnection.DisposeIdempotent | EventBusRabbitMQ/DefaultRabbitMQPersistentConnection.cs:107-116 | A second `Dispose` has no effect. |
| PersistentConnection.OnConnectionEvent | EventBusRabbitMQ/DefaultRabbitMQPersistentConnection.cs:174-205 | Each fault handler is a no-op once disposed. Otherwise it has exactly the effects of `TryConnect` and propagates `TryConnect`'s exceptions. |
| PersistentConnection.EventHandlersAgree | EventBusRabbitMQ/DefaultRabbitMQPersistentConnection.cs:174-205 | The shutdown, callback-exception and blocked handlers behave identically. |
| PersistentConnection.DisposedIsFinal | EventBusRabbitMQ/DefaultRabbitMQPersistentConnection.cs:107-116 | Once disposed, no operation makes the supervisor connected again. |
| PersistentConnection.DisposedStillReconnects | EventBusRabbitMQ/DefaultRabbitMQPersistentConnection.cs:66-96 | After `Dispose`, `TryConnect` still calls the factory, holds an open result and reports success, although `IsConnected` stays false. |
| PersistentConnection.FaultCallbackReconnects | EventBusRabbitMQ/DefaultRabbitMQPersistentConnection.cs:196-205 | Take a live supervisor whose connection dropped, and a factory that delivers an open connection. A fault callback then reconnects with one factory call, clears the old connection and subscribes to the new one. |
| PersistentConnection.ReconnectThenOpenChannel | EventBusRabbitMQ/DefaultRabbitMQPersistentConnection.cs:47-105 | When not connected and the factory delivers an open connection, `CreateModel` makes one factory call, clears the old connection, subscribes to the new one, holds it, and opens the channel on it, with no sleep. |
| PersistentConnection.UnreachableBrokerExhausts | EventBusRabbitMQ/DefaultRabbitMQPersistentConnection.cs:120-144 | Take the default budget and an unreachable broker. `TryConnect` makes six factory calls and sleeps 62 seconds. It then rethrows, unchanged, and never returns false. |
| RabbitBus.Create | EventBusRabbitMQ/EventBusRabbitMQ.cs:30-40 | A new bus has no consumer channel and has sent nothing. |
| RabbitBus.RoutingKeyVersusEventKey | EventBusRabbitMQ/EventBusRabbitMQ.cs:140-143 | The publish routing key and the registry's event key agree exactly when the runtime type has the static type's simple name, whatever event is passed. |
| RabbitBus.PublishEventToChannel | EventBusRabbitMQ/EventBusRabbitMQ.cs:145-158 | One publish to the fixed exchange, mandatory and persistent, under the given routing key. It fails exactly when `BasicPublish` throws. |
| RabbitBus.PublishWithRetry | EventBusRabbitMQ/EventBusRabbitMQ.cs:145-178 | The inner policy publishes on one channel between 1 and `retryCount + 1` times. Every publish but the last threw a broker-unreachable or socket exception. The last publish decides: the result is its exception, or success. A retryable exception escapes only once the budget is spent. Retry `k` sleeps `2^k` seconds, and the trace is exactly the publishes with those pauses between them. |
| RabbitBus.PublishRunResult | EventBusRabbitMQ/EventBusRabbitMQ.cs:160-178 | Inside the inner policy: every earlier publish threw a retryable exception, and the last publish's exception is the result, if any. |
| RabbitBus.PublishRunEffects | EventBusRabbitMQ/EventBusRabbitMQ.cs:160-178 | The inner policy's trace is the publishes it made, each retry preceded by its pause. |
| RabbitBus.SleptAttempts | EventBusRabbitMQ/EventBusRabbitMQ.cs:160-178 | `n` publish attempts with their pauses sleep `2^n - 2` seconds in total. |
| RabbitBus.ChannelWork | EventBusRabbitMQ/EventBusRabbitMQ.cs:52-70 | One outer try: if `CreateModel` throws, its exception escapes and nothing is sent. |
| RabbitBus.ChannelSessionDeclared | EventBusRabbitMQ/EventBusRabbitMQ.cs:61-69 | A channel session that opens a channel, declares the direct exchange `converter_event_bus` on it (`DeclareEchange`), and then publishes only this event on it, keeps exchange-before-publish. |
| RabbitBus.ChannelWorkOnChannel | EventBusRabbitMQ/EventBusRabbitMQ.cs:52-70 | With a channel, an outer try opens it, declares the exchange, and closes it last (`using`). A failed declare closes the channel and throws. Otherwise the inner policy's trace sits between declare and close, and its result is the try's result. |
| RabbitBus.ChannelWorkTrace | EventBusRabbitMQ/EventBusRabbitMQ.cs:52-70 | An outer try publishes only this event, and declares the exchange on a channel before publishing on it. |
| RabbitBus.ChannelWorkPublished | EventBusRabbitMQ/EventBusRabbitMQ.cs:52-70 | An outer try succeeds only if it got a channel, the declare went through, and the event was published on that channel. |
| RabbitBus.ChannelWorkFault | EventBusRabbitMQ/EventBusRabbitMQ.cs:52-70 | A failed outer try passes on an exception the world threw on that try: from `CreateModel`, `ExchangeDeclare` or one of the publishes. |
| RabbitBus.PublishRun | EventBusRabbitMQ/EventBusRabbitMQ.cs:73-91 | The outer policy runs between 1 and `retryCount + 1` tries. Every earlier try failed with AlreadyClosedException, and the last try's outcome is the result. A closed channel escapes only once the budget is spent. Retry `k` is preceded by a pause of `2^k` seconds, which shows in the trace. Only this event is published, always after the exchange is declared on its channel. Success means the last try got a channel and published the event on it. A failure is an exception the world threw on the last try. Any other exception from the first `CreateModel` escapes at once, with nothing sent. |
| RabbitBus.PublishRunEnds | EventBusRabbitMQ/EventBusRabbitMQ.cs:73-91 | The outer run ends in a publish on the last try's channel when it succeeds, and in that try's exception when it fails. Any exception but AlreadyClosedException from the first `CreateModel` ends it at once. |
| RabbitBus.ChannelStepPublished | EventBusRabbitMQ/EventBusRabbitMQ.cs:52-91 | An outer try that succeeds, pause included, got a channel and published the event on it. |
| RabbitBus.Publish | EventBusRabbitMQ/EventBusRabbitMQ.cs:42-71 | The trace only grows. Every new publish goes to `converter_event_bus`, mandatory and persistent, with the event's runtime type name as routing key and its serialization as body. Exchange-before-publish is kept per channel. Success means the event was published. A failure is an exception the world threw on one of the outer tries. A closed channel escapes only after a pause before each outer retry. A non-retried `CreateModel` exception leaves the bus unchanged. |
| RabbitBus.PublishHappyPath | EventBusRabbitMQ/EventBusRabbitMQ.cs:42-71 | With a live channel, one event is exactly open, declare, one publish and close, with no sleep. |
| RabbitBus.PublishInnerExhaustion | EventBusRabbitMQ/EventBusRabbitMQ.cs:50-71 | Take an unreachable broker during publish. The trace gains exactly one channel session: open, declare, `retryCount + 1` publishes with the inner pauses between them, close. The exception escapes, and the outer policy does not retry. The pauses in the session total `2^(retryCount+1) - 2` seconds. |
| RabbitBus.PublishRetriesClosedChannel | EventBusRabbitMQ/EventBusRabbitMQ.cs:73-91 | When the first `CreateModel` finds the channel closed and the second delivers a live one, the trace gains exactly a two-second pause and one session on the new channel: open, declare, publish, close. The result is success. |
| RabbitBus.Subscribe | EventBusRabbitMQ/EventBusRabbitMQ.cs:93-98 | Subscribing changes nothing and sends nothing. |
| RabbitBus.CreateConsumerChannel | EventBusRabbitMQ/EventBusRabbitMQ.cs:100-117 | It succeeds iff a channel is obtained and both declares go through. On success the trace gains exactly: open, exchange declare, durable non-exclusive non-auto-delete queue declare, the callback hook; the channel is then stored. On an exception the stored channel is unchanged, and the exception is the first one thrown. |
| RabbitBus.PublishKeepsConsumerReady | EventBusRabbitMQ/EventBusRabbitMQ.cs:42-48 | Publishing keeps a ready consumer channel ready. |
| MessageHab.Initial | HtmlToPdfConsole/MessageHab.cs:16-21 | The empty hub satisfies the tracker's invariant. |
| MessageHab.StartProcessAsync | HtmlToPdfConsole/MessageHab.cs:61-76 | The operation enqueues exactly one message and registers a fresh pending task for the id. A task previously registered for the id is faulted with ProcessResendedException. Other tasks and the invariant are kept. |
| MessageHab.SendMessages | HtmlToPdfConsole/MessageHab.cs:78-88 | The queue is drained. The i-th message is published, in FIFO order, with the next sequence number plus i, and the counter advances by the queue's length. Existing outstanding entries are never overwritten, and new ones only take the numbers just used. Callbacks and tasks are untouched. |
| MessageHab.SendNext | HtmlToPdfConsole/MessageHab.cs:82-85 | One message leaves the queue head. It is recorded under the current sequence number if that number is free, and is published with that number. The counter advances by one. Callbacks and tasks are untouched. |
| MessageHab.SendMessagesRecords | HtmlToPdfConsole/MessageHab.cs:82-85 | Every drained message whose number was free is recorded under that number (`TryAdd`). |
| MessageHab.SendMessagesRecordsAll | HtmlToPdfConsole/MessageHab.cs:78-88 | In a valid hub the i-th drained message is recorded under the next sequence number plus i. |
| MessageHab.SendMessagesValid | HtmlToPdfConsole/MessageHab.cs:78-88 | Draining the queue keeps the tracker's invariant. |
| MessageHab.SendMessagesOrThrow | HtmlToPdfConsole/MessageHab.cs:78-88 | Draining the queue while `BasicPublish` may throw never touches callbacks or tasks. |
| MessageHab.SendMessagesOrThrowAgrees | HtmlToPdfConsole/MessageHab.cs:78-88 | The drain completes iff no publish throws, and then it is `SendMessages`. |
| MessageHab.SendMessagesOrThrowKeeps | HtmlToPdfConsole/MessageHab.cs:84 | Entries already outstanding are never overwritten, even when a publish throws. |
| MessageHab.SendMessagesThrowStrands | HtmlToPdfConsole/MessageHab.cs:82-85 | When the i-th publish throws, that exception escapes. The earlier messages are published. The throwing message has left the queue and, if its number was free, is outstanding under it, yet no publish carries that number. The later messages stay queued. |
| MessageHab.DoProcessAckNack | HtmlToPdfConsole/MessageHab.cs:115-133 | An unknown tag changes nothing. A known tag leaves the outstanding map. With a callback: an ack completes the task and removes the callback, and a nack re-enqueues the message and removes the callback. Without a callback the message is dropped. |
| MessageHab.AckNackUpToOutstanding | HtmlToPdfConsole/MessageHab.cs:100-113 | A multiple ack or nack removes exactly the outstanding tags up to the given one and keeps larger ones. |
| MessageHab.AckNackUpToCallbacksQueue | HtmlToPdfConsole/MessageHab.cs:100-133 | A multiple ack or nack up to a tag removes the callbacks of every outstanding process up to the tag. The exception is a nack in the corrected variant, which keeps them all. A nack re-enqueues, in tag order, each such message whose process still had a callback when it was reached. |
| MessageHab.AckNackUpToTasks | HtmlToPdfConsole/MessageHab.cs:100-133 | A multiple ack completes exactly the tasks of the outstanding processes up to the tag that had callbacks. A nack changes no task. |
| MessageHab.ProcessAckNack | HtmlToPdfConsole/MessageHab.cs:100-113 | A single ack or nack is `DoProcessAckNack` on that tag. A multiple one leaves exactly the larger tags outstanding. Acks never touch the queue. |
| MessageHab.ProcessAckNackMultiple | HtmlToPdfConsole/MessageHab.cs:100-133 | For a multiple ack or nack: the callbacks of the processes outstanding up to the tag are removed, an ack completes exactly their tasks, and a nack re-enqueues each message whose process still had a callback. |
| MessageHab.AckNackUpToValid | HtmlToPdfConsole/MessageHab.cs:100-113 | A multiple ack or nack keeps the invariant. |
| MessageHab.ProcessAckNackValid | HtmlToPdfConsole/MessageHab.cs:100-133 | Every ack or nack keeps the invariant. |
| MessageHab.OrphanedTaskUntouched | HtmlToPdfConsole/MessageHab.cs:115-133 | A task no callback refers to is never changed by an ack or a nack. |
| MessageHab.OrphanedTaskUntouchedUpTo | HtmlToPdfConsole/MessageHab.cs:100-113 | The same, for a multiple ack or nack. |
| MessageHab.NackedResendIsNeverConfirmed | HtmlToPdfConsole/MessageHab.cs:117-131 | The sequence is: start, send, nack, resend, ack of the resend. The awaited task is still pending, with nothing outstanding and no callback left. |
| MessageHab.NackedResendLeavesTaskOrphaned | HtmlToPdfConsole/MessageHab.cs:117-131 | Take any valid hub and a nacked message whose process has a callback. After the resend is acked, the process's task is still pending and no callback refers to it, so by `OrphanedTaskUntouched` nothing can complete it. |
| MessageHab.NackThenResend | HtmlToPdfConsole/MessageHab.cs:117-131 | After a nack of a message whose process has a callback and the following drain, the message is outstanding again under the next free number, its callback is gone, and its task is still pending with no callback on it. |
| MessageHab.DoProcessAckNackCorrected | HtmlToPdfConsole/MessageHab.cs:117-131 | Corrected: a nack re-enqueues the message and keeps the callback. An ack is unchanged. |
| MessageHab.ProcessAckNackCorrected | HtmlToPdfConsole/MessageHab.cs:100-113 | Corrected `ProcessAckNack`. A multiple one leaves exactly the larger tags outstanding, and acks agree with the original. |
| MessageHab.ProcessAckNackCorrectedMultiple | HtmlToPdfConsole/MessageHab.cs:100-133 | Corrected, multiple: an ack is as written. A nack keeps every callback and re-enqueues every outstanding message up to the tag whose process has a callback. |
| MessageHab.AckUpToIgnoresCorrection | HtmlToPdfConsole/MessageHab.cs:121-124 | For acks, the correction makes no difference. |
| MessageHab.NackedResendIsConfirmedWhenCorrected | HtmlToPdfConsole/MessageHab.cs:117-131 | Corrected: for any valid hub, a nacked message whose callback is registered is resent, and the ack of the resend completes that process's task. |
| MessageHab.NackedResendConfirmedRun | HtmlToPdfConsole/MessageHab.cs:117-131 | Corrected: the same concrete run as the as-written counterexample completes the task. |
| ProcessStorage.Empty | HtmlToPdfConsole/ProcessStorage.cs:8 | An empty store knows no process, and every record in it is keyed by its own id. |
| ProcessStorage.SaveProcess | HtmlToPdfConsole/ProcessStorage.cs:15-18 | A record without an id is refused with ArgumentException, and nothing is stored. Otherwise the record is found under its id afterwards. Every other id's lookup is unchanged. |
| ProcessStorage.GetProcessById | HtmlToPdfConsole/ProcessStorage.cs:26-34 | Succeeds iff the id is stored, and then returns the stored record itself. Otherwise it throws ProcessNotFoundException naming the id. The store is not modified. |
| ProcessStorage.GetAfterSave | HtmlToPdfConsole/ProcessStorage.cs:15-34 | A saved record is returned by a lookup of its id. |
| ProcessStorage.SaveOverwrites | HtmlToPdfConsole/ProcessStorage.cs:17 | Saving twice under one id keeps only the second record. |
| ProcessStorage.SavesUnderDistinctIdsCommute | HtmlToPdfConsole/ProcessStorage.cs:17 | Saves under different ids do not disturb each other. |
| ConverterServer.Create | HtmlToPdfConsole/ConverterServer.cs:13-26 | A new server knows no process. |
| ConverterServer.PrepareProcess | HtmlToPdfConsole/ConverterServer.cs:45-60 | The new record holds the fresh id and the html path, with no pdf and no flags set. It is stored under that id, and nothing else changes. |
| ConverterServer.RunProcess | HtmlToPdfConsole/ConverterServer.cs:68-79 | When `MessageHab.StartProcess` returns without throwing, the stored record is marked as sent. If it throws, nothing changes. Other records are untouched. |
| ConverterServer.StartConvert | HtmlToPdfConsole/ConverterServer.cs:33-38 | The call returns the fresh id. The stored record has the input html path and no pdf, and it is marked as sent exactly when `StartProcess` returns without throwing. The process is not finished, and fetching its pdf fails with ProcessNotFinishedException. |
| ConverterServer.IsConvertFinished | HtmlToPdfConsole/ConverterServer.cs:105-109 | True iff the stored pdf path is neither null nor empty. An unknown id gives ProcessNotFoundException. |
| ConverterServer.GetPdfByProcessId | HtmlToPdfConsole/ConverterServer.cs:88-97 | An unknown id gives ProcessNotFoundException. A null or empty pdf path gives ProcessNotFinishedException. Otherwise the stored, non-empty pdf path is returned. |
| ConverterServer.OnProcessFinished | HtmlToPdfConsole/ConverterServer.cs:116-134 | An unknown id changes nothing. A known record gets the pdf path and is marked as received. Other records are untouched. |
| ConverterServer.PdfAvailableIffFinished | HtmlToPdfConsole/ConverterServer.cs:88-109 | The pdf can be fetched iff `IsConvertFinished` says true. For a known id the only other answer is ProcessNotFinishedException. |
| ConverterServer.FinishedProcessYieldsPdf | HtmlToPdfConsole/ConverterServer.cs:116-134 | After a known process is finished with a non-empty path, it is finished and its pdf is that path. |
| ConverterServer.StartFinishFetch | HtmlToPdfConsole/ConverterServer.cs:33-134 | Start, finish, fetch: the fetch returns the pdf, and the record keeps the html path. |
| ConverterClient.Create | HtmlToPdfConsole/ConverterClient.cs:8-24 | A new client has no active process, is not cancelled, and has shown nothing. |
| ConverterClient.AddConvertFile | HtmlToPdfConsole/ConverterClient.cs:30-35 | The server stores the new record with the html path, no pdf and no received flag, and every other stored record is unchanged. The returned id is recorded against the html path, and other entries are unchanged. The server does not yet report it finished. The call throws ObjectDisposedException iff the client is disposed, and then only after the server call and the map update. |
| ConverterClient.OnConvertFinished | HtmlToPdfConsole/ConverterClient.cs:43-53 | An inactive id is ignored. For an active id it succeeds iff the pdf can be fetched, and then shows it and removes that id and no other. Otherwise the exception escapes and the id stays active. |
| ConverterClient.PollStep | HtmlToPdfConsole/ConverterClient.cs:73-85 | A poll turn stops iff the token is cancelled. It waits iff the process is not finished. It fails, with ProcessNotFoundException, exactly for an unknown process. It completes through `OnConvertFinished`, and the id is then inactive. |
| ConverterClient.FinishThenPollCompletes | HtmlToPdfConsole/ConverterClient.cs:43-85 | Once the server has the pdf, the next poll turn completes: the id is removed and the pdf shown. |
| ConverterClient.SubmittedProcessWaits | HtmlToPdfConsole/ConverterClient.cs:30-85 | A just-submitted process is polled again, not completed. |
| ConverterClient.AddAfterDisposeStrandsProcess | HtmlToPdfConsole/ConverterClient.cs:30-95 | On a disposed client, `AddConvertFile` throws ObjectDisposedException after the server has stored the process and the client has recorded it. No poll will report it. |
| ConverterClient.Dispose | HtmlToPdfConsole/ConverterClient.cs:87-95 | The first call cancels and disposes the token source. Later calls do nothing. |
| ConverterClient.DisposeIsIdempotent | HtmlToPdfConsole/ConverterClient.cs:87-95 | A second `Dispose` changes nothing. The token source is cancelled and disposed once. |
| ConverterClient.DisposeStopsPolling | HtmlToPdfConsole/ConverterClient.cs:73-95 | After `Dispose`, every poll stops at its next turn. |

## Left out

- Locks, `volatile`, `Task.Run` and task timing are not modelled: every operation runs to completion, one at a time. The double-checked `IsConnected` under the lock is therefore the same check twice.
- Polly's engine is modelled only through its observable policy (`Retry`): which exceptions are retried, how many times, the sleeps, and the rethrow on exhaustion.
- Logging, `DateTime.Now` timestamps and `Guid.NewGuid` are not modelled. Ids are parameters.
- JSON serialisation (`EventToByteArray`) is not modelled: a body is an opaque wrapper of the event. `SendMessage.ToBody` is the empty byte sequence, as in the code.
- The RabbitMQ client is not modelled:
  - Connections, channels and `NextPublishSeqNo` are abstract numbers.
  - What they return or throw is a parameter.
  - The connections opened by the `MessageHab` constructor and by `MessageHab.StartProcess` are not modelled; `ConverterServer.RunProcess` takes the outcome of `StartProcess` as a parameter.
- `SendMessages` is one pass of its reader loop. Waiting on an empty channel is not modelled.
- The order in which `ProcessAckNack` visits the keys of the `ConcurrentDictionary` is unspecified in .NET. The model visits them in ascending order. Another order would change only the order of the re-enqueued messages (`MessageHab.Resent`), and which of two tags for the same process takes its callback.
- MessageHab.SendMessagesOrThrow: when `BasicPublish` throws, the model leaves the sequence number where it was. Whether the client library has already advanced `NextPublishSeqNo` at that point is not modelled. The loop's exception ends `SendMessages`, so the remaining messages stay queued until it is called again.
- The IOException that `clearConnection` catches and logs is not modelled: clearing always yields its three unsubscribes and the disposal.
- The `ProcessFinished` event of `MessageHab` is declared but never raised in the code. `ConverterServer.OnProcessFinished` is modelled as a function, but no model path calls it from the hub.
- `channel_CallbackException` throws NotImplementedException and is not modelled. `createConsumerChannel` is never called in the code; it is modelled as `RabbitBus.CreateConsumerChannel`.
- The `ProcessItem` class is not part of this model. Its fields are inferred from their uses, and its two timestamps are left out.
- A negative `retryCount` is not modelled; retry counts are `nat`.
- The client's delay between polls is not modelled. So is the TaskCanceledException that `Task.Delay` throws on a cancelled token. Each turn of the poll loop is one `PollStep`.
- The converter worker, PuppeteerConverter, ConvertTaskWatcher, the host wiring and the two `Program` files are not modelled, because they are outside the bus and the bookkeeping. The file store is the identity on paths, as its debug overload is.
- PersistentConnection.CreateModel: the "throws InvalidOperationException only if `TryConnect` returned false" direction is stated as a disjunction. The same exception type may also come out of the factory or out of the client library's `CreateModel`, and a thrown value does not record its origin.
- ConverterServer.OnProcessFinished: requires that every stored record sits under its own id (`ProcessStorage.Keyed`), because the model saves the updated record through `SaveProcess`. Every store built by `SaveProcess` from an empty store satisfies this, and the same requirement is on `RunProcess`, `StartConvert` and the client operations that call them.

## Findings

| source | as written | input that shows it | evidently intended | confidence | as-written member | corrected member |
|---|---|---|---|---|---|---|
| HtmlToPdfConsole/MessageHab.cs:117-131 | A nack removes the process's callback and then re-enqueues the message. When the resend is acked, no callback is found, so the task the caller awaits stays pending forever. A second nack drops the message. | `StartProcessAsync(path, id)`, then `SendMessages` (message is number 1), then nack of 1, then `SendMessages` (resent as number 2), then ack of 2 | A nack re-enqueues the message and keeps the callback, so that the ack of the resend completes the task | not executed | MessageHab.NackedResendLeavesTaskOrphaned | MessageHab.NackedResendIsConfirmedWhenCorrected |
