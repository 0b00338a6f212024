/**
  The RabbitMQ event bus as a trace of what it does, in order.

  `Publish` runs two nested retry policies: the outer one (`doWithChannel`)
  retries the whole "get a channel, declare the exchange, publish" action on
  AlreadyClosedException; the inner one retries only `BasicPublish`, on
  BrokerUnreachableException and SocketException. Before each retry a policy
  logs a warning and sleeps `2^k` seconds; the trace records that pause where
  it happens. The bus sees the persistent connection only through
  `CreateModel`, so what each call of it yields, like what each broker call
  yields, is part of the `World`.
 */
module RabbitBus {
  import opened Wrappers
  import opened Errors
  import opened Retry
  import Subscriptions

  /** `BROKER_NAME`: the single exchange every event goes through. */
  const BrokerName: string := "converter_event_bus"

  /** The value of `ExchangeType.Direct`. */
  const Direct: string := "direct"

  /** An integration event: its `Id` and the simple name of its runtime type. */
  datatype Event = Event(id: nat, typeName: string)

  /** The serialized event; the JSON encoding itself is not modelled. */
  datatype Body = Json(event: Event)

  /** The two retry policies of the publish path. */
  datatype Policy = ChannelPolicy | PublishPolicy

  /** One entry of the bus's trace: a broker call, or a policy's pause before a retry. */
  datatype BrokerOp =
    | OpenChannel(channel: nat)
    | ExchangeDeclare(channel: nat, exchange: string, kind: string)
    | QueueDeclare(channel: nat, queue: string, durable: bool, exclusive: bool, autoDelete: bool)
    | SubscribeCallbackException(channel: nat)
    | BasicPublish(channel: nat, exchange: string, routingKey: string, mandatory: bool, persistent: bool, body: Body)
    | CloseChannel(channel: nat)
    | Pause(policy: Policy, seconds: nat)  // the `onRetry` warning, then the sleep

  datatype Bus = Bus(queueName: string, retryCount: nat, consumerChannel: Option<nat>, trace: seq<BrokerOp>)

  /**
    The outside world, per outer try `i` and inner try `j`: the channel
    `CreateModel` returns or the exception it throws, the exception (if any)
    `ExchangeDeclare` throws, and the exception (if any) `BasicPublish` throws.
   */
  datatype World = World(
    acquire: nat -> Attempt<nat>,
    declare: nat -> Option<Fault>,
    publish: (nat, nat) -> Option<Fault>)

  /** The result of a bus operation: the new bus and what the operation returned or threw. */
  datatype Outcome = Outcome(bus: Bus, result: Attempt<()>)

  /** A new bus: no consumer channel, nothing sent. */
  function Create(queueName: string, retryCount: nat): (b: Bus)
    ensures b.consumerChannel.None? && b.trace == []
  {
    Bus(queueName, retryCount, None, [])
  }

  /** `GetEventName`: the simple name of the event's runtime type. */
  function GetEventName(e: Event): string
  {
    e.typeName
  }

  /**
    The routing key of a publish is the event's runtime type name, while the
    registry keys an event by the static type argument: the two agree exactly
    when the runtime type has the static type's simple name, whatever event
    is passed.
   */
  lemma RoutingKeyVersusEventKey(e: Event, staticType: Subscriptions.TypeRef)
    ensures GetEventName(e) == Subscriptions.GetEventKey(staticType, Some(e)) <==> e.typeName == staticType.name
    ensures GetEventName(e) == Subscriptions.GetEventKey(staticType, Some(e)) <==>
      GetEventName(e) == Subscriptions.GetEventKey<Event>(staticType, None)
  {
  }

  /** `EventToByteArray`. */
  function EventToByteArray(e: Event): Body
  {
    Json(e)
  }

  /** `DeclareEchange`: a direct exchange named `BROKER_NAME`. */
  function DeclareExchange(channel: nat): BrokerOp
  {
    ExchangeDeclare(channel, BrokerName, Direct)
  }

  /** The only `BasicPublish` the bus issues: fixed exchange, mandatory, persistent. */
  function PublishOp(channel: nat, eventName: string, body: Body): BrokerOp
  {
    BasicPublish(channel, BrokerName, eventName, true, true, body)
  }

  /** The faults the inner (publish) policy retries. */
  predicate IsPublishRetryable(f: Fault)
  {
    f == BrokerUnreachable || f == SocketError
  }

  /** The fault the outer (channel) policy retries. */
  predicate IsChannelClosed(f: Fault)
  {
    f == AlreadyClosed
  }

  /** Every publish in `ops` is the bus's publish of `body` under `eventName`, on some channel. */
  predicate PublishesOnly(ops: seq<BrokerOp>, eventName: string, body: Body)
  {
    forall x :: x in ops && x.BasicPublish? ==> x == PublishOp(x.channel, eventName, body)
  }

  /** On every channel, the exchange is declared before anything is published on it. */
  predicate DeclaredBeforePublish(t: seq<BrokerOp>)
  {
    forall i :: 0 <= i < |t| && t[i].BasicPublish? ==>
      exists j :: 0 <= j < i && t[j] == DeclareExchange(t[i].channel)
  }

  lemma DeclaredConcat(a: seq<BrokerOp>, b: seq<BrokerOp>)
    requires DeclaredBeforePublish(b)
    ensures DeclaredBeforePublish(a) ==> DeclaredBeforePublish(a + b)
  {
    if DeclaredBeforePublish(a) {
      var t := a + b;
      forall i | 0 <= i < |t| && t[i].BasicPublish?
        ensures exists j :: 0 <= j < i && t[j] == DeclareExchange(t[i].channel)
      {
        if i < |a| {
          assert t[i] == a[i];
          var j :| 0 <= j < i && a[j] == DeclareExchange(a[i].channel);
          assert t[j] == a[j];
        } else {
          assert t[i] == b[i - |a|];
          var j :| 0 <= j < i - |a| && b[j] == DeclareExchange(b[i - |a|].channel);
          assert t[|a| + j] == b[j];
        }
      }
    }
  }

  lemma {:induction false} DeclaredEffectsOf(step: nat -> Try<(), BrokerOp>, k: nat, n: nat)
    requires forall i :: k <= i < k + n ==> DeclaredBeforePublish(step(i).effects)
    ensures DeclaredBeforePublish(EffectsOf(step, k, n))
    decreases n
  {
    if n > 0 {
      DeclaredEffectsOf(step, k + 1, n - 1);
      DeclaredConcat(step(k).effects, EffectsOf(step, k + 1, n - 1));
    }
  }

  lemma {:induction false} PublishesOnlyEffectsOf(step: nat -> Try<(), BrokerOp>, k: nat, n: nat, eventName: string, body: Body)
    requires forall i :: k <= i < k + n ==> PublishesOnly(step(i).effects, eventName, body)
    ensures PublishesOnly(EffectsOf(step, k, n), eventName, body)
    decreases n
  {
    if n > 0 {
      PublishesOnlyEffectsOf(step, k + 1, n - 1, eventName, body);
    }
  }

  /** The pause policy `p` takes before its try `k`: none before the first try, `2^k` seconds before retry `k`. */
  function PauseBefore(p: Policy, k: nat): seq<BrokerOp>
  {
    if k == 0 then [] else [Pause(p, SleepSeconds(k))]
  }

  /** Try `k` of policy `p` as it happens: the pause before it, then the try itself. */
  function Delayed(p: Policy, k: nat, t: Try<(), BrokerOp>): Try<(), BrokerOp>
  {
    Try(t.result, PauseBefore(p, k) + t.effects)
  }

  /** `n` tries of the single operation `op` under policy `p`, as they happen: `op`, pause 2 s, `op`, pause 4 s, `op`, ... */
  function Attempts(p: Policy, op: BrokerOp, n: nat): seq<BrokerOp>
    decreases n
  {
    if n == 0 then [] else Attempts(p, op, n - 1) + PauseBefore(p, n - 1) + [op]
  }

  /** Total seconds the pauses in `ops` sleep. */
  function Slept(ops: seq<BrokerOp>): nat
  {
    if ops == [] then 0
    else Slept(ops[..|ops| - 1]) + (if ops[|ops| - 1].Pause? then ops[|ops| - 1].seconds else 0)
  }

  lemma {:induction false} SleptConcat(a: seq<BrokerOp>, b: seq<BrokerOp>)
    ensures Slept(a + b) == Slept(a) + Slept(b)
    decreases |b|
  {
    if b != [] {
      var b' := b[..|b| - 1];
      assert (a + b)[..|a + b| - 1] == a + b';
      SleptConcat(a, b');
    } else {
      assert a + b == a;
    }
  }

  /** A run of tries of `op` holds only `op` and pauses, and holds `op` once it has a try. */
  lemma {:induction false} AttemptsShape(p: Policy, op: BrokerOp, n: nat)
    ensures forall x :: x in Attempts(p, op, n) ==> x == op || x.Pause?
    ensures n >= 1 ==> op in Attempts(p, op, n)
    decreases n
  {
    if n > 0 {
      AttemptsShape(p, op, n - 1);
    }
  }

  /** A pause sleeps its seconds; there is none before a policy's first try. */
  lemma SleptPauseBefore(p: Policy, k: nat)
    ensures Slept(PauseBefore(p, k)) == if k == 0 then 0 else Pow2(k)
  {
    assert PauseBefore(p, k)[..0] == [];
  }

  /** An operation that is not a pause sleeps nothing. */
  lemma SleptOp(op: BrokerOp)
    requires !op.Pause?
    ensures Slept([op]) == 0
  {
    assert [op][..0] == [];
  }

  /** The pauses between `n >= 1` tries sleep `2 + 4 + ... + 2^(n-1) = 2^n - 2` seconds. */
  lemma {:induction false} SleptAttempts(p: Policy, op: BrokerOp, n: nat)
    requires !op.Pause? && n >= 1
    ensures Slept(Attempts(p, op, n)) == Pow2(n) - 2
    decreases n
  {
    var before := Attempts(p, op, n - 1);
    SleptConcat(before + PauseBefore(p, n - 1), [op]);
    SleptConcat(before, PauseBefore(p, n - 1));
    SleptOp(op);
    SleptPauseBefore(p, n - 1);
    if n > 1 {
      SleptAttempts(p, op, n - 1);
    }
  }

  /** A policy whose try `j` is the pause before it and then `op` has, over `n` tries, the effects `Attempts(p, op, n)`. */
  lemma {:induction false} EffectsOfAttempts(step: nat -> Try<(), BrokerOp>, p: Policy, op: BrokerOp, n: nat)
    requires forall j :: 0 <= j < n ==> step(j).effects == PauseBefore(p, j) + [op]
    ensures EffectsOf(step, 0, n) == Attempts(p, op, n)
    decreases n
  {
    if n > 0 {
      EffectsOfAttempts(step, p, op, n - 1);
      EffectsOfSnoc(step, 0, n - 1);
    }
  }

  /** `publishEventToChannel`: one `BasicPublish` call and whatever it throws. */
  function PublishEventToChannel(channel: nat, eventName: string, body: Body, fault: Option<Fault>): (t: Try<(), BrokerOp>)
    ensures t.effects == [PublishOp(channel, eventName, body)]
    ensures t.result.Raised? <==> fault.Some?
    ensures t.result.Raised? ==> t.result.fault == fault.value
  {
    Try(if fault.None? then Returned(()) else Raised(fault.value), [PublishOp(channel, eventName, body)])
  }

  /** The inner policy's tries: try `j` is the pause before it, then `publishEventToChannel` with the `j`-th outcome. */
  function PublishStep(channel: nat, eventName: string, body: Body, faults: nat -> Option<Fault>): nat -> Try<(), BrokerOp>
  {
    (j: nat) => Delayed(PublishPolicy, j, PublishEventToChannel(channel, eventName, body, faults(j)))
  }

  /**
    The inner policy (`creatPublishEventPolicy`) around `publishEventToChannel`
    on one channel, `faults(j)` being what the `j`-th `BasicPublish` throws.
   */
  function PublishWithRetry(retryCount: nat, channel: nat, eventName: string, body: Body, faults: nat -> Option<Fault>): (run: Run<(), BrokerOp>)
    ensures 1 <= run.tries <= retryCount + 1
    // every earlier publish threw an exception the policy retries
    ensures forall j :: 0 <= j < run.tries - 1 ==> faults(j).Some? && IsPublishRetryable(faults(j).value)
    // the last publish decides: it went through, or its exception escapes
    ensures run.result.Raised? <==> faults(run.tries - 1).Some?
    ensures run.result.Raised? ==> run.result.fault == faults(run.tries - 1).value
    // a retryable exception escapes only once the budget is spent
    ensures run.result.Raised? && IsPublishRetryable(run.result.fault) ==> run.tries == retryCount + 1
    // retry `k` sleeps `2^k` seconds, and the trace shows each publish with the pauses between them
    ensures |run.sleeps| == run.tries - 1 && forall i :: 0 <= i < |run.sleeps| ==> run.sleeps[i] == SleepSeconds(i + 1)
    ensures run.effects == Attempts(PublishPolicy, PublishOp(channel, eventName, body), run.tries)
  {
    PublishRunResult(retryCount, channel, eventName, body, faults);
    PublishRunEffects(retryCount, channel, eventName, body, faults);
    WaitAndRetry(IsPublishRetryable, retryCount, PublishStep(channel, eventName, body, faults))
  }

  /** The inner run's outcome, in terms of what each `BasicPublish` threw. */
  lemma PublishRunResult(retryCount: nat, channel: nat, eventName: string, body: Body, faults: nat -> Option<Fault>)
    ensures var run := WaitAndRetry(IsPublishRetryable, retryCount, PublishStep(channel, eventName, body, faults));
      && (forall j :: 0 <= j < run.tries - 1 ==> faults(j).Some? && IsPublishRetryable(faults(j).value))
      && (run.result.Raised? <==> faults(run.tries - 1).Some?)
      && (run.result.Raised? ==> run.result.fault == faults(run.tries - 1).value)
  {
    var step := PublishStep(channel, eventName, body, faults);
    forall j: nat
      ensures step(j).result.Raised? <==> faults(j).Some?
      ensures step(j).result.Raised? ==> step(j).result.fault == faults(j).value
    {
    }
  }

  /** The inner run's trace: each publish, with the pauses between them. */
  lemma PublishRunEffects(retryCount: nat, channel: nat, eventName: string, body: Body, faults: nat -> Option<Fault>)
    ensures var run := WaitAndRetry(IsPublishRetryable, retryCount, PublishStep(channel, eventName, body, faults));
      run.effects == Attempts(PublishPolicy, PublishOp(channel, eventName, body), run.tries)
  {
    var step := PublishStep(channel, eventName, body, faults);
    var run := WaitAndRetry(IsPublishRetryable, retryCount, step);
    forall j: nat
      ensures step(j).effects == PauseBefore(PublishPolicy, j) + [PublishOp(channel, eventName, body)]
    {
      assert step(j) == Delayed(PublishPolicy, j, PublishEventToChannel(channel, eventName, body, faults(j)));
    }
    EffectsOfAttempts(step, PublishPolicy, PublishOp(channel, eventName, body), run.tries);
  }

  /** A channel session that declares the exchange and then only publishes on that channel and pauses is declared before every publish. */
  lemma ChannelSessionDeclared(ch: nat, eventName: string, body: Body, publishes: seq<BrokerOp>)
    requires forall x :: x in publishes ==> x == PublishOp(ch, eventName, body) || x.Pause?
    ensures var ops := [OpenChannel(ch), DeclareExchange(ch)] + publishes + [CloseChannel(ch)];
      PublishesOnly(ops, eventName, body) && DeclaredBeforePublish(ops)
  {
    var ops := [OpenChannel(ch), DeclareExchange(ch)] + publishes + [CloseChannel(ch)];
    forall x | 0 <= x < |ops| && ops[x].BasicPublish?
      ensures ops[1] == DeclareExchange(ops[x].channel)
    {
      assert 2 <= x < 2 + |publishes|;
      assert ops[x] == publishes[x - 2];
      assert publishes[x - 2] in publishes;
    }
  }

  /** What the `j`-th `BasicPublish` of outer try `i` throws. */
  function PublishFaults(world: World, i: nat): nat -> Option<Fault>
  {
    (j: nat) => world.publish(i, j)
  }

  /**
    `f` is an exception the world throws on outer try `i`: from `CreateModel`,
    from `ExchangeDeclare`, or from one of the `BasicPublish` tries.
   */
  predicate FaultOf(world: World, retryCount: nat, i: nat, f: Fault)
  {
    || world.acquire(i) == Raised(f)
    || world.declare(i) == Some(f)
    || exists j :: 0 <= j <= retryCount && world.publish(i, j) == Some(f)
  }

  /**
    The action `publishInternal` hands to `doWithChannel`, on outer try `i`:
    get a channel, declare the exchange on it, publish under the inner
    policy; the `using` disposes the channel whether or not that throws.
    What it does once it has a channel is stated by `ChannelWorkOnChannel`.
   */
  function ChannelWork(retryCount: nat, eventName: string, body: Body, world: World, i: nat): (t: Try<(), BrokerOp>)
    // no channel: the exception escapes and nothing happened
    ensures world.acquire(i).Raised? ==> t == Try(Raised(world.acquire(i).fault), [])
  {
    match world.acquire(i)
    case Raised(f) => Try(Raised(f), [])
    case Returned(ch) =>
      match world.declare(i)
      case Some(f) => Try(Raised(f), [OpenChannel(ch), DeclareExchange(ch), CloseChannel(ch)])
      case None =>
        var inner := PublishWithRetry(retryCount, ch, eventName, body, PublishFaults(world, i));
        Try(inner.result, [OpenChannel(ch), DeclareExchange(ch)] + inner.effects + [CloseChannel(ch)])
  }

  /** One outer try publishes only this event, each time on a channel it declared the exchange on first. */
  lemma ChannelWorkTrace(retryCount: nat, eventName: string, body: Body, world: World, i: nat)
    ensures var t := ChannelWork(retryCount, eventName, body, world, i);
      PublishesOnly(t.effects, eventName, body) && DeclaredBeforePublish(t.effects)
  {
    if world.acquire(i).Returned? {
      var ch := world.acquire(i).value;
      if world.declare(i).None? {
        var inner := PublishWithRetry(retryCount, ch, eventName, body, PublishFaults(world, i));
        AttemptsShape(PublishPolicy, PublishOp(ch, eventName, body), inner.tries);
        ChannelSessionDeclared(ch, eventName, body, inner.effects);
      } else {
        var t := [OpenChannel(ch), DeclareExchange(ch), CloseChannel(ch)];
        assert forall k :: 0 <= k < |t| ==> !t[k].BasicPublish?;
      }
    }
  }

  /**
    Outer try `i` once `CreateModel` returned a channel: the channel is opened
    and the exchange declared on it, and it is closed at the end whatever
    happened in between. A declare fault escapes; otherwise the inner
    policy's publishes run on the channel and its outcome is the try's.
   */
  lemma ChannelWorkOnChannel(retryCount: nat, eventName: string, body: Body, world: World, i: nat)
    requires world.acquire(i).Returned?
    ensures var t := ChannelWork(retryCount, eventName, body, world, i);
      var ch := world.acquire(i).value;
      && |t.effects| >= 3
      && t.effects[..2] == [OpenChannel(ch), DeclareExchange(ch)]
      && t.effects[|t.effects| - 1] == CloseChannel(ch)
      && (world.declare(i).Some? ==>
            t == Try(Raised(world.declare(i).value), [OpenChannel(ch), DeclareExchange(ch), CloseChannel(ch)]))
      && (world.declare(i).None? ==>
            var inner := PublishWithRetry(retryCount, ch, eventName, body, PublishFaults(world, i));
            t == Try(inner.result, [OpenChannel(ch), DeclareExchange(ch)] + inner.effects + [CloseChannel(ch)]))
  {
  }

  /** An outer try that returns has published the event on its channel. */
  lemma ChannelWorkPublished(retryCount: nat, eventName: string, body: Body, world: World, i: nat)
    ensures var t := ChannelWork(retryCount, eventName, body, world, i);
      t.result.Returned? ==>
        && world.acquire(i).Returned? && world.declare(i).None?
        && PublishOp(world.acquire(i).value, eventName, body) in t.effects
  {
    var t := ChannelWork(retryCount, eventName, body, world, i);
    if t.result.Returned? {
      var ch := world.acquire(i).value;
      var inner := PublishWithRetry(retryCount, ch, eventName, body, PublishFaults(world, i));
      AttemptsShape(PublishPolicy, PublishOp(ch, eventName, body), inner.tries);
    }
  }

  /** An outer try that throws passes on an exception the world threw on that try. */
  lemma ChannelWorkFault(retryCount: nat, eventName: string, body: Body, world: World, i: nat)
    ensures var t := ChannelWork(retryCount, eventName, body, world, i);
      t.result.Raised? ==> FaultOf(world, retryCount, i, t.result.fault)
  {
    var t := ChannelWork(retryCount, eventName, body, world, i);
    if t.result.Raised? && world.acquire(i).Returned? && world.declare(i).None? {
      var faults := PublishFaults(world, i);
      var inner := PublishWithRetry(retryCount, world.acquire(i).value, eventName, body, faults);
      assert faults(inner.tries - 1) == world.publish(i, inner.tries - 1);
    }
  }

  /** The outer policy's tries: try `i` is the pause before it, then `ChannelWork`. */
  function ChannelStep(retryCount: nat, eventName: string, body: Body, world: World): nat -> Try<(), BrokerOp>
  {
    (i: nat) => Delayed(ChannelPolicy, i, ChannelWork(retryCount, eventName, body, world, i))
  }

  /** A pause is neither a publish nor a declaration, so prefixing one keeps both trace properties. */
  lemma DelayedKeepsTraceProperties(p: Policy, k: nat, t: Try<(), BrokerOp>, eventName: string, body: Body)
    ensures PublishesOnly(t.effects, eventName, body) ==> PublishesOnly(Delayed(p, k, t).effects, eventName, body)
    ensures DeclaredBeforePublish(t.effects) ==> DeclaredBeforePublish(Delayed(p, k, t).effects)
  {
    if DeclaredBeforePublish(t.effects) {
      assert DeclaredBeforePublish(PauseBefore(p, k));
      DeclaredConcat(PauseBefore(p, k), t.effects);
    }
  }

  /** The outer policy (`doWithChannel`) around `ChannelWork`. */
  function PublishRun(retryCount: nat, eventName: string, body: Body, world: World): (run: Run<(), BrokerOp>)
    ensures PublishesOnly(run.effects, eventName, body)
    ensures DeclaredBeforePublish(run.effects)
    ensures 1 <= run.tries <= retryCount + 1
    // every earlier outer try found the channel closed
    ensures forall i :: 0 <= i < run.tries - 1 ==>
      ChannelWork(retryCount, eventName, body, world, i).result.Raised?
      && IsChannelClosed(ChannelWork(retryCount, eventName, body, world, i).result.fault)
    // the last outer try decides
    ensures run.result == ChannelWork(retryCount, eventName, body, world, run.tries - 1).result
    // a closed channel escapes only once the budget is spent
    ensures run.result.Raised? && IsChannelClosed(run.result.fault) ==> run.tries == retryCount + 1
    // retry `k` is preceded by the channel policy's pause of `2^k` seconds
    ensures |run.sleeps| == run.tries - 1 && forall i :: 0 <= i < |run.sleeps| ==> run.sleeps[i] == SleepSeconds(i + 1)
    ensures forall i :: 1 <= i < run.tries ==> Pause(ChannelPolicy, SleepSeconds(i)) in run.effects
    // success means the event was published; failure passes on an exception the world threw
    ensures run.result.Returned? ==>
      && world.acquire(run.tries - 1).Returned?
      && PublishOp(world.acquire(run.tries - 1).value, eventName, body) in run.effects
    ensures run.result.Raised? ==> FaultOf(world, retryCount, run.tries - 1, run.result.fault)
    // only AlreadyClosedException is retried around CreateModel: anything else it throws escapes at once
    ensures world.acquire(0).Raised? && !IsChannelClosed(world.acquire(0).fault) ==>
      run == Run(Raised(world.acquire(0).fault), [], [], 1)
  {
    var step := ChannelStep(retryCount, eventName, body, world);
    var run := WaitAndRetry(IsChannelClosed, retryCount, step);
    PublishRunOutcome(retryCount, eventName, body, world);
    PublishRunTraceProperties(retryCount, eventName, body, world, run.tries);
    PublishRunPauses(retryCount, eventName, body, world, run.tries);
    PublishRunEnds(retryCount, eventName, body, world);
    run
  }

  /** How the outer run ends: a return has published on the last channel; a throw passes on the world's exception. */
  lemma PublishRunEnds(retryCount: nat, eventName: string, body: Body, world: World)
    ensures var run := WaitAndRetry(IsChannelClosed, retryCount, ChannelStep(retryCount, eventName, body, world));
      && (run.result.Returned? ==>
            && world.acquire(run.tries - 1).Returned?
            && PublishOp(world.acquire(run.tries - 1).value, eventName, body) in run.effects)
      && (run.result.Raised? ==> FaultOf(world, retryCount, run.tries - 1, run.result.fault))
      && (world.acquire(0).Raised? && !IsChannelClosed(world.acquire(0).fault) ==>
            run == Run(Raised(world.acquire(0).fault), [], [], 1))
  {
    var step := ChannelStep(retryCount, eventName, body, world);
    var run := WaitAndRetry(IsChannelClosed, retryCount, step);
    assert step(run.tries - 1) == Delayed(ChannelPolicy, run.tries - 1, ChannelWork(retryCount, eventName, body, world, run.tries - 1));
    ChannelStepPublished(retryCount, eventName, body, world, run.tries - 1);
    var ch := if world.acquire(run.tries - 1).Returned? then world.acquire(run.tries - 1).value else 0;
    LastTryInRun(IsChannelClosed, retryCount, step, PublishOp(ch, eventName, body));
    ChannelWorkFault(retryCount, eventName, body, world, run.tries - 1);
    PublishRunFirstFault(retryCount, eventName, body, world);
  }

  /** The outer run's outcome, in terms of `ChannelWork`. */
  lemma PublishRunOutcome(retryCount: nat, eventName: string, body: Body, world: World)
    ensures var run := WaitAndRetry(IsChannelClosed, retryCount, ChannelStep(retryCount, eventName, body, world));
      && (forall i :: 0 <= i < run.tries - 1 ==>
            ChannelWork(retryCount, eventName, body, world, i).result.Raised?
            && IsChannelClosed(ChannelWork(retryCount, eventName, body, world, i).result.fault))
      && run.result == ChannelWork(retryCount, eventName, body, world, run.tries - 1).result
  {
    var step := ChannelStep(retryCount, eventName, body, world);
    var run := WaitAndRetry(IsChannelClosed, retryCount, step);
    forall i | 0 <= i < run.tries
      ensures step(i).result == ChannelWork(retryCount, eventName, body, world, i).result
    {
    }
  }

  /** Something other than AlreadyClosedException from the first `CreateModel` escapes at once. */
  lemma PublishRunFirstFault(retryCount: nat, eventName: string, body: Body, world: World)
    ensures world.acquire(0).Raised? && !IsChannelClosed(world.acquire(0).fault) ==>
      WaitAndRetry(IsChannelClosed, retryCount, ChannelStep(retryCount, eventName, body, world))
        == Run(Raised(world.acquire(0).fault), [], [], 1)
  {
    var step := ChannelStep(retryCount, eventName, body, world);
    assert step(0) == ChannelWork(retryCount, eventName, body, world, 0);
    UnhandledFaultNotRetried(IsChannelClosed, retryCount, step);
  }

  /** The outer run's first `n` tries keep `PublishesOnly` and `DeclaredBeforePublish`. */
  lemma PublishRunTraceProperties(retryCount: nat, eventName: string, body: Body, world: World, n: nat)
    ensures var step := ChannelStep(retryCount, eventName, body, world);
      PublishesOnly(EffectsOf(step, 0, n), eventName, body) && DeclaredBeforePublish(EffectsOf(step, 0, n))
  {
    var step := ChannelStep(retryCount, eventName, body, world);
    forall i | 0 <= i < n
      ensures PublishesOnly(step(i).effects, eventName, body) && DeclaredBeforePublish(step(i).effects)
    {
      ChannelWorkTrace(retryCount, eventName, body, world, i);
      DelayedKeepsTraceProperties(ChannelPolicy, i, ChannelWork(retryCount, eventName, body, world, i), eventName, body);
    }
    PublishesOnlyEffectsOf(step, 0, n, eventName, body);
    DeclaredEffectsOf(step, 0, n);
  }

  /** Each of the first `n` outer tries after the first appears in the trace with its pause. */
  lemma PublishRunPauses(retryCount: nat, eventName: string, body: Body, world: World, n: nat)
    ensures forall i :: 1 <= i < n ==>
      Pause(ChannelPolicy, SleepSeconds(i)) in EffectsOf(ChannelStep(retryCount, eventName, body, world), 0, n)
  {
    var step := ChannelStep(retryCount, eventName, body, world);
    forall i | 1 <= i < n
      ensures Pause(ChannelPolicy, SleepSeconds(i)) in EffectsOf(step, 0, n)
    {
      assert step(i).effects[0] == Pause(ChannelPolicy, SleepSeconds(i));
      EffectsOfContains(step, 0, n, i, Pause(ChannelPolicy, SleepSeconds(i)));
    }
  }

  /** An outer try that returns, pause included, holds the publish on the channel `CreateModel` gave it. */
  lemma ChannelStepPublished(retryCount: nat, eventName: string, body: Body, world: World, i: nat)
    ensures var s := ChannelStep(retryCount, eventName, body, world)(i);
      s.result.Returned? ==>
        world.acquire(i).Returned? && PublishOp(world.acquire(i).value, eventName, body) in s.effects
  {
    var t := ChannelWork(retryCount, eventName, body, world, i);
    ChannelWorkPublished(retryCount, eventName, body, world, i);
    assert ChannelStep(retryCount, eventName, body, world)(i) == Delayed(ChannelPolicy, i, t);
  }

  /** `Publish` / `publishInternal`: append what the outer policy did to the trace. */
  function Publish(bus: Bus, e: Event, world: World): (r: Outcome)
    ensures r.bus.queueName == bus.queueName && r.bus.retryCount == bus.retryCount
    ensures r.bus.consumerChannel == bus.consumerChannel
    ensures bus.trace <= r.bus.trace
    // routing key = runtime type name; fixed exchange; mandatory; persistent
    ensures PublishesOnly(r.bus.trace[|bus.trace|..], e.typeName, Json(e))
    ensures DeclaredBeforePublish(bus.trace) ==> DeclaredBeforePublish(r.bus.trace)
    // success means the event went out
    ensures r.result.Returned? ==> exists ch :: PublishOp(ch, e.typeName, Json(e)) in r.bus.trace[|bus.trace|..]
    // a failure is an exception the world threw on one of the outer tries
    ensures r.result.Raised? ==> exists i :: 0 <= i <= bus.retryCount && FaultOf(world, bus.retryCount, i, r.result.fault)
    // a closed channel escapes only after the outer policy paused before each of its retries
    ensures r.result.Raised? && IsChannelClosed(r.result.fault) ==>
      forall i :: 1 <= i <= bus.retryCount ==> Pause(ChannelPolicy, SleepSeconds(i)) in r.bus.trace[|bus.trace|..]
    // only AlreadyClosedException is retried around CreateModel: anything else it throws escapes at once
    ensures world.acquire(0).Raised? && !IsChannelClosed(world.acquire(0).fault) ==>
      r == Outcome(bus, Raised(world.acquire(0).fault))
  {
    var run := PublishRun(bus.retryCount, GetEventName(e), EventToByteArray(e), world);
    DeclaredConcat(bus.trace, run.effects);
    var trace := bus.trace + run.effects;
    assert trace[|bus.trace|..] == run.effects;
    assert run.result.Returned? ==> PublishOp(world.acquire(run.tries - 1).value, e.typeName, Json(e)) in trace[|bus.trace|..];
    assert run.result.Raised? ==> FaultOf(world, bus.retryCount, run.tries - 1, run.result.fault);
    Outcome(bus.(trace := trace), run.result)
  }

  /** Outer try `i` on a live channel whose first publish goes through: open, declare, publish once, close. */
  lemma ChannelWorkFirstPublish(retryCount: nat, eventName: string, body: Body, world: World, i: nat, ch: nat)
    requires world.acquire(i) == Returned(ch) && world.declare(i).None? && world.publish(i, 0).None?
    ensures ChannelWork(retryCount, eventName, body, world, i) == Try(Returned(()),
      [OpenChannel(ch), DeclareExchange(ch), PublishOp(ch, eventName, body), CloseChannel(ch)])
  {
    var faults := PublishFaults(world, i);
    var inner := PublishWithRetry(retryCount, ch, eventName, body, faults);
    assert faults(0).None?;
    assert inner.tries == 1;
    assert Attempts(PublishPolicy, PublishOp(ch, eventName, body), 1) == [PublishOp(ch, eventName, body)];
  }

  /** `Publish` appends the outer policy's run to the trace and passes on its result. */
  lemma PublishIsRun(bus: Bus, e: Event, world: World)
    ensures var run := WaitAndRetry(IsChannelClosed, bus.retryCount,
                                    ChannelStep(bus.retryCount, GetEventName(e), EventToByteArray(e), world));
      Publish(bus, e, world) == Outcome(bus.(trace := bus.trace + run.effects), run.result)
  {
  }

  /** The outer run when its first try opens a live channel and publishes first time. */
  lemma HappyRun(retryCount: nat, eventName: string, body: Body, world: World, ch: nat)
    requires world.acquire(0) == Returned(ch) && world.declare(0).None? && world.publish(0, 0).None?
    ensures WaitAndRetry(IsChannelClosed, retryCount, ChannelStep(retryCount, eventName, body, world)) == Run(Returned(()),
      [OpenChannel(ch), DeclareExchange(ch), PublishOp(ch, eventName, body), CloseChannel(ch)], [], 1)
  {
    ChannelWorkFirstPublish(retryCount, eventName, body, world, 0, ch);
    var ops := [OpenChannel(ch), DeclareExchange(ch), PublishOp(ch, eventName, body), CloseChannel(ch)];
    var step := ChannelStep(retryCount, eventName, body, world);
    assert step(0) == Try(Returned(()), [] + ops);
    FirstSuccessRunsOnce(IsChannelClosed, retryCount, step);
  }

  /** With a live channel and a publish that goes through first time, one event is exactly one message, with no pause. */
  lemma PublishHappyPath(bus: Bus, e: Event, world: World, ch: nat)
    requires world.acquire(0) == Returned(ch) && world.declare(0).None? && world.publish(0, 0).None?
    ensures Publish(bus, e, world) == Outcome(
      bus.(trace := bus.trace + [OpenChannel(ch), DeclareExchange(ch), PublishOp(ch, e.typeName, Json(e)), CloseChannel(ch)]),
      Returned(()))
  {
    HappyRun(bus.retryCount, GetEventName(e), EventToByteArray(e), world, ch);
    PublishIsRun(bus, e, world);
  }

  /** Outer try `i` on a live channel whose publishes all fail with `f`: the inner policy spends its budget, pausing between publishes, then the channel is closed. */
  lemma ChannelWorkInnerExhausted(retryCount: nat, eventName: string, body: Body, world: World, i: nat, ch: nat, f: Fault)
    requires IsPublishRetryable(f)
    requires world.acquire(i) == Returned(ch) && world.declare(i).None?
    requires forall j :: 0 <= j <= retryCount ==> world.publish(i, j) == Some(f)
    ensures ChannelWork(retryCount, eventName, body, world, i) == Try(Raised(f),
      [OpenChannel(ch), DeclareExchange(ch)] + Attempts(PublishPolicy, PublishOp(ch, eventName, body), retryCount + 1) + [CloseChannel(ch)])
  {
    var faults := PublishFaults(world, i);
    var inner := PublishWithRetry(retryCount, ch, eventName, body, faults);
    assert faults(inner.tries - 1) == world.publish(i, inner.tries - 1);
  }

  /** The outer run when the first channel's publishes all fail with a fault the outer policy does not handle. */
  lemma InnerExhaustedRun(retryCount: nat, eventName: string, body: Body, world: World, ch: nat, f: Fault)
    requires IsPublishRetryable(f)
    requires world.acquire(0) == Returned(ch) && world.declare(0).None?
    requires forall j :: 0 <= j <= retryCount ==> world.publish(0, j) == Some(f)
    ensures WaitAndRetry(IsChannelClosed, retryCount, ChannelStep(retryCount, eventName, body, world)) == Run(Raised(f),
      [OpenChannel(ch), DeclareExchange(ch)] + Attempts(PublishPolicy, PublishOp(ch, eventName, body), retryCount + 1) + [CloseChannel(ch)],
      [], 1)
  {
    ChannelWorkInnerExhausted(retryCount, eventName, body, world, 0, ch, f);
    var ops := [OpenChannel(ch), DeclareExchange(ch)] + Attempts(PublishPolicy, PublishOp(ch, eventName, body), retryCount + 1) + [CloseChannel(ch)];
    var step := ChannelStep(retryCount, eventName, body, world);
    assert step(0) == Try(Raised(f), [] + ops);
    UnhandledFaultNotRetried(IsChannelClosed, retryCount, step);
  }

  /** One channel session around `n` publish attempts sleeps `2^(n) - 2` seconds, all in the inner policy's pauses. */
  lemma SleptSession(ch: nat, op: BrokerOp, n: nat)
    requires !op.Pause? && n >= 1
    ensures Slept([OpenChannel(ch), DeclareExchange(ch)] + Attempts(PublishPolicy, op, n) + [CloseChannel(ch)]) == Pow2(n) - 2
  {
    var attempts := Attempts(PublishPolicy, op, n);
    SleptAttempts(PublishPolicy, op, n);
    SleptConcat([OpenChannel(ch), DeclareExchange(ch)], attempts);
    SleptConcat([OpenChannel(ch), DeclareExchange(ch)] + attempts, [CloseChannel(ch)]);
    assert Slept([OpenChannel(ch), DeclareExchange(ch)]) == 0 by {
      assert [OpenChannel(ch), DeclareExchange(ch)][..1] == [OpenChannel(ch)];
      assert [OpenChannel(ch)][..0] == [];
    }
    assert Slept([CloseChannel(ch)]) == 0 by {
      assert [CloseChannel(ch)][..0] == [];
    }
  }

  /**
    A broker that stays unreachable during `BasicPublish` exhausts the inner
    policy: `retryCount + 1` publishes on the one channel with a pause of
    `2^k` seconds before publish `k`, `2^(retryCount+1) - 2` seconds in all;
    then the fault escapes, and the outer policy, which handles only
    AlreadyClosedException, does not retry.
   */
  lemma PublishInnerExhaustion(bus: Bus, e: Event, world: World, ch: nat, f: Fault)
    requires IsPublishRetryable(f)
    requires world.acquire(0) == Returned(ch) && world.declare(0).None?
    requires forall j :: 0 <= j <= bus.retryCount ==> world.publish(0, j) == Some(f)
    ensures var session := [OpenChannel(ch), DeclareExchange(ch)]
                           + Attempts(PublishPolicy, PublishOp(ch, e.typeName, Json(e)), bus.retryCount + 1)
                           + [CloseChannel(ch)];
      && Publish(bus, e, world) == Outcome(bus.(trace := bus.trace + session), Raised(f))
      && Slept(session) == Pow2(bus.retryCount + 1) - 2
  {
    var name, body := GetEventName(e), EventToByteArray(e);
    InnerExhaustedRun(bus.retryCount, name, body, world, ch, f);
    PublishIsRun(bus, e, world);
    SleptSession(ch, PublishOp(ch, name, body), bus.retryCount + 1);
  }

  /** The outer run when the first channel is found closed and the second publishes first time. */
  lemma ClosedThenHappyRun(retryCount: nat, eventName: string, body: Body, world: World, ch: nat)
    requires retryCount >= 1
    requires world.acquire(0) == Raised(AlreadyClosed)
    requires world.acquire(1) == Returned(ch) && world.declare(1).None? && world.publish(1, 0).None?
    ensures WaitAndRetry(IsChannelClosed, retryCount, ChannelStep(retryCount, eventName, body, world)) == Run(Returned(()),
      [Pause(ChannelPolicy, 2), OpenChannel(ch), DeclareExchange(ch), PublishOp(ch, eventName, body), CloseChannel(ch)], [2], 2)
  {
    ChannelWorkFirstPublish(retryCount, eventName, body, world, 1, ch);
    var ops := [Pause(ChannelPolicy, 2), OpenChannel(ch), DeclareExchange(ch), PublishOp(ch, eventName, body), CloseChannel(ch)];
    var step := ChannelStep(retryCount, eventName, body, world);
    assert SleepSeconds(1) == 2;
    assert step(0) == Try(Raised(AlreadyClosed), []);
    assert step(1) == Try(Returned(()), ops);
    RetriedOnceThenReturned(IsChannelClosed, retryCount, step);
    assert [] + ops == ops;
  }

  /**
    A channel found closed is retried by the outer policy after a two-second
    pause, on a new channel, with the exchange declared on it again.
   */
  lemma PublishRetriesClosedChannel(bus: Bus, e: Event, world: World, ch: nat)
    requires bus.retryCount >= 1
    requires world.acquire(0) == Raised(AlreadyClosed)
    requires world.acquire(1) == Returned(ch) && world.declare(1).None? && world.publish(1, 0).None?
    ensures Publish(bus, e, world) == Outcome(
      bus.(trace := bus.trace + [Pause(ChannelPolicy, 2), OpenChannel(ch), DeclareExchange(ch),
                                 PublishOp(ch, e.typeName, Json(e)), CloseChannel(ch)]),
      Returned(()))
  {
    ClosedThenHappyRun(bus.retryCount, GetEventName(e), EventToByteArray(e), world, ch);
    PublishIsRun(bus, e, world);
  }

  /** `Subscribe<T, TH>()`: the body is empty; no registry, no broker operation. */
  function Subscribe<V>(bus: Bus, eventType: V, handlerType: V): (r: Bus)
    ensures r == bus
  {
    bus
  }

  /** The stored consumer channel has had the exchange and the configured durable queue declared on it. */
  predicate ConsumerReady(bus: Bus)
  {
    bus.consumerChannel.Some? ==>
      && DeclareExchange(bus.consumerChannel.value) in bus.trace
      && QueueDeclare(bus.consumerChannel.value, bus.queueName, true, false, false) in bus.trace
  }

  /**
    `createConsumerChannel`: get a channel, declare the exchange, declare the
    queue (durable, not exclusive, not auto-deleted), hook the channel's
    callback-exception event, and only then store the channel. An exception
    on the way leaves the stored channel as it was.
   */
  function CreateConsumerChannel(bus: Bus, acquire: Attempt<nat>, declare: Option<Fault>, queueDeclare: Option<Fault>): (r: Outcome)
    ensures r.bus.queueName == bus.queueName && r.bus.retryCount == bus.retryCount
    ensures bus.trace <= r.bus.trace
    ensures r.result.Returned? <==> acquire.Returned? && declare.None? && queueDeclare.None?
    // on success this call made the channel ready, in this order, and stored it
    ensures r.result.Returned? ==>
      && r.bus.consumerChannel == Some(acquire.value)
      && r.bus.trace[|bus.trace|..] == [OpenChannel(acquire.value), DeclareExchange(acquire.value),
           QueueDeclare(acquire.value, bus.queueName, true, false, false), SubscribeCallbackException(acquire.value)]
    // on failure the exception is the one thrown, and the stored channel is untouched
    ensures r.result.Raised? ==> r.bus.consumerChannel == bus.consumerChannel
    ensures r.result.Raised? ==>
      r.result.fault == if acquire.Raised? then acquire.fault else if declare.Some? then declare.value else queueDeclare.value
    ensures ConsumerReady(bus) ==> ConsumerReady(r.bus)
    ensures r.result.Returned? ==> ConsumerReady(r.bus)
    ensures DeclaredBeforePublish(bus.trace) ==> DeclaredBeforePublish(r.bus.trace)
  {
    match acquire
    case Raised(f) => Outcome(bus, Raised(f))
    case Returned(ch) =>
      var opening := [OpenChannel(ch), DeclareExchange(ch)];
      DeclaredConcat(bus.trace, opening);
      if declare.Some? then
        Outcome(bus.(trace := bus.trace + opening), Raised(declare.value))
      else
        var queued := opening + [QueueDeclare(ch, bus.queueName, true, false, false)];
        DeclaredConcat(bus.trace, queued);
        if queueDeclare.Some? then
          Outcome(bus.(trace := bus.trace + queued), Raised(queueDeclare.value))
        else
          var hooked := queued + [SubscribeCallbackException(ch)];
          DeclaredConcat(bus.trace, hooked);
          var trace := bus.trace + hooked;
          assert trace[|bus.trace|..] == hooked;
          assert trace[|bus.trace| + 1] == DeclareExchange(ch);
          assert trace[|bus.trace| + 2] == QueueDeclare(ch, bus.queueName, true, false, false);
          Outcome(bus.(consumerChannel := Some(ch), trace := trace), Returned(()))
  }

  /** Publishing keeps a ready consumer channel ready: the trace only grows. */
  lemma PublishKeepsConsumerReady(bus: Bus, e: Event, world: World)
    requires ConsumerReady(bus)
    ensures ConsumerReady(Publish(bus, e, world).bus)
  {
    var r := Publish(bus, e, world);
    assert r.bus.trace == bus.trace + r.bus.trace[|bus.trace|..];
  }
}
