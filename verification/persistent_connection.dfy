/**
  The persistent-connection supervisor: it holds at most one broker
  connection, reconnects through a retrying connection factory, hands out
  channels of the held connection, and reconnects from the connection's
  fault callbacks until it is disposed.

  The factory is not called here: `factory(k)` is what its k-th call (within
  one `TryConnect`) returns or throws. Locks are read sequentially, so the
  second `IsConnected` check under the lock sees what the first one saw.
 */
module PersistentConnection {
  import opened Wrappers
  import opened Errors
  import opened Retry

  /** A broker connection: an identity and whether it reports `IsOpen`. */
  datatype Connection = Connection(id: nat, isOpen: bool)

  /** The three connection events the supervisor listens to. */
  datatype ConnectionEvent = Shutdown | CallbackException | Blocked

  /** What the supervisor does to the outside world. */
  datatype Effect =
    | FactoryCall
    | Subscribe(connection: nat, event: ConnectionEvent)
    | Unsubscribe(connection: nat, event: ConnectionEvent)
    | DisposeConnection(connection: nat)
    | OpenChannel(connection: nat, channel: nat)

  /** A channel (`IModel`) and the connection it belongs to. */
  datatype Channel = Channel(id: nat, connection: nat)

  datatype Supervisor = Supervisor(retryCount: nat, held: Option<Connection>, disposed: bool)

  /** The supervisor after an operation, what the operation returned or threw, and its effects. */
  datatype Step<+T> = Step(state: Supervisor, result: Attempt<T>, effects: seq<Effect>, sleeps: seq<nat>)

  /** A new supervisor holds no connection. */
  function Create(retryCount: nat): (s: Supervisor)
    ensures s.held.None? && !s.disposed && s.retryCount == retryCount
  {
    Supervisor(retryCount, None, false)
  }

  /** `isConnectionOpen`: a non-null connection that reports open. */
  predicate IsConnectionOpen(c: Option<Connection>)
  {
    c.Some? && c.value.isOpen
  }

  /** `IsConnected`: not disposed, and the held connection is open. */
  predicate IsConnected(s: Supervisor)
  {
    !s.disposed && IsConnectionOpen(s.held)
  }

  /** The exceptions the connect policy retries. */
  predicate IsConnectRetryable(f: Fault)
  {
    f == SocketError || f == BrokerUnreachable
  }

  /** `tryCreateConnection`: the factory under a WaitAndRetry policy for socket and broker-unreachable errors. */
  function TryCreateConnection(retryCount: nat, factory: nat -> Attempt<Connection>): (run: Run<Connection, Effect>)
    ensures 1 <= run.tries <= retryCount + 1
    ensures run.effects == Repeat([FactoryCall], run.tries)
    ensures run.result == factory(run.tries - 1)
    ensures forall i :: 0 <= i < run.tries - 1 ==> factory(i).Raised? && IsConnectRetryable(factory(i).fault)
    ensures run.result.Raised? && IsConnectRetryable(run.result.fault) ==> run.tries == retryCount + 1
    ensures |run.sleeps| == run.tries - 1
    ensures forall i :: 0 <= i < |run.sleeps| ==> run.sleeps[i] == SleepSeconds(i + 1)
  {
    var step := (k: nat) => Try(factory(k), [FactoryCall]);
    var run := WaitAndRetry(IsConnectRetryable, retryCount, step);
    EffectsOfUniform(step, 0, run.tries, [FactoryCall]);
    assert forall i :: 0 <= i < run.tries - 1 ==> step(i).result == factory(i);
    run
  }

  /** `clearConnection`: drop the three handlers from a connection and dispose it; nothing for null. */
  function ClearConnection(c: Option<Connection>): (r: seq<Effect>)
    ensures c.None? <==> r == []
    // every effect is about the cleared connection, and disposing it comes last
    ensures c.Some? ==> |r| == 4 && r[3] == DisposeConnection(c.value.id)
    ensures c.Some? ==> forall i :: 0 <= i < 3 ==> r[i].Unsubscribe? && r[i].connection == c.value.id
  {
    match c
    case None => []
    case Some(conn) =>
      [Unsubscribe(conn.id, Shutdown), Unsubscribe(conn.id, CallbackException),
       Unsubscribe(conn.id, Blocked), DisposeConnection(conn.id)]
  }

  /** `subscribeConnection`: attach the three handlers to a connection. */
  function SubscribeConnection(c: Connection): (r: seq<Effect>)
    ensures |r| == 3
    ensures forall i :: 0 <= i < |r| ==> r[i].Subscribe? && r[i].connection == c.id
  {
    [Subscribe(c.id, Shutdown), Subscribe(c.id, CallbackException), Subscribe(c.id, Blocked)]
  }

  /**
    Clearing a connection detaches exactly the handlers that subscribing
    attached, and disposes the connection only after all three are detached.
   */
  lemma ClearUndoesSubscribe(c: Connection, ev: ConnectionEvent)
    ensures Subscribe(c.id, ev) in SubscribeConnection(c) <==> Unsubscribe(c.id, ev) in ClearConnection(Some(c))
    ensures Unsubscribe(c.id, ev) in ClearConnection(Some(c))[..3]
  {
  }

  /**
    `TryConnect`: nothing to do while connected; otherwise run the connect
    policy. An open new connection replaces the old one (which is cleared
    first) and is subscribed to; a connection that is not open is ignored and
    `false` is returned; an exception from the policy propagates.
   */
  function TryConnect(s: Supervisor, factory: nat -> Attempt<Connection>): (r: Step<bool>)
    // fast path: no factory call, nothing changes
    ensures IsConnected(s) ==> r == Step(s, Returned(true), [], [])
    // the supervisor's own settings never change
    ensures r.state.disposed == s.disposed && r.state.retryCount == s.retryCount
    // a held connection is only ever replaced by an open one, and only on success
    ensures r.state.held != s.held ==> IsConnectionOpen(r.state.held) && r.result == Returned(true)
    ensures r.result != Returned(true) ==> r.state == s
    // slow path: the outcome of the connect policy decides
    ensures !IsConnected(s) ==>
      var run := TryCreateConnection(s.retryCount, factory);
      && r.sleeps == run.sleeps
      && (r.result == Returned(true) <==> run.result.Returned? && run.result.value.isOpen)
      && (r.result == Returned(true) ==>
            && r.state.held == Some(run.result.value)
            && r.effects == run.effects + ClearConnection(s.held) + SubscribeConnection(run.result.value))
      && (run.result.Returned? && !run.result.value.isOpen ==> r.result == Returned(false) && r.effects == run.effects)
      && (run.result.Raised? ==> r.result == Raised(run.result.fault) && r.effects == run.effects)
  {
    // the check before the lock and the re-check under it see the same state
    // when operations run one at a time, so one test stands for both
    if IsConnected(s) then
      Step(s, Returned(true), [], [])
    else
      var run := TryCreateConnection(s.retryCount, factory);
      match run.result
      case Raised(f) => Step(s, Raised(f), run.effects, run.sleeps)
      case Returned(c) =>
        if IsConnectionOpen(Some(c)) then
          Step(s.(held := Some(c)), Returned(true), run.effects + ClearConnection(s.held) + SubscribeConnection(c), run.sleeps)
        else
          Step(s, Returned(false), run.effects, run.sleeps)
  }

  /** `IsConnected` is exactly the condition under which `TryConnect` takes its fast path and calls no factory. */
  lemma ConnectedIffNoFactoryCall(s: Supervisor, factory: nat -> Attempt<Connection>)
    ensures IsConnected(s) <==> FactoryCall !in TryConnect(s, factory).effects
  {
    if !IsConnected(s) {
      var run := TryCreateConnection(s.retryCount, factory);
      assert run.effects == [FactoryCall] + Repeat([FactoryCall], run.tries - 1);
      assert TryConnect(s, factory).effects[0] == FactoryCall;
    }
  }

  /**
    When not connected, the connection the first factory call delivers is
    kept, and `TryConnect` succeeds, exactly when `isConnectionOpen` accepts it.
   */
  lemma NewConnectionKeptIffOpen(s: Supervisor, factory: nat -> Attempt<Connection>, c: Connection)
    requires !IsConnected(s) && factory(0) == Returned(c)
    ensures TryConnect(s, factory).result == Returned(true) <==> IsConnectionOpen(Some(c))
    ensures TryConnect(s, factory).result == Returned(true) ==> TryConnect(s, factory).state.held == Some(c)
    ensures !IsConnectionOpen(Some(c)) ==> TryConnect(s, factory) == Step(s, Returned(false), [FactoryCall], [])
  {
    assert Repeat([FactoryCall], 1) == [FactoryCall];
  }

  /** `connection!.CreateModel()` on a supervisor holding a connection; `opening` is what the client library does. */
  function OpenChannelOn(s: Supervisor, opening: Attempt<nat>, effects: seq<Effect>, sleeps: seq<nat>): (r: Step<Channel>)
    requires s.held.Some?
    ensures r.state == s
    ensures r.result.Returned? <==> opening.Returned?
    ensures r.result.Returned? ==> r.result.value == Channel(opening.value, s.held.value.id)
    ensures r.result.Raised? ==> r.result.fault == opening.fault
  {
    match opening
    case Raised(f) => Step(s, Raised(f), effects, sleeps)
    case Returned(ch) => Step(s, Returned(Channel(ch, s.held.value.id)), effects + [OpenChannel(s.held.value.id, ch)], sleeps)
  }

  /**
    `CreateModel`: when not connected and `TryConnect` returns false, throw
    InvalidOperationException; otherwise open a channel on the held connection.
   */
  function CreateModel(s: Supervisor, factory: nat -> Attempt<Connection>, opening: Attempt<nat>): (r: Step<Channel>)
    ensures r.state.disposed == s.disposed && r.state.retryCount == s.retryCount
    // the failure of line 51, in both directions
    ensures !IsConnected(s) && TryConnect(s, factory).result == Returned(false) ==>
      r.result == Raised(NoConnectionAvailable) && r.state == s
    ensures r.result == Raised(NoConnectionAvailable) ==>
      || (!IsConnected(s) && TryConnect(s, factory).result == Returned(false))
      // the same exception type coming out of the factory or the client library
      || TryConnect(s, factory).result == Raised(NoConnectionAvailable)
      || opening == Raised(NoConnectionAvailable)
    // once connected, by the fast path or by a reconnect, the client library decides
    ensures (IsConnected(s) || TryConnect(s, factory).result == Returned(true)) ==>
      && (r.result.Returned? <==> opening.Returned?)
      && (opening.Raised? ==> r.result == Raised(opening.fault))
    // an exception from the reconnect propagates and nothing changes
    ensures !IsConnected(s) && TryConnect(s, factory).result.Raised? ==>
      r.result == Raised(TryConnect(s, factory).result.fault) && r.state == s
    // a channel handed out belongs to the held connection, which is open
    ensures r.result.Returned? ==>
      && IsConnectionOpen(r.state.held)
      && opening.Returned?
      && r.result.value == Channel(opening.value, r.state.held.value.id)
    // while connected no reconnect happens, and the channel is opened on the held connection
    ensures IsConnected(s) ==> r.state == s && FactoryCall !in r.effects && r.sleeps == []
    ensures IsConnected(s) && opening.Returned? ==> r.effects == [OpenChannel(s.held.value.id, opening.value)]
    // after a reconnect the channel is opened on the connection `TryConnect` just stored
    ensures !IsConnected(s) && TryConnect(s, factory).result == Returned(true) ==>
      var t := TryConnect(s, factory);
      && r.state == t.state && r.sleeps == t.sleeps && t.effects <= r.effects
      && (opening.Returned? ==> r.effects == t.effects + [OpenChannel(t.state.held.value.id, opening.value)])
  {
    if !IsConnected(s) then
      var t := TryConnect(s, factory);
      match t.result
      case Raised(f) => Step(s, Raised(f), t.effects, t.sleeps)
      case Returned(ok) =>
        if !ok then Step(s, Raised(NoConnectionAvailable), t.effects, t.sleeps)
        else OpenChannelOn(t.state, opening, t.effects, t.sleeps)
    else
      OpenChannelOn(s, opening, [], [])
  }

  /**
    `Dispose`: the first call sets the disposed flag and runs `clearConnection`
    on the held connection, which unsubscribes from and disposes it but stays
    referenced; later calls do nothing.
   */
  function Dispose(s: Supervisor): (r: Step<()>)
    ensures r.state.disposed && !IsConnected(r.state)
    ensures r.state.held == s.held && r.state.retryCount == s.retryCount
    ensures s.disposed ==> r == Step(s, Returned(()), [], [])
    ensures !s.disposed ==> r.effects == ClearConnection(s.held)
  {
    if s.disposed then Step(s, Returned(()), [], [])
    else Step(s.(disposed := true), Returned(()), ClearConnection(s.held), [])
  }

  /** Disposing twice is disposing once. */
  lemma DisposeIdempotent(s: Supervisor)
    ensures Dispose(Dispose(s).state) == Step(Dispose(s).state, Returned(()), [], [])
  {
  }

  /**
    `OnConnectionShutdown`, `OnCallbackException`, `OnConnectionBlocked`: the
    three handlers share one body, a no-op once disposed and otherwise a
    `TryConnect` whose result is discarded (its exceptions are not).
   */
  function OnConnectionEvent(s: Supervisor, event: ConnectionEvent, factory: nat -> Attempt<Connection>): (r: Step<()>)
    ensures s.disposed ==> r == Step(s, Returned(()), [], [])
    ensures !s.disposed ==>
      var t := TryConnect(s, factory);
      && r.state == t.state && r.effects == t.effects && r.sleeps == t.sleeps
      && (r.result.Raised? <==> t.result.Raised?)
      && (r.result.Raised? ==> r.result.fault == t.result.fault)
  {
    if s.disposed then Step(s, Returned(()), [], [])
    else
      var t := TryConnect(s, factory);
      match t.result
      case Raised(f) => Step(t.state, Raised(f), t.effects, t.sleeps)
      case Returned(_) => Step(t.state, Returned(()), t.effects, t.sleeps)
  }

  /** Every handler behaves the same whichever event fired. */
  lemma EventHandlersAgree(s: Supervisor, e1: ConnectionEvent, e2: ConnectionEvent, factory: nat -> Attempt<Connection>)
    ensures OnConnectionEvent(s, e1, factory) == OnConnectionEvent(s, e2, factory)
  {
  }

  /** Once disposed, no operation makes the supervisor connected again: `disposedValue` is never reset. */
  lemma DisposedIsFinal(s: Supervisor, factory: nat -> Attempt<Connection>, opening: Attempt<nat>, event: ConnectionEvent)
    requires s.disposed
    ensures !IsConnected(s)
    ensures TryConnect(s, factory).state.disposed && !IsConnected(TryConnect(s, factory).state)
    ensures CreateModel(s, factory, opening).state.disposed && !IsConnected(CreateModel(s, factory, opening).state)
    ensures OnConnectionEvent(s, event, factory).state == s
    ensures Dispose(s).state == s
  {
  }

  /**
    `TryConnect` never looks at the disposed flag: after `Dispose` it still
    calls the factory, and an open result replaces the held connection and is
    reported as success, although `IsConnected` stays false.
   */
  lemma DisposedStillReconnects(s: Supervisor, factory: nat -> Attempt<Connection>, c: Connection)
    requires s.disposed
    requires factory(0) == Returned(c) && c.isOpen
    ensures var t := TryConnect(s, factory);
      && t.result == Returned(true)
      && t.state.held == Some(c)
      && t.effects[0] == FactoryCall
      && !IsConnected(t.state)
  {
    var run := TryCreateConnection(s.retryCount, factory);
    assert run.tries == 1;
  }

  /** A fault callback on a live supervisor whose connection dropped reconnects when the factory delivers. */
  lemma FaultCallbackReconnects(s: Supervisor, event: ConnectionEvent, factory: nat -> Attempt<Connection>, c: Connection)
    requires !s.disposed && !IsConnectionOpen(s.held)
    requires factory(0) == Returned(c) && c.isOpen
    ensures var r := OnConnectionEvent(s, event, factory);
      && IsConnected(r.state)
      && r.state.held == Some(c)
      && r.effects == [FactoryCall] + ClearConnection(s.held) + SubscribeConnection(c)
  {
    var run := TryCreateConnection(s.retryCount, factory);
    assert run.tries == 1;
    assert Repeat([FactoryCall], 1) == [FactoryCall];
  }

  /**
    A supervisor that is not connected, whose factory delivers an open
    connection first time, reconnects and hands out a channel of that new
    connection. This holds after `Dispose` too, since `TryConnect` does not
    look at the disposed flag.
   */
  lemma ReconnectThenOpenChannel(s: Supervisor, factory: nat -> Attempt<Connection>, c: Connection, ch: nat)
    requires !IsConnected(s)
    requires factory(0) == Returned(c) && c.isOpen
    ensures var r := CreateModel(s, factory, Returned(ch));
      && r.result == Returned(Channel(ch, c.id))
      && r.state.held == Some(c)
      && r.effects == [FactoryCall] + ClearConnection(s.held) + SubscribeConnection(c) + [OpenChannel(c.id, ch)]
      && r.sleeps == []
  {
    var run := TryCreateConnection(s.retryCount, factory);
    assert run.tries == 1;
    assert Repeat([FactoryCall], 1) == [FactoryCall];
  }

  /**
    With the default budget and a broker that stays unreachable, `TryConnect`
    calls the factory six times, sleeps 2 + 4 + 8 + 16 + 32 = 62 seconds, and
    rethrows; it never reaches its `false` branch.
   */
  lemma UnreachableBrokerExhausts(s: Supervisor, factory: nat -> Attempt<Connection>)
    requires s.retryCount == 5 && !IsConnected(s)
    requires forall i :: 0 <= i <= 5 ==> factory(i) == Raised(BrokerUnreachable)
    ensures var t := TryConnect(s, factory);
      && t.result == Raised(BrokerUnreachable)
      && t.state == s
      && |t.effects| == 6
      && Total(t.sleeps) == 62
  {
    var step := (k: nat) => Try(factory(k), [FactoryCall]);
    Exhaustion(IsConnectRetryable, 5, step);
    var run := TryCreateConnection(5, factory);
    assert run == WaitAndRetry(IsConnectRetryable, 5, step);
    assert Repeat([FactoryCall], 6) == [FactoryCall, FactoryCall, FactoryCall, FactoryCall, FactoryCall, FactoryCall];
  }
}
