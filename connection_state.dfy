/**
 * The client's connection/session state machine: connectivity, the session
 * epoch `instanceIndex`, the stamp used for timeout arithmetic, the watchers
 * that receive every raw event, and a bounded FIFO of exceptions raised off
 * the calling thread.
 *
 * The pure functions over `Session` are the specification; the class
 * `ConnectionState` updates its fields in place and each of its methods is
 * proved to move `Model()` exactly as the corresponding function says. The
 * clock, the ensemble provider's "has the connection string changed" answer,
 * the thread's "session failed" marker and the failures of the handle are
 * parameters.
 */
module Connection {
  import opened Wrappers
  import Strings

  /** Capacity of the background exception queue. */
  const MaxBackgroundExceptions: nat := 10

  /** The coordination service's connection states (`Watcher.Event.KeeperState`). */
  datatype KeeperState =
    | Unknown | Disconnected | NoSyncConnected | SyncConnected | AuthFailed
    | ConnectedReadOnly | SaslAuthenticated | Expired | Closed

  /** The kinds of watched event; `EventNone` carries a connection-state change. */
  datatype EventType =
    | EventNone | NodeCreated | NodeDeleted | NodeDataChanged | NodeChildrenChanged
    | DataWatchRemoved | ChildWatchRemoved

  datatype WatchedEvent = WatchedEvent(eventType: EventType, state: KeeperState, path: Option<string>)

  /** A registered parent watcher, compared by identity. */
  datatype Watcher = Watcher(id: nat)

  /**
   * One call `watcher.process(event)` of the fan-out, with the connectivity
   * and epoch that the watcher observes while it runs.
   */
  datatype Delivery = Delivery(watcher: Watcher, event: WatchedEvent, connected: bool, instanceIndex: nat)

  /** Exceptions: the two the state machine raises itself, and failures of the handle. */
  datatype Error =
    | SessionFailed
    | ConnectionLoss
    | Fault(description: string)
    | IOError(cause: Error)

  /** The coordination-service handle, identified by the epoch whose reset created it. */
  datatype ZkHandle = ZkHandle(instanceIndex: nat)

  /** The observable state of a `ConnectionState`. */
  datatype Session = Session(
    isConnected: bool,
    instanceIndex: nat,
    connectionStartMs: int,
    backgroundExceptions: seq<Error>,
    parentWatchers: seq<Watcher>,
    handle: Option<ZkHandle>)

  /** The queue invariant: never more than the capacity. */
  predicate QueueBounded(s: Session) {
    |s.backgroundExceptions| <= MaxBackgroundExceptions
  }

  // ---------------------------------------------------------------------------
  // Pure parts: the event-state table, the bounded queue, the timeout table
  // ---------------------------------------------------------------------------

  /**
   * `checkState`: the connectivity an event state implies. Only the two
   * connected states turn it on; SaslAuthenticated leaves it as it was.
   */
  function CheckState(state: KeeperState, wasConnected: bool): (r: bool)
    ensures state == SyncConnected || state == ConnectedReadOnly ==> r
    ensures state == SaslAuthenticated ==> r == wasConnected
    ensures r ==> state == SyncConnected || state == ConnectedReadOnly || (state == SaslAuthenticated && wasConnected)
  {
    match state
    case SyncConnected | ConnectedReadOnly => true
    case AuthFailed => false
    case SaslAuthenticated => wasConnected
    case _ => false  // Disconnected, Expired and every other state
  }

  /** The last `n` elements of `s`, or all of `s` when it is shorter. */
  function Newest<T>(s: seq<T>, n: nat): (r: seq<T>)
    ensures |r| == Min(n, |s|)
  {
    s[|s| - Min(n, |s|)..]
  }

  /**
   * `queueBackgroundException`: drop the oldest entries until there is room,
   * then append the new one.
   */
  function OfferBackground(q: seq<Error>, e: Error): (r: seq<Error>)
    ensures |r| == Min(|q| + 1, MaxBackgroundExceptions)
    ensures r == (q + [e])[|q| + 1 - |r|..]
    ensures r[|r| - 1] == e
  {
    Newest(q + [e], MaxBackgroundExceptions)
  }

  /** Queueing several exceptions one after another. */
  function OfferAll(q: seq<Error>, es: seq<Error>): seq<Error>
    decreases es
  {
    if es == [] then q else OfferAll(OfferBackground(q, es[0]), es[1..])
  }

  /** Keeping the newest `n` of a tail of the newest `n` is keeping the newest `n` overall. */
  lemma NewestOfNewest<T>(x: seq<T>, y: seq<T>, n: nat)
    ensures Newest(Newest(x, n) + y, n) == Newest(x + y, n)
  {
    var l := Newest(Newest(x, n) + y, n);
    var r := Newest(x + y, n);
    assert |l| == |r|;
    forall i | 0 <= i < |l| ensures l[i] == r[i] {
      var fromEnd := |l| - i;
      assert l[i] == (Newest(x, n) + y)[|Newest(x, n) + y| - fromEnd];
      assert r[i] == (x + y)[|x + y| - fromEnd];
      if fromEnd > |y| {
        assert Newest(x, n)[|Newest(x, n)| - (fromEnd - |y|)] == x[|x| - (fromEnd - |y|)];
      }
    }
  }

  /** However many exceptions are queued, the queue holds the newest ten of them in order. */
  lemma {:induction false} OfferAllKeepsNewest(q: seq<Error>, es: seq<Error>)
    requires |q| <= MaxBackgroundExceptions
    ensures OfferAll(q, es) == Newest(q + es, MaxBackgroundExceptions)
    decreases es
  {
    if es == [] {
      assert q + es == q;
    } else {
      var q' := OfferBackground(q, es[0]);
      OfferAllKeepsNewest(q', es[1..]);
      NewestOfNewest(q + [es[0]], es[1..], MaxBackgroundExceptions);
      assert q + [es[0]] + es[1..] == q + es;
    }
  }

  /** Fifteen exceptions into an empty queue leave the last ten; the first five are dropped. */
  lemma FifteenExceptionsKeepTheLastTen(es: seq<Error>)
    requires |es| == 15
    ensures OfferAll([], es) == es[5..]
  {
    var empty: seq<Error> := [];
    OfferAllKeepsNewest(empty, es);
    assert empty + es == es;
    assert Newest(es, MaxBackgroundExceptions) == es[|es| - MaxBackgroundExceptions..];
  }

  /** The four outcomes of `checkTimeouts`. */
  datatype TimeoutAction =
    | WithinTimeout                // below the smaller timeout: nothing happens
    | ResetForNewConnectionString  // the ensemble address changed: reset
    | ResetAfterMaxTimeout         // past the larger timeout: reset
    | RaiseConnectionLoss          // between the two timeouts: raise ConnectionLoss

  /** `checkTimeouts`' decision, as a table over `elapsed` and the two timeouts. */
  function TimeoutDecision(elapsed: int, sessionTimeoutMs: int, connectionTimeoutMs: int, hasNewConnectionString: bool)
    : (a: TimeoutAction)
    ensures a == WithinTimeout <==> elapsed < sessionTimeoutMs && elapsed < connectionTimeoutMs
    ensures a == ResetForNewConnectionString <==>
      hasNewConnectionString && (elapsed >= sessionTimeoutMs || elapsed >= connectionTimeoutMs)
    ensures a == ResetAfterMaxTimeout <==>
      !hasNewConnectionString && elapsed > sessionTimeoutMs && elapsed > connectionTimeoutMs
    ensures a == RaiseConnectionLoss <==>
      !hasNewConnectionString && (elapsed >= sessionTimeoutMs || elapsed >= connectionTimeoutMs)
      && (elapsed <= sessionTimeoutMs || elapsed <= connectionTimeoutMs)
  {
    if elapsed < Min(sessionTimeoutMs, connectionTimeoutMs) then WithinTimeout
    else if hasNewConnectionString then ResetForNewConnectionString
    else if elapsed > Max(sessionTimeoutMs, connectionTimeoutMs) then ResetAfterMaxTimeout
    else RaiseConnectionLoss
  }

  /** With a 5000 ms session and a 3000 ms connection timeout. */
  lemma TimeoutExamples()
    ensures TimeoutDecision(2999, 5000, 3000, false) == WithinTimeout
    ensures TimeoutDecision(3000, 5000, 3000, false) == RaiseConnectionLoss
    ensures TimeoutDecision(5000, 5000, 3000, false) == RaiseConnectionLoss
    ensures TimeoutDecision(6000, 5000, 3000, false) == ResetAfterMaxTimeout
    ensures TimeoutDecision(3000, 5000, 3000, true) == ResetForNewConnectionString
  {
  }

  /** `parentWatchers.remove(w)`: drops the first registration of `w`, if any. */
  function RemoveFirst(ws: seq<Watcher>, w: Watcher): (r: seq<Watcher>)
    ensures w !in ws ==> r == ws
    ensures w in ws ==> |r| == |ws| - 1
    ensures w in ws ==>
      exists i :: 0 <= i < |ws| && ws[i] == w && w !in ws[..i] && r == ws[..i] + ws[i + 1..]
  {
    var i := Strings.IndexOf(ws, w);
    if i == -1 then ws else ws[..i] + ws[i + 1..]
  }

  /** Removing a watcher takes exactly one registration of it away and keeps every other. */
  lemma RemoveFirstTakesOneRegistration(ws: seq<Watcher>, w: Watcher)
    ensures multiset(RemoveFirst(ws, w)) == multiset(ws) - multiset{w}
  {
    var i := Strings.IndexOf(ws, w);
    if i != -1 {
      MultisetWithoutPosition(ws, i);
    }
  }

  /** Dropping position `i` removes one copy of `ws[i]` from the multiset. */
  lemma MultisetWithoutPosition(ws: seq<Watcher>, i: nat)
    requires i < |ws|
    ensures multiset(ws[..i] + ws[i + 1..]) == multiset(ws) - multiset{ws[i]}
  {
    var before, after := ws[..i], ws[i + 1..];
    assert ws == before + [ws[i]] + after;
  }

  /** The fan-out: every watcher, in registration order, sees the same event and state. */
  function FanOut(watchers: seq<Watcher>, event: WatchedEvent, connected: bool, instanceIndex: nat)
    : (r: seq<Delivery>)
    ensures |r| == |watchers|
    ensures forall i :: 0 <= i < |r| ==> r[i] == Delivery(watchers[i], event, connected, instanceIndex)
  {
    if watchers == [] then []
    else
      FanOut(watchers[..|watchers| - 1], event, connected, instanceIndex)
        + [Delivery(watchers[|watchers| - 1], event, connected, instanceIndex)]
  }

  // ---------------------------------------------------------------------------
  // Transitions of the state machine
  // ---------------------------------------------------------------------------

  /**
   * `reset`: a new epoch, disconnected, stamped now; then the handle is closed
   * and re-opened, which may fail after the first three effects.
   */
  function ResetStep(s: Session, now: int, failure: Option<Error>): (r: (Session, Outcome<Error>))
    ensures r.0.instanceIndex == s.instanceIndex + 1
    ensures !r.0.isConnected && r.0.connectionStartMs == now
    ensures r.0.backgroundExceptions == s.backgroundExceptions && r.0.parentWatchers == s.parentWatchers
    ensures r.1.Fail? <==> failure.Some?
    ensures failure.Some? ==> r.1.error == failure.value && r.0.handle == s.handle
    ensures failure.None? ==> r.0.handle == Some(ZkHandle(r.0.instanceIndex))
  {
    var bumped := s.(instanceIndex := s.instanceIndex + 1, isConnected := false, connectionStartMs := now);
    match failure
    case None => (bumped.(handle := Some(ZkHandle(bumped.instanceIndex))), Pass)
    case Some(e) => (bumped, Fail(e))
  }

  /**
   * `handleExpiredSession` and `handleNewConnectionString`: a reset whose
   * failure is queued as a background exception instead of being raised.
   */
  function ResetInBackground(s: Session, now: int, failure: Option<Error>): (r: Session)
    ensures r.instanceIndex == s.instanceIndex + 1
    ensures !r.isConnected && r.connectionStartMs == now && r.parentWatchers == s.parentWatchers
    ensures r.backgroundExceptions ==
      if failure.Some? then OfferBackground(s.backgroundExceptions, failure.value) else s.backgroundExceptions
    ensures failure.None? ==> r.handle == Some(ZkHandle(r.instanceIndex))
    ensures failure.Some? ==> r.handle == s.handle
    ensures QueueBounded(s) ==> QueueBounded(r)
  {
    var (t, outcome) := ResetStep(s, now, failure);
    if outcome.Fail? then t.(backgroundExceptions := OfferBackground(t.backgroundExceptions, outcome.error))
    else t
  }

  /** `checkTimeouts`, run while disconnected. */
  function CheckTimeoutsStep(sessionTimeoutMs: int, connectionTimeoutMs: int, s: Session, now: int,
                             hasNewConnectionString: bool, failure: Option<Error>): (r: (Session, Outcome<Error>))
    ensures QueueBounded(s) ==> QueueBounded(r.0)
    ensures r.0.parentWatchers == s.parentWatchers
    // either nothing changes, or exactly one reset happens
    ensures r.0 == s || (r.0.instanceIndex == s.instanceIndex + 1 && !r.0.isConnected && r.0.connectionStartMs == now)
    // ConnectionLoss is raised without changing anything
    ensures r.1 == Fail(ConnectionLoss) && failure != Some(ConnectionLoss) ==> r.0 == s
    // only a reset after the larger timeout lets a reset failure escape
    ensures r.1.Fail? ==> r.1.error == ConnectionLoss || Some(r.1.error) == failure
    // each row of the timeout table, on the elapsed time since the stamp
    ensures var a := TimeoutDecision(now - s.connectionStartMs, sessionTimeoutMs, connectionTimeoutMs,
                                     hasNewConnectionString);
      && (a == WithinTimeout ==> r == (s, Pass))
      && (a == ResetForNewConnectionString ==> r == (ResetInBackground(s, now, failure), Pass))
      && (a == ResetAfterMaxTimeout ==> r == ResetStep(s, now, failure))
      && (a == RaiseConnectionLoss ==> r == (s, Fail(ConnectionLoss)))
  {
    match TimeoutDecision(now - s.connectionStartMs, sessionTimeoutMs, connectionTimeoutMs, hasNewConnectionString)
    case WithinTimeout => (s, Pass)
    case ResetForNewConnectionString => (ResetInBackground(s, now, failure), Pass)
    case ResetAfterMaxTimeout => ResetStep(s, now, failure)
    case RaiseConnectionLoss => (s, Fail(ConnectionLoss))
  }

  /**
   * `getZooKeeper`: a failed thread session first; then exactly one queued
   * exception, the oldest; then, when disconnected, the timeout check; and
   * finally the handle.
   */
  function GetZooKeeperStep(sessionTimeoutMs: int, connectionTimeoutMs: int, s: Session,
                            sessionForThreadHasFailed: bool, now: int, hasNewConnectionString: bool,
                            failure: Option<Error>): (r: (Session, Result<Option<ZkHandle>, Error>))
    ensures sessionForThreadHasFailed ==> r == (s, Failure(SessionFailed))
    ensures !sessionForThreadHasFailed && s.backgroundExceptions != [] ==>
      r == (s.(backgroundExceptions := s.backgroundExceptions[1..]), Failure(s.backgroundExceptions[0]))
    ensures !sessionForThreadHasFailed && s.backgroundExceptions == [] && s.isConnected ==>
      r == (s, Success(s.handle))
    ensures !sessionForThreadHasFailed && s.backgroundExceptions == [] && !s.isConnected ==>
      var (t, outcome) := CheckTimeoutsStep(sessionTimeoutMs, connectionTimeoutMs, s, now, hasNewConnectionString, failure);
      r.0 == t && r.1 == if outcome.Fail? then Failure(outcome.error) else Success(t.handle)
    ensures QueueBounded(s) ==> QueueBounded(r.0)
  {
    if sessionForThreadHasFailed then (s, Failure(SessionFailed))
    else if s.backgroundExceptions != [] then
      (s.(backgroundExceptions := s.backgroundExceptions[1..]), Failure(s.backgroundExceptions[0]))
    else if !s.isConnected then
      var (t, outcome) := CheckTimeoutsStep(sessionTimeoutMs, connectionTimeoutMs, s, now, hasNewConnectionString, failure);
      (t, if outcome.Fail? then Failure(outcome.error) else Success(t.handle))
    else (s, Success(s.handle))
  }

  /** `handleState`: expiry resets; otherwise only a changed connection string does. */
  function HandleStateStep(s: Session, state: KeeperState, now: int, hasNewConnectionString: bool,
                           failure: Option<Error>): (r: Session)
    ensures state == Expired || hasNewConnectionString ==> r == ResetInBackground(s, now, failure)
    ensures state != Expired && !hasNewConnectionString ==> r == s
  {
    if state == Expired then ResetInBackground(s, now, failure)
    else if hasNewConnectionString then ResetInBackground(s, now, failure)
    else s
  }

  /**
   * `process`: for a connection-state event, update connectivity (re-stamping
   * only on a flip); fan the event out to every parent watcher; then, again
   * only for a connection-state event, handle expiry or an address change.
   */
  function ProcessStep(s: Session, event: WatchedEvent, now: int, hasNewConnectionString: bool,
                       failure: Option<Error>): (r: (Session, seq<Delivery>))
    // every watcher receives every event, in registration order, before any reset
    ensures |r.1| == |s.parentWatchers|
    ensures forall i :: 0 <= i < |r.1| ==>
      r.1[i].watcher == s.parentWatchers[i] && r.1[i].event == event && r.1[i].instanceIndex == s.instanceIndex
    ensures r.0.parentWatchers == s.parentWatchers
    ensures QueueBounded(s) ==> QueueBounded(r.0)
    // other event types only fan out, and the watchers see the connectivity unchanged
    ensures event.eventType != EventNone ==> r.0 == s
    ensures event.eventType != EventNone ==> forall i :: 0 <= i < |r.1| ==> r.1[i].connected == s.isConnected
    ensures event.eventType == EventNone ==>
      var connected := CheckState(event.state, s.isConnected);
      (forall i :: 0 <= i < |r.1| ==> r.1[i].connected == connected)
      && (if event.state == Expired || hasNewConnectionString then
            r.0 == ResetInBackground(s.(isConnected := connected), now, failure)
          else
            r.0.instanceIndex == s.instanceIndex && r.0.isConnected == connected
            && r.0.connectionStartMs == (if connected != s.isConnected then now else s.connectionStartMs)
            && r.0.backgroundExceptions == s.backgroundExceptions && r.0.handle == s.handle)
  {
    var eventTypeNone := event.eventType == EventNone;
    var newIsConnected := if eventTypeNone then CheckState(event.state, s.isConnected) else s.isConnected;
    var t := if newIsConnected != s.isConnected
             then s.(isConnected := newIsConnected, connectionStartMs := now)
             else s;
    var deliveries := FanOut(t.parentWatchers, event, t.isConnected, t.instanceIndex);
    (if eventTypeNone then HandleStateStep(t, event.state, now, hasNewConnectionString, failure) else t, deliveries)
  }

  /** `close`: disconnected afterwards whether or not closing the handle fails. */
  function CloseStep(s: Session, closeFailure: Option<Error>): (r: (Session, Outcome<Error>))
    ensures !r.0.isConnected
    ensures r.0.instanceIndex == s.instanceIndex && r.0.connectionStartMs == s.connectionStartMs
    ensures r.0.backgroundExceptions == s.backgroundExceptions && r.0.parentWatchers == s.parentWatchers
    ensures closeFailure.None? ==> r.1 == Pass && r.0.handle == None
    ensures closeFailure.Some? ==> r.1 == Fail(IOError(closeFailure.value)) && r.0.handle == s.handle
  {
    match closeFailure
    case None => (s.(handle := None, isConnected := false), Pass)
    case Some(e) => (s.(isConnected := false), Fail(IOError(e)))
  }

  /**
   * `getZooKeeper` on a disconnected client with a 5000 ms session and a
   * 3000 ms connection timeout, stamped at 0: at 3000 ms it raises
   * ConnectionLoss and changes nothing; at 6000 ms it resets into a new epoch
   * and returns the new handle.
   */
  lemma GetZooKeeperTimeoutExamples(s: Session)
    requires !s.isConnected && s.backgroundExceptions == [] && s.connectionStartMs == 0
    ensures GetZooKeeperStep(5000, 3000, s, false, 3000, false, None) == (s, Failure(ConnectionLoss))
    ensures var r := GetZooKeeperStep(5000, 3000, s, false, 6000, false, None);
      r.0.instanceIndex == s.instanceIndex + 1 && !r.0.isConnected && r.0.connectionStartMs == 6000
      && r.1 == Success(Some(ZkHandle(s.instanceIndex + 1)))
  {
  }

  /** An expiry event always starts a new epoch, and leaves the client disconnected. */
  lemma ExpiryStartsNewEpoch(s: Session, path: Option<string>, now: int, hasNewConnectionString: bool,
                             failure: Option<Error>)
    ensures var r := ProcessStep(s, WatchedEvent(EventNone, Expired, path), now, hasNewConnectionString, failure);
      r.0.instanceIndex == s.instanceIndex + 1 && !r.0.isConnected && r.0.connectionStartMs == now
  {
  }

  /** Nothing but a SyncConnected or ConnectedReadOnly event connects a disconnected client. */
  lemma StaysDisconnectedUntilConnected(s: Session, event: WatchedEvent, now: int, hasNewConnectionString: bool,
                                        failure: Option<Error>)
    requires !s.isConnected
    requires event.state != SyncConnected && event.state != ConnectedReadOnly
    ensures !ProcessStep(s, event, now, hasNewConnectionString, failure).0.isConnected
  {
  }

  /** Every transition keeps the background queue within its capacity. */
  lemma TransitionsKeepQueueBounded(sessionTimeoutMs: int, connectionTimeoutMs: int, s: Session,
                                    event: WatchedEvent, sessionFailed: bool, now: int,
                                    hasNewConnectionString: bool, failure: Option<Error>, e: Error)
    requires QueueBounded(s)
    ensures QueueBounded(ResetStep(s, now, failure).0)
    ensures QueueBounded(GetZooKeeperStep(sessionTimeoutMs, connectionTimeoutMs, s, sessionFailed, now,
                                          hasNewConnectionString, failure).0)
    ensures QueueBounded(ProcessStep(s, event, now, hasNewConnectionString, failure).0)
    ensures QueueBounded(CloseStep(s, failure).0)
    ensures QueueBounded(s.(backgroundExceptions := OfferBackground(s.backgroundExceptions, e)))
  {
  }

  // ---------------------------------------------------------------------------
  // The object
  // ---------------------------------------------------------------------------

  class ConnectionState {
    const sessionTimeoutMs: int
    const connectionTimeoutMs: int
    var isConnected: bool
    var instanceIndex: nat
    var connectionStartMs: int
    var backgroundExceptions: seq<Error>
    var parentWatchers: seq<Watcher>
    var handle: Option<ZkHandle>

    ghost function Model(): Session
      reads this
    {
      Session(isConnected, instanceIndex, connectionStartMs, backgroundExceptions, parentWatchers, handle)
    }

    ghost predicate Valid()
      reads this
    {
      QueueBounded(Model())
    }

    /** Disconnected, epoch 0, no handle yet; the given parent watcher is registered first. */
    constructor (sessionTimeoutMs: int, connectionTimeoutMs: int, parentWatcher: Option<Watcher>)
      ensures Valid()
      ensures this.sessionTimeoutMs == sessionTimeoutMs && this.connectionTimeoutMs == connectionTimeoutMs
      ensures Model() == Session(false, 0, 0, [], if parentWatcher.Some? then [parentWatcher.value] else [], None)
    {
      this.sessionTimeoutMs := sessionTimeoutMs;
      this.connectionTimeoutMs := connectionTimeoutMs;
      isConnected := false;
      instanceIndex := 0;
      connectionStartMs := 0;
      backgroundExceptions := [];
      parentWatchers := if parentWatcher.Some? then [parentWatcher.value] else [];
      handle := None;
    }

    method GetZooKeeper(sessionForThreadHasFailed: bool, now: int, hasNewConnectionString: bool,
                        resetFailure: Option<Error>) returns (r: Result<Option<ZkHandle>, Error>)
      requires Valid()
      modifies this
      ensures Valid()
      ensures (Model(), r) == GetZooKeeperStep(sessionTimeoutMs, connectionTimeoutMs, old(Model()),
                                               sessionForThreadHasFailed, now, hasNewConnectionString, resetFailure)
    {
      if sessionForThreadHasFailed {
        return Failure(SessionFailed);
      }
      if backgroundExceptions != [] {
        var exception := backgroundExceptions[0];
        backgroundExceptions := backgroundExceptions[1..];
        return Failure(exception);
      }
      var localIsConnected := isConnected;
      if !localIsConnected {
        var outcome := CheckTimeouts(now, hasNewConnectionString, resetFailure);
        if outcome.Fail? {
          return Failure(outcome.error);
        }
      }
      r := Success(handle);
    }

    /** `start`: the initial reset (starting the ensemble provider is not modelled). */
    method Start(now: int, resetFailure: Option<Error>) returns (r: Outcome<Error>)
      requires Valid()
      modifies this
      ensures Valid()
      ensures (Model(), r) == ResetStep(old(Model()), now, resetFailure)
    {
      r := Reset(now, resetFailure);
    }

    method Close(closeFailure: Option<Error>) returns (r: Outcome<Error>)
      requires Valid()
      modifies this
      ensures Valid()
      ensures (Model(), r) == CloseStep(old(Model()), closeFailure)
    {
      match closeFailure {
        case None =>
          handle := None;
          r := Pass;
        case Some(e) =>
          r := Fail(IOError(e));
      }
      isConnected := false;  // the finally block
    }

    method AddParentWatcher(watcher: Watcher)
      requires Valid()
      modifies this
      ensures Valid()
      ensures Model() == old(Model()).(parentWatchers := old(parentWatchers) + [watcher])
    {
      parentWatchers := parentWatchers + [watcher];
    }

    method RemoveParentWatcher(watcher: Watcher)
      requires Valid()
      modifies this
      ensures Valid()
      ensures Model() == old(Model()).(parentWatchers := RemoveFirst(old(parentWatchers), watcher))
    {
      parentWatchers := RemoveFirst(parentWatchers, watcher);
    }

    method Process(event: WatchedEvent, now: int, hasNewConnectionString: bool, resetFailure: Option<Error>)
      returns (deliveries: seq<Delivery>)
      requires Valid()
      modifies this
      ensures Valid()
      ensures (Model(), deliveries) == ProcessStep(old(Model()), event, now, hasNewConnectionString, resetFailure)
    {
      var eventTypeNone := event.eventType == EventNone;
      if eventTypeNone {
        var wasConnected := isConnected;
        var newIsConnected := CheckState(event.state, wasConnected);
        if newIsConnected != wasConnected {
          isConnected := newIsConnected;
          connectionStartMs := now;
        }
      }
      deliveries := [];
      for i := 0 to |parentWatchers|
        invariant deliveries == FanOut(parentWatchers[..i], event, isConnected, instanceIndex)
      {
        assert parentWatchers[..i + 1][..i] == parentWatchers[..i];
        deliveries := deliveries + [Delivery(parentWatchers[i], event, isConnected, instanceIndex)];
      }
      assert parentWatchers[..|parentWatchers|] == parentWatchers;
      if eventTypeNone {
        HandleState(event.state, now, hasNewConnectionString, resetFailure);
      }
    }

    method CheckTimeouts(now: int, hasNewConnectionString: bool, resetFailure: Option<Error>)
      returns (r: Outcome<Error>)
      requires Valid()
      modifies this
      ensures Valid()
      ensures (Model(), r) == CheckTimeoutsStep(sessionTimeoutMs, connectionTimeoutMs, old(Model()), now,
                                                hasNewConnectionString, resetFailure)
    {
      var minTimeout := Min(sessionTimeoutMs, connectionTimeoutMs);
      var elapsed := now - connectionStartMs;
      r := Pass;
      if elapsed >= minTimeout {
        if hasNewConnectionString {
          HandleNewConnectionString(now, resetFailure);
        } else {
          var maxTimeout := Max(sessionTimeoutMs, connectionTimeoutMs);
          if elapsed > maxTimeout {
            r := Reset(now, resetFailure);
          } else {
            r := Fail(ConnectionLoss);
          }
        }
      }
    }

    method Reset(now: int, resetFailure: Option<Error>) returns (r: Outcome<Error>)
      requires Valid()
      modifies this
      ensures Valid()
      ensures (Model(), r) == ResetStep(old(Model()), now, resetFailure)
    {
      instanceIndex := instanceIndex + 1;
      isConnected := false;
      connectionStartMs := now;
      // closing and re-opening the handle, then initiating the connection
      match resetFailure {
        case None =>
          handle := Some(ZkHandle(instanceIndex));
          r := Pass;
        case Some(e) =>
          r := Fail(e);
      }
    }

    method HandleState(state: KeeperState, now: int, hasNewConnectionString: bool, resetFailure: Option<Error>)
      requires Valid()
      modifies this
      ensures Valid()
      ensures Model() == HandleStateStep(old(Model()), state, now, hasNewConnectionString, resetFailure)
    {
      if state == Expired {
        HandleExpiredSession(now, resetFailure);
      } else if hasNewConnectionString {
        HandleNewConnectionString(now, resetFailure);
      }
    }

    method HandleNewConnectionString(now: int, resetFailure: Option<Error>)
      requires Valid()
      modifies this
      ensures Valid()
      ensures Model() == ResetInBackground(old(Model()), now, resetFailure)
    {
      var outcome := Reset(now, resetFailure);
      if outcome.Fail? {
        QueueBackgroundException(outcome.error);
      }
    }

    method HandleExpiredSession(now: int, resetFailure: Option<Error>)
      requires Valid()
      modifies this
      ensures Valid()
      ensures Model() == ResetInBackground(old(Model()), now, resetFailure)
    {
      var outcome := Reset(now, resetFailure);
      if outcome.Fail? {
        QueueBackgroundException(outcome.error);
      }
    }

    method QueueBackgroundException(e: Error)
      requires Valid()
      modifies this
      ensures Valid()
      ensures Model() == old(Model()).(backgroundExceptions := OfferBackground(old(backgroundExceptions), e))
    {
      ghost var q := backgroundExceptions;
      ghost var dropped := 0;
      while |backgroundExceptions| >= MaxBackgroundExceptions
        modifies this`backgroundExceptions
        invariant 0 <= dropped <= |q| && backgroundExceptions == q[dropped..]
        invariant dropped == 0 || |backgroundExceptions| == MaxBackgroundExceptions - 1
        decreases |backgroundExceptions|
      {
        backgroundExceptions := backgroundExceptions[1..];
        dropped := dropped + 1;
      }
      assert backgroundExceptions + [e] == (q + [e])[dropped..];
      backgroundExceptions := backgroundExceptions + [e];
    }

    /** `isConnected()`: the connectivity of the current state. */
    function IsConnected(): (r: bool)
      reads this
      ensures r == Model().isConnected
    {
      isConnected
    }

    /** `getInstanceIndex()`: the epoch of the current state, bumped by every reset. */
    function GetInstanceIndex(): (r: nat)
      reads this
      ensures r == Model().instanceIndex
    {
      instanceIndex
    }
  }
}
