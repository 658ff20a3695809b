/** The remote app-server client: the initialize handshake, then a worker that owns the map of
    pending request waiters and forwards what the server sends. */
module Remote {
  import opened Wrappers

  datatype RequestId = Text(s: string) | Integer(n: int)

  const INITIALIZE := Text("initialize")

  datatype Event = Notification(n: nat) | ServerRequest(n: nat) | Disconnected

  /** What arrives on the websocket. A payload is `None` where the message does not decode. */
  datatype Frame =
    | Response(id: RequestId, result: nat)
    | Error(id: RequestId, error: nat)
    | NotificationFrame(n: Option<nat>)
    | RequestFrame(request: Option<nat>)
    | InvalidJson
    | Ignored
    | Close
    | TransportError
    | EndOfStream

  datatype Command =
    | Request(id: RequestId, waiter: nat)
    | Passthrough
    | Shutdown
    | Closed

  datatype ErrorKind = BrokenPipe | InvalidData | ConnectionAborted | UnexpectedEof

  datatype Outcome =
    | Completed(id: RequestId, result: nat)
    | Failed(id: RequestId, error: nat)
    | Duplicate
    | WriteFailed
    | Drained(kind: ErrorKind)

  datatype Completion = Completion(waiter: nat, outcome: Outcome)

  datatype Phase = Handshake | Running | Exited | Refused

  /** `consumed`, `ids`, `wire` and `announced` are history: the events `next_event` has returned, the
      id each waiter was submitted with, the frames read, and whether the exit announced itself. */
  datatype State = State(
    phase: Phase, pending: map<RequestId, nat>, exitError: Option<ErrorKind>,
    completions: seq<Completion>, consumed: seq<Event>, pendingEvents: seq<Event>, events: seq<Event>,
    consumerOpen: bool, ids: map<nat, RequestId>, wire: seq<Frame>, announced: bool)

  /** A step of the world; `writeOk` is how the write this step may need turns out. */
  datatype Step =
    | OnCommand(command: Command, writeOk: bool)
    | OnFrame(frame: Frame, writeOk: bool)
    | NextEvent
    | DropConsumer
    | DrainOne(id: RequestId)

  const START := State(Handshake, map[], None, [], [], [], [], true, map[], [], false)

  predicate Enabled(s: State, step: Step)
  {
    match step
    case OnCommand(command, _) => s.phase.Running? && (command.Request? ==> command.waiter !in s.ids)
    case OnFrame(_, _) => s.phase.Handshake? || s.phase.Running?
    case NextEvent => (s.phase.Running? || s.phase.Exited?) && s.consumerOpen && s.pendingEvents + s.events != []
    case DropConsumer => s.phase.Running? || s.phase.Exited?
    case DrainOne(id) => s.phase.Exited? && id in s.pending
  }

  function Decoded(f: Frame): seq<Event>
  {
    if f.NotificationFrame? && f.n.Some? then [Notification(f.n.value)]
    else if f.RequestFrame? && f.request.Some? then [ServerRequest(f.request.value)]
    else []
  }

  function Complete(s: State, waiter: nat, outcome: Outcome): State
  {
    s.(completions := s.completions + [Completion(waiter, outcome)])
  }

  /** Sends to the event channel; the result is whether the consumer was there to take it. */
  function Deliver(s: State, e: Event): State
  {
    if s.consumerOpen then s.(events := s.events + [e]) else s
  }

  /** Leaves the loop after announcing the disconnect. */
  function Disconnect(s: State, kind: ErrorKind): State
  {
    Deliver(s, Disconnected).(phase := Exited, exitError := Some(kind), announced := s.consumerOpen)
  }

  function ApplyCommand(s: State, c: Command, writeOk: bool): State
  {
    match c
    case Request(id, waiter) =>
      var s := s.(ids := s.ids[waiter := id]);
      if id in s.pending then Complete(s, waiter, Duplicate)
      else if writeOk then s.(pending := s.pending[id := waiter])
      else Disconnect(Complete(s, waiter, WriteFailed), BrokenPipe)
    case Passthrough => s
    case Shutdown => s.(phase := Exited)
    case Closed => s.(phase := Exited)
  }

  function ApplyHandshake(s: State, f: Frame, writeOk: bool): State
  {
    match f
    case Response(id, _) =>
      if id == INITIALIZE then s.(phase := if writeOk then Running else Refused) else s
    case Error(id, _) => if id == INITIALIZE then s.(phase := Refused) else s
    case NotificationFrame(_) => s.(pendingEvents := s.pendingEvents + Decoded(f))
    case RequestFrame(request) =>
      if request.None? && !writeOk then s.(phase := Refused)
      else s.(pendingEvents := s.pendingEvents + Decoded(f))
    case Ignored => s
    case _ => s.(phase := Refused)
  }

  function Settle(s: State, id: RequestId, outcome: Outcome): State
  {
    if id in s.pending then Complete(s.(pending := s.pending - {id}), s.pending[id], outcome) else s
  }

  function ApplyFrame(s: State, f: Frame, writeOk: bool): State
  {
    match f
    case Response(id, result) => Settle(s, id, Completed(id, result))
    case Error(id, error) => Settle(s, id, Failed(id, error))
    case NotificationFrame(n) =>
      if n.None? then s
      else if s.consumerOpen then Deliver(s, Notification(n.value)) else s.(phase := Exited)
    case RequestFrame(request) =>
      if request.None? then (if writeOk then s else Disconnect(s, BrokenPipe))
      else if s.consumerOpen then Deliver(s, ServerRequest(request.value)) else s.(phase := Exited)
    case InvalidJson => Disconnect(s, InvalidData)
    case Close => Disconnect(s, ConnectionAborted)
    case Ignored => s
    case TransportError => Disconnect(s, InvalidData)
    case EndOfStream => Disconnect(s, UnexpectedEof)
  }

  function ExitKind(s: State): ErrorKind { if s.exitError.Some? then s.exitError.value else BrokenPipe }

  function Apply(s: State, step: Step): State
    requires Enabled(s, step)
  {
    match step
    case OnCommand(c, writeOk) => ApplyCommand(s, c, writeOk)
    case OnFrame(f, writeOk) =>
      var s := s.(wire := s.wire + [f]);
      if s.phase.Handshake? then ApplyHandshake(s, f, writeOk) else ApplyFrame(s, f, writeOk)
    case NextEvent =>
      if s.pendingEvents != [] then
        s.(pendingEvents := s.pendingEvents[1..], consumed := s.consumed + [s.pendingEvents[0]])
      else s.(events := s.events[1..], consumed := s.consumed + [s.events[0]])
    case DropConsumer => s.(consumerOpen := false)
    case DrainOne(id) => Settle(s, id, Drained(ExitKind(s)))
  }

  /** The state a sequence of steps leads to, if each is enabled in turn. */
  function After(steps: seq<Step>): Option<State>
    decreases |steps|
  {
    if steps == [] then Some(START)
    else
      var before := After(steps[..|steps| - 1]);
      var step := steps[|steps| - 1];
      if before.Some? && Enabled(before.value, step) then Some(Apply(before.value, step)) else None
  }

  /** The client and its worker, updated in place; the ghost fields are the history. */
  class RemoteClient {
    var phase: Phase
    var pendingRequests: map<RequestId, nat>
    var workerExitError: Option<ErrorKind>
    var completions: seq<Completion>
    var pendingEvents: seq<Event>
    var events: seq<Event>
    var consumerOpen: bool
    ghost var consumed: seq<Event>
    ghost var ids: map<nat, RequestId>
    ghost var wire: seq<Frame>
    ghost var announced: bool

    ghost function View(): State
      reads this
    {
      State(phase, pendingRequests, workerExitError, completions, consumed, pendingEvents, events,
            consumerOpen, ids, wire, announced)
    }

    constructor ()
      ensures View() == START
    {
      phase, pendingRequests, workerExitError := Handshake, map[], None;
      completions, pendingEvents, events, consumerOpen := [], [], [], true;
      consumed, ids, wire, announced := [], map[], [], false;
    }

    method Finish(waiter: nat, outcome: Outcome)
      modifies `completions
      ensures View() == Complete(old(View()), waiter, outcome)
    {
      completions := completions + [Completion(waiter, outcome)];
    }

    method DeliverEvent(e: Event) returns (ok: bool)
      modifies `events
      ensures ok == consumerOpen && View() == Deliver(old(View()), e)
    {
      if consumerOpen { events := events + [e]; }
      return consumerOpen;
    }

    method LeaveDisconnected(kind: ErrorKind)
      modifies this
      ensures View() == Disconnect(old(View()), kind)
    {
      announced := consumerOpen;
      var _ := DeliverEvent(Disconnected);
      workerExitError := Some(kind);
      phase := Exited;
    }

    method HandleRequest(id: RequestId, waiter: nat, writeOk: bool)
      requires Enabled(View(), OnCommand(Request(id, waiter), writeOk))
      modifies this
      ensures View() == Apply(old(View()), OnCommand(Request(id, waiter), writeOk))
    {
      ids := ids[waiter := id];
      if id in pendingRequests {
        Finish(waiter, Duplicate);
        return;
      }
      pendingRequests := pendingRequests[id := waiter];
      if !writeOk {
        pendingRequests := pendingRequests - {id};
        Finish(waiter, WriteFailed);
        LeaveDisconnected(BrokenPipe);
      }
    }

    method SettleWaiter(id: RequestId, outcome: Outcome)
      modifies `pendingRequests, `completions
      ensures View() == Settle(old(View()), id, outcome)
    {
      if id in pendingRequests {
        var waiter := pendingRequests[id];
        pendingRequests := pendingRequests - {id};
        Finish(waiter, outcome);
      }
    }

    method HandleHandshakeFrame(f: Frame, writeOk: bool)
      requires phase.Handshake?
      modifies this
      ensures View() == Apply(old(View()), OnFrame(f, writeOk))
    {
      wire := wire + [f];
      match f
      case Response(id, _) =>
        if id == INITIALIZE { phase := if writeOk then Running else Refused; }
      case Error(id, _) =>
        if id == INITIALIZE { phase := Refused; }
      case NotificationFrame(n) =>
        if n.Some? { pendingEvents := pendingEvents + [Notification(n.value)]; }
      case RequestFrame(request) =>
        if request.Some? {
          pendingEvents := pendingEvents + [ServerRequest(request.value)];
        } else if !writeOk {
          phase := Refused;
        }
      case Ignored =>
      case _ => phase := Refused;
    }

    method HandleFrame(f: Frame, writeOk: bool)
      requires phase.Running?
      modifies this
      ensures View() == Apply(old(View()), OnFrame(f, writeOk))
    {
      wire := wire + [f];
      match f
      case Response(id, result) => SettleWaiter(id, Completed(id, result));
      case Error(id, error) => SettleWaiter(id, Failed(id, error));
      case NotificationFrame(n) =>
        if n.Some? {
          var ok := DeliverEvent(Notification(n.value));
          if !ok { phase := Exited; }
        }
      case RequestFrame(request) =>
        if request.Some? {
          var ok := DeliverEvent(ServerRequest(request.value));
          if !ok { phase := Exited; }
        } else if !writeOk {
          LeaveDisconnected(BrokenPipe);
        }
      case InvalidJson => LeaveDisconnected(InvalidData);
      case Close => LeaveDisconnected(ConnectionAborted);
      case Ignored =>
      case TransportError => LeaveDisconnected(InvalidData);
      case EndOfStream => LeaveDisconnected(UnexpectedEof);
    }

    /** Events kept from the handshake come before those the worker sends. */
    method NextEventNow() returns (e: Option<Event>)
      requires Enabled(View(), NextEvent)
      modifies this
      ensures View() == Apply(old(View()), NextEvent) && e.Some? && consumed == old(consumed) + [e.value]
    {
      if pendingEvents != [] {
        e := Some(pendingEvents[0]);
        pendingEvents := pendingEvents[1..];
      } else {
        e := Some(events[0]);
        events := events[1..];
      }
      consumed := consumed + [e.value];
    }

    /** The drain after the loop: whatever order the map yields, each waiter left is completed, with
        the exit error. */
    method DrainPending() returns (ghost order: seq<RequestId>)
      requires phase.Exited?
      modifies this
      ensures Distinct(order) && forall id :: id in order <==> id in old(pendingRequests)
      ensures View() == DrainAll(old(View()), order)
    {
      var kind := if workerExitError.Some? then workerExitError.value else BrokenPipe;
      var rest := pendingRequests.Keys;
      order := [];
      while rest != {}
        invariant rest == pendingRequests.Keys && phase.Exited? && kind == ExitKind(View())
        invariant Distinct(order) && forall id :: id in order <==> id in old(pendingRequests).Keys - rest
        invariant rest <= old(pendingRequests).Keys
        invariant View() == DrainAll(old(View()), order)
      {
        var id :| id in rest;
        rest := rest - {id};
        SettleWaiter(id, Drained(kind));
        assert id !in order;
        order := order + [id];
        assert order[..|order| - 1] + [id] == order;
      }
    }
  }

  predicate Distinct<T(==)>(s: seq<T>) { forall i, j | 0 <= i < j < |s| :: s[i] != s[j] }

  function DrainAll(s: State, order: seq<RequestId>): State
    decreases |order|
  {
    if order == [] then s
    else
      var before := DrainAll(s, order[..|order| - 1]);
      Settle(before, order[|order| - 1], Drained(ExitKind(before)))
  }
}
