/** What each command and each frame does to the fields of the client in every reachable state, and so
    which frame answers which request over a whole run. */
module RemoteLaws {
  import opened Remote
  import opened RemoteProofs
  import opened Wrappers

  /** A reachable state of the running worker and the one a step leads to. */
  ghost predicate Steps(steps: seq<Step>, step: Step, s: State, s': State)
  {
    && After(steps) == Some(s) && After(steps + [step]) == Some(s')
  }

  lemma StepTaken(steps: seq<Step>, step: Step, s: State, s': State)
    requires Steps(steps, step, s, s')
    ensures Inv(s) && Enabled(s, step) && s' == Apply(s, step)
  {
    InvAlways(steps);
    assert (steps + [step])[..|steps + [step]| - 1] == steps;
  }

  /** What can happen next: while the loop runs, any command and any frame can come, a request bringing a
      waiter of its own; during the handshake any frame can; after the loop whoever is still pending is
      drained; and a consumer that is there can read what it has not read. */
  lemma {:induction false} Possible(steps: seq<Step>, step: Step)
    requires After(steps).Some?
    ensures var s := After(steps).value;
      After(steps + [step]).Some? <==>
        match step
        case OnCommand(Request(_, w), _) => s.phase == Running && w !in s.ids
        case OnCommand(_, _) => s.phase == Running
        case OnFrame(_, _) => s.phase in {Handshake, Running}
        case NextEvent => s.phase in {Running, Exited} && s.consumerOpen && |s.pendingEvents| + |s.events| > 0
        case DropConsumer => s.phase in {Running, Exited}
        case DrainOne(id) => s.phase == Exited && id in s.pending
  {
    assert (steps + [step])[..|steps + [step]| - 1] == steps;
    var s := After(steps).value;
    assert |s.pendingEvents + s.events| == |s.pendingEvents| + |s.events|;
  }

  /** The consumer reads what was kept from the handshake first, oldest first, then what the worker sent. */
  lemma {:induction false} Reads(steps: seq<Step>, s: State, s': State)
    requires Steps(steps, NextEvent, s, s')
    ensures s'.pendingEvents + s'.events == (s.pendingEvents + s.events)[1..]
    ensures s'.consumed == s.consumed + [(s.pendingEvents + s.events)[0]]
    ensures s'.pending == s.pending && s'.completions == s.completions && s'.phase == s.phase
  {
    StepTaken(steps, NextEvent, s, s');
  }

  // ----- frames

  /** A waiter that is owed an answer under the frame's id. */
  predicate Awaited(s: State, f: Frame)
  {
    (f.Response? || f.Error?) && f.id in s.pending
  }

  /** An answer with a pending id takes exactly that entry out and completes its waiter, which was
      submitted with that id, with what the server said. Every other frame settles nobody. */
  lemma {:induction false} FrameSettles(steps: seq<Step>, f: Frame, writeOk: bool, s: State, s': State)
    requires Steps(steps, OnFrame(f, writeOk), s, s') && s.phase.Running?
    ensures Awaited(s, f) ==>
      var w := s.pending[f.id];
      && w in s.ids && s.ids[w] == f.id
      && s'.pending.Keys == s.pending.Keys - {f.id}
      && (forall id | id in s'.pending :: s'.pending[id] == s.pending[id])
      && s'.completions == s.completions + [Completion(w, if f.Response? then Completed(f.id, f.result)
                                                          else Failed(f.id, f.error))]
    ensures !Awaited(s, f) ==> s'.pending == s.pending && s'.completions == s.completions
    ensures f.Response? || f.Error? ==>
      s'.phase.Running? && s'.events == s.events && s'.pendingEvents == s.pendingEvents && s'.ids == s.ids
  {
    StepTaken(steps, OnFrame(f, writeOk), s, s');
  }

  /** The event a frame carries. */
  function Carries(f: Frame): Option<Event>
  {
    match f
    case NotificationFrame(Some(n)) => Some(Notification(n))
    case RequestFrame(Some(n)) => Some(ServerRequest(n))
    case _ => None
  }

  /** A frame that carries an event delivers it, or ends the loop quietly when nobody listens; other
      notifications and other messages are passed over, and a request that is not understood is only
      rejected. */
  lemma {:induction false} FrameDelivers(steps: seq<Step>, f: Frame, writeOk: bool, s: State, s': State)
    requires Steps(steps, OnFrame(f, writeOk), s, s') && s.phase.Running?
    ensures Carries(f).Some? && s.consumerOpen ==>
      s'.events == s.events + [Carries(f).value] && s'.phase.Running? && !s'.announced
    ensures Carries(f).Some? && !s.consumerOpen ==>
      s'.events == s.events && s'.phase.Exited? && s'.exitError == s.exitError && !s'.announced
    ensures f == NotificationFrame(None) || f.Ignored? || (f == RequestFrame(None) && writeOk) ==>
      s' == s.(wire := s.wire + [f])
  {
    StepTaken(steps, OnFrame(f, writeOk), s, s');
    NotAnnounced(steps, s);
  }

  lemma NotAnnounced(steps: seq<Step>, s: State)
    requires After(steps) == Some(s) && s.phase.Running?
    ensures !s.announced
  {
    OrderedAlways(steps);
  }

  /** Why the loop ends at a frame, if it ends with an error. */
  function EndsWith(f: Frame, writeOk: bool): Option<ErrorKind>
  {
    match f
    case InvalidJson => Some(InvalidData)
    case TransportError => Some(InvalidData)
    case Close => Some(ConnectionAborted)
    case EndOfStream => Some(UnexpectedEof)
    case RequestFrame(None) => if writeOk then None else Some(BrokenPipe)
    case _ => None
  }

  /** Such a frame ends the loop with that error and announces the disconnect to a listening consumer. */
  lemma {:induction false} FrameEnds(steps: seq<Step>, f: Frame, writeOk: bool, s: State, s': State)
    requires Steps(steps, OnFrame(f, writeOk), s, s') && s.phase.Running?
    ensures EndsWith(f, writeOk).Some? ==>
      && s'.phase.Exited? && s'.exitError == EndsWith(f, writeOk)
      && s'.events == s.events + if s.consumerOpen then [Disconnected] else []
    ensures s'.phase.Exited? <==> EndsWith(f, writeOk).Some? || (Carries(f).Some? && !s.consumerOpen)
  {
    StepTaken(steps, OnFrame(f, writeOk), s, s');
  }

  /** Before the handshake is over, events are kept in order, only the answer to `initialize` opens or
      refuses the client, and anything that is no message refuses it. */
  lemma {:induction false} HandshakeFrame(steps: seq<Step>, f: Frame, writeOk: bool, s: State, s': State)
    requires Steps(steps, OnFrame(f, writeOk), s, s') && s.phase.Handshake?
    ensures s'.pendingEvents == s.pendingEvents + if Carries(f).Some? then [Carries(f).value] else []
    ensures s'.phase.Running? <==> f.Response? && f.id == Text("initialize") && writeOk
    ensures s'.phase.Refused? <==>
      || ((f.Response? || f == RequestFrame(None)) && !writeOk && (f.Response? ==> f.id == Text("initialize")))
      || (f.Error? && f.id == Text("initialize"))
      || f.InvalidJson? || f.Close? || f.TransportError? || f.EndOfStream?
    ensures s'.phase.Handshake? || s'.phase.Running? || s'.phase.Refused?
    ensures s'.events == [] && s'.pending == map[] && s'.completions == []
  {
    StepTaken(steps, OnFrame(f, writeOk), s, s');
    EmptyHandshake(steps, s);
  }

  lemma LastStep(steps: seq<Step>) returns (before: State)
    requires steps != [] && After(steps).Some?
    ensures After(steps[..|steps| - 1]) == Some(before) && Enabled(before, steps[|steps| - 1])
    ensures After(steps).value == Apply(before, steps[|steps| - 1])
  {
    before := After(steps[..|steps| - 1]).value;
  }

  predicate NothingYet(s: State) { s.events == [] && s.pending == map[] && s.completions == [] }

  lemma HandshakeStays(s: State, step: Step)
    requires Enabled(s, step) && Apply(s, step).phase.Handshake? && (s.phase.Handshake? ==> NothingYet(s))
    ensures s.phase.Handshake? && NothingYet(Apply(s, step))
  {
  }

  lemma {:induction false} EmptyHandshake(steps: seq<Step>, s: State)
    requires After(steps) == Some(s) && s.phase.Handshake?
    ensures NothingYet(s)
    decreases |steps|
  {
    if steps != [] {
      var before := LastStep(steps);
      if before.phase.Handshake? { EmptyHandshake(steps[..|steps| - 1], before); }
      HandshakeStays(before, steps[|steps| - 1]);
    }
  }

  // ----- commands

  /** A request with a free id waits once it is written; one that cannot be written gets the write error,
      and the loop ends; one whose id is taken is refused. Nobody else is touched. */
  lemma {:induction false} RequestSubmitted(steps: seq<Step>, id: RequestId, w: nat, writeOk: bool, s: State, s': State)
    requires Steps(steps, OnCommand(Request(id, w), writeOk), s, s')
    ensures s'.ids == s.ids[w := id] && w !in s.ids && s'.pendingEvents == s.pendingEvents
    ensures id !in s.pending && writeOk ==>
      && id in s'.pending && s'.pending[id] == w && s'.pending.Keys == s.pending.Keys + {id}
      && (forall i | i in s.pending :: s'.pending[i] == s.pending[i])
      && s'.completions == s.completions && s'.events == s.events && s'.phase.Running?
    ensures id !in s.pending && !writeOk ==>
      && s'.pending == s.pending && s'.completions == s.completions + [Completion(w, WriteFailed)]
      && s'.phase.Exited? && s'.exitError == Some(BrokenPipe)
      && s'.events == s.events + if s.consumerOpen then [Disconnected] else []
    ensures id in s.pending ==>
      && s'.pending == s.pending && s'.completions == s.completions + [Completion(w, Duplicate)]
      && s'.phase.Running? && s'.events == s.events
  {
    StepTaken(steps, OnCommand(Request(id, w), writeOk), s, s');
  }

  /** Other commands settle nobody; a shutdown, or the end of the commands, ends the loop without an
      error of its own. */
  lemma {:induction false} OtherCommand(steps: seq<Step>, c: Command, writeOk: bool, s: State, s': State)
    requires Steps(steps, OnCommand(c, writeOk), s, s') && !c.Request?
    ensures s'.pending == s.pending && s'.completions == s.completions && s'.events == s.events
    ensures s'.phase == if c.Passthrough? then Running else Exited
    ensures s'.exitError == s.exitError && s'.announced == s.announced
  {
    StepTaken(steps, OnCommand(c, writeOk), s, s');
  }

  /** Draining takes one entry out and completes its waiter with the error the loop ended with, or with a
      broken pipe when it ended without one. */
  lemma {:induction false} Drains(steps: seq<Step>, id: RequestId, s: State, s': State)
    requires Steps(steps, DrainOne(id), s, s')
    ensures s.phase.Exited? && id in s.pending && s'.pending.Keys == s.pending.Keys - {id}
    ensures forall i | i in s'.pending :: s'.pending[i] == s.pending[i]
    ensures s'.completions == s.completions + [Completion(s.pending[id],
              Drained(if s.exitError.Some? then s.exitError.value else BrokenPipe))]
  {
    StepTaken(steps, DrainOne(id), s, s');
  }

  // ----- which frame answers which request

  /** The step says something about the requests with this id: an answer from the server, or the drain. */
  predicate Concerns(step: Step, id: RequestId)
  {
    match step
    case OnFrame(Response(i, _), _) => i == id
    case OnFrame(Error(i, _), _) => i == id
    case DrainOne(i) => i == id
    case _ => false
  }

  /** What such a step tells the waiter; `s` is the state it is taken in. */
  predicate Tells(step: Step, s: State, outcome: Outcome)
  {
    match step
    case OnFrame(Response(i, result), _) => outcome == Completed(i, result)
    case OnFrame(Error(i, error), _) => outcome == Failed(i, error)
    case _ => outcome == Drained(if s.exitError.Some? then s.exitError.value else BrokenPipe)
  }

  lemma CompletionsGrow(s: State, step: Step)
    requires Enabled(s, step)
    ensures s.completions <= Apply(s, step).completions
  {
  }

  lemma {:induction false} PrefixRuns(steps: seq<Step>, k: nat)
    requires After(steps).Some? && k <= |steps|
    ensures After(steps[..k]).Some? && After(steps[..k]).value.completions <= After(steps).value.completions
    decreases |steps|
  {
    if k == |steps| {
      assert steps[..k] == steps;
    } else {
      var before := LastStep(steps);
      PrefixRuns(steps[..|steps| - 1], k);
      assert steps[..|steps| - 1][..k] == steps[..k];
      CompletionsGrow(before, steps[|steps| - 1]);
    }
  }

  /** A request written with a free id at step `k`. */
  predicate Written(steps: seq<Step>, k: nat, id: RequestId, w: nat)
    requires k < |steps|
  {
    && steps[k] == OnCommand(Request(id, w), true)
    && After(steps[..k]).Some? && id !in After(steps[..k]).value.pending
  }

  predicate Waits(s: State, id: RequestId, w: nat) { id in s.pending && s.pending[id] == w }

  lemma WaitsOn(s: State, step: Step, id: RequestId, w: nat)
    requires Enabled(s, step) && Waits(s, id, w) && !Concerns(step, id)
    ensures Waits(Apply(s, step), id, w)
  {
  }

  lemma {:induction false} WaitsUntilConcerned(steps: seq<Step>, k: nat, id: RequestId, w: nat)
    requires After(steps).Some? && k < |steps| && Written(steps, k, id, w)
    requires forall j | k < j < |steps| :: !Concerns(steps[j], id)
    ensures Waits(After(steps).value, id, w)
    decreases |steps|
  {
    var before := LastStep(steps);
    var init, last := steps[..|steps| - 1], steps[|steps| - 1];
    if k < |steps| - 1 {
      assert init[k] == steps[k] && init[..k] == steps[..k];
      WaitsUntilConcerned(init, k, id, w);
      WaitsOn(before, last, id, w);
    } else {
      assert last == OnCommand(Request(id, w), true);
    }
  }

  /** What step `j` says to the waiter is among the completions. */
  ghost predicate Told(steps: seq<Step>, j: nat, w: nat)
    requires j < |steps| && After(steps).Some?
  {
    && After(steps[..j]).Some?
    && exists c | c in After(steps).value.completions ::
         c.waiter == w && Tells(steps[j], After(steps[..j]).value, c.outcome)
  }

  predicate FirstConcern(steps: seq<Step>, k: nat, j: nat, id: RequestId)
    requires j < |steps|
  {
    k < j && Concerns(steps[j], id) && forall i | k < i < j :: !Concerns(steps[i], id)
  }

  /** A written request is answered by the first answer with its id that comes after it, or by the drain if
      that comes first; until then it is pending. */
  lemma {:induction false} AnsweredByTheFirst(steps: seq<Step>, k: nat, id: RequestId, w: nat)
    requires After(steps).Some? && k < |steps| && Written(steps, k, id, w)
    ensures (forall j | k < j < |steps| :: !Concerns(steps[j], id)) ==> Waits(After(steps).value, id, w)
    ensures forall j: nat | j < |steps| && FirstConcern(steps, k, j, id) :: Told(steps, j, w)
  {
    if forall j | k < j < |steps| :: !Concerns(steps[j], id) {
      WaitsUntilConcerned(steps, k, id, w);
    }
    forall j: nat | j < |steps| && FirstConcern(steps, k, j, id) ensures Told(steps, j, w) {
      FirstTells(steps, k, j, id, w);
    }
  }

  lemma StepAt(steps: seq<Step>, j: nat) returns (s: State, s': State)
    requires After(steps).Some? && j < |steps|
    ensures Steps(steps[..j], steps[j], s, s') && s'.completions <= After(steps).value.completions
  {
    PrefixRuns(steps, j);
    PrefixRuns(steps, j + 1);
    assert steps[..j + 1] == steps[..j] + [steps[j]];
    s, s' := After(steps[..j]).value, After(steps[..j + 1]).value;
  }

  lemma WaitsBefore(steps: seq<Step>, k: nat, j: nat, id: RequestId, w: nat)
    requires After(steps).Some? && k < j < |steps| && Written(steps, k, id, w)
    requires After(steps[..j]).Some? && forall i | k < i < j :: !Concerns(steps[i], id)
    ensures Waits(After(steps[..j]).value, id, w)
  {
    assert steps[..j][k] == steps[k] && steps[..j][..k] == steps[..k];
    WaitsUntilConcerned(steps[..j], k, id, w);
  }

  lemma FirstTells(steps: seq<Step>, k: nat, j: nat, id: RequestId, w: nat)
    requires After(steps).Some? && k < |steps| && j < |steps| && Written(steps, k, id, w)
    requires FirstConcern(steps, k, j, id)
    ensures Told(steps, j, w)
  {
    var s, s' := StepAt(steps, j);
    WaitsBefore(steps, k, j, id, w);
    Answered(steps[..j], steps[j], s, s', id);
    var c := s'.completions[|s'.completions| - 1];
    assert c in s'.completions;
  }

  lemma Answered(steps: seq<Step>, step: Step, s: State, s': State, id: RequestId)
    requires Steps(steps, step, s, s') && Concerns(step, id) && id in s.pending
    ensures s'.completions != []
    ensures var c := s'.completions[|s'.completions| - 1]; c.waiter == s.pending[id] && Tells(step, s, c.outcome)
  {
    StepTaken(steps, step, s, s');
    if s.phase.Handshake? { EmptyHandshake(steps, s); }
    match step
    case OnFrame(f, writeOk) => FrameSettles(steps, f, writeOk, s, s');
    case DrainOne(i) => Drains(steps, i, s, s');
  }
}
