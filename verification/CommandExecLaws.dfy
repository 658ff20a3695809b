/** What becomes of control messages over whole runs: who can make a command terminate, and that a
    client's terminate arrives. */
module CommandExecLaws {
  import opened CommandExec
  import opened CommandExecProofs
  import opened Wrappers

  /** A reachable state and the one a step leads to. */
  ghost predicate Steps(labels: seq<Label>, l: Label, s: State, s': State)
  {
    After(labels) == Some(s) && After(labels + [l]) == Some(s')
  }

  lemma StepTaken(labels: seq<Label>, l: Label, s: State, s': State)
    requires Steps(labels, l, s, s')
    ensures Inv(s) && Enabled(s, l) && s' == Apply(s, l)
  {
    InvAlways(labels);
    assert (labels + [l])[..|labels + [l]| - 1] == labels;
  }

  /** Nothing but the command `c` differs. */
  predicate OnlyCommand(s: State, s': State, c: CommandId)
  {
    && |s'.commands| == |s.commands| && (forall d | 0 <= d < |s.commands| && d != c :: s'.commands[d] == s.commands[d])
    && s'.nextGenerated == s.nextGenerated && s'.allotted == s.allotted && s'.closed == s.closed
  }

  /** What can happen next, step by step of a command's life; a message can arrive while its command's
      channel has room or when the command has stopped receiving, and the channel closes once no session
      and no message holds its sender. */
  lemma {:induction false} Possible(labels: seq<Label>, l: Label)
    requires After(labels).Some?
    ensures var s := After(labels).value;
      After(labels + [l]).Some? <==>
        match l
        case Allocate => true
        case Start(key, _) =>
          key.connection !in s.closed && (key.process.Generated? ==> key.process.n in s.allotted)
        case SpawnResult(c, _) => c < |s.commands| && s.commands[c].phase == Phase.Spawning
        case Lookup(key, _) => key.process.Client? && key in s.sessions && s.sessions[key].Active?
        case Deliver(m) =>
          && m in s.inFlight && m.command < |s.commands|
          && (Hears(s.commands[m.command]) ==> |s.commands[m.command].queue| < 32)
        case TakeControl(c) => c < |s.commands| && Waits(s.commands[c]) && |s.commands[c].queue| > 0
        case ControlClosed(c) =>
          && c < |s.commands| && Waits(s.commands[c]) && s.commands[c].controlOpen && |s.commands[c].queue| == 0
          && Active(c) !in s.sessions.Values && forall m | m in s.inFlight :: m.command != c
        case Expire(c) => c < |s.commands| && s.commands[c].phase == Running
        case Exit(c) => c < |s.commands| && s.commands[c].phase == Running
        case Reply(c) => c < |s.commands| && s.commands[c].phase == ExitSeen
        case Unregister(c) => c < |s.commands| && s.commands[c].phase == Replied
        case CloseConnection(_) => true
  {
    assert (labels + [l])[..|labels + [l]| - 1] == labels;
    InvAlways(labels);
  }

  /** The command's channel still has its receiver. */
  predicate Hears(c: Command) { !c.windows && c.phase in {Phase.Spawning, Running, ExitSeen} }

  /** The command's task is in its loop. */
  predicate Waits(c: Command) { !c.windows && c.phase == Running }

  // ----- one step

  /** Generated ids count up from one, and none is given out twice. */
  lemma {:induction false} Allocates(labels: seq<Label>, s: State, s': State)
    requires Steps(labels, Allocate, s, s')
    ensures s'.nextGenerated == s.nextGenerated + 1 && s'.allotted == s.allotted + {s.nextGenerated}
    ensures s.nextGenerated !in s.allotted && s.nextGenerated >= 1
    ensures forall c | 0 <= c < |s.commands| :: s.commands[c].key.process != Generated(s.nextGenerated)
    ensures s'.commands == s.commands && s'.sessions == s.sessions && s'.inFlight == s.inFlight
  {
    StepTaken(labels, Allocate, s, s');
    FromOne(labels);
  }

  lemma {:induction false} FromOne(labels: seq<Label>)
    requires After(labels).Some?
    ensures After(labels).value.nextGenerated >= 1
    decreases |labels|
  {
    if labels != [] { FromOne(labels[..|labels| - 1]); }
  }

  /** A start with a key that has a session is refused. Any other adds one command, which waits for its
      process unless it runs on the Windows sandbox, and a session for its key unless it is such a command with a
      generated id. */
  lemma {:induction false} Starts(labels: seq<Label>, key: Key, windows: bool, s: State, s': State)
    requires Steps(labels, Start(key, windows), s, s')
    ensures key.connection !in s.closed
    ensures key in s.sessions ==> s'.commands == s.commands && s'.sessions == s.sessions
    ensures key !in s.sessions ==>
      && s'.commands == s.commands + [Command(key, windows, if windows then Running else Spawning, [], true, false, 0)]
      && s'.sessions == if windows && key.process.Generated? then s.sessions
                        else s.sessions[key := if windows then UnsupportedWindows(|s.commands|)
                                               else Active(|s.commands|)]
    ensures s'.inFlight == s.inFlight
  {
    StepTaken(labels, Start(key, windows), s, s');
    GeneratedKeyIsFree(s, key);
  }

  lemma GeneratedKeyIsFree(s: State, key: Key)
    requires Inv(s)
    ensures key.process.Generated? && key.process.n in s.allotted ==> key !in s.sessions
  {
    if key in s.sessions { assert s.commands[s.sessions[key].command].key == key; }
  }

  /** A message for a client's process goes to the unfinished command under exactly that key. */
  lemma {:induction false} Addressed(labels: seq<Label>, key: Key, control: Control, s: State, s': State)
    requires Steps(labels, Lookup(key, control), s, s')
    ensures key.process.Client? && key in s.sessions && s.sessions[key].Active?
    ensures var c := s.sessions[key].command;
      && c < |s.commands| && s.commands[c].key == key && Unfinished(s.commands[c]) && !s.commands[c].windows
      && s'.inFlight == s.inFlight + multiset{Sending(c, control, false)}
      && s'.commands == s.commands && s'.sessions == s.sessions
  {
    StepTaken(labels, Lookup(key, control), s, s');
  }

  /** A message that arrives is queued last, within the channel's 32, or lost on a command that has stopped
      receiving. */
  lemma {:induction false} Delivered(labels: seq<Label>, m: Sending, s: State, s': State)
    requires Steps(labels, Deliver(m), s, s')
    ensures m in s.inFlight && s'.inFlight == s.inFlight - multiset{m} && s'.sessions == s.sessions
    ensures m.command < |s.commands| && OnlyCommand(s, s', m.command)
    ensures var c, c' := s.commands[m.command], s'.commands[m.command];
      if !c.windows && c.phase in {Phase.Spawning, Running, ExitSeen}
      then |c'.queue| <= 32 && c' == c.(queue := c.queue + [m.control]) else c' == c
  {
    StepTaken(labels, Deliver(m), s, s');
  }

  /** A running command takes the first message; only a terminate makes it terminate. */
  lemma {:induction false} Taken(labels: seq<Label>, c: CommandId, s: State, s': State)
    requires Steps(labels, TakeControl(c), s, s')
    ensures c < |s.commands| && s.commands[c].phase.Running? && s.commands[c].queue != []
    ensures OnlyCommand(s, s', c) && s'.sessions == s.sessions && s'.inFlight == s.inFlight
    ensures s.commands[c].queue == [s.commands[c].queue[0]] + s'.commands[c].queue
    ensures s'.commands[c].terminateRequested <==>
      s.commands[c].terminateRequested || s.commands[c].queue[0] == Terminate
    ensures s'.commands[c].phase == s.commands[c].phase
  {
    StepTaken(labels, TakeControl(c), s, s');
  }

  /** An expiry makes the command terminate; so does its control channel closing, which happens only after its
      connection has closed and it was told to terminate, and only once. */
  lemma {:induction false} Stopped(labels: seq<Label>, c: CommandId, l: Label, s: State, s': State)
    requires Steps(labels, l, s, s') && (l == Expire(c) || l == ControlClosed(c))
    ensures c < |s.commands| && OnlyCommand(s, s', c) && s'.sessions == s.sessions && s'.inFlight == s.inFlight
    ensures s'.commands[c].terminateRequested && s'.commands[c].queue == s.commands[c].queue
    ensures l.ControlClosed? ==> s.commands[c].key.connection in s.closed && s.commands[c].terminateRequested
    ensures l.ControlClosed? ==> s.commands[c].controlOpen && !s'.commands[c].controlOpen
  {
    StepTaken(labels, l, s, s');
    if l.ControlClosed? { OpenKeepsSender(s, c); }
  }

  lemma OpenKeepsSender(s: State, c: CommandId)
    requires Inv(s) && c < |s.commands| && !s.commands[c].windows && s.commands[c].phase.Running?
    ensures s.commands[c].key.connection in s.closed || HoldsSender(s, c)
  {
    assert Registered(s, c);
  }

  /** The phases of a command follow one another, each by its own step: a spawn succeeds or fails, the
      process exits, the reply is sent, the session is removed. A failed spawn and the removal take the
      session under the command's key away. */
  lemma {:induction false} Phases(labels: seq<Label>, l: Label, c: CommandId, s: State, s': State)
    requires Steps(labels, l, s, s') && c < |s.commands|
    ensures c < |s'.commands| && s'.commands[c].key == s.commands[c].key
    ensures s'.commands[c].phase ==
      if l == SpawnResult(c, true) then Running
      else if l == SpawnResult(c, false) then SpawnFailed
      else if l == Exit(c) then ExitSeen
      else if l == Reply(c) then Replied
      else if l == Unregister(c) then Done
      else s.commands[c].phase
    ensures l == SpawnResult(c, true) || l == SpawnResult(c, false) ==> s.commands[c].phase.Spawning?
    ensures l == Exit(c) ==> s.commands[c].phase.Running?
    ensures l == Reply(c) ==> s.commands[c].phase.ExitSeen? && s'.commands[c].replies == s.commands[c].replies + 1
    ensures l == Unregister(c) ==> s.commands[c].phase.Replied?
    ensures l == Unregister(c) || l == SpawnResult(c, false) ==> s'.sessions == s.sessions - {s.commands[c].key}
    ensures l.Exit? || l.Reply? || l == SpawnResult(c, true) ==> s'.sessions == s.sessions
  {
    StepTaken(labels, l, s, s');
  }

  // ----- nobody else terminates a command

  /** In the run the client asked for it, or the connection was closed. */
  predicate Asked(labels: seq<Label>, key: Key)
  {
    Lookup(key, Terminate) in labels || CloseConnection(key.connection) in labels
  }

  /** Every terminate on its way was asked for, and every command told to terminate was asked to or expired. */
  ghost predicate Reasoned(labels: seq<Label>, s: State)
  {
    && (forall n | n in s.closed :: CloseConnection(n) in labels)
    && (forall m | m in s.inFlight && m.control == Terminate ::
          m.command < |s.commands| && Asked(labels, s.commands[m.command].key))
    && (forall c | 0 <= c < |s.commands| && Terminate in s.commands[c].queue :: Asked(labels, s.commands[c].key))
    && (forall c: CommandId | c < |s.commands| && s.commands[c].terminateRequested ::
          Asked(labels, s.commands[c].key) || Expire(c) in labels)
  }

  lemma ReasonedInit()
    ensures Reasoned([], INITIAL)
  {
  }

  lemma AskedMore(labels: seq<Label>, l: Label, key: Key)
    requires Asked(labels, key)
    ensures Asked(labels + [l], key)
  {
  }

  /** The step leaves the messages and what commands were told as they are. */
  predicate Quiet(s: State, s': State)
  {
    && s'.inFlight == s.inFlight && s'.closed == s.closed && |s'.commands| >= |s.commands|
    && (forall c | 0 <= c < |s.commands| ::
          && s'.commands[c].key == s.commands[c].key && s'.commands[c].queue == s.commands[c].queue
          && s'.commands[c].terminateRequested == s.commands[c].terminateRequested)
    && (forall c | |s.commands| <= c < |s'.commands| ::
          s'.commands[c].queue == [] && !s'.commands[c].terminateRequested)
  }

  lemma QuietSteps(s: State, l: Label)
    requires Enabled(s, l)
    requires l.Allocate? || l.Start? || l.SpawnResult? || l.Exit? || l.Reply? || l.Unregister?
    ensures Quiet(s, Apply(s, l))
  {
  }

  lemma ReasonedQuiet(labels: seq<Label>, l: Label, s: State, s': State)
    requires Reasoned(labels, s) && Quiet(s, s')
    ensures Reasoned(labels + [l], s')
  {
  }

  lemma ReasonedSent(labels: seq<Label>, key: Key, control: Control, s: State, s': State)
    requires Steps(labels, Lookup(key, control), s, s') && Reasoned(labels, s)
    ensures Reasoned(labels + [Lookup(key, control)], s')
  {
    Addressed(labels, key, control, s, s');
    StepTaken(labels, Lookup(key, control), s, s');
    forall m | m in s'.inFlight && m.control == Terminate
      ensures m.command < |s'.commands| && Asked(labels + [Lookup(key, control)], s'.commands[m.command].key)
    {
      if m !in s.inFlight { assert m == Sending(s.sessions[key].command, control, false); }
    }
  }

  lemma ReasonedDelivered(labels: seq<Label>, m: Sending, s: State, s': State)
    requires Steps(labels, Deliver(m), s, s') && Reasoned(labels, s)
    ensures Reasoned(labels + [Deliver(m)], s')
  {
    Delivered(labels, m, s, s');
    StepTaken(labels, Deliver(m), s, s');
  }

  lemma ReasonedTaken(labels: seq<Label>, c: CommandId, s: State, s': State)
    requires Steps(labels, TakeControl(c), s, s') && Reasoned(labels, s)
    ensures Reasoned(labels + [TakeControl(c)], s')
  {
    Taken(labels, c, s, s');
    StepTaken(labels, TakeControl(c), s, s');
    assert Terminate in s'.commands[c].queue ==> Terminate in s.commands[c].queue;
    assert s.commands[c].queue[0] in s.commands[c].queue;
  }

  lemma ReasonedStopped(labels: seq<Label>, c: CommandId, l: Label, s: State, s': State)
    requires Steps(labels, l, s, s') && (l == Expire(c) || l == ControlClosed(c)) && Reasoned(labels, s)
    ensures Reasoned(labels + [l], s')
  {
    Stopped(labels, c, l, s, s');
    StepTaken(labels, l, s, s');
    if l.ControlClosed? { assert CloseConnection(s.commands[c].key.connection) in labels; }
    assert l in labels + [l];
  }

  lemma ReasonedClosed(labels: seq<Label>, connection: ConnectionId, s: State, s': State)
    requires Steps(labels, CloseConnection(connection), s, s') && Reasoned(labels, s)
    ensures Reasoned(labels + [CloseConnection(connection)], s')
  {
    var l := CloseConnection(connection);
    StepTaken(labels, l, s, s');
    assert l in labels + [l];
    forall m | m in s'.inFlight && m.control == Terminate
      ensures m.command < |s'.commands| && Asked(labels + [l], s'.commands[m.command].key)
    {
      if m in s.inFlight {
        AskedMore(labels, l, s.commands[m.command].key);
      } else {
        assert m in ClosingSends(ActiveOf(s.sessions, connection));
        assert m.command in ActiveOf(s.sessions, connection);
        var k :| k in s.sessions && k.connection == connection
          && s.sessions[k].Active? && s.sessions[k].command == m.command;
        assert s.commands[m.command].key == k;
      }
    }
  }

  lemma ReasonedStep(labels: seq<Label>, l: Label, s: State, s': State)
    requires Steps(labels, l, s, s') && Reasoned(labels, s)
    ensures Reasoned(labels + [l], s')
  {
    StepTaken(labels, l, s, s');
    match l
    case Lookup(key, control) => ReasonedSent(labels, key, control, s, s');
    case Deliver(m) => ReasonedDelivered(labels, m, s, s');
    case TakeControl(c) => ReasonedTaken(labels, c, s, s');
    case Expire(c) => ReasonedStopped(labels, c, l, s, s');
    case ControlClosed(c) => ReasonedStopped(labels, c, l, s, s');
    case CloseConnection(connection) => ReasonedClosed(labels, connection, s, s');
    case _ =>
      QuietSteps(s, l);
      ReasonedQuiet(labels, l, s, s');
  }

  lemma {:induction false} ReasonedAlways(labels: seq<Label>)
    requires After(labels).Some?
    ensures Reasoned(labels, After(labels).value)
    decreases |labels|
  {
    if labels != [] {
      var init, l := labels[..|labels| - 1], labels[|labels| - 1];
      ReasonedAlways(init);
      assert init + [l] == labels;
      ReasonedStep(init, l, After(init).value, After(labels).value);
    } else {
      ReasonedInit();
    }
  }

  /** In every run a command terminates only if its own client asked, its connection was closed, or it
      expired: a write or a resize never does it, nor anything sent to another command. */
  lemma {:induction false} TerminatedForAReason(labels: seq<Label>, c: CommandId)
    requires After(labels).Some? && c < |After(labels).value.commands|
    requires After(labels).value.commands[c].terminateRequested
    ensures var key := After(labels).value.commands[c].key;
      Lookup(key, Terminate) in labels || CloseConnection(key.connection) in labels || Expire(c) in labels
  {
    ReasonedAlways(labels);
  }

  // ----- a terminate arrives

  /** A terminate is under way to the command, queued, or carried out, or the command no longer runs. */
  predicate Obeys(s: State, c: CommandId)
    requires c < |s.commands|
  {
    Sending(c, Terminate, false) in s.inFlight || Told(s.commands[c]) || !Live(s.commands[c])
  }

  lemma ToldOn(s: State, l: Label, c: CommandId)
    requires Enabled(s, l) && c < |s.commands| && c < |Apply(s, l).commands| && Told(s.commands[c])
    ensures Told(Apply(s, l).commands[c])
  {
    if l == TakeControl(c) {
      var q := s.commands[c].queue;
      assert q == [q[0]] + q[1..];
    }
  }

  lemma EndedOn(s: State, l: Label, c: CommandId)
    requires Enabled(s, l) && c < |s.commands| && c < |Apply(s, l).commands| && !Live(s.commands[c])
    ensures !Live(Apply(s, l).commands[c])
  {
  }

  lemma SendingOn(s: State, l: Label, c: CommandId)
    requires Enabled(s, l) && c < |s.commands| && c < |Apply(s, l).commands|
    requires Sending(c, Terminate, false) in s.inFlight
    ensures Obeys(Apply(s, l), c)
  {
    var s', m := Apply(s, l), Sending(c, Terminate, false);
    if l == Deliver(m) {
      if Receiving(s.commands[c]) { assert s'.commands[c].queue[|s.commands[c].queue|] == Terminate; }
    } else {
      assert m in s'.inFlight;
    }
  }

  lemma CommandsStay(s: State, l: Label)
    requires Enabled(s, l)
    ensures |s.commands| <= |Apply(s, l).commands|
  {
  }

  lemma ObeysOn(s: State, l: Label, c: CommandId)
    requires Enabled(s, l) && c < |s.commands| && Obeys(s, c)
    ensures c < |Apply(s, l).commands| && Obeys(Apply(s, l), c)
  {
    CommandsStay(s, l);
    if Told(s.commands[c]) { ToldOn(s, l, c); }
    else if !Live(s.commands[c]) { EndedOn(s, l, c); }
    else { SendingOn(s, l, c); }
  }

  /** From the moment a client's terminate finds its command, whatever else happens, it is on its way,
      queued or carried out, or the command has stopped running. */
  lemma {:induction false} ClientTerminateArrives(labels: seq<Label>, i: nat, key: Key, c: CommandId)
    requires After(labels).Some? && i < |labels| && labels[i] == Lookup(key, Terminate)
    requires After(labels[..i]).Some? && key in After(labels[..i]).value.sessions
    requires After(labels[..i]).value.sessions[key] == Active(c)
    ensures c < |After(labels).value.commands| && Obeys(After(labels).value, c)
    decreases |labels|
  {
    var init, l := labels[..|labels| - 1], labels[|labels| - 1];
    InvAlways(init);
    if i == |labels| - 1 {
      assert After(init).value.sessions[key].command < |After(init).value.commands|;
      assert Sending(c, Terminate, false) in After(labels).value.inFlight;
    } else {
      assert init[i] == labels[i] && init[..i] == labels[..i];
      ClientTerminateArrives(init, i, key, c);
      ObeysOn(After(init).value, l, c);
    }
  }
}
