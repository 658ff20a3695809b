/** The command execution manager: a session registry shared by concurrently running commands, each
    with a bounded control channel, against every interleaving of starts, control messages, process
    exits and connection closes. */
module CommandExec {
  import opened Wrappers

  type ConnectionId = nat
  type CommandId = nat

  datatype ProcessId = Generated(n: nat) | Client(name: string)

  datatype Key = Key(connection: ConnectionId, process: ProcessId)

  /** Which command's control channel the session holds, if it has one. */
  datatype Session = Active(command: CommandId) | UnsupportedWindows(command: CommandId)

  type Sessions = map<Key, Session>

  datatype Control = Write | Resize | Terminate

  const CONTROL_CAPACITY := 32

  datatype Phase = Spawning | Running | ExitSeen | Replied | Done | SpawnFailed

  datatype Command = Command(
    key: Key, windows: bool, phase: Phase, queue: seq<Control>, controlOpen: bool,
    terminateRequested: bool, replies: nat)

  /** A control message on its way to a command's channel; `closing` when `connection_closed` sends it. */
  datatype Sending = Sending(command: CommandId, control: Control, closing: bool)

  datatype State = State(
    sessions: Sessions, nextGenerated: nat, allotted: set<nat>, commands: seq<Command>,
    inFlight: multiset<Sending>, closed: set<ConnectionId>)

  datatype Label =
    | Allocate
    | Start(key: Key, windows: bool)
    | SpawnResult(c: CommandId, ok: bool)
    | Lookup(key: Key, control: Control)
    | Deliver(sending: Sending)
    | TakeControl(c: CommandId)
    | ControlClosed(c: CommandId)
    | Expire(c: CommandId)
    | Exit(c: CommandId)
    | Reply(c: CommandId)
    | Unregister(c: CommandId)
    | CloseConnection(connection: ConnectionId)

  const INITIAL := State(map[], 1, {}, [], multiset{}, {})

  /** Commands on the Windows sandbox path with a generated id are never registered. */
  predicate Registers(key: Key, windows: bool) { windows ==> key.process.Client? }

  predicate Unfinished(c: Command) { !c.phase.Done? && !c.phase.SpawnFailed? }

  /** The command's receiver exists: from registration until it has replied. */
  predicate Receiving(c: Command) { !c.windows && (c.phase.Spawning? || c.phase.Running? || c.phase.ExitSeen?) }

  predicate Live(c: Command) { !c.windows && (c.phase.Spawning? || c.phase.Running?) }

  function SessionOf(s: State, c: CommandId): Session
    requires c < |s.commands|
  {
    if s.commands[c].windows then UnsupportedWindows(c) else Active(c)
  }

  predicate HoldsSender(s: State, c: CommandId)
  {
    (exists k | k in s.sessions :: s.sessions[k] == Active(c)) || exists m | m in s.inFlight :: m.command == c
  }

  predicate Enabled(s: State, l: Label)
  {
    match l
    case Allocate => true
    case Start(key, _) =>
      key.connection !in s.closed && (key.process.Generated? ==> key.process.n in s.allotted)
    case SpawnResult(c, _) => c < |s.commands| && s.commands[c].phase.Spawning?
    case Lookup(key, _) => key.process.Client? && key in s.sessions && s.sessions[key].Active?
    case Deliver(m) =>
      m in s.inFlight && m.command < |s.commands|
      && (Receiving(s.commands[m.command]) ==> |s.commands[m.command].queue| < CONTROL_CAPACITY)
    case TakeControl(c) =>
      c < |s.commands| && !s.commands[c].windows && s.commands[c].phase.Running? && s.commands[c].queue != []
    case ControlClosed(c) =>
      c < |s.commands| && !s.commands[c].windows && s.commands[c].phase.Running? && s.commands[c].controlOpen
      && s.commands[c].queue == [] && !HoldsSender(s, c)
    case Expire(c) => c < |s.commands| && s.commands[c].phase.Running?
    case Exit(c) => c < |s.commands| && s.commands[c].phase.Running?
    case Reply(c) => c < |s.commands| && s.commands[c].phase.ExitSeen?
    case Unregister(c) => c < |s.commands| && s.commands[c].phase.Replied?
    case CloseConnection(_) => true
  }

  function Update(s: State, c: CommandId, command: Command): State
    requires c < |s.commands|
  {
    s.(commands := s.commands[c := command])
  }

  /** The sessions left when a connection goes away. */
  function WithoutConnection(sessions: Sessions, connection: ConnectionId): Sessions
  {
    map k | k in sessions && k.connection != connection :: sessions[k]
  }

  /** The commands `connection_closed` tells to terminate: those of the active sessions it removes. */
  function ActiveOf(sessions: Sessions, connection: ConnectionId): set<CommandId>
  {
    set k | k in sessions && k.connection == connection && sessions[k].Active? :: sessions[k].command
  }

  function ClosingSends(commands: set<CommandId>): multiset<Sending>
  {
    multiset(set c | c in commands :: Sending(c, Terminate, true))
  }

  function Apply(s: State, l: Label): State
    requires Enabled(s, l)
  {
    match l
    case Allocate => s.(nextGenerated := s.nextGenerated + 1, allotted := s.allotted + {s.nextGenerated})
    case Start(key, windows) =>
      var s := if key.process.Generated? then s.(allotted := s.allotted - {key.process.n}) else s;
      if Registers(key, windows) && key in s.sessions then s
      else
        var c := |s.commands|;
        s.(commands := s.commands + [Command(key, windows, if windows then Running else Spawning, [], true, false, 0)],
           sessions := if !Registers(key, windows) then s.sessions
                       else s.sessions[key := if windows then UnsupportedWindows(c) else Active(c)])
    case SpawnResult(c, ok) =>
      if ok then Update(s, c, s.commands[c].(phase := Running))
      else Update(s, c, s.commands[c].(phase := SpawnFailed)).(sessions := s.sessions - {s.commands[c].key})
    case Lookup(key, control) =>
      s.(inFlight := s.inFlight + multiset{Sending(s.sessions[key].command, control, false)})
    case Deliver(m) =>
      var s := s.(inFlight := s.inFlight - multiset{m});
      if Receiving(s.commands[m.command])
      then Update(s, m.command, s.commands[m.command].(queue := s.commands[m.command].queue + [m.control]))
      else s
    case TakeControl(c) =>
      var command := s.commands[c];
      Update(s, c, command.(queue := command.queue[1..],
                            terminateRequested := command.terminateRequested || command.queue[0].Terminate?))
    case ControlClosed(c) => Update(s, c, s.commands[c].(controlOpen := false, terminateRequested := true))
    case Expire(c) => Update(s, c, s.commands[c].(terminateRequested := true))
    case Exit(c) => Update(s, c, s.commands[c].(phase := ExitSeen))
    case Reply(c) => Update(s, c, s.commands[c].(phase := Replied, replies := s.commands[c].replies + 1))
    case Unregister(c) =>
      Update(s, c, s.commands[c].(phase := Done)).(sessions := s.sessions - {s.commands[c].key})
    case CloseConnection(connection) =>
      s.(sessions := WithoutConnection(s.sessions, connection),
         inFlight := s.inFlight + ClosingSends(ActiveOf(s.sessions, connection)),
         closed := s.closed + {connection})
  }

  /** The state a sequence of steps leads to, if each is enabled in turn. */
  function After(labels: seq<Label>): Option<State>
    decreases |labels|
  {
    if labels == [] then Some(INITIAL)
    else
      var before := After(labels[..|labels| - 1]);
      var l := labels[|labels| - 1];
      if before.Some? && Enabled(before.value, l) then Some(Apply(before.value, l)) else None
  }

  /** The registry itself, under its lock. */
  class SessionRegistry {
    var sessions: Sessions
    var nextGenerated: nat

    constructor ()
      ensures sessions == map[] && nextGenerated == 1
    {
      sessions, nextGenerated := map[], 1;
    }

    method AllocateId() returns (process: ProcessId)
      modifies `nextGenerated
      ensures process == Generated(old(nextGenerated)) && nextGenerated == old(nextGenerated) + 1
    {
      process := Generated(nextGenerated);
      nextGenerated := nextGenerated + 1;
    }

    method TryRegister(key: Key, session: Session) returns (ok: bool)
      modifies `sessions
      ensures ok == (key !in old(sessions))
      ensures sessions == if ok then old(sessions)[key := session] else old(sessions)
    {
      if key in sessions { return false; }
      sessions := sessions[key := session];
      return true;
    }

    /** The locked part of `connection_closed`: the connection's keys are listed, then removed one by
        one, and the commands of the active sessions are returned to be told to terminate. */
    method TakeConnection(connection: ConnectionId) returns (controls: set<CommandId>)
      modifies `sessions
      ensures sessions == WithoutConnection(old(sessions), connection)
      ensures controls == ActiveOf(old(sessions), connection)
    {
      var rest := set k | k in sessions && k.connection == connection;
      controls := {};
      while rest != {}
        invariant forall k | k in rest :: k in sessions && k.connection == connection
        invariant forall k | k in sessions :: k in old(sessions) && sessions[k] == old(sessions)[k]
        invariant forall k | k in old(sessions) && k.connection != connection :: k in sessions
        invariant forall k | k in sessions && k.connection == connection :: k in rest
        invariant controls + ActiveOf(sessions, connection) == ActiveOf(old(sessions), connection)
      {
        var key :| key in rest;
        var session := sessions[key];
        rest := rest - {key};
        RemoveOne(sessions, connection, key);
        sessions := sessions - {key};
        if session.Active? { controls := controls + {session.command}; }
      }
    }
  }

  lemma RemoveOne(sessions: Sessions, connection: ConnectionId, key: Key)
    requires key in sessions && key.connection == connection
    ensures ActiveOf(sessions, connection) ==
      ActiveOf(sessions - {key}, connection) + if sessions[key].Active? then {sessions[key].command} else {}
  {
    var rest := sessions - {key};
    forall c | c in ActiveOf(sessions, connection)
      ensures c in ActiveOf(rest, connection) || (sessions[key].Active? && c == sessions[key].command)
    {
      var k :| k in sessions && k.connection == connection && sessions[k].Active? && sessions[k].command == c;
      if k != key { assert k in rest && rest[k] == sessions[k]; }
    }
    forall c | c in ActiveOf(rest, connection) ensures c in ActiveOf(sessions, connection) {
      var k :| k in rest && k.connection == connection && rest[k].Active? && rest[k].command == c;
      assert k in sessions && sessions[k] == rest[k];
    }
  }
}
