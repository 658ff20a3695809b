/** Safety of the session registry over every interleaving. A closed connection starts nothing more;
    `Enabled` asks that of `Start`. */
module CommandExecProofs {
  import opened CommandExec

  predicate Registered(s: State, c: CommandId)
    requires c < |s.commands|
  {
    Unfinished(s.commands[c]) && Registers(s.commands[c].key, s.commands[c].windows)
  }

  /** Sessions and unfinished commands mirror each other on open connections. */
  predicate Mirrors(s: State)
  {
    && (forall k | k in s.sessions ::
          && k.connection !in s.closed
          && var c := s.sessions[k].command;
          c < |s.commands| && s.commands[c].key == k && s.sessions[k] == SessionOf(s, c) && Registered(s, c))
    && (forall c | 0 <= c < |s.commands| && Registered(s, c) ::
          var k := s.commands[c].key;
          k.connection in s.closed || (k in s.sessions && s.sessions[k] == SessionOf(s, c)))
  }

  /** No two unfinished commands share a key. */
  predicate OnePerKey(s: State)
  {
    forall c, d | 0 <= c < |s.commands| && 0 <= d < |s.commands| && Registered(s, c) && Registered(s, d)
                  && s.commands[c].key == s.commands[d].key :: c == d
  }

  /** Every generated id was allotted once and used at most once. */
  predicate FreshIds(s: State)
  {
    && (forall n | n in s.allotted :: n < s.nextGenerated)
    && (forall c | 0 <= c < |s.commands| && s.commands[c].key.process.Generated? ::
          s.commands[c].key.process.n < s.nextGenerated && s.commands[c].key.process.n !in s.allotted)
    && (forall c, d | 0 <= c < |s.commands| && 0 <= d < |s.commands| && s.commands[c].key.process.Generated?
                      && s.commands[c].key.process == s.commands[d].key.process :: c == d)
  }

  predicate RepliesRight(s: State)
  {
    forall c | 0 <= c < |s.commands| ::
      s.commands[c].replies == if s.commands[c].phase.Replied? || s.commands[c].phase.Done? then 1 else 0
  }

  /** A terminate is on its way to the command, in its queue, or carried out. */
  predicate Terminating(s: State, c: CommandId)
    requires c < |s.commands|
  {
    Sending(c, Terminate, true) in s.inFlight || Told(s.commands[c])
  }

  predicate Told(c: Command) { Terminate in c.queue || c.terminateRequested }

  predicate Reaped(s: State)
  {
    && (forall m | m in s.inFlight :: m.command < |s.commands|)
    && (forall c | 0 <= c < |s.commands| :: |s.commands[c].queue| <= CONTROL_CAPACITY)
    && (forall c | 0 <= c < |s.commands| && Live(s.commands[c]) && s.commands[c].key.connection in s.closed ::
      Terminating(s, c))
  }

  predicate Inv(s: State)
  {
    Mirrors(s) && OnePerKey(s) && FreshIds(s) && RepliesRight(s) && Reaped(s)
  }

  // ----- steps that register

  lemma StartInv(s: State, key: Key, windows: bool)
    requires Inv(s) && Enabled(s, Start(key, windows))
    ensures Inv(Apply(s, Start(key, windows)))
  {
    var s' := Apply(s, Start(key, windows));
    StartReaped(s, key, windows);
    if Registers(key, windows) && key in s.sessions {
      SameCommands(s, s');
    } else {
      assert Extends(s, s');
      StartMirrors(s, s', key, windows);
      StartOnePerKey(s, s', key, windows);
      StartFresh(s, s', key, windows);
    }
  }

  lemma SameCommands(s: State, s': State)
    requires Inv(s) && s'.commands == s.commands && s'.sessions == s.sessions && s'.closed == s.closed
    ensures Mirrors(s') && OnePerKey(s') && RepliesRight(s')
  {
    assert forall d | 0 <= d < |s.commands| ::
      Registered(s', d) == Registered(s, d) && SessionOf(s', d) == SessionOf(s, d);
  }

  /** One command was appended. */
  predicate Extends(s: State, s': State)
  {
    |s'.commands| == |s.commands| + 1 && s'.commands[..|s.commands|] == s.commands && s'.closed == s.closed
  }

  lemma ExtendedSame(s: State, s': State, c: CommandId)
    requires Extends(s, s') && c < |s.commands|
    ensures s'.commands[c] == s.commands[c] && Registered(s', c) == Registered(s, c)
    ensures SessionOf(s', c) == SessionOf(s, c)
  {
    assert s'.commands[c] == s'.commands[..|s.commands|][c];
  }

  lemma StartMirrors(s: State, s': State, key: Key, windows: bool)
    requires Inv(s) && Extends(s, s') && key.connection !in s.closed && (Registers(key, windows) ==> key !in s.sessions)
    requires var c := |s.commands|;
      && s'.commands[c].key == key && s'.commands[c].windows == windows && Unfinished(s'.commands[c])
      && s'.sessions == if Registers(key, windows) then s.sessions[key := SessionOf(s', c)] else s.sessions
    ensures Mirrors(s')
  {
    forall k | k in s'.sessions
      ensures k.connection !in s'.closed
      ensures var c := s'.sessions[k].command;
        c < |s'.commands| && s'.commands[c].key == k && s'.sessions[k] == SessionOf(s', c) && Registered(s', c)
    {
      if k in s.sessions {
        ExtendedSame(s, s', s.sessions[k].command);
      }
    }
    forall c | 0 <= c < |s'.commands| && Registered(s', c)
      ensures var k := s'.commands[c].key;
        k.connection in s'.closed || (k in s'.sessions && s'.sessions[k] == SessionOf(s', c))
    {
      if c < |s.commands| { ExtendedSame(s, s', c); }
    }
  }

  lemma StartOnePerKey(s: State, s': State, key: Key, windows: bool)
    requires Inv(s) && Extends(s, s') && key.connection !in s.closed && (Registers(key, windows) ==> key !in s.sessions)
    requires s'.commands[|s.commands|].key == key && s'.commands[|s.commands|].windows == windows
    ensures OnePerKey(s')
  {
    forall c | 0 <= c < |s.commands| { ExtendedSame(s, s', c); }
  }

  lemma StartFresh(s: State, s': State, key: Key, windows: bool)
    requires Inv(s) && Extends(s, s') && s'.commands[|s.commands|].key == key && s'.commands[|s.commands|].replies == 0
    requires s'.commands[|s.commands|].phase.Spawning? || s'.commands[|s.commands|].phase.Running?
    requires key.process.Generated? ==> key.process.n in s.allotted
    requires s'.nextGenerated == s.nextGenerated
    requires s'.allotted == if key.process.Generated? then s.allotted - {key.process.n} else s.allotted
    ensures FreshIds(s') && RepliesRight(s')
  {
    forall c | 0 <= c < |s.commands| { ExtendedSame(s, s', c); }
  }

  lemma StartReaped(s: State, key: Key, windows: bool)
    requires Inv(s) && Enabled(s, Start(key, windows))
    ensures Reaped(Apply(s, Start(key, windows)))
  {
    var s' := Apply(s, Start(key, windows));
    assert forall c | 0 <= c < |s.commands| :: s'.commands[c] == s.commands[c];
    forall c | 0 <= c < |s'.commands| && Live(s'.commands[c]) && s'.commands[c].key.connection in s'.closed
      ensures Terminating(s', c)
    {
      assert c < |s.commands| && Terminating(s, c);
    }
  }

  // ----- steps that change one command and no session

  predicate SameRegistration(a: Command, b: Command)
  {
    && a.key == b.key && a.windows == b.windows && (Unfinished(a) <==> Unfinished(b))
    && (Live(b) ==> Live(a)) && |b.queue| <= CONTROL_CAPACITY
    && b.replies == if b.phase.Replied? || b.phase.Done? then 1 else 0
  }

  lemma UpdateInv(s: State, s': State, c: CommandId)
    requires Inv(s) && c < |s.commands| && |s'.commands| == |s.commands|
    requires s' == s.(commands := s.commands[c := s'.commands[c]], inFlight := s'.inFlight)
    requires SameRegistration(s.commands[c], s'.commands[c])
    requires forall m | m in s'.inFlight :: m in s.inFlight
    requires forall d | 0 <= d < |s.commands| && d != c :: Terminating(s, d) ==> Terminating(s', d)
    requires Terminating(s, c) ==> Terminating(s', c)
    ensures Inv(s')
  {
    assert forall d | 0 <= d < |s.commands| && d != c :: s'.commands[d] == s.commands[d];
    assert forall d | 0 <= d < |s.commands| ::
      Registered(s', d) == Registered(s, d) && SessionOf(s', d) == SessionOf(s, d);
    assert forall d | 0 <= d < |s.commands| :: s'.commands[d].key == s.commands[d].key;
    UpdateMirrors(s, s', c);
    assert OnePerKey(s');
  }

  lemma UpdateMirrors(s: State, s': State, c: CommandId)
    requires Inv(s) && c < |s.commands| && |s'.commands| == |s.commands|
    requires s'.sessions == s.sessions && s'.closed == s.closed
    requires forall d | 0 <= d < |s.commands| :: s'.commands[d].key == s.commands[d].key
    requires forall d | 0 <= d < |s.commands| ::
      Registered(s', d) == Registered(s, d) && SessionOf(s', d) == SessionOf(s, d)
    ensures Mirrors(s')
  {
  }

  lemma DeliverInv(s: State, m: Sending)
    requires Inv(s) && Enabled(s, Deliver(m))
    ensures Inv(Apply(s, Deliver(m)))
  {
    var s' := Apply(s, Deliver(m));
    var c := m.command;
    forall d | 0 <= d < |s.commands| && d != c && Terminating(s, d) ensures Terminating(s', d) {
      assert s'.commands[d] == s.commands[d];
    }
    if Receiving(s.commands[c]) {
      UpdateInv(s, s', c);
    } else {
      DroppedInv(s, s', m);
    }
  }

  /** A message to a command that no longer receives is lost, and nothing depended on it. */
  lemma DroppedInv(s: State, s': State, m: Sending)
    requires Inv(s) && m.command < |s.commands| && !Receiving(s.commands[m.command])
    requires s' == s.(inFlight := s.inFlight - multiset{m})
    ensures Inv(s')
  {
    assert forall d | 0 <= d < |s.commands| ::
      Registered(s', d) == Registered(s, d) && SessionOf(s', d) == SessionOf(s, d);
    forall d | 0 <= d < |s'.commands| && Live(s'.commands[d]) && s'.commands[d].key.connection in s'.closed
      ensures Terminating(s', d)
    {
      assert Terminating(s, d) && d != m.command;
    }
    UpdateMirrors(s, s', m.command);
  }

  // ----- steps that remove a session

  lemma RemoveInv(s: State, c: CommandId, phase: Phase)
    requires Inv(s) && c < |s.commands| && Unfinished(s.commands[c])
    requires (phase.Done? && s.commands[c].phase.Replied?) || (phase.SpawnFailed? && s.commands[c].phase.Spawning?)
    ensures Inv(Update(s, c, s.commands[c].(phase := phase)).(sessions := s.sessions - {s.commands[c].key}))
  {
    var s' := Update(s, c, s.commands[c].(phase := phase)).(sessions := s.sessions - {s.commands[c].key});
    assert forall d | 0 <= d < |s.commands| && d != c :: s'.commands[d] == s.commands[d];
    assert forall d | 0 <= d < |s.commands| && d != c ::
      Registered(s', d) == Registered(s, d) && SessionOf(s', d) == SessionOf(s, d);
    RemoveMirrors(s, s', c);
    forall d | 0 <= d < |s'.commands| && Live(s'.commands[d]) && s'.commands[d].key.connection in s'.closed
      ensures Terminating(s', d)
    {
      assert Terminating(s, d);
    }
  }

  lemma RemoveMirrors(s: State, s': State, c: CommandId)
    requires Inv(s) && c < |s.commands| && |s'.commands| == |s.commands| && Unfinished(s.commands[c])
    requires s'.sessions == s.sessions - {s.commands[c].key} && s'.closed == s.closed && !Unfinished(s'.commands[c])
    requires forall d | 0 <= d < |s.commands| && d != c :: s'.commands[d] == s.commands[d]
    ensures Mirrors(s')
  {
    var key := s.commands[c].key;
    if key in s.sessions { OwnSession(s, c); }
    assert forall d | 0 <= d < |s.commands| && Registered(s, d) && key in s.sessions && s.commands[d].key == key ::
      d == c;
    forall d | 0 <= d < |s'.commands| && Registered(s', d)
      ensures var k := s'.commands[d].key;
        k.connection in s'.closed || (k in s'.sessions && s'.sessions[k] == SessionOf(s', d))
    {
      assert d != c && Registered(s, d);
    }
    forall k | k in s'.sessions
      ensures k.connection !in s'.closed
      ensures var d := s'.sessions[k].command;
        d < |s'.commands| && s'.commands[d].key == k && s'.sessions[k] == SessionOf(s', d) && Registered(s', d)
    {
      assert k in s.sessions && k != key;
    }
  }

  /** The session under an unfinished command's key is its own, so removing by key removes that or none. */
  lemma OwnSession(s: State, c: CommandId)
    requires Inv(s) && c < |s.commands| && Unfinished(s.commands[c]) && s.commands[c].key in s.sessions
    ensures s.sessions[s.commands[c].key] == SessionOf(s, c)
  {
    var k := s.commands[c].key;
    var d := s.sessions[k].command;
    if !Registered(s, c) {
      assert k.process.Generated? && s.commands[d].key == k;
    }
  }

  lemma CloseInv(s: State, connection: ConnectionId)
    requires Inv(s)
    ensures Inv(Apply(s, CloseConnection(connection)))
  {
    var s' := Apply(s, CloseConnection(connection));
    assert forall d | 0 <= d < |s.commands| ::
      Registered(s', d) == Registered(s, d) && SessionOf(s', d) == SessionOf(s, d);
    CloseMirrors(s, s', connection);
    CloseReaped(s, s', connection);
  }

  lemma CloseMirrors(s: State, s': State, connection: ConnectionId)
    requires Inv(s) && s'.commands == s.commands && s'.closed == s.closed + {connection}
    requires s'.sessions == WithoutConnection(s.sessions, connection)
    ensures Mirrors(s')
  {
    forall d | 0 <= d < |s'.commands| && Registered(s', d)
      ensures var k := s'.commands[d].key;
        k.connection in s'.closed || (k in s'.sessions && s'.sessions[k] == SessionOf(s', d))
    {
      assert Registered(s, d);
    }
    forall k | k in s'.sessions
      ensures k.connection !in s'.closed
      ensures var c := s'.sessions[k].command;
        c < |s'.commands| && s'.commands[c].key == k && s'.sessions[k] == SessionOf(s', c) && Registered(s', c)
    {
      assert k in s.sessions && Registered(s, s.sessions[k].command);
    }
  }

  lemma CloseReaped(s: State, s': State, connection: ConnectionId)
    requires Inv(s) && s'.commands == s.commands && s'.closed == s.closed + {connection}
    requires s'.inFlight == s.inFlight + ClosingSends(ActiveOf(s.sessions, connection))
    ensures Reaped(s')
  {
    forall d | 0 <= d < |s'.commands| && Live(s'.commands[d]) && s'.commands[d].key.connection in s'.closed
      ensures Terminating(s', d)
    {
      if s.commands[d].key.connection in s.closed {
        assert Terminating(s, d);
      } else {
        var k := s.commands[d].key;
        assert Registered(s, d) && k in s.sessions && s.sessions[k] == Active(d);
        assert d in ActiveOf(s.sessions, connection);
        assert Sending(d, Terminate, true) in ClosingSends(ActiveOf(s.sessions, connection));
      }
    }
    forall m | m in s'.inFlight ensures m.command < |s'.commands| {
      if m !in s.inFlight {
        assert m in ClosingSends(ActiveOf(s.sessions, connection));
        assert m.command in ActiveOf(s.sessions, connection);
        var k :| k in s.sessions && k.connection == connection
          && s.sessions[k].Active? && s.sessions[k].command == m.command;
      }
    }
  }

  lemma StepInv(s: State, l: Label)
    requires Inv(s) && Enabled(s, l)
    ensures Inv(Apply(s, l))
  {
    var s' := Apply(s, l);
    match l
    case Allocate => AllocateInv(s);
    case Start(key, windows) => StartInv(s, key, windows);
    case SpawnResult(c, ok) => if ok { OneCommand(s, s', c); } else { RemoveInv(s, c, SpawnFailed); }
    case Lookup(key, control) => LookupInv(s, key, control);
    case Deliver(m) => DeliverInv(s, m);
    case TakeControl(c) => TakeInv(s, c);
    case ControlClosed(c) => OneCommand(s, s', c);
    case Expire(c) => OneCommand(s, s', c);
    case Exit(c) => OneCommand(s, s', c);
    case Reply(c) => OneCommand(s, s', c);
    case Unregister(c) => RemoveInv(s, c, Done);
    case CloseConnection(connection) => CloseInv(s, connection);
  }

  lemma AllocateInv(s: State)
    requires Inv(s)
    ensures Inv(Apply(s, Allocate))
  {
    var s' := Apply(s, Allocate);
    SameCommands(s, s');
    assert forall d | 0 <= d < |s.commands| :: Terminating(s, d) == Terminating(s', d);
  }

  lemma LookupInv(s: State, key: Key, control: Control)
    requires Inv(s) && Enabled(s, Lookup(key, control))
    ensures Inv(Apply(s, Lookup(key, control)))
  {
    var s' := Apply(s, Lookup(key, control));
    SameCommands(s, s');
    assert s.sessions[key].command < |s.commands|;
    forall d | 0 <= d < |s'.commands| && Live(s'.commands[d]) && s'.commands[d].key.connection in s'.closed
      ensures Terminating(s', d)
    {
      assert Terminating(s, d);
    }
  }

  lemma TakeInv(s: State, c: CommandId)
    requires Inv(s) && Enabled(s, TakeControl(c))
    ensures Inv(Apply(s, TakeControl(c)))
  {
    var s' := Apply(s, TakeControl(c));
    var q := s.commands[c].queue;
    assert q == [q[0]] + q[1..];
    OneCommand(s, s', c);
  }

  lemma OneCommand(s: State, s': State, c: CommandId)
    requires Inv(s) && c < |s.commands| && |s'.commands| == |s.commands|
    requires s' == s.(commands := s.commands[c := s'.commands[c]])
    requires SameRegistration(s.commands[c], s'.commands[c])
    requires Told(s.commands[c]) ==> Told(s'.commands[c])
    ensures Inv(s')
  {
    forall d | 0 <= d < |s.commands| && Terminating(s, d) ensures Terminating(s', d) {
      if d != c { assert s'.commands[d] == s.commands[d]; }
    }
    UpdateInv(s, s', c);
  }

  lemma {:induction false} InvAlways(labels: seq<Label>)
    ensures After(labels).Some? ==> Inv(After(labels).value)
    decreases |labels|
  {
    if labels != [] && After(labels).Some? {
      InvAlways(labels[..|labels| - 1]);
      StepInv(After(labels[..|labels| - 1]).value, labels[|labels| - 1]);
    }
  }

  // ----- what every run keeps

  /** At most one unfinished registered command per connection and process id, and while the
      connection is open the registry holds exactly that command's session. */
  lemma {:induction false} AtMostOnePerKey(labels: seq<Label>, c: CommandId, d: CommandId)
    requires After(labels).Some?
    requires var s := After(labels).value;
      && c < |s.commands| && d < |s.commands| && Registered(s, c) && Registered(s, d)
      && s.commands[c].key == s.commands[d].key
    ensures c == d
    ensures var s := After(labels).value; var k := s.commands[c].key;
      k.connection !in s.closed ==> k in s.sessions && s.sessions[k] == SessionOf(s, c)
  {
    InvAlways(labels);
  }

  /** A generated id names one command over the whole run, and never a client's. */
  lemma {:induction false} GeneratedIdsNeverCollide(labels: seq<Label>, c: CommandId, d: CommandId)
    requires After(labels).Some? && c < |After(labels).value.commands| && d < |After(labels).value.commands|
    requires After(labels).value.commands[c].key.process.Generated? && c != d
    ensures After(labels).value.commands[c].key.process != After(labels).value.commands[d].key.process
  {
    InvAlways(labels);
  }

  /** A started command replies at most once, a finished one has replied exactly once, and one whose
      spawn failed never does. */
  lemma {:induction false} RepliesOnce(labels: seq<Label>, c: CommandId)
    requires After(labels).Some? && c < |After(labels).value.commands|
    ensures var command := After(labels).value.commands[c];
      && command.replies <= 1
      && (command.phase.Done? ==> command.replies == 1)
      && (command.phase.SpawnFailed? || Live(command) ==> command.replies == 0)
  {
    InvAlways(labels);
  }

  /** Once `connection_closed` has sent what it owed, the connection has no session left and each of
      its commands still running or being spawned has a terminate in its queue or carried out. */
  lemma {:induction false} ClosedConnectionsAreReaped(labels: seq<Label>, connection: ConnectionId)
    requires After(labels).Some? && connection in After(labels).value.closed
    requires forall m | m in After(labels).value.inFlight && m.closing ::
      m.command < |After(labels).value.commands| ==>
        After(labels).value.commands[m.command].key.connection != connection
    ensures var s := After(labels).value;
      && (forall k | k in s.sessions :: k.connection != connection)
      && (forall c | 0 <= c < |s.commands| && s.commands[c].key.connection == connection && Live(s.commands[c]) ::
        Told(s.commands[c]))
  {
    InvAlways(labels);
    var s := After(labels).value;
    forall c | 0 <= c < |s.commands| && s.commands[c].key.connection == connection && Live(s.commands[c])
      ensures Told(s.commands[c])
    {
      assert Terminating(s, c);
    }
  }
}
