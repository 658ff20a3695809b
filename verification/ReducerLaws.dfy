/** What the reducer's maps hold after any sequence of facts, said about the facts, and what each kind of
    fact makes it report. */
module ReducerLaws {
  import opened Reducer
  import opened ReducerProofs
  import opened Wrappers

  lemma LastFact(facts: seq<Fact>) returns (s: State, f: Fact)
    requires facts != []
    ensures s == After(EMPTY, facts[..|facts| - 1]) && f == facts[|facts| - 1]
    ensures After(EMPTY, facts) == Step(s, f).0
  {
    s, f := After(EMPTY, facts[..|facts| - 1]), facts[|facts| - 1];
  }

  // ----- connections

  predicate Initializes(f: Fact, c: ConnectionId) { f.Initialize? && f.connection == c }

  ghost predicate LastInitializes(facts: seq<Fact>, i: nat, c: ConnectionId)
  {
    i < |facts| && Initializes(facts[i], c) && forall j | i < j < |facts| :: !Initializes(facts[j], c)
  }

  /** A connection is known once it was initialised, with the metadata it was last initialised with. */
  lemma {:induction false} ConnectionIs(facts: seq<Fact>, c: ConnectionId)
    ensures (forall f | f in facts :: !Initializes(f, c)) ==> c !in After(EMPTY, facts).connections
    ensures forall i: nat | LastInitializes(facts, i, c) ::
      c in After(EMPTY, facts).connections && After(EMPTY, facts).connections[c] == facts[i].metadata
    decreases |facts|
  {
    if facts != [] {
      var s, f := LastFact(facts);
      var init := facts[..|facts| - 1];
      ConnectionIs(init, c);
      ConnectionStep(s, f, c);
      assert forall g | g in init :: g in facts;
      assert f in facts;
      forall i: nat | LastInitializes(facts, i, c)
        ensures c in After(EMPTY, facts).connections && After(EMPTY, facts).connections[c] == facts[i].metadata
      {
        if i < |init| { assert LastInitializes(init, i, c); }
      }
    }
  }

  lemma ConnectionStep(s: State, f: Fact, c: ConnectionId)
    ensures Initializes(f, c) ==> Step(s, f).0.connections == s.connections[c := f.metadata]
    ensures !Initializes(f, c) ==> (c in Step(s, f).0.connections <==> c in s.connections)
    ensures !Initializes(f, c) && c in s.connections ==> Step(s, f).0.connections[c] == s.connections[c]
  {
  }

  // ----- threads

  /** At `i` an initialised connection announces the thread. */
  predicate Announces(facts: seq<Fact>, i: nat, thread: string)
  {
    && i < |facts| && facts[i].Responded? && facts[i].response.ThreadInit? && facts[i].response.thread == thread
    && exists j :: 0 <= j < i && Initializes(facts[j], facts[i].connection)
  }

  ghost predicate LastAnnounces(facts: seq<Fact>, i: nat, thread: string)
  {
    Announces(facts, i, thread) && forall j: nat | i < j :: !Announces(facts, j, thread)
  }

  lemma AnnouncesInit(facts: seq<Fact>, i: nat, thread: string)
    requires facts != [] && i < |facts| - 1
    ensures Announces(facts[..|facts| - 1], i, thread) <==> Announces(facts, i, thread)
  {
    var init := facts[..|facts| - 1];
    assert forall j | 0 <= j <= i :: init[j] == facts[j];
    if Announces(facts, i, thread) {
      var j :| 0 <= j < i && Initializes(facts[j], facts[i].connection);
      assert Initializes(init[j], init[i].connection);
    }
    if Announces(init, i, thread) {
      var j :| 0 <= j < i && Initializes(init[j], init[i].connection);
      assert Initializes(facts[j], facts[i].connection);
    }
  }

  lemma {:induction false} EverInitialized(facts: seq<Fact>, c: ConnectionId)
    ensures c in After(EMPTY, facts).connections <==> exists j :: 0 <= j < |facts| && Initializes(facts[j], c)
    decreases |facts|
  {
    if facts != [] {
      var s, f := LastFact(facts);
      var init := facts[..|facts| - 1];
      EverInitialized(init, c);
      ConnectionStep(s, f, c);
      if j :| 0 <= j < |init| && Initializes(init[j], c) { assert Initializes(facts[j], c); }
      if j :| 0 <= j < |facts| && Initializes(facts[j], c) {
        if j < |init| { assert Initializes(init[j], c); }
      }
      if Initializes(f, c) { assert Initializes(facts[|facts| - 1], c); }
    }
  }

  predicate HoldsThread(s: State, thread: string, c: ConnectionId, metadata: Token)
  {
    && thread in s.threadConnections && s.threadConnections[thread] == c
    && thread in s.threadMetadata && s.threadMetadata[thread] == metadata
  }

  lemma ThreadStep(s: State, f: Fact, thread: string)
    ensures var s' := Step(s, f).0;
      if f.Responded? && f.response.ThreadInit? && f.response.thread == thread && f.connection in s.connections
      then HoldsThread(s', thread, f.connection, f.response.metadata)
      else
        && (thread in s'.threadConnections <==> thread in s.threadConnections)
        && (thread in s'.threadMetadata <==> thread in s.threadMetadata)
        && (forall c, m :: HoldsThread(s, thread, c, m) ==> HoldsThread(s', thread, c, m))
  {
  }

  /** A thread's connection and metadata are those of the last response that announced it on an initialised
      connection; without one, nothing is known of the thread. */
  lemma {:induction false} ThreadIs(facts: seq<Fact>, thread: string)
    ensures (forall i: nat :: !Announces(facts, i, thread)) ==>
      thread !in After(EMPTY, facts).threadConnections && thread !in After(EMPTY, facts).threadMetadata
    ensures forall i: nat | LastAnnounces(facts, i, thread) ::
      HoldsThread(After(EMPTY, facts), thread, facts[i].connection, facts[i].response.metadata)
    decreases |facts|
  {
    if facts != [] {
      var s, f := LastFact(facts);
      var init, n := facts[..|facts| - 1], |facts| - 1;
      ThreadIs(init, thread);
      ThreadStep(s, f, thread);
      forall i: nat | i < n ensures Announces(init, i, thread) <==> Announces(facts, i, thread) {
        AnnouncesInit(facts, i, thread);
      }
      if f.Responded? { AnnouncedAtEnd(facts, thread); }
      forall i: nat | LastAnnounces(facts, i, thread)
        ensures HoldsThread(After(EMPTY, facts), thread, facts[i].connection, facts[i].response.metadata)
      {
        if i < n {
          assert Announces(init, i, thread) && !Announces(facts, n, thread);
          assert LastAnnounces(init, i, thread);
        }
      }
    }
  }

  lemma AnnouncedAtEnd(facts: seq<Fact>, thread: string)
    requires facts != [] && facts[|facts| - 1].Responded?
    ensures var f := facts[|facts| - 1];
      Announces(facts, |facts| - 1, thread) <==>
        && f.response.ThreadInit? && f.response.thread == thread
        && f.connection in After(EMPTY, facts[..|facts| - 1]).connections
  {
    var f, init := facts[|facts| - 1], facts[..|facts| - 1];
    EverInitialized(init, f.connection);
    if j :| 0 <= j < |init| && Initializes(init[j], f.connection) { assert Initializes(facts[j], f.connection); }
    if j :| 0 <= j < |init| && Initializes(facts[j], f.connection) { assert Initializes(init[j], f.connection); }
  }

  // ----- pending requests

  /** The fact files a turn request under this connection and id, or uses one up. */
  predicate Touches(f: Fact, c: ConnectionId, r: RequestId)
  {
    match f
    case Request(c', r', state) => state.Some? && c' == c && r' == r
    case Responded(c', TurnStarted'(r', _)) => c' == c && r' == r
    case Responded(c', TurnSteered(r', _)) => c' == c && r' == r
    case ErrorResponse(c', r', _) => c' == c && r' == r
    case _ => false
  }

  ghost predicate LastTouches(facts: seq<Fact>, i: nat, c: ConnectionId, r: RequestId)
  {
    i < |facts| && Touches(facts[i], c, r) && forall j | i < j < |facts| :: !Touches(facts[j], c, r)
  }

  lemma RequestStep(s: State, f: Fact, c: ConnectionId, r: RequestId)
    ensures var s' := Step(s, f).0;
      if Touches(f, c, r) then
        if f.Request? then (c, r) in s'.requests && s'.requests[(c, r)] == f.state.value else (c, r) !in s'.requests
      else
        && ((c, r) in s'.requests <==> (c, r) in s.requests)
        && ((c, r) in s.requests ==> s'.requests[(c, r)] == s.requests[(c, r)])
  {
  }

  /** A turn request is pending from when it is made until the first response or error with its connection
      and id, of whatever kind. */
  lemma {:induction false} RequestIs(facts: seq<Fact>, c: ConnectionId, r: RequestId)
    ensures (forall f | f in facts :: !Touches(f, c, r)) ==> (c, r) !in After(EMPTY, facts).requests
    ensures forall i: nat | LastTouches(facts, i, c, r) ::
      if facts[i].Request?
      then (c, r) in After(EMPTY, facts).requests && After(EMPTY, facts).requests[(c, r)] == facts[i].state.value
      else (c, r) !in After(EMPTY, facts).requests
    decreases |facts|
  {
    if facts != [] {
      var s, f := LastFact(facts);
      var init := facts[..|facts| - 1];
      RequestIs(init, c, r);
      RequestStep(s, f, c, r);
      assert forall g | g in init :: g in facts;
      assert f in facts;
      forall i: nat | LastTouches(facts, i, c, r)
        ensures if facts[i].Request?
                then (c, r) in After(EMPTY, facts).requests
                     && After(EMPTY, facts).requests[(c, r)] == facts[i].state.value
                else (c, r) !in After(EMPTY, facts).requests
      {
        if i < |init| { assert LastTouches(init, i, c, r); }
      }
    }
  }

  // ----- reports

  /** What is known of a connection and a thread, if both are. */
  function Known(s: State, c: ConnectionId, thread: string): Option<(Token, Token)>
  {
    if c in s.connections && thread in s.threadMetadata then Some((s.connections[c], s.threadMetadata[thread]))
    else None
  }

  /** The steering request a response or an error settles, if one is pending under its connection and id. */
  function Steering(s: State, f: Fact): Option<RequestState>
  {
    match f
    case Responded(c, TurnSteered(r, _)) =>
      if (c, r) in s.requests && s.requests[(c, r)].TurnSteer? then Some(s.requests[(c, r)]) else None
    case ErrorResponse(c, r, _) =>
      if (c, r) in s.requests && s.requests[(c, r)].TurnSteer? then Some(s.requests[(c, r)]) else None
    case _ => None
  }

  /** A settled steering request is reported once, as accepted by the turn or as rejected with the reason,
      exactly when its connection and thread are known; nothing else reports a steer. */
  lemma {:induction false} SteerReports(s: State, f: Fact)
    ensures Steering(s, f).Some? ==>
      var st, known := Steering(s, f).value, Known(s, f.connection, Steering(s, f).value.thread);
      Step(s, f).1 ==
        if known.None? then []
        else if f.ErrorResponse? then [SteerEvent(st, None, f.reason, known.value.0, known.value.1)]
        else [SteerEvent(st, Some(f.response.turn), None, known.value.0, known.value.1)]
    ensures Steering(s, f).None? ==> forall e | e in Step(s, f).1 :: !e.SteerEvent?
  {
  }

  /** In a reachable state a compaction or guardian report carries the metadata of the thread and of its
      connection, and is dropped exactly when the thread was never announced. */
  lemma {:induction false} ThreadReports(facts: seq<Fact>, thread: string, payload: Token)
    ensures var s := After(EMPTY, facts);
      var known := thread in s.threadConnections;
      && (known ==> s.threadConnections[thread] in s.connections && thread in s.threadMetadata)
      && Step(s, Compaction(thread, payload)) ==
           (s, if known then [CompactionEvent(s.connections[s.threadConnections[thread]],
                                              s.threadMetadata[thread], payload)] else [])
      && Step(s, GuardianReview(thread, payload)) ==
           (s, if known then [GuardianEvent(s.connections[s.threadConnections[thread]], payload)] else [])
  {
    InvAlways(facts);
  }

  /** A thread is reported when it is announced on an initialised connection, with what it was announced with. */
  lemma {:induction false} AnnouncementReports(facts: seq<Fact>, f: Fact)
    requires f.Responded? && f.response.ThreadInit?
    ensures var s, out := After(EMPTY, facts), Step(After(EMPTY, facts), f).1;
      if Announces(facts + [f], |facts|, f.response.thread) then
        && f.connection in s.connections
        && out == [ThreadInitialized(f.response.thread, s.connections[f.connection], f.response.metadata)]
      else out == []
  {
    AnnouncedAtEnd(facts + [f], f.response.thread);
    assert (facts + [f])[..|facts|] == facts;
  }

  /** A stateless fact is reported item by item, in order, and changes nothing. */
  lemma StatelessReports(s: State, payloads: seq<Token>)
    ensures var (s', out) := Step(s, Stateless(payloads));
      s' == s && |out| == |payloads| && forall i | 0 <= i < |out| :: out[i] == StatelessEvent(payloads[i])
  {
  }

  // ----- a turn's entry

  /** The turn a fact is about: its entry may change, and no other. */
  function About(s: State, f: Fact): Option<string>
  {
    match f
    case Responded(c, TurnStarted'(r, turn)) =>
      if (c, r) in s.requests && s.requests[(c, r)].TurnStart? then Some(turn) else None
    case Responded(c, TurnSteered(r, turn)) =>
      if Steering(s, f).Some? && turn in s.turns then Some(turn) else None
    case TurnStartedNotice(turn, _) => Some(turn)
    case TurnCompletedNotice(turn, _) => Some(turn)
    case TurnResolvedConfig(turn, _, _, _) => Some(turn)
    case TurnTokenUsage(turn, _, _) => Some(turn)
    case _ => None
  }

  lemma OtherTurnsKept(s: State, f: Fact, turn: string)
    requires About(s, f) != Some(turn)
    ensures turn in Step(s, f).0.turns <==> turn in s.turns
    ensures turn in s.turns ==> Step(s, f).0.turns[turn] == s.turns[turn]
  {
  }

  /** What the fact puts into the entry of the turn it is about; all the rest of the entry stays. */
  predicate Records(s: State, f: Fact, t: TurnState, t': TurnState)
  {
    match f
    case Responded(c, TurnStarted'(r, _)) =>
      && (c, r) in s.requests && s.requests[(c, r)].TurnStart?
      && t'.connection == Some(c) && t'.thread == Some(s.requests[(c, r)].thread)
      && t'.images == Some(s.requests[(c, r)].images)
      && t'.config == t.config && t'.startedAt == t.startedAt && t'.usage == t.usage && t'.completed == t.completed
      && t'.steers == t.steers
    case TurnStartedNotice(_, startedAt) => t' == t.(startedAt := startedAt)
    case TurnCompletedNotice(_, completed) => t' == t.(completed := Some(completed))
    case TurnResolvedConfig(_, thread, images, config) =>
      t' == t.(thread := Some(thread), images := Some(images), config := Some(config))
    case TurnTokenUsage(_, thread, usage) => t' == t.(thread := Some(thread), usage := Some(usage))
    case _ => t' == t.(steers := t.steers + 1)
  }

  /** The entry is whole: nothing that the event needs is missing. */
  predicate Whole(s: State, t: TurnState)
  {
    && t.images.Some? && t.config.Some? && t.completed.Some?
    && t.connection.Some? && t.thread.Some? && Known(s, t.connection.value, t.thread.value).Some?
  }

  /** A fact about a turn is recorded in its entry, new if there was none. When that makes the entry whole,
      it leaves the map and is reported as it then is, with what is known of its connection and thread; a
      started notice and a steer never report a turn. */
  lemma {:induction false} TurnRecorded(s: State, f: Fact, turn: string) returns (t': TurnState)
    requires About(s, f) == Some(turn)
    ensures Records(s, f, if turn in s.turns then s.turns[turn]
                          else TurnState(None, None, None, None, None, None, None, 0), t')
    ensures var (s', out) := Step(s, f);
      if Whole(s, t') && !f.TurnStartedNotice? && Steering(s, f).None? then
        && turn !in s'.turns
        && var known := Known(s, t'.connection.value, t'.thread.value).value;
        out == [TurnEvent(turn, t', known.0, known.1)]
      else
        && turn in s'.turns && s'.turns[turn] == t' && forall e | e in out :: !e.TurnEvent?
  {
    var t := TurnOrNew(s, turn);
    match f
    case Responded(c, TurnStarted'(r, _)) =>
      var pending := s.requests[(c, r)];
      t' := t.(connection := Some(c), thread := Some(pending.thread), images := Some(pending.images));
    case TurnStartedNotice(_, startedAt) => t' := t.(startedAt := startedAt);
    case TurnCompletedNotice(_, completed) => t' := t.(completed := Some(completed));
    case TurnResolvedConfig(_, thread, images, config) =>
      t' := t.(thread := Some(thread), images := Some(images), config := Some(config));
    case TurnTokenUsage(_, thread, usage) => t' := t.(thread := Some(thread), usage := Some(usage));
    case Responded(_, TurnSteered(_, _)) => t' := t.(steers := t.steers + 1);
  }
}
