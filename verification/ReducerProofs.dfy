/** The reducer's state invariant, and the join of a turn's three facts: in every order, interleaved
    with anything about other turns, it emits exactly one turn event, at the last of the three. */
module ReducerProofs {
  import opened Reducer
  import opened Wrappers

  // ----- the state invariant

  predicate Inv(s: State)
  {
    && s.threadConnections.Keys == s.threadMetadata.Keys
    && forall t | t in s.threadConnections :: s.threadConnections[t] in s.connections
  }

  lemma StepInv(s: State, f: Fact)
    requires Inv(s)
    ensures Inv(Step(s, f).0)
  {
  }

  lemma {:induction false} InvAlways(facts: seq<Fact>)
    ensures Inv(After(EMPTY, facts))
    decreases |facts|
  {
    if facts != [] {
      InvAlways(facts[..|facts| - 1]);
      StepInv(After(EMPTY, facts[..|facts| - 1]), facts[|facts| - 1]);
    }
  }

  /** In a reachable state the first lookup decides: the later drop branches of the compaction and
      guardian reports are dead. */
  lemma {:induction false} LaterDropsUnreachable(facts: seq<Fact>, thread: string, payload: Token)
    ensures var s := After(EMPTY, facts);
      && (|Step(s, Compaction(thread, payload)).1| == 1 <==> thread in s.threadConnections)
      && (|Step(s, GuardianReview(thread, payload)).1| == 1 <==> thread in s.threadConnections)
  {
    InvAlways(facts);
  }

  // ----- the join

  /** The turn under study: its id, its thread, and the pending request that started it. */
  datatype Plan = Plan(turn: string, thread: string, connection: ConnectionId, request: RequestId, images: nat)

  predicate IsStart(p: Plan, f: Fact)
  {
    f == Responded(p.connection, TurnStarted'(p.request, p.turn))
  }

  predicate IsConfig(p: Plan, f: Fact) { f.TurnResolvedConfig? && f.turn == p.turn }

  predicate IsDone(p: Plan, f: Fact) { f.TurnCompletedNotice? && f.turn == p.turn }

  /** Facts that do not interfere: they neither use the pending request's id nor start, configure or
      complete the turn; token usage for it names its own thread. */
  predicate Bystander(p: Plan, f: Fact)
  {
    match f
    case Request(c, r, state) => state.Some? ==> (c, r) != (p.connection, p.request)
    case ErrorResponse(c, r, _) => (c, r) != (p.connection, p.request)
    case Responded(c, r) =>
      && (r.TurnStarted'? ==> r.turn != p.turn && (c, r.request) != (p.connection, p.request))
      && (r.TurnSteered? ==> (c, r.request) != (p.connection, p.request))
    case TurnCompletedNotice(turn, _) => turn != p.turn
    case TurnResolvedConfig(turn, _, _, _) => turn != p.turn
    case TurnTokenUsage(turn, thread, _) => turn == p.turn ==> thread == p.thread
    case _ => true
  }

  /** What has arrived; `images` is from whichever of start and config came last. */
  datatype Got = Got(start: bool, config: Option<Token>, done: Option<Token>, images: Option<nat>)

  function See(p: Plan, g: Got, f: Fact): Got
  {
    if IsStart(p, f) then g.(start := true, images := Some(p.images))
    else if IsConfig(p, f) then g.(config := Some(f.config), images := Some(f.images))
    else if IsDone(p, f) then g.(done := Some(f.completed))
    else g
  }

  function GotOf(p: Plan, facts: seq<Fact>): Got
    decreases |facts|
  {
    if facts == [] then Got(false, None, None, None)
    else See(p, GotOf(p, facts[..|facts| - 1]), facts[|facts| - 1])
  }

  predicate Complete(g: Got) { g.start && g.config.Some? && g.done.Some? }

  /** The next fact is a bystander, or one of the three for the first time, on the turn's thread. */
  predicate Fits(p: Plan, g: Got, f: Fact)
  {
    || (IsStart(p, f) && !g.start)
    || (IsConfig(p, f) && g.config.None? && f.thread == p.thread)
    || (IsDone(p, f) && g.done.None?)
    || Bystander(p, f)
  }

  predicate OnceEach(p: Plan, facts: seq<Fact>)
    decreases |facts|
  {
    facts == [] ||
    (OnceEach(p, facts[..|facts| - 1]) && Fits(p, GotOf(p, facts[..|facts| - 1]), facts[|facts| - 1]))
  }

  /** The start request is pending on an initialised connection, the thread's metadata is recorded,
      and nothing is known of the turn yet. */
  predicate Pending(s: State, p: Plan)
  {
    && p.connection in s.connections && p.thread in s.threadMetadata
    && (p.connection, p.request) in s.requests
    && s.requests[(p.connection, p.request)] == TurnStart(p.thread, p.images)
    && p.turn !in s.turns
  }

  /** The turn's entry holds exactly what has arrived. */
  predicate Holds(t: TurnState, p: Plan, g: Got)
  {
    && t.connection == (if g.start then Some(p.connection) else None)
    && t.config == g.config && t.completed == g.done && t.images == g.images
    && (t.thread.Some? ==> t.thread.value == p.thread)
    && (g.start || g.config.Some? ==> t.thread.Some?)
  }

  /** Until the three are there the entry collects them; afterwards it has been handed out. */
  predicate Tracks(s: State, p: Plan, g: Got)
  {
    && p.connection in s.connections && p.thread in s.threadMetadata
    && (g.images.Some? <==> g.start || g.config.Some?)
    && (!g.start ==> (p.connection, p.request) in s.requests
                     && s.requests[(p.connection, p.request)] == TurnStart(p.thread, p.images))
    && Holds(TurnOrNew(s, p.turn), p, if Complete(g) then Got(false, None, None, None) else g)
  }

  /** The turn's own events among those a step emits. */
  function TurnEvents(turn: string, events: seq<Event>): seq<Event>
  {
    if events == [] then []
    else (if events[0].TurnEvent? && events[0].turn == turn then [events[0]] else []) + TurnEvents(turn, events[1..])
  }

  /** The event says what the three facts said, with the metadata `s` has for the plan's connection
      and thread. */
  predicate Reports(s: State, p: Plan, g: Got, e: Event)
  {
    && e.TurnEvent? && e.turn == p.turn && Holds(e.state, p, g)
    && p.connection in s.connections && e.client == s.connections[p.connection]
    && p.thread in s.threadMetadata && e.metadata == s.threadMetadata[p.thread]
  }

  lemma MaybeEmitOther(s: State, p: Plan, turn: string, g: Got)
    requires Tracks(s, p, g) && turn != p.turn
    ensures Tracks(MaybeEmit(s, turn).0, p, g) && TurnEvents(p.turn, MaybeEmit(s, turn).1) == []
  {
  }

  lemma MaybeEmitOwn(s: State, p: Plan, g: Got)
    requires p.connection in s.connections && p.thread in s.threadMetadata
    requires (g.images.Some? <==> g.start || g.config.Some?)
    requires !g.start ==> (p.connection, p.request) in s.requests
                          && s.requests[(p.connection, p.request)] == TurnStart(p.thread, p.images)
    requires p.turn in s.turns && Holds(s.turns[p.turn], p, g)
    ensures Tracks(MaybeEmit(s, p.turn).0, p, g)
    ensures var own := TurnEvents(p.turn, MaybeEmit(s, p.turn).1);
      if Complete(g) then |own| == 1 && Reports(s, p, g, own[0]) else own == []
  {
  }

  lemma ThreeStep(s: State, p: Plan, g: Got, f: Fact)
    requires Tracks(s, p, g) && Fits(p, g, f) && !Complete(g) && (IsStart(p, f) || IsConfig(p, f) || IsDone(p, f))
    ensures Tracks(Step(s, f).0, p, See(p, g, f))
    ensures var own := TurnEvents(p.turn, Step(s, f).1);
      if Complete(See(p, g, f)) then |own| == 1 && Reports(s, p, See(p, g, f), own[0]) else own == []
  {
    var t := TurnOrNew(s, p.turn);
    var g' := See(p, g, f);
    if IsStart(p, f) {
      var s' := s.(requests := s.requests - {(p.connection, p.request)});
      var t' := t.(connection := Some(p.connection), thread := Some(p.thread), images := Some(p.images));
      MaybeEmitOwn(SetTurn(s', p.turn, t'), p, g');
    } else if IsConfig(p, f) {
      var t' := t.(thread := Some(f.thread), images := Some(f.images), config := Some(f.config));
      MaybeEmitOwn(SetTurn(s, p.turn, t'), p, g');
    } else {
      MaybeEmitOwn(SetTurn(s, p.turn, t.(completed := Some(f.completed))), p, g');
    }
  }

  lemma NoTurnEvents(turn: string, events: seq<Event>)
    requires forall e | e in events :: !(e.TurnEvent? && e.turn == turn)
    ensures TurnEvents(turn, events) == []
  {
    if events != [] {
      NoTurnEvents(turn, events[1..]);
    }
  }

  lemma BystanderResponse(s: State, p: Plan, g: Got, c: ConnectionId, r: Response)
    requires Tracks(s, p, g) && Bystander(p, Responded(c, r))
    ensures Tracks(OnResponse(s, c, r).0, p, g) && TurnEvents(p.turn, OnResponse(s, c, r).1) == []
  {
    if r.TurnStarted'? {
      var s' := s.(requests := s.requests - {(c, r.request)});
      if (c, r.request) in s.requests && s.requests[(c, r.request)].TurnStart? {
        var pending := s.requests[(c, r.request)];
        MaybeEmitOther(SetTurn(s', r.turn, TurnOrNew(s', r.turn).(connection := Some(c), thread := Some(pending.thread),
                                                                 images := Some(pending.images))), p, r.turn, g);
      }
    } else {
      NoTurnEvents(p.turn, OnResponse(s, c, r).1);
    }
  }

  lemma BystanderStep(s: State, p: Plan, g: Got, f: Fact)
    requires Tracks(s, p, g) && Bystander(p, f)
    ensures Tracks(Step(s, f).0, p, g) && TurnEvents(p.turn, Step(s, f).1) == []
  {
    match f
    case Responded(c, r) => BystanderResponse(s, p, g, c, r);
    case TurnCompletedNotice(turn, completed) =>
      MaybeEmitOther(SetTurn(s, turn, TurnOrNew(s, turn).(completed := Some(completed))), p, turn, g);
    case TurnResolvedConfig(turn, thread, images, config) =>
      var t := TurnOrNew(s, turn).(thread := Some(thread), images := Some(images), config := Some(config));
      MaybeEmitOther(SetTurn(s, turn, t), p, turn, g);
    case TurnTokenUsage(turn, thread, usage) =>
      var s' := SetTurn(s, turn, TurnOrNew(s, turn).(thread := Some(thread), usage := Some(usage)));
      if turn != p.turn {
        MaybeEmitOther(s', p, turn, g);
      } else {
        assert !Ready(s', turn);
      }
    case _ => NoTurnEvents(p.turn, Step(s, f).1);
  }

  lemma {:induction false} TracksAlong(s: State, p: Plan, facts: seq<Fact>)
    requires Pending(s, p) && OnceEach(p, facts)
    ensures Tracks(After(s, facts), p, GotOf(p, facts))
    decreases |facts|
  {
    if facts != [] {
      TracksAlong(s, p, facts[..|facts| - 1]);
      TurnStep(s, p, facts);
    }
  }

  lemma TurnStep(s: State, p: Plan, facts: seq<Fact>)
    requires OnceEach(p, facts) && facts != []
    requires Tracks(After(s, facts[..|facts| - 1]), p, GotOf(p, facts[..|facts| - 1]))
    ensures Tracks(After(s, facts), p, GotOf(p, facts))
    ensures var own := TurnEvents(p.turn, Step(After(s, facts[..|facts| - 1]), facts[|facts| - 1]).1);
      if Complete(GotOf(p, facts)) && !Complete(GotOf(p, facts[..|facts| - 1]))
      then |own| == 1 && Reports(After(s, facts[..|facts| - 1]), p, GotOf(p, facts), own[0]) else own == []
  {
    var before, f := After(s, facts[..|facts| - 1]), facts[|facts| - 1];
    var g := GotOf(p, facts[..|facts| - 1]);
    if IsStart(p, f) || IsConfig(p, f) || IsDone(p, f) {
      ThreeStep(before, p, g, f);
    } else {
      BystanderStep(before, p, g, f);
    }
  }

  /** What the `i`-th fact makes the reducer emit about the turn. */
  function EmittedAt(s: State, p: Plan, facts: seq<Fact>, i: nat): seq<Event>
    requires i < |facts|
  {
    TurnEvents(p.turn, Step(After(s, facts[..i]), facts[i]).1)
  }

  lemma {:induction false} OnceEachPrefix(p: Plan, facts: seq<Fact>, i: nat)
    requires OnceEach(p, facts) && i <= |facts|
    ensures OnceEach(p, facts[..i])
    ensures Complete(GotOf(p, facts[..i])) ==> Complete(GotOf(p, facts))
    decreases |facts|
  {
    if i == |facts| {
      assert facts[..i] == facts;
    } else {
      OnceEachPrefix(p, facts[..|facts| - 1], i);
      assert facts[..|facts| - 1][..i] == facts[..i];
    }
  }

  /** The fact at `i` is the last of the three. */
  predicate Completes(p: Plan, facts: seq<Fact>, i: nat)
    requires i < |facts|
  {
    Complete(GotOf(p, facts[..i + 1])) && !Complete(GotOf(p, facts[..i]))
  }

  /** In every order of the three facts, each once, among any bystanders: the turn's event is emitted
      once, by the last of the three, and reports what they said; no other fact emits one. */
  lemma {:induction false} TurnEventConfluence(s: State, p: Plan, facts: seq<Fact>, i: nat)
    requires Pending(s, p) && OnceEach(p, facts) && i < |facts|
    ensures if Completes(p, facts, i)
            then |EmittedAt(s, p, facts, i)| == 1
                 && Reports(After(s, facts[..i]), p, GotOf(p, facts[..i + 1]), EmittedAt(s, p, facts, i)[0])
            else EmittedAt(s, p, facts, i) == []
  {
    OnceEachPrefix(p, facts, i + 1);
    OnceEachPrefix(p, facts, i);
    assert facts[..i + 1][..i] == facts[..i];
    TracksAlong(s, p, facts[..i]);
    TurnStep(s, p, facts[..i + 1]);
  }

  /** If all three arrived there is exactly one such position. */
  lemma {:induction false} ExactlyOneCompletes(p: Plan, facts: seq<Fact>)
    requires OnceEach(p, facts) && Complete(GotOf(p, facts))
    ensures exists i :: 0 <= i < |facts| && Completes(p, facts, i)
    ensures forall i, j | 0 <= i < |facts| && 0 <= j < |facts| && Completes(p, facts, i) && Completes(p, facts, j) ::
      i == j
    decreases |facts|
  {
    var n := |facts| - 1;
    assert facts[..n + 1] == facts;
    if Complete(GotOf(p, facts[..n])) {
      ExactlyOneCompletes(p, facts[..n]);
      forall i | 0 <= i < n ensures Completes(p, facts[..n], i) == Completes(p, facts, i) {
        assert facts[..n][..i] == facts[..i] && facts[..n][..i + 1] == facts[..i + 1];
      }
      var i :| 0 <= i < n && Completes(p, facts[..n], i);
      assert Completes(p, facts, i);
    } else {
      assert Completes(p, facts, n);
      forall i | 0 <= i < n ensures !Completes(p, facts, i) {
        assert facts[..n][..i + 1] == facts[..i + 1];
        OnceEachPrefix(p, facts[..n], i + 1);
      }
    }
  }

  /** The image count is the one field that can depend on the order: it comes from the later of start
      and config, so it is settled in advance exactly when the two agree. */
  lemma ImagesDependOnOrder(p: Plan, images: nat, config: Token, completed: Token)
    ensures var start, resolved, done :=
              Responded(p.connection, TurnStarted'(p.request, p.turn)),
              TurnResolvedConfig(p.turn, p.thread, images, config),
              TurnCompletedNotice(p.turn, completed);
      && OnceEach(p, [start, resolved, done]) && OnceEach(p, [resolved, start, done])
      && (GotOf(p, [start, resolved, done]) == GotOf(p, [resolved, start, done]) <==> images == p.images)
  {
    var start, resolved, done :=
      Responded(p.connection, TurnStarted'(p.request, p.turn)),
      TurnResolvedConfig(p.turn, p.thread, images, config),
      TurnCompletedNotice(p.turn, completed);
    Snoc(p, [], start);
    Snoc(p, [start], resolved);
    Snoc(p, [start, resolved], done);
    Snoc(p, [], resolved);
    Snoc(p, [resolved], start);
    Snoc(p, [resolved, start], done);
    assert [] + [start] == [start] && [] + [resolved] == [resolved];
    assert [start] + [resolved] == [start, resolved] && [resolved] + [start] == [resolved, start];
    assert [start, resolved] + [done] == [start, resolved, done];
    assert [resolved, start] + [done] == [resolved, start, done];
  }

  lemma Snoc(p: Plan, facts: seq<Fact>, f: Fact)
    ensures GotOf(p, facts + [f]) == See(p, GotOf(p, facts), f)
    ensures OnceEach(p, facts + [f]) <==> OnceEach(p, facts) && Fits(p, GotOf(p, facts), f)
  {
    assert (facts + [f])[..|facts + [f]| - 1] == facts;
  }

  /** In any order at all, the count reported is that of the later of start and config. */
  lemma {:induction false} ImagesFromTheLater(p: Plan, facts: seq<Fact>, i: nat)
    requires i < |facts| && (IsStart(p, facts[i]) || IsConfig(p, facts[i]))
    requires forall j | i < j < |facts| :: !IsStart(p, facts[j]) && !IsConfig(p, facts[j])
    ensures GotOf(p, facts).images == Some(if IsStart(p, facts[i]) then p.images else facts[i].images)
    decreases |facts|
  {
    if i < |facts| - 1 {
      ImagesFromTheLater(p, facts[..|facts| - 1], i);
    }
  }
}
