/** The analytics reducer: five maps updated by facts that arrive in any order, and events emitted
    when a join of facts is complete. Copied payloads are tokens. */
module Reducer {
  import opened Wrappers

  type Token = nat
  type ConnectionId = nat
  type RequestId = nat
  type Key = (ConnectionId, RequestId)

  datatype RequestState =
    | TurnStart(thread: string, images: nat)
    | TurnSteer(thread: string, expectedTurn: string, images: nat, createdAt: nat)

  datatype TurnState = TurnState(
    connection: Option<ConnectionId>, thread: Option<string>, images: Option<nat>,
    config: Option<Token>, startedAt: Option<nat>, usage: Option<Token>,
    completed: Option<Token>, steers: nat)

  const NEW_TURN := TurnState(None, None, None, None, None, None, None, 0)

  datatype Response =
    | ThreadInit(thread: string, metadata: Token)
    | TurnStarted'(request: RequestId, turn: string)
    | TurnSteered(request: RequestId, turn: string)
    | OtherResponse

  datatype Fact =
    | Initialize(connection: ConnectionId, metadata: Token)
    | Request(connection: ConnectionId, request: RequestId, state: Option<RequestState>)
    | Responded(connection: ConnectionId, response: Response)
    | ErrorResponse(connection: ConnectionId, request: RequestId, reason: Option<Token>)
    | TurnStartedNotice(turn: string, startedAt: Option<nat>)
    | TurnCompletedNotice(turn: string, completed: Token)
    | OtherNotice
    | Compaction(thread: string, payload: Token)
    | GuardianReview(thread: string, payload: Token)
    | TurnResolvedConfig(turn: string, thread: string, images: nat, config: Token)
    | TurnTokenUsage(turn: string, thread: string, usage: Token)
    | Stateless(payloads: seq<Token>)

  datatype Event =
    | ThreadInitialized(thread: string, client: Token, metadata: Token)
    | CompactionEvent(client: Token, metadata: Token, payload: Token)
    | GuardianEvent(client: Token, payload: Token)
    | SteerEvent(request: RequestState, acceptedTurn: Option<string>, reason: Option<Token>, client: Token,
                 metadata: Token)
    | TurnEvent(turn: string, state: TurnState, client: Token, metadata: Token)
    | StatelessEvent(payload: Token)

  datatype State = State(
    requests: map<Key, RequestState>, turns: map<string, TurnState>, connections: map<ConnectionId, Token>,
    threadConnections: map<string, ConnectionId>, threadMetadata: map<string, Token>)

  const EMPTY := State(map[], map[], map[], map[], map[])

  function TurnOrNew(s: State, turn: string): TurnState
  {
    if turn in s.turns then s.turns[turn] else NEW_TURN
  }

  function SetTurn(s: State, turn: string, t: TurnState): State { s.(turns := s.turns[turn := t]) }

  /** All four facts of the join are there, with the metadata the event needs. */
  predicate Ready(s: State, turn: string)
  {
    && turn in s.turns
    && var t := s.turns[turn];
    && t.thread.Some? && t.images.Some? && t.config.Some? && t.completed.Some?
    && t.connection.Some? && t.connection.value in s.connections
    && t.thread.value in s.threadMetadata
  }

  function MaybeEmit(s: State, turn: string): (State, seq<Event>)
  {
    if !Ready(s, turn) then (s, [])
    else
      var t := s.turns[turn];
      (s.(turns := s.turns - {turn}),
       [TurnEvent(turn, t, s.connections[t.connection.value], s.threadMetadata[t.thread.value])])
  }

  function SteerEvents(s: State, connection: ConnectionId, r: RequestState, accepted: Option<string>,
                       reason: Option<Token>): seq<Event>
  {
    if connection in s.connections && r.thread in s.threadMetadata
    then [SteerEvent(r, accepted, reason, s.connections[connection], s.threadMetadata[r.thread])] else []
  }

  function OnResponse(s: State, c: ConnectionId, r: Response): (State, seq<Event>)
  {
    match r
    case ThreadInit(thread, metadata) =>
      if c !in s.connections then (s, [])
      else
        (s.(threadConnections := s.threadConnections[thread := c],
            threadMetadata := s.threadMetadata[thread := metadata]),
         [ThreadInitialized(thread, s.connections[c], metadata)])
    case TurnStarted'(request, turn) =>
      var s' := s.(requests := s.requests - {(c, request)});
      if (c, request) !in s.requests || !s.requests[(c, request)].TurnStart? then (s', [])
      else
        var pending := s.requests[(c, request)];
        MaybeEmit(SetTurn(s', turn, TurnOrNew(s', turn).(connection := Some(c), thread := Some(pending.thread),
                                                         images := Some(pending.images))), turn)
    case TurnSteered(request, turn) =>
      var s' := s.(requests := s.requests - {(c, request)});
      if (c, request) !in s.requests || !s.requests[(c, request)].TurnSteer? then (s', [])
      else
        var s'' := if turn in s'.turns then SetTurn(s', turn, s'.turns[turn].(steers := s'.turns[turn].steers + 1))
          else s';
        (s'', SteerEvents(s'', c, s.requests[(c, request)], Some(turn), None))
    case OtherResponse => (s, [])
  }

  function Step(s: State, f: Fact): (State, seq<Event>)
  {
    match f
    case Initialize(c, metadata) => (s.(connections := s.connections[c := metadata]), [])
    case Request(c, r, state) =>
      (if state.Some? then s.(requests := s.requests[(c, r) := state.value]) else s, [])
    case Responded(c, r) => OnResponse(s, c, r)
    case ErrorResponse(c, r, reason) =>
      (s.(requests := s.requests - {(c, r)}),
       if (c, r) in s.requests && s.requests[(c, r)].TurnSteer?
       then SteerEvents(s, c, s.requests[(c, r)], None, reason) else [])
    case TurnStartedNotice(turn, startedAt) => (SetTurn(s, turn, TurnOrNew(s, turn).(startedAt := startedAt)), [])
    case TurnCompletedNotice(turn, completed) =>
      MaybeEmit(SetTurn(s, turn, TurnOrNew(s, turn).(completed := Some(completed))), turn)
    case OtherNotice => (s, [])
    case Compaction(thread, payload) =>
      (s, if thread in s.threadConnections && s.threadConnections[thread] in s.connections && thread in s.threadMetadata
          then [CompactionEvent(s.connections[s.threadConnections[thread]], s.threadMetadata[thread], payload)] else [])
    case GuardianReview(thread, payload) =>
      (s, if thread in s.threadConnections && s.threadConnections[thread] in s.connections
          then [GuardianEvent(s.connections[s.threadConnections[thread]], payload)] else [])
    case TurnResolvedConfig(turn, thread, images, config) =>
      var t := TurnOrNew(s, turn).(thread := Some(thread), images := Some(images), config := Some(config));
      MaybeEmit(SetTurn(s, turn, t), turn)
    case TurnTokenUsage(turn, thread, usage) =>
      MaybeEmit(SetTurn(s, turn, TurnOrNew(s, turn).(thread := Some(thread), usage := Some(usage))), turn)
    case Stateless(payloads) => (s, seq(|payloads|, i requires 0 <= i < |payloads| => StatelessEvent(payloads[i])))
  }

  /** The reducer with its five maps updated in place; each call returns the events it pushes. */
  class AnalyticsReducer {
    var requests: map<Key, RequestState>
    var turns: map<string, TurnState>
    var connections: map<ConnectionId, Token>
    var threadConnections: map<string, ConnectionId>
    var threadMetadata: map<string, Token>

    function View(): State
      reads this
    {
      State(requests, turns, connections, threadConnections, threadMetadata)
    }

    constructor ()
      ensures View() == EMPTY
    {
      requests, turns, connections, threadConnections, threadMetadata := map[], map[], map[], map[], map[];
    }

    method Ingest(f: Fact) returns (out: seq<Event>)
      modifies this
      ensures (View(), out) == Step(old(View()), f)
    {
      out := [];
      match f
      case Initialize(c, metadata) => connections := connections[c := metadata];
      case Request(c, r, state) =>
        if state.Some? { requests := requests[(c, r) := state.value]; }
      case Responded(c, r) => out := IngestResponse(c, r);
      case ErrorResponse(c, r, reason) =>
        if (c, r) in requests {
          var pending := requests[(c, r)];
          requests := requests - {(c, r)};
          if pending.TurnSteer? { out := EmitTurnSteerEvent(c, pending, None, reason); }
        } else {
          assert requests - {(c, r)} == requests;
        }
      case TurnStartedNotice(turn, startedAt) =>
        var t := EntryOrInsert(turn);
        t := t.(startedAt := startedAt);
        turns := turns[turn := t];
      case TurnCompletedNotice(turn, completed) =>
        var t := EntryOrInsert(turn);
        t := t.(completed := Some(completed));
        turns := turns[turn := t];
        out := MaybeEmitTurnEvent(turn);
      case OtherNotice =>
      case Compaction(thread, payload) =>
        if thread !in threadConnections { return; }
        if threadConnections[thread] !in connections { return; }
        if thread !in threadMetadata { return; }
        out := [CompactionEvent(connections[threadConnections[thread]], threadMetadata[thread], payload)];
      case GuardianReview(thread, payload) =>
        if thread !in threadConnections { return; }
        if threadConnections[thread] !in connections { return; }
        out := [GuardianEvent(connections[threadConnections[thread]], payload)];
      case TurnResolvedConfig(turn, thread, images, config) =>
        var t := EntryOrInsert(turn);
        t := t.(thread := Some(thread));
        t := t.(images := Some(images));
        t := t.(config := Some(config));
        turns := turns[turn := t];
        out := MaybeEmitTurnEvent(turn);
      case TurnTokenUsage(turn, thread, usage) =>
        var t := EntryOrInsert(turn);
        t := t.(thread := Some(thread));
        t := t.(usage := Some(usage));
        turns := turns[turn := t];
        out := MaybeEmitTurnEvent(turn);
      case Stateless(payloads) =>
        for i := 0 to |payloads|
          invariant out == seq(i, j requires 0 <= j < i => StatelessEvent(payloads[j]))
          invariant View() == old(View())
        {
          out := out + [StatelessEvent(payloads[i])];
        }
    }

    /** `turns.entry(turn).or_insert(..)`, read out; the caller writes the updated state back. */
    method EntryOrInsert(turn: string) returns (t: TurnState)
      ensures t == TurnOrNew(View(), turn)
    {
      return if turn in turns then turns[turn] else NEW_TURN;
    }

    method MaybeEmitTurnEvent(turn: string) returns (out: seq<Event>)
      modifies `turns
      ensures (View(), out) == MaybeEmit(old(View()), turn)
    {
      if turn !in turns { return []; }
      var t := turns[turn];
      if t.thread.None? || t.images.None? || t.config.None? || t.completed.None? { return []; }
      if t.connection.None? || t.connection.value !in connections { return []; }
      if t.thread.value !in threadMetadata { return []; }
      out := [TurnEvent(turn, t, connections[t.connection.value], threadMetadata[t.thread.value])];
      turns := turns - {turn};
    }

    method EmitTurnSteerEvent(c: ConnectionId, r: RequestState, accepted: Option<string>, reason: Option<Token>)
      returns (out: seq<Event>)
      ensures out == SteerEvents(View(), c, r, accepted, reason)
    {
      if c !in connections { return []; }
      if r.thread !in threadMetadata { return []; }
      return [SteerEvent(r, accepted, reason, connections[c], threadMetadata[r.thread])];
    }

    method IngestResponse(c: ConnectionId, r: Response) returns (out: seq<Event>)
      modifies this
      ensures (View(), out) == OnResponse(old(View()), c, r)
    {
      out := [];
      match r
      case ThreadInit(thread, metadata) =>
        if c !in connections { return; }
        threadConnections := threadConnections[thread := c];
        threadMetadata := threadMetadata[thread := metadata];
        out := [ThreadInitialized(thread, connections[c], metadata)];
      case TurnStarted'(request, turn) =>
        var key := (c, request);
        var found := if key in requests then Some(requests[key]) else None;
        requests := requests - {key};
        if found.None? || !found.value.TurnStart? { return; }
        var t := EntryOrInsert(turn);
        t := t.(connection := Some(c));
        t := t.(thread := Some(found.value.thread));
        t := t.(images := Some(found.value.images));
        turns := turns[turn := t];
        out := MaybeEmitTurnEvent(turn);
      case TurnSteered(request, turn) =>
        var key := (c, request);
        var found := if key in requests then Some(requests[key]) else None;
        requests := requests - {key};
        if found.None? || !found.value.TurnSteer? { return; }
        if turn in turns { turns := turns[turn := turns[turn].(steers := turns[turn].steers + 1)]; }
        out := EmitTurnSteerEvent(c, found.value, Some(turn), None);
      case OtherResponse =>
    }
  }

  /** The state after a sequence of facts. */
  function After(s: State, facts: seq<Fact>): State
    decreases |facts|
  {
    if facts == [] then s else Step(After(s, facts[..|facts| - 1]), facts[|facts| - 1]).0
  }
}
