/** Requests complete exactly once and events keep wire order, over every interleaving of commands,
    frames, event reads and the exit drain. */
module RemoteProofs {
  import opened Remote

  // ----- completions

  function Count(cs: seq<Completion>, w: nat): nat
  {
    if cs == [] then 0 else Count(cs[..|cs| - 1], w) + if cs[|cs| - 1].waiter == w then 1 else 0
  }

  lemma CountSnoc(cs: seq<Completion>, c: Completion, w: nat)
    ensures Count(cs + [c], w) == Count(cs, w) + if c.waiter == w then 1 else 0
  {
    assert (cs + [c])[..|cs + [c]| - 1] == cs;
  }

  /** The waiter is still owed an answer. */
  predicate IsPending(s: State, w: nat)
  {
    w in s.ids && s.ids[w] in s.pending && s.pending[s.ids[w]] == w
  }

  /** A waiter answered by a frame was answered by one the server sent, with the waiter's own id. */
  predicate Justified(s: State, c: Completion)
  {
    && c.waiter in s.ids
    && (c.outcome.Completed? ==> c.outcome.id == s.ids[c.waiter] && Response(c.outcome.id, c.outcome.result) in s.wire)
    && (c.outcome.Failed? ==> c.outcome.id == s.ids[c.waiter] && Error(c.outcome.id, c.outcome.error) in s.wire)
    && (c.outcome.Drained? ==> s.phase.Exited? && c.outcome.kind == ExitKind(s))
  }

  ghost predicate Inv(s: State)
  {
    && (forall id | id in s.pending :: s.pending[id] in s.ids && s.ids[s.pending[id]] == id)
    && (forall w :: Count(s.completions, w) == if w in s.ids && !IsPending(s, w) then 1 else 0)
    && (forall c | c in s.completions :: Justified(s, c))
    && (s.phase.Handshake? || s.phase.Refused? ==> s.ids == map[] && s.events == [])
  }

  lemma CompleteCounts(s: State, s': State, w: nat, o: Outcome)
    requires Inv(s) && w in s'.ids && s'.ids == s.ids[w := s'.ids[w]]
    requires s'.completions == s.completions + [Completion(w, o)]
    requires Count(s.completions, w) == 0 && !IsPending(s', w)
    requires forall v | v in s.ids && v != w :: IsPending(s', v) == IsPending(s, v)
    ensures forall v :: Count(s'.completions, v) == if v in s'.ids && !IsPending(s', v) then 1 else 0
  {
    forall v ensures Count(s'.completions, v) == if v in s'.ids && !IsPending(s', v) then 1 else 0 {
      CountSnoc(s.completions, Completion(w, o), v);
    }
  }

  lemma SettleInv(s: State, id: RequestId, o: Outcome)
    requires Inv(s)
    requires id in s.pending ==> Justified(s, Completion(s.pending[id], o))
    ensures Inv(Settle(s, id, o))
  {
    if id in s.pending {
      CompleteCounts(s, Settle(s, id, o), s.pending[id], o);
    }
  }

  lemma DuplicateInv(s: State, id: RequestId, w: nat, writeOk: bool)
    requires Inv(s) && Enabled(s, OnCommand(Request(id, w), writeOk)) && id in s.pending
    ensures Inv(Apply(s, OnCommand(Request(id, w), writeOk)))
  {
    var s' := Apply(s, OnCommand(Request(id, w), writeOk));
    assert forall c | c in s.completions :: Justified(s, c) && Justified(s', c);
    CompleteCounts(s, s', w, Duplicate);
  }

  lemma SubmittedInv(s: State, id: RequestId, w: nat)
    requires Inv(s) && Enabled(s, OnCommand(Request(id, w), true)) && id !in s.pending
    ensures Inv(Apply(s, OnCommand(Request(id, w), true)))
  {
    var s' := Apply(s, OnCommand(Request(id, w), true));
    assert forall c | c in s.completions :: Justified(s, c) && Justified(s', c);
    assert forall v :: v != w ==> IsPending(s', v) == IsPending(s, v);
    assert IsPending(s', w);
  }

  lemma UnwrittenInv(s: State, id: RequestId, w: nat)
    requires Inv(s) && Enabled(s, OnCommand(Request(id, w), false)) && id !in s.pending
    ensures Inv(Apply(s, OnCommand(Request(id, w), false)))
  {
    var s' := Apply(s, OnCommand(Request(id, w), false));
    assert forall c | c in s.completions :: Justified(s, c) && Justified(s', c);
    CompleteCounts(s, s', w, WriteFailed);
  }

  lemma RequestInv(s: State, id: RequestId, w: nat, writeOk: bool)
    requires Inv(s) && Enabled(s, OnCommand(Request(id, w), writeOk))
    ensures Inv(Apply(s, OnCommand(Request(id, w), writeOk)))
  {
    if id in s.pending { DuplicateInv(s, id, w, writeOk); }
    else if writeOk { SubmittedInv(s, id, w); }
    else { UnwrittenInv(s, id, w); }
  }

  lemma FrameInv(s: State, f: Frame, writeOk: bool)
    requires Inv(s) && Enabled(s, OnFrame(f, writeOk))
    ensures Inv(Apply(s, OnFrame(f, writeOk)))
  {
    var t := s.(wire := s.wire + [f]);
    SameCompletions(s, t);
    assert f in t.wire;
    if s.phase.Running? && f.Response? {
      SettleInv(t, f.id, Completed(f.id, f.result));
    } else if s.phase.Running? && f.Error? {
      SettleInv(t, f.id, Failed(f.id, f.error));
    } else {
      QuietFrame(s, f, writeOk);
      SameCompletions(s, Apply(s, OnFrame(f, writeOk)));
    }
  }

  /** Other frames settle nobody. */
  lemma QuietFrame(s: State, f: Frame, writeOk: bool)
    requires Inv(s) && Enabled(s, OnFrame(f, writeOk)) && !(s.phase.Running? && (f.Response? || f.Error?))
    ensures var s' := Apply(s, OnFrame(f, writeOk));
      && s'.completions == s.completions && s'.pending == s.pending && s'.ids == s.ids && s.wire <= s'.wire
      && (s'.phase.Handshake? || s'.phase.Refused? ==> s'.ids == map[] && s'.events == [])
  {
  }

  lemma SameCompletions(s: State, s': State)
    requires Inv(s) && !s.phase.Exited?
    requires s'.completions == s.completions && s'.pending == s.pending && s'.ids == s.ids && s.wire <= s'.wire
    requires s'.phase.Handshake? || s'.phase.Refused? ==> s'.ids == map[] && s'.events == []
    ensures Inv(s')
  {
    assert forall w :: IsPending(s', w) == IsPending(s, w);
    forall c | c in s'.completions ensures Justified(s', c) { assert Justified(s, c); }
  }

  lemma StepInv(s: State, step: Step)
    requires Inv(s) && Enabled(s, step)
    ensures Inv(Apply(s, step))
  {
    match step
    case OnCommand(c, writeOk) =>
      if c.Request? { RequestInv(s, c.id, c.waiter, writeOk); } else { SameCompletions(s, Apply(s, step)); }
    case OnFrame(f, writeOk) => FrameInv(s, f, writeOk);
    case NextEvent => Unmoved(s, Apply(s, step));
    case DropConsumer => Unmoved(s, Apply(s, step));
    case DrainOne(id) => SettleInv(s, id, Drained(ExitKind(s)));
  }

  lemma Unmoved(s: State, s': State)
    requires Inv(s) && !s.phase.Handshake? && !s.phase.Refused?
    requires s'.completions == s.completions && s'.pending == s.pending && s'.ids == s.ids && s'.wire == s.wire
    requires s'.phase == s.phase && s'.exitError == s.exitError
    ensures Inv(s')
  {
    assert forall w :: IsPending(s', w) == IsPending(s, w);
    forall c | c in s'.completions ensures Justified(s', c) { assert Justified(s, c); }
  }

  lemma {:induction false} InvAlways(steps: seq<Step>)
    ensures After(steps).Some? ==> Inv(After(steps).value)
    decreases |steps|
  {
    if steps != [] && After(steps).Some? {
      InvAlways(steps[..|steps| - 1]);
      StepInv(After(steps[..|steps| - 1]).value, steps[|steps| - 1]);
    }
  }

  /** Every submitted waiter is, at every moment, either still pending or completed exactly once; one
      that a frame completed got a frame with its own id. */
  lemma {:induction false} CompletedAtMostOnce(steps: seq<Step>, w: nat)
    requires After(steps).Some?
    ensures var s := After(steps).value;
      && Count(s.completions, w) <= 1
      && (w in s.ids <==> IsPending(s, w) || Count(s.completions, w) == 1)
      && !(IsPending(s, w) && Count(s.completions, w) == 1)
      && (forall c | c in s.completions :: Justified(s, c))
  {
    InvAlways(steps);
  }

  /** Once the worker has left its loop and drained, no waiter is left unanswered. */
  lemma {:induction false} NoWaiterLeft(steps: seq<Step>, w: nat)
    requires After(steps).Some? && After(steps).value.phase.Exited? && After(steps).value.pending == map[]
    requires w in After(steps).value.ids
    ensures Count(After(steps).value.completions, w) == 1
  {
    InvAlways(steps);
  }

  /** The drain can always be finished, and finishing it answers everyone. */
  lemma {:induction false} DrainAnswersEveryone(s: State, order: seq<RequestId>)
    requires Inv(s) && s.phase.Exited? && Distinct(order) && forall id :: id in order <==> id in s.pending
    ensures var s' := DrainAll(s, order);
      s'.pending == map[] && s'.ids == s.ids && forall w | w in s.ids :: Count(s'.completions, w) == 1
  {
    DrainFrom(s, order, |order|);
    assert order[..|order|] == order;
  }

  function IdSet(order: seq<RequestId>): set<RequestId> { set id | id in order }

  lemma DrainStep(s: State, id: RequestId)
    requires Inv(s) && s.phase.Exited? && id in s.pending
    ensures var s' := Settle(s, id, Drained(ExitKind(s)));
      Inv(s') && s'.phase.Exited? && s'.ids == s.ids && s'.pending.Keys == s.pending.Keys - {id}
  {
    SettleInv(s, id, Drained(ExitKind(s)));
  }

  lemma PrefixNext(order: seq<RequestId>, k: nat)
    requires k < |order|
    ensures IdSet(order[..k + 1]) == IdSet(order[..k]) + {order[k]}
  {
    assert order[..k + 1] == order[..k] + [order[k]];
  }

  lemma {:induction false} DrainFrom(s: State, order: seq<RequestId>, k: nat)
    requires Inv(s) && s.phase.Exited? && k <= |order| && Distinct(order)
    requires forall id :: id in order <==> id in s.pending
    ensures var s' := DrainAll(s, order[..k]);
      && Inv(s') && s'.phase.Exited? && s'.ids == s.ids
      && s'.pending.Keys == s.pending.Keys - IdSet(order[..k])
  {
    if k > 0 {
      DrainFrom(s, order, k - 1);
      assert order[..k][..k - 1] == order[..k - 1];
      PrefixNext(order, k - 1);
      assert order[k - 1] !in order[..k - 1];
      DrainStep(DrainAll(s, order[..k - 1]), order[k - 1]);
    }
  }

  /** A second request with an outstanding id is answered at once and leaves the first one alone. */
  lemma DuplicateRefused(s: State, id: RequestId, w: nat, writeOk: bool)
    requires Inv(s) && id in s.pending && Enabled(s, OnCommand(Request(id, w), writeOk))
    ensures var s' := Apply(s, OnCommand(Request(id, w), writeOk));
      && s'.pending == s.pending && s'.phase == s.phase && s'.events == s.events
      && IsPending(s', s.pending[id]) && Count(s'.completions, s.pending[id]) == 0
      && Count(s'.completions, w) == 1 && s'.completions == s.completions + [Completion(w, Duplicate)]
  {
    RequestInv(s, id, w, writeOk);
    CountSnoc(s.completions, Completion(w, Duplicate), s.pending[id]);
    CountSnoc(s.completions, Completion(w, Duplicate), w);
  }

  // ----- events

  function DecodedAll(wire: seq<Frame>): seq<Event>
  {
    if wire == [] then [] else DecodedAll(wire[..|wire| - 1]) + Decoded(wire[|wire| - 1])
  }

  /** Everything `next_event` has returned or will return. */
  function Stream(s: State): seq<Event> { s.consumed + s.pendingEvents + s.events }

  ghost predicate Ordered(s: State)
  {
    && Disconnected !in DecodedAll(s.wire)
    && (s.phase.Handshake? || s.phase.Refused? ==> s.events == [] && s.consumerOpen)
    && (s.announced ==> s.phase.Exited? && Stream(s) == DecodedAll(s.wire) + [Disconnected])
    && (!s.announced && s.consumerOpen ==> Stream(s) == DecodedAll(s.wire))
    && (!s.announced ==> Stream(s) <= DecodedAll(s.wire))
  }

  lemma DecodedSnoc(wire: seq<Frame>, f: Frame)
    ensures DecodedAll(wire + [f]) == DecodedAll(wire) + Decoded(f)
  {
    assert (wire + [f])[..|wire + [f]| - 1] == wire;
  }

  /** What one step adds to the stream and to the wire. */
  lemma Extended(s: State, s': State, added: seq<Event>, frames: seq<Event>)
    requires Ordered(s) && !s.announced && s'.consumerOpen == s.consumerOpen
    requires s'.consumed == s.consumed && DecodedAll(s'.wire) == DecodedAll(s.wire) + frames
    requires s'.pendingEvents + s'.events == s.pendingEvents + s.events + added
    requires Disconnected !in frames
    requires s'.phase.Handshake? || s'.phase.Refused? ==> s'.events == [] && s'.consumerOpen
    requires if s'.announced then s'.phase.Exited? && s.consumerOpen && added == [Disconnected] && frames == []
             else if s.consumerOpen then added == frames else added == []
    ensures Ordered(s')
  {
    assert Stream(s) == s.consumed + (s.pendingEvents + s.events);
    assert Stream(s') == s'.consumed + (s'.pendingEvents + s'.events) == Stream(s) + added;
  }

  lemma NoEventsYet(kept: seq<Event>, added: seq<Event>)
    ensures (kept + added) + [] == (kept + []) + added
  {
  }

  lemma HandshakeKeeps(s: State, f: Frame, writeOk: bool)
    requires s.phase.Handshake? && Ordered(s)
    ensures var s' := Apply(s, OnFrame(f, writeOk));
      && s'.pendingEvents == s.pendingEvents + Decoded(f) && s'.events == s.events == []
      && s'.consumed == s.consumed && s'.consumerOpen && !s'.announced && s'.wire == s.wire + [f]
  {
  }

  lemma HandshakeOrdered(s: State, f: Frame, writeOk: bool)
    requires Ordered(s) && s.phase.Handshake?
    ensures Ordered(Apply(s, OnFrame(f, writeOk)))
  {
    var s' := Apply(s, OnFrame(f, writeOk));
    DecodedSnoc(s.wire, f);
    var added := Decoded(f);
    HandshakeKeeps(s, f, writeOk);
    NoEventsYet(s.pendingEvents, added);
    Extended(s, s', added, added);
  }

  lemma Regroup(kept: seq<Event>, sent: seq<Event>, added: seq<Event>)
    ensures kept + (sent + added) == kept + sent + added
  {
  }

  /** What a frame adds to the worker's events. */
  lemma RunningKeeps(s: State, f: Frame, writeOk: bool) returns (added: seq<Event>)
    requires s.phase.Running? && Ordered(s)
    ensures var s' := Apply(s, OnFrame(f, writeOk));
      && s'.events == s.events + added && s'.pendingEvents == s.pendingEvents
      && s'.consumed == s.consumed && s'.consumerOpen == s.consumerOpen && s'.wire == s.wire + [f]
      && (s'.phase.Running? || s'.phase.Exited?)
      && (if s'.announced then s'.phase.Exited? && s.consumerOpen && added == [Disconnected] && Decoded(f) == []
          else if s.consumerOpen then added == Decoded(f) else added == [])
  {
    var s' := Apply(s, OnFrame(f, writeOk));
    added := if s'.announced then [Disconnected] else if s.consumerOpen then Decoded(f) else [];
  }

  lemma RunningOrdered(s: State, f: Frame, writeOk: bool)
    requires Ordered(s) && s.phase.Running?
    ensures Ordered(Apply(s, OnFrame(f, writeOk)))
  {
    var s' := Apply(s, OnFrame(f, writeOk));
    DecodedSnoc(s.wire, f);
    var added := RunningKeeps(s, f, writeOk);
    Regroup(s.pendingEvents, s.events, added);
    Extended(s, s', added, Decoded(f));
  }

  lemma StepOrdered(s: State, step: Step)
    requires Ordered(s) && Enabled(s, step)
    ensures Ordered(Apply(s, step))
  {
    var s' := Apply(s, step);
    match step
    case OnFrame(f, writeOk) =>
      if s.phase.Handshake? { HandshakeOrdered(s, f, writeOk); } else { RunningOrdered(s, f, writeOk); }
    case OnCommand(c, writeOk) =>
      var added := if s'.announced then [Disconnected] else [];
      assert s'.events == s.events + added;
      Extended(s, s', added, []);
    case NextEvent => ReadOrdered(s);
    case DropConsumer =>
    case DrainOne(_) =>
  }

  lemma MoveFirst(consumed: seq<Event>, kept: seq<Event>, sent: seq<Event>)
    ensures kept != [] ==> (consumed + [kept[0]]) + kept[1..] + sent == consumed + kept + sent
    ensures kept == [] && sent != [] ==> (consumed + [sent[0]]) + kept + sent[1..] == consumed + kept + sent
  {
  }

  lemma SameStream(s: State, s': State)
    requires Ordered(s) && Stream(s') == Stream(s) && s'.wire == s.wire && s'.phase == s.phase
    requires s'.announced == s.announced && s'.consumerOpen == s.consumerOpen
    requires !s.phase.Handshake? && !s.phase.Refused?
    ensures Ordered(s')
  {
  }

  lemma ReadOrdered(s: State)
    requires Ordered(s) && Enabled(s, NextEvent)
    ensures Ordered(Apply(s, NextEvent))
  {
    MoveFirst(s.consumed, s.pendingEvents, s.events);
    SameStream(s, Apply(s, NextEvent));
  }

  lemma {:induction false} OrderedAlways(steps: seq<Step>)
    ensures After(steps).Some? ==> Ordered(After(steps).value)
    decreases |steps|
  {
    if steps != [] && After(steps).Some? {
      OrderedAlways(steps[..|steps| - 1]);
      StepOrdered(After(steps[..|steps| - 1]).value, steps[|steps| - 1]);
    }
  }

  /** Across the handshake and the worker, `next_event` yields the decodable messages in wire order;
      a disconnect notice can only be the very last event, and a consumer that left early has seen a
      prefix. */
  lemma {:induction false} EventsInWireOrder(steps: seq<Step>)
    requires After(steps).Some?
    ensures var s := After(steps).value;
      && (s.consumerOpen ==> Stream(s) == DecodedAll(s.wire) + if s.announced then [Disconnected] else [])
      && Stream(s) <= DecodedAll(s.wire) + [Disconnected]
      && (forall i | 0 <= i < |Stream(s)| - 1 :: Stream(s)[i] != Disconnected)
  {
    OrderedAlways(steps);
    var s := After(steps).value;
    var all := DecodedAll(s.wire);
    forall i | 0 <= i < |Stream(s)| - 1 ensures Stream(s)[i] != Disconnected {
      assert Stream(s)[i] == (all + [Disconnected])[i] && i < |all| && all[i] in all;
    }
  }
}
