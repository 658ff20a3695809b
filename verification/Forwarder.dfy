/** `forward_in_process_event` inside its worker loop: a bounded consumer queue with a lossless tier,
    a best-effort tier and lag markers, run against any schedule of consumer reads. */
module Forwarder {
  import opened Sequences
  import opened Wrappers

  datatype NoticeKind =
    | TurnCompleted | ItemCompleted | AgentMessageDelta | PlanDelta
    | ReasoningSummaryTextDelta | ReasoningTextDelta | OtherNotice

  datatype Event =
    | Lagged(skipped: nat)
    | Notice(kind: NoticeKind, id: nat)
    | ServerRequest(authRefresh: bool, id: nat)

  /** `event_requires_delivery`. */
  predicate RequiresDelivery(e: Event) { e.Notice? && !e.kind.OtherNotice? }

  /** The lossless tier: transcript text and completions. */
  predicate Lossless(e: Event)
  {
    e.Notice? && e.kind in {TurnCompleted, ItemCompleted, AgentMessageDelta, PlanDelta,
                            ReasoningSummaryTextDelta, ReasoningTextDelta}
  }

  lemma LosslessIff(e: Event)
    ensures RequiresDelivery(e) <==> Lossless(e)
  {
  }

  /** An item in the consumer queue: a forwarded event, or a lag marker the forwarder made. */
  datatype Item = Forwarded(e: Event) | Marker(n: nat)

  const USIZE_MAX: nat := 0xFFFF_FFFF_FFFF_FFFF

  function SaturatingInc(n: nat): nat { if n < USIZE_MAX then n + 1 else n }

  /** What happened, in order; kept only to state properties. */
  datatype Entry =
    | Delivered(e: Event)
    | Dropped(e: Event)
    | Flushed(n: nat)
    | Refused(e: Event)
    | Lost(e: Event)

  /** Where the forwarder stands between its suspension points. */
  datatype Pc = Idle | Flushing(e: Event) | Pushing(e: Event)

  datatype State = State(
    capacity: nat, queue: seq<Item>, consumed: seq<Item>, open: bool,
    enabled: bool, skipped: nat, pc: Pc,
    input: seq<Event>, rejected: seq<Event>, refused: seq<Event>,
    log: seq<Entry>)

  datatype Label = Take(e: Event) | Advance | Consume | Close

  /** `channel_capacity.max(1)`. */
  function Start(capacity: nat): State
  {
    State(if capacity == 0 then 1 else capacity, [], [], true, true, 0, Idle, [], [], [], [])
  }

  predicate HasRoom(s: State) { |s.queue| < s.capacity }

  /** A blocking send waits for room or for the consumer to go away; nothing else waits. */
  predicate Enabled(s: State, l: Label)
  {
    match l
    case Take(_) => s.pc.Idle? && s.enabled
    case Advance => !s.pc.Idle? && (RequiresDelivery(s.pc.e) ==> HasRoom(s) || !s.open)
    case Consume => s.open && s.queue != []
    case Close => s.open
  }

  function Drop(s: State, e: Event): State
  {
    s.(skipped := SaturatingInc(s.skipped), pc := Idle, log := s.log + [Dropped(e)],
       rejected := if e.ServerRequest? then s.rejected + [e] else s.rejected)
  }

  function Apply(s: State, l: Label): State
    requires Enabled(s, l)
  {
    match l
    case Take(e) =>
      var s' := s.(input := s.input + [e]);
      if e.ServerRequest? && e.authRefresh then s'.(refused := s.refused + [e], log := s.log + [Refused(e)])
      else if s.skipped > 0 then s'.(pc := Flushing(e))
      else s'.(pc := Pushing(e))
    case Advance =>
      var e := s.pc.e;
      if !s.open then s.(enabled := false, pc := Idle, log := s.log + [Lost(e)])
      else if !HasRoom(s) then Drop(s, e)
      else if s.pc.Flushing? then
        s.(queue := s.queue + [Marker(s.skipped)], skipped := 0, pc := Pushing(e), log := s.log + [Flushed(s.skipped)])
      else s.(queue := s.queue + [Forwarded(e)], pc := Idle, log := s.log + [Delivered(e)])
    case Consume => s.(queue := s.queue[1..], consumed := s.consumed + [s.queue[0]])
    case Close => s.(open := false)
  }

  /** The state a schedule leads to, if each of its steps is enabled in turn. */
  function After(capacity: nat, labels: seq<Label>): Option<State>
    decreases |labels|
  {
    if labels == [] then Some(Start(capacity))
    else
      var before := After(capacity, labels[..|labels| - 1]);
      var l := labels[|labels| - 1];
      if before.Some? && Enabled(before.value, l) then Some(Apply(before.value, l)) else None
  }

  // ----- reading the log

  /** The events the log accounts for, in order. */
  function Events(log: seq<Entry>): seq<Event>
  {
    if log == [] then [] else Events(Init(log)) + (if Last(log).Flushed? then [] else [Last(log).e])
  }

  function DeliveredEvents(log: seq<Entry>): seq<Event>
  {
    if log == [] then [] else DeliveredEvents(Init(log)) + (if Last(log).Delivered? then [Last(log).e] else [])
  }

  /** What the consumer queue received. */
  function Items(log: seq<Entry>): seq<Item>
  {
    if log == [] then []
    else Items(Init(log)) + ItemOf(Last(log))
  }

  function ItemOf(x: Entry): seq<Item>
  {
    if x.Delivered? then [Forwarded(x.e)] else if x.Flushed? then [Marker(x.n)] else []
  }

  function Requests(es: seq<Event>): seq<Event>
  {
    if es == [] then [] else Requests(Init(es)) + (if Last(es).ServerRequest? then [Last(es)] else [])
  }

  function Required(es: seq<Event>): seq<Event>
  {
    if es == [] then [] else Required(Init(es)) + (if Lossless(Last(es)) then [Last(es)] else [])
  }

  function DroppedEvents(log: seq<Entry>): seq<Event>
  {
    if log == [] then [] else DroppedEvents(Init(log)) + (if Last(log).Dropped? then [Last(log).e] else [])
  }

  function RefusedEvents(log: seq<Entry>): seq<Event>
  {
    if log == [] then [] else RefusedEvents(Init(log)) + (if Last(log).Refused? then [Last(log).e] else [])
  }

  function Drops(log: seq<Entry>): nat { |DroppedEvents(log)| }

  function MarkerSum(log: seq<Entry>): nat
  {
    if log == [] then 0 else MarkerSum(Init(log)) + (if Last(log).Flushed? then Last(log).n else 0)
  }

  /** Drops no marker has reported yet, as the saturating counter sees them. */
  function Unreported(log: seq<Entry>): nat
  {
    if log == [] then 0
    else match Last(log)
      case Dropped(_) => SaturatingInc(Unreported(Init(log)))
      case Flushed(_) => 0
      case _ => Unreported(Init(log))
  }

  /** The discipline the log obeys: a marker reports exactly what is unreported, nothing is delivered
      over an unreported drop, and only best-effort events are dropped or refused. */
  predicate Disciplined(log: seq<Entry>)
  {
    log == [] ||
    (Disciplined(Init(log)) && match Last(log)
       case Delivered(_) => Unreported(Init(log)) == 0
       case Flushed(n) => n == Unreported(Init(log)) > 0
       case Dropped(e) => !Lossless(e)
       case Refused(e) => e.ServerRequest? && e.authRefresh
       case Lost(_) => true)
  }

  predicate NothingLost(log: seq<Entry>)
  {
    forall i | 0 <= i < |log| :: !log[i].Lost?
  }

  function InFlight(pc: Pc): seq<Event> { if pc.Idle? then [] else [pc.e] }

  ghost predicate Inv(s: State)
  {
    && s.input == Events(s.log) + InFlight(s.pc)
    && s.consumed + s.queue == Items(s.log)
    && s.skipped == Unreported(s.log)
    && Disciplined(s.log)
    && s.rejected == Requests(DroppedEvents(s.log))
    && s.refused == RefusedEvents(s.log)
    && |s.queue| <= s.capacity && s.capacity > 0
    && (s.pc.Flushing? ==> s.skipped > 0)
    && (s.pc.Pushing? ==> s.skipped == 0)
    && (s.enabled ==> NothingLost(s.log))
    && (s.log != [] ==> NothingLost(Init(s.log)))
    && (!s.enabled ==> s.pc.Idle? && !s.open)
  }

  lemma RequestsSnoc(es: seq<Event>, e: Event)
    ensures Requests(es + [e]) == Requests(es) + (if e.ServerRequest? then [e] else [])
    ensures Requests(es + []) == Requests(es)
  {
    assert Init(es + [e]) == es && es + [] == es;
  }

  /** What one more log entry adds to each reading of the log. */
  lemma Snoc(log: seq<Entry>, x: Entry)
    ensures Events(log + [x]) == if x.Flushed? then Events(log) else Events(log) + [x.e]
    ensures DeliveredEvents(log + [x]) == if x.Delivered? then DeliveredEvents(log) + [x.e] else DeliveredEvents(log)
    ensures DroppedEvents(log + [x]) == if x.Dropped? then DroppedEvents(log) + [x.e] else DroppedEvents(log)
    ensures RefusedEvents(log + [x]) == if x.Refused? then RefusedEvents(log) + [x.e] else RefusedEvents(log)
    ensures Init(log + [x]) == log && Last(log + [x]) == x
  {
    assert Init(log + [x]) == log;
  }

  lemma SnocItems(log: seq<Entry>, x: Entry)
    ensures Items(log + [x]) == Items(log) + ItemOf(x)
  {
    assert Init(log + [x]) == log;
  }

  lemma TakeStep(s: State, e: Event)
    requires Inv(s) && Enabled(s, Take(e))
    ensures Inv(Apply(s, Take(e)))
  {
    Snoc(s.log, Refused(e));
    SnocItems(s.log, Refused(e));
  }

  lemma LostStep(s: State)
    requires Inv(s) && Enabled(s, Advance) && !s.open
    ensures Inv(Apply(s, Advance))
  {
    Snoc(s.log, Lost(s.pc.e));
    SnocItems(s.log, Lost(s.pc.e));
  }

  lemma DropStep(s: State)
    requires Inv(s) && Enabled(s, Advance) && s.open && !HasRoom(s)
    ensures Inv(Apply(s, Advance))
  {
    LosslessIff(s.pc.e);
    Snoc(s.log, Dropped(s.pc.e));
    SnocItems(s.log, Dropped(s.pc.e));
    RequestsSnoc(DroppedEvents(s.log), s.pc.e);
  }

  lemma SendStep(s: State)
    requires Inv(s) && Enabled(s, Advance) && s.open && HasRoom(s)
    ensures Inv(Apply(s, Advance))
  {
    var x := if s.pc.Flushing? then Flushed(s.skipped) else Delivered(s.pc.e);
    Snoc(s.log, x);
    SnocItems(s.log, x);
  }

  lemma InvStep(s: State, l: Label)
    requires Inv(s) && Enabled(s, l)
    ensures Inv(Apply(s, l))
  {
    match l
    case Take(e) => TakeStep(s, e);
    case Advance =>
      if !s.open { LostStep(s); } else if HasRoom(s) { SendStep(s); } else { DropStep(s); }
    case Consume =>
      assert s.queue == [s.queue[0]] + s.queue[1..];
    case Close =>
  }

  /** The invariant holds in every state any schedule reaches. */
  lemma {:induction false} InvAlways(capacity: nat, labels: seq<Label>)
    ensures var s := After(capacity, labels); s.Some? ==> Inv(s.value)
    decreases |labels|
  {
    if labels != [] && After(capacity, labels).Some? {
      InvAlways(capacity, labels[..|labels| - 1]);
      InvStep(After(capacity, labels[..|labels| - 1]).value, labels[|labels| - 1]);
    }
  }

  // ----- what the log says about gaps

  lemma {:induction false} DeliveredInOrder(log: seq<Entry>)
    ensures Subsequence(DeliveredEvents(log), Events(log))
    decreases |log|
  {
    if log != [] {
      DeliveredInOrder(Init(log));
      var d, es := DeliveredEvents(Init(log)), Events(Init(log));
      if Last(log).Flushed? {
        assert d + [] == d && es + [] == es;
      } else {
        SubsequenceExtend(d, es, Last(log).e);
        assert d + [] == d;
      }
    }
  }

  /** Markers and unreported drops always add up to all drops, short of counter saturation. */
  lemma {:induction false} MarkersAddUp(log: seq<Entry>)
    requires Disciplined(log) && Drops(log) <= USIZE_MAX
    ensures MarkerSum(log) + Unreported(log) == Drops(log)
    decreases |log|
  {
    if log != [] { MarkersAddUp(Init(log)); }
  }

  lemma {:induction false} DropsMonotone(log: seq<Entry>, i: nat)
    requires i <= |log|
    ensures Drops(log[..i]) <= Drops(log) && (Disciplined(log) ==> Disciplined(log[..i]))
    decreases |log|
  {
    if i < |log| {
      DropsMonotone(Init(log), i);
      assert Init(log)[..i] == log[..i];
    } else {
      assert log[..i] == log;
    }
  }

  function DropsBetween(log: seq<Entry>, i: nat, j: nat): int
    requires i <= j <= |log|
  {
    Drops(log[..j]) - Drops(log[..i])
  }

  function MarkersBetween(log: seq<Entry>, i: nat, j: nat): int
    requires i <= j <= |log|
  {
    MarkerSum(log[..j]) - MarkerSum(log[..i])
  }

  /** At a delivered event nothing is unreported. */
  lemma GapAt(log: seq<Entry>, i: nat)
    requires Disciplined(log) && Drops(log) <= USIZE_MAX && i < |log| && log[i].Delivered?
    ensures MarkerSum(log[..i]) == Drops(log[..i])
  {
    DropsMonotone(log, i);
    DropsMonotone(log, i + 1);
    assert Init(log[..i + 1]) == log[..i];
    MarkersAddUp(log[..i]);
  }

  lemma {:induction false} RequiredDelivered(log: seq<Entry>)
    requires Disciplined(log) && NothingLost(log)
    ensures Required(DeliveredEvents(log)) == Required(Events(log))
    decreases |log|
  {
    if log != [] {
      RequiredDelivered(Init(log));
      var d, es := DeliveredEvents(Init(log)), Events(Init(log));
      if Last(log).Flushed? {
        assert d + [] == d && es + [] == es;
      } else {
        var e := Last(log).e;
        assert Init(d + [e]) == d && Init(es + [e]) == es && d + [] == d;
        assert Required(d) + [] == Required(d);
        assert !Last(log).Lost?;
      }
    }
  }

  /** Each server request is in exactly one of the three places it can end up in. */
  predicate Accounted(log: seq<Entry>)
  {
    multiset(Requests(Events(log))) ==
      multiset(Requests(DeliveredEvents(log))) + multiset(Requests(DroppedEvents(log))) + multiset(RefusedEvents(log))
  }

  lemma {:induction false} RequestsAccounted(log: seq<Entry>)
    requires Disciplined(log) && NothingLost(log)
    ensures Accounted(log)
    decreases |log|
  {
    if log != [] {
      var before, x := Init(log), Last(log);
      RequestsAccounted(before);
      assert log == before + [x];
      AccountedSnoc(before, x);
    }
  }

  lemma AccountedSnoc(log: seq<Entry>, x: Entry)
    requires Accounted(log) && Disciplined(log + [x]) && !x.Lost?
    ensures Accounted(log + [x])
  {
    assert Last(log + [x]) == x;
    EventsAsked(log, x);
    DeliveredAsked(log, x);
    DroppedAsked(log, x);
    RefusedAsked(log, x);
    AskedOnce(x);
    Regroup(multiset(Requests(DeliveredEvents(log))), multiset(Requests(DroppedEvents(log))),
            multiset(RefusedEvents(log)), Asked(x, x.Delivered?), Asked(x, x.Dropped?), Asked(x, x.Refused?));
  }

  lemma Regroup(a: multiset<Event>, b: multiset<Event>, c: multiset<Event>,
                d: multiset<Event>, e: multiset<Event>, f: multiset<Event>)
    ensures (a + b + c) + (d + e + f) == (a + d) + (b + e) + (c + f)
  {
  }

  /** The server request an entry is about, if it is one and is to be counted. */
  function Asked(x: Entry, counted: bool): multiset<Event>
  {
    if counted && !x.Flushed? && x.e.ServerRequest? then multiset{x.e} else multiset{}
  }

  lemma EventsAsked(log: seq<Entry>, x: Entry)
    ensures multiset(Requests(Events(log + [x]))) == multiset(Requests(Events(log))) + Asked(x, true)
  {
    Snoc(log, x);
    if !x.Flushed? { RequestsSnoc(Events(log), x.e); }
  }

  lemma DeliveredAsked(log: seq<Entry>, x: Entry)
    ensures multiset(Requests(DeliveredEvents(log + [x])))
         == multiset(Requests(DeliveredEvents(log))) + Asked(x, x.Delivered?)
  {
    Snoc(log, x);
    if x.Delivered? { RequestsSnoc(DeliveredEvents(log), x.e); }
  }

  lemma DroppedAsked(log: seq<Entry>, x: Entry)
    ensures multiset(Requests(DroppedEvents(log + [x])))
         == multiset(Requests(DroppedEvents(log))) + Asked(x, x.Dropped?)
  {
    Snoc(log, x);
    if x.Dropped? { RequestsSnoc(DroppedEvents(log), x.e); }
  }

  lemma RefusedAsked(log: seq<Entry>, x: Entry)
    requires x.Refused? ==> x.e.ServerRequest?
    ensures multiset(RefusedEvents(log + [x])) == multiset(RefusedEvents(log)) + Asked(x, x.Refused?)
  {
    Snoc(log, x);
  }

  /** The entry adds its server request, if any, to exactly one of the three places. */
  lemma AskedOnce(x: Entry)
    requires !x.Lost?
    ensures Asked(x, true) == Asked(x, x.Delivered?) + Asked(x, x.Dropped?) + Asked(x, x.Refused?)
  {
  }

  lemma {:induction false} ItemsAreDelivered(log: seq<Entry>)
    ensures ForwardedEvents(Items(log)) == DeliveredEvents(log)
    decreases |log|
  {
    if log != [] {
      ItemsAreDelivered(Init(log));
      var items := Items(Init(log));
      match Last(log)
      case Delivered(e) => assert Init(items + [Forwarded(e)]) == items;
      case Flushed(n) => assert Init(items + [Marker(n)]) == items;
      case _ => assert items + [] == items;
    }
  }

  function ForwardedEvents(items: seq<Item>): seq<Event>
  {
    if items == [] then []
    else ForwardedEvents(Init(items)) + (if Last(items).Forwarded? then [Last(items).e] else [])
  }

  /** The consumer's stream as it stands: received already, or waiting in its queue. */
  function Stream(s: State): seq<Item> { s.consumed + s.queue }

  /** While the consumer stays, under any schedule: what it has been sent, markers aside, is an
      in-order subsequence of the events taken in that contains every lossless one, and every server
      request was delivered, rejected or refused, exactly once. */
  lemma {:induction false} DeliveryUnderAnySchedule(capacity: nat, labels: seq<Label>)
    requires After(capacity, labels).Some?
    requires var s := After(capacity, labels).value; s.open && s.pc.Idle?
    ensures var s := After(capacity, labels).value;
      var sent := ForwardedEvents(Stream(s));
      && Subsequence(sent, s.input)
      && Required(sent) == Required(s.input)
      && multiset(Requests(s.input)) == multiset(Requests(sent)) + multiset(s.rejected) + multiset(s.refused)
  {
    InvAlways(capacity, labels);
    var s := After(capacity, labels).value;
    assert s.input == Events(s.log);
    ItemsAreDelivered(s.log);
    DeliveredInOrder(s.log);
    RequiredDelivered(s.log);
    RequestsAccounted(s.log);
  }

  /** Under any schedule the stream is what the log says was delivered and flushed, and its markers
      are exact: before the first event the consumer was sent, and between any two, they count the
      drops there, and what was dropped since the last one (or since the start, if none was sent) is in
      the markers after it and in `skipped`. */
  lemma {:induction false} LagAccounting(capacity: nat, labels: seq<Label>, i: nat, j: nat)
    requires After(capacity, labels).Some?
    requires var s := After(capacity, labels).value;
      && i <= j <= |s.log| && |s.input| <= USIZE_MAX
      && (i == 0 || (i < |s.log| && s.log[i].Delivered?))
      && (j == |s.log| || s.log[j].Delivered?)
    ensures var s := After(capacity, labels).value;
      && Stream(s) == Items(s.log)
      && MarkersBetween(s.log, i, j) + (if j == |s.log| then s.skipped else 0) == DropsBetween(s.log, i, j)
  {
    InvAlways(capacity, labels);
    var s := After(capacity, labels).value;
    DropsAreEvents(s.log);
    if i < |s.log| && s.log[i].Delivered? { GapAt(s.log, i); }
    if j == |s.log| {
      assert s.log[..j] == s.log;
      MarkersAddUp(s.log);
    } else {
      GapAt(s.log, j);
    }
  }

  lemma {:induction false} DropsAreEvents(log: seq<Entry>)
    ensures Drops(log) <= |Events(log)|
    decreases |log|
  {
    if log != [] { DropsAreEvents(Init(log)); }
  }

  /** With the consumer gone at most the event in flight was neither delivered nor dropped. */
  lemma {:induction false} AtMostOneLost(capacity: nat, labels: seq<Label>, i: nat, j: nat)
    requires After(capacity, labels).Some?
    requires var log := After(capacity, labels).value.log;
      i < |log| && j < |log| && log[i].Lost? && log[j].Lost?
    ensures i == j
  {
    InvAlways(capacity, labels);
    var log := After(capacity, labels).value.log;
    assert forall k | 0 <= k < |log| - 1 :: Init(log)[k] == log[k];
  }

  /** The forwarder never waits for good: if its blocking send is not enabled, the consumer's read is. */
  lemma {:induction false} NeverStuck(capacity: nat, labels: seq<Label>)
    requires After(capacity, labels).Some? && !After(capacity, labels).value.pc.Idle?
    ensures var s := After(capacity, labels).value; Enabled(s, Advance) || Enabled(s, Consume)
  {
    InvAlways(capacity, labels);
  }

  // ----- one step

  /** A reachable state and the one a step leads to. */
  ghost predicate Steps(capacity: nat, labels: seq<Label>, l: Label, s: State, s': State)
  {
    After(capacity, labels) == Some(s) && After(capacity, labels + [l]) == Some(s')
  }

  lemma StepTaken(capacity: nat, labels: seq<Label>, l: Label, s: State, s': State)
    requires Steps(capacity, labels, l, s, s')
    ensures Inv(s) && Enabled(s, l) && s' == Apply(s, l)
  {
    InvAlways(capacity, labels);
    assert (labels + [l])[..|labels + [l]| - 1] == labels;
  }

  /** With room and a consumer, nothing is ever dropped: the marker for what was skipped goes first, and then
      the event itself, whatever its tier. */
  lemma {:induction false} RoomDelivers(capacity: nat, labels: seq<Label>, s: State, s': State)
    requires Steps(capacity, labels, Advance, s, s') && s.open && |s.queue| < s.capacity
    ensures s.skipped > 0 ==>
      s'.queue == s.queue + [Marker(s.skipped)] && s'.skipped == 0 && s'.pc == Pushing(s.pc.e)
    ensures s.skipped == 0 ==>
      s'.queue == s.queue + [Forwarded(s.pc.e)] && s'.skipped == 0 && s'.pc.Idle?
    ensures s'.rejected == s.rejected && s'.enabled
  {
    StepTaken(capacity, labels, Advance, s, s');
  }

  /** Without room, only a best-effort event goes on: it is dropped and counted, and a server request among
      them is rejected. A lossless event waits as long as the consumer is there. */
  lemma {:induction false} FullQueue(capacity: nat, labels: seq<Label>, s: State)
    requires After(capacity, labels) == Some(s) && !s.pc.Idle? && s.open && |s.queue| == s.capacity
    ensures Enabled(s, Advance) <==> !Lossless(s.pc.e)
    ensures Enabled(s, Advance) ==>
      var s' := Apply(s, Advance);
      && s'.queue == s.queue && s'.pc.Idle? && s'.enabled
      && s'.skipped == (if s.skipped < USIZE_MAX then s.skipped + 1 else s.skipped)
      && s'.rejected == s.rejected + if s.pc.e.ServerRequest? then [s.pc.e] else []
  {
    InvAlways(capacity, labels);
    LosslessIff(s.pc.e);
  }

  /** Once the consumer has gone, the event in hand ends the stream. */
  lemma {:induction false} ConsumerGone(capacity: nat, labels: seq<Label>, s: State)
    requires After(capacity, labels) == Some(s) && !s.pc.Idle? && !s.open
    ensures Enabled(s, Advance)
    ensures var s' := Apply(s, Advance);
      !s'.enabled && s'.pc.Idle? && s'.queue == s.queue && s'.skipped == s.skipped && s'.rejected == s.rejected
  {
    InvAlways(capacity, labels);
  }

  /** An event is taken up while none is in hand and the stream is on; a token refresh is refused at once. */
  lemma {:induction false} Takes(capacity: nat, labels: seq<Label>, e: Event, s: State, s': State)
    requires Steps(capacity, labels, Take(e), s, s')
    ensures s.pc.Idle? && s.enabled && s'.input == s.input + [e] && s'.queue == s.queue && s'.skipped == s.skipped
    ensures s'.refused == s.refused + if e.ServerRequest? && e.authRefresh then [e] else []
    ensures s'.pc.Idle? <==> e.ServerRequest? && e.authRefresh
    ensures !s'.pc.Idle? ==> s'.pc.e == e
  {
    StepTaken(capacity, labels, Take(e), s, s');
  }

  /** The queue holds as many items as was asked for, or one. */
  lemma {:induction false} CapacityKept(capacity: nat, labels: seq<Label>)
    ensures var s := After(capacity, labels);
      s.Some? ==> s.value.capacity == (if capacity == 0 then 1 else capacity)
    decreases |labels|
  {
    if labels != [] && After(capacity, labels).Some? {
      CapacityKept(capacity, labels[..|labels| - 1]);
    }
  }

  /** What can happen next: an event is taken up while none is in hand and the stream is on; the one in hand
      waits only if it is lossless, the queue is full and the consumer is there; the consumer, while there,
      can read or go away. */
  lemma {:induction false} Possible(capacity: nat, labels: seq<Label>, l: Label)
    requires After(capacity, labels).Some?
    ensures var s := After(capacity, labels).value;
      After(capacity, labels + [l]).Some? <==>
        match l
        case Take(_) => s.pc == Idle && s.enabled
        case Advance => s.pc != Idle && !(Lossless(s.pc.e) && |s.queue| >= s.capacity && s.open)
        case Consume => s.open && |s.queue| > 0
        case Close => s.open
  {
    assert (labels + [l])[..|labels + [l]| - 1] == labels;
    var s := After(capacity, labels).value;
    if s.pc != Idle { LosslessIff(s.pc.e); }
  }

  /** Reading takes the oldest item. */
  lemma {:induction false} ConsumerReads(capacity: nat, labels: seq<Label>, s: State, s': State)
    requires Steps(capacity, labels, Consume, s, s')
    ensures s.queue == [s'.consumed[|s'.consumed| - 1]] + s'.queue
    ensures s'.consumed[..|s'.consumed| - 1] == s.consumed && s'.pc == s.pc && s'.skipped == s.skipped
  {
    StepTaken(capacity, labels, Consume, s, s');
  }
}
