/** The request router of `CodexBackend`: concurrent requests, one writer, one reader, in every
    interleaving. Requests are numbered by the id counter; request K waits under the id "r{K}". */
module Backend {
  import opened Wrappers
  import Text

  /** An inbound message, by what routing looks at: a textual id and a textual method. */
  datatype Frame = Frame(id: Option<string>, methodName: Option<string>, body: nat)

  datatype Route = ToWaiter(request: nat) | Broadcast | Nowhere

  datatype Resolution = Resolution(request: nat, frame: Frame)

  datatype Phase = Allocated | Registered | Submitted

  const CHANNEL_CAPACITY := 128

  datatype State = State(
    nextId: nat, pending: map<string, nat>, phases: map<nat, Phase>,
    channel: seq<nat>, written: seq<nat>, submitted: seq<nat>,
    frames: seq<Frame>, routes: seq<Route>, resolutions: seq<Resolution>)

  datatype Label = Allocate | Register(k: nat) | Submit(k: nat) | WriteOne | Receive(f: Frame)

  const INITIAL := State(0, map[], map[], [], [], [], [], [], [])

  function IdOf(k: nat): string { "r" + Text.Decimal(k) }

  /** `dispatch_incoming`: where a frame goes. */
  function RouteOf(pending: map<string, nat>, f: Frame): Route
  {
    if f.id.Some? && f.id.value in pending then ToWaiter(pending[f.id.value])
    else if f.methodName.Some? then Broadcast
    else Nowhere
  }

  predicate Enabled(s: State, l: Label)
  {
    match l
    case Allocate => true
    case Register(k) => k in s.phases && s.phases[k].Allocated?
    case Submit(k) => k in s.phases && s.phases[k].Registered? && |s.channel| < CHANNEL_CAPACITY
    case WriteOne => s.channel != []
    case Receive(_) => true
  }

  function Apply(s: State, l: Label): State
    requires Enabled(s, l)
  {
    match l
    case Allocate => s.(nextId := s.nextId + 1, phases := s.phases[s.nextId + 1 := Allocated])
    case Register(k) => s.(pending := s.pending[IdOf(k) := k], phases := s.phases[k := Registered])
    case Submit(k) =>
      s.(channel := s.channel + [k], submitted := s.submitted + [k], phases := s.phases[k := Submitted])
    case WriteOne => s.(channel := s.channel[1..], written := s.written + [s.channel[0]])
    case Receive(f) =>
      var route := RouteOf(s.pending, f);
      var s := s.(frames := s.frames + [f], routes := s.routes + [route]);
      if route.ToWaiter?
      then s.(pending := s.pending - {f.id.value}, resolutions := s.resolutions + [Resolution(route.request, f)])
      else s
  }

  function After(labels: seq<Label>): Option<State>
    decreases |labels|
  {
    if labels == [] then Some(INITIAL)
    else
      var before := After(labels[..|labels| - 1]);
      var l := labels[|labels| - 1];
      if before.Some? && Enabled(before.value, l) then Some(Apply(before.value, l)) else None
  }

  /** The counter, the map and the reader's dispatch, updated in place. */
  class CodexBackend {
    var nextId: nat
    var pending: map<string, nat>

    constructor ()
      ensures nextId == 0 && pending == map[]
    {
      nextId, pending := 0, map[];
    }

    method NextRequestId() returns (id: string)
      modifies `nextId
      ensures nextId == old(nextId) + 1 && id == IdOf(nextId)
    {
      nextId := nextId + 1;
      id := "r" + Text.Decimal(nextId);
    }

    method DeliverResponse(id: string) returns (route: Route)
      modifies `pending
      ensures pending == old(pending) - {id}
      ensures route == if id in old(pending) then ToWaiter(old(pending)[id]) else Nowhere
    {
      if id in pending {
        route := ToWaiter(pending[id]);
        pending := pending - {id};
      } else {
        route := Nowhere;
        assert pending - {id} == pending;
      }
    }

    /** Each frame goes to exactly one place, and only a waiter it reaches leaves the map. */
    method DispatchIncoming(f: Frame) returns (route: Route)
      modifies `pending
      ensures route == RouteOf(old(pending), f)
      ensures pending == if route.ToWaiter? then old(pending) - {f.id.value} else old(pending)
    {
      if f.id.Some? && f.methodName.None? {
        route := DeliverResponse(f.id.value);
        assert route.Nowhere? ==> old(pending) - {f.id.value} == old(pending);
      } else if f.id.Some? && f.methodName.Some? {
        if f.id.value in pending {
          route := DeliverResponse(f.id.value);
        } else {
          route := Broadcast;
        }
      } else if f.methodName.Some? {
        route := Broadcast;
      } else {
        route := Nowhere;
      }
    }
  }

  // ----- what every run keeps

  predicate Distinct(rs: seq<Resolution>)
  {
    forall i, j | 0 <= i < j < |rs| :: rs[i].request != rs[j].request
  }

  predicate Inv(s: State)
  {
    && (forall k | k in s.phases :: 0 < k <= s.nextId)
    && (forall id | id in s.pending ::
          var k := s.pending[id];
          id == IdOf(k) && k in s.phases && !s.phases[k].Allocated? && forall r | r in s.resolutions :: r.request != k)
    && (forall r | r in s.resolutions ::
          && r.frame.id == Some(IdOf(r.request)) && r.frame in s.frames
          && r.request in s.phases && !s.phases[r.request].Allocated?)
    && Distinct(s.resolutions)
    && s.written + s.channel == s.submitted
    && |s.channel| <= CHANNEL_CAPACITY
    && |s.routes| == |s.frames|
  }

  lemma IdsDistinct(j: nat, k: nat)
    requires IdOf(j) == IdOf(k)
    ensures j == k
  {
    assert IdOf(j)[1..] == Text.Decimal(j) && IdOf(k)[1..] == Text.Decimal(k);
    Text.DecimalInjective(j, k);
  }

  lemma RegisterInv(s: State, k: nat)
    requires Inv(s) && Enabled(s, Register(k))
    ensures Inv(Apply(s, Register(k)))
  {
    if IdOf(k) in s.pending { IdsDistinct(s.pending[IdOf(k)], k); }
    var s' := Apply(s, Register(k));
    forall id | id in s'.pending
      ensures id == IdOf(s'.pending[id]) && s'.pending[id] in s'.phases && !s'.phases[s'.pending[id]].Allocated?
      ensures forall r | r in s'.resolutions :: r.request != s'.pending[id]
    {
    }
  }

  lemma StepInv(s: State, l: Label)
    requires Inv(s) && Enabled(s, l)
    ensures Inv(Apply(s, l))
  {
    match l
    case Allocate => assert s.nextId + 1 !in s.phases;
    case Register(k) => RegisterInv(s, k);
    case Submit(k) =>
    case WriteOne => assert s.channel == [s.channel[0]] + s.channel[1..];
    case Receive(f) =>
      if RouteOf(s.pending, f).ToWaiter? { ReceiveInv(s, f); }
  }

  lemma ReceiveInv(s: State, f: Frame)
    requires Inv(s) && RouteOf(s.pending, f).ToWaiter?
    ensures Inv(Apply(s, Receive(f)))
  {
    var s' := Apply(s, Receive(f));
    var k := s.pending[f.id.value];
    forall id | id in s'.pending ensures s'.pending[id] != k {
      assert s.pending[id] == s'.pending[id] && id == IdOf(s.pending[id]);
    }
    assert s'.resolutions == s.resolutions + [Resolution(k, f)];
    assert forall i | 0 <= i < |s.resolutions| :: s.resolutions[i] in s.resolutions;
  }

  lemma {:induction false} InvAlways(labels: seq<Label>)
    ensures After(labels).Some? ==> Inv(After(labels).value)
    decreases |labels|
  {
    if labels != [] && After(labels).Some? {
      InvAlways(labels[..|labels| - 1]);
      StepInv(After(labels[..|labels| - 1]).value, labels[|labels| - 1]);
    }
  }

  /** In every run a request's waiter is resolved at most once, and only by a frame carrying its own
      id. */
  lemma {:induction false} RoutingSafe(labels: seq<Label>, i: nat, j: nat)
    requires After(labels).Some?
    requires var s := After(labels).value; i < |s.resolutions| && j < |s.resolutions|
    ensures var s := After(labels).value;
      && (s.resolutions[i].request == s.resolutions[j].request ==> i == j)
      && s.resolutions[i].frame.id == Some(IdOf(s.resolutions[i].request))
      && s.resolutions[i].frame in s.frames
  {
    InvAlways(labels);
    var s := After(labels).value;
    assert s.resolutions[i] in s.resolutions;
  }

  /** In every run outbound values have been written whole, in the order they entered the channel, and
      what is not yet written is still in it. */
  lemma {:induction false} WritesInOrder(labels: seq<Label>)
    requires After(labels).Some?
    ensures var s := After(labels).value;
      s.written <= s.submitted && s.written + s.channel == s.submitted && |s.channel| <= CHANNEL_CAPACITY
  {
    InvAlways(labels);
  }

  /** A registered request is still waiting under its own id, or has been resolved. */
  predicate Waits(s: State, k: nat)
  {
    (IdOf(k) in s.pending && s.pending[IdOf(k)] == k) || exists r | r in s.resolutions :: r.request == k
  }

  predicate NoneForgotten(s: State)
  {
    forall k | k in s.phases && !s.phases[k].Allocated? :: Waits(s, k)
  }

  lemma StepForgetsNone(s: State, l: Label)
    requires Inv(s) && NoneForgotten(s) && Enabled(s, l)
    ensures NoneForgotten(Apply(s, l))
  {
    var s' := Apply(s, l);
    forall k | k in s'.phases && !s'.phases[k].Allocated? ensures Waits(s', k) {
      if l.Register? && l.k == k {
        assert s'.pending[IdOf(k)] == k;
      } else {
        assert k in s.phases && !s.phases[k].Allocated? && Waits(s, k);
        KeepsWaiting(s, l, k);
      }
    }
  }

  /** Only its own frame takes a waiter out of the map, and then it is resolved. */
  lemma KeepsWaiting(s: State, l: Label, k: nat)
    requires Inv(s) && Enabled(s, l) && Waits(s, k) && !(l.Register? && l.k == k)
    ensures Waits(Apply(s, l), k)
  {
    var s' := Apply(s, l);
    if r :| r in s.resolutions && r.request == k {
      assert r in s'.resolutions;
    } else if l.Register? {
      if IdOf(l.k) == IdOf(k) { IdsDistinct(l.k, k); }
    } else if l.Receive? && RouteOf(s.pending, l.f).ToWaiter? && l.f.id.value == IdOf(k) {
      assert Resolution(k, l.f) in s'.resolutions;
    }
  }

  /** In every run no registered request is forgotten: until a frame with its own id resolves it, once,
      its waiter stays in the map under that id. */
  lemma {:induction false} EveryRequestWaitsOrIsResolved(labels: seq<Label>, k: nat)
    requires After(labels).Some? && k in After(labels).value.phases && !After(labels).value.phases[k].Allocated?
    ensures var s := After(labels).value;
      (IdOf(k) in s.pending && s.pending[IdOf(k)] == k) <==> !exists r | r in s.resolutions :: r.request == k
  {
    InvAlways(labels);
    ForgottenNever(labels);
    assert Waits(After(labels).value, k);
  }

  lemma {:induction false} ForgottenNever(labels: seq<Label>)
    ensures After(labels).Some? ==> NoneForgotten(After(labels).value)
    decreases |labels|
  {
    if labels != [] && After(labels).Some? {
      InvAlways(labels[..|labels| - 1]);
      ForgottenNever(labels[..|labels| - 1]);
      StepForgetsNone(After(labels[..|labels| - 1]).value, labels[|labels| - 1]);
    }
  }

  /** A waiter is missed by no frame: whichever frame first carries its id resolves it. */
  lemma {:induction false} OwnFrameResolves(labels: seq<Label>, f: Frame, k: nat)
    requires After(labels).Some? && k in After(labels).value.phases && !After(labels).value.phases[k].Allocated?
    requires f.id == Some(IdOf(k)) && IdOf(k) in After(labels).value.pending
    ensures var s := Apply(After(labels).value, Receive(f));
      s.routes[|s.routes| - 1] == ToWaiter(k) && IdOf(k) !in s.pending
      && s.resolutions[|s.resolutions| - 1] == Resolution(k, f)
  {
    InvAlways(labels);
    IdsDistinct(After(labels).value.pending[IdOf(k)], k);
  }

  /** A frame that no request waits for is broadcast when it names a method, as a notification or a request
      from the server does, and goes nowhere when it names none; either way nobody's waiter is touched. */
  lemma {:induction false} OtherFrames(labels: seq<Label>, f: Frame)
    requires After(labels).Some?
    requires f.id.Some? ==> f.id.value !in After(labels).value.pending
    ensures var s, s' := After(labels).value, Apply(After(labels).value, Receive(f));
      && s'.routes == s.routes + [if f.methodName.Some? then Broadcast else Nowhere]
      && s'.pending == s.pending && s'.resolutions == s.resolutions && s'.frames == s.frames + [f]
  {
  }

  /** An id is an r and the request's number in decimal. */
  lemma IdReads(k: nat)
    ensures IdOf(k) != [] && IdOf(k)[0] == 'r' && Text.Reading(IdOf(k)[1..]) == k
    ensures forall c | c in IdOf(k)[1..] :: '0' <= c <= '9'
  {
    Text.DecimalReads(k);
    assert IdOf(k)[1..] == Text.Decimal(k);
  }

  /** A request goes through its steps in turn: it gets the next number, waits under that number's id before
      it is sent, and enters the channel only while that has room. */
  lemma {:induction false} RequestSteps(labels: seq<Label>, l: Label)
    requires After(labels).Some? && Enabled(After(labels).value, l) && (l.Allocate? || l.Register? || l.Submit?)
    ensures var s, s' := After(labels).value, Apply(After(labels).value, l);
      && s'.resolutions == s.resolutions && s'.routes == s.routes && s'.written == s.written
      && match l
         case Allocate => s'.nextId == s.nextId + 1 && s.nextId + 1 !in s.phases && s'.phases[s'.nextId].Allocated?
         case Register(k) =>
           && k in s.phases && s.phases[k].Allocated? && s'.phases[k].Registered?
           && IdOf(k) !in s.pending && s'.pending == s.pending[IdOf(k) := k]
         case Submit(k) =>
           && k in s.phases && s.phases[k].Registered? && s'.phases[k].Submitted? && s'.pending == s.pending
           && |s.channel| < 128 && s'.channel == s.channel + [k]
         case _ => true
  {
    InvAlways(labels);
    if l.Register? && IdOf(l.k) in After(labels).value.pending {
      IdsDistinct(After(labels).value.pending[IdOf(l.k)], l.k);
    }
  }

  /** What can happen next: any frame can arrive and any caller can take a number; a number taken is
      registered, then sent while the channel has room; and whatever is in the channel can be written. */
  lemma {:induction false} Possible(labels: seq<Label>, l: Label)
    requires After(labels).Some?
    ensures var s := After(labels).value;
      After(labels + [l]).Some? <==>
        match l
        case Allocate => true
        case Register(k) => k in s.phases && s.phases[k] == Allocated
        case Submit(k) => k in s.phases && s.phases[k] == Registered && |s.channel| < 128
        case WriteOne => |s.channel| > 0
        case Receive(_) => true
  {
    assert (labels + [l])[..|labels + [l]| - 1] == labels;
  }
}
