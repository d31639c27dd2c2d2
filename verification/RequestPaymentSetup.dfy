/**
 * The hook useRequestPaymentSetup: calls that overtake each other, told apart by a generation counter,
 * with calls of one idempotency key sharing the request in flight.
 */
module RequestPaymentSetup {
  import opened Wrappers

  datatype Request = Request(guestEmail: string, idempotencyKey: string, applicationId: string)

  /** A response: the setup data, or the error the promise was rejected with. */
  type Reply = Result<string, string>

  datatype Shown = Idle | Waiting | Answered(reply: Reply)

  /** A promise is named by the position of its API call. */
  datatype Flight = Flight(key: string, promise: nat)

  /** The callbacks of one `mutate`: the generation it captured, its promise, and whether they have run. */
  datatype Callback = Callback(generation: nat, promise: nat, ran: bool)

  /** The hook's state and refs, and the network and event loop around it. */
  datatype Hook = Hook(state: Shown, generation: nat, inFlight: Option<Flight>,
                       mounted: bool, calls: seq<Request>, replies: map<nat, Reply>, callbacks: seq<Callback>)

  datatype Event =
    | Mutate(request: Request)
    | Reset
    | Cleanup                            // the effect's cleanup alone, as React's strict mode runs it
    | Unmount
    | Settle(promise: nat, reply: Reply) // the response arrives
    | RunCallback(i: nat)                // the event loop runs the callbacks of the i-th `mutate`

  const INITIAL := Hook(Idle, 0, None, true, [], map[], [])

  /** React drops a state update of an unmounted component. */
  function SetState(h: Hook, state: Shown): Hook {
    if h.mounted then h.(state := state) else h
  }

  function Step(h: Hook, e: Event): Hook {
    match e
    case Mutate(request) =>
      var joins := h.inFlight.Some? && h.inFlight.value.key == request.idempotencyKey;
      var promise := if joins then h.inFlight.value.promise else |h.calls|;
      SetState(h, Waiting).(
        generation := h.generation + 1,
        calls := if joins then h.calls else h.calls + [request],
        inFlight := Some(Flight(request.idempotencyKey, promise)),
        callbacks := h.callbacks + [Callback(h.generation + 1, promise, false)])
    case Reset => SetState(h, Idle).(generation := h.generation + 1)
    case Cleanup => h.(generation := h.generation + 1)
    case Unmount => h.(generation := h.generation + 1, mounted := false)
    case Settle(p, reply) =>
      if p >= |h.calls| || p in h.replies then h else h.(replies := h.replies[p := reply])
    case RunCallback(i) =>
      if i >= |h.callbacks| || h.callbacks[i].ran || h.callbacks[i].promise !in h.replies then h
      else
        var callback := h.callbacks[i];
        var cleared := if h.inFlight.Some? && h.inFlight.value.promise == callback.promise then None else h.inFlight;
        var h' := h.(callbacks := h.callbacks[i := callback.(ran := true)], inFlight := cleared);
        if h.generation == callback.generation then SetState(h', Answered(h.replies[callback.promise])) else h'
  }

  function Run(events: seq<Event>): Hook {
    if events == [] then INITIAL else Step(Run(events[..|events| - 1]), events[|events| - 1])
  }

  // ---- the hook as the component holds it ----

  class SetupHook {
    var state: Shown
    var generation: nat
    var inFlight: Option<Flight>
    var mounted: bool
    var calls: seq<Request>
    var replies: map<nat, Reply>
    var callbacks: seq<Callback>

    constructor ()
      ensures View() == INITIAL
    {
      state, generation, inFlight, mounted, calls, replies, callbacks := Idle, 0, None, true, [], map[], [];
    }

    function View(): Hook
      reads this
    {
      Hook(state, generation, inFlight, mounted, calls, replies, callbacks)
    }

    method Set(shown: Shown)
      modifies this`state
      ensures View() == SetState(old(View()), shown)
    {
      if mounted {
        state := shown;
      }
    }

    /** bookingApi.createRequestPaymentMethodSetup: one more call on the network. */
    method CreateSetup(request: Request) returns (promise: nat)
      modifies this`calls
      ensures promise == |old(calls)| && calls == old(calls) + [request]
    {
      promise := |calls|;
      calls := calls + [request];
    }

    method Mutate(request: Request)
      modifies this
      ensures View() == Step(old(View()), Event.Mutate(request))
    {
      generation := generation + 1;
      var requestGeneration := generation;
      Set(Waiting);
      var promise: nat;
      if inFlight.Some? && inFlight.value.key == request.idempotencyKey {
        promise := inFlight.value.promise;
      } else {
        promise := CreateSetup(request);
      }
      inFlight := Some(Flight(request.idempotencyKey, promise));
      callbacks := callbacks + [Callback(requestGeneration, promise, false)];
    }

    method Reset()
      modifies this
      ensures View() == Step(old(View()), Event.Reset)
    {
      generation := generation + 1;
      Set(Idle);
    }

    method RunCallback(i: nat)
      requires i < |callbacks| && !callbacks[i].ran && callbacks[i].promise in replies
      modifies this
      ensures View() == Step(old(View()), Event.RunCallback(i))
    {
      var callback := callbacks[i];
      callbacks := callbacks[i := callback.(ran := true)];
      if inFlight.Some? && inFlight.value.promise == callback.promise {
        inFlight := None;
      }
      if generation == callback.generation {
        Set(Answered(replies[callback.promise]));
      }
    }

    method Unmount()
      modifies this
      ensures View() == Step(old(View()), Event.Unmount)
    {
      generation := generation + 1;
      mounted := false;
    }
  }

  // ---- every interleaving ----

  /** The requests passed to `mutate`, in order. */
  function Requests(events: seq<Event>): seq<Request> {
    if events == [] then []
    else
      var n := |events| - 1;
      Requests(events[..n]) + (if events[n].Mutate? then [events[n].request] else [])
  }

  /** Whether, since the latest `mutate`, there was no reset, cleanup or unmount: before and after one more event. */
  predicate StillUndisturbed(before: bool, e: Event) {
    e.Mutate? || (before && (e.Settle? || e.RunCallback?))
  }

  predicate Undisturbed(events: seq<Event>) {
    events != [] && StillUndisturbed(Undisturbed(events[..|events| - 1]), events[|events| - 1])
  }

  predicate CallbacksInvariant(requests: seq<Request>, h: Hook) {
    && |h.callbacks| == |requests|
    && (forall i :: 0 <= i < |h.callbacks| ==>
          && h.callbacks[i].promise < |h.calls|
          && h.calls[h.callbacks[i].promise].idempotencyKey == requests[i].idempotencyKey
          && h.callbacks[i].generation <= h.generation
          && (h.callbacks[i].ran ==> h.callbacks[i].promise in h.replies))
    && (forall i, j :: 0 <= i < j < |h.callbacks| ==> h.callbacks[i].generation < h.callbacks[j].generation)
    && (h.inFlight.Some? ==> h.inFlight.value.promise < |h.calls|
                             && h.calls[h.inFlight.value.promise].idempotencyKey == h.inFlight.value.key)
  }

  /** What is shown while mounted, in terms of the latest `mutate`. */
  predicate ShownInvariant(undisturbed: bool, h: Hook) {
    && (undisturbed <==> h.callbacks != [] && h.callbacks[|h.callbacks| - 1].generation == h.generation)
    && (h.mounted ==>
          && (h.callbacks == [] ==> h.state == Idle)
          && (h.callbacks != [] ==>
                var latest := h.callbacks[|h.callbacks| - 1];
                && (undisturbed ==>
                      if latest.ran then latest.promise in h.replies && h.state == Answered(h.replies[latest.promise])
                      else h.state == Waiting)
                && (h.state.Answered? ==>
                      latest.ran && latest.promise in h.replies && h.state.reply == h.replies[latest.promise])))
  }

  predicate Invariant(requests: seq<Request>, undisturbed: bool, h: Hook) {
    CallbacksInvariant(requests, h) && ShownInvariant(undisturbed, h)
  }

  /** Only the latest callback can carry the current generation. */
  lemma OlderCallbackIsStale(requests: seq<Request>, h: Hook, i: nat)
    requires CallbacksInvariant(requests, h) && i + 1 < |h.callbacks|
    ensures h.callbacks[i].generation < h.generation
  {
    assert h.callbacks[i].generation < h.callbacks[|h.callbacks| - 1].generation;
  }

  lemma RunCallbackKeepsInvariant(requests: seq<Request>, undisturbed: bool, h: Hook, i: nat)
    requires Invariant(requests, undisturbed, h)
    ensures Invariant(requests, undisturbed, Step(h, RunCallback(i)))
  {
    if i < |h.callbacks| && !h.callbacks[i].ran && h.callbacks[i].promise in h.replies {
      var h' := Step(h, RunCallback(i));
      assert CallbacksInvariant(requests, h');
      if i + 1 < |h.callbacks| {
        OlderCallbackIsStale(requests, h, i);
      }
      assert ShownInvariant(undisturbed, h');
    }
  }

  lemma MutateKeepsInvariant(requests: seq<Request>, undisturbed: bool, h: Hook, request: Request)
    requires Invariant(requests, undisturbed, h)
    ensures Invariant(requests + [request], true, Step(h, Mutate(request)))
  {
  }

  lemma ArrivalKeepsInvariant(requests: seq<Request>, undisturbed: bool, h: Hook, e: Event)
    requires Invariant(requests, undisturbed, h) && e.Settle?
    ensures Invariant(requests, undisturbed, Step(h, e))
  {
    var h' := Step(h, e);
    assert h' == h.(replies := h'.replies);
    assert forall p :: p in h.replies ==> p in h'.replies && h'.replies[p] == h.replies[p];
    hide Step;
  }

  lemma DisturbanceKeepsInvariant(requests: seq<Request>, undisturbed: bool, h: Hook, e: Event)
    requires Invariant(requests, undisturbed, h) && (e.Reset? || e.Cleanup? || e.Unmount?)
    ensures Invariant(requests, false, Step(h, e))
  {
  }

  lemma StepKeepsInvariant(requests: seq<Request>, undisturbed: bool, h: Hook, e: Event)
    requires Invariant(requests, undisturbed, h)
    ensures Invariant(requests + (if e.Mutate? then [e.request] else []), StillUndisturbed(undisturbed, e), Step(h, e))
  {
    hide Invariant, Step;
    assert requests + [] == requests;
    match e
    case Mutate(request) => MutateKeepsInvariant(requests, undisturbed, h, request);
    case RunCallback(i) => RunCallbackKeepsInvariant(requests, undisturbed, h, i);
    case Settle(_, _) => ArrivalKeepsInvariant(requests, undisturbed, h, e);
    case _ => DisturbanceKeepsInvariant(requests, undisturbed, h, e);
  }

  lemma {:induction false} RunKeepsInvariant(events: seq<Event>)
    ensures Invariant(Requests(events), Undisturbed(events), Run(events))
  {
    if events != [] {
      var n := |events| - 1;
      RunKeepsInvariant(events[..n]);
      StepKeepsInvariant(Requests(events[..n]), Undisturbed(events[..n]), Run(events[..n]), events[n]);
    }
  }

  /** The latest `mutate` has been made and its callback has not run: the reply is still outstanding. */
  predicate Outstanding(h: Hook) {
    h.callbacks != [] && !h.callbacks[|h.callbacks| - 1].ran
  }

  /** A cleanup without unmount came while the latest reply was outstanding, and no `mutate` or reset since. */
  predicate Stranded(events: seq<Event>) {
    events != [] &&
      var n := |events| - 1;
      var front, e := events[..n], events[n];
      if e.Cleanup? then Stranded(front) || (Undisturbed(front) && Outstanding(Run(front)))
      else Stranded(front) && !e.Mutate? && !e.Reset?
  }

  predicate PendingInvariant(undisturbed: bool, stranded: bool, h: Hook) {
    && (stranded ==> !undisturbed)
    && (h.mounted ==> (h.state == Waiting <==> stranded || (undisturbed && Outstanding(h))))
  }

  lemma StepKeepsPending(requests: seq<Request>, undisturbed: bool, stranded: bool, h: Hook, e: Event)
    requires Invariant(requests, undisturbed, h) && PendingInvariant(undisturbed, stranded, h)
    ensures var stranded' := if e.Cleanup? then stranded || (undisturbed && Outstanding(h))
        else stranded && !e.Mutate? && !e.Reset?;
      PendingInvariant(StillUndisturbed(undisturbed, e), stranded', Step(h, e))
  {
    if e.RunCallback? && e.i + 1 < |h.callbacks| {
      OlderCallbackIsStale(requests, h, e.i);
    }
  }

  lemma {:induction false} RunKeepsPending(events: seq<Event>)
    ensures PendingInvariant(Undisturbed(events), Stranded(events), Run(events))
  {
    hide Invariant, PendingInvariant, Outstanding, Step, StillUndisturbed;
    if events == [] {
      NothingPending();
    } else {
      var n := |events| - 1;
      RunKeepsInvariant(events[..n]);
      RunKeepsPending(events[..n]);
      StepKeepsPending(Requests(events[..n]), Undisturbed(events[..n]), Stranded(events[..n]), Run(events[..n]),
                       events[n]);
    }
  }

  lemma NothingPending()
    ensures PendingInvariant(false, false, INITIAL)
  {
  }

  predicate NoCleanup(events: seq<Event>) {
    forall i :: 0 <= i < |events| ==> !events[i].Cleanup?
  }

  lemma {:induction false} NeverStranded(events: seq<Event>)
    requires NoCleanup(events)
    ensures !Stranded(events)
  {
    if events != [] {
      NeverStranded(events[..|events| - 1]);
    }
  }

  /**
   * While mounted, a shown success or error is the reply to the latest `mutate`'s promise. The hook shows
   * pending exactly while that reply is outstanding and undisturbed, or from a cleanup that stranded it on.
   */
  lemma ShowsLatestReply(events: seq<Event>)
    requires Run(events).mounted
    ensures var h := Run(events);
      && (h.state.Answered? ==>
            && h.callbacks != []
            && var latest := h.callbacks[|h.callbacks| - 1];
               latest.ran && latest.promise in h.replies && h.state == Answered(h.replies[latest.promise]))
      && (h.state == Waiting <==> Stranded(events) || (Undisturbed(events) && Outstanding(h)))
  {
    RunKeepsInvariant(events);
    RunKeepsPending(events);
  }

  /**
   * Pending means that the reply is outstanding, and the hook still undisturbed, in every run in which no
   * cleanup comes without an unmount. With one it fails exactly when the stranded reply has been handled.
   */
  lemma PendingMeansOutstanding(events: seq<Event>)
    requires Run(events).mounted
    ensures var h := Run(events);
      && (NoCleanup(events) ==> (h.state == Waiting <==> Undisturbed(events) && Outstanding(h)))
      && (h.state == Waiting && !Outstanding(h) <==> Stranded(events) && !Outstanding(h))
  {
    ShowsLatestReply(events);
    if NoCleanup(events) {
      NeverStranded(events);
    }
  }

  /** A hook cleaned up and kept, as development mode replays effects, waits on after its reply was handled. */
  lemma StrandedHookKeepsWaiting(request: Request, reply: Reply)
    ensures var events := [Mutate(request), Cleanup, Settle(0, reply), RunCallback(0)];
      var h := Run(events);
      Stranded(events) && h.mounted && h.state == Waiting && !Outstanding(h) && h.replies == map[0 := reply]
  {
    var es := [Mutate(request), Cleanup, Settle(0, reply), RunCallback(0)];
    assert es[..3][..2] == es[..2] && es[..2][..1] == es[..1] && es[..1][..0] == [];
    var h1 := Step(INITIAL, es[0]);
    var h2 := Step(h1, es[1]);
    var h3 := Step(h2, es[2]);
    assert Run(es[..1]) == h1;
    assert Run(es[..2]) == h2;
    assert Run(es[..3]) == h3;
    assert Undisturbed(es[..1]) && Outstanding(h1);
    assert Stranded(es[..2]);
    assert Stranded(es[..3]);
    assert Run(es) == Step(h3, es[3]);
  }

  /**
   * The page's effect is replayed together with the cleanup: its second `mutate` joins the request in flight,
   * so nothing is sent twice, and the hook is not stranded but waits for that request's reply.
   */
  lemma ReplayedEffectJoins(events: seq<Event>, request: Request)
    ensures var once, again := events + [Mutate(request)], events + [Mutate(request)] + [Cleanup] + [Mutate(request)];
      var h := Run(again);
      && h.calls == Run(once).calls && Undisturbed(again) && !Stranded(again) && Outstanding(h)
      && h.callbacks[|h.callbacks| - 1].promise == Run(once).callbacks[|Run(once).callbacks| - 1].promise
  {
    var once := events + [Mutate(request)];
    var cleaned := once + [Cleanup];
    var again := cleaned + [Mutate(request)];
    assert once[..|events|] == events && cleaned[..|once|] == once && again[..|cleaned|] == cleaned;
    var h := Step(Run(events), Mutate(request));
    assert Run(once) == h;
    assert Run(cleaned) == Step(h, Cleanup);
    assert Run(again) == Step(Step(h, Cleanup), Mutate(request));
  }

  /** Some callback has the current generation: it would update the state. */
  predicate HasCurrent(h: Hook) {
    exists i :: 0 <= i < |h.callbacks| && h.callbacks[i].generation == h.generation
  }

  /**
   * A reset, a cleanup or an unmount leaves every callback a generation behind, and only the next `mutate`
   * makes one current again: so until then no callback attempts a state update.
   */
  lemma CallbackIsCurrentIffUndisturbed(events: seq<Event>)
    ensures Undisturbed(events) <==> HasCurrent(Run(events))
  {
    RunKeepsInvariant(events);
    CurrentIsLatest(Requests(events), Undisturbed(events), Run(events));
  }

  lemma CurrentIsLatest(requests: seq<Request>, undisturbed: bool, h: Hook)
    requires Invariant(requests, undisturbed, h)
    ensures undisturbed <==> HasCurrent(h)
  {
    var n := |h.callbacks|;
    assert undisturbed ==> n > 0 && h.callbacks[n - 1].generation == h.generation;
    forall i | 0 <= i < n && !undisturbed
      ensures h.callbacks[i].generation < h.generation
    {
      assert i < n - 1 ==> h.callbacks[i].generation < h.callbacks[n - 1].generation;
    }
  }

  predicate OnlyArrivals(later: seq<Event>) {
    forall i :: 0 <= i < |later| ==> later[i].Settle? || later[i].RunCallback?
  }

  predicate NoMutate(later: seq<Event>) {
    forall i :: 0 <= i < |later| ==> !later[i].Mutate?
  }

  /** Once disturbed, the hook stays so through everything but a `mutate`: no callback becomes current. */
  lemma {:induction false} StaysDisturbed(events: seq<Event>, later: seq<Event>)
    requires !Undisturbed(events) && NoMutate(later)
    ensures !Undisturbed(events + later) && !HasCurrent(Run(events + later))
  {
    if later == [] {
      assert events + later == events;
    } else {
      var n := |later| - 1;
      StaysDisturbed(events, later[..n]);
      assert (events + later)[..|events + later| - 1] == events + later[..n];
    }
    CallbackIsCurrentIffUndisturbed(events + later);
  }

  /** After a reset, a cleanup or an unmount, whatever arrives leaves what is shown alone, until the next `mutate`. */
  lemma {:induction false} LateRepliesAreIgnored(events: seq<Event>, later: seq<Event>)
    requires !Undisturbed(events) && OnlyArrivals(later)
    ensures Run(events + later).state == Run(events).state
  {
    if later == [] {
      assert events + later == events;
    } else {
      var n := |later| - 1;
      LateRepliesAreIgnored(events, later[..n]);
      StaysDisturbed(events, later[..n]);
      assert (events + later)[..|events + later| - 1] == events + later[..n];
    }
  }

  /** After an unmount nothing changes the state, and until a further `mutate` no callback even attempts to. */
  lemma {:induction false} UnmountFreezesState(events: seq<Event>, later: seq<Event>)
    requires events != [] && events[|events| - 1] == Unmount
    ensures var h := Run(events + later);
      && !h.mounted && h.state == Run(events).state
      && (NoMutate(later) ==> !HasCurrent(h))
  {
    UnmountedRun(events, later);
    if NoMutate(later) {
      StaysDisturbed(events, later);
    }
  }

  lemma {:induction false} UnmountedRun(events: seq<Event>, later: seq<Event>)
    requires !Run(events).mounted
    ensures !Run(events + later).mounted && Run(events + later).state == Run(events).state
  {
    if later == [] {
      assert events + later == events;
    } else {
      var n := |later| - 1;
      UnmountedRun(events, later[..n]);
      assert (events + later)[..|events + later| - 1] == events + later[..n];
      assert (events + later)[|events + later| - 1] == later[n];
      UnmountedStep(Run(events + later[..n]), later[n]);
      hide Step;
    }
  }

  lemma UnmountedStep(h: Hook, e: Event)
    requires !h.mounted
    ensures !Step(h, e).mounted && Step(h, e).state == h.state
  {
  }

  /**
   * The promise a `mutate` waits on answers a request of the same idempotency key. It answers that very
   * request exactly when the hook did not join a request in flight that differs in email or application.
   */
  lemma WhoseReply(events: seq<Event>, request: Request)
    ensures var before, h := Run(events), Run(events + [Mutate(request)]);
      var promise := h.callbacks[|h.callbacks| - 1].promise;
      && promise < |h.calls| && h.calls[promise].idempotencyKey == request.idempotencyKey
      && (h.calls[promise] == request
          <==> !(before.inFlight.Some? && before.inFlight.value.key == request.idempotencyKey
                 && before.inFlight.value.promise < |before.calls|
                 && before.calls[before.inFlight.value.promise] != request))
  {
    RunKeepsInvariant(events);
    assert (events + [Mutate(request)])[..|events|] == events;
  }

  /** A retry that keeps the key but changes the email can show the reply to the old email. */
  lemma JoinedReplyOfOldEmail()
    ensures var first, second := Request("a@x", "k", "app"), Request("b@x", "k", "app");
      var h := Run([Mutate(first), Reset, Mutate(second), Settle(0, Success("setup for a@x")), RunCallback(1)]);
      h.calls == [first] && h.state == Answered(Success("setup for a@x"))
  {
    var first, second := Request("a@x", "k", "app"), Request("b@x", "k", "app");
    var es := [Mutate(first), Reset, Mutate(second), Settle(0, Success("setup for a@x")), RunCallback(1)];
    assert es[..4][..3] == es[..3] && es[..3][..2] == es[..2] && es[..2][..1] == es[..1] && es[..1][..0] == [];
    assert Run(es[..1]) == Step(INITIAL, Mutate(first));
    assert Run(es[..2]) == Step(Run(es[..1]), Reset);
    assert Run(es[..3]) == Step(Run(es[..2]), Mutate(second));
    assert Run(es[..4]) == Step(Run(es[..3]), Settle(0, Success("setup for a@x")));
  }

  // ---- which calls go out ----

  /** Some callback waiting on the promise has run. */
  predicate Handled(h: Hook, promise: nat) {
    exists i :: 0 <= i < |h.callbacks| && h.callbacks[i].promise == promise && h.callbacks[i].ran
  }

  /** The ref holds the latest `mutate`'s key and promise, exactly until a callback of that promise runs. */
  predicate FlightInvariant(requests: seq<Request>, h: Hook) {
    && |requests| == |h.callbacks|
    && (forall i :: 0 <= i < |h.callbacks| ==> h.callbacks[i].promise < |h.calls|)
    && (h.inFlight.Some? <==> h.callbacks != [] && !Handled(h, h.callbacks[|h.callbacks| - 1].promise))
    && (h.inFlight.Some? ==>
          h.inFlight.value == Flight(requests[|requests| - 1].idempotencyKey, h.callbacks[|h.callbacks| - 1].promise))
  }

  lemma MutateKeepsFlight(requests: seq<Request>, h: Hook, request: Request)
    requires FlightInvariant(requests, h)
    ensures FlightInvariant(requests + [request], Step(h, Mutate(request)))
  {
    var h' := Step(h, Mutate(request));
    var n := |h.callbacks|;
    assert forall i :: 0 <= i < n ==> h'.callbacks[i] == h.callbacks[i];
  }

  lemma CallbackKeepsFlight(requests: seq<Request>, h: Hook, i: nat)
    requires FlightInvariant(requests, h)
    ensures FlightInvariant(requests, Step(h, RunCallback(i)))
  {
    var h' := Step(h, RunCallback(i));
    if h' != h {
      assert forall j :: 0 <= j < |h.callbacks| ==> h'.callbacks[j].promise == h.callbacks[j].promise;
      assert h'.callbacks[i].ran;
      assert forall j :: 0 <= j < |h.callbacks| && j != i ==> h'.callbacks[j] == h.callbacks[j];
      var latest := h.callbacks[|h.callbacks| - 1].promise;
      if Handled(h, latest) {
        var j :| 0 <= j < |h.callbacks| && h.callbacks[j].promise == latest && h.callbacks[j].ran;
        assert h'.callbacks[j].ran;
      }
      if Handled(h', latest) && h.callbacks[i].promise != latest {
        var j :| 0 <= j < |h'.callbacks| && h'.callbacks[j].promise == latest && h'.callbacks[j].ran;
        assert h.callbacks[j].ran;
      }
    }
  }

  lemma {:induction false} RunKeepsFlight(events: seq<Event>)
    ensures FlightInvariant(Requests(events), Run(events))
  {
    if events != [] {
      var n := |events| - 1;
      RunKeepsFlight(events[..n]);
      var requests, h := Requests(events[..n]), Run(events[..n]);
      assert requests + [] == requests;
      match events[n]
      case Mutate(request) => MutateKeepsFlight(requests, h, request);
      case RunCallback(i) => CallbackKeepsFlight(requests, h, i);
      case _ => assert Step(h, events[n]).callbacks == h.callbacks && Step(h, events[n]).inFlight == h.inFlight;
    }
  }

  /**
   * In every run a `mutate` sends no new call exactly when the `mutate` before it had the same key and no
   * callback of its promise has run; and then it waits on that promise. So a retry after a reply goes out.
   */
  lemma SendsUnlessInFlight(events: seq<Event>, request: Request)
    ensures var h, h' := Run(events), Run(events + [Mutate(request)]);
      var requests, n := Requests(events), |h.callbacks|;
      && |requests| == n && |h'.callbacks| == n + 1
      && (h'.calls == h.calls
          <==> && n > 0 && requests[n - 1].idempotencyKey == request.idempotencyKey
               && !Handled(h, h.callbacks[n - 1].promise))
      && (h'.calls == h.calls ==> n > 0 && h'.callbacks[n].promise == h.callbacks[n - 1].promise)
      && (h'.calls != h.calls ==> h'.calls == h.calls + [request] && h'.callbacks[n].promise == |h.calls|)
  {
    RunKeepsFlight(events);
    assert (events + [Mutate(request)])[..|events|] == events;
    assert Run(events + [Mutate(request)]) == Step(Run(events), Mutate(request));
  }

  // ---- when nothing is shown ----

  /** No `mutate` yet, or a reset since the latest one. */
  predicate Cleared(events: seq<Event>) {
    events == [] ||
      var n := |events| - 1;
      events[n].Reset? || (!events[n].Mutate? && Cleared(events[..n]))
  }

  lemma ClearedStep(requests: seq<Request>, undisturbed: bool, h: Hook, e: Event, cleared: bool)
    requires Invariant(requests, undisturbed, h)
    requires h.mounted ==> (h.state == Idle <==> cleared)
    requires cleared ==> !undisturbed
    ensures var h', cleared' := Step(h, e), e.Reset? || (!e.Mutate? && cleared);
      && (h'.mounted ==> (h'.state == Idle <==> cleared'))
      && (cleared' ==> !StillUndisturbed(undisturbed, e))
  {
    if e.RunCallback? && e.i + 1 < |h.callbacks| {
      OlderCallbackIsStale(requests, h, e.i);
    }
  }

  lemma {:induction false} ClearedRun(events: seq<Event>)
    ensures Run(events).mounted ==> (Run(events).state == Idle <==> Cleared(events))
    ensures Cleared(events) ==> !Undisturbed(events)
  {
    hide Step, Invariant;
    if events != [] {
      var n := |events| - 1;
      ClearedRun(events[..n]);
      RunKeepsInvariant(events[..n]);
      ClearedStep(Requests(events[..n]), Undisturbed(events[..n]), Run(events[..n]), events[n], Cleared(events[..n]));
    }
  }

  /** While mounted nothing is shown exactly before the first `mutate` and from a reset to the next one. */
  lemma IdleExactlyWhenCleared(events: seq<Event>)
    requires Run(events).mounted
    ensures Run(events).state == Idle <==> Cleared(events)
  {
    ClearedRun(events);
  }

  // ---- one request per key, as the page calls the hook ----

  /** While a payment page is mounted its email and application change only together with the key. */
  predicate OneRequestPerKey(requests: seq<Request>) {
    forall a, b :: a in requests && b in requests && a.idempotencyKey == b.idempotencyKey ==> a == b
  }

  /** Every call on the network is one of the requests passed to `mutate`. */
  predicate CallsAreRequests(requests: seq<Request>, calls: seq<Request>) {
    forall call :: call in calls ==> call in requests
  }

  lemma {:induction false} RunCallsAreRequests(events: seq<Event>)
    ensures CallsAreRequests(Requests(events), Run(events).calls)
  {
    if events != [] {
      var n := |events| - 1;
      RunCallsAreRequests(events[..n]);
      CallsStayRequests(Requests(events[..n]), Run(events[..n]), events[n]);
    }
  }

  lemma CallsStayRequests(requests: seq<Request>, h: Hook, e: Event)
    requires CallsAreRequests(requests, h.calls)
    ensures CallsAreRequests(requests + (if e.Mutate? then [e.request] else []), Step(h, e).calls)
  {
  }

  /** Under that discipline every `mutate` waits for the reply to its very own request, joined or not. */
  lemma EachIsAnsweredItsOwnRequest(events: seq<Event>, i: nat)
    requires OneRequestPerKey(Requests(events)) && i < |Run(events).callbacks|
    ensures var h := Run(events);
      && |h.callbacks| == |Requests(events)| && h.callbacks[i].promise < |h.calls|
      && h.calls[h.callbacks[i].promise] == Requests(events)[i]
  {
    RunKeepsInvariant(events);
    RunCallsAreRequests(events);
    var h, requests := Run(events), Requests(events);
    assert h.calls[h.callbacks[i].promise] in requests;
  }
}
