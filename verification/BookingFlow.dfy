/**
 * The booking flow's provider: a reducer whose state reaches callers only through renders, and three refs
 * that are read and written at once. Callers may hold the functions of any earlier render.
 */
module BookingFlow {
  import opened Wrappers

  datatype Status = NotSubmitted | InProgress | Acknowledged | Refused

  /** The reducer's state. `form` stands for the quote, guest, answers and set-up intent fields. */
  datatype Data = Data(criteria: Option<string>, branding: Option<string>, selection: Option<(string, string)>,
                       serviceIds: seq<string>, form: map<string, string>,
                       requestKey: Option<nat>, setupKey: Option<nat>,
                       status: Status, acknowledgement: Option<string>, failure: Option<string>)

  datatype Action =
    | SetCriteria(criteria: string)
    | SetBranding(branding: Option<string>)
    | SetServiceIds(serviceIds: seq<string>)
    | SetField(field: string, value: string)
    | SetRequestKey(key: nat)
    | SetSetupKey(key: nat)
    | SetAcknowledgement(acknowledgement: Option<string>)
    | Sending
    | Received(reply: Result<string, string>)
    | Selection(roomType: string, rate: string)
    | ResetFlow

  const INITIAL_DATA := Data(None, None, None, [], map[], None, None, NotSubmitted, None, None)

  function Reduce(d: Data, a: Action): Data {
    match a
    case SetCriteria(criteria) => d.(criteria := Some(criteria))
    case SetBranding(branding) => d.(branding := branding)
    case SetServiceIds(ids) => d.(serviceIds := ids)
    case SetField(field, value) => d.(form := d.form[field := value])
    case SetRequestKey(key) => d.(requestKey := Some(key))
    case SetSetupKey(key) => d.(setupKey := Some(key))
    case SetAcknowledgement(ack) => d.(acknowledgement := ack)
    case Sending => d.(acknowledgement := None, status := InProgress, failure := None)
    case Received(Success(ack)) => d.(acknowledgement := Some(ack), status := Acknowledged)
    case Received(Failure(error)) => d.(status := Refused, failure := Some(error))
    case Selection(roomType, rate) => d.(selection := Some((roomType, rate)), serviceIds := [])
    case ResetFlow => INITIAL_DATA.(criteria := d.criteria, branding := d.branding)
  }

  function ReduceAll(d: Data, actions: seq<Action>): Data {
    if actions == [] then d else Reduce(ReduceAll(d, actions[..|actions| - 1]), actions[|actions| - 1])
  }

  /** What a render's functions captured: the state, and how many resets that state includes. */
  datatype Render = Render(data: Data, period: int)

  /** A submission on the network: sent, answered, or answered and its `finally` run. */
  datatype Submission = Open | Replied(reply: Result<string, string>) | Finished(reply: Result<string, string>)

  /**
   * The provider: renders so far (the last is current), dispatched actions not yet reduced, and the refs;
   * for the record also the submissions a reset abandoned and the latest one sent since the last reset.
   */
  datatype Flow = Flow(renders: seq<Render>, queue: seq<Action>, resets: nat, issuedKeys: nat,
                       requestKey: Option<nat>, setupKey: Option<nat>,
                       submission: Option<nat>, sent: seq<Submission>, abandoned: set<nat>, latest: Option<nat>)

  const INITIAL := Flow([Render(INITIAL_DATA, 0)], [], 0, 0, None, None, None, [], {}, None)

  datatype Event =
    | EnsureRequestKey(render: nat)
    | EnsureSetupKey(render: nat)
    | RotateSetupKey
    | Submit
    | Reply(promise: nat, reply: Result<string, string>)
    | Finally(promise: nat)
    | Reset
    | Dispatch(action: Action)  // the plain setters
    | Rerender(n: nat)          // React reduces the first n queued actions and renders

  /** The setters dispatch only what the keys, submissions and resets do not. */
  predicate IsPlain(a: Action) {
    !a.SetRequestKey? && !a.SetSetupKey? && !a.Sending? && !a.Received? && !a.ResetFlow?
  }

  function Queue(f: Flow, a: Action): Flow {
    f.(queue := f.queue + [a])
  }

  /** `ensureRequestIdempotencyKey` from a render: what it returns, and the provider after it. */
  function EnsureRequest(f: Flow, render: nat): (nat, Flow)
    requires render < |f.renders|
  {
    if f.renders[render].data.requestKey.Some? then (f.renders[render].data.requestKey.value, f)
    else if f.requestKey.Some? then (f.requestKey.value, f)
    else
      var id := f.issuedKeys;
      (id, Queue(f.(issuedKeys := id + 1, requestKey := Some(id)), SetRequestKey(id)))
  }

  function EnsureSetup(f: Flow, render: nat): (nat, Flow)
    requires render < |f.renders|
  {
    if f.renders[render].data.setupKey.Some? then (f.renders[render].data.setupKey.value, f)
    else if f.setupKey.Some? then (f.setupKey.value, f)
    else Rotate(f)
  }

  function Rotate(f: Flow): (nat, Flow) {
    var id := f.issuedKeys;
    (id, Queue(f.(issuedKeys := id + 1, setupKey := Some(id)), SetSetupKey(id)))
  }

  /** `submitRequest`: the promise it returns. */
  function Send(f: Flow): (nat, Flow) {
    if f.submission.Some? then (f.submission.value, f)
    else
      var promise := |f.sent|;
      (promise, Queue(f.(sent := f.sent + [Open], submission := Some(promise), latest := Some(promise)), Sending))
  }

  function Resets(actions: seq<Action>): nat {
    if actions == [] then 0
    else Resets(actions[..|actions| - 1]) + (if actions[|actions| - 1] == ResetFlow then 1 else 0)
  }

  function Step(f: Flow, e: Event): Flow {
    match e
    case EnsureRequestKey(r) => if r < |f.renders| then EnsureRequest(f, r).1 else f
    case EnsureSetupKey(r) => if r < |f.renders| then EnsureSetup(f, r).1 else f
    case RotateSetupKey => Rotate(f).1
    case Submit => Send(f).1
    case Reply(p, reply) =>
      if p >= |f.sent| || !f.sent[p].Open? then f
      else Queue(f.(sent := f.sent[p := Replied(reply)]), Received(reply))
    case Finally(p) =>
      if p >= |f.sent| || !f.sent[p].Replied? then f
      else f.(sent := f.sent[p := Finished(f.sent[p].reply)],
              submission := if f.submission == Some(p) then None else f.submission)
    case Reset =>
      Queue(f.(resets := f.resets + 1, requestKey := None, setupKey := None, submission := None, latest := None,
               abandoned := f.abandoned + (if f.submission.Some? then {f.submission.value} else {})), ResetFlow)
    case Dispatch(action) => if IsPlain(action) then Queue(f, action) else f
    case Rerender(n) =>
      if n > |f.queue| || f.renders == [] then f
      else
        var render := Render(ReduceAll(f.renders[|f.renders| - 1].data, f.queue[..n]), f.resets - Resets(f.queue[n..]));
        f.(renders := f.renders + [render], queue := f.queue[n..])
  }

  function Run(f: Flow, events: seq<Event>): Flow {
    if events == [] then f else Step(Run(f, events[..|events| - 1]), events[|events| - 1])
  }

  // ---- the provider's functions, as they change the refs ----

  class Provider {
    var renders: seq<Render>
    var queue: seq<Action>
    ghost var resets: nat
    var issuedKeys: nat
    var requestKey: Option<nat>
    var setupKey: Option<nat>
    var submission: Option<nat>
    var sent: seq<Submission>
    ghost var abandoned: set<nat>
    ghost var latest: Option<nat>

    constructor ()
      ensures View() == INITIAL
    {
      renders, queue, resets, issuedKeys := [Render(INITIAL_DATA, 0)], [], 0, 0;
      requestKey, setupKey, submission, sent, abandoned, latest := None, None, None, [], {}, None;
    }

    ghost function View(): Flow
      reads this
    {
      Flow(renders, queue, resets, issuedKeys, requestKey, setupKey, submission, sent, abandoned, latest)
    }

    method DispatchAction(action: Action)
      modifies this`queue
      ensures queue == old(queue) + [action]
    {
      queue := queue + [action];
    }

    method RandomId() returns (id: nat)
      modifies this`issuedKeys
      ensures id == old(issuedKeys) && issuedKeys == id + 1
    {
      id := issuedKeys;
      issuedKeys := issuedKeys + 1;
    }

    method EnsureRequestIdempotencyKey(render: nat) returns (key: nat)
      requires render < |renders|
      modifies this
      ensures (key, View()) == EnsureRequest(old(View()), render)
    {
      if renders[render].data.requestKey.Some? {
        return renders[render].data.requestKey.value;
      }
      if requestKey.Some? {
        return requestKey.value;
      }
      key := RandomId();
      requestKey := Some(key);
      DispatchAction(SetRequestKey(key));
    }

    method RotateRequestPaymentSetupKey() returns (key: nat)
      modifies this
      ensures (key, View()) == Rotate(old(View()))
    {
      key := RandomId();
      setupKey := Some(key);
      DispatchAction(SetSetupKey(key));
    }

    method EnsureRequestPaymentSetupKey(render: nat) returns (key: nat)
      requires render < |renders|
      modifies this
      ensures (key, View()) == EnsureSetup(old(View()), render)
    {
      if renders[render].data.setupKey.Some? {
        return renders[render].data.setupKey.value;
      }
      if setupKey.Some? {
        return setupKey.value;
      }
      key := RotateRequestPaymentSetupKey();
    }

    method SubmitRequest() returns (promise: nat)
      modifies this
      ensures (promise, View()) == Send(old(View()))
    {
      if submission.Some? {
        return submission.value;
      }
      DispatchAction(Sending);
      promise := |sent|;
      sent := sent + [Open];
      submission := Some(promise);
      latest := submission;
    }

    method Finally(promise: nat)
      requires promise < |sent| && sent[promise].Replied?
      modifies this
      ensures View() == Step(old(View()), Event.Finally(promise))
    {
      sent := sent[promise := Finished(sent[promise].reply)];
      if submission == Some(promise) {
        submission := None;
      }
    }

    method Reset()
      modifies this
      ensures View() == Step(old(View()), Event.Reset)
    {
      abandoned := abandoned + (if submission.Some? then {submission.value} else {});
      resets := resets + 1;
      requestKey := None;
      setupKey := None;
      submission := None;
      latest := None;
      DispatchAction(ResetFlow);
    }
  }

  // ---- one submission at a time ----

  predicate IsInFlight(f: Flow, promise: nat) {
    promise < |f.sent| && !f.sent[promise].Finished?
  }

  /** A submission is in flight exactly when it is the one in the ref, or a reset abandoned it before it finished. */
  predicate SubmissionInvariant(f: Flow) {
    && (f.submission.Some? ==> IsInFlight(f, f.submission.value) && f.submission.value !in f.abandoned)
    && (forall p :: p in f.abandoned ==> p < |f.sent|)
    && (forall p :: 0 <= p < |f.sent| && !f.sent[p].Finished? ==> f.submission == Some(p) || p in f.abandoned)
  }

  lemma StepKeepsSubmissions(f: Flow, e: Event)
    requires SubmissionInvariant(f)
    ensures SubmissionInvariant(Step(f, e))
  {
  }

  lemma {:induction false} RunKeepsSubmissions(events: seq<Event>)
    ensures SubmissionInvariant(Run(INITIAL, events))
  {
    if events != [] {
      RunKeepsSubmissions(events[..|events| - 1]);
      StepKeepsSubmissions(Run(INITIAL, events[..|events| - 1]), events[|events| - 1]);
    }
  }

  /** No reset of the run came while a submission was pending. */
  predicate NeverAbandons(events: seq<Event>) {
    Run(INITIAL, events).abandoned == {}
  }

  /** Without such a reset at most one submission is in flight, and every caller during it gets that one. */
  lemma SingleFlight(events: seq<Event>, p: nat, q: nat)
    requires NeverAbandons(events) && IsInFlight(Run(INITIAL, events), p)
    ensures IsInFlight(Run(INITIAL, events), q) ==> p == q
    ensures var f := Run(INITIAL, events);
      Send(f) == (p, f)
  {
    RunKeepsSubmissions(events);
  }

  /** With resets, whatever else is in flight was abandoned by one: the ref always holds the newest. */
  lemma OthersInFlightWereAbandoned(events: seq<Event>, p: nat)
    requires IsInFlight(Run(INITIAL, events), p)
    ensures Run(INITIAL, events).submission == Some(p) <==> p !in Run(INITIAL, events).abandoned
  {
    RunKeepsSubmissions(events);
  }

  predicate AtMostOneInFlight(f: Flow) {
    forall p, q :: 0 <= p < |f.sent| && 0 <= q < |f.sent| && IsInFlight(f, p) && IsInFlight(f, q) ==> p == q
  }

  /** The submit would go out beside a submission that a reset abandoned and that has not finished. */
  predicate SendsBesideAbandoned(f: Flow, e: Event) {
    e == Submit && f.submission.None? && exists p :: p in f.abandoned && IsInFlight(f, p)
  }

  lemma StepKeepsOneInFlight(f: Flow, e: Event)
    requires SubmissionInvariant(f) && AtMostOneInFlight(f)
    ensures AtMostOneInFlight(Step(f, e)) <==> !SendsBesideAbandoned(f, e)
  {
    var f' := Step(f, e);
    assert forall p :: 0 <= p < |f.sent| && !IsInFlight(f, p) ==> !IsInFlight(f', p);
    if SendsBesideAbandoned(f, e) {
      var p :| p in f.abandoned && IsInFlight(f, p);
      assert IsInFlight(f', p) && IsInFlight(f', |f.sent|);
    }
  }

  /** At most one submission is in flight after each event of the run. */
  predicate OneInFlightSoFar(events: seq<Event>) {
    AtMostOneInFlight(Run(INITIAL, events)) && (events != [] ==> OneInFlightSoFar(events[..|events| - 1]))
  }

  /** No submit of the run went out beside an abandoned submission. */
  predicate NoneSentBeside(events: seq<Event>) {
    events != [] ==>
      var n := |events| - 1;
      NoneSentBeside(events[..n]) && !SendsBesideAbandoned(Run(INITIAL, events[..n]), events[n])
  }

  /** Throughout a run at most one submission is in flight exactly when no submit went out beside an abandoned one. */
  lemma {:induction false} OneInFlightThroughout(events: seq<Event>)
    ensures OneInFlightSoFar(events) <==> NoneSentBeside(events)
  {
    hide AtMostOneInFlight, SendsBesideAbandoned, Step;
    if events == [] {
      NothingInFlight();
    } else {
      var n := |events| - 1;
      OneInFlightThroughout(events[..n]);
      RunKeepsSubmissions(events[..n]);
      assert OneInFlightSoFar(events[..n]) ==> AtMostOneInFlight(Run(INITIAL, events[..n]));
      if AtMostOneInFlight(Run(INITIAL, events[..n])) {
        StepKeepsOneInFlight(Run(INITIAL, events[..n]), events[n]);
      }
    }
  }

  lemma NothingInFlight()
    ensures AtMostOneInFlight(Run(INITIAL, []))
  {
  }

  /** A reset while a submission is pending lets a second one go out beside it. */
  lemma ResetWhilePendingDoublesFlight()
    ensures var f := Run(INITIAL, [Submit, Reset, Submit]);
      IsInFlight(f, 0) && IsInFlight(f, 1)
  {
    var es := [Submit, Reset, Submit];
    assert es[..2][..1] == es[..1] && es[..1][..0] == [];
    assert Run(INITIAL, es[..1]) == Step(INITIAL, Submit);
    assert Run(INITIAL, es[..2]) == Step(Run(INITIAL, es[..1]), Reset);
  }

  // ---- the queue of the reducer ----

  lemma {:induction false} ReduceAllConcat(d: Data, a: seq<Action>, b: seq<Action>)
    ensures ReduceAll(d, a + b) == ReduceAll(ReduceAll(d, a), b)
  {
    hide Reduce;
    if b == [] {
      assert a + b == a;
    } else {
      var n := |b| - 1;
      ReduceAllConcat(d, a, b[..n]);
      assert (a + b)[..|a + b| - 1] == a + b[..n];
    }
  }

  /** The state after everything dispatched. */
  function Eventually(f: Flow): Data
    requires f.renders != []
  {
    ReduceAll(f.renders[|f.renders| - 1].data, f.queue)
  }

  lemma EventuallyAfterDispatch(f: Flow, a: Action)
    requires f.renders != []
    ensures Eventually(Queue(f, a)) == Reduce(Eventually(f), a)
  {
    ReduceAllConcat(f.renders[|f.renders| - 1].data, f.queue, [a]);
    assert [a][..0] == [];
  }

  lemma EventuallyAfterRender(f: Flow, n: nat)
    requires f.renders != [] && n <= |f.queue|
    ensures Eventually(Step(f, Rerender(n))) == Eventually(f)
  {
    ReduceAllConcat(f.renders[|f.renders| - 1].data, f.queue[..n], f.queue[n..]);
    assert f.queue[..n] + f.queue[n..] == f.queue;
  }

  /** What an event dispatches, if anything. */
  function Dispatched(f: Flow, e: Event): Option<Action> {
    match e
    case EnsureRequestKey(r) =>
      if r < |f.renders| && f.renders[r].data.requestKey.None? && f.requestKey.None?
      then Some(SetRequestKey(f.issuedKeys)) else None
    case EnsureSetupKey(r) =>
      if r < |f.renders| && f.renders[r].data.setupKey.None? && f.setupKey.None?
      then Some(SetSetupKey(f.issuedKeys)) else None
    case RotateSetupKey => Some(SetSetupKey(f.issuedKeys))
    case Submit => if f.submission.None? then Some(Sending) else None
    case Reply(p, reply) => if p < |f.sent| && f.sent[p].Open? then Some(Received(reply)) else None
    case Finally(_) => None
    case Reset => Some(ResetFlow)
    case Dispatch(action) => if IsPlain(action) then Some(action) else None
    case Rerender(_) => None
  }

  /** What is eventually shown changes by what is dispatched, and by no render. */
  lemma EventuallyAfter(f: Flow, e: Event)
    requires f.renders != []
    ensures Step(f, e).renders != []
    ensures Eventually(Step(f, e))
      == if Dispatched(f, e).Some? then Reduce(Eventually(f), Dispatched(f, e).value) else Eventually(f)
  {
    hide ReduceAll, Resets, Reduce;
    if Dispatched(f, e).Some? {
      EventuallyAfterDispatch(f, Dispatched(f, e).value);
    } else if e.Rerender? && e.n <= |f.queue| {
      EventuallyAfterRender(f, e.n);
    }
  }

  // ---- one idempotency key between two resets ----

  predicate KeyIs(d: Data, key: Option<nat>) {
    d.requestKey.None? || d.requestKey == key
  }

  /** Every state a render of this period can still reach knows no key or the ref's; the last one knows the ref's. */
  predicate QueueKeys(d: Data, queue: seq<Action>, key: Option<nat>) {
    && (forall n :: 0 <= n <= |queue| && Resets(queue[n..]) == 0 ==> KeyIs(ReduceAll(d, queue[..n]), key))
    && ReduceAll(d, queue).requestKey == key
  }

  lemma ReduceOne(d: Data, queue: seq<Action>, a: Action)
    ensures ReduceAll(d, queue + [a]) == Reduce(ReduceAll(d, queue), a)
    ensures Resets(queue + [a]) == Resets(queue) + (if a == ResetFlow then 1 else 0)
  {
    assert (queue + [a])[..|queue|] == queue;
  }

  lemma DispatchKeepsKeys(d: Data, queue: seq<Action>, key: Option<nat>, a: Action, key': Option<nat>)
    requires QueueKeys(d, queue, key)
    requires a.ResetFlow? ==> key'.None?
    requires a.SetRequestKey? ==> key.None? && key' == Some(a.key)
    requires !a.ResetFlow? && !a.SetRequestKey? ==> key' == key
    ensures QueueKeys(d, queue + [a], key')
  {
    hide ReduceAll, Resets;
    var queue' := queue + [a];
    ReduceOne(d, queue, a);
    forall n | 0 <= n <= |queue'| && Resets(queue'[n..]) == 0
      ensures KeyIs(ReduceAll(d, queue'[..n]), key')
    {
      if n <= |queue| {
        assert queue'[n..] == queue[n..] + [a];
        ReduceOne(d, queue[n..], a);
        assert queue'[..n] == queue[..n];
      } else {
        assert queue'[..n] == queue';
      }
    }
  }

  lemma RenderKeepsKeys(d: Data, queue: seq<Action>, key: Option<nat>, n: nat)
    requires QueueKeys(d, queue, key) && n <= |queue|
    ensures QueueKeys(ReduceAll(d, queue[..n]), queue[n..], key)
  {
    hide ReduceAll, Resets;
    ReduceAllConcat(d, queue[..n], queue[n..]);
    assert queue[..n] + queue[n..] == queue;
    forall m | 0 <= m <= |queue[n..]| && Resets(queue[n..][m..]) == 0
      ensures KeyIs(ReduceAll(ReduceAll(d, queue[..n]), queue[n..][..m]), key)
    {
      ReduceAllConcat(d, queue[..n], queue[n..][..m]);
      assert queue[..n] + queue[n..][..m] == queue[..n + m];
      assert queue[n..][m..] == queue[n + m..];
    }
  }

  predicate RenderKeys(renders: seq<Render>, resets: nat, key: Option<nat>) {
    forall r :: 0 <= r < |renders| ==>
      renders[r].period <= resets && (renders[r].period == resets ==> KeyIs(renders[r].data, key))
  }

  predicate KeyInvariant(f: Flow) {
    && f.renders != []
    && RenderKeys(f.renders, f.resets, f.requestKey)
    && QueueKeys(f.renders[|f.renders| - 1].data, f.queue, f.requestKey)
  }

  lemma QueueKeepsKeyInvariant(f: Flow, a: Action)
    requires KeyInvariant(f) && !a.ResetFlow? && !a.SetRequestKey?
    ensures KeyInvariant(Queue(f, a))
  {
    DispatchKeepsKeys(f.renders[|f.renders| - 1].data, f.queue, f.requestKey, a, f.requestKey);
  }

  lemma StepKeepsKeyInvariant(f: Flow, e: Event)
    requires KeyInvariant(f)
    ensures KeyInvariant(Step(f, e))
  {
    hide QueueKeys, ReduceAll, Resets;
    var d := f.renders[|f.renders| - 1].data;
    match e
    case EnsureRequestKey(r) =>
      if r < |f.renders| && f.renders[r].data.requestKey.None? && f.requestKey.None? {
        DispatchKeepsKeys(d, f.queue, None, SetRequestKey(f.issuedKeys), Some(f.issuedKeys));
      }
    case EnsureSetupKey(r) =>
      QueueKeepsKeyInvariant(f, SetSetupKey(f.issuedKeys));
    case RotateSetupKey =>
      QueueKeepsKeyInvariant(f, SetSetupKey(f.issuedKeys));
    case Submit =>
      QueueKeepsKeyInvariant(f, Sending);
    case Reply(_, reply) =>
      QueueKeepsKeyInvariant(f, Received(reply));
    case Finally(_) =>
    case Reset =>
      DispatchKeepsKeys(d, f.queue, f.requestKey, ResetFlow, None);
    case Dispatch(action) =>
      if IsPlain(action) {
        QueueKeepsKeyInvariant(f, action);
      }
    case Rerender(n) =>
      if n <= |f.queue| {
        RenderKeepsKeys(d, f.queue, f.requestKey, n);
        RenderOfPeriod(d, f.queue, f.requestKey, n);
      }
  }

  lemma RenderOfPeriod(d: Data, queue: seq<Action>, key: Option<nat>, n: nat)
    requires QueueKeys(d, queue, key) && n <= |queue|
    ensures Resets(queue[n..]) == 0 ==> KeyIs(ReduceAll(d, queue[..n]), key)
  {
  }

  lemma {:induction false} RunKeepsKeyInvariant(events: seq<Event>)
    ensures KeyInvariant(Run(INITIAL, events))
  {
    if events != [] {
      RunKeepsKeyInvariant(events[..|events| - 1]);
      StepKeepsKeyInvariant(Run(INITIAL, events[..|events| - 1]), events[|events| - 1]);
    }
  }

  lemma {:induction false} KeyStays(f: Flow, later: seq<Event>)
    requires f.requestKey.Some? && forall i :: 0 <= i < |later| ==> later[i] != Reset
    ensures Run(f, later).requestKey == f.requestKey && Run(f, later).resets == f.resets
  {
    if later != [] {
      KeyStays(f, later[..|later| - 1]);
    }
  }

  lemma {:induction false} RunConcat(f: Flow, a: seq<Event>, b: seq<Event>)
    ensures Run(f, a + b) == Run(Run(f, a), b)
  {
    hide Step;
    if b == [] {
      assert a + b == a;
    } else {
      var n := |b| - 1;
      RunConcat(f, a, b[..n]);
      assert (a + b)[..|a + b| - 1] == a + b[..n];
    }
  }

  /**
   * Between two resets every `ensureRequestIdempotencyKey` call, from any render of that period, returns
   * one key, however many dispatched actions no render has seen yet.
   */
  lemma OneKeyPerPeriod(events: seq<Event>, r: nat, later: seq<Event>, q: nat)
    requires var f := Run(INITIAL, events); r < |f.renders| && f.renders[r].period == f.resets
    requires forall i :: 0 <= i < |later| ==> later[i] != Reset
    requires var g := Run(Step(Run(INITIAL, events), EnsureRequestKey(r)), later);
      q < |g.renders| && g.renders[q].period == g.resets
    ensures var f := Run(INITIAL, events);
      var g := Run(Step(f, EnsureRequestKey(r)), later);
      EnsureRequest(g, q).0 == EnsureRequest(f, r).0
  {
    hide QueueKeys;
    var f := Run(INITIAL, events);
    RunKeepsKeyInvariant(events);
    var f' := Step(f, EnsureRequestKey(r));
    KeyStays(f', later);
    var all := events + [EnsureRequestKey(r)];
    assert all[..|events|] == events;
    RunConcat(INITIAL, all, later);
    RunKeepsKeyInvariant(all + later);
  }

  /** The ref's key was issued, and not among the first `floor` keys. */
  predicate KeyFloor(f: Flow, floor: nat) {
    floor <= f.issuedKeys && (f.requestKey.Some? ==> floor <= f.requestKey.value < f.issuedKeys)
  }

  lemma {:induction false} RunKeepsKeyFloor(f: Flow, events: seq<Event>, floor: nat)
    requires KeyFloor(f, floor)
    ensures KeyFloor(Run(f, events), floor) && f.issuedKeys <= Run(f, events).issuedKeys
  {
    if events != [] {
      RunKeepsKeyFloor(f, events[..|events| - 1], floor);
      hide ReduceAll, Resets;
    }
  }

  /** The run: a call from render `r`, anything, a reset, and anything again. */
  function AcrossReset(events: seq<Event>, r: nat, between: seq<Event>, after: seq<Event>): seq<Event> {
    events + [EnsureRequestKey(r)] + between + [Reset] + after
  }

  /**
   * Keys of different periods differ: what a caller of the current period was given before a reset is never
   * given to a caller of the period after it, whatever else happens before and after.
   */
  lemma NewKeyAfterReset(events: seq<Event>, r: nat, between: seq<Event>, after: seq<Event>, q: nat)
    requires var f := Run(INITIAL, events); r < |f.renders| && f.renders[r].period == f.resets
    requires var g := Run(INITIAL, AcrossReset(events, r, between, after));
      q < |g.renders| && g.renders[q].period == g.resets
    ensures var f, g := Run(INITIAL, events), Run(INITIAL, AcrossReset(events, r, between, after));
      EnsureRequest(f, r).0 < EnsureRequest(g, q).0
  {
    hide *;
    var f := Run(INITIAL, events);
    RunKeepsKeyInvariant(events);
    NoKeyYet();
    RunKeepsKeyFloor(INITIAL, events, 0);
    var asked := Step(f, EnsureRequestKey(r));
    AskedKey(f, r);
    RunSnoc(INITIAL, events, EnsureRequestKey(r));
    RunConcat(INITIAL, events + [EnsureRequestKey(r)], between);
    RunKeepsKeyFloor(asked, between, 0);
    var waited := Run(asked, between);
    var front := events + [EnsureRequestKey(r)] + between;
    RunSnoc(INITIAL, front, Reset);
    var reset := Step(waited, Reset);
    ResetRaisesFloor(waited, asked.issuedKeys);
    RunConcat(INITIAL, front + [Reset], after);
    RunKeepsKeyFloor(reset, after, asked.issuedKeys);
    AcrossResetIs(events, r, between, after);
    RunKeepsKeyInvariant(AcrossReset(events, r, between, after));
    AskedKey(Run(reset, after), q);
  }

  lemma AcrossResetIs(events: seq<Event>, r: nat, between: seq<Event>, after: seq<Event>)
    ensures AcrossReset(events, r, between, after) == events + [EnsureRequestKey(r)] + between + [Reset] + after
  {
  }

  lemma RunSnoc(f: Flow, events: seq<Event>, e: Event)
    ensures Run(f, events + [e]) == Step(Run(f, events), e)
  {
    hide Step;
    assert (events + [e])[..|events|] == events;
  }

  lemma NoKeyYet()
    ensures KeyFloor(INITIAL, 0)
  {
  }

  /** A caller of the current period is given a key of the ref, or a new one, and the ref's floor holds for it. */
  lemma AskedKey(f: Flow, r: nat)
    requires KeyInvariant(f) && r < |f.renders| && f.renders[r].period == f.resets
    ensures forall floor: nat :: KeyFloor(f, floor) ==>
      floor <= EnsureRequest(f, r).0 < Step(f, EnsureRequestKey(r)).issuedKeys
      && KeyFloor(Step(f, EnsureRequestKey(r)), floor)
  {
    hide QueueKeys, ReduceAll, Resets;
  }

  lemma ResetRaisesFloor(f: Flow, floor: nat)
    requires floor <= f.issuedKeys
    ensures KeyFloor(Step(f, Reset), floor)
  {
  }

  // ---- the payment set-up key ----

  predicate SetupKeyDue(f: Flow) {
    f.renders != [] && Eventually(f).setupKey == f.setupKey
  }

  /** The ref follows what is dispatched. */
  lemma SetupKeyAfter(f: Flow, e: Event)
    ensures Step(f, e).setupKey
      == match Dispatched(f, e)
         case Some(SetSetupKey(key)) => Some(key)
         case Some(ResetFlow) => None
         case _ => f.setupKey
  {
    hide ReduceAll, Resets;
  }

  lemma StepKeepsSetupKeyDue(f: Flow, e: Event)
    requires SetupKeyDue(f)
    ensures SetupKeyDue(Step(f, e))
  {
    EventuallyAfter(f, e);
    SetupKeyAfter(f, e);
    hide Eventually, Step, Dispatched;
  }

  /** Once everything dispatched is rendered, the current render's set-up key is the one last issued since the reset. */
  lemma {:induction false} SetupKeyCatchesUp(events: seq<Event>)
    ensures var f := Run(INITIAL, events);
      SetupKeyDue(f) && (f.queue == [] ==> f.renders[|f.renders| - 1].data.setupKey == f.setupKey)
  {
    hide Step, INITIAL;
    if events != [] {
      SetupKeyCatchesUp(events[..|events| - 1]);
      StepKeepsSetupKeyDue(Run(INITIAL, events[..|events| - 1]), events[|events| - 1]);
    } else {
      FirstRenderHasNoKey();
    }
  }

  /** The queue holds an issued set-up key that no render has seen. */
  predicate KeyQueued(queue: seq<Action>) {
    exists i :: 0 <= i < |queue| && queue[i].SetSetupKey?
  }

  /** Keys are issued upward: from the render's through the queue, all below the next to be issued. */
  predicate KeysIncrease(d: Data, queue: seq<Action>, issued: nat) {
    && (d.setupKey.Some? ==> d.setupKey.value < issued)
    && (forall i :: 0 <= i < |queue| && queue[i].SetSetupKey? ==>
          queue[i].key < issued && (d.setupKey.Some? ==> d.setupKey.value < queue[i].key))
    && (forall i, j :: 0 <= i < j < |queue| && queue[i].SetSetupKey? && queue[j].SetSetupKey? ==>
          queue[i].key < queue[j].key)
  }

  /** A reduced state's key is one queued, or the first state's where none is queued; a reset may have cleared it. */
  lemma {:induction false} KeyComesFrom(d: Data, queue: seq<Action>)
    ensures var key := ReduceAll(d, queue).setupKey;
      && (key.Some? && KeyQueued(queue) ==> SetSetupKey(key.value) in queue)
      && (key.Some? && !KeyQueued(queue) ==> key == d.setupKey)
  {
    if queue != [] {
      var n := |queue| - 1;
      var front, last := queue[..n], queue[n];
      KeyComesFrom(d, front);
      LastQueued(queue, front, last);
      ReduceKey(ReduceAll(d, front), last);
      assert ReduceAll(d, queue) == Reduce(ReduceAll(d, front), last);
      hide *;
    }
  }

  lemma LastQueued(queue: seq<Action>, front: seq<Action>, last: Action)
    requires queue == front + [last]
    ensures KeyQueued(queue) <==> KeyQueued(front) || last.SetSetupKey?
    ensures forall a :: a in queue <==> a in front || a == last
  {
    assert forall i :: 0 <= i < |front| ==> queue[i] == front[i];
    assert queue[|front|] == last;
  }

  lemma ReduceKey(d: Data, a: Action)
    ensures Reduce(d, a).setupKey
      == if a.SetSetupKey? then Some(a.key) else if a.ResetFlow? then None else d.setupKey
  {
  }

  lemma RenderKeepsKeysIncreasing(d: Data, queue: seq<Action>, issued: nat, n: nat)
    requires KeysIncrease(d, queue, issued) && n <= |queue|
    ensures KeysIncrease(ReduceAll(d, queue[..n]), queue[n..], issued)
  {
    KeyComesFrom(d, queue[..n]);
    hide ReduceAll;
    assert forall i :: 0 <= i < n ==> queue[..n][i] == queue[i];
    assert forall i :: 0 <= i < |queue| - n ==> queue[n..][i] == queue[n + i];
  }

  lemma DispatchKeepsKeysIncreasing(d: Data, queue: seq<Action>, issued: nat, a: Action, issued': nat)
    requires KeysIncrease(d, queue, issued) && issued <= issued'
    requires a.SetSetupKey? ==> a.key == issued < issued'
    ensures KeysIncrease(d, queue + [a], issued')
  {
  }

  predicate KeysIssuedUpward(f: Flow) {
    f.renders != [] && KeysIncrease(f.renders[|f.renders| - 1].data, f.queue, f.issuedKeys)
  }

  lemma StepKeepsKeysUpward(f: Flow, e: Event)
    requires KeysIssuedUpward(f)
    ensures KeysIssuedUpward(Step(f, e))
  {
    hide KeysIncrease, ReduceAll, Resets;
    var d, id := f.renders[|f.renders| - 1].data, f.issuedKeys;
    match e
    case EnsureRequestKey(_) => DispatchKeepsKeysIncreasing(d, f.queue, id, SetRequestKey(id), id + 1);
    case EnsureSetupKey(_) => DispatchKeepsKeysIncreasing(d, f.queue, id, SetSetupKey(id), id + 1);
    case RotateSetupKey => DispatchKeepsKeysIncreasing(d, f.queue, id, SetSetupKey(id), id + 1);
    case Submit => DispatchKeepsKeysIncreasing(d, f.queue, id, Sending, id);
    case Reply(_, reply) => DispatchKeepsKeysIncreasing(d, f.queue, id, Received(reply), id);
    case Finally(_) =>
    case Reset => DispatchKeepsKeysIncreasing(d, f.queue, id, ResetFlow, id);
    case Dispatch(action) =>
      if IsPlain(action) {
        DispatchKeepsKeysIncreasing(d, f.queue, id, action, id);
      }
    case Rerender(n) =>
      if n <= |f.queue| {
        RenderKeepsKeysIncreasing(d, f.queue, id, n);
      }
  }

  lemma {:induction false} RunKeepsKeysUpward(events: seq<Event>)
    ensures KeysIssuedUpward(Run(INITIAL, events))
  {
    hide Step;
    if events != [] {
      RunKeepsKeysUpward(events[..|events| - 1]);
      StepKeepsKeysUpward(Run(INITIAL, events[..|events| - 1]), events[|events| - 1]);
    }
  }

  /**
   * In every run with a key in the ref, a caller holding the current render is given that key exactly when
   * its render has no key or no newer key waits in the queue. One that asks only when its render has no key,
   * as the payment page does, is given the ref's key from any render.
   */
  lemma SetupKeyIsCurrent(events: seq<Event>)
    requires Run(INITIAL, events).setupKey.Some?
    ensures var f := Run(INITIAL, events);
      var r := |f.renders| - 1;
      && r >= 0
      && (EnsureSetup(f, r).0 == f.setupKey.value <==> f.renders[r].data.setupKey.None? || !KeyQueued(f.queue))
      && (forall q :: 0 <= q < |f.renders| && f.renders[q].data.setupKey.None? ==>
            EnsureSetup(f, q) == (f.setupKey.value, f))
  {
    hide Run, Step, ReduceAll;
    var f := Run(INITIAL, events);
    SetupKeyCatchesUp(events);
    RunKeepsKeysUpward(events);
    KeyComesFrom(f.renders[|f.renders| - 1].data, f.queue);
  }

  lemma FirstRenderHasNoKey()
    ensures SetupKeyDue(INITIAL)
  {
  }

  /** Before that it lags: after a rotation, callers holding the current render are still given the key rotated away. */
  lemma RotatedKeyIsStillReturned()
    ensures var f := Run(INITIAL, [EnsureSetupKey(0), Rerender(1), RotateSetupKey]);
      f.setupKey == Some(1) && |f.renders| == 2 && EnsureSetup(f, 1) == (0, f)
  {
    var es := [EnsureSetupKey(0), Rerender(1), RotateSetupKey];
    assert es[..2][..1] == es[..1] && es[..1][..0] == [];
    var f1 := Step(INITIAL, es[0]);
    var f2 := Step(f1, es[1]);
    assert Run(INITIAL, es[..1]) == f1;
    assert Run(INITIAL, es[..2]) == f2;
    EventuallyAfterDispatch(INITIAL, SetSetupKey(0));
    assert f1.queue[..1] == f1.queue;
    assert f2.renders[1].data == Eventually(f1);
  }

  // ---- the status shown ----

  function ReplyStatus(s: Submission): Status {
    match s
    case Open => InProgress
    case Replied(Success(_)) => Acknowledged
    case Finished(Success(_)) => Acknowledged
    case _ => Refused
  }

  /** The status of the latest submission since the last reset. */
  function DueStatus(f: Flow): Status {
    match f.latest
    case None => NotSubmitted
    case Some(p) => if p < |f.sent| then ReplyStatus(f.sent[p]) else NotSubmitted
  }

  predicate IsEffectiveReply(f: Flow, e: Event) {
    e.Reply? && e.promise < |f.sent| && f.sent[e.promise].Open?
  }

  /** A reply that comes for a submission a reset abandoned. */
  predicate IsLateReply(f: Flow, e: Event) {
    IsEffectiveReply(f, e) && e.promise in f.abandoned
  }

  /** The late reply still standing after one more event: a reset, a new submission or another reply overrides it. */
  function StandingAfter(f: Flow, standing: Option<Status>, e: Event): Option<Status> {
    if IsLateReply(f, e) then Some(ReplyStatus(Replied(e.reply)))
    else if e.Reset? || (e.Submit? && f.submission.None?) || IsEffectiveReply(f, e) then None
    else standing
  }

  function Standing(events: seq<Event>): Option<Status> {
    if events == [] then None
    else
      var n := |events| - 1;
      StandingAfter(Run(INITIAL, events[..n]), Standing(events[..n]), events[n])
  }

  /** Rendering everything dispatched shows the standing late reply, or else the status of the latest submission. */
  predicate StatusInvariant(f: Flow, standing: Option<Status>) {
    && f.renders != []
    && SubmissionInvariant(f)
    && (f.latest.Some? ==> f.latest.value < |f.sent| && f.latest.value !in f.abandoned)
    && (f.submission.Some? ==> f.latest == f.submission)
    && Eventually(f).status == if standing.Some? then standing.value else DueStatus(f)
  }

  /** Dispatching an action that is not about submissions. */
  lemma DispatchKeepsStatus(f: Flow, g: Flow, a: Action, standing: Option<Status>)
    requires StatusInvariant(f, standing) && !a.Sending? && !a.Received? && !a.ResetFlow?
    requires g == Queue(f.(issuedKeys := g.issuedKeys, requestKey := g.requestKey, setupKey := g.setupKey), a)
    ensures StatusInvariant(g, standing)
  {
    hide ReduceAll;
    EventuallyAfterDispatch(f, a);
  }

  lemma SubmissionStepKeepsStatus(f: Flow, e: Event, standing: Option<Status>)
    requires StatusInvariant(f, standing) && (e.Submit? || e.Finally? || e.Reset?)
    ensures StatusInvariant(Step(f, e), StandingAfter(f, standing, e))
  {
    hide ReduceAll, Resets, SubmissionInvariant;
    StepKeepsSubmissions(f, e);
    SubmissionFacts(f);
    match e
    case Submit => EventuallyAfterDispatch(f, Sending);
    case Reset => EventuallyAfterDispatch(f, ResetFlow);
    case _ =>
  }

  lemma SubmissionFacts(f: Flow)
    requires SubmissionInvariant(f)
    ensures f.submission.Some? ==> IsInFlight(f, f.submission.value) && f.submission.value !in f.abandoned
    ensures forall p :: p in f.abandoned ==> p < |f.sent|
    ensures forall p :: 0 <= p < |f.sent| && f.sent[p].Open? && p !in f.abandoned ==> f.submission == Some(p)
  {
  }

  lemma ReplyKeepsStatus(f: Flow, e: Event, standing: Option<Status>)
    requires StatusInvariant(f, standing) && e.Reply?
    ensures StatusInvariant(Step(f, e), StandingAfter(f, standing, e))
  {
    hide ReduceAll, Resets, SubmissionInvariant;
    StepKeepsSubmissions(f, e);
    SubmissionFacts(f);
    if IsEffectiveReply(f, e) {
      EventuallyAfterDispatch(f.(sent := f.sent[e.promise := Replied(e.reply)]), Received(e.reply));
    }
  }

  lemma StepKeepsStatus(f: Flow, e: Event, standing: Option<Status>)
    requires StatusInvariant(f, standing)
    ensures StatusInvariant(Step(f, e), StandingAfter(f, standing, e))
  {
    hide ReduceAll, Resets, StatusInvariant;
    match e
    case EnsureRequestKey(_) =>
      if Step(f, e) != f {
        DispatchKeepsStatus(f, Step(f, e), SetRequestKey(f.issuedKeys), standing);
      }
    case EnsureSetupKey(_) =>
      if Step(f, e) != f {
        DispatchKeepsStatus(f, Step(f, e), SetSetupKey(f.issuedKeys), standing);
      }
    case RotateSetupKey => DispatchKeepsStatus(f, Step(f, e), SetSetupKey(f.issuedKeys), standing);
    case Dispatch(action) =>
      if IsPlain(action) {
        DispatchKeepsStatus(f, Step(f, e), action, standing);
      }
    case Rerender(n) => RenderKeepsStatus(f, n, standing);
    case Reply(_, _) => ReplyKeepsStatus(f, e, standing);
    case _ => SubmissionStepKeepsStatus(f, e, standing);
  }

  lemma RenderKeepsStatus(f: Flow, n: nat, standing: Option<Status>)
    requires StatusInvariant(f, standing)
    ensures StatusInvariant(Step(f, Rerender(n)), standing)
  {
    hide ReduceAll, Resets;
    if n <= |f.queue| {
      EventuallyAfterRender(f, n);
    }
  }

  lemma {:induction false} RunKeepsStatus(events: seq<Event>)
    ensures StatusInvariant(Run(INITIAL, events), Standing(events))
  {
    hide Step, StandingAfter;
    if events != [] {
      RunKeepsStatus(events[..|events| - 1]);
      StepKeepsStatus(Run(INITIAL, events[..|events| - 1]), events[|events| - 1], Standing(events[..|events| - 1]));
    }
  }

  /**
   * Rendering everything dispatched shows the status of the latest submission since the reset exactly when no
   * late reply stands, or the one that stands happens to say the same.
   */
  lemma StatusFollowsLatestSubmission(events: seq<Event>)
    ensures var f := Run(INITIAL, events);
      && f.renders != []
      && (Eventually(f).status == DueStatus(f)
          <==> Standing(events).None? || Standing(events).value == DueStatus(f))
  {
    RunKeepsStatus(events);
  }

  /** A reset flow shows an acknowledgement again: a late reply stands after it. */
  lemma LateReplyRevivesResetFlow()
    ensures var events := [Submit, Reset, Reply(0, Success("ack"))];
      && Standing(events) == Some(Acknowledged)
      && DueStatus(Run(INITIAL, events)) == NotSubmitted
      && Run(INITIAL, events).renders != [] && Eventually(Run(INITIAL, events)).status == Acknowledged
  {
    var es := [Submit, Reset, Reply(0, Success("ack"))];
    assert es[..2][..1] == es[..1] && es[..1][..0] == [];
    var f1 := Step(INITIAL, Submit);
    var f2 := Step(f1, Reset);
    assert Run(INITIAL, es[..1]) == f1;
    assert Run(INITIAL, es[..2]) == f2;
    assert Run(INITIAL, es) == Step(f2, es[2]);
    RunKeepsStatus(es);
  }

  // ---- what the flow remembers ----

  /** The actions about the guest's choices. */
  predicate IsChoice(a: Action) {
    a.SetCriteria? || a.SetBranding? || a.Selection? || a.SetServiceIds? || a.SetField?
  }

  lemma DispatchedChoice(f: Flow, e: Event)
    ensures e.Reset? <==> Dispatched(f, e) == Some(ResetFlow)
    ensures e.Dispatch? && IsChoice(e.action) ==> Dispatched(f, e) == Some(e.action)
    ensures Dispatched(f, e).Some? && IsChoice(Dispatched(f, e).value) ==> e == Dispatch(Dispatched(f, e).value)
    ensures forall a: Action ::
      (IsChoice(a) <==> a.SetCriteria? || a.SetBranding? || a.Selection? || a.SetServiceIds? || a.SetField?)
  {
  }

  lemma ReduceChoice(d: Data, a: Action)
    ensures var d' := Reduce(d, a);
      && d'.criteria == (if a.SetCriteria? then Some(a.criteria) else d.criteria)
      && d'.branding == (if a.SetBranding? then a.branding else d.branding)
      && d'.selection
           == (if a.Selection? then Some((a.roomType, a.rate)) else if a.ResetFlow? then None else d.selection)
      && d'.serviceIds
           == (if a.SetServiceIds? then a.serviceIds else if a.ResetFlow? || a.Selection? then [] else d.serviceIds)
      && d'.form == (if a.SetField? then d.form[a.field := a.value] else if a.ResetFlow? then map[] else d.form)
  {
  }

  /** How each event changes what is eventually shown of the guest's choices. */
  lemma ChoicesAfter(f: Flow, e: Event)
    requires f.renders != []
    ensures Step(f, e).renders != []
    ensures var d, d' := Eventually(f), Eventually(Step(f, e));
      && d'.criteria == (if e.Dispatch? && e.action.SetCriteria? then Some(e.action.criteria) else d.criteria)
      && d'.branding == (if e.Dispatch? && e.action.SetBranding? then e.action.branding else d.branding)
      && d'.selection == (if e.Dispatch? && e.action.Selection? then Some((e.action.roomType, e.action.rate))
                          else if e.Reset? then None else d.selection)
      && d'.serviceIds == (if e.Dispatch? && e.action.SetServiceIds? then e.action.serviceIds
                           else if e.Reset? || (e.Dispatch? && e.action.Selection?) then [] else d.serviceIds)
      && d'.form == (if e.Dispatch? && e.action.SetField? then d.form[e.action.field := e.action.value]
                     else if e.Reset? then map[] else d.form)
  {
    hide *;
    EventuallyAfter(f, e);
    DispatchedChoice(f, e);
    if Dispatched(f, e).Some? {
      ReduceChoice(Eventually(f), Dispatched(f, e).value);
    }
  }

  predicate SetsCriteria(e: Event) {
    e.Dispatch? && e.action.SetCriteria?
  }

  /** The search criteria last set outlive every reset. */
  lemma {:induction false} CriteriaOutliveResets(events: seq<Event>, criteria: string, later: seq<Event>)
    requires forall i :: 0 <= i < |later| ==> !SetsCriteria(later[i])
    ensures var f := Run(INITIAL, events + [Dispatch(SetCriteria(criteria))] + later);
      f.renders != [] && Eventually(f).criteria == Some(criteria)
  {
    hide Step, Eventually, INITIAL;
    var all := events + [Dispatch(SetCriteria(criteria))] + later;
    if later == [] {
      assert all[..|events|] == events && all == events + [Dispatch(SetCriteria(criteria))];
      RunKeepsKeyInvariant(events);
      ChoicesAfter(Run(INITIAL, events), Dispatch(SetCriteria(criteria)));
    } else {
      var n := |later| - 1;
      CriteriaOutliveResets(events, criteria, later[..n]);
      assert all[..|all| - 1] == events + [Dispatch(SetCriteria(criteria))] + later[..n] && all[|all| - 1] == later[n];
      ChoicesAfter(Run(INITIAL, all[..|all| - 1]), later[n]);
    }
  }

  /** Once a submission is answered and its `finally` has run, the next submit goes out as a new one. */
  lemma RetryAfterReply(events: seq<Event>, p: nat, reply: Result<string, string>)
    requires var f := Run(INITIAL, events); f.submission == Some(p) && p < |f.sent| && f.sent[p].Open?
    ensures var f := Run(INITIAL, events);
      var g := Step(Step(f, Reply(p, reply)), Event.Finally(p));
      && g.sent == f.sent[p := Finished(reply)] && g.submission.None?
      && Send(g).0 == |f.sent| && Send(g).1.sent == g.sent + [Open] && Send(g).1.submission == Some(|f.sent|)
  {
  }

  // ---- resets as the pages make them ----

  /** Some reply was handled and its `finally`, a microtask, has not run yet: no click can come now. */
  predicate BetweenMicrotasks(f: Flow) {
    exists p :: 0 <= p < |f.sent| && f.sent[p].Replied?
  }

  /**
   * What the pages add: a reset is offered only where the render shows an acknowledgement or no pending status;
   * a click finds the microtasks run and everything dispatched rendered; no page sets an acknowledgement itself.
   */
  predicate Offered(f: Flow, e: Event) {
    && (e.Reset? ==>
          f.renders != [] && f.queue == [] && !BetweenMicrotasks(f)
          && var shown := f.renders[|f.renders| - 1].data;
             shown.acknowledgement.Some? || shown.status != InProgress)
    && (e.Dispatch? && e.action.SetAcknowledgement? ==> e.action.acknowledgement.None?)
  }

  predicate AllOffered(events: seq<Event>) {
    events != [] ==>
      var n := |events| - 1;
      AllOffered(events[..n]) && Offered(Run(INITIAL, events[..n]), events[n])
  }

  /** An acknowledgement and a pending status are never shown together, and no submission was ever abandoned. */
  predicate OfferedInvariant(f: Flow) {
    && f.renders != []
    && (Eventually(f).acknowledgement.Some? ==> Eventually(f).status != InProgress)
    && f.abandoned == {}
  }

  lemma NothingPendingAcknowledged(f: Flow)
    requires OfferedInvariant(f)
    ensures f.renders != [] && (Eventually(f).acknowledgement.Some? ==> Eventually(f).status != InProgress)
  {
    hide Eventually;
  }

  lemma DispatchedByPage(f: Flow, e: Event)
    requires Offered(f, e) && Dispatched(f, e).Some?
    ensures Dispatched(f, e).value.SetAcknowledgement? ==> Dispatched(f, e).value.acknowledgement.None?
  {
    hide BetweenMicrotasks;
  }

  lemma ReduceKeepsShown(d: Data, a: Action)
    requires d.acknowledgement.Some? ==> d.status != InProgress
    requires a.SetAcknowledgement? ==> a.acknowledgement.None?
    ensures Reduce(d, a).acknowledgement.Some? ==> Reduce(d, a).status != InProgress
  {
  }

  lemma ShownAfterStep(f: Flow, e: Event)
    requires OfferedInvariant(f) && Offered(f, e)
    ensures Step(f, e).renders != []
    ensures Eventually(Step(f, e)).acknowledgement.Some? ==> Eventually(Step(f, e)).status != InProgress
  {
    hide *;
    NothingPendingAcknowledged(f);
    EventuallyAfter(f, e);
    if Dispatched(f, e).Some? {
      DispatchedByPage(f, e);
      ReduceKeepsShown(Eventually(f), Dispatched(f, e).value);
    }
  }

  lemma StepKeepsOffered(f: Flow, e: Event)
    requires OfferedInvariant(f) && StatusInvariant(f, None) && Offered(f, e)
    ensures OfferedInvariant(Step(f, e)) && StandingAfter(f, None, e).None?
  {
    ShownAfterStep(f, e);
    AbandonedAfter(f, e);
    hide Eventually, Reduce, ReduceAll, Resets, SubmissionInvariant, EnsureRequest, EnsureSetup, Rotate, IsPlain;
    SubmissionFacts(f);
    if e.Reset? {
      NothingQueued(f);
    }
  }

  lemma AbandonedAfter(f: Flow, e: Event)
    ensures Step(f, e).abandoned
      == if e.Reset? && f.submission.Some? then f.abandoned + {f.submission.value} else f.abandoned
  {
    hide ReduceAll, Resets;
  }

  lemma NothingQueued(f: Flow)
    requires f.renders != [] && f.queue == []
    ensures Eventually(f) == f.renders[|f.renders| - 1].data
  {
  }

  lemma {:induction false} RunKeepsOffered(events: seq<Event>)
    requires AllOffered(events)
    ensures OfferedInvariant(Run(INITIAL, events)) && Standing(events).None?
  {
    hide Step, StandingAfter, StatusInvariant, Offered;
    if events != [] {
      var n := |events| - 1;
      RunKeepsOffered(events[..n]);
      RunKeepsStatus(events[..n]);
      StepKeepsOffered(Run(INITIAL, events[..n]), events[n]);
    }
  }

  /**
   * When every reset is one the pages offer, none abandons a submission, at most one is in flight, callers
   * meanwhile get that one, and the status shown is always that of the latest submission.
   */
  lemma OfferedResetsAreSafe(events: seq<Event>)
    requires AllOffered(events)
    ensures var f := Run(INITIAL, events);
      && NeverAbandons(events) && AtMostOneInFlight(f)
      && (forall p :: 0 <= p < |f.sent| && IsInFlight(f, p) ==> Send(f) == (p, f))
      && f.renders != [] && Eventually(f).status == DueStatus(f)
  {
    RunKeepsOffered(events);
    RunKeepsStatus(events);
    var f := Run(INITIAL, events);
    forall p | 0 <= p < |f.sent| && IsInFlight(f, p)
      ensures Send(f) == (p, f)
    {
      SingleFlight(events, p, p);
    }
  }

  /** The acknowledgement and the error of the latest submission. */
  function DueAcknowledgement(f: Flow): Option<string> {
    match f.latest
    case None => None
    case Some(p) =>
      if p >= |f.sent| then None
      else
        match f.sent[p]
        case Replied(Success(ack)) => Some(ack)
        case Finished(Success(ack)) => Some(ack)
        case _ => None
  }

  function DueFailure(f: Flow): Option<string> {
    match f.latest
    case None => None
    case Some(p) =>
      if p >= |f.sent| then None
      else
        match f.sent[p]
        case Replied(Failure(error)) => Some(error)
        case Finished(Failure(error)) => Some(error)
        case _ => None
  }

  /** No page took the acknowledgement back. */
  predicate KeepsAcknowledgement(events: seq<Event>) {
    forall i :: 0 <= i < |events| ==> !(events[i].Dispatch? && events[i].action.SetAcknowledgement?)
  }

  predicate OutcomeInvariant(f: Flow, kept: bool) {
    && f.renders != []
    && Eventually(f).failure == DueFailure(f)
    && (Eventually(f).acknowledgement == DueAcknowledgement(f) || (!kept && Eventually(f).acknowledgement.None?))
  }

  lemma DispatchedOutcome(f: Flow, e: Event)
    ensures e.Reset? <==> Dispatched(f, e) == Some(ResetFlow)
    ensures e.Submit? && f.submission.None? <==> Dispatched(f, e) == Some(Sending)
    ensures IsEffectiveReply(f, e) ==> Dispatched(f, e) == Some(Received(e.reply))
    ensures Dispatched(f, e).Some? && Dispatched(f, e).value.Received? ==> IsEffectiveReply(f, e)
    ensures e.Dispatch? && e.action.SetAcknowledgement? ==> Dispatched(f, e) == Some(e.action)
    ensures Dispatched(f, e).Some? && Dispatched(f, e).value.SetAcknowledgement? ==>
      e == Dispatch(Dispatched(f, e).value)
  {
  }

  lemma ReduceOutcome(d: Data, a: Action)
    ensures var d' := Reduce(d, a);
      && d'.failure == (if a.Sending? || a.ResetFlow? then None
                        else if a.Received? && a.reply.Failure? then Some(a.reply.error) else d.failure)
      && d'.acknowledgement == (if a.Sending? || a.ResetFlow? then None
                                else if a.Received? && a.reply.Success? then Some(a.reply.value)
                                else if a.SetAcknowledgement? then a.acknowledgement else d.acknowledgement)
  {
  }

  /** How each event changes the outcome that is eventually shown. */
  lemma OutcomeShownAfter(f: Flow, e: Event)
    requires f.renders != []
    ensures Step(f, e).renders != []
    ensures var d, d' := Eventually(f), Eventually(Step(f, e));
      && d'.failure == (if (e.Submit? && f.submission.None?) || e.Reset? then None
                        else if IsEffectiveReply(f, e) && e.reply.Failure? then Some(e.reply.error) else d.failure)
      && d'.acknowledgement
           == (if (e.Submit? && f.submission.None?) || e.Reset? then None
               else if IsEffectiveReply(f, e) && e.reply.Success? then Some(e.reply.value)
               else if e.Dispatch? && e.action.SetAcknowledgement? then e.action.acknowledgement else d.acknowledgement)
  {
    hide *;
    EventuallyAfter(f, e);
    DispatchedOutcome(f, e);
    if Dispatched(f, e).Some? {
      ReduceOutcome(Eventually(f), Dispatched(f, e).value);
    }
  }

  /** Only submits, replies, `finally` and resets touch the latest submission. */
  lemma LatestAfter(f: Flow, e: Event)
    ensures !(e.Submit? && f.submission.None?) && !IsEffectiveReply(f, e) && !e.Reset? && !e.Finally? ==>
      Step(f, e).latest == f.latest && Step(f, e).sent == f.sent
    ensures e.Finally? ==>
      Step(f, e).latest == f.latest && DueFailure(Step(f, e)) == DueFailure(f)
      && DueAcknowledgement(Step(f, e)) == DueAcknowledgement(f)
  {
    hide ReduceAll, Resets;
  }

  lemma OutcomeAfter(f: Flow, e: Event, kept: bool)
    requires OutcomeInvariant(f, kept) && StatusInvariant(f, None) && f.abandoned == {} && Offered(f, e)
    ensures OutcomeInvariant(Step(f, e), kept && !(e.Dispatch? && e.action.SetAcknowledgement?))
  {
    OutcomeShownAfter(f, e);
    SubmissionFacts(f);
    LatestAfter(f, e);
    hide Eventually, Reduce, ReduceAll, Resets, SubmissionInvariant, EnsureRequest, EnsureSetup, Rotate, IsPlain;
    if !e.Submit? && !e.Reply? && !e.Reset? {
      hide Step;
    }
  }

  lemma {:induction false} RunKeepsOutcome(events: seq<Event>)
    requires AllOffered(events)
    ensures OutcomeInvariant(Run(INITIAL, events), KeepsAcknowledgement(events))
  {
    hide Step, StatusInvariant, Offered, OutcomeInvariant;
    if events == [] {
      NoOutcomeYet();
    } else {
      var n := |events| - 1;
      RunKeepsOutcome(events[..n]);
      RunKeepsOffered(events[..n]);
      RunKeepsStatus(events[..n]);
      OutcomeAfter(Run(INITIAL, events[..n]), events[n], KeepsAcknowledgement(events[..n]));
      assert KeepsAcknowledgement(events)
        <==> KeepsAcknowledgement(events[..n]) && !(events[n].Dispatch? && events[n].action.SetAcknowledgement?);
    }
  }

  lemma NoOutcomeYet()
    ensures OutcomeInvariant(INITIAL, true)
  {
  }

  /**
   * When every reset is one the pages offer, the error shown is the latest submission's, and so is the
   * acknowledgement, unless a page took it back.
   */
  lemma OutcomeIsTheLatest(events: seq<Event>)
    requires AllOffered(events)
    ensures var f := Run(INITIAL, events);
      && f.renders != [] && Eventually(f).failure == DueFailure(f)
      && (Eventually(f).acknowledgement.Some? ==> Eventually(f).acknowledgement == DueAcknowledgement(f))
      && (KeepsAcknowledgement(events) ==> Eventually(f).acknowledgement == DueAcknowledgement(f))
  {
    RunKeepsOutcome(events);
  }
}
