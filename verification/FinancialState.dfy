/**
 * The payment and refund webhook policy, composed with the one decision a booking request gets and with
 * the refund ledger. Deliveries may come in any order and more than once.
 */
module FinancialState {
  import opened Wrappers

  // ---- stripe-financial-state.ts: PaymentIntents ----

  datatype PaymentIntentEvent = Processing | Succeeded | PaymentFailed | Canceled | RequiresAction

  datatype PaymentStatus = Pending | Authorized | Captured | Failed | Voided | Settled | PartiallyRefunded

  datatype RequestStatus = Undecided | Accepted | Denied

  datatype Action = Transition | Repair | Unexpected | RecordPending

  datatype PaymentDecision = PaymentDecision(action: Action, status: PaymentStatus)

  datatype Conflict = CapturedAfterDenial | AlreadyDecided

  function TargetStatus(event: PaymentIntentEvent): PaymentStatus
    requires event != Processing
  {
    match event
    case Succeeded => Captured
    case PaymentFailed => Failed
    case Canceled => Voided
    case RequiresAction => Failed
  }

  function DecidePaymentIntentTransition(current: PaymentStatus, event: PaymentIntentEvent,
                                         request: Option<RequestStatus>)
    : Result<PaymentDecision, Conflict>
  {
    if event == Processing then
      Success(PaymentDecision(if current == Pending then Repair else Unexpected, current))
    else
      var target := TargetStatus(event);
      if event == Succeeded && request == Some(Denied) && current != Captured then Failure(CapturedAfterDenial)
      else if current == target then Success(PaymentDecision(Repair, current))
      else if current == Pending || (current == Authorized && event == Succeeded) then
        Success(PaymentDecision(Transition, target))
      else Success(PaymentDecision(Unexpected, current))
  }

  /** A delivery: the event and the status of the booking request it meets, if the payment has one. */
  datatype Delivery = Delivery(event: PaymentIntentEvent, request: Option<RequestStatus>)

  /** The payment's status after a delivery; a refused one changes nothing. */
  function Deliver(current: PaymentStatus, d: Delivery): PaymentStatus {
    match DecidePaymentIntentTransition(current, d.event, d.request)
    case Success(decision) => decision.status
    case Failure(_) => current
  }

  function DeliverAll(current: PaymentStatus, deliveries: seq<Delivery>): PaymentStatus
    decreases |deliveries|
  {
    if deliveries == [] then current else DeliverAll(Deliver(current, deliveries[0]), deliveries[1..])
  }

  predicate IsTransition(current: PaymentStatus, d: Delivery) {
    var r := DecidePaymentIntentTransition(current, d.event, d.request);
    r.Success? && r.value.action == Transition
  }

  function Transitions(current: PaymentStatus, deliveries: seq<Delivery>): nat
    decreases |deliveries|
  {
    if deliveries == [] then 0
    else
      (if IsTransition(current, deliveries[0]) then 1 else 0)
      + Transitions(Deliver(current, deliveries[0]), deliveries[1..])
  }

  /** An event that would settle a pending payment: anything but `processing`, unless refused after a denial. */
  predicate Decisive(d: Delivery) {
    d.event != Processing && !(d.event == Succeeded && d.request == Some(Denied))
  }

  /** What a run makes of a payment, read off the deliveries alone. */
  function Verdict(start: PaymentStatus, deliveries: seq<Delivery>): PaymentStatus {
    if start == Pending then
      if exists i :: 0 <= i < |deliveries| && Decisive(deliveries[i])
      then TargetStatus(deliveries[FirstDecisive(deliveries)].event)
      else Pending
    else if start == Authorized && AcceptsSuccess(deliveries) then Captured
    else start
  }

  predicate AcceptsSuccess(deliveries: seq<Delivery>) {
    exists i :: 0 <= i < |deliveries| && deliveries[i].event == Succeeded && Decisive(deliveries[i])
  }

  function FirstDecisive(deliveries: seq<Delivery>): (k: nat)
    requires exists i :: 0 <= i < |deliveries| && Decisive(deliveries[i])
    ensures k < |deliveries| && Decisive(deliveries[k])
    ensures forall i :: 0 <= i < k ==> !Decisive(deliveries[i])
  {
    if Decisive(deliveries[0]) then 0
    else
      var i :| 0 <= i < |deliveries| && Decisive(deliveries[i]);
      assert deliveries[1..][i - 1] == deliveries[i];
      1 + FirstDecisive(deliveries[1..])
  }

  /** A status that no PaymentIntent event changes. */
  predicate Terminal(status: PaymentStatus) {
    status != Pending && status != Authorized
  }

  lemma {:induction false} TerminalStays(start: PaymentStatus, deliveries: seq<Delivery>)
    requires Terminal(start)
    ensures DeliverAll(start, deliveries) == start && Transitions(start, deliveries) == 0
  {
    if deliveries != [] {
      TerminalStays(start, deliveries[1..]);
    }
  }

  /** In any run at most one delivery is a transition, and the deliveries alone determine the final status. */
  lemma {:induction false} RunFollowsVerdict(start: PaymentStatus, deliveries: seq<Delivery>)
    ensures DeliverAll(start, deliveries) == Verdict(start, deliveries)
    ensures Transitions(start, deliveries) == if DeliverAll(start, deliveries) != start then 1 else 0
  {
    if deliveries != [] {
      var rest := deliveries[1..];
      var next := Deliver(start, deliveries[0]);
      if next != start {
        TerminalStays(next, rest);
        assert Decisive(deliveries[0]);
      } else {
        RunFollowsVerdict(start, rest);
        assert forall i :: 0 < i < |deliveries| ==> deliveries[i] == rest[i - 1];
        assert forall i :: 0 <= i < |rest| ==> rest[i] == deliveries[i + 1];
        if start == Pending && exists i :: 0 <= i < |rest| && Decisive(rest[i]) {
          var k := FirstDecisive(rest);
          assert Decisive(deliveries[k + 1]);
          assert FirstDecisive(deliveries) == k + 1;
        }
      }
    }
  }

  /** The decision for each status, event and request, written out. */
  lemma PaymentDecisions(current: PaymentStatus, event: PaymentIntentEvent, request: Option<RequestStatus>)
    ensures var r := DecidePaymentIntentTransition(current, event, request);
      && (r.Failure? <==> event == Succeeded && request == Some(Denied) && current != Captured)
      && (r.Failure? ==> r.error == CapturedAfterDenial)
      && (r.Success? && r.value.action == Repair
          <==> (current, event) in {(Pending, Processing), (Captured, Succeeded), (Failed, PaymentFailed),
                                    (Failed, RequiresAction), (Voided, Canceled)})
      && (r.Success? && r.value.action == Transition
          <==> (current == Pending && event in {PaymentFailed, RequiresAction, Canceled})
               || (current in {Pending, Authorized} && event == Succeeded && request != Some(Denied)))
      && (r.Success? ==> r.value.action in {Repair, Transition, Unexpected})
      && (r.Success? && r.value.action != Transition ==> r.value.status == current)
      && (r.Success? && r.value.action == Transition ==>
            r.value.status == if event == Succeeded then Captured else if event == Canceled then Voided else Failed)
  {
  }

  /** The first delivery that would settle a pending payment. */
  predicate IsFirstDecisive(deliveries: seq<Delivery>, i: nat)
    requires i < |deliveries|
  {
    Decisive(deliveries[i]) && forall j :: 0 <= j < i ==> !Decisive(deliveries[j])
  }

  /** A pending payment ends by its first decisive event: captured, voided, or failed; without one it stays pending. */
  lemma PendingEndsByFirstDecisive(deliveries: seq<Delivery>, i: nat)
    requires i < |deliveries| && IsFirstDecisive(deliveries, i)
    ensures DeliverAll(Pending, deliveries)
      == match deliveries[i].event
         case Succeeded => Captured
         case Canceled => Voided
         case _ => Failed
  {
    RunFollowsVerdict(Pending, deliveries);
    var k := FirstDecisive(deliveries);
    assert k == i;
  }

  /** Redelivering a whole run changes nothing. */
  lemma ReplayChangesNothing(start: PaymentStatus, deliveries: seq<Delivery>)
    ensures DeliverAll(DeliverAll(start, deliveries), deliveries) == DeliverAll(start, deliveries)
  {
    RunFollowsVerdict(start, deliveries);
    RunFollowsVerdict(DeliverAll(start, deliveries), deliveries);
  }

  // ---- booking-request-state.ts, composed with the PaymentIntents of the request ----

  function AssertBookingRequestTransition(from: RequestStatus, to: RequestStatus): Result<RequestStatus, Conflict>
    requires to != Undecided
  {
    if from != Undecided then Failure(AlreadyDecided) else Success(to)
  }

  /** A request and its payments. */
  datatype Booking = Booking(request: RequestStatus, payments: seq<PaymentStatus>)

  datatype BookingEvent = Accept | Deny | Webhook(payment: nat, event: PaymentIntentEvent)

  function Decide(b: Booking, to: RequestStatus): Booking
    requires to != Undecided
  {
    match AssertBookingRequestTransition(b.request, to)
    case Success(status) => b.(request := status)
    case Failure(_) => b
  }

  function BookingStep(b: Booking, e: BookingEvent): Booking {
    match e
    case Accept => Decide(b, Accepted)
    case Deny => Decide(b, Denied)
    case Webhook(p, event) =>
      if p >= |b.payments| then b
      else b.(payments := b.payments[p := Deliver(b.payments[p], Delivery(event, Some(b.request)))])
  }

  function BookingRun(b: Booking, events: seq<BookingEvent>): Booking
    decreases |events|
  {
    if events == [] then b else BookingRun(BookingStep(b, events[0]), events[1..])
  }

  function Decisions(b: Booking, events: seq<BookingEvent>): nat
    decreases |events|
  {
    if events == [] then 0
    else
      (if BookingStep(b, events[0]).request != b.request then 1 else 0)
      + Decisions(BookingStep(b, events[0]), events[1..])
  }

  predicate IsDecision(e: BookingEvent) {
    e.Accept? || e.Deny?
  }

  /** The first decision of a run. */
  predicate IsFirstDecision(events: seq<BookingEvent>, i: nat)
    requires i < |events|
  {
    IsDecision(events[i]) && forall j :: 0 <= j < i ==> !IsDecision(events[j])
  }

  /** However decisions and webhooks interleave, an undecided request is decided at most once, by the first decision. */
  lemma {:induction false} DecidedAtMostOnce(b: Booking, events: seq<BookingEvent>)
    ensures Decisions(b, events) == if BookingRun(b, events).request != b.request then 1 else 0
    ensures b.request != Undecided ==> BookingRun(b, events).request == b.request
    ensures b.request == Undecided ==>
      (BookingRun(b, events).request == Undecided <==> forall i :: 0 <= i < |events| ==> !IsDecision(events[i]))
    ensures b.request == Undecided ==>
      forall i :: 0 <= i < |events| && IsFirstDecision(events, i) ==>
        BookingRun(b, events).request == if events[i].Accept? then Accepted else Denied
    decreases |events|
  {
    if events != [] {
      var next, rest := BookingStep(b, events[0]), events[1..];
      DecidedAtMostOnce(next, rest);
      assert forall i :: 0 < i < |events| ==> events[i] == rest[i - 1];
      assert forall i :: 0 <= i < |rest| ==> rest[i] == events[i + 1];
      if b.request == Undecided {
        forall i | 0 <= i < |events| && IsFirstDecision(events, i)
          ensures BookingRun(b, events).request == if events[i].Accept? then Accepted else Denied
        {
          if i > 0 {
            assert !IsDecision(events[0]);
            assert IsFirstDecision(rest, i - 1);
          }
        }
      }
    }
  }

  /** Once a request is denied, no later webhook captures a payment that was not captured by then. */
  lemma {:induction false} NoCaptureAfterDenial(b: Booking, events: seq<BookingEvent>, p: nat)
    requires b.request == Denied && p < |b.payments|
    ensures var after := BookingRun(b, events);
      && after.request == Denied && |after.payments| == |b.payments|
      && (after.payments[p] == Captured <==> b.payments[p] == Captured)
    decreases |events|
  {
    if events != [] {
      NoCaptureAfterDenial(BookingStep(b, events[0]), events[1..], p);
    }
  }

  /** The deliveries a payment meets in a run: its webhooks, each with the request's status at that moment. */
  function Meets(b: Booking, events: seq<BookingEvent>, p: nat): seq<Delivery>
    decreases |events|
  {
    if events == [] then []
    else
      (if events[0].Webhook? && events[0].payment == p then [Delivery(events[0].event, Some(b.request))] else [])
      + Meets(BookingStep(b, events[0]), events[1..], p)
  }

  /** In any interleaving a payment ends as its own webhooks leave it. */
  lemma {:induction false} PaymentFollowsItsWebhooks(b: Booking, events: seq<BookingEvent>, p: nat)
    requires p < |b.payments|
    ensures var after := BookingRun(b, events);
      |after.payments| == |b.payments| && after.payments[p] == DeliverAll(b.payments[p], Meets(b, events, p))
    decreases |events|
  {
    if events != [] {
      PaymentFollowsItsWebhooks(BookingStep(b, events[0]), events[1..], p);
      var rest := Meets(BookingStep(b, events[0]), events[1..], p);
      if events[0].Webhook? && events[0].payment == p {
        var met := [Delivery(events[0].event, Some(b.request))] + rest;
        assert met[0] == Delivery(events[0].event, Some(b.request)) && met[1..] == rest;
      } else {
        assert [] + rest == rest;
      }
    }
  }

  // ---- refunds: decideRefundTransition, the handler that applies it, and the ledger ----

  datatype RefundProviderStatus = RefundSucceeded | RefundPending | RefundRequiresAction | RefundFailed | RefundCanceled

  datatype ClaimStatus = ClaimPending | Completed | ClaimFailed

  datatype RefundDecision = RefundDecision(action: Action, status: ClaimStatus)

  function RefundTarget(provider: RefundProviderStatus): ClaimStatus {
    match provider
    case RefundSucceeded => Completed
    case RefundFailed => ClaimFailed
    case RefundCanceled => ClaimFailed
    case _ => ClaimPending
  }

  function DecideRefundTransition(current: ClaimStatus, provider: RefundProviderStatus): RefundDecision {
    var target := RefundTarget(provider);
    if current == target then RefundDecision(if current == ClaimPending then RecordPending else Repair, current)
    else if current == ClaimPending then RefundDecision(Transition, target)
    else RefundDecision(Unexpected, current)
  }

  /** The decision for each claim status and provider status, written out. */
  lemma RefundDecisions(current: ClaimStatus, provider: RefundProviderStatus)
    ensures var r := DecideRefundTransition(current, provider);
      && (r.action == RecordPending <==> current == ClaimPending && provider in {RefundPending, RefundRequiresAction})
      && (r.action == Repair
          <==> (current, provider) in {(Completed, RefundSucceeded), (ClaimFailed, RefundFailed),
                                       (ClaimFailed, RefundCanceled)})
      && (r.action == Transition
          <==> current == ClaimPending && provider in {RefundSucceeded, RefundFailed, RefundCanceled})
      && r.status == if current == ClaimPending && provider == RefundSucceeded then Completed
                     else if current == ClaimPending && provider in {RefundFailed, RefundCanceled} then ClaimFailed
                     else current
  {
  }

  /** A refund claim and the ledger row posted for it, if any. Amounts are cents. */
  datatype Claim = Claim(amount: nat, status: ClaimStatus, movement: Option<nat>)

  /** A child movement of the captured payment: a negative amount. */
  datatype Child = Child(claim: nat, amount: int)

  datatype Refunds = Refunds(request: RequestStatus, captured: nat, claims: seq<Claim>, children: seq<Child>)

  datatype RefundEvent = Update(claim: nat, provider: RefundProviderStatus) | DecideRequest(to: RequestStatus)

  function Abs(n: int): nat {
    if n < 0 then -n else n
  }

  function SumRefundChildren(rows: seq<Child>): nat {
    if rows == [] then 0 else SumRefundChildren(rows[..|rows| - 1]) + Abs(rows[|rows| - 1].amount)
  }

  function RemainingCapturedAmount(captured: nat, rows: seq<Child>): int {
    captured - SumRefundChildren(rows)
  }

  /** What one update does to its claim, given the request's status: its new state and whether a child row is posted. */
  function ClaimStep(request: RequestStatus, claim: Claim, provider: RefundProviderStatus): (ClaimStatus, bool) {
    var decision := DecideRefundTransition(claim.status, provider);
    if decision.action == RecordPending || decision.action == Unexpected then (claim.status, false)
    else if decision.status == ClaimFailed then (ClaimFailed, false)
    else if request == Denied && decision.action == Transition then (claim.status, false)
    else (Completed, claim.movement.None?)
  }

  function RefundStep(s: Refunds, e: RefundEvent): Refunds {
    match e
    case DecideRequest(to) =>
      if to == Undecided || AssertBookingRequestTransition(s.request, to).Failure? then s else s.(request := to)
    case Update(c, provider) =>
      if c >= |s.claims| then s
      else
        var claim := s.claims[c];
        var (status, posts) := ClaimStep(s.request, claim, provider);
        if posts
        then s.(claims := s.claims[c := claim.(status := status, movement := Some(|s.children|))],
                children := s.children + [Child(c, 0 - claim.amount)])
        else s.(claims := s.claims[c := claim.(status := status)])
  }

  function RefundRun(s: Refunds, events: seq<RefundEvent>): Refunds {
    if events == [] then s else RefundStep(RefundRun(s, events[..|events| - 1]), events[|events| - 1])
  }

  /** The total of the completed claims. */
  function Refunded(claims: seq<Claim>): nat {
    if claims == [] then 0
    else
      var n := |claims| - 1;
      Refunded(claims[..n]) + (if claims[n].status == Completed then claims[n].amount else 0)
  }

  /** Claims as they are made: nothing decided, nothing posted. */
  predicate FreshClaims(s: Refunds) {
    && s.children == []
    && (forall c :: 0 <= c < |s.claims| ==> s.claims[c].status == ClaimPending && s.claims[c].movement.None?)
  }

  /** One child row, of the claim's amount, per completed claim and no other. */
  predicate LinkedOneToOne(claims: seq<Claim>, children: seq<Child>) {
    && (forall c :: 0 <= c < |claims| ==>
          match claims[c].movement
          case Some(m) =>
            claims[c].status == Completed && m < |children| && children[m] == Child(c, 0 - claims[c].amount)
          case None => claims[c].status != Completed)
    && (forall m :: 0 <= m < |children| ==>
          children[m].claim < |claims| && claims[children[m].claim].movement == Some(m))
  }

  predicate LedgerMirrorsClaims(s: Refunds) {
    LinkedOneToOne(s.claims, s.children) && SumRefundChildren(s.children) == Refunded(s.claims)
  }

  lemma {:induction false} RefundedUpdate(claims: seq<Claim>, c: nat, claim: Claim)
    requires c < |claims|
    ensures Refunded(claims[c := claim]) == Refunded(claims)
      - (if claims[c].status == Completed then claims[c].amount else 0)
      + (if claim.status == Completed then claim.amount else 0)
  {
    var n := |claims| - 1;
    if c < n {
      RefundedUpdate(claims[..n], c, claim);
      assert claims[c := claim][..n] == claims[..n][c := claim];
    } else {
      assert claims[c := claim][..n] == claims[..n];
    }
  }

  lemma PostKeepsLinks(claims: seq<Claim>, children: seq<Child>, c: nat)
    requires LinkedOneToOne(claims, children) && c < |claims| && claims[c].movement.None?
    ensures LinkedOneToOne(claims[c := claims[c].(status := Completed, movement := Some(|children|))],
                           children + [Child(c, 0 - claims[c].amount)])
  {
  }

  lemma SumAppend(children: seq<Child>, child: Child)
    ensures SumRefundChildren(children + [child]) == SumRefundChildren(children) + Abs(child.amount)
  {
    assert (children + [child])[..|children|] == children;
  }

  lemma RefundStepMirrors(s: Refunds, e: RefundEvent)
    requires LedgerMirrorsClaims(s)
    ensures LedgerMirrorsClaims(RefundStep(s, e))
  {
    hide LinkedOneToOne, SumRefundChildren, Refunded;
    if e.Update? && e.claim < |s.claims| {
      var c := e.claim;
      var s' := RefundStep(s, e);
      ClaimLink(s.claims, s.children, c);
      RefundedUpdate(s.claims, c, s'.claims[c]);
      if ClaimStep(s.request, s.claims[c], e.provider).1 {
        PostKeepsLinks(s.claims, s.children, c);
        SumAppend(s.children, Child(c, 0 - s.claims[c].amount));
      } else {
        StatusKeepsLinks(s.claims, s.children, c, s'.claims[c].status);
      }
    }
  }

  lemma ClaimLink(claims: seq<Claim>, children: seq<Child>, c: nat)
    requires LinkedOneToOne(claims, children) && c < |claims|
    ensures claims[c].movement.Some? <==> claims[c].status == Completed
  {
  }

  lemma StatusKeepsLinks(claims: seq<Claim>, children: seq<Child>, c: nat, status: ClaimStatus)
    requires LinkedOneToOne(claims, children) && c < |claims|
    requires (status == Completed) == (claims[c].status == Completed)
    ensures LinkedOneToOne(claims[c := claims[c].(status := status)], children)
  {
  }

  /** The remaining amount never rises, ledger rows are only added, and a settled claim never moves again. */
  lemma RefundStepMonotone(s: Refunds, e: RefundEvent)
    requires LedgerMirrorsClaims(s)
    ensures var s' := RefundStep(s, e);
      && s'.captured == s.captured && |s'.claims| == |s.claims|
      && s.children <= s'.children
      && RemainingCapturedAmount(s'.captured, s'.children) <= RemainingCapturedAmount(s.captured, s.children)
      && (forall c :: 0 <= c < |s.claims| ==>
            && s'.claims[c].amount == s.claims[c].amount
            && (s'.claims[c].status != s.claims[c].status ==> s.claims[c].status == ClaimPending))
  {
    hide LinkedOneToOne, SumRefundChildren, Refunded;
    if e.Update? && e.claim < |s.claims| {
      ClaimLink(s.claims, s.children, e.claim);
      SumAppend(s.children, Child(e.claim, 0 - s.claims[e.claim].amount));
    }
  }

  lemma {:induction false} NothingRefundedYet(claims: seq<Claim>)
    requires forall c :: 0 <= c < |claims| ==> claims[c].status == ClaimPending
    ensures Refunded(claims) == 0
  {
    if claims != [] {
      NothingRefundedYet(claims[..|claims| - 1]);
    }
  }

  /** After every step the captured amount is what remains plus the total of the completed claims. */
  lemma {:induction false} RefundConservation(start: Refunds, events: seq<RefundEvent>)
    requires FreshClaims(start)
    ensures var s := RefundRun(start, events);
      && LedgerMirrorsClaims(s)
      && s.captured == start.captured && |s.claims| == |start.claims|
      && s.captured == RemainingCapturedAmount(s.captured, s.children) + Refunded(s.claims)
  {
    if events == [] {
      NothingRefundedYet(start.claims);
    } else {
      RefundConservation(start, events[..|events| - 1]);
      RefundStepMirrors(RefundRun(start, events[..|events| - 1]), events[|events| - 1]);
    }
  }

  function Claimed(claims: seq<Claim>): nat {
    if claims == [] then 0 else Claimed(claims[..|claims| - 1]) + claims[|claims| - 1].amount
  }

  lemma {:induction false} RefundedWithinClaimed(start: seq<Claim>, claims: seq<Claim>)
    requires |claims| == |start|
    requires forall c :: 0 <= c < |claims| ==> claims[c].amount == start[c].amount
    ensures Refunded(claims) <= Claimed(start)
  {
    if claims != [] {
      RefundedWithinClaimed(start[..|start| - 1], claims[..|claims| - 1]);
    }
  }

  /** Claims that together fit the captured amount can never refund more than it, whatever the webhooks do. */
  lemma NeverRefundsBeyondCaptured(start: Refunds, events: seq<RefundEvent>)
    requires FreshClaims(start) && Claimed(start.claims) <= start.captured
    ensures var s := RefundRun(start, events);
      0 <= RemainingCapturedAmount(s.captured, s.children) <= start.captured
  {
    var s := RefundRun(start, events);
    RefundConservation(start, events);
    forall c | 0 <= c < |start.claims|
      ensures s.claims[c].amount == start.claims[c].amount
    {
      ClaimMovesAtMostOnce(start, events, c);
    }
    RefundedWithinClaimed(start.claims, s.claims);
  }

  /** How often a claim's status changes over a run. */
  function Moves(start: Refunds, events: seq<RefundEvent>, c: nat): nat {
    if events == [] then 0
    else
      var n := |events| - 1;
      var before, after := RefundRun(start, events[..n]), RefundRun(start, events);
      var moved := c < |before.claims| && c < |after.claims| && before.claims[c].status != after.claims[c].status;
      Moves(start, events[..n], c) + (if moved then 1 else 0)
  }

  /** Each claim moves at most once, and a child row for it is posted exactly when that move is to `completed`. */
  lemma {:induction false} ClaimMovesAtMostOnce(start: Refunds, events: seq<RefundEvent>, c: nat)
    requires FreshClaims(start) && c < |start.claims|
    ensures var s := RefundRun(start, events);
      && c < |s.claims|
      && Moves(start, events, c) == (if s.claims[c].status == ClaimPending then 0 else 1)
      && (s.claims[c].movement.Some? <==> s.claims[c].status == Completed)
      && s.claims[c].amount == start.claims[c].amount
  {
    RefundConservation(start, events);
    if events != [] {
      var n := |events| - 1;
      ClaimMovesAtMostOnce(start, events[..n], c);
      RefundConservation(start, events[..n]);
      RefundStepMonotone(RefundRun(start, events[..n]), events[n]);
    }
  }

  // ---- the order of deliveries for different claims does not matter ----

  /** The events that concern a claim: its own updates and the request's decisions. */
  function Concerning(events: seq<RefundEvent>, c: nat): seq<RefundEvent> {
    if events == [] then []
    else
      var n := |events| - 1;
      Concerning(events[..n], c) + (if events[n].DecideRequest? || events[n].claim == c then [events[n]] else [])
  }

  /** One claim followed on its own. */
  function Follow(request: RequestStatus, status: ClaimStatus, events: seq<RefundEvent>): (RequestStatus, ClaimStatus) {
    if events == [] then (request, status)
    else
      var n := |events| - 1;
      var (r, st) := Follow(request, status, events[..n]);
      match events[n]
      case DecideRequest(to) => (if to != Undecided && r == Undecided then to else r, st)
      case Update(_, provider) =>
        (r, if st != ClaimPending then st
            else if RefundTarget(provider) == Completed && r == Denied then ClaimPending
            else RefundTarget(provider))
  }

  lemma ClaimStepAsFollowed(request: RequestStatus, claim: Claim, provider: RefundProviderStatus)
    ensures ClaimStep(request, claim, provider).0
      == if claim.status != ClaimPending then claim.status
         else if RefundTarget(provider) == Completed && request == Denied then ClaimPending
         else RefundTarget(provider)
  {
  }

  lemma StepOnClaim(s: Refunds, e: RefundEvent, c: nat)
    requires c < |s.claims|
    ensures var s' := RefundStep(s, e);
      && c < |s'.claims|
      && s'.request == (if e.DecideRequest? && e.to != Undecided && s.request == Undecided then e.to else s.request)
      && s'.claims[c].status
        == if e.Update? && e.claim == c then ClaimStep(s.request, s.claims[c], e.provider).0 else s.claims[c].status
  {
  }

  /** In any interleaving a claim ends as it would if followed on its own. */
  lemma {:induction false} ClaimEndsAsFollowed(start: Refunds, events: seq<RefundEvent>, c: nat)
    requires FreshClaims(start) && c < |start.claims|
    ensures var s := RefundRun(start, events);
      && c < |s.claims|
      && (s.request, s.claims[c].status) == Follow(start.request, ClaimPending, Concerning(events, c))
  {
    hide ClaimStep, RefundStep, RefundTarget;
    if events != [] {
      var n := |events| - 1;
      ClaimEndsAsFollowed(start, events[..n], c);
      var s := RefundRun(start, events[..n]);
      StepOnClaim(s, events[n], c);
      if events[n].Update? {
        ClaimStepAsFollowed(s.request, s.claims[c], events[n].provider);
      }
      var front := Concerning(events[..n], c);
      assert (front + [events[n]])[..|front|] == front && front + [] == front;
      assert RefundRun(start, events) == RefundStep(s, events[n]);
    } else {
      assert Follow(start.request, ClaimPending, []) == (start.request, ClaimPending);
    }
  }

  /** The request of a refund run: as it was if decided, else as the first decision of the run says. */
  lemma {:induction false} RefundRequestDecided(start: Refunds, events: seq<RefundEvent>)
    ensures var request := RefundRun(start, events).request;
      && (start.request != Undecided ==> request == start.request)
      && (start.request == Undecided ==>
            && (request == Undecided <==> forall i :: 0 <= i < |events| ==> !DecidesRequest(events[i]))
            && (forall i :: 0 <= i < |events| && DecidesFirst(events, i) ==> request == events[i].to))
  {
    if events != [] {
      var n := |events| - 1;
      RefundRequestDecided(start, events[..n]);
      RequestAfter(RefundRun(start, events[..n]), events[n]);
      hide RefundStep, DecidesRequest;
      assert forall i :: 0 <= i < n ==> events[..n][i] == events[i];
      assert forall i :: 0 <= i < n ==> DecidesFirst(events[..n], i) == DecidesFirst(events, i);
    }
  }

  predicate DecidesFirst(events: seq<RefundEvent>, i: nat)
    requires i < |events|
  {
    DecidesRequest(events[i]) && forall j :: 0 <= j < i ==> !DecidesRequest(events[j])
  }

  predicate DecidesRequest(e: RefundEvent) {
    e.DecideRequest? && e.to != Undecided
  }

  lemma RequestAfter(s: Refunds, e: RefundEvent)
    ensures RefundStep(s, e).request == if DecidesRequest(e) && s.request == Undecided then e.to else s.request
  {
  }

  /** An update that settles its claim if still pending: a failure, or a success while the request is not denied. */
  predicate Settles(start: Refunds, events: seq<RefundEvent>, c: nat, i: nat)
    requires i < |events|
  {
    && events[i].Update? && events[i].claim == c
    && (events[i].provider in {RefundFailed, RefundCanceled}
        || (events[i].provider == RefundSucceeded && RefundRun(start, events[..i]).request != Denied))
  }

  predicate IsFirstSettling(start: Refunds, events: seq<RefundEvent>, c: nat, i: nat)
    requires i < |events|
  {
    Settles(start, events, c, i) && forall j :: 0 <= j < i ==> !Settles(start, events, c, j)
  }

  /** One claim's update, written with the provider's words. */
  lemma ClaimStepInWords(request: RequestStatus, claim: Claim, provider: RefundProviderStatus)
    ensures ClaimStep(request, claim, provider).0
      == if claim.status != ClaimPending then claim.status
         else if provider == RefundSucceeded && request != Denied then Completed
         else if provider == RefundFailed || provider == RefundCanceled then ClaimFailed
         else ClaimPending
  {
  }

  lemma {:induction false} SettledInFront(start: Refunds, events: seq<RefundEvent>, c: nat, i: nat)
    requires i + 1 < |events|
    ensures Settles(start, events[..|events| - 1], c, i) == Settles(start, events, c, i)
  {
    assert events[..|events| - 1][..i] == events[..i];
  }

  /**
   * In every run from fresh claims a claim ends by its first settling update: completed, with its own child row,
   * if that is a success, and failed without one if it is a failure or a cancellation; with none it stays pending.
   */
  lemma {:induction false} ClaimEndsByFirstSettling(start: Refunds, events: seq<RefundEvent>, c: nat)
    requires FreshClaims(start) && c < |start.claims|
    ensures var s := RefundRun(start, events);
      && c < |s.claims|
      && ((forall i :: 0 <= i < |events| ==> !Settles(start, events, c, i)) ==>
            s.claims[c].status == ClaimPending && s.claims[c].movement.None?)
      && (forall i :: 0 <= i < |events| && IsFirstSettling(start, events, c, i) ==>
            if events[i].provider == RefundSucceeded
            then s.claims[c].status == Completed && HasChild(s, c, start.claims[c].amount)
            else s.claims[c].status == ClaimFailed && s.claims[c].movement.None?)
  {
    ClaimMovesAtMostOnce(start, events, c);
    RefundConservation(start, events);
    ChildOfCompleted(RefundRun(start, events), c);
    ClaimStatusBySettling(start, events, c);
  }

  /** The claim's movement is a child row of minus the amount. */
  predicate HasChild(s: Refunds, c: nat, amount: nat)
    requires c < |s.claims|
  {
    var movement := s.claims[c].movement;
    movement.Some? && movement.value < |s.children| && s.children[movement.value] == Child(c, 0 - amount)
  }

  lemma ChildOfCompleted(s: Refunds, c: nat)
    requires LedgerMirrorsClaims(s) && c < |s.claims|
    ensures s.claims[c].status == Completed ==> HasChild(s, c, s.claims[c].amount)
  {
  }

  lemma {:induction false} ClaimStatusBySettling(start: Refunds, events: seq<RefundEvent>, c: nat)
    requires FreshClaims(start) && c < |start.claims|
    ensures var s := RefundRun(start, events);
      && c < |s.claims|
      && ((forall i :: 0 <= i < |events| ==> !Settles(start, events, c, i)) <==> s.claims[c].status == ClaimPending)
      && (forall i :: 0 <= i < |events| && IsFirstSettling(start, events, c, i) ==>
            s.claims[c].status == if events[i].provider == RefundSucceeded then Completed else ClaimFailed)
  {
    if events != [] {
      var n := |events| - 1;
      var front := events[..n];
      ClaimStatusBySettling(start, front, c);
      var s := RefundRun(start, front);
      StepOnClaim(s, events[n], c);
      if events[n].Update? {
        ClaimStepInWords(s.request, s.claims[c], events[n].provider);
      }
      forall i | 0 <= i < n
        ensures Settles(start, front, c, i) == Settles(start, events, c, i)
      {
        SettledInFront(start, events, c, i);
      }
      var s' := RefundRun(start, events);
      assert s' == RefundStep(s, events[n]);
      hide RefundStep, ClaimStep, FreshClaims;
      var settles := Settles(start, events, c, n);
      assert s'.claims[c].status == ClaimPending <==> s.claims[c].status == ClaimPending && !settles;
      assert forall i :: 0 <= i < n ==> front[i] == events[i];
      assert forall i :: 0 <= i < n ==> IsFirstSettling(start, front, c, i) == IsFirstSettling(start, events, c, i);
    }
  }

  lemma {:induction false} SameClaimsSameRefunded(a: seq<Claim>, b: seq<Claim>)
    requires |a| == |b|
    requires forall c :: 0 <= c < |a| ==> a[c].amount == b[c].amount && a[c].status == b[c].status
    ensures Refunded(a) == Refunded(b)
  {
    if a != [] {
      SameClaimsSameRefunded(a[..|a| - 1], b[..|b| - 1]);
    }
  }

  /** Interleavings that agree, claim by claim, on the order of what concerns it leave the same remaining amount. */
  lemma InterleavingDoesNotMatter(start: Refunds, one: seq<RefundEvent>, other: seq<RefundEvent>)
    requires FreshClaims(start)
    requires forall c :: 0 <= c < |start.claims| ==> Concerning(one, c) == Concerning(other, c)
    ensures var s, t := RefundRun(start, one), RefundRun(start, other);
      && RemainingCapturedAmount(s.captured, s.children) == RemainingCapturedAmount(t.captured, t.children)
      && |s.claims| == |t.claims| && forall c :: 0 <= c < |s.claims| ==> s.claims[c].status == t.claims[c].status
  {
    var s, t := RefundRun(start, one), RefundRun(start, other);
    RefundConservation(start, one);
    RefundConservation(start, other);
    forall c | 0 <= c < |start.claims|
      ensures s.claims[c].amount == t.claims[c].amount && s.claims[c].status == t.claims[c].status
    {
      ClaimMovesAtMostOnce(start, one, c);
      ClaimMovesAtMostOnce(start, other, c);
      ClaimEndsAsFollowed(start, one, c);
      ClaimEndsAsFollowed(start, other, c);
    }
    SameClaimsSameRefunded(s.claims, t.claims);
  }
}
