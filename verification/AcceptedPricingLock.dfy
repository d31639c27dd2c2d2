/**
 * withAcceptedPricingLock: the reservation row as the mutex of its accepted-price snapshot.
 *
 * `SELECT … FOR UPDATE` takes a row lock that its transaction keeps until it ends; another transaction
 * that asks for it waits, the same transaction passes (section 13.3.2 of the PostgreSQL documentation).
 * Reading and writing the snapshot are separate steps, so only the lock can prevent a lost update.
 */
module AcceptedPricingLock {

  /** A step of the work under the lock: re-read the snapshot, or write one computed from the last read. */
  datatype Op<!S> = Read | Write(compute: S -> S)

  /** A snapshot under work: the value to be committed and the last value read. */
  datatype Draft<S> = Draft(value: S, lastRead: S)

  function Perform<S>(draft: Draft<S>, op: Op<S>): Draft<S> {
    match op
    case Read => Draft(draft.value, draft.value)
    case Write(compute) => Draft(compute(draft.lastRead), draft.lastRead)
  }

  /** The effect of one transaction's operations on a snapshot, run alone from start to end. */
  function Alone<S>(snapshot: S, ops: seq<Op<S>>): Draft<S> {
    if ops == [] then Draft(snapshot, snapshot) else Perform(Alone(snapshot, ops[..|ops| - 1]), ops[|ops| - 1])
  }

  /** A lock held: its place in the order of grants, the work done so far, and the uncommitted draft. */
  datatype Held<!S> = Held(ticket: nat, ops: seq<Op<S>>, draft: Draft<S>)

  /** A transaction: its held locks and the stack of calls now running their work, innermost last. */
  datatype Tx<!S> = Closed | Open(calls: seq<string>, held: map<string, Held<S>>)

  datatype Committed<!S> = Committed(ticket: nat, ops: seq<Op<S>>)

  /** A reservation row, its locks granted so far, and the works committed on it in commit order. */
  datatype Row<!S> = Row(property: string, snapshot: S, granted: nat, log: seq<Committed<S>>)

  datatype Database<!S> = Database(rows: map<string, Row<S>>, txs: seq<Tx<S>>)

  datatype Event<!S> =
    | Begin(t: nat)
    | Enter(t: nat, property: string, key: string) // the locking select; `existingTx` or not, it is the same select
    | Do(t: nat, key: string, op: Op<S>)           // one step of the work, inside the call
    | Leave(t: nat)                                // the innermost call returns
    | Commit(t: nat)                               // only the outermost transaction ends it
    | Abort(t: nat)                                // an error, a crash or a lost connection

  predicate LockedByOther<S>(txs: seq<Tx<S>>, t: nat, key: string) {
    exists q :: 0 <= q < |txs| && q != t && txs[q].Open? && key in txs[q].held
  }

  /** Publishing a transaction's drafts, one committed work per lock it held. */
  function Publish<S>(rows: map<string, Row<S>>, held: map<string, Held<S>>): map<string, Row<S>> {
    map k | k in rows :: if k in held
      then rows[k].(snapshot := held[k].draft.value, log := rows[k].log + [Committed(held[k].ticket, held[k].ops)])
      else rows[k]
  }

  /** One event. Waiting for a lock, the not-found error and impossible events leave the state as it is. */
  function Step<S>(s: Database<S>, e: Event<S>): Database<S> {
    if e.t >= |s.txs| then s
    else
      var tx := s.txs[e.t];
      match e
      case Begin(t) =>
        if tx.Open? then s else s.(txs := s.txs[t := Open([], map[])])
      case Enter(t, property, key) =>
        if tx.Closed? || key !in s.rows || s.rows[key].property != property || LockedByOther(s.txs, t, key) then s
        else if key in tx.held then s.(txs := s.txs[t := tx.(calls := tx.calls + [key])])
        else
          var row := s.rows[key];
          var lock := Held(row.granted, [], Draft(row.snapshot, row.snapshot));
          Database(s.rows[key := row.(granted := row.granted + 1)],
                   s.txs[t := Open(tx.calls + [key], tx.held[key := lock])])
      case Do(t, key, op) =>
        if tx.Closed? || key !in tx.calls || key !in tx.held then s
        else
          var lock := tx.held[key];
          var lock' := lock.(ops := lock.ops + [op], draft := Perform(lock.draft, op));
          s.(txs := s.txs[t := tx.(held := tx.held[key := lock'])])
      case Leave(t) =>
        if tx.Closed? || tx.calls == [] then s else s.(txs := s.txs[t := tx.(calls := tx.calls[..|tx.calls| - 1])])
      case Commit(t) =>
        if tx.Closed? || tx.calls != [] then s
        else Database(Publish(s.rows, tx.held), s.txs[t := Closed])
      case Abort(t) =>
        s.(txs := s.txs[t := Closed])
  }

  function Run<S>(s: Database<S>, events: seq<Event<S>>): Database<S> {
    if events == [] then s else Step(Run(s, events[..|events| - 1]), events[|events| - 1])
  }

  /** Transaction `t` is inside a critical section of the reservation. */
  predicate Inside<S>(s: Database<S>, t: nat, key: string) {
    t < |s.txs| && s.txs[t].Open? && key in s.txs[t].calls
  }

  /** The snapshot after committed works, one whole work after another. */
  function Serial<S>(snapshot: S, log: seq<Committed<S>>): S {
    if log == [] then snapshot else Alone(Serial(snapshot, log[..|log| - 1]), log[|log| - 1].ops).value
  }

  /** Rows as the run finds them: no lock granted, nothing logged. */
  predicate Fresh<S>(s: Database<S>) {
    && (forall k :: k in s.rows ==> s.rows[k].granted == 0 && s.rows[k].log == [])
    && (forall t :: 0 <= t < |s.txs| ==> s.txs[t].Closed?)
  }

  ghost predicate LockOk<S(!new)>(row: Row<S>, lock: Held<S>) {
    && lock.draft == Alone(row.snapshot, lock.ops)
    && lock.ticket < row.granted
    && (forall i :: 0 <= i < |row.log| ==> row.log[i].ticket < lock.ticket)
  }

  ghost predicate LockInvariant<S(!new)>(rows: map<string, Row<S>>, tx: Tx<S>) {
    tx.Open? ==>
      && (forall k :: k in tx.calls ==> k in tx.held)
      && (forall k :: k in tx.held ==> k in rows && LockOk(rows[k], tx.held[k]))
  }

  ghost predicate RowInvariant<S(!new)>(initial: Row<S>, row: Row<S>) {
    && row.property == initial.property
    && row.snapshot == Serial(initial.snapshot, row.log)
    && (forall i :: 0 <= i < |row.log| ==> row.log[i].ticket < row.granted)
    && (forall i, j :: 0 <= i < j < |row.log| ==> row.log[i].ticket < row.log[j].ticket)
  }

  ghost predicate Exclusive<S(!new)>(txs: seq<Tx<S>>) {
    forall q, t, k :: 0 <= q < |txs| && 0 <= t < |txs| && q != t && txs[q].Open? && txs[t].Open? && k in txs[q].held ==>
      k !in txs[t].held
  }

  ghost predicate Invariant<S(!new)>(initial: Database<S>, s: Database<S>) {
    && s.rows.Keys == initial.rows.Keys
    && (forall k :: k in s.rows ==> RowInvariant(initial.rows[k], s.rows[k]))
    && (forall t :: 0 <= t < |s.txs| ==> LockInvariant(s.rows, s.txs[t]))
    && Exclusive(s.txs)
  }

  lemma LocksOnUnchangedRows<S(!new)>(rows: map<string, Row<S>>, rows': map<string, Row<S>>, tx: Tx<S>)
    requires LockInvariant(rows, tx)
    requires tx.Open? ==> forall k :: k in tx.held ==> k in rows' && rows'[k] == rows[k]
    ensures LockInvariant(rows', tx)
  {
  }

  lemma AcquireKeepsInvariant<S(!new)>(initial: Database<S>, s: Database<S>, t: nat, key: string)
    requires Invariant(initial, s)
    requires t < |s.txs| && s.txs[t].Open? && key in s.rows && !LockedByOther(s.txs, t, key) && key !in s.txs[t].held
    ensures var row, tx := s.rows[key], s.txs[t];
      var lock := Held(row.granted, [], Draft(row.snapshot, row.snapshot));
      Invariant(initial, Database(s.rows[key := row.(granted := row.granted + 1)],
                                  s.txs[t := Open(tx.calls + [key], tx.held[key := lock])]))
  {
    hide RowInvariant, LockOk, Alone, Serial;
    var row, tx := s.rows[key], s.txs[t];
    var rows := s.rows[key := row.(granted := row.granted + 1)];
    var lock := Held(row.granted, [], Draft(row.snapshot, row.snapshot));
    var txs := s.txs[t := Open(tx.calls + [key], tx.held[key := lock])];
    GrantNext(initial.rows[key], row);
    forall q | 0 <= q < |s.txs|
      ensures LockInvariant(rows, txs[q])
    {
      assert q != t && s.txs[q].Open? ==> key !in s.txs[q].held;
      LocksOnUnchangedRows(s.rows, rows, s.txs[q]);
    }
  }

  lemma GrantNext<S(!new)>(initial: Row<S>, row: Row<S>)
    requires RowInvariant(initial, row)
    ensures RowInvariant(initial, row.(granted := row.granted + 1))
    ensures LockOk(row.(granted := row.granted + 1), Held(row.granted, [], Draft(row.snapshot, row.snapshot)))
  {
  }

  lemma EnterKeepsInvariant<S(!new)>(initial: Database<S>, s: Database<S>, e: Event<S>)
    requires Invariant(initial, s) && e.Enter?
    ensures Invariant(initial, Step(s, e))
  {
    hide RowInvariant, LockOk;
    var s' := Step(s, e);
    if s' != s {
      if e.key in s.txs[e.t].held {
        assert LockInvariant(s'.rows, s'.txs[e.t]);
      } else {
        AcquireKeepsInvariant(initial, s, e.t, e.key);
      }
    }
  }

  lemma DoKeepsLock<S(!new)>(row: Row<S>, lock: Held<S>, op: Op<S>)
    requires LockOk(row, lock)
    ensures LockOk(row, lock.(ops := lock.ops + [op], draft := Perform(lock.draft, op)))
  {
    assert (lock.ops + [op])[..|lock.ops|] == lock.ops;
  }

  lemma DoKeepsInvariant<S(!new)>(initial: Database<S>, s: Database<S>, e: Event<S>)
    requires Invariant(initial, s) && e.Do?
    ensures Invariant(initial, Step(s, e))
  {
    hide RowInvariant, LockOk, Perform;
    if e.t < |s.txs| && s.txs[e.t].Open? && e.key in s.txs[e.t].calls {
      DoKeepsLock(s.rows[e.key], s.txs[e.t].held[e.key], e.op);
    }
  }

  lemma PublishKeepsRow<S(!new)>(initial: Row<S>, row: Row<S>, lock: Held<S>)
    requires RowInvariant(initial, row) && LockOk(row, lock)
    ensures var log := row.log + [Committed(lock.ticket, lock.ops)];
      RowInvariant(initial, row.(snapshot := lock.draft.value, log := log))
  {
    assert (row.log + [Committed(lock.ticket, lock.ops)])[..|row.log|] == row.log;
  }

  lemma CommitKeepsInvariant<S(!new)>(initial: Database<S>, s: Database<S>, e: Event<S>)
    requires Invariant(initial, s) && e.Commit?
    ensures Invariant(initial, Step(s, e))
  {
    hide RowInvariant, LockOk;
    if e.t < |s.txs| && s.txs[e.t].Open? && s.txs[e.t].calls == [] {
      var held := s.txs[e.t].held;
      var rows := Publish(s.rows, held);
      forall k | k in rows
        ensures RowInvariant(initial.rows[k], rows[k])
      {
        if k in held {
          PublishKeepsRow(initial.rows[k], s.rows[k], held[k]);
        }
      }
      forall q | 0 <= q < |s.txs| && q != e.t
        ensures LockInvariant(rows, s.txs[q])
      {
        LocksOnUnchangedRows(s.rows, rows, s.txs[q]);
      }
    }
  }

  lemma StepKeepsInvariant<S(!new)>(initial: Database<S>, s: Database<S>, e: Event<S>)
    requires Invariant(initial, s)
    ensures Invariant(initial, Step(s, e))
  {
    hide RowInvariant, LockOk;
    match e
    case Enter(_, _, _) => EnterKeepsInvariant(initial, s, e);
    case Do(_, _, _) => DoKeepsInvariant(initial, s, e);
    case Commit(_) => CommitKeepsInvariant(initial, s, e);
    case _ =>
  }

  lemma {:induction false} RunKeepsInvariant<S(!new)>(initial: Database<S>, events: seq<Event<S>>)
    requires Fresh(initial)
    ensures Invariant(initial, Run(initial, events))
  {
    if events != [] {
      RunKeepsInvariant(initial, events[..|events| - 1]);
      StepKeepsInvariant(initial, Run(initial, events[..|events| - 1]), events[|events| - 1]);
    }
  }

  /** Critical sections of one reservation never overlap, however transactions interleave, nest or fail. */
  lemma NeverOverlap<S(!new)>(initial: Database<S>, events: seq<Event<S>>, q: nat, t: nat, key: string)
    requires Fresh(initial)
    requires Inside(Run(initial, events), q, key) && Inside(Run(initial, events), t, key)
    ensures q == t
  {
    RunKeepsInvariant(initial, events);
  }

  /** No lost update: the snapshot is the committed works applied whole, one after another, in lock order. */
  lemma NoLostUpdate<S(!new)>(initial: Database<S>, events: seq<Event<S>>, key: string)
    requires Fresh(initial) && key in initial.rows
    ensures var s := Run(initial, events);
      && key in s.rows
      && s.rows[key].snapshot == Serial(initial.rows[key].snapshot, s.rows[key].log)
      && (forall i, j :: 0 <= i < j < |s.rows[key].log| ==> s.rows[key].log[i].ticket < s.rows[key].log[j].ticket)
  {
    RunKeepsInvariant(initial, events);
  }

  /**
   * While a call runs its work, its draft is its own work alone on the committed snapshot: nobody else's
   * commit comes between.
   */
  lemma WorkSeesOnlyItself<S(!new)>(initial: Database<S>, events: seq<Event<S>>, t: nat, key: string)
    requires Fresh(initial) && Inside(Run(initial, events), t, key)
    ensures var s := Run(initial, events);
      && key in s.rows && key in s.txs[t].held
      && s.txs[t].held[key].draft == Alone(s.rows[key].snapshot, s.txs[t].held[key].ops)
  {
    RunKeepsInvariant(initial, events);
  }

  /**
   * A commit adds to each log exactly the committing transaction's own work on that row; nothing else
   * changes a row's value or log.
   */
  lemma OnlyCommitChangesRows<S(!new)>(initial: Database<S>, events: seq<Event<S>>, e: Event<S>, key: string)
    requires Fresh(initial) && key in initial.rows
    ensures var s, s' := Run(initial, events), Run(initial, events + [e]);
      && key in s.rows && key in s'.rows
      && (if e.Commit? && e.t < |s.txs| && s.txs[e.t].Open? && s.txs[e.t].calls == [] && key in s.txs[e.t].held
          then s'.rows[key].log == s.rows[key].log + [Committed(s.txs[e.t].held[key].ticket, s.txs[e.t].held[key].ops)]
          else s'.rows[key].log == s.rows[key].log && s'.rows[key].snapshot == s.rows[key].snapshot)
  {
    hide Step, LockOk, RowInvariant;
    RunKeepsInvariant(initial, events);
    assert (events + [e])[..|events|] == events;
    assert Run(initial, events + [e]) == Step(Run(initial, events), e);
    StepOnRow(Run(initial, events), e, key);
  }

  lemma StepOnRow<S(!new)>(s: Database<S>, e: Event<S>, key: string)
    requires key in s.rows
    requires forall t :: 0 <= t < |s.txs| && s.txs[t].Open? ==> forall k :: k in s.txs[t].held ==> k in s.rows
    ensures var s' := Step(s, e);
      && key in s'.rows
      && (if e.Commit? && e.t < |s.txs| && s.txs[e.t].Open? && s.txs[e.t].calls == [] && key in s.txs[e.t].held
          then s'.rows[key].log == s.rows[key].log + [Committed(s.txs[e.t].held[key].ticket, s.txs[e.t].held[key].ops)]
          else s'.rows[key].log == s.rows[key].log && s'.rows[key].snapshot == s.rows[key].snapshot)
  {
    hide Perform, LockedByOther;
  }

  // ---- the lock is granted, kept and used ----

  /**
   * Who is let in: an open transaction, for a row of that property and key, that no other open transaction
   * holds; whether it holds the lock itself makes no difference. Nobody else gets in or out.
   */
  lemma EnterLetsIn<S(!new)>(initial: Database<S>, events: seq<Event<S>>, t: nat, property: string, key: string)
    requires Fresh(initial) && t < |Run(initial, events).txs|
    ensures var s := Run(initial, events);
      var s' := Step(s, Enter(t, property, key));
      var free := forall q :: 0 <= q < |s.txs| && q != t && s.txs[q].Open? ==> key !in s.txs[q].held;
      && (s.txs[t].Open? && key in s.rows && s.rows[key].property == property && free ==>
            && s'.txs[t].Open? && s'.txs[t].calls == s.txs[t].calls + [key] && key in s'.txs[t].held
            && (key in s.txs[t].held ==> s'.txs[t].held == s.txs[t].held)
            && (key !in s.txs[t].held ==>
                  s'.txs[t].held[key].draft == Draft(s.rows[key].snapshot, s.rows[key].snapshot)))
      && (!(s.txs[t].Open? && key in s.rows && s.rows[key].property == property && free) ==> s' == s)
  {
    hide Perform;
  }

  /** A held lock is kept, with its work, until its transaction commits or aborts: leaving a call gives nothing back. */
  lemma HeldUntilTheEnd<S(!new)>(s: Database<S>, e: Event<S>, t: nat, key: string)
    requires t < |s.txs| && s.txs[t].Open? && key in s.txs[t].held
    requires e.t != t || (!e.Commit? && !e.Abort?)
    ensures var s' := Step(s, e);
      && t < |s'.txs| && s'.txs[t].Open? && key in s'.txs[t].held
      && (e.t != t || !e.Do? ==> s'.txs[t].held[key] == s.txs[t].held[key])
  {
    hide Perform, LockedByOther;
  }

  /** A write computes from the last value read, wherever other writes came in between. */
  lemma WritesUseTheLastRead<S(!new)>(snapshot: S, f: S -> S, g: S -> S)
    ensures Alone(snapshot, [Write(f)]).value == f(snapshot)
    ensures Alone(snapshot, [Write(f), Write(g)]).value == g(snapshot)
    ensures Alone(snapshot, [Write(f), Read, Write(g)]).value == g(f(snapshot))
  {
    var w1, w2, w3 := [Write(f)], [Write(f), Write(g)], [Write(f), Read, Write(g)];
    assert w1[..0] == [] && w2[..1] == w1 && w3[..2] == [Write(f), Read] && w3[..2][..1] == w1;
    assert Alone(snapshot, w1) == Perform(Draft(snapshot, snapshot), Write(f));
    assert Alone(snapshot, w3[..2]) == Perform(Alone(snapshot, w1), Read);
  }

  /** One transaction's way through: it takes the lock, works, leaves the call and commits. */
  function LoneWork<S>(t: nat, property: string, key: string, f: S -> S): seq<Event<S>> {
    [Begin(t), Enter(t, property, key), Do(t, key, Read), Do(t, key, Write(f)), Leave(t), Commit(t)]
  }

  /** Nobody being in the way, a transaction's work is done: the snapshot is what it computed, and it is logged. */
  lemma LoneWorkCommits<S(!new)>(s: Database<S>, t: nat, property: string, key: string, f: S -> S)
    requires t < |s.txs| && s.txs[t].Closed? && key in s.rows && s.rows[key].property == property
    requires forall q :: 0 <= q < |s.txs| && s.txs[q].Open? ==> key !in s.txs[q].held
    ensures var s' := Run(s, LoneWork(t, property, key, f));
      && key in s'.rows && s'.rows[key].snapshot == f(s.rows[key].snapshot)
      && s'.rows[key].log == s.rows[key].log + [Committed(s.rows[key].granted, [Read, Write(f)])]
      && s'.txs == s.txs
  {
    hide *;
    LoneWorkIs(t, property, key, f);
    SixSteps(s, LoneWork(t, property, key, f));
    var s2 := Step(Step(s, Begin(t)), Enter(t, property, key));
    LoneStart(s, t, property, key);
    LoneMiddle(s2, t, key, s.rows[key].granted, s.rows[key].snapshot, f);
    var s4 := Step(Step(s2, Do(t, key, Read)), Do(t, key, Write(f)));
    var done := Draft(f(s.rows[key].snapshot), s.rows[key].snapshot);
    LoneEnd(s4, t, key, Held(s.rows[key].granted, [Read, Write(f)], done));
    assert s.txs[t := Closed] == s.txs;
  }

  lemma LoneMiddle<S(!new)>(s: Database<S>, t: nat, key: string, ticket: nat, snapshot: S, f: S -> S)
    requires t < |s.txs| && s.txs[t] == Open([key], map[key := Held(ticket, [], Draft(snapshot, snapshot))])
    ensures var lock := Held(ticket, [Read, Write(f)], Draft(f(snapshot), snapshot));
      Step(Step(s, Do(t, key, Read)), Do(t, key, Write(f))) == s.(txs := s.txs[t := Open([key], map[key := lock])])
  {
    hide Step;
    var start := Held(ticket, [], Draft(snapshot, snapshot));
    var read := Held(ticket, [Read], Draft(snapshot, snapshot));
    assert start.ops + [Read] == [Read] && [Read] + [Write(f)] == [Read, Write(f)];
    LoneDo(s, t, key, Read, start);
    LoneDo(s.(txs := s.txs[t := Open([key], map[key := read])]), t, key, Write(f), read);
  }

  /** An aborted transaction loses its work and its locks: another's work on the row then goes through as if alone. */
  lemma AbortReleases<S(!new)>(s: Database<S>, gone: nat, t: nat, property: string, key: string, f: S -> S)
    requires gone < |s.txs| && t < |s.txs| && gone != t && s.txs[t].Closed?
    requires key in s.rows && s.rows[key].property == property
    requires forall q :: 0 <= q < |s.txs| && q != gone && s.txs[q].Open? ==> key !in s.txs[q].held
    ensures var aborted := Step(s, Abort(gone));
      var s' := Run(aborted, LoneWork(t, property, key, f));
      && aborted.rows == s.rows && key in s'.rows && s'.rows[key].snapshot == f(s.rows[key].snapshot)
  {
    LoneWorkCommits(Step(s, Abort(gone)), t, property, key, f);
  }

  lemma LoneWorkIs<S(!new)>(t: nat, property: string, key: string, f: S -> S)
    ensures LoneWork(t, property, key, f)
      == [Begin(t), Enter(t, property, key), Do(t, key, Read), Do(t, key, Write(f)), Leave(t), Commit(t)]
  {
  }

  lemma SixSteps<S(!new)>(s: Database<S>, es: seq<Event<S>>)
    requires |es| == 6
    ensures Run(s, es) == Step(Step(Step(Step(Step(Step(s, es[0]), es[1]), es[2]), es[3]), es[4]), es[5])
  {
    hide Step;
    assert es[..5][..4] == es[..4] && es[..4][..3] == es[..3] && es[..3][..2] == es[..2] && es[..2][..1] == es[..1];
    assert es[..1][..0] == [];
    assert Run(s, es[..1]) == Step(s, es[0]);
    assert Run(s, es[..2]) == Step(Run(s, es[..1]), es[1]);
    assert Run(s, es[..3]) == Step(Run(s, es[..2]), es[2]);
    assert Run(s, es[..4]) == Step(Run(s, es[..3]), es[3]);
    assert Run(s, es[..5]) == Step(Run(s, es[..4]), es[4]);
  }

  lemma LoneStart<S(!new)>(s: Database<S>, t: nat, property: string, key: string)
    requires t < |s.txs| && s.txs[t].Closed? && key in s.rows && s.rows[key].property == property
    requires forall q :: 0 <= q < |s.txs| && s.txs[q].Open? ==> key !in s.txs[q].held
    ensures var row := s.rows[key];
      Step(Step(s, Begin(t)), Enter(t, property, key))
        == Database(s.rows[key := row.(granted := row.granted + 1)],
                    s.txs[t := Open([key], map[key := Held(row.granted, [], Draft(row.snapshot, row.snapshot))])])
  {
    hide Perform;
    var s1 := Step(s, Begin(t));
    assert s1 == s.(txs := s.txs[t := Open([], map[])]);
    var row := s.rows[key];
    var lock := Held(row.granted, [], Draft(row.snapshot, row.snapshot));
    var held: map<string, Held<S>> := map[];
    assert !LockedByOther(s1.txs, t, key);
    assert held[key := lock] == map[key := lock] && [] + [key] == [key];
    assert s1.txs[t := Open([key], map[key := lock])] == s.txs[t := Open([key], map[key := lock])];
  }

  lemma LoneDo<S(!new)>(s: Database<S>, t: nat, key: string, op: Op<S>, lock: Held<S>)
    requires t < |s.txs| && s.txs[t] == Open([key], map[key := lock])
    ensures var lock' := lock.(ops := lock.ops + [op], draft := Perform(lock.draft, op));
      Step(s, Do(t, key, op)) == s.(txs := s.txs[t := Open([key], map[key := lock'])])
  {
    hide Perform;
    var lock' := lock.(ops := lock.ops + [op], draft := Perform(lock.draft, op));
    assert (map[key := lock])[key := lock'] == map[key := lock'];
  }

  lemma LoneEnd<S(!new)>(s: Database<S>, t: nat, key: string, lock: Held<S>)
    requires t < |s.txs| && s.txs[t] == Open([key], map[key := lock]) && key in s.rows
    ensures var s' := Step(Step(s, Leave(t)), Commit(t));
      && key in s'.rows && s'.txs == s.txs[t := Closed]
      && s'.rows[key].snapshot == lock.draft.value
      && s'.rows[key].log == s.rows[key].log + [Committed(lock.ticket, lock.ops)]
  {
    var s1 := Step(s, Leave(t));
    assert s1 == s.(txs := s.txs[t := Open([], map[key := lock])]);
  }
}
