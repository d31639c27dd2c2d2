/**
 * Matching each service of an accepted price snapshot to one reservation row: booking-engine rows first,
 * then the earliest created, then the id, whatever order the rows come in.
 */
module AcceptedServiceMatch {
  import opened Wrappers
  import opened Sorting

  /** A `Date`, a string with what `Date.parse` makes of it (None for NaN), or nothing. */
  datatype CreatedAt = Instant(ms: int) | DateText(parsed: Option<int>) | Absent

  datatype Row = Row(id: string, serviceId: string, status: Option<string>, sourceChannel: Option<string>,
                     createdAt: CreatedAt)

  const MAX_SAFE_INTEGER := 9_007_199_254_740_991

  function CreatedAtValue(value: CreatedAt): int {
    match value
    case Instant(ms) => ms
    case DateText(Some(ms)) => ms
    case _ => MAX_SAFE_INTEGER
  }

  predicate FromBookingEngine(row: Row) {
    row.sourceChannel == Some("booking_engine")
  }

  /** `localeCompare`, taken as a given total order of ids. */
  type Collation = (string, string) -> int

  ghost predicate IsCollation(collate: Collation) {
    Consistent(collate) && forall a, b :: collate(a, b) == 0 <==> a == b
  }

  function Flag(b: bool): int {
    if b then 1 else 0
  }

  function Compare(left: Row, right: Row, collate: Collation): int {
    var provenance := Flag(FromBookingEngine(right)) - Flag(FromBookingEngine(left));
    var created := CreatedAtValue(left.createdAt) - CreatedAtValue(right.createdAt);
    if provenance != 0 then provenance else if created != 0 then created else collate(left.id, right.id)
  }

  function Comparator(collate: Collation): (Row, Row) -> int {
    (left, right) => Compare(left, right, collate)
  }

  /** `rows.filter((row) => row.serviceId === serviceId)` */
  function RowsOf(rows: seq<Row>, serviceId: string): (r: seq<Row>)
    ensures forall row :: row in r <==> row in rows && row.serviceId == serviceId
  {
    if rows == [] then []
    else
      assert rows == [rows[0]] + rows[1..];
      (if rows[0].serviceId == serviceId then [rows[0]] else []) + RowsOf(rows[1..], serviceId)
  }

  /** The order in words: booking-engine rows first, then the earlier created, then the smaller id. */
  predicate Precedes(a: Row, b: Row, collate: Collation) {
    if FromBookingEngine(a) != FromBookingEngine(b) then FromBookingEngine(a)
    else if CreatedAtValue(a.createdAt) != CreatedAtValue(b.createdAt)
    then CreatedAtValue(a.createdAt) < CreatedAtValue(b.createdAt)
    else collate(a.id, b.id) < 0
  }

  predicate DistinctIds(rows: seq<Row>) {
    forall a, b :: a in rows && b in rows && a.id == b.id ==> a == b
  }

  /** The least row of a service. */
  ghost predicate IsLeast(row: Row, rows: seq<Row>, serviceId: string, collate: Collation) {
    && row in rows && row.serviceId == serviceId
    && forall other :: other in rows && other.serviceId == serviceId && other != row ==> Precedes(row, other, collate)
  }

  /** A service's candidates in the comparator's order. */
  function Candidates(rows: seq<Row>, serviceId: string, collate: Collation): seq<Row> {
    Sort(RowsOf(rows, serviceId), Comparator(collate))
  }

  lemma CandidatesAreRowsOf(rows: seq<Row>, serviceId: string, collate: Collation)
    ensures forall row :: row in Candidates(rows, serviceId, collate) <==> row in rows && row.serviceId == serviceId
    ensures Candidates(rows, serviceId, collate) != [] <==> HasRow(rows, serviceId)
  {
    SortKeepsItems(RowsOf(rows, serviceId), Comparator(collate));
    var candidates := Candidates(rows, serviceId, collate);
    if candidates != [] {
      assert candidates[0] in candidates;
    }
  }

  predicate HasRow(rows: seq<Row>, serviceId: string) {
    exists row :: row in rows && row.serviceId == serviceId
  }

  /** The row matched to one service: the first candidate. */
  function Match(rows: seq<Row>, serviceId: string, collate: Collation): Option<Row> {
    var candidates := Candidates(rows, serviceId, collate);
    if candidates != [] then Some(candidates[0]) else None
  }

  lemma MatchedWhenRow(rows: seq<Row>, service: string, collate: Collation)
    ensures Match(rows, service, collate).Some? <==> HasRow(rows, service)
  {
    CandidatesAreRowsOf(rows, service, collate);
  }

  method MatchAcceptedReservationServiceRows(services: Option<seq<string>>, rows: seq<Row>, collate: Collation)
    returns (matched: map<string, Row>)
    ensures forall service ::
      service in matched <==> services.Some? && service in services.value && HasRow(rows, service)
    ensures forall service :: service in matched ==> Match(rows, service, collate) == Some(matched[service])
  {
    hide *;
    matched := map[];
    if services.None? {
      return;
    }
    for i := 0 to |services.value|
      invariant forall service :: service in matched <==> service in services.value[..i] && HasRow(rows, service)
      invariant forall service :: service in matched ==> Match(rows, service, collate) == Some(matched[service])
    {
      var service := services.value[i];
      var first := Match(rows, service, collate);
      MatchedWhenRow(rows, service, collate);
      assert forall s :: s in services.value[..i + 1] <==> s in services.value[..i] || s == service by {
        hide *;
        assert services.value[..i + 1] == services.value[..i] + [service];
      }
      if first.Some? {
        matched := matched[service := first.value];
      }
    }
    assert services.value[..|services.value|] == services.value;
  }

  lemma ComparatorIsConsistent(collate: Collation)
    requires IsCollation(collate)
    ensures Consistent(Comparator(collate))
  {
    var compare := Comparator(collate);
    forall a, b
      ensures compare(a, b) <= 0 <==> compare(b, a) >= 0
    {
      OtherWayRound(a.id, b.id, collate);
    }
    forall a, b, c | compare(a, b) <= 0 && compare(b, c) <= 0
      ensures compare(a, c) <= 0
    {
      if collate(a.id, b.id) <= 0 && collate(b.id, c.id) <= 0 {
        Chain(a.id, b.id, c.id, collate);
      }
    }
  }

  lemma NotAfterMeansPrecedes(a: Row, b: Row, collate: Collation)
    requires IsCollation(collate) && a.id != b.id && Compare(a, b, collate) <= 0
    ensures Precedes(a, b, collate)
  {
  }

  lemma FirstCandidateIsLeast(rows: seq<Row>, service: string, collate: Collation)
    requires IsCollation(collate) && DistinctIds(rows)
    requires Candidates(rows, service, collate) != []
    ensures IsLeast(Candidates(rows, service, collate)[0], rows, service, collate)
  {
    hide Consistent, IsCollation, Compare, Precedes, Candidates, Sort, RowsOf;
    var compare, candidates := Comparator(collate), Candidates(rows, service, collate);
    ComparatorIsConsistent(collate);
    CandidatesAreSorted(rows, service, collate);
    CandidatesAreRowsOf(rows, service, collate);
    assert candidates[0] in candidates;
    forall other | other in rows && other.serviceId == service && other != candidates[0]
      ensures Precedes(candidates[0], other, collate)
    {
      assert other in candidates;
      var k :| 0 <= k < |candidates| && candidates[k] == other;
      assert compare(candidates[0], candidates[k]) <= 0;
      NotAfterMeansPrecedes(candidates[0], other, collate);
    }
  }

  lemma CandidatesAreSorted(rows: seq<Row>, service: string, collate: Collation)
    requires Consistent(Comparator(collate))
    requires Candidates(rows, service, collate) != []
    ensures Sorted(Candidates(rows, service, collate), Comparator(collate))
  {
    SortIsStable(RowsOf(rows, service), Candidates(rows, service, collate)[0], Comparator(collate));
  }

  /** The order is asymmetric, so a service has at most one least row. */
  lemma LeastIsUnique(a: Row, b: Row, rows: seq<Row>, serviceId: string, collate: Collation)
    requires IsCollation(collate)
    requires IsLeast(a, rows, serviceId, collate) && IsLeast(b, rows, serviceId, collate)
    ensures a == b
  {
    OtherWayRound(a.id, b.id, collate);
  }

  /** With distinct ids the matched row is exactly the least row of the service; without a row there is no match. */
  lemma MatchIsTheLeastRow(rows: seq<Row>, service: string, collate: Collation)
    requires IsCollation(collate) && DistinctIds(rows)
    ensures Match(rows, service, collate).Some? <==> HasRow(rows, service)
    ensures forall row :: Match(rows, service, collate) == Some(row) <==> IsLeast(row, rows, service, collate)
  {
    hide IsCollation, IsLeast, Candidates;
    CandidatesAreRowsOf(rows, service, collate);
    if HasRow(rows, service) {
      FirstCandidateIsLeast(rows, service, collate);
      forall row | IsLeast(row, rows, service, collate)
        ensures Match(rows, service, collate) == Some(row)
      {
        LeastIsUnique(row, Match(rows, service, collate).value, rows, service, collate);
      }
    }
    forall row | IsLeast(row, rows, service, collate)
      ensures HasRow(rows, service)
    {
      LeastIsARow(row, rows, service, collate);
    }
  }

  lemma LeastIsARow(row: Row, rows: seq<Row>, service: string, collate: Collation)
    requires IsLeast(row, rows, service, collate)
    ensures HasRow(rows, service)
  {
  }

  /** The match does not depend on the order, or on repeats, of the rows. */
  lemma OrderDoesNotMatter(rows: seq<Row>, shuffled: seq<Row>, service: string, collate: Collation)
    requires IsCollation(collate) && DistinctIds(rows)
    requires forall row :: row in rows <==> row in shuffled
    ensures Match(rows, service, collate) == Match(shuffled, service, collate)
  {
    hide IsCollation, Match;
    MatchIsTheLeastRow(rows, service, collate);
    MatchIsTheLeastRow(shuffled, service, collate);
    if HasRow(rows, service) {
      assert IsLeast(Match(rows, service, collate).value, shuffled, service, collate);
    }
  }

  /** A matched booking-engine row stays matched when rows are added that are front-desk rows or created later. */
  lemma NotDisplaced(rows: seq<Row>, added: seq<Row>, service: string, collate: Collation)
    requires IsCollation(collate) && DistinctIds(rows + added)
    requires Match(rows, service, collate).Some? && FromBookingEngine(Match(rows, service, collate).value)
    requires var created := CreatedAtValue(Match(rows, service, collate).value.createdAt);
      forall row :: row in added && row.serviceId == service ==>
        !FromBookingEngine(row) || CreatedAtValue(row.createdAt) > created
    ensures Match(rows + added, service, collate) == Match(rows, service, collate)
  {
    hide IsCollation, Match, DistinctIds;
    DistinctPart(rows, added);
    MatchIsTheLeastRow(rows, service, collate);
    MatchIsTheLeastRow(rows + added, service, collate);
    assert IsLeast(Match(rows, service, collate).value, rows + added, service, collate);
  }

  lemma DistinctPart(rows: seq<Row>, added: seq<Row>)
    requires DistinctIds(rows + added)
    ensures DistinctIds(rows)
  {
    assert forall row :: row in rows ==> row in rows + added;
  }

  /** Provenance outweighs time: a front-desk match gives way to a booking-engine row, whenever that was created. */
  lemma FrontDeskMatchGivesWay(rows: seq<Row>, added: Row, service: string, collate: Collation)
    requires IsCollation(collate) && DistinctIds(rows + [added])
    requires Match(rows, service, collate).Some? && !FromBookingEngine(Match(rows, service, collate).value)
    requires added.serviceId == service && FromBookingEngine(added)
    ensures Match(rows + [added], service, collate) == Some(added)
  {
    hide IsCollation, Match, DistinctIds;
    DistinctPart(rows, [added]);
    MatchIsTheLeastRow(rows, service, collate);
    MatchIsTheLeastRow(rows + [added], service, collate);
    var a := Match(rows, service, collate).value;
    assert forall row :: row in rows && row.serviceId == service ==> row == a || Precedes(a, row, collate);
    assert IsLeast(added, rows + [added], service, collate);
  }

  /** Different services are matched to different rows. */
  lemma DifferentServicesDifferentRows(rows: seq<Row>, serviceA: string, serviceB: string, collate: Collation)
    requires serviceA != serviceB
    requires Match(rows, serviceA, collate).Some? && Match(rows, serviceB, collate).Some?
    ensures Match(rows, serviceA, collate).value != Match(rows, serviceB, collate).value
  {
    CandidatesAreRowsOf(rows, serviceA, collate);
    CandidatesAreRowsOf(rows, serviceB, collate);
    hide Candidates;
    assert Candidates(rows, serviceA, collate)[0] in Candidates(rows, serviceA, collate);
    assert Candidates(rows, serviceB, collate)[0] in Candidates(rows, serviceB, collate);
  }

  // ---- the order, by the rows' own fields ----

  /** A booking-engine row of the service keeps every other row from being matched. */
  lemma BookingEngineRowsWin(rows: seq<Row>, a: Row, b: Row, service: string, collate: Collation)
    requires IsCollation(collate) && DistinctIds(rows) && a in rows && b in rows
    requires a.serviceId == service && b.serviceId == service
    requires a.sourceChannel == Some("booking_engine") && b.sourceChannel != Some("booking_engine")
    ensures Match(rows, service, collate) != Some(b)
  {
    MatchIsTheLeastRow(rows, service, collate);
    hide Match, IsCollation;
    assert IsLeast(b, rows, service, collate) ==> Precedes(b, a, collate);
  }

  /** When a row was created: at an instant, at the one its text parses to, or at the end of time. */
  predicate CreatedOn(row: Row, time: int) {
    match row.createdAt
    case Instant(ms) => time == ms
    case DateText(parsed) => time == if parsed.Some? then parsed.value else 9_007_199_254_740_991
    case Absent => time == 9_007_199_254_740_991
  }

  /** Of two rows of one provenance the earlier created, and of two created together the smaller id, goes first. */
  lemma EarlierRowsWin(rows: seq<Row>, a: Row, b: Row, service: string, collate: Collation, timeA: int, timeB: int)
    requires IsCollation(collate) && DistinctIds(rows) && a in rows && b in rows && a != b
    requires a.serviceId == service && b.serviceId == service
    requires (a.sourceChannel == Some("booking_engine")) == (b.sourceChannel == Some("booking_engine"))
    requires CreatedOn(a, timeA) && CreatedOn(b, timeB)
    requires timeA < timeB || (timeA == timeB && collate(a.id, b.id) < 0)
    ensures Match(rows, service, collate) != Some(b)
  {
    MatchIsTheLeastRow(rows, service, collate);
    OtherWayRound(a.id, b.id, collate);
    hide Match;
    assert IsLeast(b, rows, service, collate) ==> Precedes(b, a, collate);
  }
}
