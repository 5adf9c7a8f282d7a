/** Recovery point and recovery time of a drill, measured from confirmed and restored events. */
module Measurements {

  /** One event row; `details` stands for the fields that are only compared. */
  datatype Row = Row(eventId: int, confirmedNs: int, size: int, details: string)

  datatype Refusal = InvalidEndpoints | InvalidInflight | ConfirmedAfterFailure | DuplicateEvent | UnconfirmedEvent
                   | ChangedEvent | Holes | ClockOrder

  datatype Report =
    | Measured(rpoNs: int, rtoNs: int, latestConfirmedNs: int, latestRestoredNs: int, lostEvents: nat, lostBytes: int,
               inflightEvents: nat)
    | Refused(reason: Refusal)

  function Ids(rows: seq<Row>): set<int> {
    set row | row in rows :: row.eventId
  }

  predicate DistinctIds(rows: seq<Row>) {
    forall i, j :: 0 <= i < j < |rows| ==> rows[i].eventId != rows[j].eventId
  }

  function Latest(rows: seq<Row>): (m: int)
    requires rows != []
    ensures forall row :: row in rows ==> row.confirmedNs <= m
    ensures exists row :: row in rows && row.confirmedNs == m
  {
    if |rows| == 1 then rows[0].confirmedNs
    else
      var rest := Latest(rows[1..]);
      assert forall row :: row in rows <==> row == rows[0] || row in rows[1..];
      if rows[0].confirmedNs > rest then rows[0].confirmedNs else rest
  }

  /** The confirmed rows that were not restored, in their order. */
  function Lost(before: seq<Row>, restoredIds: set<int>): (lost: seq<Row>)
    ensures forall row :: row in lost <==> row in before && row.eventId !in restoredIds
    ensures DistinctIds(before) ==> DistinctIds(lost)
  {
    if before == [] then []
    else
      var rest := Lost(before[1..], restoredIds);
      assert forall row :: row in before <==> row == before[0] || row in before[1..];
      if before[0].eventId in restoredIds then rest else [before[0]] + rest
  }

  function Bytes(rows: seq<Row>): int {
    if rows == [] then 0 else rows[0].size + Bytes(rows[1..])
  }

  predicate ConfirmedBy(before: seq<Row>, failureNs: int) {
    forall row :: row in before ==> row.confirmedNs <= failureNs
  }

  predicate Unchanged(before: seq<Row>, restored: seq<Row>) {
    forall row :: row in restored ==> row in before
  }

  predicate AllLater(rows: seq<Row>, ns: int) {
    forall row :: row in rows ==> row.confirmedNs > ns
  }

  method CheckConfirmed(before: seq<Row>, failureNs: int) returns (ok: bool)
    ensures ok <==> ConfirmedBy(before, failureNs)
  {
    for i := 0 to |before|
      invariant forall k :: 0 <= k < i ==> before[k].confirmedNs <= failureNs
    {
      if before[i].confirmedNs > failureNs {
        assert before[i] in before;
        return false;
      }
    }
    return true;
  }

  method CheckUnchanged(before: seq<Row>, restored: seq<Row>) returns (ok: bool)
    ensures ok <==> Unchanged(before, restored)
  {
    for i := 0 to |restored|
      invariant forall k :: 0 <= k < i ==> restored[k] in before
    {
      if restored[i] !in before {
        assert restored[i] in restored;
        return false;
      }
    }
    return true;
  }

  method CheckLater(rows: seq<Row>, ns: int) returns (ok: bool)
    ensures ok <==> AllLater(rows, ns)
  {
    for i := 0 to |rows|
      invariant forall k :: 0 <= k < i ==> rows[k].confirmedNs > ns
    {
      if rows[i].confirmedNs <= ns {
        assert rows[i] in rows;
        return false;
      }
    }
    return true;
  }

  lemma UnknownEvent(before: seq<Row>, restored: seq<Row>)
    requires !(Ids(restored) <= Ids(before))
    ensures !Unchanged(before, restored)
  {
    var id :| id in Ids(restored) && id !in Ids(before);
    var row :| row in restored && row.eventId == id;
    assert row in before ==> id in Ids(before);
  }

  /** The restored events are confirmed ones, unchanged, and no lost event was confirmed before or
      together with a restored one. */
  ghost predicate Consistent(before: seq<Row>, restored: seq<Row>, failureNs: int, readyNs: int, inflight: int) {
    && before != [] && restored != [] && readyNs >= failureNs && inflight >= 0
    && ConfirmedBy(before, failureNs)
    && DistinctIds(before) && DistinctIds(restored)
    && Unchanged(before, restored)
    && forall row, kept :: row in before && row !in restored && kept in restored ==> kept.confirmedNs < row.confirmedNs
  }

  /** Both lists have events, each confirmed by the failure, none twice; the restored ones are confirmed ones
      as they were, and everything missing is later than everything restored. */
  lemma ConsistentMeans(before: seq<Row>, restored: seq<Row>, failureNs: int, readyNs: int, inflight: int)
    ensures Consistent(before, restored, failureNs, readyNs, inflight) <==>
            && |before| > 0 && |restored| > 0 && failureNs <= readyNs && 0 <= inflight
            && (forall i :: 0 <= i < |before| ==> before[i].confirmedNs <= failureNs)
            && (forall i, j :: 0 <= i < |before| && 0 <= j < |before| && before[i].eventId == before[j].eventId
                               ==> i == j)
            && (forall i, j :: 0 <= i < |restored| && 0 <= j < |restored| && restored[i].eventId == restored[j].eventId
                               ==> i == j)
            && (forall i :: 0 <= i < |restored| ==> restored[i] in before)
            && (forall i, j :: 0 <= i < |before| && 0 <= j < |restored| && before[i] !in restored ==>
                               before[i].confirmedNs > restored[j].confirmedNs)
  {
    DistinctMeans(before);
    DistinctMeans(restored);
  }

  lemma DistinctMeans(rows: seq<Row>)
    ensures DistinctIds(rows) <==>
            forall i, j :: 0 <= i < |rows| && 0 <= j < |rows| && rows[i].eventId == rows[j].eventId ==> i == j
  {
    if i, j :| 0 <= i < |rows| && 0 <= j < |rows| && rows[i].eventId == rows[j].eventId && i != j {
      var a, b := if i < j then i else j, if i < j then j else i;
      assert rows[a].eventId == rows[b].eventId;
    }
  }

  lemma LostIsTheRest(before: seq<Row>, restored: seq<Row>)
    requires DistinctIds(before) && Unchanged(before, restored)
    ensures forall row :: row in Lost(before, Ids(restored)) <==> row in before && row !in restored
  {
    forall row | row in before ensures row.eventId in Ids(restored) <==> row in restored {
      if row.eventId in Ids(restored) {
        var other :| other in restored && other.eventId == row.eventId;
        assert other in before;
      }
    }
  }

  lemma LaterThanAllRestored(before: seq<Row>, restored: seq<Row>)
    requires restored != [] && DistinctIds(before) && Unchanged(before, restored)
    ensures AllLater(Lost(before, Ids(restored)), Latest(restored)) <==>
            forall row, kept :: row in before && row !in restored && kept in restored ==>
              kept.confirmedNs < row.confirmedNs
  {
    LostIsTheRest(before, restored);
    var ns := Latest(restored);
    var last :| last in restored && last.confirmedNs == ns;
  }

  lemma LatestOfMore(before: seq<Row>, restored: seq<Row>)
    requires before != [] && restored != [] && Unchanged(before, restored)
    ensures Latest(restored) <= Latest(before)
  {
    var ns := Latest(restored);
    var last :| last in restored && last.confirmedNs == ns;
    assert last in before;
  }

  /** The measurement, check by check; its last check never fails. */
  method Measure(before: seq<Row>, restored: seq<Row>, failureNs: int, readyNs: int, inflight: int) returns (r: Report)
    ensures r.Measured? <==> Consistent(before, restored, failureNs, readyNs, inflight)
    ensures r.Measured? ==>
      && r.rpoNs == Latest(before) - Latest(restored) && r.rtoNs == readyNs - failureNs >= 0
      && r.lostEvents == |Lost(before, Ids(restored))| && r.lostBytes == Bytes(Lost(before, Ids(restored)))
      && r.latestConfirmedNs == Latest(before) && r.latestRestoredNs == Latest(restored) && r.inflightEvents == inflight
    ensures r != Refused(ClockOrder)
  {
    if before == [] || restored == [] || readyNs < failureNs { return Refused(InvalidEndpoints); }
    if inflight < 0 { return Refused(InvalidInflight); }
    var ok := CheckConfirmed(before, failureNs);
    if !ok { return Refused(ConfirmedAfterFailure); }
    if !DistinctIds(before) || !DistinctIds(restored) { return Refused(DuplicateEvent); }
    if !(Ids(restored) <= Ids(before)) {
      UnknownEvent(before, restored);
      return Refused(UnconfirmedEvent);
    }
    ok := CheckUnchanged(before, restored);
    if !ok { return Refused(ChangedEvent); }
    var lost := Lost(before, Ids(restored));
    LaterThanAllRestored(before, restored);
    ok := CheckLater(lost, Latest(restored));
    if !ok { return Refused(Holes); }
    var delta := Latest(before) - Latest(restored);
    LatestOfMore(before, restored);
    if delta < 0 { return Refused(ClockOrder); }
    return Measured(delta, readyNs - failureNs, Latest(before), Latest(restored), |lost|, Bytes(lost), inflight);
  }

  // ---------------------------------------------------------------- what a report means

  lemma {:induction false} DistinctCount(rows: seq<Row>, row: Row)
    requires DistinctIds(rows)
    ensures multiset(rows)[row] == if row in rows then 1 else 0
  {
    if rows != [] {
      var rest := rows[1..];
      assert rows == [rows[0]] + rest;
      assert forall i :: 0 <= i < |rest| ==> rest[i] == rows[i + 1];
      assert forall other :: other in rest ==> other.eventId != rows[0].eventId;
      DistinctCount(rest, row);
    }
  }

  /** Nothing is counted twice or forgotten: restored and lost together are the confirmed events. */
  lemma RestoredPlusLost(before: seq<Row>, restored: seq<Row>)
    requires DistinctIds(before) && DistinctIds(restored) && Unchanged(before, restored)
    ensures multiset(before) == multiset(restored) + multiset(Lost(before, Ids(restored)))
  {
    var lost := Lost(before, Ids(restored));
    LostIsTheRest(before, restored);
    forall row ensures multiset(before)[row] == multiset(restored)[row] + multiset(lost)[row] {
      DistinctCount(before, row);
      DistinctCount(restored, row);
      DistinctCount(lost, row);
    }
  }

  lemma {:induction false} BytesConcat(a: seq<Row>, b: seq<Row>)
    ensures Bytes(a + b) == Bytes(a) + Bytes(b)
  {
    if a == [] {
      assert a + b == b;
    } else {
      assert (a + b)[1..] == a[1..] + b;
      BytesConcat(a[1..], b);
    }
  }

  function Without(rows: seq<Row>, i: nat): (rest: seq<Row>)
    requires i < |rows|
    ensures |rest| == |rows| - 1 && multiset(rows) == multiset(rest) + multiset{rows[i]}
  {
    assert rows == rows[..i] + [rows[i]] + rows[i + 1..];
    rows[..i] + rows[i + 1..]
  }

  lemma BytesWithout(rows: seq<Row>, i: nat)
    requires i < |rows|
    ensures Bytes(rows) == rows[i].size + Bytes(Without(rows, i))
  {
    assert rows == rows[..i] + rows[i..] && rows[i..][1..] == rows[i + 1..];
    BytesConcat(rows[..i], rows[i..]);
    BytesConcat(rows[..i], rows[i + 1..]);
  }

  lemma MultisetRest(a: seq<Row>, b: seq<Row>, i: nat)
    requires multiset(a) == multiset(b) && a != [] && i < |b| && b[i] == a[0]
    ensures multiset(a[1..]) == multiset(Without(b, i))
  {
    assert a == [a[0]] + a[1..];
    var rest, only := multiset(Without(b, i)), multiset{a[0]};
    assert multiset(a) == only + multiset(a[1..]);
    assert multiset(a[1..]) == multiset(a) - only && rest == multiset(b) - only;
  }

  lemma {:induction false} BytesOfMultiset(a: seq<Row>, b: seq<Row>)
    requires multiset(a) == multiset(b)
    ensures Bytes(a) == Bytes(b)
  {
    assert |multiset(a)| == |a| && |multiset(b)| == |b|;
    if a != [] {
      assert a[0] in multiset(b);
      var i :| 0 <= i < |b| && b[i] == a[0];
      MultisetRest(a, b, i);
      BytesOfMultiset(a[1..], Without(b, i));
      BytesWithout(b, i);
    }
  }

  /** Counts and bytes are conserved; the recovery point is zero exactly when nothing was lost, and
      positive otherwise; every restored event was confirmed before every lost one. */
  lemma ReportIsExact(before: seq<Row>, restored: seq<Row>, failureNs: int, readyNs: int, inflight: int)
    requires Consistent(before, restored, failureNs, readyNs, inflight)
    ensures var lost := Lost(before, Ids(restored)); var rpo := Latest(before) - Latest(restored);
            && |restored| + |lost| == |before| && Bytes(restored) + Bytes(lost) == Bytes(before)
            && rpo >= 0 && (rpo == 0 <==> lost == [])
            && (forall kept, gone :: kept in restored && gone in lost ==> kept.confirmedNs < gone.confirmedNs)
  {
    var lost := Lost(before, Ids(restored));
    RestoredPlusLost(before, restored);
    assert multiset(restored + lost) == multiset(before);
    assert |multiset(before)| == |before| && |multiset(restored + lost)| == |restored + lost|;
    BytesOfMultiset(restored + lost, before);
    BytesConcat(restored, lost);
    LatestOfMore(before, restored);
    LostIsTheRest(before, restored);
    if lost != [] {
      assert lost[0] in lost;
      var ns := Latest(restored);
      var last :| last in restored && last.confirmedNs == ns;
    } else {
      var latest :| latest in before && latest.confirmedNs == Latest(before);
      assert latest in restored;
    }
  }
}
