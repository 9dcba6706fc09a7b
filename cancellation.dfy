/**
 * Cancellation: one transaction that marks a reservation header cancelled and
 * then, for each of its details in id order, marks the detail cancelled,
 * retires every binnacle entry of that detail, and logs one "cancelled" entry
 * stamped with the current moment. Occupancy counters and clients are not touched.
 */
module Cancellation {
  import opened Wrappers
  import opened Domain
  import opened ReservationTable
  import opened StoreState
  import opened Availability

  // The moment the "cancelled" entry records.

  /** A date and time of day as written into a timestamp column. */
  datatype DateTime = DateTime(day: Day, hour: int, minute: int)

  /** How the database reads a stored timestamp back: the hour counts from midnight. */
  function Moment(dt: DateTime): Minute
  {
    dt.day * MinutesPerDay + dt.hour * 60 + dt.minute
  }

  /** The current moment written with a 24-hour hour, as `Y-m-d H:i:s` does. */
  function Format24(t: Minute): (dt: DateTime)
    ensures 0 <= dt.hour < 24 && 0 <= dt.minute < 60
  {
    DateTime(DayOf(t), TimeOfDay(t) / 60, TimeOfDay(t) % 60)
  }

  /** The current moment written with a 12-hour hour and no meridiem, as `Y-m-d h:i:s` does. */
  function Format12(t: Minute): (dt: DateTime)
    ensures 1 <= dt.hour <= 12 && 0 <= dt.minute < 60
  {
    var hour := TimeOfDay(t) / 60;
    DateTime(DayOf(t), if hour % 12 == 0 then 12 else hour % 12, TimeOfDay(t) % 60)
  }

  /** The 24-hour stamp reads back as the moment it was taken. */
  lemma Format24RoundTrip(t: Minute)
    ensures Moment(Format24(t)) == t
  {
    var m := TimeOfDay(t);
    assert m == (m / 60) * 60 + m % 60;
  }

  /**
   * The 12-hour stamp does not: every moment from 13:00 on reads back twelve
   * hours early, every moment before 01:00 twelve hours late, and 15:30 and
   * 03:30 of the same day are recorded alike.
   */
  lemma Format12Shifts(t: Minute)
    ensures TimeOfDay(t) >= 13 * 60 ==> Moment(Format12(t)) == t - 12 * 60
    ensures TimeOfDay(t) < 60 ==> Moment(Format12(t)) == t + 12 * 60
    ensures 60 <= TimeOfDay(t) < 13 * 60 ==> Moment(Format12(t)) == t
  {
    var m := TimeOfDay(t);
    assert m == (m / 60) * 60 + m % 60;
  }

  lemma Format12Counterexample()
    ensures Moment(Format12(15 * 60 + 30)) == 3 * 60 + 30
    ensures Format12(15 * 60 + 30) == Format12(3 * 60 + 30)
    ensures Moment(Format24(15 * 60 + 30)) == 15 * 60 + 30
  {
    Format12Shifts(15 * 60 + 30);
  }

  // One detail.

  /** The "cancelled" entry logged for the detail with id `detailId`, stamped with the 24-hour moment `now`. */
  function CancelEntry(d: Detail, detailId: nat, user: nat, now: Minute): (e: Entry)
    ensures e.start == now && e.end == now && e.days == 0
    ensures e.movement == Cancelada && e.active && e.detailId == detailId && e.userId == user
    ensures e.typeServiceId == d.typeServiceId
  {
    Format24RoundTrip(now);
    var stamp := Moment(Format24(now));
    Entry(stamp, stamp, 0, detailId, Cancelada, user, d.typeServiceId, true)
  }

  /** Retiring the history of one detail: every entry of detail `detailId` becomes inactive, the others stay. */
  function Deactivate(binnacle: seq<Entry>, detailId: nat): (r: seq<Entry>)
    ensures |r| == |binnacle|
    ensures forall j :: 0 <= j < |r| ==>
      && r[j].(active := binnacle[j].active) == binnacle[j]
      && (r[j].active <==> binnacle[j].active && binnacle[j].detailId != detailId)
  {
    seq(|binnacle|, j requires 0 <= j < |binnacle| =>
      if binnacle[j].detailId == detailId then binnacle[j].(active := false) else binnacle[j])
  }

  /** The loop over the details, from id `i` on: each detail of reservation `rid` is cancelled and logged. */
  function CancelLoop(details: seq<Detail>, binnacle: seq<Entry>, rid: nat, user: nat, now: Minute, i: nat)
    : (r: (seq<Detail>, seq<Entry>))
    requires i <= |details|
    decreases |details| - i
  {
    if i == |details| then (details, binnacle)
    else if details[i].reservationId != rid then CancelLoop(details, binnacle, rid, user, now, i + 1)
    else
      CancelLoop(details[i := details[i].(status := Cancelacion)],
                 Deactivate(binnacle, i) + [CancelEntry(details[i], i, user, now)], rid, user, now, i + 1)
  }

  /** The cancellation of reservation `rid` by `user` at moment `now`; an unknown reservation is not found. */
  function Cancel(s: State, rid: nat, user: nat, now: Minute): (r: Result<State, Error>)
    ensures r.Err? <==> rid >= |s.reservations|
    ensures r.Err? ==> r.error == ReservationNotFound
    ensures r.Ok? ==>
      && r.value.rooms == s.rooms && r.value.clients == s.clients
      && r.value.municipalities == s.municipalities && r.value.users == s.users && r.value.coins == s.coins
      && |r.value.reservations| == |s.reservations|
      && r.value.reservations[rid].status == Cancelacion
  {
    if rid >= |s.reservations| then Err(ReservationNotFound)
    else
      var (details, binnacle) := CancelLoop(s.details, s.binnacle, rid, user, now, 0);
      Ok(s.(reservations := s.reservations[rid := s.reservations[rid].(status := Cancelacion)],
            details := details, binnacle := binnacle))
  }

  // The outcome in closed form.

  /** The details with ids below `i` that belong to reservation `rid` are cancelled. */
  function MarkedUpTo(details: seq<Detail>, rid: nat, i: nat): (r: seq<Detail>)
  {
    seq(|details|, j requires 0 <= j < |details| =>
      if j < i && details[j].reservationId == rid then details[j].(status := Cancelacion) else details[j])
  }

  /** Entry `e` belongs to a detail with id below `i` of reservation `rid`. */
  predicate Retired(e: Entry, details: seq<Detail>, rid: nat, i: nat)
  {
    e.detailId < i && e.detailId < |details| && details[e.detailId].reservationId == rid
  }

  /** The stored entries, with those of the details below `i` of reservation `rid` made inactive. */
  function RetiredUpTo(binnacle: seq<Entry>, details: seq<Detail>, rid: nat, i: nat): (r: seq<Entry>)
  {
    seq(|binnacle|, j requires 0 <= j < |binnacle| =>
      if Retired(binnacle[j], details, rid, i) then binnacle[j].(active := false) else binnacle[j])
  }

  /** The "cancelled" entries logged for the details below `i` of reservation `rid`, in id order. */
  function Cancellations(details: seq<Detail>, rid: nat, user: nat, now: Minute, i: nat): (r: seq<Entry>)
    requires i <= |details|
    ensures forall k :: 0 <= k < |r| ==> r[k].detailId < i
  {
    if i == 0 then []
    else Cancellations(details, rid, user, now, i - 1)
         + (if details[i - 1].reservationId == rid then [CancelEntry(details[i - 1], i - 1, user, now)] else [])
  }

  lemma DeactivateConcat(a: seq<Entry>, b: seq<Entry>, detailId: nat)
    ensures Deactivate(a + b, detailId) == Deactivate(a, detailId) + Deactivate(b, detailId)
  {
    assert forall j :: 0 <= j < |a + b| ==> Deactivate(a + b, detailId)[j] == (Deactivate(a, detailId) + Deactivate(b, detailId))[j];
  }

  /** One step of the loop in closed form: processing detail `i` extends every part of the closed form to `i + 1`. */
  lemma CancelStep(details: seq<Detail>, binnacle: seq<Entry>, rid: nat, user: nat, now: Minute, i: nat)
    requires i < |details|
    ensures var ds := MarkedUpTo(details, rid, i);
            var b := RetiredUpTo(binnacle, details, rid, i) + Cancellations(details, rid, user, now, i);
      && ds[i] == details[i]
      && (details[i].reservationId == rid ==>
            && ds[i := ds[i].(status := Cancelacion)] == MarkedUpTo(details, rid, i + 1)
            && Deactivate(b, i) + [CancelEntry(ds[i], i, user, now)]
               == RetiredUpTo(binnacle, details, rid, i + 1) + Cancellations(details, rid, user, now, i + 1))
      && (details[i].reservationId != rid ==>
            && ds == MarkedUpTo(details, rid, i + 1)
            && b == RetiredUpTo(binnacle, details, rid, i + 1) + Cancellations(details, rid, user, now, i + 1))
  {
    var ds := MarkedUpTo(details, rid, i);
    var stored := RetiredUpTo(binnacle, details, rid, i);
    var logged := Cancellations(details, rid, user, now, i);
    if details[i].reservationId == rid {
      assert ds[i := ds[i].(status := Cancelacion)] == MarkedUpTo(details, rid, i + 1);
      DeactivateConcat(stored, logged, i);
      assert Deactivate(stored, i) == RetiredUpTo(binnacle, details, rid, i + 1);
      assert Deactivate(logged, i) == logged;
    } else {
      assert ds == MarkedUpTo(details, rid, i + 1);
      assert stored == RetiredUpTo(binnacle, details, rid, i + 1);
    }
  }

  /** The loop from detail `i` on, started from the closed form at `i`, ends at the closed form for all details. */
  lemma {:induction false} CancelLoopFrom(details: seq<Detail>, binnacle: seq<Entry>, rid: nat, user: nat, now: Minute, i: nat)
    requires i <= |details|
    ensures CancelLoop(MarkedUpTo(details, rid, i),
                       RetiredUpTo(binnacle, details, rid, i) + Cancellations(details, rid, user, now, i),
                       rid, user, now, i)
         == (MarkedUpTo(details, rid, |details|),
             RetiredUpTo(binnacle, details, rid, |details|) + Cancellations(details, rid, user, now, |details|))
    decreases |details| - i
  {
    if i < |details| {
      CancelStep(details, binnacle, rid, user, now, i);
      CancelLoopFrom(details, binnacle, rid, user, now, i + 1);
    }
  }

  /**
   * Cancelling fails only for an unknown reservation. Otherwise the header is
   * cancelled, every detail of the reservation is cancelled, every entry of
   * those details is retired, one "cancelled" entry per such detail is
   * appended in id order, and rooms, clients and the other headers are untouched.
   */
  lemma CancelOutcome(s: State, rid: nat, user: nat, now: Minute)
    ensures Cancel(s, rid, user, now).Err? <==> rid >= |s.reservations|
    ensures Cancel(s, rid, user, now).Err? ==> Cancel(s, rid, user, now).error == ReservationNotFound
    ensures Cancel(s, rid, user, now).Ok? ==>
      var t := Cancel(s, rid, user, now).value;
      && t.rooms == s.rooms && t.clients == s.clients
      && t.municipalities == s.municipalities && t.users == s.users && t.coins == s.coins
      && |t.reservations| == |s.reservations|
      && t.reservations[rid] == s.reservations[rid].(status := Cancelacion)
      && (forall k :: 0 <= k < |s.reservations| && k != rid ==> t.reservations[k] == s.reservations[k])
      && t.details == MarkedUpTo(s.details, rid, |s.details|)
      && t.binnacle == RetiredUpTo(s.binnacle, s.details, rid, |s.details|)
                       + Cancellations(s.details, rid, user, now, |s.details|)
  {
    assert MarkedUpTo(s.details, rid, 0) == s.details;
    assert RetiredUpTo(s.binnacle, s.details, rid, 0) == s.binnacle;
    assert s.binnacle + Cancellations(s.details, rid, user, now, 0) == s.binnacle;
    CancelLoopFrom(s.details, s.binnacle, rid, user, now, 0);
  }

  // What the closed form means.

  /** A "cancelled" entry: active, of zero days, logged by `user` at moment `now`, for a detail of reservation `rid`. */
  predicate CancelledAt(e: Entry, details: seq<Detail>, rid: nat, user: nat, now: Minute)
  {
    && e.movement == Cancelada && e.active && e.days == 0 && e.userId == user
    && e.start == now && e.end == now
    && e.detailId < |details| && details[e.detailId].reservationId == rid
    && e.typeServiceId == details[e.detailId].typeServiceId
  }

  /** Entry `k` of the "cancelled" entries logged so far is a "cancelled" entry at `now` for a detail of the reservation. */
  lemma {:induction false} CancellationAt(details: seq<Detail>, rid: nat, user: nat, now: Minute, i: nat, k: nat)
    requires i <= |details|
    requires k < |Cancellations(details, rid, user, now, i)|
    ensures CancelledAt(Cancellations(details, rid, user, now, i)[k], details, rid, user, now)
    decreases i
  {
    var prev := Cancellations(details, rid, user, now, i - 1);
    var c := Cancellations(details, rid, user, now, i);
    assert c == prev + (if details[i - 1].reservationId == rid then [CancelEntry(details[i - 1], i - 1, user, now)] else []);
    if k < |prev| {
      CancellationAt(details, rid, user, now, i - 1, k);
      assert c[k] == prev[k];
    } else {
      Format24RoundTrip(now);
      assert c[k] == CancelEntry(details[i - 1], i - 1, user, now);
    }
  }

  /** Every detail of the reservation below `i` has a "cancelled" entry among those logged so far. */
  lemma {:induction false} CancellationFor(details: seq<Detail>, rid: nat, user: nat, now: Minute, i: nat, j: nat)
    requires i <= |details|
    requires j < i && details[j].reservationId == rid
    ensures exists k :: 0 <= k < |Cancellations(details, rid, user, now, i)|
                        && Cancellations(details, rid, user, now, i)[k].detailId == j
    decreases i
  {
    var prev := Cancellations(details, rid, user, now, i - 1);
    var c := Cancellations(details, rid, user, now, i);
    assert c == prev + (if details[i - 1].reservationId == rid then [CancelEntry(details[i - 1], i - 1, user, now)] else []);
    if j < i - 1 {
      CancellationFor(details, rid, user, now, i - 1, j);
      var k :| 0 <= k < |prev| && prev[k].detailId == j;
      assert c[k] == prev[k];
    } else {
      assert c[|prev|].detailId == j;
    }
  }

  /** The "cancelled" entries logged so far are in strictly increasing detail order. */
  lemma {:induction false} CancellationsOrdered(details: seq<Detail>, rid: nat, user: nat, now: Minute, i: nat, k: nat, m: nat)
    requires i <= |details|
    requires k < m < |Cancellations(details, rid, user, now, i)|
    ensures Cancellations(details, rid, user, now, i)[k].detailId < Cancellations(details, rid, user, now, i)[m].detailId
    decreases i
  {
    var prev := Cancellations(details, rid, user, now, i - 1);
    var c := Cancellations(details, rid, user, now, i);
    assert c == prev + (if details[i - 1].reservationId == rid then [CancelEntry(details[i - 1], i - 1, user, now)] else []);
    assert c[k] == prev[k];
    if m < |prev| {
      CancellationsOrdered(details, rid, user, now, i - 1, k, m);
      assert c[m] == prev[m];
    } else {
      assert c[m].detailId == i - 1;
    }
  }

  /**
   * The "cancelled" entries: all active, zero days, starting and ending at the
   * moment of cancellation, in strictly increasing detail order, each for a
   * detail of the reservation, and one for every such detail.
   */
  lemma CancellationsOnePerDetail(details: seq<Detail>, rid: nat, user: nat, now: Minute, i: nat)
    requires i <= |details|
    ensures var c := Cancellations(details, rid, user, now, i);
      && (forall k :: 0 <= k < |c| ==> CancelledAt(c[k], details, rid, user, now))
      && (forall k, m :: 0 <= k < m < |c| ==> c[k].detailId < c[m].detailId)
      && (forall j :: 0 <= j < i && details[j].reservationId == rid ==>
            exists k :: 0 <= k < |c| && c[k].detailId == j)
  {
    var c := Cancellations(details, rid, user, now, i);
    forall k | 0 <= k < |c| ensures CancelledAt(c[k], details, rid, user, now) {
      CancellationAt(details, rid, user, now, i, k);
    }
    forall k, m | 0 <= k < m < |c| ensures c[k].detailId < c[m].detailId {
      CancellationsOrdered(details, rid, user, now, i, k, m);
    }
    forall j | 0 <= j < i && details[j].reservationId == rid
      ensures exists k :: 0 <= k < |c| && c[k].detailId == j
    {
      CancellationFor(details, rid, user, now, i, j);
    }
  }

  /** No detail gets two "cancelled" entries from one cancellation. */
  lemma CancellationsUnique(details: seq<Detail>, rid: nat, user: nat, now: Minute, k: nat, m: nat)
    requires var c := Cancellations(details, rid, user, now, |details|);
      k < |c| && m < |c| && c[k].detailId == c[m].detailId
    ensures k == m
  {
    CancellationsOnePerDetail(details, rid, user, now, |details|);
  }

  /** The history of a detail of the reservation is retired; every other entry is left exactly as it was. */
  lemma RetiredHistory(binnacle: seq<Entry>, details: seq<Detail>, rid: nat, j: nat)
    requires j < |binnacle|
    ensures var r := RetiredUpTo(binnacle, details, rid, |details|);
      && |r| == |binnacle|
      && r[j].(active := binnacle[j].active) == binnacle[j]
      && (r[j].active <==>
            binnacle[j].active
            && !(binnacle[j].detailId < |details| && details[binnacle[j].detailId].reservationId == rid))
  {
  }

  /** After a cancellation no detail of the reservation holds its room. */
  lemma CancelledDetailsRelease(s: State, rid: nat, user: nat, now: Minute, j: nat)
    requires Cancel(s, rid, user, now).Ok?
    requires j < |s.details| && s.details[j].reservationId == rid
    ensures var t := Cancel(s, rid, user, now).value;
      j < |t.details| && t.details[j].status == Cancelacion && !Holds(t.details[j].status)
  {
    CancelOutcome(s, rid, user, now);
  }

  /** A cancellation only ever frees rooms: every room a search offered before, it still offers. */
  lemma CancelWidensSearch(s: State, rid: nat, user: nat, now: Minute, q: Query)
    requires Cancel(s, rid, user, now).Ok?
    ensures var t := Cancel(s, rid, user, now).value;
      Search(s.rooms, s.details, q) <= Search(t.rooms, t.details, q)
  {
    var t := Cancel(s, rid, user, now).value;
    CancelOutcome(s, rid, user, now);
    forall id | id in Search(s.rooms, s.details, q) ensures id in Search(t.rooms, t.details, q) {
      forall k | 0 <= k < |t.details| ensures !Blocks(t.details[k], id, WindowOf(q)) {
        assert !Blocks(s.details[k], id, WindowOf(q));
      }
    }
  }

  /**
   * After reservation `rid` is cancelled the single-room check no longer sees
   * its details: a known room is bookable exactly when it is live and no
   * detail of another reservation ties it to a holding header departing within
   * the dates.
   */
  lemma CancelClearsCheck(s: State, rid: nat, user: nat, now: Minute, departures: map<nat, Minute>,
                          roomId: nat, inicio: Day, fin: Day)
    requires Cancel(s, rid, user, now).Ok?
    requires roomId in s.rooms
    ensures var t := Cancel(s, rid, user, now).value;
      var r := CheckRoom(t.rooms, t.reservations, t.details, departures, roomId, inicio, fin);
      && (forall k :: 0 <= k < |t.details| && t.details[k].reservationId == rid ==>
            !HeaderConflict(t.reservations, departures, t.details[k], roomId, inicio, fin))
      && r.Ok?
      && (r.value.error <==>
            && !s.rooms[roomId].deleted
            && forall k :: 0 <= k < |s.details| && s.details[k].reservationId != rid ==>
                 !HeaderConflict(s.reservations, departures, s.details[k], roomId, inicio, fin))
  {
    var t := Cancel(s, rid, user, now).value;
    CancelOutcome(s, rid, user, now);
    forall k | 0 <= k < |t.details| && t.details[k].reservationId != rid
      ensures t.details[k] == s.details[k]
      ensures HeaderConflict(t.reservations, departures, t.details[k], roomId, inicio, fin)
          <==> HeaderConflict(s.reservations, departures, s.details[k], roomId, inicio, fin)
    {
    }
  }

  /** A cancellation keeps the tables consistent. */
  lemma CancelPreservesValid(s: State, rid: nat, user: nat, now: Minute)
    requires Valid(s)
    requires Cancel(s, rid, user, now).Ok?
    ensures Valid(Cancel(s, rid, user, now).value)
  {
    var t := Cancel(s, rid, user, now).value;
    CancelOutcome(s, rid, user, now);
    CancellationsOnePerDetail(s.details, rid, user, now, |s.details|);
    RewriteKeepsTableWellFormed(s.reservations, rid, t.reservations[rid]);
    assert t.reservations == s.reservations[rid := t.reservations[rid]];
    forall k | 0 <= k < |t.reservations| ensures References(CatalogOf(t), t.reservations[k]) {
      assert References(CatalogOf(s), s.reservations[k]);
    }
    assert DetailsRefer(t.details, |t.reservations|, t.rooms.Keys, |t.clients|) by {
      forall k | 0 <= k < |t.details|
        ensures t.details[k].reservationId < |t.reservations| && t.details[k].roomId in t.rooms.Keys
                && t.details[k].clientId < |t.clients|
      {
        assert t.details[k].(status := s.details[k].status) == s.details[k];
      }
    }
    assert EntriesRefer(t.binnacle, |t.details|) by {
      var retired := RetiredUpTo(s.binnacle, s.details, rid, |s.details|);
      var logged := Cancellations(s.details, rid, user, now, |s.details|);
      forall k | 0 <= k < |t.binnacle| ensures t.binnacle[k].detailId < |t.details| {
        if k < |retired| {
          assert t.binnacle[k] == retired[k];
          assert retired[k].detailId == s.binnacle[k].detailId;
        } else {
          assert t.binnacle[k] == logged[k - |retired|];
        }
      }
    }
  }

  /**
   * Cancelling is not idempotent: cancelling an already cancelled reservation
   * that has details logs a second "cancelled" entry for each of them.
   */
  lemma CancelTwice(s: State, rid: nat, user: nat, now: Minute, later: Minute)
    requires Cancel(s, rid, user, now).Ok?
    ensures var t := Cancel(s, rid, user, now).value;
      && Cancel(t, rid, user, later).Ok?
      && |Cancel(t, rid, user, later).value.binnacle|
         == |t.binnacle| + |Cancellations(s.details, rid, user, later, |s.details|)|
      && ((exists j :: 0 <= j < |s.details| && s.details[j].reservationId == rid) ==>
            |Cancel(t, rid, user, later).value.binnacle| > |t.binnacle|)
  {
    var t := Cancel(s, rid, user, now).value;
    CancelOutcome(s, rid, user, now);
    CancelOutcome(t, rid, user, later);
    SameOwners(s.details, t.details, rid, user, later, |s.details|);
    CancellationsOnePerDetail(s.details, rid, user, later, |s.details|);
  }

  /** Only the owning reservation decides how many entries are logged, so the statuses of the details do not matter. */
  lemma {:induction false} SameOwners(a: seq<Detail>, b: seq<Detail>, rid: nat, user: nat, now: Minute, i: nat)
    requires i <= |a| == |b|
    requires forall j :: 0 <= j < |a| ==> a[j].reservationId == b[j].reservationId
    ensures |Cancellations(a, rid, user, now, i)| == |Cancellations(b, rid, user, now, i)|
    decreases i
  {
    if i > 0 {
      SameOwners(a, b, rid, user, now, i - 1);
    }
  }
}
