/**
 * Room availability: the multi-room search and the single-room check.
 * Both are pure conditions over the stored reservation details (and, for the
 * single-room check, the headers they belong to).
 */
module Availability {
  import opened Wrappers
  import opened Domain
  import opened ReservationTable

  /** A search request; each field is absent when the caller sent nothing (or "null"). */
  datatype Query = Query(
    service: Option<nat>,
    inicio: Option<Day>,
    fin: Option<Day>,
    hora: Option<int>,
    cantidad: Option<int>)

  /** What a search compares bookings against. */
  datatype Window =
    | Open                          // no availability filter
    | Dates(inicio: Day, fin: Day)  // date-only: both end days, day granularity
    | At(moment: Minute)            // timed: the start moment only, minute granularity

  /** The window a query describes: dates when both days and no hour are given, a moment when the hour is given too. */
  function WindowOf(q: Query): (w: Window)
    ensures w.Open? <==> q.inicio.None? || q.fin.None?
  {
    if q.inicio.Some? && q.fin.Some? then
      if q.hora.None? then Dates(q.inicio.value, q.fin.value)
      else At(q.inicio.value * MinutesPerDay + q.hora.value)
    else Open
  }

  /** `day` lies between the arrival date and the departure date of `d`, both included. */
  predicate CoversDay(d: Detail, day: Day)
  {
    DayOf(d.arrival) <= day <= DayOf(d.departure)
  }

  /** `t` lies between the arrival and the departure of `d`, both included. */
  predicate CoversMinute(d: Detail, t: Minute)
  {
    d.arrival <= t <= d.departure
  }

  /** Detail `d` keeps room `roomId` out of a search over window `w`. */
  predicate Blocks(d: Detail, roomId: nat, w: Window)
  {
    && d.roomId == roomId
    && Holds(d.status)
    && match w
       case Open => false
       case Dates(inicio, fin) => CoversDay(d, inicio) || CoversDay(d, fin)
       case At(t) => CoversMinute(d, t)
  }

  /** No stored detail keeps room `roomId` out of window `w`. */
  predicate Free(details: seq<Detail>, roomId: nat, w: Window)
  {
    forall k :: 0 <= k < |details| ==> !Blocks(details[k], roomId, w)
  }

  /** The service filter: a missing (or zero) service id keeps every room. */
  predicate OffersService(room: Room, service: Option<nat>)
  {
    service.None? || service.value == 0 || room.typeServiceId == service.value
  }

  /** The ids of the rooms the multi-room search returns. No capacity filter applies. */
  function Search(rooms: map<nat, Room>, details: seq<Detail>, q: Query): (r: set<nat>)
    ensures r <= rooms.Keys
  {
    set id | id in rooms && !rooms[id].deleted && OffersService(rooms[id], q.service)
                         && Free(details, id, WindowOf(q))
  }

  /**
   * Date-only search: a live room offering the service is left out exactly
   * when a detail on it, in a holding status, has `inicio` or `fin` within its
   * dates, both ends included.
   */
  lemma DateSearch(rooms: map<nat, Room>, details: seq<Detail>, q: Query, id: nat)
    requires q.inicio.Some? && q.fin.Some? && q.hora.None?
    ensures id in Search(rooms, details, q) <==>
      && id in rooms && !rooms[id].deleted && OffersService(rooms[id], q.service)
      && !exists k :: 0 <= k < |details| && details[k].roomId == id && Holds(details[k].status)
           && (|| DayOf(details[k].arrival) <= q.inicio.value <= DayOf(details[k].departure)
               || DayOf(details[k].arrival) <= q.fin.value <= DayOf(details[k].departure))
  {
  }

  /**
   * Timed search: only the moment `inicio hora` is compared, at minute
   * granularity, against arrival and departure; `fin` plays no part.
   */
  lemma TimedSearch(rooms: map<nat, Room>, details: seq<Detail>, q: Query, otherFin: Day, id: nat)
    requires q.inicio.Some? && q.fin.Some? && q.hora.Some?
    ensures Search(rooms, details, q) == Search(rooms, details, q.(fin := Some(otherFin)))
    ensures id in Search(rooms, details, q) <==>
      && id in rooms && !rooms[id].deleted && OffersService(rooms[id], q.service)
      && !exists k :: 0 <= k < |details| && details[k].roomId == id && Holds(details[k].status)
           && details[k].arrival <= q.inicio.value * MinutesPerDay + q.hora.value <= details[k].departure
  {
  }

  /** Without both days, no availability filter applies: every live room offering the service is returned. */
  lemma OpenSearch(rooms: map<nat, Room>, details: seq<Detail>, q: Query)
    requires q.inicio.None? || q.fin.None?
    ensures Search(rooms, details, q)
         == set id | id in rooms && !rooms[id].deleted && OffersService(rooms[id], q.service)
  {
  }

  /** The details in a holding status, in order. */
  function Holding(details: seq<Detail>): (r: seq<Detail>)
    ensures |r| <= |details|
    ensures forall k :: 0 <= k < |r| ==> Holds(r[k].status)
  {
    if details == [] then []
    else (if Holds(details[0].status) then [details[0]] else []) + Holding(details[1..])
  }

  lemma FreeCons(details: seq<Detail>, roomId: nat, w: Window)
    requires details != []
    ensures Free(details, roomId, w) <==> !Blocks(details[0], roomId, w) && Free(details[1..], roomId, w)
  {
    if !Blocks(details[0], roomId, w) && Free(details[1..], roomId, w) {
      forall k | 0 <= k < |details| ensures !Blocks(details[k], roomId, w) {
        if k > 0 {
          assert details[k] == details[1..][k - 1];
        }
      }
    }
  }

  lemma FreeConcat(a: seq<Detail>, b: seq<Detail>, roomId: nat, w: Window)
    ensures Free(a + b, roomId, w) <==> Free(a, roomId, w) && Free(b, roomId, w)
  {
    if Free(a, roomId, w) && Free(b, roomId, w) {
      forall k | 0 <= k < |a + b| ensures !Blocks((a + b)[k], roomId, w) {
        if k >= |a| {
          assert (a + b)[k] == b[k - |a|];
        }
      }
    }
    if Free(a + b, roomId, w) {
      forall k | 0 <= k < |a| ensures !Blocks(a[k], roomId, w) {
        assert (a + b)[k] == a[k];
      }
      forall k | 0 <= k < |b| ensures !Blocks(b[k], roomId, w) {
        assert (a + b)[|a| + k] == b[k];
      }
    }
  }

  lemma {:induction false} FreeOfHolding(details: seq<Detail>, roomId: nat, w: Window)
    ensures Free(Holding(details), roomId, w) <==> Free(details, roomId, w)
  {
    if details != [] {
      FreeOfHolding(details[1..], roomId, w);
      FreeCons(details, roomId, w);
      var head := if Holds(details[0].status) then [details[0]] else [];
      FreeConcat(head, Holding(details[1..]), roomId, w);
    }
  }

  /** Details in any status other than pending, in process or confirmed never block a room. */
  lemma OnlyHoldingDetailsBlock(rooms: map<nat, Room>, details: seq<Detail>, q: Query)
    ensures Search(rooms, details, q) == Search(rooms, Holding(details), q)
  {
    forall id | id in rooms ensures Free(details, id, WindowOf(q)) <==> Free(Holding(details), id, WindowOf(q)) {
      FreeOfHolding(details, id, WindowOf(q));
    }
  }

  /** Storing more details can only take rooms out of a search, never add them. */
  lemma MoreDetailsFewerRooms(rooms: map<nat, Room>, details: seq<Detail>, more: seq<Detail>, q: Query)
    ensures Search(rooms, details + more, q) <= Search(rooms, details, q)
  {
    forall id | id in Search(rooms, details + more, q) ensures id in Search(rooms, details, q) {
      FreeConcat(details, more, id, WindowOf(q));
    }
  }

  /**
   * The date-only test is endpoint containment, not interval overlap: a booking
   * lying strictly inside the requested dates does not block its room.
   */
  lemma ContainmentGap(d: Detail, inicio: Day, fin: Day)
    requires inicio < DayOf(d.arrival) && DayOf(d.departure) < fin
    ensures !Blocks(d, d.roomId, Dates(inicio, fin))
    ensures DayOf(d.arrival) <= DayOf(d.departure) ==>
              exists day :: inicio <= day <= fin && CoversDay(d, day)
  {
    if DayOf(d.arrival) <= DayOf(d.departure) {
      assert inicio <= DayOf(d.arrival) <= fin && CoversDay(d, DayOf(d.arrival));
    }
  }

  /** A stored detail in a holding status, on room 101, from day 10 to day 15. */
  function SampleStay(): Detail
  {
    Detail(10 * MinutesPerDay + 600, 15 * MinutesPerDay + 600, 5, 0, "code", 10000, 50000, false,
           None, None, 0, 101, 1, 0, 1, Confirmado)
  }

  /**
   * A stay from day 10 to day 15 keeps its room out of the dates 12..20 (the
   * start falls inside) but not out of 20..25, nor out of 5..20, which contains
   * the whole stay.
   */
  lemma SampleSearches()
    ensures var rooms := map[101 := Room(1, 2, 0, false)];
      && 101 !in Search(rooms, [SampleStay()], Query(None, Some(12), Some(20), None, None))
      && 101 in Search(rooms, [SampleStay()], Query(None, Some(20), Some(25), None, None))
      && 101 in Search(rooms, [SampleStay()], Query(None, Some(5), Some(20), None, None))
  {
    var rooms := map[101 := Room(1, 2, 0, false)];
    assert DayOf(SampleStay().arrival) == 10 && DayOf(SampleStay().departure) == 15;
    assert Blocks([SampleStay()][0], 101, Dates(12, 20));
    assert !Free([SampleStay()], 101, Dates(12, 20));
    assert Free([SampleStay()], 101, Dates(20, 25));
    assert Free([SampleStay()], 101, Dates(5, 20));
  }

  // The single-room check.

  /** The answer of the single-room check; its `error` flag is true when the room CAN be booked. */
  datatype Answer = Answer(mensaje: string, error: bool)

  const Reservable: string := "Si puede reservar."
  const NotReservable: string := "No, no puede reservar"

  /**
   * Detail `d` ties room `roomId` to a header in a holding status whose
   * departure date falls within `inicio..fin`. The reservations table declares
   * no departure date, so it is given separately, per header id.
   */
  predicate HeaderConflict(reservations: seq<Reservation>, departures: map<nat, Minute>,
                           d: Detail, roomId: nat, inicio: Day, fin: Day)
  {
    && d.roomId == roomId
    && d.reservationId < |reservations|
    && Holds(reservations[d.reservationId].status)
    && d.reservationId in departures
    && inicio <= DayOf(departures[d.reservationId]) <= fin
  }

  /** Whether room `roomId` can be booked from `inicio` to `fin`; an unknown room is not found. */
  function CheckRoom(rooms: map<nat, Room>, reservations: seq<Reservation>, details: seq<Detail>,
                     departures: map<nat, Minute>, roomId: nat, inicio: Day, fin: Day): (r: Result<Answer, Error>)
    ensures r.Err? <==> roomId !in rooms
    ensures r.Ok? ==> (r.value.mensaje == Reservable <==> r.value.error)
    ensures r.Ok? ==> (r.value.error <==>
      && !rooms[roomId].deleted
      && forall k :: 0 <= k < |details| ==>
           !HeaderConflict(reservations, departures, details[k], roomId, inicio, fin))
  {
    if roomId !in rooms then Err(RoomNotFound(roomId))
    else
      var reservable := !rooms[roomId].deleted && forall k :: 0 <= k < |details| ==>
                          !HeaderConflict(reservations, departures, details[k], roomId, inicio, fin);
      Ok(Answer(if reservable then Reservable else NotReservable, reservable))
  }

  /**
   * The single-room check reads only which room and which header each detail
   * belongs to: two detail lists that agree on those give the same answer,
   * whatever their dates, statuses or prices.
   */
  lemma CheckReadsOnlyOwners(rooms: map<nat, Room>, reservations: seq<Reservation>, details: seq<Detail>,
                             others: seq<Detail>, departures: map<nat, Minute>, roomId: nat, inicio: Day, fin: Day)
    requires |others| == |details|
    requires forall k :: 0 <= k < |details| ==>
      others[k].roomId == details[k].roomId && others[k].reservationId == details[k].reservationId
    ensures CheckRoom(rooms, reservations, details, departures, roomId, inicio, fin)
         == CheckRoom(rooms, reservations, others, departures, roomId, inicio, fin)
  {
    forall k | 0 <= k < |details|
      ensures HeaderConflict(reservations, departures, details[k], roomId, inicio, fin)
          <==> HeaderConflict(reservations, departures, others[k], roomId, inicio, fin)
    {
    }
  }

  /**
   * The single-room check is a different rule from the search: a header whose
   * departure date lies outside the requested dates does not stop it, even when
   * the search leaves the room out for the same stay.
   */
  lemma ChecksDisagree()
    ensures var rooms := map[101 := Room(1, 2, 0, false)];
            var headers := [Reservation("R-0001", "CF", "Ana", None, false, None, true, 50000, 50000, 0,
                                        0, 1, 1, Confirmado, Clock(0, 2024))];
            var departures := map[0 := 15 * MinutesPerDay + 600];
      && 101 !in Search(rooms, [SampleStay()], Query(None, Some(12), Some(14), None, None))
      && CheckRoom(rooms, headers, [SampleStay()], departures, 101, 12, 14) == Ok(Answer(Reservable, true))
  {
    var headers := [Reservation("R-0001", "CF", "Ana", None, false, None, true, 50000, 50000, 0,
                                0, 1, 1, Confirmado, Clock(0, 2024))];
    var departures := map[0 := 15 * MinutesPerDay + 600];
    assert DayOf(SampleStay().arrival) == 10 && DayOf(SampleStay().departure) == 15;
    assert Blocks([SampleStay()][0], 101, Dates(12, 14));
    assert !Free([SampleStay()], 101, Dates(12, 14));
    assert DayOf(departures[0]) == 15;
    assert !HeaderConflict(headers, departures, SampleStay(), 101, 12, 14);
  }
}
