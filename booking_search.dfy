/**
 * How a booking shows up in the availability search, and one worked booking.
 */
module BookingSearch {
  import opened Wrappers
  import opened Domain
  import opened ReservationTable
  import opened StoreState
  import opened Availability
  import opened Booking

  /**
   * After a date-only booking, a date-only search whose first or last day falls
   * within the stay no longer offers any of the booked rooms.
   */
  lemma BookedStayBlocksSearch(s: State, req: Request, user: nat, clock: Clock, genCode: nat -> string,
                               k: nat, q: Query)
    requires Book(s, req, user, clock, genCode).Ok?
    requires k < |req.lines|
    requires req.hora.None? && q.hora.None? && q.inicio.Some? && q.fin.Some?
    requires req.arrivalDay <= q.inicio.value <= req.departureDay || req.arrivalDay <= q.fin.value <= req.departureDay
    ensures var t := Book(s, req, user, clock, genCode).value.state;
      req.lines[k].roomId !in Search(t.rooms, t.details, q)
  {
    var t := Book(s, req, user, clock, genCode).value.state;
    BookedLines(s, req, user, clock, genCode);
    var d := t.details[|s.details| + k];
    assert Blocks(d, req.lines[k].roomId, WindowOf(q));
    assert !Free(t.details, req.lines[k].roomId, WindowOf(q));
  }

  /**
   * After a timed booking, a timed search on its arrival date at any minute from
   * the booked hour to the end of a line's duration no longer offers that line's room.
   */
  lemma BookedSlotBlocksSearch(s: State, req: Request, user: nat, clock: Clock, genCode: nat -> string,
                               k: nat, q: Query)
    requires Book(s, req, user, clock, genCode).Ok?
    requires k < |req.lines|
    requires req.hora.Some? && q.inicio == Some(req.arrivalDay) && q.fin.Some? && q.hora.Some?
    requires req.hora.value <= q.hora.value <= req.hora.value + req.lines[k].minutos
    ensures var t := Book(s, req, user, clock, genCode).value.state;
      req.lines[k].roomId !in Search(t.rooms, t.details, q)
  {
    var t := Book(s, req, user, clock, genCode).value.state;
    BookedLines(s, req, user, clock, genCode);
    var d := t.details[|s.details| + k];
    assert Blocks(d, req.lines[k].roomId, WindowOf(q));
    assert !Free(t.details, req.lines[k].roomId, WindowOf(q));
  }

  /** An empty hotel with rooms 101 and 102 (one service), one municipality, user 7 and coin 1. */
  function EmptyHotel(): State
  {
    State(map[101 := Room(1, 2, 0, false), 102 := Room(1, 4, 0, false)],
          map[1 := Municipality(1, "Guatemala, Guatemala")],
          {7}, {1}, [], [], [], [])
  }

  /** Three nights, days 10 to 13, in rooms 101 at 100.00 and 102 at 150.00, without a quantity. */
  function ThreeNights(): Request
  {
    Request(1, "1234567", Some("Ana"), None, Some(false), Some("zona 1"), Some(false), None, 1, 10, 13,
            None, None,
            [Line(101, 10000, 0, None, None), Line(102, 15000, 0, None, None)])
  }

  /**
   * Booking three nights in two rooms of the empty hotel stores a pending
   * header for a new client with total 750.00, two three-night details and two
   * "scheduled" entries, and leaves the occupancy counters alone.
   */
  lemma ThreeNightsBooking()
    ensures var clock := Clock(10 * MinutesPerDay + 600, 2021);
      var r := Book(EmptyHotel(), ThreeNights(), 7, clock, n => "R-2021-1");
      && r.Ok?
      && var t := r.value.state;
      && t.clients == [Client("1234567", Some("Ana"), None, Some(false), Some("zona 1"), 1, 1)]
      && |t.reservations| == 1
      && t.reservations[0].total == 75000 && t.reservations[0].totalReservation == 75000
      && t.reservations[0].code == "R-2021-1" && t.reservations[0].status == Pendiente
      && |t.details| == 2 && t.details[0].accommodation == 3 && t.details[1].sub == 45000
      && |t.binnacle| == 2 && t.binnacle[1].movement == Programada && t.binnacle[1].detailId == 1
      && t.rooms == EmptyHotel().rooms
  {
  }
}
