/**
 * Booking: one transaction that numbers the reservation, resolves its client,
 * stores the header, then, line by line and in request order, stores a detail,
 * bumps the room's occupancy counter when a quantity was requested, and logs a
 * "scheduled" binnacle entry; at the end it writes the total when it is positive.
 * Any failure leaves every table as it was.
 */
module Booking {
  import opened Wrappers
  import opened Domain
  import opened ReservationTable
  import opened Clients
  import opened StoreState

  /** One detail line of a booking request. */
  datatype Line = Line(
    roomId: nat,
    price: int,
    minutos: int,
    description: Option<string>,
    email: Option<string>)

  /**
   * A booking request: the header fields, the client's profile, the shared
   * dates (and hour of day, for a timed booking), the optional quantity and the lines.
   */
  datatype Request = Request(
    municipalityId: nat,
    nit: string,
    name: Option<string>,
    email: Option<string>,
    business: Option<bool>,
    ubication: Option<string>,
    event: Option<bool>,
    responsable: Option<string>,
    coinId: nat,
    arrivalDay: Day,
    departureDay: Day,
    hora: Option<int>,
    cantidad: Option<int>,
    lines: seq<Line>)

  /** The `days` value every "scheduled" binnacle entry carries. */
  const ScheduledDays: int := 60
  const AuthorizationCode: string := "code"

  /** Whole days between two timestamps, in either order. */
  function DaysBetween(a: Minute, b: Minute): (n: nat)
    ensures n * MinutesPerDay <= (if a <= b then b - a else a - b) < (n + 1) * MinutesPerDay
  {
    if a <= b then (b - a) / MinutesPerDay else (a - b) / MinutesPerDay
  }

  /** Two timestamps at the same time of day lie exactly as many whole days apart as their dates. */
  lemma DaysBetweenDates(a: Day, b: Day, t: int)
    requires 0 <= t < MinutesPerDay
    ensures DaysBetween(a * MinutesPerDay + t, b * MinutesPerDay + t) == if a <= b then b - a else a - b
  {
    var n := DaysBetween(a * MinutesPerDay + t, b * MinutesPerDay + t);
    var diff := if a <= b then b - a else a - b;
    assert (if a <= b then (b * MinutesPerDay + t) - (a * MinutesPerDay + t)
            else (a * MinutesPerDay + t) - (b * MinutesPerDay + t)) == diff * MinutesPerDay;
    assert n * MinutesPerDay <= diff * MinutesPerDay < (n + 1) * MinutesPerDay;
  }

  /** The quantity each line is multiplied by when it has no accommodation count. */
  function Multiplier(cantidad: Option<int>): int
  {
    cantidad.GetOr(1)
  }

  /** A line's subtotal: nights times price, or, with no nights, the quantity times price. */
  function LineSub(accommodation: int, multiplier: int, price: int): int
  {
    if accommodation == 0 then multiplier * price else accommodation * price
  }

  /** What every line of one booking shares. */
  datatype Context = Context(
    reservationId: nat,
    coinId: nat,
    user: nat,
    event: bool,
    nit: string,
    name: Option<string>,
    timed: bool,
    start: Minute,
    end: Minute,
    accommodation: int,
    cantidad: Option<int>)

  /**
   * The shared arrival, departure and accommodation count. A date-only booking
   * takes the current time of day on both dates; a timed booking starts (and,
   * before each line's minutes are added, ends) at `hora` on the arrival date.
   */
  function ContextFor(req: Request, id: nat, header: Reservation, user: nat, clock: Clock): (ctx: Context)
    ensures req.hora.None? ==>
      && !ctx.timed
      && ctx.accommodation == (if req.arrivalDay <= req.departureDay then req.departureDay - req.arrivalDay
                               else req.arrivalDay - req.departureDay)
      && DayOf(ctx.start) == req.arrivalDay && DayOf(ctx.end) == req.departureDay
    ensures req.hora.Some? ==>
      && ctx.timed && ctx.accommodation == 0
      && ctx.start == ctx.end == req.arrivalDay * MinutesPerDay + req.hora.value
  {
    var timed := req.hora.Some?;
    var now := TimeOfDay(clock.stamp);
    var start := if timed then req.arrivalDay * MinutesPerDay + req.hora.value
                 else req.arrivalDay * MinutesPerDay + now;
    var end := if timed then start else req.departureDay * MinutesPerDay + now;
    if !timed then
      DaysBetweenDates(req.arrivalDay, req.departureDay, now);
      assert DayOf(start) == req.arrivalDay && DayOf(end) == req.departureDay;
      Context(id, header.coinId, user, header.event, req.nit, req.name, timed, start, end,
              DaysBetween(start, end), req.cantidad)
    else
      Context(id, header.coinId, user, header.event, req.nit, req.name, timed, start, end, 0, req.cantidad)
  }

  /** The detail stored for `line`. */
  function MakeDetail(ctx: Context, line: Line, clientId: nat, guest: Option<string>, typeServiceId: nat): (d: Detail)
    ensures d.reservationId == ctx.reservationId && d.roomId == line.roomId && d.clientId == clientId
    ensures d.status == Pendiente && d.price == line.price && d.arrival == ctx.start
    ensures d.sub == (if ctx.accommodation != 0 then ctx.accommodation else ctx.cantidad.GetOr(1)) * line.price
  {
    Detail(
      ctx.start,
      if ctx.timed then ctx.end + line.minutos else ctx.end,
      ctx.accommodation,
      ctx.cantidad.GetOr(0),
      AuthorizationCode,
      line.price,
      LineSub(ctx.accommodation, Multiplier(ctx.cantidad), line.price),
      false,
      guest,
      line.description,
      ctx.reservationId,
      line.roomId,
      ctx.coinId,
      clientId,
      typeServiceId,
      Pendiente)
  }

  /** The "scheduled" binnacle entry logged for the detail with id `detailId`. */
  function ScheduledEntry(d: Detail, detailId: nat, user: nat): Entry
  {
    Entry(d.arrival, d.departure, ScheduledDays, detailId, Programada, user, d.typeServiceId, true)
  }

  /** The profile an event line resolves its client with. */
  function EventClient(ctx: Context, line: Line): Client
  {
    Client(ctx.nit, ctx.name, line.email, Some(false), None, 1, 1)
  }

  /** The tables the line loop writes, the client it books for, and the running total. */
  datatype Progress = Progress(
    clients: seq<Client>,
    clientId: nat,
    rooms: map<nat, Room>,
    details: seq<Detail>,
    binnacle: seq<Entry>,
    total: int)

  /** One iteration of the line loop. */
  function BookLine(ctx: Context, p: Progress, line: Line): (r: Result<Progress, Error>)
    requires p.clientId < |p.clients|
    ensures r.Ok? ==> r.value.clientId < |r.value.clients|
  {
    var (clients, clientId) :=
      if ctx.event then FindOrCreate(p.clients, ctx.nit, EventClient(ctx, line))
      else (p.clients, p.clientId);
    if line.roomId !in p.rooms then Err(RoomNotFound(line.roomId))
    else
      var room := p.rooms[line.roomId];
      var d := MakeDetail(ctx, line, clientId, clients[clientId].name, room.typeServiceId);
      var rooms := if ctx.cantidad.Some? then p.rooms[line.roomId := room.(resta := room.resta + ctx.cantidad.value)]
                   else p.rooms;
      Ok(Progress(clients, clientId, rooms, p.details + [d],
                  p.binnacle + [ScheduledEntry(d, |p.details|, ctx.user)], p.total + d.sub))
  }

  /** The line loop over `lines`, in order, stopping at the first failure. */
  function BookLines(ctx: Context, p: Progress, lines: seq<Line>): (r: Result<Progress, Error>)
    requires p.clientId < |p.clients|
    ensures r.Ok? ==> r.value.clientId < |r.value.clients|
    decreases |lines|
  {
    if lines == [] then Ok(p)
    else
      match BookLine(ctx, p, lines[0])
      case Err(e) => Err(e)
      case Ok(next) => BookLines(ctx, next, lines[1..])
  }

  /** The loop books for a client already resolved: in an event, the nit resolves to that client. */
  predicate Resolved(ctx: Context, p: Progress)
  {
    p.clientId < |p.clients| && (ctx.event ==> FindClient(p.clients, ctx.nit) == Some(p.clientId))
  }

  /** How many of `lines` book room `roomId`. */
  function Visits(lines: seq<Line>, roomId: nat): (n: nat)
    ensures n <= |lines|
  {
    if lines == [] then 0 else (if lines[0].roomId == roomId then 1 else 0) + Visits(lines[1..], roomId)
  }

  /** The sum of the line subtotals of a booking. */
  function SumSubs(ctx: Context, lines: seq<Line>): int
  {
    if lines == [] then 0
    else LineSub(ctx.accommodation, Multiplier(ctx.cantidad), lines[0].price) + SumSubs(ctx, lines[1..])
  }

  /** How much one line adds to its room's occupancy counter. */
  function Bump(cantidad: Option<int>): int
  {
    if cantidad.Some? then cantidad.value else 0
  }

  predicate RoomsKnown(rooms: map<nat, Room>, lines: seq<Line>)
  {
    forall k :: 0 <= k < |lines| ==> lines[k].roomId in rooms
  }

  /** One line, for a resolved client: fails only for an unknown room, and otherwise appends one detail and one entry. */
  lemma BookLineStep(ctx: Context, p: Progress, line: Line)
    requires Resolved(ctx, p)
    ensures BookLine(ctx, p, line).Ok? <==> line.roomId in p.rooms
    ensures BookLine(ctx, p, line).Ok? ==>
      var q := BookLine(ctx, p, line).value;
      var d := MakeDetail(ctx, line, p.clientId, p.clients[p.clientId].name, p.rooms[line.roomId].typeServiceId);
      && q.clients == p.clients && q.clientId == p.clientId
      && q.details == p.details + [d]
      && q.binnacle == p.binnacle + [ScheduledEntry(d, |p.details|, ctx.user)]
      && q.total == p.total + d.sub
      && q.rooms.Keys == p.rooms.Keys
      && (forall id :: id in p.rooms ==>
            q.rooms[id] == p.rooms[id].(resta := p.rooms[id].resta + (if id == line.roomId then Bump(ctx.cantidad) else 0)))
  {
  }

  /** The line loop succeeds exactly when every line names a known room; it never changes the client. */
  lemma {:induction false} LinesOutcome(ctx: Context, p: Progress, lines: seq<Line>)
    requires Resolved(ctx, p)
    ensures BookLines(ctx, p, lines).Ok? <==> RoomsKnown(p.rooms, lines)
    ensures BookLines(ctx, p, lines).Err? ==> BookLines(ctx, p, lines).error.RoomNotFound?
    ensures BookLines(ctx, p, lines).Ok? ==>
      var q := BookLines(ctx, p, lines).value;
      && q.clients == p.clients && q.clientId == p.clientId
      && q.total == p.total + SumSubs(ctx, lines)
      && q.rooms.Keys == p.rooms.Keys
    decreases |lines|
  {
    if lines != [] {
      BookLineStep(ctx, p, lines[0]);
      if lines[0].roomId in p.rooms {
        var next := BookLine(ctx, p, lines[0]).value;
        LinesOutcome(ctx, next, lines[1..]);
        if RoomsKnown(p.rooms, lines) {
          forall k | 0 <= k < |lines[1..]| ensures lines[1..][k].roomId in next.rooms {
            assert lines[1..][k] == lines[k + 1];
          }
        }
        if RoomsKnown(next.rooms, lines[1..]) {
          forall k | 0 <= k < |lines| ensures lines[k].roomId in p.rooms {
            if k > 0 { assert lines[k] == lines[1..][k - 1]; }
          }
        }
      } else {
        assert !RoomsKnown(p.rooms, lines);
      }
    }
  }

  /** What the lines add to room `roomId`'s occupancy counter: the quantity, once per line on that room. */
  function Added(lines: seq<Line>, roomId: nat, cantidad: Option<int>): int
  {
    if lines == [] then 0
    else (if lines[0].roomId == roomId then Bump(cantidad) else 0) + Added(lines[1..], roomId, cantidad)
  }

  lemma {:induction false} AddedIsQuantityTimesVisits(lines: seq<Line>, roomId: nat, cantidad: Option<int>)
    ensures Added(lines, roomId, cantidad) == Bump(cantidad) * Visits(lines, roomId)
    decreases |lines|
  {
    if lines != [] {
      AddedIsQuantityTimesVisits(lines[1..], roomId, cantidad);
    }
  }

  /** Each line of a successful loop adds the requested quantity to its room's counter, and only then. */
  lemma {:induction false} LinesRooms(ctx: Context, p: Progress, lines: seq<Line>)
    requires Resolved(ctx, p)
    requires BookLines(ctx, p, lines).Ok?
    ensures var q := BookLines(ctx, p, lines).value;
      forall id :: id in p.rooms ==>
        id in q.rooms && q.rooms[id] == p.rooms[id].(resta := p.rooms[id].resta + Added(lines, id, ctx.cantidad))
    decreases |lines|
  {
    if lines != [] {
      BookLineStep(ctx, p, lines[0]);
      var next := BookLine(ctx, p, lines[0]).value;
      LinesRooms(ctx, next, lines[1..]);
    }
  }

  /**
   * `q` extends `p` by, in request order, the detail for each line and the
   * "scheduled" entry copying its arrival and departure.
   */
  predicate RowsAppended(ctx: Context, p: Progress, lines: seq<Line>, q: Progress)
    requires p.clientId < |p.clients|
  {
    && |q.details| == |p.details| + |lines| && q.details[..|p.details|] == p.details
    && |q.binnacle| == |p.binnacle| + |lines| && q.binnacle[..|p.binnacle|] == p.binnacle
    && (forall k :: 0 <= k < |lines| ==>
          && lines[k].roomId in p.rooms
          && q.details[|p.details| + k]
             == MakeDetail(ctx, lines[k], p.clientId, p.clients[p.clientId].name,
                           p.rooms[lines[k].roomId].typeServiceId)
          && q.binnacle[|p.binnacle| + k] == ScheduledEntry(q.details[|p.details| + k], |p.details| + k, ctx.user))
  }

  /**
   * The line loop appends, in request order, one detail per line and one
   * "scheduled" entry per detail copying its arrival and departure.
   */
  lemma {:induction false} LinesRows(ctx: Context, p: Progress, lines: seq<Line>)
    requires Resolved(ctx, p)
    requires BookLines(ctx, p, lines).Ok?
    ensures RowsAppended(ctx, p, lines, BookLines(ctx, p, lines).value)
    decreases |lines|
  {
    if lines != [] {
      BookLineStep(ctx, p, lines[0]);
      var next := BookLine(ctx, p, lines[0]).value;
      LinesOutcome(ctx, next, lines[1..]);
      LinesRows(ctx, next, lines[1..]);
      var q := BookLines(ctx, p, lines).value;
      assert q == BookLines(ctx, next, lines[1..]).value;
      assert |next.details| == |p.details| + 1 && |next.binnacle| == |p.binnacle| + 1;
      assert q.details[..|p.details|] == next.details[..|next.details|][..|p.details|];
      assert q.binnacle[..|p.binnacle|] == next.binnacle[..|next.binnacle|][..|p.binnacle|];
      forall k | 0 <= k < |lines|
        ensures && lines[k].roomId in p.rooms
                && q.details[|p.details| + k]
                   == MakeDetail(ctx, lines[k], p.clientId, p.clients[p.clientId].name,
                                 p.rooms[lines[k].roomId].typeServiceId)
                && q.binnacle[|p.binnacle| + k] == ScheduledEntry(q.details[|p.details| + k], |p.details| + k, ctx.user)
      {
        if k == 0 {
          assert q.details[|p.details|] == next.details[|p.details|];
          assert q.binnacle[|p.binnacle|] == next.binnacle[|p.binnacle|];
        } else {
          assert lines[k] == lines[1..][k - 1];
          assert q.details[|p.details| + k] == q.details[|next.details| + (k - 1)];
          assert q.binnacle[|p.binnacle| + k] == q.binnacle[|next.binnacle| + (k - 1)];
        }
      }
      assert RowsAppended(ctx, p, lines, q);
    }
  }

  // The whole booking.

  /** The profile the header's client is created with when its fiscal id is new. */
  function HeaderClient(req: Request, mun: Municipality): Client
  {
    Client(req.nit, req.name, req.email, req.business, req.ubication, mun.departamentId, req.municipalityId)
  }

  /** The clients table after resolving the header's client, and that client's id. */
  function ResolveHeaderClient(s: State, req: Request): (r: (seq<Client>, nat))
    requires req.municipalityId in s.municipalities
    ensures r.1 < |r.0| && r.0[r.1].nit == req.nit && FindClient(r.0, req.nit) == Some(r.1)
  {
    FoundAfterResolving(s.clients, req.nit, HeaderClient(req, s.municipalities[req.municipalityId]));
    FindOrCreate(s.clients, req.nit, HeaderClient(req, s.municipalities[req.municipalityId]))
  }

  /**
   * The header the booking inserts: the generated code, the client's nit and
   * name, the municipality's full name joined to the client's location, zero
   * totals, `reserva` set, a responsible person only for an event, and the
   * pending status.
   */
  function HeaderRow(req: Request, code: string, client: Client, clientId: nat, mun: Municipality,
                     user: nat, clock: Clock): (n: NewReservation)
    ensures Complete(n) <==> client.name.Some?
    ensures n.status == Some(Pendiente) && n.total == Some(0) && n.clientId == Some(clientId)
    ensures n.responsable.Some? ==> req.event == Some(true)
  {
    NewReservation(
      Some(code),
      Some(client.nit),
      client.name,
      Some(mun.fullName + ", " + client.ubication.GetOr("")),
      req.event,
      if req.event == Some(true) then req.responsable else None,
      Some(true),
      Some(0),
      Some(0),
      Some(0),
      Some(clientId),
      Some(user),
      Some(req.coinId),
      Some(Pendiente),
      clock)
  }

  /** Inserting the header, numbered with this year's next sequence number. */
  function HeaderInsert(s: State, req: Request, user: nat, clock: Clock, genCode: nat -> string): Result<Reservation, Error>
    requires req.municipalityId in s.municipalities
  {
    var (clients, clientId) := ResolveHeaderClient(s, req);
    Insert(s.reservations, Catalog(|clients|, s.users, s.coins),
           HeaderRow(req, genCode(NextSequence(s.reservations, clock.year)), clients[clientId], clientId,
                     s.municipalities[req.municipalityId], user, clock))
  }

  /** Where the line loop starts: the resolved client, the stored tables and a zero total. */
  function LinesStart(s: State, req: Request): (p: Progress)
    requires req.municipalityId in s.municipalities
    ensures p.clientId < |p.clients|
  {
    var (clients, clientId) := ResolveHeaderClient(s, req);
    Progress(clients, clientId, s.rooms, s.details, s.binnacle, 0)
  }

  /** The header after the loop: a positive total is written to `total` and `total_reservation`, anything else leaves both at zero. */
  function Settle(header: Reservation, total: int): (r: Result<Reservation, Error>)
    ensures r.Ok? <==> total <= MoneyLimit
    ensures r.Err? ==> r.error == Violates(Total)
    ensures total <= 0 ==> r == Ok(header)
    ensures r.Ok? && total > 0 ==> r.value == header.(total := total, totalReservation := total)
  {
    if total <= 0 then Ok(header)
    else if total > MoneyLimit then Err(Violates(Total))
    else Ok(header.(total := total, totalReservation := total))
  }

  /** The committed state of a successful booking and the id of its header. */
  datatype Booked = Booked(state: State, id: nat)

  /** The booking transaction: the committed state, or the error that rolled it back. */
  function Book(s: State, req: Request, user: nat, clock: Clock, genCode: nat -> string): (r: Result<Booked, Error>)
    ensures req.municipalityId !in s.municipalities ==> r == Err(MunicipalityNotFound)
    ensures r.Ok? ==>
      && r.value.id == |s.reservations|
      && |r.value.state.reservations| == |s.reservations| + 1
      && r.value.state.reservations[..|s.reservations|] == s.reservations
      && r.value.state.municipalities == s.municipalities && r.value.state.users == s.users
      && r.value.state.coins == s.coins
  {
    if req.municipalityId !in s.municipalities then Err(MunicipalityNotFound)
    else
      match HeaderInsert(s, req, user, clock, genCode)
      case Err(e) => Err(e)
      case Ok(header) =>
        var ctx := ContextFor(req, |s.reservations|, header, user, clock);
        match BookLines(ctx, LinesStart(s, req), req.lines)
        case Err(e) => Err(e)
        case Ok(p) =>
          match Settle(header, p.total)
          case Err(e) => Err(e)
          case Ok(h) =>
            Ok(Booked(s.(clients := p.clients, rooms := p.rooms, reservations := s.reservations + [h],
                         details := p.details, binnacle := p.binnacle), |s.reservations|))
  }

  /** A successful booking, step by step: the header insert, the line loop and the settling all succeed, and the state is theirs. */
  lemma BookSteps(s: State, req: Request, user: nat, clock: Clock, genCode: nat -> string)
    requires Book(s, req, user, clock, genCode).Ok?
    ensures req.municipalityId in s.municipalities && HeaderInsert(s, req, user, clock, genCode).Ok?
    ensures var header := HeaderInsert(s, req, user, clock, genCode).value;
      var ctx := ContextFor(req, |s.reservations|, header, user, clock);
      var (clients, clientId) := ResolveHeaderClient(s, req);
      && header.clientId == clientId && Some(header.name) == clients[clientId].name && header.coinId == req.coinId
      && BookLines(ctx, LinesStart(s, req), req.lines).Ok?
      && var p := BookLines(ctx, LinesStart(s, req), req.lines).value;
      && Settle(header, p.total).Ok?
      && var h := Settle(header, p.total).value;
      && h == header.(total := h.total, totalReservation := h.totalReservation)
      && Book(s, req, user, clock, genCode).value
         == Booked(s.(clients := p.clients, rooms := p.rooms, reservations := s.reservations + [h],
                      details := p.details, binnacle := p.binnacle), |s.reservations|)
  {
  }

  /** The sum of the subtotals of some details. */
  function SubTotal(ds: seq<Detail>): int
  {
    if ds == [] then 0 else ds[0].sub + SubTotal(ds[1..])
  }

  lemma {:induction false} SumSubsIsSubTotal(ctx: Context, lines: seq<Line>, ds: seq<Detail>)
    requires |ds| == |lines|
    requires forall k :: 0 <= k < |ds| ==> ds[k].sub == LineSub(ctx.accommodation, Multiplier(ctx.cantidad), lines[k].price)
    ensures SumSubs(ctx, lines) == SubTotal(ds)
    decreases |lines|
  {
    if lines != [] {
      forall k | 0 <= k < |ds[1..]|
        ensures ds[1..][k].sub == LineSub(ctx.accommodation, Multiplier(ctx.cantidad), lines[1..][k].price)
      {
        assert ds[1..][k] == ds[k + 1] && lines[1..][k] == lines[k + 1];
      }
      SumSubsIsSubTotal(ctx, lines[1..], ds[1..]);
    }
  }

  /** A booking fails when the municipality is unknown or when any line names an unknown room. */
  lemma BookFailures(s: State, req: Request, user: nat, clock: Clock, genCode: nat -> string)
    ensures req.municipalityId !in s.municipalities ==> Book(s, req, user, clock, genCode) == Err(MunicipalityNotFound)
    ensures (exists k :: 0 <= k < |req.lines| && req.lines[k].roomId !in s.rooms) ==> Book(s, req, user, clock, genCode).Err?
  {
    if req.municipalityId in s.municipalities && HeaderInsert(s, req, user, clock, genCode).Ok? {
      var header := HeaderInsert(s, req, user, clock, genCode).value;
      var ctx := ContextFor(req, |s.reservations|, header, user, clock);
      LinesOutcome(ctx, LinesStart(s, req), req.lines);
    }
  }

  /**
   * Every way a booking ends: an unknown municipality, a refused header, a line
   * on an unknown room, or a total too large for its column; when none of these
   * happens the booking succeeds.
   */
  lemma BookOutcome(s: State, req: Request, user: nat, clock: Clock, genCode: nat -> string)
    ensures req.municipalityId !in s.municipalities ==> Book(s, req, user, clock, genCode) == Err(MunicipalityNotFound)
    ensures req.municipalityId in s.municipalities && HeaderInsert(s, req, user, clock, genCode).Err? ==>
      Book(s, req, user, clock, genCode) == Err(HeaderInsert(s, req, user, clock, genCode).error)
    ensures req.municipalityId in s.municipalities && HeaderInsert(s, req, user, clock, genCode).Ok? ==>
      var ctx := ContextFor(req, |s.reservations|, HeaderInsert(s, req, user, clock, genCode).value, user, clock);
      var r := Book(s, req, user, clock, genCode);
      && (r.Ok? <==> RoomsKnown(s.rooms, req.lines) && SumSubs(ctx, req.lines) <= MoneyLimit)
      && (!RoomsKnown(s.rooms, req.lines) ==> r.Err? && r.error.RoomNotFound?)
      && (RoomsKnown(s.rooms, req.lines) && SumSubs(ctx, req.lines) > MoneyLimit ==> r == Err(Violates(Total)))
  {
    if req.municipalityId in s.municipalities && HeaderInsert(s, req, user, clock, genCode).Ok? {
      var header := HeaderInsert(s, req, user, clock, genCode).value;
      var ctx := ContextFor(req, |s.reservations|, header, user, clock);
      LinesOutcome(ctx, LinesStart(s, req), req.lines);
    }
  }

  /**
   * The stored header of a successful booking: pending, a true reservation,
   * coded from this year's count plus one, with its client's name and, as
   * location, the municipality's full name followed by the client's location,
   * zero product total, and
   * `total` = `total_reservation` = the sum of the new details' subtotals when
   * that sum is positive, zero otherwise.
   */
  lemma BookedHeader(s: State, req: Request, user: nat, clock: Clock, genCode: nat -> string)
    requires Book(s, req, user, clock, genCode).Ok?
    ensures var b := Book(s, req, user, clock, genCode).value;
      && b.id == |s.reservations|
      && |b.state.reservations| == |s.reservations| + 1
      && b.state.reservations[..|s.reservations|] == s.reservations
      && |s.details| <= |b.state.details|
      && var h := b.state.reservations[b.id];
         var sum := SubTotal(b.state.details[|s.details|..]);
         && h.code == genCode(NextSequence(s.reservations, clock.year))
         && h.nit == req.nit
         && req.municipalityId in s.municipalities
         && h.clientId < |b.state.clients|
         && Some(h.name) == b.state.clients[h.clientId].name
         && h.ubication == Some(s.municipalities[req.municipalityId].fullName + ", "
                                + b.state.clients[h.clientId].ubication.GetOr(""))
         && h.status == Pendiente && h.reserva
         && h.event == req.event.GetOr(false)
         && h.responsable == (if req.event == Some(true) then req.responsable else None)
         && h.coinId == req.coinId && h.userId == user && h.created == clock
         && h.totalProduct == 0
         && h.totalReservation == (if sum > 0 then sum else 0)
         && h.total == h.totalReservation
  {
    var b := Book(s, req, user, clock, genCode).value;
    BookSteps(s, req, user, clock, genCode);
    var header := HeaderInsert(s, req, user, clock, genCode).value;
    var ctx := ContextFor(req, |s.reservations|, header, user, clock);
    var start := LinesStart(s, req);
    var (clients, clientId) := ResolveHeaderClient(s, req);
    InsertDefaults(s.reservations, Catalog(|clients|, s.users, s.coins),
                   HeaderRow(req, genCode(NextSequence(s.reservations, clock.year)), clients[clientId], clientId,
                             s.municipalities[req.municipalityId], user, clock));
    LinesOutcome(ctx, start, req.lines);
    LinesRows(ctx, start, req.lines);
    var p := BookLines(ctx, start, req.lines).value;
    var added := p.details[|s.details|..];
    forall k | 0 <= k < |added|
      ensures added[k].sub == LineSub(ctx.accommodation, Multiplier(ctx.cantidad), req.lines[k].price)
    {
      assert added[k] == p.details[|s.details| + k];
    }
    SumSubsIsSubTotal(ctx, req.lines, added);
    assert b.state.reservations[..|s.reservations|] == s.reservations;
  }

  /**
   * What line `line` of booking `req` stores: a pending detail on the line's
   * room, with its price, description, the shared dates, accommodation and
   * quantity, the subtotal, the header's client, name and coin, and a
   * "scheduled" entry with id `detailId` copying the detail's dates.
   */
  predicate LineStored(req: Request, user: nat, h: Reservation, rid: nat, rooms: map<nat, Room>,
                       line: Line, d: Detail, e: Entry, detailId: nat)
  {
    && line.roomId in rooms
    && d.roomId == line.roomId && d.typeServiceId == rooms[line.roomId].typeServiceId
    && d.price == line.price && d.description == line.description
    && d.reservationId == rid && d.status == Pendiente
    && d.quote == req.cantidad.GetOr(0)
    && d.clientId == h.clientId && d.guest == Some(h.name) && d.coinId == h.coinId
    && d.accommodation == (if req.hora.Some? then 0
                           else if req.arrivalDay <= req.departureDay then req.departureDay - req.arrivalDay
                           else req.arrivalDay - req.departureDay)
    && d.sub == (if d.accommodation != 0 then d.accommodation * d.price else req.cantidad.GetOr(1) * d.price)
    && (req.hora.None? ==> DayOf(d.arrival) == req.arrivalDay && DayOf(d.departure) == req.departureDay)
    && (req.hora.Some? ==> d.arrival == req.arrivalDay * MinutesPerDay + req.hora.value
                           && d.departure == d.arrival + line.minutos)
    && e == Entry(d.arrival, d.departure, ScheduledDays, detailId, Programada, user, d.typeServiceId, true)
  }

  /** The detail and entry the loop makes for a line are the ones `LineStored` describes. */
  lemma MadeLineStored(req: Request, user: nat, clock: Clock, header: Reservation, h: Reservation, rid: nat,
                       rooms: map<nat, Room>, line: Line, clientId: nat, guest: Option<string>, detailId: nat)
    requires line.roomId in rooms
    requires h.clientId == clientId && Some(h.name) == guest && h.coinId == header.coinId
    ensures var ctx := ContextFor(req, rid, header, user, clock);
      var d := MakeDetail(ctx, line, clientId, guest, rooms[line.roomId].typeServiceId);
      LineStored(req, user, h, rid, rooms, line, d, ScheduledEntry(d, detailId, user), detailId)
  {
  }

  /** Every line of a successful loop stores what `LineStored` describes. */
  lemma LinesStored(req: Request, user: nat, clock: Clock, header: Reservation, h: Reservation,
                    ctx: Context, p: Progress)
    requires ctx == ContextFor(req, ctx.reservationId, header, user, clock)
    requires Resolved(ctx, p)
    requires BookLines(ctx, p, req.lines).Ok?
    requires h.clientId == p.clientId && Some(h.name) == p.clients[p.clientId].name && h.coinId == header.coinId
    ensures var q := BookLines(ctx, p, req.lines).value;
      && |q.details| == |p.details| + |req.lines| && q.details[..|p.details|] == p.details
      && |q.binnacle| == |p.binnacle| + |req.lines| && q.binnacle[..|p.binnacle|] == p.binnacle
      && forall k :: 0 <= k < |req.lines| ==>
           LineStored(req, user, h, ctx.reservationId, p.rooms, req.lines[k],
                      q.details[|p.details| + k], q.binnacle[|p.binnacle| + k], |p.details| + k)
  {
    LinesRows(ctx, p, req.lines);
    forall k | 0 <= k < |req.lines|
      ensures var q := BookLines(ctx, p, req.lines).value;
        LineStored(req, user, h, ctx.reservationId, p.rooms, req.lines[k],
                   q.details[|p.details| + k], q.binnacle[|p.binnacle| + k], |p.details| + k)
    {
      MadeLineStored(req, user, clock, header, h, ctx.reservationId, p.rooms, req.lines[k], p.clientId,
                     p.clients[p.clientId].name, |p.details| + k);
    }
  }

  /**
   * The rows a successful booking appends: for line k, in request order, the
   * detail and "scheduled" entry `LineStored` describes; earlier rows stay.
   */
  lemma BookedLines(s: State, req: Request, user: nat, clock: Clock, genCode: nat -> string)
    requires Book(s, req, user, clock, genCode).Ok?
    ensures var b := Book(s, req, user, clock, genCode).value;
      && b.id < |b.state.reservations|
      && |b.state.details| == |s.details| + |req.lines| && b.state.details[..|s.details|] == s.details
      && |b.state.binnacle| == |s.binnacle| + |req.lines| && b.state.binnacle[..|s.binnacle|] == s.binnacle
      && forall k :: 0 <= k < |req.lines| ==>
           LineStored(req, user, b.state.reservations[b.id], b.id, s.rooms, req.lines[k],
                      b.state.details[|s.details| + k], b.state.binnacle[|s.binnacle| + k], |s.details| + k)
  {
    var b := Book(s, req, user, clock, genCode).value;
    BookSteps(s, req, user, clock, genCode);
    var header := HeaderInsert(s, req, user, clock, genCode).value;
    var ctx := ContextFor(req, |s.reservations|, header, user, clock);
    var start := LinesStart(s, req);
    var p := BookLines(ctx, start, req.lines).value;
    var h := Settle(header, p.total).value;
    assert start.details == s.details && start.binnacle == s.binnacle && start.rooms == s.rooms;
    LinesStored(req, user, clock, header, h, ctx, start);
    var t := b.state;
    assert b.id == |s.reservations| && t.reservations[b.id] == h;
    assert t.details == p.details && t.binnacle == p.binnacle;
    forall k | 0 <= k < |req.lines|
      ensures LineStored(req, user, t.reservations[b.id], b.id, s.rooms, req.lines[k],
                         t.details[|s.details| + k], t.binnacle[|s.binnacle| + k], |s.details| + k)
    {
      assert LineStored(req, user, h, ctx.reservationId, start.rooms, req.lines[k],
                        p.details[|start.details| + k], p.binnacle[|start.binnacle| + k], |start.details| + k);
    }
  }

  /** A booking adds the requested quantity to a room's counter once per line on it; without a quantity no counter moves. */
  lemma BookedRooms(s: State, req: Request, user: nat, clock: Clock, genCode: nat -> string)
    requires Book(s, req, user, clock, genCode).Ok?
    ensures var b := Book(s, req, user, clock, genCode).value;
      && b.state.rooms.Keys == s.rooms.Keys
      && forall id :: id in s.rooms ==>
           b.state.rooms[id] == s.rooms[id].(resta := s.rooms[id].resta +
             (if req.cantidad.Some? then req.cantidad.value * Visits(req.lines, id) else 0))
  {
    var b := Book(s, req, user, clock, genCode).value;
    var header := HeaderInsert(s, req, user, clock, genCode).value;
    var ctx := ContextFor(req, |s.reservations|, header, user, clock);
    var start := LinesStart(s, req);
    LinesOutcome(ctx, start, req.lines);
    LinesRooms(ctx, start, req.lines);
    forall id | id in s.rooms
      ensures b.state.rooms[id] == s.rooms[id].(resta := s.rooms[id].resta +
                (if req.cantidad.Some? then req.cantidad.value * Visits(req.lines, id) else 0))
    {
      AddedIsQuantityTimesVisits(req.lines, id, req.cantidad);
    }
  }

  /**
   * The header's client is the existing client with the request's fiscal id,
   * or a new one appended with the request's profile and the municipality's
   * department; the lines never create another.
   */
  lemma BookedClient(s: State, req: Request, user: nat, clock: Clock, genCode: nat -> string)
    requires Book(s, req, user, clock, genCode).Ok?
    ensures var b := Book(s, req, user, clock, genCode).value;
      && b.id < |b.state.reservations|
      && var h := b.state.reservations[b.id];
      && |s.clients| <= |b.state.clients| <= |s.clients| + 1
      && b.state.clients[..|s.clients|] == s.clients
      && h.clientId < |b.state.clients| && b.state.clients[h.clientId].nit == req.nit
      && (FindClient(s.clients, req.nit).Some? ==>
            b.state.clients == s.clients && h.clientId == FindClient(s.clients, req.nit).value)
    ensures req.municipalityId in s.municipalities
    ensures FindClient(s.clients, req.nit).None? ==>
      var b := Book(s, req, user, clock, genCode).value;
      && b.state.clients == s.clients + [HeaderClient(req, s.municipalities[req.municipalityId])]
      && b.state.reservations[b.id].clientId == |s.clients|
  {
    var header := HeaderInsert(s, req, user, clock, genCode).value;
    var ctx := ContextFor(req, |s.reservations|, header, user, clock);
    LinesOutcome(ctx, LinesStart(s, req), req.lines);
  }

  /** A booking made in a year advances that year's sequence by one: the next booking draws the next number. */
  lemma BookedSequence(s: State, req: Request, user: nat, clock: Clock, genCode: nat -> string)
    requires Book(s, req, user, clock, genCode).Ok?
    ensures var b := Book(s, req, user, clock, genCode).value;
      NextSequence(b.state.reservations, clock.year) == NextSequence(s.reservations, clock.year) + 1
  {
    var b := Book(s, req, user, clock, genCode).value;
    BookedHeader(s, req, user, clock, genCode);
    var h := b.state.reservations[b.id];
    assert b.state.reservations == s.reservations + [h];
    NextSequenceAdvances(s.reservations, h, clock.year);
  }

  /** The new header keeps the reservations table well formed and references existing rows. */
  lemma BookedTable(s: State, req: Request, user: nat, clock: Clock, genCode: nat -> string)
    requires WellFormedTable(s.reservations)
    requires Book(s, req, user, clock, genCode).Ok?
    ensures var b := Book(s, req, user, clock, genCode).value;
      && WellFormedTable(b.state.reservations)
      && b.id < |b.state.reservations|
      && References(CatalogOf(b.state), b.state.reservations[b.id])
  {
    var b := Book(s, req, user, clock, genCode).value;
    var (clients, clientId) := ResolveHeaderClient(s, req);
    var mun := s.municipalities[req.municipalityId];
    var catalog := Catalog(|clients|, s.users, s.coins);
    var row := HeaderRow(req, genCode(NextSequence(s.reservations, clock.year)), clients[clientId], clientId, mun, user, clock);
    var header := Insert(s.reservations, catalog, row).value;
    var ctx := ContextFor(req, |s.reservations|, header, user, clock);
    var start := LinesStart(s, req);
    LinesOutcome(ctx, start, req.lines);
    var p := BookLines(ctx, start, req.lines).value;
    var h := Settle(header, p.total).value;
    assert b.state.reservations == s.reservations + [h];
    InsertKeepsTableWellFormed(s.reservations, catalog, row);
    RewriteKeepsTableWellFormed(s.reservations + [header], |s.reservations|, h);
    assert (s.reservations + [header])[|s.reservations| := h] == b.state.reservations;
  }

  /** The line loop keeps every detail pointing at a header up to the new one, a known room and a known client, and every entry at a detail. */
  lemma {:induction false} LinesRefer(ctx: Context, p: Progress, lines: seq<Line>)
    requires Resolved(ctx, p)
    requires BookLines(ctx, p, lines).Ok?
    requires DetailsRefer(p.details, ctx.reservationId + 1, p.rooms.Keys, |p.clients|)
    requires EntriesRefer(p.binnacle, |p.details|)
    ensures var q := BookLines(ctx, p, lines).value;
      DetailsRefer(q.details, ctx.reservationId + 1, q.rooms.Keys, |q.clients|) && EntriesRefer(q.binnacle, |q.details|)
    decreases |lines|
  {
    if lines != [] {
      BookLineStep(ctx, p, lines[0]);
      var next := BookLine(ctx, p, lines[0]).value;
      assert DetailsRefer(next.details, ctx.reservationId + 1, next.rooms.Keys, |next.clients|) by {
        forall k | 0 <= k < |next.details|
          ensures next.details[k].reservationId < ctx.reservationId + 1 && next.details[k].roomId in next.rooms.Keys
                  && next.details[k].clientId < |next.clients|
        {
          if k < |p.details| { assert next.details[k] == p.details[k]; }
        }
      }
      assert EntriesRefer(next.binnacle, |next.details|) by {
        forall k | 0 <= k < |next.binnacle| ensures next.binnacle[k].detailId < |next.details| {
          if k < |p.binnacle| { assert next.binnacle[k] == p.binnacle[k]; }
        }
      }
      LinesRefer(ctx, next, lines[1..]);
    }
  }

  /** A booking keeps the tables consistent. */
  lemma BookPreservesValid(s: State, req: Request, user: nat, clock: Clock, genCode: nat -> string)
    requires Valid(s)
    requires Book(s, req, user, clock, genCode).Ok?
    ensures Valid(Book(s, req, user, clock, genCode).value.state)
  {
    var t := Book(s, req, user, clock, genCode).value.state;
    var header := HeaderInsert(s, req, user, clock, genCode).value;
    var ctx := ContextFor(req, |s.reservations|, header, user, clock);
    var start := LinesStart(s, req);
    LinesOutcome(ctx, start, req.lines);
    var p := BookLines(ctx, start, req.lines).value;
    var h := Settle(header, p.total).value;
    assert t == s.(clients := p.clients, rooms := p.rooms, reservations := s.reservations + [h],
                   details := p.details, binnacle := p.binnacle);
    BookedTable(s, req, user, clock, genCode);
    FindOrCreateKeepsNitsUnique(s.clients, req.nit, HeaderClient(req, s.municipalities[req.municipalityId]));
    assert |s.clients| <= |start.clients|;
    assert DetailsRefer(start.details, ctx.reservationId + 1, start.rooms.Keys, |start.clients|);
    LinesRefer(ctx, start, req.lines);
    forall k | 0 <= k < |t.reservations| ensures References(CatalogOf(t), t.reservations[k]) {
      if k < |s.reservations| {
        assert t.reservations[k] == s.reservations[k];
        assert References(CatalogOf(s), s.reservations[k]);
      }
    }
  }
}
