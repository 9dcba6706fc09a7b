/**
 * The reservation engine as the controller runs it: one store whose tables the
 * booking, cancellation and edit operations change step by step, each proved
 * to leave exactly the state the corresponding transaction function describes.
 */
module ReservationStore {
  import opened Wrappers
  import opened Domain
  import opened ReservationTable
  import opened Clients
  import opened StoreState
  import Booking
  import Cancellation
  import HeaderUpdate

  /** Editing a header keeps the tables consistent: only four text columns change, no reference does. */
  lemma UpdatePreservesValid(s: State, rid: nat, e: HeaderUpdate.Edit)
    requires Valid(s)
    requires HeaderUpdate.Update(s.reservations, rid, e).Ok?
    ensures Valid(s.(reservations := HeaderUpdate.Update(s.reservations, rid, e).value))
  {
    var t := s.(reservations := HeaderUpdate.Update(s.reservations, rid, e).value);
    HeaderUpdate.UpdateKeepsTableWellFormed(s.reservations, rid, e);
    HeaderUpdate.UpdateOutcome(s.reservations, rid, e);
    forall k | 0 <= k < |t.reservations| ensures References(CatalogOf(t), t.reservations[k]) {
      assert References(CatalogOf(s), s.reservations[k]);
    }
  }

  class Store {
    var rooms: map<nat, Room>
    var municipalities: map<nat, Municipality>
    var users: set<nat>
    var coins: set<nat>
    var clients: seq<Client>
    var reservations: seq<Reservation>
    var details: seq<Detail>
    var binnacle: seq<Entry>

    /** The tables as a value. */
    function Snapshot(): State
      reads this
    {
      State(rooms, municipalities, users, coins, clients, reservations, details, binnacle)
    }

    ghost predicate Valid()
      reads this
    {
      StoreState.Valid(Snapshot())
    }

    /** A store with the given rooms and catalogues and no clients, reservations, details or history. */
    constructor(rooms: map<nat, Room>, municipalities: map<nat, Municipality>, users: set<nat>, coins: set<nat>)
      ensures Snapshot() == State(rooms, municipalities, users, coins, [], [], [], [])
      ensures Valid()
    {
      this.rooms := rooms;
      this.municipalities := municipalities;
      this.users := users;
      this.coins := coins;
      clients := [];
      reservations := [];
      details := [];
      binnacle := [];
    }

    /** Puts every table back as it was when the transaction began. */
    method Rollback(saved: State)
      modifies this
      ensures Snapshot() == saved
    {
      rooms, municipalities, users, coins := saved.rooms, saved.municipalities, saved.users, saved.coins;
      clients, reservations, details, binnacle := saved.clients, saved.reservations, saved.details, saved.binnacle;
    }

    /**
     * Books `req` for `user` at `clock`: the new header's id, or the error that
     * rolled every table back.
     */
    method Book(req: Booking.Request, user: nat, clock: Clock, genCode: nat -> string) returns (r: Result<nat, Error>)
      requires Valid()
      modifies this
      ensures Valid()
      ensures var spec := Booking.Book(old(Snapshot()), req, user, clock, genCode);
        && (spec.Ok? ==> r == Ok(spec.value.id) && Snapshot() == spec.value.state)
        && (spec.Err? ==> r == Err(spec.error) && Snapshot() == old(Snapshot()))
    {
      var saved := Snapshot();
      if req.municipalityId !in municipalities {
        return Err(MunicipalityNotFound);
      }
      var mun := municipalities[req.municipalityId];
      var resolved := FindOrCreate(clients, req.nit, Booking.HeaderClient(req, mun));
      clients := resolved.0;
      var clientId := resolved.1;
      var inserted := Insert(reservations, Catalog(|clients|, users, coins),
                             Booking.HeaderRow(req, genCode(NextSequence(reservations, clock.year)), clients[clientId],
                                               clientId, mun, user, clock));
      if inserted.Err? {
        Rollback(saved);
        return Err(inserted.error);
      }
      var header := inserted.value;
      var id := |reservations|;
      reservations := reservations + [header];
      var ctx := Booking.ContextFor(req, id, header, user, clock);
      var failure, total;
      failure, clientId, total := StoreLines(ctx, clientId, req.lines);
      if failure.Some? {
        Rollback(saved);
        return Err(failure.value);
      }
      if total > 0 {
        if total > MoneyLimit {
          Rollback(saved);
          return Err(Violates(Total));
        }
        reservations := reservations[id := header.(total := total, totalReservation := total)];
        assert reservations == saved.reservations + [header.(total := total, totalReservation := total)];
      }
      Booking.BookPreservesValid(saved, req, user, clock, genCode);
      return Ok(id);
    }

    /**
     * One line of a booking, on the stored tables: resolve the event client,
     * store the detail, bump the room's counter when a quantity was requested,
     * log the "scheduled" entry and add the subtotal to `total`.
     */
    method StoreLine(ctx: Booking.Context, clientId0: nat, total0: int, line: Booking.Line)
      returns (failure: Option<Error>, clientId: nat, total: int)
      requires clientId0 < |clients|
      modifies this
      ensures municipalities == old(municipalities) && users == old(users) && coins == old(coins)
      ensures reservations == old(reservations)
      ensures clientId < |clients|
      ensures var spec := Booking.BookLine(ctx, Booking.Progress(old(clients), clientId0, old(rooms), old(details),
                                                                 old(binnacle), total0), line);
        && (spec.Ok? ==> failure == None
                         && spec.value == Booking.Progress(clients, clientId, rooms, details, binnacle, total))
        && (spec.Err? ==> failure == Some(spec.error))
    {
      clientId, total := clientId0, total0;
      if ctx.event {
        var found := FindOrCreate(clients, ctx.nit, Booking.EventClient(ctx, line));
        clients, clientId := found.0, found.1;
      }
      if line.roomId !in rooms {
        return Some(RoomNotFound(line.roomId)), clientId, total;
      }
      var room := rooms[line.roomId];
      var d := Booking.MakeDetail(ctx, line, clientId, clients[clientId].name, room.typeServiceId);
      var detailId := |details|;
      details := details + [d];
      if ctx.cantidad.Some? {
        rooms := rooms[line.roomId := room.(resta := room.resta + ctx.cantidad.value)];
      }
      binnacle := binnacle + [Booking.ScheduledEntry(d, detailId, ctx.user)];
      total := total + d.sub;
      failure := None;
    }

    /**
     * The line loop of a booking, on the stored tables, line by line in order.
     * On failure the tables are left half written for the caller to roll back.
     */
    method StoreLines(ctx: Booking.Context, clientId0: nat, lines: seq<Booking.Line>)
      returns (failure: Option<Error>, clientId: nat, total: int)
      requires clientId0 < |clients|
      modifies this
      ensures municipalities == old(municipalities) && users == old(users) && coins == old(coins)
      ensures reservations == old(reservations)
      ensures var spec := Booking.BookLines(ctx, Booking.Progress(old(clients), clientId0, old(rooms), old(details),
                                                                  old(binnacle), 0), lines);
        && (spec.Ok? ==> failure == None
                         && spec.value == Booking.Progress(clients, clientId, rooms, details, binnacle, total))
        && (spec.Err? ==> failure == Some(spec.error))
    {
      ghost var start := Booking.Progress(clients, clientId0, rooms, details, binnacle, 0);
      clientId, total := clientId0, 0;
      var i := 0;
      while i < |lines|
        invariant 0 <= i <= |lines|
        invariant clientId < |clients|
        invariant municipalities == old(municipalities) && users == old(users) && coins == old(coins)
        invariant reservations == old(reservations)
        invariant Booking.BookLines(ctx, Booking.Progress(clients, clientId, rooms, details, binnacle, total), lines[i..])
               == Booking.BookLines(ctx, start, lines)
      {
        ghost var p := Booking.Progress(clients, clientId, rooms, details, binnacle, total);
        assert lines[i..][0] == lines[i] && lines[i..][1..] == lines[i + 1..];
        failure, clientId, total := StoreLine(ctx, clientId, total, lines[i]);
        if failure.Some? {
          assert Booking.BookLines(ctx, p, lines[i..]) == Err(failure.value);
          return;
        }
        i := i + 1;
      }
      assert lines[i..] == [];
      failure := None;
    }

    /** Cancels reservation `rid` for `user` at moment `now`; the error, if any, leaves every table as it was. */
    method Cancel(rid: nat, user: nat, now: Minute) returns (r: Option<Error>)
      requires Valid()
      modifies this
      ensures Valid()
      ensures var spec := Cancellation.Cancel(old(Snapshot()), rid, user, now);
        && (spec.Ok? ==> r == None && Snapshot() == spec.value)
        && (spec.Err? ==> r == Some(spec.error) && Snapshot() == old(Snapshot()))
    {
      if rid >= |reservations| {
        return Some(ReservationNotFound);
      }
      ghost var saved := Snapshot();
      reservations := reservations[rid := reservations[rid].(status := Cancelacion)];
      var i := 0;
      while i < |details|
        invariant i <= |details| == |saved.details|
        invariant reservations == saved.reservations[rid := saved.reservations[rid].(status := Cancelacion)]
        invariant rooms == saved.rooms && municipalities == saved.municipalities && users == saved.users
        invariant coins == saved.coins && clients == saved.clients
        invariant Cancellation.CancelLoop(details, binnacle, rid, user, now, i)
               == Cancellation.CancelLoop(saved.details, saved.binnacle, rid, user, now, 0)
      {
        if details[i].reservationId == rid {
          var d := details[i];
          details := details[i := d.(status := Cancelacion)];
          binnacle := Cancellation.Deactivate(binnacle, i) + [Cancellation.CancelEntry(d, i, user, now)];
        }
        i := i + 1;
      }
      Cancellation.CancelPreservesValid(saved, rid, user, now);
      return None;
    }

    /** Edits the four text columns of header `rid`; the error, if any, leaves every table as it was. */
    method Update(rid: nat, e: HeaderUpdate.Edit) returns (r: Option<Error>)
      requires Valid()
      modifies this
      ensures Valid()
      ensures var spec := HeaderUpdate.Update(old(reservations), rid, e);
        && (spec.Ok? ==> r == None && Snapshot() == old(Snapshot()).(reservations := spec.value))
        && (spec.Err? ==> r == Some(spec.error) && Snapshot() == old(Snapshot()))
    {
      if rid >= |reservations| {
        return Some(ReservationNotFound);
      }
      var h := reservations[rid];
      if !HeaderUpdate.Dirty(h, e) {
        return Some(NothingToUpdate);
      }
      var violation := HeaderUpdate.EditViolation(e);
      if violation.Some? {
        return Some(Violates(violation.value));
      }
      UpdatePreservesValid(Snapshot(), rid, e);
      reservations := reservations[rid := h.(nit := e.nit.value, name := e.name.value,
                                             ubication := e.ubication, responsable := e.responsable)];
      r := None;
    }
  }
}
