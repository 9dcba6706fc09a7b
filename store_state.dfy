/**
 * The persistent state the reservation engine reads and writes, its
 * consistency invariant, and the yearly sequence that numbers reservation codes.
 */
module StoreState {
  import opened Wrappers
  import opened Domain
  import opened ReservationTable
  import opened Clients

  /**
   * Rooms and the catalogues (municipalities, users, coins) are keyed by id;
   * clients, reservation headers, details and binnacle entries are
   * auto-numbered tables, so a row's id is its position.
   */
  datatype State = State(
    rooms: map<nat, Room>,
    municipalities: map<nat, Municipality>,
    users: set<nat>,
    coins: set<nat>,
    clients: seq<Client>,
    reservations: seq<Reservation>,
    details: seq<Detail>,
    binnacle: seq<Entry>)

  /** The rows a reservation header may reference in state `s`. */
  function CatalogOf(s: State): Catalog
  {
    Catalog(|s.clients|, s.users, s.coins)
  }

  /**
   * The tables are consistent: the reservations table keeps its constraints,
   * fiscal ids are unique, and every reference points at an existing row.
   */
  ghost predicate Valid(s: State)
  {
    && WellFormedTable(s.reservations)
    && NitsUnique(s.clients)
    && (forall k :: 0 <= k < |s.reservations| ==> References(CatalogOf(s), s.reservations[k]))
    && DetailsRefer(s.details, |s.reservations|, s.rooms.Keys, |s.clients|)
    && EntriesRefer(s.binnacle, |s.details|)
  }

  /** Every detail points at one of the first `reservations` headers, at a room of `roomIds` and at one of the first `clients` clients. */
  predicate DetailsRefer(details: seq<Detail>, reservations: nat, roomIds: set<nat>, clients: nat)
  {
    forall k :: 0 <= k < |details| ==>
      details[k].reservationId < reservations && details[k].roomId in roomIds && details[k].clientId < clients
  }

  /** Every binnacle entry points at one of the first `details` details. */
  predicate EntriesRefer(binnacle: seq<Entry>, details: nat)
  {
    forall k :: 0 <= k < |binnacle| ==> binnacle[k].detailId < details
  }

  /** How many reservations were created in `year`. */
  function CountInYear(reservations: seq<Reservation>, year: int): (n: nat)
    ensures n <= |reservations|
  {
    if reservations == [] then 0
    else CountInYear(reservations[..|reservations| - 1], year)
         + (if reservations[|reservations| - 1].created.year == year then 1 else 0)
  }

  /** The sequence number the next reservation of `year` draws its code from. */
  function NextSequence(reservations: seq<Reservation>, year: int): (n: nat)
    ensures 1 <= n <= |reservations| + 1
  {
    CountInYear(reservations, year) + 1
  }

  /** Adding a reservation created in `year` advances that year's sequence by one, and no other year's. */
  lemma {:induction false} NextSequenceAdvances(reservations: seq<Reservation>, r: Reservation, year: int)
    ensures NextSequence(reservations + [r], year)
            == NextSequence(reservations, year) + (if r.created.year == year then 1 else 0)
  {
    assert (reservations + [r])[..|reservations|] == reservations;
  }
}
