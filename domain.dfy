/**
 * Entities of the reservation engine that the engine treats as values:
 * rooms, municipalities, clients, reservation details and binnacle entries,
 * plus the status and movement vocabularies and the error conditions.
 *
 * Calendar days are integer day numbers and timestamps are integer minutes.
 * Money is integer cents.
 */
module Domain {
  import opened Wrappers

  type Day = int
  type Minute = int

  const MinutesPerDay: int := 1440

  /** The calendar date a timestamp falls on (what DATE_FORMAT "%Y-%m-%d" keeps). */
  function DayOf(t: Minute): (d: Day)
    ensures d * MinutesPerDay <= t < (d + 1) * MinutesPerDay
  {
    t / MinutesPerDay
  }

  /** The minute of the day of a timestamp. */
  function TimeOfDay(t: Minute): (m: int)
    ensures 0 <= m < MinutesPerDay
    ensures t == DayOf(t) * MinutesPerDay + m
  {
    t % MinutesPerDay
  }

  /** The status catalogue shared by reservation headers and details. */
  datatype Status = Pendiente | EnProceso | Confirmado | Cancelacion | Anulado

  /** The statuses in which a booking still holds its room. */
  predicate Holds(s: Status)
  {
    s == Pendiente || s == EnProceso || s == Confirmado
  }

  /** The movement catalogue of binnacle entries. */
  datatype Movement = Programada | Cancelada

  /** "Now", as the caller's clock gives it: a timestamp and its calendar year. */
  datatype Clock = Clock(stamp: Minute, year: int)

  /** A bookable room. `resta` is the running count of capacity units committed against it. */
  datatype Room = Room(typeServiceId: nat, amountPeople: int, resta: int, deleted: bool)

  /** A municipality of the catalogue; `fullName` is its hierarchical display name. */
  datatype Municipality = Municipality(departamentId: nat, fullName: string)

  /** A client, identified by its fiscal id (`nit`). */
  datatype Client = Client(
    nit: string,
    name: Option<string>,
    email: Option<string>,
    business: Option<bool>,
    ubication: Option<string>,
    departamentId: nat,
    municipalityId: nat)

  /** One room/service line of a reservation. Its id is its position in the details table. */
  datatype Detail = Detail(
    arrival: Minute,
    departure: Minute,
    accommodation: int,
    quote: int,
    authorizationCode: string,
    price: int,
    sub: int,
    ofert: bool,
    guest: Option<string>,
    description: Option<string>,
    reservationId: nat,
    roomId: nat,
    coinId: nat,
    clientId: nat,
    typeServiceId: nat,
    status: Status)

  /** One binnacle (audit trail) entry about a reservation detail. */
  datatype Entry = Entry(
    start: Minute,
    end: Minute,
    days: int,
    detailId: nat,
    movement: Movement,
    userId: nat,
    typeServiceId: nat,
    active: bool)

  /** The columns of the reservations table whose constraints a write can violate. */
  datatype Column = Code | Nit | Name | Ubication | Responsable | Total | TotalReservation
                  | TotalProduct | ClientRef | UserRef | CoinRef | StatusRef

  /** Why an operation was refused or rolled back. */
  datatype Error =
    | MunicipalityNotFound
    | RoomNotFound(roomId: nat)
    | ReservationNotFound
    | Violates(column: Column)
    | NothingToUpdate
}
