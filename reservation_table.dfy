/**
 * The reservations table: the header record of a reservation, the column
 * lengths, defaults, uniqueness and references the table declares, and the
 * insert that applies them.
 */
module ReservationTable {
  import opened Wrappers
  import opened Domain

  const CodeLength: nat := 10
  const NitLength: nat := 15
  const NameLength: nat := 200
  const UbicationLength: nat := 350
  const ResponsableLength: nat := 200
  const DefaultNit: string := "CF"

  /** The largest magnitude a decimal(11, 2) column holds, in cents (eleven digits). */
  const MoneyLimit: int := 99_999_999_999

  /** A stored reservation header. Its id is its position in the table. */
  datatype Reservation = Reservation(
    code: string,
    nit: string,
    name: string,
    ubication: Option<string>,
    event: bool,
    responsable: Option<string>,
    reserva: bool,
    total: int,
    totalReservation: int,
    totalProduct: int,
    clientId: nat,
    userId: nat,
    coinId: nat,
    status: Status,
    created: Clock)

  predicate Money(x: int)
  {
    -MoneyLimit <= x <= MoneyLimit
  }

  predicate FitsIn(s: Option<string>, length: nat)
  {
    s.Some? ==> |s.value| <= length
  }

  /** A header whose every column fits its declared length and precision. */
  predicate WellFormed(r: Reservation)
  {
    && |r.code| <= CodeLength
    && |r.nit| <= NitLength
    && |r.name| <= NameLength
    && FitsIn(r.ubication, UbicationLength)
    && FitsIn(r.responsable, ResponsableLength)
    && Money(r.total) && Money(r.totalReservation) && Money(r.totalProduct)
  }

  predicate CodeTaken(table: seq<Reservation>, code: string)
  {
    exists k :: 0 <= k < |table| && table[k].code == code
  }

  /** Every row well formed, and no code used twice. */
  predicate WellFormedTable(table: seq<Reservation>)
  {
    && (forall k :: 0 <= k < |table| ==> WellFormed(table[k]))
    && (forall j, k :: 0 <= j < k < |table| ==> table[j].code != table[k].code)
  }

  /** The rows the foreign keys of the table may point at. */
  datatype Catalog = Catalog(clientCount: nat, users: set<nat>, coins: set<nat>)

  predicate References(c: Catalog, r: Reservation)
  {
    r.clientId < c.clientCount && r.userId in c.users && r.coinId in c.coins
  }

  /** The first column of `r` that violates its length, precision, uniqueness or reference, if any. */
  function Violation(table: seq<Reservation>, c: Catalog, r: Reservation): (v: Option<Column>)
    ensures v.None? <==> WellFormed(r) && !CodeTaken(table, r.code) && References(c, r)
  {
    if |r.code| > CodeLength || CodeTaken(table, r.code) then Some(Code)
    else if |r.nit| > NitLength then Some(Nit)
    else if |r.name| > NameLength then Some(Name)
    else if !FitsIn(r.ubication, UbicationLength) then Some(Ubication)
    else if !FitsIn(r.responsable, ResponsableLength) then Some(Responsable)
    else if !Money(r.total) then Some(Total)
    else if !Money(r.totalReservation) then Some(TotalReservation)
    else if !Money(r.totalProduct) then Some(TotalProduct)
    else if r.clientId >= c.clientCount then Some(ClientRef)
    else if r.userId !in c.users then Some(UserRef)
    else if r.coinId !in c.coins then Some(CoinRef)
    else None
  }

  /** The values an insert supplies; an absent field is one the insert leaves out. */
  datatype NewReservation = NewReservation(
    code: Option<string>,
    nit: Option<string>,
    name: Option<string>,
    ubication: Option<string>,
    event: Option<bool>,
    responsable: Option<string>,
    reserva: Option<bool>,
    total: Option<int>,
    totalReservation: Option<int>,
    totalProduct: Option<int>,
    clientId: Option<nat>,
    userId: Option<nat>,
    coinId: Option<nat>,
    status: Option<Status>,
    created: Clock)

  /** Every column without a default is supplied. */
  predicate Complete(n: NewReservation)
  {
    && n.code.Some? && n.name.Some? && n.total.Some? && n.clientId.Some?
    && n.userId.Some? && n.coinId.Some? && n.status.Some?
  }

  /** The row a complete insert would store: columns with a default take it when left out, nullable columns stay null. */
  function Completed(n: NewReservation): Reservation
    requires Complete(n)
  {
    Reservation(
      n.code.value,
      n.nit.GetOr(DefaultNit),
      n.name.value,
      n.ubication,
      n.event.GetOr(false),
      n.responsable,
      n.reserva.GetOr(true),
      n.total.value,
      n.totalReservation.GetOr(0),
      n.totalProduct.GetOr(0),
      n.clientId.value,
      n.userId.value,
      n.coinId.value,
      n.status.value,
      n.created)
  }

  /**
   * The row an insert stores: the insert is refused when a column without a
   * default is left out or when the completed row breaks a constraint of the
   * table, and otherwise the completed row is stored as it is.
   */
  function Insert(table: seq<Reservation>, c: Catalog, n: NewReservation): (r: Result<Reservation, Error>)
    ensures r.Ok? ==> WellFormed(r.value) && !CodeTaken(table, r.value.code) && References(c, r.value)
    ensures r.Ok? ==> r.value.created == n.created && r.value.ubication == n.ubication
                      && r.value.responsable == n.responsable
    ensures !Complete(n) ==> r.Err?
    ensures Complete(n) ==>
      var row := Completed(n);
      (r.Ok? <==> WellFormed(row) && !CodeTaken(table, row.code) && References(c, row))
    ensures r.Ok? ==> Complete(n) && r.value == Completed(n)
    ensures Complete(n) && r.Err? ==> r.error == Violates(Violation(table, c, Completed(n)).value)
  {
    if n.code.None? then Err(Violates(Code))
    else if n.name.None? then Err(Violates(Name))
    else if n.total.None? then Err(Violates(Total))
    else if n.clientId.None? then Err(Violates(ClientRef))
    else if n.userId.None? then Err(Violates(UserRef))
    else if n.coinId.None? then Err(Violates(CoinRef))
    else if n.status.None? then Err(Violates(StatusRef))
    else
      match Violation(table, c, Completed(n))
      case Some(col) => Err(Violates(col))
      case None => Ok(Completed(n))
  }

  /** Columns left out of an insert take the table's defaults. */
  lemma InsertDefaults(table: seq<Reservation>, c: Catalog, n: NewReservation)
    requires Insert(table, c, n).Ok?
    ensures var r := Insert(table, c, n).value;
      && (n.nit.None? ==> r.nit == DefaultNit)
      && (n.event.None? ==> !r.event)
      && (n.reserva.None? ==> r.reserva)
      && (n.totalReservation.None? ==> r.totalReservation == 0)
      && (n.totalProduct.None? ==> r.totalProduct == 0)
      && (n.nit.Some? ==> r.nit == n.nit.value)
      && (n.event.Some? ==> r.event == n.event.value)
  {
  }

  /** A successful insert keeps the table well formed: the new code is fresh and the row fits. */
  lemma InsertKeepsTableWellFormed(table: seq<Reservation>, c: Catalog, n: NewReservation)
    requires WellFormedTable(table)
    requires Insert(table, c, n).Ok?
    ensures WellFormedTable(table + [Insert(table, c, n).value])
  {
    var row := Insert(table, c, n).value;
    var t := table + [row];
    forall j, k | 0 <= j < k < |t| ensures t[j].code != t[k].code {
      if k == |table| {
        assert t[j] == table[j] && t[k] == row;
        assert !CodeTaken(table, row.code);
      } else {
        assert t[j] == table[j] && t[k] == table[k];
      }
    }
  }

  /** Rewriting a row without touching its code keeps the table well formed when the row still fits. */
  lemma RewriteKeepsTableWellFormed(table: seq<Reservation>, id: nat, r: Reservation)
    requires WellFormedTable(table)
    requires id < |table| && r.code == table[id].code && WellFormed(r)
    ensures WellFormedTable(table[id := r])
  {
    var t := table[id := r];
    forall j, k | 0 <= j < k < |t| ensures t[j].code != t[k].code {
      assert t[j].code == table[j].code && t[k].code == table[k].code;
    }
  }
}
