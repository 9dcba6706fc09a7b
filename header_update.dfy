/**
 * Editing a reservation header: the fiscal id, name, location and responsible
 * person are overwritten with the submitted values; nothing is saved when none
 * of them changes, and the save is refused when a value breaks its column.
 */
module HeaderUpdate {
  import opened Wrappers
  import opened Domain
  import opened ReservationTable

  /** The submitted values; an absent field is a null. */
  datatype Edit = Edit(nit: Option<string>, name: Option<string>, ubication: Option<string>, responsable: Option<string>)

  /** The edit differs from the stored header in at least one of its four columns: saving it would change the header. */
  predicate Dirty(h: Reservation, e: Edit): (b: bool)
    ensures !b <==>
      && e.nit.Some? && e.name.Some?
      && h.(nit := e.nit.value, name := e.name.value, ubication := e.ubication, responsable := e.responsable) == h
  {
    e.nit != Some(h.nit) || e.name != Some(h.name) || e.ubication != h.ubication || e.responsable != h.responsable
  }

  /** The first of the four edited columns that refuses its new value: a null in a required column, or a value too long. */
  function EditViolation(e: Edit): (v: Option<Column>)
    ensures v.None? <==>
      && e.nit.Some? && |e.nit.value| <= NitLength
      && e.name.Some? && |e.name.value| <= NameLength
      && FitsIn(e.ubication, UbicationLength) && FitsIn(e.responsable, ResponsableLength)
  {
    if e.nit.None? || |e.nit.value| > NitLength then Some(Nit)
    else if e.name.None? || |e.name.value| > NameLength then Some(Name)
    else if !FitsIn(e.ubication, UbicationLength) then Some(Ubication)
    else if !FitsIn(e.responsable, ResponsableLength) then Some(Responsable)
    else None
  }

  /** Editing header `rid` of `table`: the new table, or why nothing was saved. */
  function Update(table: seq<Reservation>, rid: nat, e: Edit): (r: Result<seq<Reservation>, Error>)
    ensures r.Err? <==> rid >= |table| || !Dirty(table[rid], e) || EditViolation(e).Some?
    ensures r.Ok? ==> |r.value| == |table| && r.value[rid].code == table[rid].code
  {
    if rid >= |table| then Err(ReservationNotFound)
    else if !Dirty(table[rid], e) then Err(NothingToUpdate)
    else match EditViolation(e)
      case Some(col) => Err(Violates(col))
      case None =>
        Ok(table[rid := table[rid].(nit := e.nit.value, name := e.name.value,
                                    ubication := e.ubication, responsable := e.responsable)])
  }

  /**
   * An edit fails exactly when the header is unknown, when it changes nothing,
   * or when a value breaks its column; a successful edit sets the four columns
   * and leaves every other column and every other header as it was.
   */
  lemma UpdateOutcome(table: seq<Reservation>, rid: nat, e: Edit)
    ensures Update(table, rid, e).Err? <==>
      rid >= |table| || !Dirty(table[rid], e) || EditViolation(e).Some?
    ensures rid >= |table| ==> Update(table, rid, e) == Err(ReservationNotFound)
    ensures rid < |table| && !Dirty(table[rid], e) ==> Update(table, rid, e) == Err(NothingToUpdate)
    ensures Update(table, rid, e).Ok? ==>
      var t := Update(table, rid, e).value;
      && |t| == |table|
      && Some(t[rid].nit) == e.nit && Some(t[rid].name) == e.name
      && t[rid].ubication == e.ubication && t[rid].responsable == e.responsable
      && t[rid].(nit := table[rid].nit, name := table[rid].name,
                 ubication := table[rid].ubication, responsable := table[rid].responsable) == table[rid]
      && forall k :: 0 <= k < |table| && k != rid ==> t[k] == table[k]
  {
  }

  /** Submitting the same values again saves nothing. */
  lemma UpdateTwice(table: seq<Reservation>, rid: nat, e: Edit)
    requires Update(table, rid, e).Ok?
    ensures Update(Update(table, rid, e).value, rid, e) == Err(NothingToUpdate)
  {
  }

  /** A successful edit keeps the table well formed: the code is untouched and the four values fit. */
  lemma UpdateKeepsTableWellFormed(table: seq<Reservation>, rid: nat, e: Edit)
    requires WellFormedTable(table)
    requires Update(table, rid, e).Ok?
    ensures WellFormedTable(Update(table, rid, e).value)
  {
    var h := table[rid].(nit := e.nit.value, name := e.name.value, ubication := e.ubication, responsable := e.responsable);
    assert WellFormed(table[rid]);
    RewriteKeepsTableWellFormed(table, rid, h);
  }
}
