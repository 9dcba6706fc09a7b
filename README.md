# Hotel reservation engine — a Dafny model

This project models the reservation engine of a hotel management backend
(Laravel, MySQL): the `reservations` table with its column limits, defaults,
unique code and foreign keys; the two availability queries (the multi-room
search `buscar_habitaciones` and the single-room check `buscar_habitacion`);
and the three transactions of the reservation controller that change data —
booking (`store`), editing a header (`update`) and cancelling (`destroy`).

Time is counted in whole minutes (`Minute`, an `int`) and dates in whole days
(`Day`); a moment's day is `t / 1440`. Money is counted in cents, so a
`decimal(11,2)` column holds at most `99_999_999_999`. Each table that gets
auto-numbered ids (clients, reservation headers, details, binnacle entries)
is a sequence and a row's id is its position; rooms and the catalogues
(municipalities, users, coins) are keyed by id.

Layout:

- `wrappers.dfy` — `Option` and `Result`.
- `domain.dfy` — days and minutes, the reservation statuses, binnacle
  movements, the room, client, municipality, detail and binnacle-entry
  records, the column names and the error values.
- `reservation_table.dfy` — the `reservations` table: the header record, the
  constraints the migration declares, and the insert that applies them.
- `clients.dfy` — `firstOrCreate` on the clients table keyed by fiscal id (nit).
- `store_state.dfy` — the whole database as one value, its consistency
  invariant, and the per-year count that numbers reservation codes.
- `availability.dfy` — the multi-room search and the single-room check.
- `booking.dfy` — the booking transaction as a function, with its loop over
  detail lines, and the lemmas that describe what a booking stores.
- `booking_search.dfy` — how a booking shows up in the search, and one worked booking.
- `cancellation.dfy` — the cancellation transaction and what it stores.
- `header_update.dfy` — editing the four text columns of a header.
- `store.dfy` — `ReservationStore.Store`, a class holding the tables as
  fields, whose methods run the transactions step by step (the line loop and
  the detail loop are `while` loops) and are proved to leave exactly the state
  the transaction functions describe, and to keep the consistency invariant.

Behaviour worth knowing, all of it following the controller's code:

- A booking without an hour takes the current time of day on both dates (a
  date is parsed with `createFromFormat('Y-m-d')`), counts the whole days
  between the two moments as the accommodation, and charges
  `accommodation * price` per line; with an hour, arrival and the shared end
  are that hour on the arrival date, each line ends its own `minutos` later,
  the accommodation is 0 and a line costs `quantity * price` (quantity 1 when absent).
- A room's occupancy counter `resta` grows by the requested quantity once per
  line on that room, and only when a quantity is given.
- The header's `total` and `total_reservation` are written only when the sum
  of the subtotals is positive; otherwise both stay 0.
- Any failure (unknown municipality, unknown room, a refused insert, a total
  too large for its column) rolls every table back.
- The search leaves a room out when a pending, in-process or confirmed detail
  on it covers the first or the last requested day (endpoint containment, not
  interval overlap); with an hour it compares only the moment `inicio hora`.
- The single-room check looks at the header's status and departure date, so
  it can disagree with the search about the same stay.
- Cancelling does not look at the current status and does not give back
  occupancy: cancelling twice logs the "cancelled" entries twice.

## Model

| member | source | states |
|---|---|---|
| Domain.DayOf | backend/app/Http/Controllers/V1/Principal/Reservation/ReservationController.php:134 | a moment lies within the minutes of its day |
| Domain.TimeOfDay | backend/app/Http/Controllers/V1/Principal/Reservation/ReservationController.php:313-314 | the time of day is in 0..1439 and the moment is its day's start plus it |
| ReservationTable.Violation | backend/database/migrations/2021_02_25_211426_create_reservations_table.php:18-33 | no column is reported exactly when the row fits every length and precision, its code is not taken and its client, user and coin exist |
| ReservationTable.Insert | backend/database/migrations/2021_02_25_211426_create_reservations_table.php:16-33 | leaving out code, name, total, client, user, coin or status refuses the insert; otherwise the row completed with the defaults is stored exactly when it fits every column, its code is not taken and its client, user and coin exist, and a refusal names the first offending column |
| ReservationTable.InsertDefaults | backend/database/migrations/2021_02_25_211426_create_reservations_table.php:19-28 | columns left out take their defaults: nit "CF", event false, reserva true, zero reservation and product totals |
| ReservationTable.InsertKeepsTableWellFormed | backend/database/migrations/2021_02_25_211426_create_reservations_table.php:18 | after an insert every row still fits and no code appears twice |
| ReservationTable.RewriteKeepsTableWellFormed | backend/database/migrations/2021_02_25_211426_create_reservations_table.php:18 | rewriting a row with its code kept and its columns fitting keeps codes unique and rows fitting |
| Clients.FindFrom | backend/app/Http/Controllers/V1/Principal/Reservation/ReservationController.php:282-283 | the first client at or after a position with the fiscal id, and none before it |
| Clients.FindClient | backend/app/Http/Controllers/V1/Principal/Reservation/ReservationController.php:282-283 | the lookup finds the first client with the fiscal id, and finds nothing exactly when no client has it |
| Clients.FindOrCreate | backend/app/Http/Controllers/V1/Principal/Reservation/ReservationController.php:282-292 | an existing client is returned untouched; otherwise the profile is appended under the fiscal id; existing clients never change |
| Clients.FoundIsOnly | backend/app/Http/Controllers/V1/Principal/Reservation/ReservationController.php:282-283 | with unique fiscal ids, a lookup finds the client carrying the fiscal id |
| Clients.FindOrCreateKeepsNitsUnique | backend/app/Http/Controllers/V1/Principal/Reservation/ReservationController.php:282-292 | resolving a client keeps fiscal ids unique |
| Clients.FoundAfterResolving | backend/app/Http/Controllers/V1/Principal/Reservation/ReservationController.php:319-331 | after resolving, a lookup of the same fiscal id finds the resolved client |
| Clients.FindOrCreateIdempotent | backend/app/Http/Controllers/V1/Principal/Reservation/ReservationController.php:319-331 | resolving the same fiscal id again, with any profile, changes nothing and returns the same client |
| StoreState.CountInYear | backend/app/Http/Controllers/V1/Principal/Reservation/ReservationController.php:276 | the count of headers created in a year is at most the table size |
| StoreState.NextSequence | backend/app/Http/Controllers/V1/Principal/Reservation/ReservationController.php:276-277 | the sequence number lies between 1 and the table size plus one |
| StoreState.NextSequenceAdvances | backend/app/Http/Controllers/V1/Principal/Reservation/ReservationController.php:276-277 | a header created in a year advances that year's sequence by one and no other year's |
| Availability.WindowOf | backend/app/Http/Controllers/V1/Principal/Reservation/ReservationController.php:107-157 | no availability filter applies exactly when the first or the last day is missing |
| Availability.Search | backend/app/Http/Controllers/V1/Principal/Reservation/ReservationController.php:113-165 | the search returns only stored rooms |
| Availability.DateSearch | backend/app/Http/Controllers/V1/Principal/Reservation/ReservationController.php:127-148 | without an hour, a live room offering the service is returned iff no holding detail on it covers the first or the last day |
| Availability.TimedSearch | backend/app/Http/Controllers/V1/Principal/Reservation/ReservationController.php:149-157 | with an hour, the last day plays no part, and a live room offering the service is returned iff no holding detail on it covers the requested moment |
| Availability.OpenSearch | backend/app/Http/Controllers/V1/Principal/Reservation/ReservationController.php:158-164 | without both days every live room offering the service is returned; a missing or zero service keeps all |
| Availability.Holding | backend/app/Http/Controllers/V1/Principal/Reservation/ReservationController.php:131 | the selected details are all pending, in process or confirmed |
| Availability.OnlyHoldingDetailsBlock | backend/app/Http/Controllers/V1/Principal/Reservation/ReservationController.php:131 | dropping every detail not pending, in process or confirmed leaves the search result the same |
| Availability.MoreDetailsFewerRooms | backend/app/Http/Controllers/V1/Principal/Reservation/ReservationController.php:128-146 | storing more details never adds a room to a search |
| Availability.ContainmentGap | backend/app/Http/Controllers/V1/Principal/Reservation/ReservationController.php:134 | a stay strictly inside the requested dates does not block its room although it overlaps them |
| Availability.SampleSearches | backend/app/Http/Controllers/V1/Principal/Reservation/ReservationController.php:127-148 | a stay from day 10 to 15 blocks dates 12..20 but not 20..25 nor 5..20 |
| Availability.CheckRoom | backend/app/Http/Controllers/V1/Principal/Reservation/ReservationController.php:216-250 | an unknown room is not found; the message is "Si puede reservar." iff the flag is true iff the room is live and no holding header on it departs within the dates |
| Availability.ChecksDisagree | backend/app/Http/Controllers/V1/Principal/Reservation/ReservationController.php:234-241 | the same stay makes the search leave a room out while the single-room check calls it bookable |
| Availability.CheckReadsOnlyOwners | backend/app/Http/Controllers/V1/Principal/Reservation/ReservationController.php:234-241 | the single-room check depends on each detail only through its room and its header: details that agree on those give the same answer whatever their dates, statuses or prices |
| Booking.DaysBetween | backend/app/Http/Controllers/V1/Principal/Reservation/ReservationController.php:315 | the count is the number of whole days that fit in the distance between the two moments, in either order |
| Booking.DaysBetweenDates | backend/app/Http/Controllers/V1/Principal/Reservation/ReservationController.php:313-315 | two dates at the same time of day are the difference of their days apart |
| Booking.ContextFor | backend/app/Http/Controllers/V1/Principal/Reservation/ReservationController.php:313-315 | without an hour, arrival and departure fall on the requested days and the accommodation is the day difference; with one, both are that hour on the arrival day and the accommodation is 0 |
| Booking.MakeDetail | backend/app/Http/Controllers/V1/Principal/Reservation/ReservationController.php:335-354 | a line's detail is pending, belongs to the header, the line's room and the booked client, carries the line's price, starts at the shared arrival, and costs the accommodation, or the quantity (1 when absent), times the price |
| Booking.BookLine | backend/app/Http/Controllers/V1/Principal/Reservation/ReservationController.php:317-383 | one line keeps the booked client valid |
| Booking.BookLines | backend/app/Http/Controllers/V1/Principal/Reservation/ReservationController.php:317-384 | the line loop keeps the booked client valid |
| Booking.BookLineStep | backend/app/Http/Controllers/V1/Principal/Reservation/ReservationController.php:333-383 | one line fails iff its room is unknown; otherwise it appends one detail and its scheduled entry, adds the subtotal and bumps only its room's counter |
| Booking.LinesOutcome | backend/app/Http/Controllers/V1/Principal/Reservation/ReservationController.php:317-384 | the loop succeeds iff every line names a known room, fails only with an unknown room, keeps the client and totals the line subtotals |
| Booking.AddedIsQuantityTimesVisits | backend/app/Http/Controllers/V1/Principal/Reservation/ReservationController.php:356-359 | what the lines add to a room's counter is the quantity times the number of lines on it |
| Booking.LinesRooms | backend/app/Http/Controllers/V1/Principal/Reservation/ReservationController.php:356-359 | each room's counter grows by what its lines add and nothing else about it changes |
| Booking.LinesRows | backend/app/Http/Controllers/V1/Principal/Reservation/ReservationController.php:335-381 | the loop appends, in line order, the detail for each line and the scheduled entry copying that detail's dates, and keeps the earlier rows |
| Booking.HeaderRow | backend/app/Http/Controllers/V1/Principal/Reservation/ReservationController.php:294-310 | the inserted header supplies every required column exactly when the client has a name, is pending with a zero total for the resolved client, and has a responsible only for an event |
| Booking.Settle | backend/app/Http/Controllers/V1/Principal/Reservation/ReservationController.php:386-389 | settling fails only on a total beyond decimal(11,2), with the total column; a total of zero or less leaves the header as inserted, a positive one is written to both totals |
| Booking.Book | backend/app/Http/Controllers/V1/Principal/Reservation/ReservationController.php:269-398 | an unknown municipality fails the booking; a success adds one header at the next id, keeps every earlier header and leaves the catalogues alone |
| Booking.ResolveHeaderClient | backend/app/Http/Controllers/V1/Principal/Reservation/ReservationController.php:282-292 | the header's client carries the request's fiscal id and a lookup finds it |
| Booking.SumSubsIsSubTotal | backend/app/Http/Controllers/V1/Principal/Reservation/ReservationController.php:383 | the running total is the sum of the stored details' subtotals |
| Booking.BookOutcome | backend/app/Http/Controllers/V1/Principal/Reservation/ReservationController.php:280-396 | an unknown municipality or a refused header fails the booking with that error; otherwise it succeeds iff every line names a known room and the sum of the subtotals fits decimal(11,2), failing with an unknown room or with the total column |
| Booking.BookFailures | backend/app/Http/Controllers/V1/Principal/Reservation/ReservationController.php:280-333 | an unknown municipality, or any line on an unknown room, makes the booking fail |
| Booking.BookedHeader | backend/app/Http/Controllers/V1/Principal/Reservation/ReservationController.php:294-389 | the new header is pending, a reservation, coded from the year's count plus one, with the request's nit, its client's name, as location the municipality's full name, a comma and the client's location, the request's event, coin, a responsible only for events, zero product total, and total = total_reservation = the details' sum when positive, else 0 |
| Booking.MadeLineStored | backend/app/Http/Controllers/V1/Principal/Reservation/ReservationController.php:335-381 | the detail made for a line is pending, on the line's room with its service, price and description, for the header's client, name and coin, with the shared dates and the subtotal, and its entry is scheduled for 60 days over the same dates |
| Booking.LinesStored | backend/app/Http/Controllers/V1/Principal/Reservation/ReservationController.php:317-384 | every line of a successful loop stores the detail and entry described for it, in line order |
| Booking.BookSteps | backend/app/Http/Controllers/V1/Principal/Reservation/ReservationController.php:269-398 | a successful booking had a found municipality, an accepted header for the resolved client, a loop over known rooms and an accepted total, and its state is theirs |
| Booking.BookedLines | backend/app/Http/Controllers/V1/Principal/Reservation/ReservationController.php:335-381 | line k stores a pending detail on its room for the header's client with its price, dates, accommodation and subtotal, and a scheduled entry for it, earlier rows unchanged |
| Booking.BookedRooms | backend/app/Http/Controllers/V1/Principal/Reservation/ReservationController.php:356-359 | every room's counter grows by the quantity times its lines, or not at all without a quantity |
| Booking.BookedClient | backend/app/Http/Controllers/V1/Principal/Reservation/ReservationController.php:282-292 | the header's client is the existing one with the fiscal id, untouched; otherwise exactly one client is appended with the request's name, email, business and location and the municipality and its department, and the header points at it |
| Booking.BookedSequence | backend/app/Http/Controllers/V1/Principal/Reservation/ReservationController.php:276-277 | a booking advances its year's sequence by one |
| Booking.BookedTable | backend/app/Http/Controllers/V1/Principal/Reservation/ReservationController.php:295-310 | the new header keeps the table well formed and references existing rows |
| Booking.LinesRefer | backend/app/Http/Controllers/V1/Principal/Reservation/ReservationController.php:347-376 | the loop keeps details pointing at known headers, rooms and clients, and entries at details |
| Booking.BookPreservesValid | backend/app/Http/Controllers/V1/Principal/Reservation/ReservationController.php:269-398 | a booking keeps every table consistent |
| BookingSearch.BookedStayBlocksSearch | backend/app/Http/Controllers/V1/Principal/Reservation/ReservationController.php:127-148 | after a booking without an hour, a search whose first or last day falls within the stay no longer offers a booked room |
| BookingSearch.BookedSlotBlocksSearch | backend/app/Http/Controllers/V1/Principal/Reservation/ReservationController.php:149-157 | after a timed booking, a timed search on its day within a line's duration no longer offers that room |
| BookingSearch.ThreeNightsBooking | backend/app/Http/Controllers/V1/Principal/Reservation/ReservationController.php:269-398 | three nights in rooms at 100.00 and 150.00 store a new client, total 750.00, two three-night details and two scheduled entries, counters unchanged |
| Cancellation.Format24 | backend/app/Http/Controllers/V1/Principal/Reservation/ReservationController.php:466-467 | a 24-hour stamp has hour 0..23 and minute 0..59 |
| Cancellation.Format12 | backend/app/Http/Controllers/V1/Principal/Reservation/ReservationController.php:466-467 | a 12-hour stamp has hour 1..12 and minute 0..59 |
| Cancellation.Format24RoundTrip | backend/app/Http/Controllers/V1/Principal/Reservation/ReservationController.php:466-467 | a 24-hour stamp reads back as the moment it was taken |
| Cancellation.Format12Shifts | backend/app/Http/Controllers/V1/Principal/Reservation/ReservationController.php:466-467 | a 12-hour stamp reads back twelve hours early from 13:00 on and twelve hours late before 01:00 |
| Cancellation.Format12Counterexample | backend/app/Http/Controllers/V1/Principal/Reservation/ReservationController.php:466-467 | 15:30 is stamped as 03:30, the same stamp as 03:30 itself |
| Cancellation.Cancellations | backend/app/Http/Controllers/V1/Principal/Reservation/ReservationController.php:464-475 | the cancelled entries logged so far point at earlier details |
| Cancellation.CancelEntry | backend/app/Http/Controllers/V1/Principal/Reservation/ReservationController.php:464-475 | the logged entry is an active "cancelled" entry of zero days by the acting user, for the detail and its service, starting and ending at the cancellation moment |
| Cancellation.Deactivate | backend/app/Http/Controllers/V1/Principal/Reservation/ReservationController.php:457-462 | retiring a detail's history keeps every entry but its active flag, and an entry ends active iff it was active and belongs to another detail |
| Cancellation.Cancel | backend/app/Http/Controllers/V1/Principal/Reservation/ReservationController.php:444-485 | cancelling fails, with "not found", iff the header is unknown; otherwise it keeps the number of headers, marks this one cancelled and leaves rooms, clients and catalogues alone |
| Cancellation.CancelStep | backend/app/Http/Controllers/V1/Principal/Reservation/ReservationController.php:453-475 | processing one detail extends the cancelled details, the retired history and the logged entries by that detail exactly when it belongs to the reservation |
| Cancellation.CancelLoopFrom | backend/app/Http/Controllers/V1/Principal/Reservation/ReservationController.php:453-476 | the loop from any detail on ends with every detail of the reservation cancelled, its history retired and one entry each logged |
| Cancellation.CancelOutcome | backend/app/Http/Controllers/V1/Principal/Reservation/ReservationController.php:444-485 | cancelling fails iff the header is unknown; otherwise the header and its details are cancelled, their history retired, the entries appended, and rooms, clients and other headers untouched |
| Cancellation.CancellationAt | backend/app/Http/Controllers/V1/Principal/Reservation/ReservationController.php:464-475 | each logged entry is an active, zero-day "cancelled" entry by the acting user at the cancellation moment, for a detail of the reservation and its service |
| Cancellation.CancellationsOrdered | backend/app/Http/Controllers/V1/Principal/Reservation/ReservationController.php:453-475 | the logged entries follow the detail order |
| Cancellation.CancellationFor | backend/app/Http/Controllers/V1/Principal/Reservation/ReservationController.php:453-475 | every detail of the reservation processed so far has a logged entry |
| Cancellation.CancellationsOnePerDetail | backend/app/Http/Controllers/V1/Principal/Reservation/ReservationController.php:464-475 | the logged entries are active, zero-day, stamped with the cancellation moment (the 24-hour stamp; see Findings), in increasing detail order, each for a detail of the reservation and one for every such detail |
| Cancellation.CancellationsUnique | backend/app/Http/Controllers/V1/Principal/Reservation/ReservationController.php:464-475 | no detail gets two cancelled entries from one cancellation |
| Cancellation.RetiredHistory | backend/app/Http/Controllers/V1/Principal/Reservation/ReservationController.php:457-462 | a stored entry ends inactive iff it was inactive or belongs to a detail of the reservation; nothing else about it changes |
| Cancellation.CancelledDetailsRelease | backend/app/Http/Controllers/V1/Principal/Reservation/ReservationController.php:454-455 | every detail of the reservation ends cancelled and holds nothing |
| Cancellation.CancelWidensSearch | backend/app/Http/Controllers/V1/Principal/Reservation/ReservationController.php:444-476 | every room a search offered before a cancellation it still offers after |
| Cancellation.CancelClearsCheck | backend/app/Http/Controllers/V1/Principal/Reservation/ReservationController.php:444-476 | after a cancellation no detail of the reservation stops the single-room check, and a known room is bookable iff it is live and no detail of another reservation ties it to a holding header departing within the dates |
| Cancellation.CancelPreservesValid | backend/app/Http/Controllers/V1/Principal/Reservation/ReservationController.php:444-485 | a cancellation keeps every table consistent |
| Cancellation.CancelTwice | backend/app/Http/Controllers/V1/Principal/Reservation/ReservationController.php:446-476 | cancelling again succeeds and logs another entry per detail of the reservation |
| HeaderUpdate.Dirty | backend/app/Http/Controllers/V1/Principal/Reservation/ReservationController.php:429-434 | an edit is not dirty exactly when nit and name are given and applying the four values leaves the header as it was |
| HeaderUpdate.Update | backend/app/Http/Controllers/V1/Principal/Reservation/ReservationController.php:423-442 | an edit fails iff the header is unknown, nothing changes or a value does not fit; a success keeps the number of headers and the edited header's code |
| HeaderUpdate.EditViolation | backend/app/Http/Controllers/V1/Principal/Reservation/ReservationController.php:436 | the edit is accepted iff nit and name are given and every value fits its column |
| HeaderUpdate.UpdateOutcome | backend/app/Http/Controllers/V1/Principal/Reservation/ReservationController.php:428-436 | an edit fails iff the header is unknown, nothing changes or a value does not fit; on success the four columns take the values and nothing else changes |
| HeaderUpdate.UpdateTwice | backend/app/Http/Controllers/V1/Principal/Reservation/ReservationController.php:433-434 | submitting the same values again saves nothing |
| HeaderUpdate.UpdateKeepsTableWellFormed | backend/app/Http/Controllers/V1/Principal/Reservation/ReservationController.php:436 | a successful edit keeps codes unique and rows fitting |
| ReservationStore.UpdatePreservesValid | backend/app/Http/Controllers/V1/Principal/Reservation/ReservationController.php:423-442 | an edit keeps every table consistent |
| ReservationStore.Store.constructor | backend/database/migrations/2021_02_25_211426_create_reservations_table.php:16 | a new store has empty tables and is consistent |
| ReservationStore.Store.Rollback | backend/app/Http/Controllers/V1/Principal/Reservation/ReservationController.php:394-396 | every table is put back as it was |
| ReservationStore.Store.Book | backend/app/Http/Controllers/V1/Principal/Reservation/ReservationController.php:269-398 | the stored tables end as the booking transaction describes, or unchanged with its error; consistency is kept |
| ReservationStore.Store.StoreLine | backend/app/Http/Controllers/V1/Principal/Reservation/ReservationController.php:319-383 | one line leaves the tables, client and total the line step describes, or reports its error |
| ReservationStore.Store.StoreLines | backend/app/Http/Controllers/V1/Principal/Reservation/ReservationController.php:317-384 | the loop leaves the tables, client and total the line loop describes, or reports its error |
| ReservationStore.Store.Cancel | backend/app/Http/Controllers/V1/Principal/Reservation/ReservationController.php:444-485 | the stored tables end as the cancellation describes, or unchanged with its error; consistency is kept |
| ReservationStore.Store.Update | backend/app/Http/Controllers/V1/Principal/Reservation/ReservationController.php:423-442 | the headers end as the edit describes, or unchanged with its error; consistency is kept |

## Left out

- Presentation: the joined names, photos, price and massage lists the search
  returns, and the response envelopes, are not modelled; the search is
  modelled as the set of room ids it returns.
- The capacity filter of the search is commented out in the controller, so
  `cantidad` plays no part in the search.
- The current user, the current moment and the code generator
  (`generadorCodigo`) are parameters; the municipality's full name is data.
- Transactions are modelled as all-or-nothing state changes; concurrent
  bookings, and the race on the per-year count that numbers codes, are not modelled.
- Requests are typed values: a missing array key, a malformed date or a
  non-numeric price in the request is not modelled. An explicit null sent
  for `event` is treated like a field left out.
- The details, binnacle, rooms and clients migrations are not part of this
  model: the binnacle `active` column is taken to default to true, its
  `subtraction` column is left out, the client columns are kept as given, and
  a room that is soft-deleted is still found by the booking.
- The single-room check filters on a header departure date that the
  reservations migration does not declare; the model takes those dates as a
  separate map from header id to moment.
- Comparisons of dates and times are done on day and minute numbers; the
  string comparison the database does on formatted dates is taken to agree
  with them, and seconds are not modelled.
- Statuses and movements are named constants; their numeric ids are not modelled.
- A line on an unknown room fails the booking with a "room not found" error;
  the controller fails there by reading a property of a missing room, and
  its error message is not modelled.
- Clients.FindClient, Clients.NitsUnique and ReservationTable.CodeTaken compare
  fiscal ids and codes as exact strings. The database's default collation
  ignores letter case and trailing spaces, so it treats "123-k" as the
  existing "123-K": the database finds that client and refuses such a second
  code. The model instead creates a second client and accepts the code, and
  Booking.BookedClient assumes exact matching.
- Cancellation.CancelEntry and Cancellation.Cancel stamp the "cancelled"
  entries with the 24-hour moment of the cancellation. The controller stores
  the 12-hour stamp, which is twelve hours off from 13:00 on and before 01:00
  (see Findings and Cancellation.Format12Shifts).
- HeaderUpdate.UpdateOutcome: the `updated_at` column that `timestamps()`
  adds is not modelled. Every save in booking, editing and cancelling sets
  it, so "nothing else changes" holds for every column except that one; the
  header's creation time is modelled as the booking's clock.
- Booking.BookedHeader: the stored `total_reservation` is the sum of the
  subtotals only when that sum is positive; otherwise both totals stay 0,
  because the controller saves the header again only in that case.
- Availability.Search: its own contract states only that it returns stored
  rooms; which rooms it returns is stated by Availability.DateSearch,
  Availability.TimedSearch and Availability.OpenSearch.
- Availability.Holding: its own contract states only that every detail it
  keeps is holding; Availability.OnlyHoldingDetailsBlock states what that means for the search.
- Booking.BookLine: its own contract states only that the booked client stays
  valid; what one line stores is stated by Booking.BookLineStep.
- Booking.BookLines: its own contract states only that the booked client stays
  valid; the loop's outcome is stated by Booking.LinesOutcome, Booking.LinesRows,
  Booking.LinesRooms and Booking.LinesStored.
- Cancellation.Cancellations: its own contract states only that each entry
  points at an earlier detail; Cancellation.CancellationsOnePerDetail states the rest.
- StoreState.CountInYear: its own contract is a bound; the numbering is stated
  by StoreState.NextSequenceAdvances and Booking.BookedSequence.
- StoreState.NextSequence: its own contract is a bound; the numbering is stated
  by StoreState.NextSequenceAdvances and Booking.BookedSequence.

## Findings

| source | as written | input that shows it | evidently intended | confidence | as-written member | corrected member |
|---|---|---|---|---|---|---|
| backend/app/Http/Controllers/V1/Principal/Reservation/ReservationController.php:466-467 | the "cancelled" entry is stamped with `date('Y-m-d h:i:s')`, a 12-hour hour with no meridiem | a cancellation at 15:30 is stored as 03:30 of the same day (and one at 00:30 as 12:30) | a 24-hour stamp (`H`), which reads back as the moment of cancellation | not executed | Cancellation.Format12Counterexample | Cancellation.Format24RoundTrip |
