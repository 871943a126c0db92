# Hotel reservations, event-sourced: a Dafny model

This project models the core of a CQRS hotel-reservation service.

- **The reservation value** (`Reservations`, `reservation.dfy`). A reservation has a guest, a hotel, a start date, an end date, a room and a confirmation number.
  - Its identity is the confirmation number alone.
  - `Intersect` is the booking-conflict rule: same hotel, same room, and the start date of either stay lies in the other's closed date range. For stays whose start is not after their end this is the same as the closed ranges sharing a day (`IntersectIffSharedDay`). No date order is checked, and for a stay whose end comes before its start the two differ (`IntersectWithoutSharedDay`).
  - `Make` copies the attributes and stamps a ten-character number over `A`–`Z`, `0`–`9`.
- **The per-hotel aggregate** (`Hotel`, `hotel.dfy`). These are pure functions.
  - `Decide` is the command handler. It maps a state and a command to an optional event and an optional reply.
  - `Evolve` is the event handler.
  - `Replay` is recovery: a left fold of `Evolve` over the event log, starting from the empty state.
  - `Process` runs a sequence of commands one at a time and records the log it writes.
  - The headline invariant is `Valid`: entries are keyed by their own number, all belong to the hotel, and no two of them intersect. It holds in the empty state and survives every event `Decide` persists.
- **The read-side projector** (`HotelEventReader`, `projection.dfy`). A class `ReadModel` holds three tables as maps:
  - availability, keyed (hotel, date, room);
  - reservations by hotel and date, keyed (hotel, start date, room);
  - reservations by guest, keyed by confirmation number.

  `MakeReservation` and `RemoveReservation` loop over the days of the half-open stay `[start, end)`, writing one availability entry per day. Then they upsert or delete one row in each reservation table. Each method is proved against a pure function of the tables (`AfterMake`, `AfterRemove`). `Apply` is the per-event dispatch and `Run` is the stream.
- **Read side against write side** (`ProjectionConsistency`, `consistency.dfy`). Take any run of the aggregate in which no accepted booking draws a confirmation number already in use (a booking refused for a conflict may draw any number). Projecting that run's log from empty tables gives views that describe the final state:
  - a slot is marked unavailable exactly when a current reservation's stay covers it;
  - the by-guest table holds exactly the current reservations.

Dates are day numbers, and "plus one day" is `+ 1`. The random part of `Reservation.make` is a parameter: a sequence of ten picks, each an index into the 36-character alphabet.

Some details of the code that the model keeps:
- A conflicting booking is answered with a fixed message that does not name the conflicting reservation (Hotel.kt:51-54).
- The by-guest table's key is a constant guest last name plus the confirmation number (HotelEventReader.kt:81-83, 137-138). The constant adds nothing, so the model keys that table by the number alone.
- The projector reads the events of the single stream `"hotel_82"` (HotelEventReader.kt:153-156). A graph over the stream of all persistence ids is built (HotelEventReader.kt:36-38) but never run; the only stream run is the one at HotelEventReader.kt:179.

## Model

| member | source | states |
|---|---|---|
| Reservations.IntersectNeedsSameHotelAndRoom | src/main/kotlin/com/martishin/cqrsexample/models/domain/Reservation.kt:16-17 | reservations of different hotels, or of different rooms, never conflict |
| Reservations.Intersect | src/main/kotlin/com/martishin/cqrsexample/models/domain/Reservation.kt:16-19 | the conflict rule: same hotel, same room, and the start of either stay lies in the other's closed date range; its properties are the `Intersect*` lemmas below |
| Reservations.SameReservation | src/main/kotlin/com/martishin/cqrsexample/models/domain/Reservation.kt:21-26 | `equals`: two reservations are equal iff their confirmation numbers are; see `SameReservationIgnoresAttributes` and `SameReservationIsEquivalence` |
| Reservations.HashCode | src/main/kotlin/com/martishin/cqrsexample/models/domain/Reservation.kt:28-30 | `hashCode`: the platform string hash of the confirmation number; see `HashCodeAgreesWithEquality` |
| Reservations.IntersectBoundaryInclusive | src/main/kotlin/com/martishin/cqrsexample/models/domain/Reservation.kt:18 | both bounds are inclusive: a stay ending on day D conflicts, in both argument orders, with a stay of the same room starting on D |
| Reservations.IntersectSymmetric | src/main/kotlin/com/martishin/cqrsexample/models/domain/Reservation.kt:18 | the conflict relation is symmetric |
| Reservations.IntersectReflexive | src/main/kotlin/com/martishin/cqrsexample/models/domain/Reservation.kt:18 | a reservation whose start is not after its end conflicts with itself |
| Reservations.IntersectIffSharedDay | src/main/kotlin/com/martishin/cqrsexample/models/domain/Reservation.kt:16-19 | for well-formed ranges, `intersect` holds iff the hotel and room match and some day lies in both closed ranges (both directions) |
| Reservations.IntersectWithoutSharedDay | src/main/kotlin/com/martishin/cqrsexample/models/domain/Reservation.kt:16-19 | dates are not checked for order, so a stay from day 5 back to day 3 conflicts with a stay of days 1–10 of the same room, although no day lies in both closed ranges |
| Reservations.SameReservationIgnoresAttributes | src/main/kotlin/com/martishin/cqrsexample/models/domain/Reservation.kt:21-26 | equality holds for any two reservations with the same number whatever their other fields, and fails for any two with different numbers |
| Reservations.SameReservationIsEquivalence | src/main/kotlin/com/martishin/cqrsexample/models/domain/Reservation.kt:21-26 | equality by confirmation number is reflexive, symmetric and transitive |
| Reservations.HashCodeAgreesWithEquality | src/main/kotlin/com/martishin/cqrsexample/models/domain/Reservation.kt:28-30 | equal reservations have equal hash codes, for any string hash |
| Reservations.Symbol | src/main/kotlin/com/martishin/cqrsexample/models/domain/Reservation.kt:40-43 | every pick yields an upper-case letter or a digit |
| Reservations.SymbolInjective | src/main/kotlin/com/martishin/cqrsexample/models/domain/Reservation.kt:40 | the alphabet `('A'..'Z') + ('0'..'9')` has no repeated character |
| Reservations.Spell | src/main/kotlin/com/martishin/cqrsexample/models/domain/Reservation.kt:41-44 | joining the picked characters gives one character per pick, each a letter or digit |
| Reservations.SpellInjective | src/main/kotlin/com/martishin/cqrsexample/models/domain/Reservation.kt:41-44 | different pick sequences give different confirmation numbers |
| Reservations.Make | src/main/kotlin/com/martishin/cqrsexample/models/domain/Reservation.kt:33-46 | `make` copies guest, hotel, dates and room unchanged and yields a 10-character number over A–Z and 0–9 |
| Hotel.Decide | src/main/kotlin/com/martishin/cqrsexample/actors/Hotel.kt:32-122 | a persisted event is always also the reply; every command except the catch-all gets exactly one reply; queries and the catch-all persist nothing |
| Hotel.Evolve | src/main/kotlin/com/martishin/cqrsexample/actors/Hotel.kt:124-148 | keeps entries keyed by their own number; Accepted adds the number, Updated removes the old number and adds the new one, Canceled removes the number |
| Hotel.EmptyState | src/main/kotlin/com/martishin/cqrsexample/actors/Hotel.kt:28-30 | the initial state holds no reservation; `EmptyStateValid` shows it satisfies the invariant |
| Hotel.HasConflict | src/main/kotlin/com/martishin/cqrsexample/actors/Hotel.kt:45 | some stored reservation intersects the tentative one |
| Hotel.HasConflictExcept | src/main/kotlin/com/martishin/cqrsexample/actors/Hotel.kt:71-76 | some stored reservation with a different number intersects the changed one; `ChangeReservationIgnoresItself` relates it to `HasConflict` |
| Hotel.Insert | src/main/kotlin/com/martishin/cqrsexample/actors/Hotel.kt:129 | `Set + r` with equality by number: the number is added, every stored entry is kept as it was (an equal element already present wins), and a new number maps to `r` |
| Hotel.Replay | src/main/kotlin/com/martishin/cqrsexample/actors/Hotel.kt:124-148 | recovery folds the event handler over the log from the empty state; every recovered state keeps each entry under its own number |
| Hotel.Step | src/main/kotlin/com/martishin/cqrsexample/actors/Hotel.kt:48-49 | one command round trip: the handler decides, the persisted event (if any) is applied by the event handler, and the reply is sent; the same pattern recurs at Hotel.kt:90-91 and 97-98. `DecidePreservesValid` is stated over it |
| Hotel.Process | src/main/kotlin/com/martishin/cqrsexample/actors/Hotel.kt:32-148 | the aggregate handling its commands one at a time from the empty state and appending each persisted event to its log: at most one event per command |
| Hotel.EmptyStateValid | src/main/kotlin/com/martishin/cqrsexample/actors/Hotel.kt:28-30 | the empty state satisfies the invariant |
| Hotel.DecidePreservesValid | src/main/kotlin/com/martishin/cqrsexample/actors/Hotel.kt:36-104 | every event `Decide` persists, once applied, keeps the state valid: keyed, of this hotel, and with no two intersecting reservations |
| Hotel.RecoveryReproducesState | src/main/kotlin/com/martishin/cqrsexample/actors/Hotel.kt:124-148 | replaying from the empty state the log a run wrote gives exactly the state the run ended in |
| Hotel.ProcessKeepsValid | src/main/kotlin/com/martishin/cqrsexample/actors/Hotel.kt:32-148 | every state reached by processing commands one at a time is valid |
| Hotel.RecoveredStateValid | src/main/kotlin/com/martishin/cqrsexample/actors/Hotel.kt:124-148 | the state recovered from any run's log has no two intersecting reservations |
| Hotel.LookupMatchesFind | src/main/kotlin/com/martishin/cqrsexample/actors/Hotel.kt:58 | in a keyed state, looking a number up as a key finds exactly the reservation that `find { it.confirmationNumber == cn }` finds |
| Hotel.MakeReservationOutcome | src/main/kotlin/com/martishin/cqrsexample/actors/Hotel.kt:36-56 | the tentative reservation carries the aggregate's hotel. On a conflict: the fixed failure, no event, state unchanged. Otherwise `ReservationAccepted(t)` is persisted and echoed, and under a new number it is added |
| Hotel.MakeReservationCollisionKeepsStored | src/main/kotlin/com/martishin/cqrsexample/actors/Hotel.kt:128-132 | when the drawn number is already stored and nothing conflicts, the event is persisted but the state keeps the stored reservation, since `Set + r` keeps an equal element |
| Hotel.SecondBookingOfRoom | src/main/kotlin/com/martishin/cqrsexample/actors/Hotel.kt:36-56 | on an empty hotel, a first booking of a room is accepted; a second booking of that room fails with the conflict message and leaves the state as it was iff one stay's start lies in the other's closed range, and is accepted otherwise |
| Hotel.SameDatesBookingRejected | src/test/kotlin/com/martishin/cqrsexample/actors/HotelTest.kt:50-80 | the same room booked twice for the same dates: the first booking is accepted, the second fails with the conflict message and changes nothing |
| Hotel.ChangeReservationNotFound | src/main/kotlin/com/martishin/cqrsexample/actors/Hotel.kt:57-83 | changing a number that no stored reservation carries replies "not found" and persists nothing |
| Hotel.ChangeReservationConflict | src/main/kotlin/com/martishin/cqrsexample/actors/Hotel.kt:71-88 | a change whose new stay meets another reservation replies "conflicting reservations", persists nothing, and a later GetReservation still finds the original |
| Hotel.ChangeReservationIgnoresItself | src/main/kotlin/com/martishin/cqrsexample/actors/Hotel.kt:71-91 | in any keyed state the conflict check of a change is exactly "the new stay meets a stored reservation other than the one being changed"; the change is persisted iff it meets none of the others, and fails with "conflicting reservations" iff it meets one |
| Hotel.ChangeReservationSuccess | src/main/kotlin/com/martishin/cqrsexample/actors/Hotel.kt:57-91 | a successful change persists `ReservationUpdated(old, new)`. `new` keeps guest, hotel and number and takes the new dates and room. Afterwards the number maps to `new` and every other entry is unchanged |
| Hotel.CancelThenGetNotFound | src/main/kotlin/com/martishin/cqrsexample/actors/Hotel.kt:94-116 | cancelling a stored number persists `ReservationCanceled` of that reservation, and GetReservation afterwards replies "Reservation not found" |
| Hotel.CancelReservationNotFound | src/main/kotlin/com/martishin/cqrsexample/actors/Hotel.kt:94-105 | cancelling an unknown number replies "not found" and persists nothing |
| Hotel.ReservationCount | src/main/kotlin/com/martishin/cqrsexample/actors/Hotel.kt:106-108 | in a keyed state there are exactly as many stored reservations as confirmation numbers |
| Hotel.QueriesAnswerFromState | src/main/kotlin/com/martishin/cqrsexample/actors/Hotel.kt:106-116 | GetAllReservations replies with exactly the stored reservations, one per number. GetReservation finds the stored one or fails. Neither changes the state |
| Hotel.OneBookingThenGetAllListsOne | src/test/kotlin/com/martishin/cqrsexample/actors/HotelTest.kt:114-136 | after one accepted booking on an empty hotel, GetAllReservations lists exactly one reservation |
| Hotel.UnhandledIsIgnored | src/main/kotlin/com/martishin/cqrsexample/actors/Hotel.kt:117-119 | the catch-all handler persists nothing, replies nothing and changes nothing |
| Hotel.AcceptedAdds | src/main/kotlin/com/martishin/cqrsexample/actors/Hotel.kt:128-132 | Accepted with a new number adds that reservation and grows the state by one. With a number already stored it leaves the state unchanged |
| Hotel.UpdatedReplaces | src/main/kotlin/com/martishin/cqrsexample/actors/Hotel.kt:133-140 | removing the old reservation and then adding the new one with the same number replaces the entry |
| Hotel.CanceledRemoves | src/main/kotlin/com/martishin/cqrsexample/actors/Hotel.kt:141-145 | Canceled removes that number, keeps every other entry, and shrinks a state that held it by one |
| HotelEventReader.ReadModel.MakeReservation | src/main/kotlin/com/martishin/cqrsexample/apps/HotelEventReader.kt:41-95 | the per-day loop and the two upserts leave the tables equal to `AfterMake` of the old tables |
| HotelEventReader.AfterMake | src/main/kotlin/com/martishin/cqrsexample/apps/HotelEventReader.kt:41-95 | the tables after `makeReservation`: the stay's days set unavailable, one upsert into each reservation table; pinned down by `MakeBlocksExactlyTheStay` and `MakeUpsertsRows` |
| HotelEventReader.DaysBlocked | src/main/kotlin/com/martishin/cqrsexample/apps/HotelEventReader.kt:49 | `ChronoUnit.DAYS.between(startDate, endDate)`: the number of nights; the same count at HotelEventReader.kt:106. Its effect is stated by `EmptyStayChangesNoAvailability` |
| HotelEventReader.SetDays | src/main/kotlin/com/martishin/cqrsexample/apps/HotelEventReader.kt:51-64 | the per-day availability writes of `(0 until daysBlocked)`; `removeReservation` does the same at HotelEventReader.kt:108-121. Which slots it sets is stated by `SetDaysAt` |
| HotelEventReader.AfterLog | src/main/kotlin/com/martishin/cqrsexample/apps/HotelEventReader.kt:153-176 | the tables after the stream's events, applied in journal order; `ReadModel.Run` is proved equal to it and `RerunFromStart` re-runs it |
| HotelEventReader.AfterRemove | src/main/kotlin/com/martishin/cqrsexample/apps/HotelEventReader.kt:98-150 | the tables after `removeReservation`: the stay's days set available, one delete from each reservation table; pinned down by `RemoveFreesExactlyTheStay` and `RemoveDeletesRows` |
| HotelEventReader.AfterEvent | src/main/kotlin/com/martishin/cqrsexample/apps/HotelEventReader.kt:157-176 | the dispatch on one journal event: Accepted → make, Updated → remove old then make new, Canceled → remove, anything else → no change |
| HotelEventReader.ReadModel.RemoveReservation | src/main/kotlin/com/martishin/cqrsexample/apps/HotelEventReader.kt:98-150 | the per-day loop and the two deletes leave the tables equal to `AfterRemove` of the old tables |
| HotelEventReader.ReadModel.Apply | src/main/kotlin/com/martishin/cqrsexample/apps/HotelEventReader.kt:157-176 | the dispatch gives Accepted → make, Updated → remove old then make new, Canceled → remove, anything else → nothing |
| HotelEventReader.ReadModel.Run | src/main/kotlin/com/martishin/cqrsexample/apps/HotelEventReader.kt:153-179 | applying the stream's events in journal order leaves the tables equal to the fold `AfterLog` |
| HotelEventReader.SetDaysAt | src/main/kotlin/com/martishin/cqrsexample/apps/HotelEventReader.kt:49-64 | the per-day writes set exactly the slots `start .. start + count - 1` of that room and keep every other entry |
| HotelEventReader.MakeBlocksExactlyTheStay | src/main/kotlin/com/martishin/cqrsexample/apps/HotelEventReader.kt:49-64 | `makeReservation` marks unavailable exactly the slots of `[start, end)` for the reservation's hotel and room; every other slot keeps its entry |
| HotelEventReader.MakeLeavesEndDay | src/main/kotlin/com/martishin/cqrsexample/apps/HotelEventReader.kt:49-58 | the end day of the stay is not touched |
| HotelEventReader.EmptyStayChangesNoAvailability | src/main/kotlin/com/martishin/cqrsexample/apps/HotelEventReader.kt:49-52 | when the end date is not after the start date, neither make nor remove changes any availability entry |
| HotelEventReader.RemoveFreesExactlyTheStay | src/main/kotlin/com/martishin/cqrsexample/apps/HotelEventReader.kt:106-121 | `removeReservation` marks available exactly the same slots and keeps every other entry |
| HotelEventReader.MakeUpsertsRows | src/main/kotlin/com/martishin/cqrsexample/apps/HotelEventReader.kt:66-88 | `makeReservation` upserts the reservation's row under (hotel, start, room) and under its number, and changes no other row |
| HotelEventReader.RemoveDeletesRows | src/main/kotlin/com/martishin/cqrsexample/apps/HotelEventReader.kt:123-143 | `removeReservation` deletes the row keyed (hotel, start, room) and the row keyed by the number, and changes no other row |
| HotelEventReader.UpdatedRemovesThenMakes | src/main/kotlin/com/martishin/cqrsexample/apps/HotelEventReader.kt:163-166 | after an update, every slot of the new stay is unavailable, including slots also in the old stay. Slots only in the old stay are available, and the by-guest row holds the new reservation |
| HotelEventReader.SetDaysIdempotent | src/main/kotlin/com/martishin/cqrsexample/apps/HotelEventReader.kt:52-64 | writing the same value over the same days twice equals writing it once |
| HotelEventReader.MakeIdempotent | src/main/kotlin/com/martishin/cqrsexample/apps/HotelEventReader.kt:41-95 | projecting the same `ReservationAccepted` twice leaves the tables as projecting it once |
| HotelEventReader.RemoveIdempotent | src/main/kotlin/com/martishin/cqrsexample/apps/HotelEventReader.kt:98-150 | projecting the same removal twice leaves the tables as projecting it once |
| HotelEventReader.OtherEventIgnored | src/main/kotlin/com/martishin/cqrsexample/apps/HotelEventReader.kt:172-174 | an event that is not a reservation event leaves the tables unchanged |
| HotelEventReader.EventAt | src/main/kotlin/com/martishin/cqrsexample/apps/HotelEventReader.kt:157-176 | projecting one event leaves every key it writes with an entry fixed by the event alone, whatever the tables held before, and leaves every other key's entry as it was |
| HotelEventReader.AfterEventIdempotent | src/main/kotlin/com/martishin/cqrsexample/apps/HotelEventReader.kt:157-176 | projecting any journal event twice, the change (remove old, then make new) included, leaves the tables as projecting it once |
| HotelEventReader.LogFrame | src/main/kotlin/com/martishin/cqrsexample/apps/HotelEventReader.kt:153-176 | a key that no event of the stream writes keeps its starting entry |
| HotelEventReader.LogDetermined | src/main/kotlin/com/martishin/cqrsexample/apps/HotelEventReader.kt:153-176 | a key some event of the stream writes ends with an entry that does not depend on the starting tables |
| HotelEventReader.RerunFromStart | src/main/kotlin/com/martishin/cqrsexample/apps/HotelEventReader.kt:153-179 | after the stream stops at any point, running it again from the start over the tables already written gives the same tables as one uninterrupted run |
| ProjectionConsistency.SharedSlotIntersects | src/main/kotlin/com/martishin/cqrsexample/models/domain/Reservation.kt:16-19 | two stays that block the same slot conflict under `intersect`, so the aggregate never stores both |
| ProjectionConsistency.DecidedEventApplicable | src/main/kotlin/com/martishin/cqrsexample/actors/Hotel.kt:36-104 | on a valid state, an event `Decide` persists fits that state, provided an accepted booking drew a fresh number. It is a new non-conflicting booking, or a change or cancellation of the reservation actually stored |
| ProjectionConsistency.MirrorAfterAccepted | src/main/kotlin/com/martishin/cqrsexample/apps/HotelEventReader.kt:159-162 | projecting a new booking keeps the tables describing the state with that booking added |
| ProjectionConsistency.MirrorAfterUpdated | src/main/kotlin/com/martishin/cqrsexample/apps/HotelEventReader.kt:163-167 | projecting a change as remove-then-make keeps the tables describing the state with the entry replaced |
| ProjectionConsistency.MirrorAfterCanceled | src/main/kotlin/com/martishin/cqrsexample/apps/HotelEventReader.kt:168-171 | projecting a cancellation keeps the tables describing the state with the entry removed |
| ProjectionConsistency.MirrorPreserved | src/main/kotlin/com/martishin/cqrsexample/apps/HotelEventReader.kt:157-176 | projecting any event that fits the state keeps the tables describing the evolved state |
| ProjectionConsistency.ProjectionMirrorsAggregate | src/main/kotlin/com/martishin/cqrsexample/apps/HotelEventReader.kt:153-179 | rebuilding the tables from empty out of a run's log (no accepted booking drew a number in use) gives: a slot is unavailable iff a current reservation covers it, and the by-guest table holds exactly the current reservations |

## Left out

- Akka persistence is not modelled: the journal, durable appends, append failures, snapshots, actor mailboxes and the per-hotel router. An append is taken to always succeed, and commands reach one aggregate one at a time.
- Ktor HTTP routes, JSON and date serialization, the demo apps, the load generator and the table cleaner are not part of this model.
- Randomness is a parameter. The ten picks behind a confirmation number are passed in. No check against numbers already in use is made, as in the code. `ProjectionConsistency.ProjectionMirrorsAggregate` assumes no accepted booking collides, and `Hotel.MakeReservationCollisionKeepsStored` shows what a collision does.
- `hashCode`: the platform's string hash is not visible. It is a parameter of `Reservations.HashCode`.
- Timeouts of the ask pattern and the reply-to actor references are not modelled; replies are values.
- Hotel.QueriesAnswerFromState: the reply to `GetAllReservations` is the set of stored reservations; its order is dropped. In the code `toList()` of the state's insertion-ordered set lists reservations in the order they were added, and a changed reservation moves to the end (Hotel.kt:107, 136). `Hotel.Decide` drops that order in the same way.
- The catch-all handler is modelled by an extra command `Unhandled`. The code's command interface is sealed with five variants, so in the code only a message outside those five reaches it.
- The projector's `mapAsync(8)` runs up to eight events at once. The model applies events one after another in journal order, so interleavings of writes from neighbouring events are not captured.
- Failed table writes are logged and swallowed (`.exceptionally`). The model assumes every write succeeds.
- The day count `ChronoUnit.DAYS.between(...).toInt()` is taken as the exact difference; its truncation to 32 bits for ranges beyond 2^31 days is not modelled.
- The constant guest last name in the by-guest table's key, the `println` logging, and the hard-coded stream name `"hotel_82"` are omitted.
- The aggregate's stored state stands for the read-side tables only through `ProjectionConsistency`. The by-hotel-date table is not part of that correspondence. Two stays with end before start and the same hotel, start and room do not intersect, so the aggregate can store both while they share one row key.
