/**
  * The read side: the projector that folds the hotel's event stream into
  * three tables, held here as in-memory maps.
  *   - availability, keyed (hotel, date, room), holding `is_available`;
  *   - reservations by hotel and date, keyed (hotel, start date, room);
  *   - reservations by guest, keyed by confirmation number.
  * Every table write is an upsert or a delete by key.
  */
module HotelEventReader {
  import opened Reservations
  import opened Hotel

  /** The key of the availability table. */
  datatype Slot = Slot(hotelId: string, date: Date, roomNumber: int)

  /** The key of the by-hotel-date table. */
  datatype HotelDateKey = HotelDateKey(hotelId: string, startDate: Date, roomNumber: int)

  /** The columns written to both reservation tables. */
  datatype Row = Row(hotelId: string, startDate: Date, endDate: Date, roomNumber: int,
                     confirmationNumber: string, guestId: string)

  /** A snapshot of the three tables. */
  datatype Views = Views(availability: map<Slot, bool>,
                         byHotelDate: map<HotelDateKey, Row>,
                         byGuest: map<string, Row>)

  /** What the journal delivers: a reservation event, or anything else. */
  datatype JournalEvent = HotelEvent(event: Event) | OtherEvent

  function EmptyViews(): Views {
    Views(map[], map[], map[])
  }

  function RowOf(r: Reservation): Row {
    Row(r.hotelId, r.startDate, r.endDate, r.roomNumber, r.confirmationNumber, r.guestId)
  }

  function DateKeyOf(r: Reservation): HotelDateKey {
    HotelDateKey(r.hotelId, r.startDate, r.roomNumber)
  }

  /** `ChronoUnit.DAYS.between(startDate, endDate)`. */
  function DaysBlocked(r: Reservation): int {
    r.endDate - r.startDate
  }

  /** The slot lies in the half-open stay `[startDate, endDate)` of the reservation's room. */
  predicate Covers(r: Reservation, k: Slot) {
    k.hotelId == r.hotelId && k.roomNumber == r.roomNumber && r.startDate <= k.date < r.endDate
  }

  /**
    * The availability table after the per-day writes for days
    * `start, start + 1, ..., start + count - 1` of one room, each setting `value`.
    */
  function SetDays(avail: map<Slot, bool>, hotelId: string, roomNumber: int, start: Date, count: int,
                   value: bool): map<Slot, bool>
    decreases count
  {
    if count <= 0 then avail
    else SetDays(avail, hotelId, roomNumber, start, count - 1, value)[Slot(hotelId, start + count - 1, roomNumber) := value]
  }

  /** The views after `makeReservation(r)`. */
  function AfterMake(v: Views, r: Reservation): Views {
    Views(SetDays(v.availability, r.hotelId, r.roomNumber, r.startDate, DaysBlocked(r), false),
          v.byHotelDate[DateKeyOf(r) := RowOf(r)],
          v.byGuest[r.confirmationNumber := RowOf(r)])
  }

  /** The views after `removeReservation(r)`. */
  function AfterRemove(v: Views, r: Reservation): Views {
    Views(SetDays(v.availability, r.hotelId, r.roomNumber, r.startDate, DaysBlocked(r), true),
          v.byHotelDate - {DateKeyOf(r)},
          v.byGuest - {r.confirmationNumber})
  }

  /** The views after one journal event, dispatched by its kind. */
  function AfterEvent(v: Views, je: JournalEvent): Views {
    match je
    case HotelEvent(ReservationAccepted(r)) => AfterMake(v, r)
    case HotelEvent(ReservationUpdated(o, n)) => AfterMake(AfterRemove(v, o), n)
    case HotelEvent(ReservationCanceled(r)) => AfterRemove(v, r)
    case OtherEvent => v
  }

  /** The views after the journal events, in order. */
  function AfterLog(v: Views, log: seq<JournalEvent>): Views {
    if log == [] then v else AfterEvent(AfterLog(v, log[..|log| - 1]), log[|log| - 1])
  }

  // ---------------------------------------------------------------------
  // The projector, writing to the tables
  // ---------------------------------------------------------------------

  class ReadModel {
    var availability: map<Slot, bool>
    var byHotelDate: map<HotelDateKey, Row>
    var byGuest: map<string, Row>

    function Snapshot(): Views
      reads this
    {
      Views(availability, byHotelDate, byGuest)
    }

    constructor (initial: Views)
      ensures Snapshot() == initial
    {
      availability := initial.availability;
      byHotelDate := initial.byHotelDate;
      byGuest := initial.byGuest;
    }

    /** One availability write per day of the stay, then one upsert into each reservation table. */
    method MakeReservation(r: Reservation)
      modifies this
      ensures Snapshot() == AfterMake(old(Snapshot()), r)
    {
      var daysBlocked := DaysBlocked(r);
      var day := 0;
      while day < daysBlocked
        invariant 0 <= day && (day == 0 || day <= daysBlocked)
        invariant availability == SetDays(old(availability), r.hotelId, r.roomNumber, r.startDate, day, false)
        invariant byHotelDate == old(byHotelDate) && byGuest == old(byGuest)
      {
        availability := availability[Slot(r.hotelId, r.startDate + day, r.roomNumber) := false];
        day := day + 1;
      }
      byHotelDate := byHotelDate[DateKeyOf(r) := RowOf(r)];
      byGuest := byGuest[r.confirmationNumber := RowOf(r)];
    }

    /** One availability write per day of the stay, then one delete from each reservation table. */
    method RemoveReservation(r: Reservation)
      modifies this
      ensures Snapshot() == AfterRemove(old(Snapshot()), r)
    {
      var daysBlocked := DaysBlocked(r);
      var day := 0;
      while day < daysBlocked
        invariant 0 <= day && (day == 0 || day <= daysBlocked)
        invariant availability == SetDays(old(availability), r.hotelId, r.roomNumber, r.startDate, day, true)
        invariant byHotelDate == old(byHotelDate) && byGuest == old(byGuest)
      {
        availability := availability[Slot(r.hotelId, r.startDate + day, r.roomNumber) := true];
        day := day + 1;
      }
      byHotelDate := byHotelDate - {DateKeyOf(r)};
      byGuest := byGuest - {r.confirmationNumber};
    }

    /** The per-event dispatch of the stream. */
    method Apply(je: JournalEvent)
      modifies this
      ensures Snapshot() == AfterEvent(old(Snapshot()), je)
    {
      match je
      case HotelEvent(ReservationAccepted(r)) =>
        MakeReservation(r);
      case HotelEvent(ReservationUpdated(o, n)) =>
        RemoveReservation(o);
        MakeReservation(n);
      case HotelEvent(ReservationCanceled(r)) =>
        RemoveReservation(r);
      case OtherEvent =>
    }

    /** Running the stream: the events are applied one after another, in journal order. */
    method Run(log: seq<JournalEvent>)
      modifies this
      ensures Snapshot() == AfterLog(old(Snapshot()), log)
    {
      var i := 0;
      while i < |log|
        invariant 0 <= i <= |log|
        invariant Snapshot() == AfterLog(old(Snapshot()), log[..i])
      {
        assert log[..i + 1][..i] == log[..i];
        Apply(log[i]);
        i := i + 1;
      }
      assert log[..i] == log;
    }
  }

  // ---------------------------------------------------------------------
  // Properties of the table writes
  // ---------------------------------------------------------------------

  /** The per-day writes touch exactly the slots `start .. start + count - 1` of that room. */
  lemma {:induction false} SetDaysAt(avail: map<Slot, bool>, hotelId: string, roomNumber: int, start: Date,
                                     count: int, value: bool, k: Slot)
    ensures var hit := k.hotelId == hotelId && k.roomNumber == roomNumber && start <= k.date < start + count;
            var res := SetDays(avail, hotelId, roomNumber, start, count, value);
            && (k in res <==> k in avail || hit)
            && (k in res ==> res[k] == if hit then value else avail[k])
    decreases count
  {
    if count > 0 {
      SetDaysAt(avail, hotelId, roomNumber, start, count - 1, value, k);
    }
  }

  /**
    * `makeReservation` marks unavailable exactly the slots of the half-open
    * stay `[startDate, endDate)` of the reservation's room; every other slot,
    * the end day included, keeps its entry.
    */
  lemma MakeBlocksExactlyTheStay(v: Views, r: Reservation, k: Slot)
    ensures var a := AfterMake(v, r).availability;
            && (Covers(r, k) ==> k in a && !a[k])
            && (!Covers(r, k) ==> (k in a <==> k in v.availability) && (k in a ==> a[k] == v.availability[k]))
  {
    SetDaysAt(v.availability, r.hotelId, r.roomNumber, r.startDate, DaysBlocked(r), false, k);
  }

  /** The end day of a stay is not touched by `makeReservation`. */
  lemma MakeLeavesEndDay(v: Views, r: Reservation)
    ensures var k := Slot(r.hotelId, r.endDate, r.roomNumber);
            var a := AfterMake(v, r).availability;
            (k in a <==> k in v.availability) && (k in a ==> a[k] == v.availability[k])
  {
    MakeBlocksExactlyTheStay(v, r, Slot(r.hotelId, r.endDate, r.roomNumber));
  }

  /** A stay whose end does not come after its start changes no availability entry. */
  lemma EmptyStayChangesNoAvailability(v: Views, r: Reservation)
    requires r.endDate <= r.startDate
    ensures AfterMake(v, r).availability == v.availability
    ensures AfterRemove(v, r).availability == v.availability
  {
  }

  /** `removeReservation` marks available exactly the same slots. */
  lemma RemoveFreesExactlyTheStay(v: Views, r: Reservation, k: Slot)
    ensures var a := AfterRemove(v, r).availability;
            && (Covers(r, k) ==> k in a && a[k])
            && (!Covers(r, k) ==> (k in a <==> k in v.availability) && (k in a ==> a[k] == v.availability[k]))
  {
    SetDaysAt(v.availability, r.hotelId, r.roomNumber, r.startDate, DaysBlocked(r), true, k);
  }

  /** `makeReservation` upserts the reservation's row into both reservation tables and nothing else. */
  lemma MakeUpsertsRows(v: Views, r: Reservation)
    ensures var w := AfterMake(v, r);
            && DateKeyOf(r) in w.byHotelDate && w.byHotelDate[DateKeyOf(r)] == RowOf(r)
            && r.confirmationNumber in w.byGuest && w.byGuest[r.confirmationNumber] == RowOf(r)
            && w.byHotelDate.Keys == v.byHotelDate.Keys + {DateKeyOf(r)}
            && w.byGuest.Keys == v.byGuest.Keys + {r.confirmationNumber}
            && (forall k :: k in v.byGuest && k != r.confirmationNumber ==> w.byGuest[k] == v.byGuest[k])
            && (forall k :: k in v.byHotelDate && k != DateKeyOf(r) ==> w.byHotelDate[k] == v.byHotelDate[k])
  {
  }

  /** `removeReservation` deletes the by-hotel-date row keyed (hotel, start, room) and the by-guest row keyed by number. */
  lemma RemoveDeletesRows(v: Views, r: Reservation)
    ensures var w := AfterRemove(v, r);
            && w.byHotelDate.Keys == v.byHotelDate.Keys - {DateKeyOf(r)}
            && w.byGuest.Keys == v.byGuest.Keys - {r.confirmationNumber}
            && (forall k :: k in w.byGuest ==> w.byGuest[k] == v.byGuest[k])
            && (forall k :: k in w.byHotelDate ==> w.byHotelDate[k] == v.byHotelDate[k])
  {
  }

  /**
    * `ReservationUpdated` is a removal of the old stay followed by the new
    * one: every slot of the new stay ends unavailable (also where the two
    * stays overlap), every slot only in the old stay ends available, and the
    * by-guest row holds the new reservation.
    */
  lemma UpdatedRemovesThenMakes(v: Views, o: Reservation, n: Reservation, k: Slot)
    ensures var w := AfterEvent(v, HotelEvent(ReservationUpdated(o, n)));
            && (Covers(n, k) ==> k in w.availability && !w.availability[k])
            && (Covers(o, k) && !Covers(n, k) ==> k in w.availability && w.availability[k])
            && w.byGuest[n.confirmationNumber] == RowOf(n)
  {
    RemoveFreesExactlyTheStay(v, o, k);
    MakeBlocksExactlyTheStay(AfterRemove(v, o), n, k);
  }

  /** Writing the same value over the same days twice is the same as once. */
  lemma {:induction false} SetDaysIdempotent(avail: map<Slot, bool>, hotelId: string, roomNumber: int,
                                             start: Date, count: int, value: bool)
    ensures var once := SetDays(avail, hotelId, roomNumber, start, count, value);
            SetDays(once, hotelId, roomNumber, start, count, value) == once
  {
    var once := SetDays(avail, hotelId, roomNumber, start, count, value);
    var twice := SetDays(once, hotelId, roomNumber, start, count, value);
    forall k | k in twice || k in once
      ensures k in twice && k in once && twice[k] == once[k]
    {
      SetDaysAt(avail, hotelId, roomNumber, start, count, value, k);
      SetDaysAt(once, hotelId, roomNumber, start, count, value, k);
    }
  }

  /** Projecting the same `ReservationAccepted` twice leaves the views as projecting it once. */
  lemma MakeIdempotent(v: Views, r: Reservation)
    ensures AfterMake(AfterMake(v, r), r) == AfterMake(v, r)
  {
    SetDaysIdempotent(v.availability, r.hotelId, r.roomNumber, r.startDate, DaysBlocked(r), false);
  }

  /** Projecting the same removal twice leaves the views as projecting it once. */
  lemma RemoveIdempotent(v: Views, r: Reservation)
    ensures AfterRemove(AfterRemove(v, r), r) == AfterRemove(v, r)
  {
    SetDaysIdempotent(v.availability, r.hotelId, r.roomNumber, r.startDate, DaysBlocked(r), true);
  }

  /** Any journal event that is not a reservation event leaves the views unchanged. */
  lemma OtherEventIgnored(v: Views)
    ensures AfterEvent(v, OtherEvent) == v
  {
  }

  // ---------------------------------------------------------------------
  // Re-running the stream from the start
  // ---------------------------------------------------------------------

  /** A key of one of the three tables. */
  datatype Key = SlotKey(slot: Slot) | DateKey(dateKey: HotelDateKey) | GuestKey(confirmationNumber: string)

  /** An entry of one of the three tables. */
  datatype Cell = Flag(isAvailable: bool) | Stored(row: Row)

  /** The entry under `key`, if there is one. */
  function At(v: Views, key: Key): Option<Cell> {
    match key
    case SlotKey(k) => if k in v.availability then Some(Flag(v.availability[k])) else None
    case DateKey(k) => if k in v.byHotelDate then Some(Stored(v.byHotelDate[k])) else None
    case GuestKey(k) => if k in v.byGuest then Some(Stored(v.byGuest[k])) else None
  }

  /** `makeReservation(r)` and `removeReservation(r)` both write exactly these keys. */
  predicate Writes(r: Reservation, key: Key) {
    match key
    case SlotKey(k) => Covers(r, k)
    case DateKey(k) => k == DateKeyOf(r)
    case GuestKey(k) => k == r.confirmationNumber
  }

  /** The keys the projection of one journal event writes. */
  predicate Touches(je: JournalEvent, key: Key) {
    match je
    case HotelEvent(ReservationAccepted(r)) => Writes(r, key)
    case HotelEvent(ReservationUpdated(o, n)) => Writes(o, key) || Writes(n, key)
    case HotelEvent(ReservationCanceled(r)) => Writes(r, key)
    case OtherEvent => false
  }

  ghost predicate LogTouches(log: seq<JournalEvent>, key: Key) {
    exists i :: 0 <= i < |log| && Touches(log[i], key)
  }

  /** Two views with the same entry under every key are the same views. */
  lemma SameEntriesSameViews(v1: Views, v2: Views)
    requires forall key :: At(v1, key) == At(v2, key)
    ensures v1 == v2
  {
    forall k | k in v1.availability || k in v2.availability
      ensures k in v1.availability && k in v2.availability && v1.availability[k] == v2.availability[k]
    {
      assert At(v1, SlotKey(k)) == At(v2, SlotKey(k));
    }
    forall k | k in v1.byHotelDate || k in v2.byHotelDate
      ensures k in v1.byHotelDate && k in v2.byHotelDate && v1.byHotelDate[k] == v2.byHotelDate[k]
    {
      assert At(v1, DateKey(k)) == At(v2, DateKey(k));
    }
    forall k | k in v1.byGuest || k in v2.byGuest
      ensures k in v1.byGuest && k in v2.byGuest && v1.byGuest[k] == v2.byGuest[k]
    {
      assert At(v1, GuestKey(k)) == At(v2, GuestKey(k));
    }
  }

  /**
    * One event's projection: a key it writes ends with an entry fixed by the
    * event alone, whatever the views held before; every other key keeps its entry.
    */
  lemma EventAt(v1: Views, v2: Views, je: JournalEvent, key: Key)
    ensures Touches(je, key) ==> At(AfterEvent(v1, je), key) == At(AfterEvent(v2, je), key)
    ensures !Touches(je, key) ==> At(AfterEvent(v1, je), key) == At(v1, key)
  {
    match je {
      case HotelEvent(ReservationAccepted(r)) =>
        if key.SlotKey? {
          MakeBlocksExactlyTheStay(v1, r, key.slot);
          MakeBlocksExactlyTheStay(v2, r, key.slot);
        }
      case HotelEvent(ReservationUpdated(o, n)) =>
        if key.SlotKey? {
          RemoveFreesExactlyTheStay(v1, o, key.slot);
          RemoveFreesExactlyTheStay(v2, o, key.slot);
          MakeBlocksExactlyTheStay(AfterRemove(v1, o), n, key.slot);
          MakeBlocksExactlyTheStay(AfterRemove(v2, o), n, key.slot);
        }
      case HotelEvent(ReservationCanceled(r)) =>
        if key.SlotKey? {
          RemoveFreesExactlyTheStay(v1, r, key.slot);
          RemoveFreesExactlyTheStay(v2, r, key.slot);
        }
      case OtherEvent =>
    }
  }

  /** Projecting any journal event twice leaves the views as projecting it once. */
  lemma AfterEventIdempotent(v: Views, je: JournalEvent)
    ensures AfterEvent(AfterEvent(v, je), je) == AfterEvent(v, je)
  {
    var once := AfterEvent(v, je);
    forall key
      ensures At(AfterEvent(once, je), key) == At(once, key)
    {
      EventAt(once, v, je, key);
      EventAt(once, once, je, key);
    }
    SameEntriesSameViews(AfterEvent(once, je), once);
  }

  /** A key no event of the log writes keeps the entry it started with. */
  lemma {:induction false} LogFrame(v: Views, log: seq<JournalEvent>, key: Key)
    requires !LogTouches(log, key)
    ensures At(AfterLog(v, log), key) == At(v, key)
  {
    if log != [] {
      var front := log[..|log| - 1];
      assert !LogTouches(front, key) by {
        forall i | 0 <= i < |front|
          ensures !Touches(front[i], key)
        {
          assert front[i] == log[i];
        }
      }
      LogFrame(v, front, key);
      EventAt(AfterLog(v, front), AfterLog(v, front), log[|log| - 1], key);
    }
  }

  /** A key some event of the log writes ends with an entry that does not depend on the starting views. */
  lemma {:induction false} LogDetermined(v1: Views, v2: Views, log: seq<JournalEvent>, key: Key)
    requires LogTouches(log, key)
    ensures At(AfterLog(v1, log), key) == At(AfterLog(v2, log), key)
  {
    var front, last := log[..|log| - 1], log[|log| - 1];
    EventAt(AfterLog(v1, front), AfterLog(v2, front), last, key);
    EventAt(AfterLog(v2, front), AfterLog(v2, front), last, key);
    if !Touches(last, key) {
      var i :| 0 <= i < |log| && Touches(log[i], key);
      assert i < |front| && front[i] == log[i];
      LogDetermined(v1, v2, front, key);
    }
  }

  /**
    * After a crash at any point of the stream, re-running it from the start
    * over the views already written leaves them as a single run would: the
    * events applied twice do no harm.
    */
  lemma RerunFromStart(v: Views, log: seq<JournalEvent>, i: nat)
    requires i <= |log|
    ensures AfterLog(AfterLog(v, log[..i]), log) == AfterLog(v, log)
  {
    var crashed := AfterLog(v, log[..i]);
    forall key
      ensures At(AfterLog(crashed, log), key) == At(AfterLog(v, log), key)
    {
      if LogTouches(log, key) {
        LogDetermined(crashed, v, log, key);
      } else {
        assert !LogTouches(log[..i], key) by {
          forall j | 0 <= j < i
            ensures !Touches(log[..i][j], key)
          {
            assert log[..i][j] == log[j];
          }
        }
        LogFrame(v, log[..i], key);
        LogFrame(crashed, log, key);
        LogFrame(v, log, key);
      }
    }
    SameEntriesSameViews(AfterLog(crashed, log), AfterLog(v, log));
  }
}
