/**
  * The reservation value of the hotel domain: its attributes, its identity
  * (the confirmation number alone), the booking-conflict predicate
  * `intersect`, and the factory `make` that stamps a fresh confirmation number.
  */
module Reservations {

  /** A calendar date as a day number; the day after `d` is `d + 1`. */
  type Date = int

  datatype Reservation = Reservation(
    guestId: string,
    hotelId: string,
    startDate: Date,
    endDate: Date,
    roomNumber: int,
    confirmationNumber: string)

  /** `d in lo..hi` on dates: a closed range, empty when `hi < lo`. */
  predicate InClosedRange(d: Date, lo: Date, hi: Date) {
    lo <= d <= hi
  }

  /**
    * The booking-conflict predicate: same hotel, same room, and one
    * reservation's start date lies in the other's closed date range.
    */
  predicate Intersect(a: Reservation, b: Reservation) {
    && a.hotelId == b.hotelId
    && a.roomNumber == b.roomNumber
    && (InClosedRange(a.startDate, b.startDate, b.endDate) || InClosedRange(b.startDate, a.startDate, a.endDate))
  }

  /** `equals`: two reservations are the same entity iff their confirmation numbers agree. */
  predicate SameReservation(a: Reservation, b: Reservation) {
    a.confirmationNumber == b.confirmationNumber
  }

  /**
    * `hashCode`: the hash of the confirmation number. The string hash itself
    * belongs to the platform and is a parameter here.
    */
  function HashCode(r: Reservation, stringHash: string -> int): int {
    stringHash(r.confirmationNumber)
  }

  /** A date range whose start does not come after its end. */
  predicate WellFormed(r: Reservation) {
    r.startDate <= r.endDate
  }

  // ---------------------------------------------------------------------
  // Properties of `intersect`
  // ---------------------------------------------------------------------

  /** Reservations of different hotels or different rooms never conflict. */
  lemma IntersectNeedsSameHotelAndRoom(a: Reservation, b: Reservation)
    ensures a.hotelId != b.hotelId ==> !Intersect(a, b)
    ensures a.roomNumber != b.roomNumber ==> !Intersect(a, b)
  {
  }

  /**
    * Both bounds are inclusive: a stay that ends on day D conflicts with a
    * stay of the same room that starts on day D.
    */
  lemma IntersectBoundaryInclusive(a: Reservation, b: Reservation)
    requires a.hotelId == b.hotelId && a.roomNumber == b.roomNumber
    requires WellFormed(a) && a.endDate == b.startDate
    ensures Intersect(a, b) && Intersect(b, a)
  {
  }

  /** The conflict relation is symmetric. */
  lemma IntersectSymmetric(a: Reservation, b: Reservation)
    ensures Intersect(a, b) <==> Intersect(b, a)
  {
  }

  /** A reservation whose start does not come after its end conflicts with itself. */
  lemma IntersectReflexive(a: Reservation)
    requires WellFormed(a)
    ensures Intersect(a, a)
  {
  }

  /**
    * For well-formed ranges, `intersect` is exactly "same hotel, same room
    * and some day lies in both closed ranges".
    */
  lemma IntersectIffSharedDay(a: Reservation, b: Reservation)
    requires WellFormed(a) && WellFormed(b)
    ensures Intersect(a, b) <==>
              && a.hotelId == b.hotelId && a.roomNumber == b.roomNumber
              && exists d :: InClosedRange(d, a.startDate, a.endDate) && InClosedRange(d, b.startDate, b.endDate)
  {
    if a.hotelId == b.hotelId && a.roomNumber == b.roomNumber {
      if Intersect(a, b) {
        var d := if a.startDate <= b.startDate then b.startDate else a.startDate;
        assert InClosedRange(d, a.startDate, a.endDate) && InClosedRange(d, b.startDate, b.endDate);
      }
    }
  }

  /**
    * Nothing checks that a stay's start does not come after its end, and for
    * such a stay the rule is not "the closed ranges share a day": a stay from
    * day 5 back to day 3 conflicts with a stay of days 1 to 10 of the same
    * room, because its start lies in that range, although its own closed
    * range holds no day at all.
    */
  lemma IntersectWithoutSharedDay()
    ensures var a := Reservation("guest1", "h", 5, 3, 1, "A");
            var b := Reservation("guest2", "h", 1, 10, 1, "B");
            && Intersect(a, b)
            && !exists d :: InClosedRange(d, a.startDate, a.endDate) && InClosedRange(d, b.startDate, b.endDate)
  {
  }

  // ---------------------------------------------------------------------
  // Properties of `equals` and `hashCode`
  // ---------------------------------------------------------------------

  /** Equality ignores every attribute other than the confirmation number. */
  lemma SameReservationIgnoresAttributes(a: Reservation, guestId: string, hotelId: string,
                                         startDate: Date, endDate: Date, roomNumber: int)
    ensures SameReservation(a, Reservation(guestId, hotelId, startDate, endDate, roomNumber, a.confirmationNumber))
    ensures forall b: Reservation :: b.confirmationNumber != a.confirmationNumber ==> !SameReservation(a, b)
  {
  }

  /** Equality is an equivalence relation. */
  lemma SameReservationIsEquivalence(a: Reservation, b: Reservation, c: Reservation)
    ensures SameReservation(a, a)
    ensures SameReservation(a, b) ==> SameReservation(b, a)
    ensures SameReservation(a, b) && SameReservation(b, c) ==> SameReservation(a, c)
  {
  }

  /** Equal reservations have equal hash codes, whatever the string hash is. */
  lemma HashCodeAgreesWithEquality(a: Reservation, b: Reservation, stringHash: string -> int)
    requires SameReservation(a, b)
    ensures HashCode(a, stringHash) == HashCode(b, stringHash)
  {
  }

  // ---------------------------------------------------------------------
  // `make`: a reservation with a fresh confirmation number
  // ---------------------------------------------------------------------

  /** The number of characters in a confirmation number. */
  const ConfirmationLength: nat := 10

  /** The size of the alphabet `('A'..'Z') + ('0'..'9')`. */
  const AlphabetSize: nat := 36

  /** One random pick: an index into the alphabet `('A'..'Z') + ('0'..'9')`. */
  type Draw = i: int | 0 <= i < AlphabetSize

  /** A character allowed in a confirmation number: an upper-case letter or a digit. */
  predicate IsConfirmationChar(c: char) {
    ('A' <= c <= 'Z') || ('0' <= c <= '9')
  }

  /** A ten-character string over the confirmation alphabet. */
  predicate IsConfirmationNumber(s: string) {
    |s| == ConfirmationLength && forall i :: 0 <= i < |s| ==> IsConfirmationChar(s[i])
  }

  /** The character at index `d` of the list `('A'..'Z') + ('0'..'9')`. */
  function Symbol(d: Draw): (c: char)
    ensures IsConfirmationChar(c)
  {
    if d < 26 then ('A' as int + d) as char else ('0' as int + (d - 26)) as char
  }

  /** Distinct picks give distinct characters: the alphabet has no repeats. */
  lemma SymbolInjective(d: Draw, e: Draw)
    requires Symbol(d) == Symbol(e)
    ensures d == e
  {
  }

  /** The picks, mapped to characters and joined into one string. */
  function Spell(draws: seq<Draw>): (code: string)
    ensures |code| == |draws|
    ensures forall i :: 0 <= i < |code| ==> IsConfirmationChar(code[i])
  {
    if draws == [] then [] else [Symbol(draws[0])] + Spell(draws[1..])
  }

  /** Spelling loses no information: different picks give different numbers. */
  lemma {:induction false} SpellInjective(d1: seq<Draw>, d2: seq<Draw>)
    requires Spell(d1) == Spell(d2)
    ensures d1 == d2
  {
    if d1 != [] {
      assert Spell(d1)[0] == Symbol(d1[0]) && Spell(d2)[0] == Symbol(d2[0]);
      SymbolInjective(d1[0], d2[0]);
      assert Spell(d1[1..]) == Spell(d1)[1..] == Spell(d2)[1..] == Spell(d2[1..]);
      SpellInjective(d1[1..], d2[1..]);
    }
  }

  /**
    * `Reservation.make`: copies the given attributes and stamps the
    * confirmation number spelled from ten random picks.
    */
  function Make(guestId: string, hotelId: string, startDate: Date, endDate: Date, roomNumber: int,
                draws: seq<Draw>): (r: Reservation)
    requires |draws| == ConfirmationLength
    ensures r.guestId == guestId && r.hotelId == hotelId
    ensures r.startDate == startDate && r.endDate == endDate && r.roomNumber == roomNumber
    ensures IsConfirmationNumber(r.confirmationNumber)
  {
    Reservation(guestId, hotelId, startDate, endDate, roomNumber, Spell(draws))
  }
}
