/**
  * How the read side relates to the write side: projecting the event log an
  * aggregate wrote yields views that describe that aggregate's current state.
  * A slot of a room is marked unavailable exactly when a current reservation's
  * stay covers it, and the by-guest table holds exactly the current
  * reservations. The only assumption is that no accepted booking draws
  * a confirmation number already in use.
  */
module ProjectionConsistency {
  import opened Reservations
  import opened Hotel
  import opened HotelEventReader

  /** The slot is present in the availability table and marked unavailable. */
  ghost predicate Blocked(v: Views, k: Slot) {
    k in v.availability && !v.availability[k]
  }

  /** The views describe the aggregate state. */
  ghost predicate Mirrors(v: Views, s: State) {
    && v.byGuest.Keys == s.reservations.Keys
    && (forall cn :: cn in s.reservations ==> v.byGuest[cn] == RowOf(s.reservations[cn]))
    && (forall cn, k :: cn in s.reservations && Covers(s.reservations[cn], k) ==> Blocked(v, k))
    && (forall k :: Blocked(v, k) ==> exists cn :: cn in s.reservations && Covers(s.reservations[cn], k))
  }

  /**
    * The event fits the state it is applied to: a new reservation under an
    * unused number that meets no stored one, a change or a cancellation of
    * the reservation actually stored under that number.
    */
  ghost predicate Applicable(hotelId: string, s: State, e: Event) {
    match e
    case ReservationAccepted(r) =>
      r.confirmationNumber !in s.reservations && r.hotelId == hotelId && !HasConflict(s, r)
    case ReservationUpdated(o, n) =>
      && o.confirmationNumber in s.reservations && s.reservations[o.confirmationNumber] == o
      && n.confirmationNumber == o.confirmationNumber && n.hotelId == hotelId
      && !HasConflictExcept(s, o.confirmationNumber, n)
    case ReservationCanceled(r) =>
      r.confirmationNumber in s.reservations && s.reservations[r.confirmationNumber] == r
  }

  /** The journal as the projector reads it: the aggregate's events, in order. */
  function Journal(log: seq<Event>): (j: seq<JournalEvent>)
    ensures |j| == |log|
    ensures forall i :: 0 <= i < |log| ==> j[i] == HotelEvent(log[i])
  {
    if log == [] then [] else Journal(log[..|log| - 1]) + [HotelEvent(log[|log| - 1])]
  }

  /**
    * Every booking the run accepts draws a confirmation number not already
    * stored. Bookings refused for a conflict persist nothing and are free.
    */
  ghost predicate FreshNumbers(hotelId: string, inputs: seq<Input>)
    requires WellDrawn(inputs)
  {
    inputs != [] ==>
      var front := inputs[..|inputs| - 1];
      var last := inputs[|inputs| - 1];
      assert WellDrawn(front);
      && FreshNumbers(hotelId, front)
      && var s := Process(hotelId, front).state;
         (last.cmd.MakeReservation? && Decide(hotelId, s, last.cmd, last.draws).event.Some? ==>
            Spell(last.draws) !in s.reservations)
  }

  /** Two stays that block the same slot conflict under the aggregate's overlap rule. */
  lemma SharedSlotIntersects(a: Reservation, b: Reservation, k: Slot)
    requires Covers(a, k) && Covers(b, k)
    ensures Intersect(a, b)
  {
  }

  /** On a valid state, every event `Decide` persists fits that state, provided an accepted booking drew a fresh number. */
  lemma DecidedEventApplicable(hotelId: string, s: State, cmd: Command, draws: seq<Draw>)
    requires |draws| == ConfirmationLength
    requires Valid(hotelId, s)
    requires cmd.MakeReservation? && Decide(hotelId, s, cmd, draws).event.Some? ==> Spell(draws) !in s.reservations
    ensures var eff := Decide(hotelId, s, cmd, draws);
            eff.event.Some? ==> Applicable(hotelId, s, eff.event.value)
  {
  }

  /** Projecting an accepted booking keeps the views describing the state. */
  lemma MirrorAfterAccepted(v: Views, s: State, r: Reservation)
    requires Mirrors(v, s) && r.confirmationNumber !in s.reservations
    ensures Mirrors(AfterMake(v, r), State(s.reservations[r.confirmationNumber := r]))
  {
    var m := s.reservations;
    var v', m' := AfterMake(v, r), m[r.confirmationNumber := r];
    forall cn, k | cn in m' && Covers(m'[cn], k)
      ensures Blocked(v', k)
    {
      MakeBlocksExactlyTheStay(v, r, k);
      if cn != r.confirmationNumber {
        assert m'[cn] == m[cn] && Blocked(v, k);
      }
    }
    forall k | Blocked(v', k)
      ensures exists cn :: cn in m' && Covers(m'[cn], k)
    {
      MakeBlocksExactlyTheStay(v, r, k);
      if !Covers(r, k) {
        assert Blocked(v, k);
        var cn :| cn in m && Covers(m[cn], k);
        assert m'[cn] == m[cn];
      } else {
        assert Covers(m'[r.confirmationNumber], k);
      }
    }
  }

  /** Projecting a change (remove the old stay, then make the new one) keeps the views describing the state. */
  lemma MirrorAfterUpdated(hotelId: string, v: Views, s: State, o: Reservation, n: Reservation)
    requires Valid(hotelId, s) && Mirrors(v, s)
    requires o.confirmationNumber in s.reservations && s.reservations[o.confirmationNumber] == o
    requires n.confirmationNumber == o.confirmationNumber
    ensures Mirrors(AfterMake(AfterRemove(v, o), n), State(s.reservations[n.confirmationNumber := n]))
  {
    var m := s.reservations;
    var cn := o.confirmationNumber;
    var v1 := AfterRemove(v, o);
    var v', m' := AfterMake(v1, n), m[cn := n];
    assert v'.byGuest.Keys == m'.Keys;
    forall c, k | c in m' && Covers(m'[c], k)
      ensures Blocked(v', k)
    {
      RemoveFreesExactlyTheStay(v, o, k);
      MakeBlocksExactlyTheStay(v1, n, k);
      if c != cn && !Covers(n, k) {
        assert c in m && m'[c] == m[c];
        if Covers(o, k) {
          SharedSlotIntersects(m[c], m[cn], k);
          assert false;
        }
        assert Blocked(v, k);
      }
    }
    forall k | Blocked(v', k)
      ensures exists c :: c in m' && Covers(m'[c], k)
    {
      RemoveFreesExactlyTheStay(v, o, k);
      MakeBlocksExactlyTheStay(v1, n, k);
      if !Covers(n, k) {
        assert Blocked(v, k);
        var c :| c in m && Covers(m[c], k);
        assert c != cn;
        assert m'[c] == m[c];
      } else {
        assert Covers(m'[cn], k);
      }
    }
  }

  /** Projecting a cancellation keeps the views describing the state. */
  lemma MirrorAfterCanceled(hotelId: string, v: Views, s: State, r: Reservation)
    requires Valid(hotelId, s) && Mirrors(v, s)
    requires r.confirmationNumber in s.reservations && s.reservations[r.confirmationNumber] == r
    ensures Mirrors(AfterRemove(v, r), State(s.reservations - {r.confirmationNumber}))
  {
    var m := s.reservations;
    var cn := r.confirmationNumber;
    var v', m' := AfterRemove(v, r), m - {cn};
    forall c, k | c in m' && Covers(m'[c], k)
      ensures Blocked(v', k)
    {
      RemoveFreesExactlyTheStay(v, r, k);
      assert c in m && m'[c] == m[c];
      if Covers(r, k) {
        SharedSlotIntersects(m[c], m[cn], k);
        assert false;
      }
      assert Blocked(v, k);
    }
    forall k | Blocked(v', k)
      ensures exists c :: c in m' && Covers(m'[c], k)
    {
      RemoveFreesExactlyTheStay(v, r, k);
      assert !Covers(r, k) && Blocked(v, k);
      var c :| c in m && Covers(m[c], k);
      assert c != cn && m'[c] == m[c];
    }
  }

  /** Projecting an applicable event keeps the views describing the evolved state. */
  lemma MirrorPreserved(hotelId: string, v: Views, s: State, e: Event)
    requires Valid(hotelId, s) && Mirrors(v, s) && Applicable(hotelId, s, e)
    ensures Mirrors(AfterEvent(v, HotelEvent(e)), Evolve(s, e))
  {
    match e {
      case ReservationAccepted(r) =>
        MirrorAfterAccepted(v, s, r);
      case ReservationUpdated(o, n) =>
        UpdatedReplaces(s, o, n);
        MirrorAfterUpdated(hotelId, v, s, o, n);
      case ReservationCanceled(r) =>
        MirrorAfterCanceled(hotelId, v, s, r);
    }
  }

  /**
    * Rebuilding the views from scratch out of the log of any run without
    * confirmation-number collisions yields views that describe the state the
    * run ended in.
    */
  lemma {:induction false} ProjectionMirrorsAggregate(hotelId: string, inputs: seq<Input>)
    requires WellDrawn(inputs)
    requires FreshNumbers(hotelId, inputs)
    ensures var run := Process(hotelId, inputs);
            Mirrors(AfterLog(EmptyViews(), Journal(run.log)), run.state)
  {
    if inputs != [] {
      var front := inputs[..|inputs| - 1];
      var last := inputs[|inputs| - 1];
      assert WellDrawn(front);
      ProjectionMirrorsAggregate(hotelId, front);
      ProcessKeepsValid(hotelId, front);
      var prev := Process(hotelId, front);
      var eff := Decide(hotelId, prev.state, last.cmd, last.draws);
      if eff.event.Some? {
        DecidedEventApplicable(hotelId, prev.state, last.cmd, last.draws);
        MirrorPreserved(hotelId, AfterLog(EmptyViews(), Journal(prev.log)), prev.state, eff.event.value);
        var log := prev.log + [eff.event.value];
        assert log[..|log| - 1] == prev.log;
        var j := Journal(log);
        assert j[..|j| - 1] == Journal(prev.log);
      }
    }
  }
}
