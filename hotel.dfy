/**
  * The per-hotel event-sourced aggregate: the command handler `Decide`
  * (state and command to an optional event and an optional reply), the event
  * handler `Evolve` (state and event to state), recovery as a left fold of
  * `Evolve` over the event log, and the headline invariant that no two stored
  * reservations intersect.
  */
module Hotel {
  import opened Reservations

  datatype Option<T> = None | Some(value: T)

  /** The commands of the hotel protocol, without their reply-to references. */
  datatype Command =
    | MakeReservation(guestId: string, startDate: Date, endDate: Date, roomNumber: int)
    | ChangeReservation(confirmationNumber: string, startDate: Date, endDate: Date, roomNumber: int)
    | CancelReservation(confirmationNumber: string)
    | GetAllReservations
    | GetReservation(confirmationNumber: string)
      /** Any other message, which falls through to the catch-all handler. */
    | Unhandled

  /** The persisted facts. */
  datatype Event =
    | ReservationAccepted(reservation: Reservation)
    | ReservationUpdated(oldReservation: Reservation, newReservation: Reservation)
    | ReservationCanceled(reservation: Reservation)

  /**
    * The replies. A persisted event is itself sent back as the reply;
    * `AllReservations` carries the stored reservations without their order.
    */
  datatype Reply =
    | EventReply(event: Event)
    | CommandFailure(reason: string)
    | AllReservations(reservations: set<Reservation>)
    | ReservationFound(reservation: Reservation)

  /**
    * The aggregate state: the set of current reservations, held as a map from
    * confirmation number (the reservations' identity) to reservation.
    */
  datatype State = State(reservations: map<string, Reservation>)

  /** What a command handler decides: the event to persist and the reply, each optional. */
  datatype Effect = Effect(event: Option<Event>, reply: Option<Reply>)

  function EmptyState(): State {
    State(map[])
  }

  // ---------------------------------------------------------------------
  // Invariants of the state
  // ---------------------------------------------------------------------

  /** Every entry is stored under its own confirmation number. */
  ghost predicate Keyed(s: State) {
    forall cn :: cn in s.reservations ==> s.reservations[cn].confirmationNumber == cn
  }

  /** Every stored reservation belongs to this aggregate's hotel. */
  ghost predicate InHotel(hotelId: string, s: State) {
    forall cn :: cn in s.reservations ==> s.reservations[cn].hotelId == hotelId
  }

  /** No two stored reservations intersect. */
  ghost predicate NoConflicts(s: State) {
    forall c1, c2 :: c1 in s.reservations && c2 in s.reservations && c1 != c2 ==>
      !Intersect(s.reservations[c1], s.reservations[c2])
  }

  ghost predicate Valid(hotelId: string, s: State) {
    Keyed(s) && InHotel(hotelId, s) && NoConflicts(s)
  }

  // ---------------------------------------------------------------------
  // The command handler
  // ---------------------------------------------------------------------

  /** `reservations.find { it.intersect(t) } != null` */
  predicate HasConflict(s: State, t: Reservation) {
    exists cn :: cn in s.reservations && Intersect(s.reservations[cn], t)
  }

  /** `reservations.find { it.confirmationNumber != cn && it.intersect(t) } != null` */
  predicate HasConflictExcept(s: State, cn: string, t: Reservation) {
    exists k :: k in s.reservations && s.reservations[k].confirmationNumber != cn && Intersect(s.reservations[k], t)
  }

  /** Persist the event, then reply with that same event. */
  function PersistAndReply(e: Event): Effect {
    Effect(Some(e), Some(EventReply(e)))
  }

  /** Persist nothing and reply with a failure. */
  function Fail(reason: string): Effect {
    Effect(None, Some(CommandFailure(reason)))
  }

  const MakeConflictReason: string := "Reservation failed: conflict with another reservation"
  const GetNotFoundReason: string := "Reservation not found"

  function ChangeNotFoundReason(cn: string): string {
    "Cannot update reservation " + cn + ": not found"
  }

  function ChangeConflictReason(cn: string): string {
    "Cannot update reservation " + cn + ": conflicting reservations"
  }

  function CancelNotFoundReason(cn: string): string {
    "Cannot cancel reservation " + cn + ": not found"
  }

  /**
    * The command handler of the aggregate for hotel `hotelId`. The ten
    * random picks used for a new confirmation number are a parameter.
    */
  function Decide(hotelId: string, s: State, cmd: Command, draws: seq<Draw>): (eff: Effect)
    requires |draws| == ConfirmationLength
    // a persisted event is always also the reply
    ensures eff.event.Some? ==> eff.reply == Some(EventReply(eff.event.value))
    // every command but the catch-all gets exactly one reply
    ensures eff.reply.None? <==> cmd.Unhandled?
    // queries and the catch-all persist nothing
    ensures cmd.GetAllReservations? || cmd.GetReservation? || cmd.Unhandled? ==> eff.event.None?
  {
    match cmd
    case MakeReservation(guestId, startDate, endDate, roomNumber) =>
      var tentative := Make(guestId, hotelId, startDate, endDate, roomNumber, draws);
      if !HasConflict(s, tentative) then PersistAndReply(ReservationAccepted(tentative))
      else Fail(MakeConflictReason)
    case ChangeReservation(cn, startDate, endDate, roomNumber) =>
      if cn !in s.reservations then Fail(ChangeNotFoundReason(cn))
      else
        var current := s.reservations[cn];
        var changed := current.(startDate := startDate, endDate := endDate, roomNumber := roomNumber);
        if HasConflictExcept(s, cn, changed) then Fail(ChangeConflictReason(cn))
        else PersistAndReply(ReservationUpdated(current, changed))
    case CancelReservation(cn) =>
      if cn in s.reservations then PersistAndReply(ReservationCanceled(s.reservations[cn]))
      else Fail(CancelNotFoundReason(cn))
    case GetAllReservations =>
      Effect(None, Some(AllReservations(s.reservations.Values)))
    case GetReservation(cn) =>
      if cn in s.reservations then Effect(None, Some(ReservationFound(s.reservations[cn])))
      else Fail(GetNotFoundReason)
    case Unhandled =>
      Effect(None, None)
  }

  // ---------------------------------------------------------------------
  // The event handler and recovery
  // ---------------------------------------------------------------------

  /**
    * `reservations + r` on a set whose equality is the confirmation number:
    * an element equal to `r` that is already present is kept.
    */
  function Insert(m: map<string, Reservation>, r: Reservation): (m': map<string, Reservation>)
    ensures m'.Keys == m.Keys + {r.confirmationNumber}
    ensures forall k :: k in m ==> m'[k] == m[k]
    ensures r.confirmationNumber !in m ==> m'[r.confirmationNumber] == r
  {
    if r.confirmationNumber in m then m else m[r.confirmationNumber := r]
  }

  /** The event handler. */
  function Evolve(s: State, e: Event): (s': State)
    ensures Keyed(s) ==> Keyed(s')
    ensures e.ReservationAccepted? ==>
              s'.reservations.Keys == s.reservations.Keys + {e.reservation.confirmationNumber}
    ensures e.ReservationUpdated? ==>
              s'.reservations.Keys == s.reservations.Keys - {e.oldReservation.confirmationNumber}
                                                         + {e.newReservation.confirmationNumber}
    ensures e.ReservationCanceled? ==>
              s'.reservations.Keys == s.reservations.Keys - {e.reservation.confirmationNumber}
  {
    match e
    case ReservationAccepted(r) => State(Insert(s.reservations, r))
    case ReservationUpdated(o, n) => State(Insert(s.reservations - {o.confirmationNumber}, n))
    case ReservationCanceled(r) => State(s.reservations - {r.confirmationNumber})
  }

  /** Recovery: the left fold of `Evolve` over the log, starting from the empty state. */
  function Replay(log: seq<Event>): (s: State)
    ensures Keyed(s)
  {
    if log == [] then EmptyState() else Evolve(Replay(log[..|log| - 1]), log[|log| - 1])
  }

  /** One command round trip: decide, then apply the persisted event, if any. */
  function Step(hotelId: string, s: State, cmd: Command, draws: seq<Draw>): (State, Effect)
    requires |draws| == ConfirmationLength
  {
    var eff := Decide(hotelId, s, cmd, draws);
    (if eff.event.Some? then Evolve(s, eff.event.value) else s, eff)
  }

  /** A command together with the random picks available to it. */
  datatype Input = Input(cmd: Command, draws: seq<Draw>)

  predicate WellDrawn(inputs: seq<Input>) {
    forall i :: 0 <= i < |inputs| ==> |inputs[i].draws| == ConfirmationLength
  }

  /** The outcome of a run: the final state and the event log written on the way. */
  datatype Run = Run(state: State, log: seq<Event>)

  /** The aggregate processing its commands one at a time, from the empty state. */
  function Process(hotelId: string, inputs: seq<Input>): (run: Run)
    requires WellDrawn(inputs)
    ensures |run.log| <= |inputs|
  {
    if inputs == [] then Run(EmptyState(), [])
    else
      var prev := Process(hotelId, inputs[..|inputs| - 1]);
      var last := inputs[|inputs| - 1];
      var (s', eff) := Step(hotelId, prev.state, last.cmd, last.draws);
      Run(s', if eff.event.Some? then prev.log + [eff.event.value] else prev.log)
  }

  // ---------------------------------------------------------------------
  // The invariant: no two stored reservations intersect
  // ---------------------------------------------------------------------

  lemma EmptyStateValid(hotelId: string)
    ensures Valid(hotelId, EmptyState())
  {
  }

  /** Every event that `Decide` persists keeps the state valid. */
  lemma DecidePreservesValid(hotelId: string, s: State, cmd: Command, draws: seq<Draw>)
    requires |draws| == ConfirmationLength
    requires Valid(hotelId, s)
    ensures Valid(hotelId, Step(hotelId, s, cmd, draws).0)
  {
    var eff := Decide(hotelId, s, cmd, draws);
    var m := s.reservations;
    match cmd {
      case MakeReservation(guestId, startDate, endDate, roomNumber) =>
        var t := Make(guestId, hotelId, startDate, endDate, roomNumber, draws);
        if !HasConflict(s, t) && t.confirmationNumber !in m {
          var m' := m[t.confirmationNumber := t];
          forall c1, c2 | c1 in m' && c2 in m' && c1 != c2
            ensures !Intersect(m'[c1], m'[c2])
          {
            if c1 == t.confirmationNumber {
              IntersectSymmetric(m'[c1], m'[c2]);
            }
          }
        }
      case ChangeReservation(cn, startDate, endDate, roomNumber) =>
        if cn in m && !HasConflictExcept(s, cn, m[cn].(startDate := startDate, endDate := endDate, roomNumber := roomNumber)) {
          var n := m[cn].(startDate := startDate, endDate := endDate, roomNumber := roomNumber);
          var m' := (m - {cn})[cn := n];
          assert Step(hotelId, s, cmd, draws).0.reservations == m';
          forall c1, c2 | c1 in m' && c2 in m' && c1 != c2
            ensures !Intersect(m'[c1], m'[c2])
          {
            if c1 == cn {
              IntersectSymmetric(m'[c1], m'[c2]);
              assert m'[c2] == m[c2] && m[c2].confirmationNumber != cn;
            } else if c2 == cn {
              assert m'[c1] == m[c1] && m[c1].confirmationNumber != cn;
            }
          }
        }
      case CancelReservation(cn) =>
      case GetAllReservations =>
      case GetReservation(cn) =>
      case Unhandled =>
    }
  }

  /** Replaying the log written by a run reproduces the run's final state. */
  lemma {:induction false} RecoveryReproducesState(hotelId: string, inputs: seq<Input>)
    requires WellDrawn(inputs)
    ensures Replay(Process(hotelId, inputs).log) == Process(hotelId, inputs).state
  {
    if inputs != [] {
      var front := inputs[..|inputs| - 1];
      assert WellDrawn(front);
      RecoveryReproducesState(hotelId, front);
      var prev := Process(hotelId, front);
      var last := inputs[|inputs| - 1];
      var eff := Decide(hotelId, prev.state, last.cmd, last.draws);
      if eff.event.Some? {
        var log := prev.log + [eff.event.value];
        assert log[..|log| - 1] == prev.log;
      }
    }
  }

  /** Every state a run passes through is valid. */
  lemma {:induction false} ProcessKeepsValid(hotelId: string, inputs: seq<Input>)
    requires WellDrawn(inputs)
    ensures Valid(hotelId, Process(hotelId, inputs).state)
  {
    if inputs == [] {
      EmptyStateValid(hotelId);
    } else {
      var front := inputs[..|inputs| - 1];
      assert WellDrawn(front);
      ProcessKeepsValid(hotelId, front);
      var last := inputs[|inputs| - 1];
      DecidePreservesValid(hotelId, Process(hotelId, front).state, last.cmd, last.draws);
    }
  }

  /** Hence recovery from the log of any run yields a state in which no two reservations intersect. */
  lemma RecoveredStateValid(hotelId: string, inputs: seq<Input>)
    requires WellDrawn(inputs)
    ensures Valid(hotelId, Replay(Process(hotelId, inputs).log))
  {
    RecoveryReproducesState(hotelId, inputs);
    ProcessKeepsValid(hotelId, inputs);
  }

  // ---------------------------------------------------------------------
  // The command handlers, one by one
  // ---------------------------------------------------------------------

  /**
    * Looking a confirmation number up as a key is the same as the handlers'
    * `find { it.confirmationNumber == cn }` over the stored reservations.
    */
  lemma LookupMatchesFind(s: State, cn: string)
    requires Keyed(s)
    ensures cn in s.reservations <==> exists r :: r in s.reservations.Values && r.confirmationNumber == cn
    ensures forall r :: r in s.reservations.Values && r.confirmationNumber == cn ==> r == s.reservations[cn]
  {
    if cn in s.reservations {
      assert s.reservations[cn] in s.reservations.Values;
    }
  }

  /**
    * MakeReservation: the tentative reservation carries this aggregate's
    * hotel and the picked number; with no conflict it is persisted and echoed
    * back, with a conflict nothing is persisted and the state is unchanged.
    */
  lemma MakeReservationOutcome(hotelId: string, s: State, guestId: string, startDate: Date, endDate: Date,
                               roomNumber: int, draws: seq<Draw>)
    requires |draws| == ConfirmationLength
    ensures var cmd := MakeReservation(guestId, startDate, endDate, roomNumber);
            var t := Reservation(guestId, hotelId, startDate, endDate, roomNumber, Spell(draws));
            var (s', eff) := Step(hotelId, s, cmd, draws);
            && (HasConflict(s, t) ==> eff == Fail(MakeConflictReason) && s' == s)
            && (!HasConflict(s, t) ==> eff == PersistAndReply(ReservationAccepted(t)))
            && (!HasConflict(s, t) && t.confirmationNumber !in s.reservations ==>
                  s'.reservations == s.reservations[t.confirmationNumber := t])
  {
  }

  /**
    * The accepted reservation only lands in the state when its number is new:
    * `Set + r` keeps an existing element with the same confirmation number, so
    * a colliding number is persisted and echoed while the state is unchanged.
    */
  lemma MakeReservationCollisionKeepsStored(hotelId: string, s: State, guestId: string, startDate: Date,
                                            endDate: Date, roomNumber: int, draws: seq<Draw>)
    requires |draws| == ConfirmationLength
    requires Spell(draws) in s.reservations
    requires !HasConflict(s, Reservation(guestId, hotelId, startDate, endDate, roomNumber, Spell(draws)))
    ensures var (s', eff) := Step(hotelId, s, MakeReservation(guestId, startDate, endDate, roomNumber), draws);
            eff.event.Some? && s' == s
  {
  }

  /**
    * Two bookings of one room on an empty hotel: the first is accepted, and
    * the second is refused with the conflict message, leaving the state as
    * it was, exactly when its stay meets the first one under `intersect`;
    * otherwise it is accepted too.
    */
  lemma SecondBookingOfRoom(hotelId: string, roomNumber: int,
                            guest1: string, start1: Date, end1: Date, d1: seq<Draw>,
                            guest2: string, start2: Date, end2: Date, d2: seq<Draw>)
    requires |d1| == ConfirmationLength && |d2| == ConfirmationLength
    ensures var t1 := Reservation(guest1, hotelId, start1, end1, roomNumber, Spell(d1));
            var (s1, eff1) := Step(hotelId, EmptyState(), MakeReservation(guest1, start1, end1, roomNumber), d1);
            var (s2, eff2) := Step(hotelId, s1, MakeReservation(guest2, start2, end2, roomNumber), d2);
            var overlap := InClosedRange(start2, start1, end1) || InClosedRange(start1, start2, end2);
            && eff1 == PersistAndReply(ReservationAccepted(t1))
            && (overlap ==> eff2 == Fail(MakeConflictReason) && s2 == s1)
            && (!overlap ==> eff2.event.Some? && eff2.event.value.ReservationAccepted?)
  {
    var t1 := Reservation(guest1, hotelId, start1, end1, roomNumber, Spell(d1));
    var t2 := Reservation(guest2, hotelId, start2, end2, roomNumber, Spell(d2));
    var s1 := Step(hotelId, EmptyState(), MakeReservation(guest1, start1, end1, roomNumber), d1).0;
    assert s1.reservations == map[Spell(d1) := t1];
    assert HasConflict(s1, t2) <==> Intersect(s1.reservations[Spell(d1)], t2);
  }

  /**
    * The test `should not accept a conflicting reservation`: the same room
    * booked twice for the same dates; the second booking gets the conflict
    * message and changes nothing.
    */
  lemma SameDatesBookingRejected(hotelId: string, d1: seq<Draw>, d2: seq<Draw>)
    requires |d1| == ConfirmationLength && |d2| == ConfirmationLength
    ensures var (s1, eff1) := Step(hotelId, EmptyState(), MakeReservation("guest123", 1, 5, 101), d1);
            var (s2, eff2) := Step(hotelId, s1, MakeReservation("guest456", 1, 5, 101), d2);
            && eff1.event.Some? && eff1.event.value.ReservationAccepted?
            && eff2 == Fail(MakeConflictReason) && s2 == s1
  {
    SecondBookingOfRoom(hotelId, 101, "guest123", 1, 5, d1, "guest456", 1, 5, d2);
  }

  /** ChangeReservation of a number no stored reservation carries: a failure and no event. */
  lemma ChangeReservationNotFound(hotelId: string, s: State, cn: string, startDate: Date, endDate: Date,
                                  roomNumber: int, draws: seq<Draw>)
    requires |draws| == ConfirmationLength
    requires Keyed(s)
    requires forall r :: r in s.reservations.Values ==> r.confirmationNumber != cn
    ensures var (s', eff) := Step(hotelId, s, ChangeReservation(cn, startDate, endDate, roomNumber), draws);
            eff == Fail(ChangeNotFoundReason(cn)) && s' == s
  {
    LookupMatchesFind(s, cn);
  }

  /**
    * ChangeReservation whose new dates and room would meet another stored
    * reservation (the one being changed is excluded by its number): a
    * failure, no event, and a later GetReservation still finds the original.
    */
  lemma ChangeReservationConflict(hotelId: string, s: State, cn: string, startDate: Date, endDate: Date,
                                  roomNumber: int, draws: seq<Draw>)
    requires |draws| == ConfirmationLength
    requires cn in s.reservations
    requires exists k :: k in s.reservations && k != cn && s.reservations[k].confirmationNumber != cn &&
                         Intersect(s.reservations[k], s.reservations[cn].(startDate := startDate, endDate := endDate, roomNumber := roomNumber))
    ensures var (s', eff) := Step(hotelId, s, ChangeReservation(cn, startDate, endDate, roomNumber), draws);
            && eff == Fail(ChangeConflictReason(cn)) && s' == s
            && Decide(hotelId, s', GetReservation(cn), draws).reply == Some(ReservationFound(s.reservations[cn]))
  {
  }

  /**
    * The reservation being changed is excluded by its number in every state:
    * in a keyed state the check is exactly "does the new stay meet any stored
    * reservation other than the one being changed", so the change succeeds
    * precisely when the new stay is free of all the others.
    */
  lemma ChangeReservationIgnoresItself(hotelId: string, s: State, cn: string, startDate: Date, endDate: Date,
                                       roomNumber: int, draws: seq<Draw>)
    requires |draws| == ConfirmationLength
    requires Keyed(s)
    ensures forall t :: HasConflictExcept(s, cn, t) <==> HasConflict(State(s.reservations - {cn}), t)
    ensures cn in s.reservations ==>
              var o := s.reservations[cn];
              var n := o.(startDate := startDate, endDate := endDate, roomNumber := roomNumber);
              var eff := Decide(hotelId, s, ChangeReservation(cn, startDate, endDate, roomNumber), draws);
              && (eff == PersistAndReply(ReservationUpdated(o, n)) <==> !HasConflict(State(s.reservations - {cn}), n))
              && (eff == Fail(ChangeConflictReason(cn)) <==> HasConflict(State(s.reservations - {cn}), n))
  {
    var m := s.reservations;
    forall t
      ensures HasConflictExcept(s, cn, t) <==> HasConflict(State(m - {cn}), t)
    {
      if HasConflictExcept(s, cn, t) {
        var k :| k in m && m[k].confirmationNumber != cn && Intersect(m[k], t);
        assert k in m - {cn} && (m - {cn})[k] == m[k];
      }
      if HasConflict(State(m - {cn}), t) {
        var k :| k in m - {cn} && Intersect((m - {cn})[k], t);
        assert m[k].confirmationNumber == k;
      }
    }
  }

  /**
    * A successful ChangeReservation persists `ReservationUpdated(old, new)`
    * where `new` keeps the guest, hotel and number of `old` and takes the new
    * dates and room; afterwards the number maps to `new` and nothing else moved.
    */
  lemma ChangeReservationSuccess(hotelId: string, s: State, cn: string, startDate: Date, endDate: Date,
                                 roomNumber: int, draws: seq<Draw>)
    requires |draws| == ConfirmationLength
    requires Keyed(s)
    requires cn in s.reservations
    requires !HasConflictExcept(s, cn, s.reservations[cn].(startDate := startDate, endDate := endDate, roomNumber := roomNumber))
    ensures var (s', eff) := Step(hotelId, s, ChangeReservation(cn, startDate, endDate, roomNumber), draws);
            && eff.event.Some? && eff.event.value.ReservationUpdated?
            && var (o, n) := (eff.event.value.oldReservation, eff.event.value.newReservation);
            && o == s.reservations[cn]
            && n.guestId == o.guestId && n.hotelId == o.hotelId && n.confirmationNumber == o.confirmationNumber
            && n.startDate == startDate && n.endDate == endDate && n.roomNumber == roomNumber
            && s'.reservations == s.reservations[cn := n]
  {
    var n := s.reservations[cn].(startDate := startDate, endDate := endDate, roomNumber := roomNumber);
    assert (s.reservations - {cn})[cn := n] == s.reservations[cn := n];
  }

  /**
    * CancelReservation of a stored number persists `ReservationCanceled` of
    * that reservation; afterwards GetReservation replies "Reservation not found".
    */
  lemma CancelThenGetNotFound(hotelId: string, s: State, cn: string, draws: seq<Draw>)
    requires |draws| == ConfirmationLength
    requires Keyed(s)
    requires cn in s.reservations
    ensures var (s', eff) := Step(hotelId, s, CancelReservation(cn), draws);
            && eff == PersistAndReply(ReservationCanceled(s.reservations[cn]))
            && Decide(hotelId, s', GetReservation(cn), draws) == Fail(GetNotFoundReason)
  {
  }

  /** CancelReservation of an unknown number: a failure and no event. */
  lemma CancelReservationNotFound(hotelId: string, s: State, cn: string, draws: seq<Draw>)
    requires |draws| == ConfirmationLength
    requires cn !in s.reservations
    ensures var (s', eff) := Step(hotelId, s, CancelReservation(cn), draws);
            eff == Fail(CancelNotFoundReason(cn)) && s' == s
  {
  }

  /** In a keyed state there are as many stored reservations as confirmation numbers. */
  lemma {:induction false} ReservationCount(s: State)
    requires Keyed(s)
    ensures |s.reservations.Values| == |s.reservations|
    decreases |s.reservations|
  {
    var m := s.reservations;
    if m != map[] {
      var k :| k in m;
      var rest := State(m - {k});
      assert m.Keys == rest.reservations.Keys + {k};
      ReservationCount(rest);
      forall v | v in m.Values
        ensures v in rest.reservations.Values + {m[k]}
      {
        var j :| j in m && m[j] == v;
        if j != k {
          assert rest.reservations[j] == v;
        }
      }
      forall v | v in rest.reservations.Values
        ensures v in m.Values && v != m[k]
      {
        var j :| j in rest.reservations && rest.reservations[j] == v;
        assert m[j] == v;
      }
      assert m.Values == rest.reservations.Values + {m[k]};
    }
  }

  /**
    * The queries persist nothing and leave the state alone; GetAllReservations
    * replies with exactly the stored reservations, one per confirmation number.
    */
  lemma QueriesAnswerFromState(hotelId: string, s: State, cn: string, draws: seq<Draw>)
    requires |draws| == ConfirmationLength
    requires Keyed(s)
    ensures var (s', eff) := Step(hotelId, s, GetAllReservations, draws);
            && s' == s && eff.reply == Some(AllReservations(s.reservations.Values))
            && |eff.reply.value.reservations| == |s.reservations|
    ensures var (s', eff) := Step(hotelId, s, GetReservation(cn), draws);
            && s' == s
            && (cn in s.reservations ==> eff.reply == Some(ReservationFound(s.reservations[cn])))
            && (cn !in s.reservations ==> eff.reply == Some(CommandFailure(GetNotFoundReason)))
  {
    ReservationCount(s);
  }

  /** The test `should return all reservations`: after one accepted booking GetAllReservations lists exactly one. */
  lemma OneBookingThenGetAllListsOne(hotelId: string, d1: seq<Draw>, d2: seq<Draw>)
    requires |d1| == ConfirmationLength && |d2| == ConfirmationLength
    ensures var (s1, _) := Step(hotelId, EmptyState(), MakeReservation("guest123", 1, 5, 101), d1);
            var (_, eff) := Step(hotelId, s1, GetAllReservations, d2);
            eff.reply.Some? && eff.reply.value.AllReservations? && |eff.reply.value.reservations| == 1
  {
    var t := Reservation("guest123", hotelId, 1, 5, 101, Spell(d1));
    var s1 := Step(hotelId, EmptyState(), MakeReservation("guest123", 1, 5, 101), d1).0;
    assert s1.reservations == map[t.confirmationNumber := t];
    assert s1.reservations.Values == {t};
  }

  /** The catch-all handler: no event, no reply, no change. */
  lemma UnhandledIsIgnored(hotelId: string, s: State, draws: seq<Draw>)
    requires |draws| == ConfirmationLength
    ensures Step(hotelId, s, Unhandled, draws) == (s, Effect(None, None))
  {
  }

  // ---------------------------------------------------------------------
  // The event handlers, one by one
  // ---------------------------------------------------------------------

  /** Accepted adds the reservation under its number, unless that number is already taken. */
  lemma AcceptedAdds(s: State, r: Reservation)
    ensures var s' := Evolve(s, ReservationAccepted(r));
            && r.confirmationNumber in s'.reservations
            && (r.confirmationNumber !in s.reservations ==>
                  s'.reservations == s.reservations[r.confirmationNumber := r]
                  && |s'.reservations| == |s.reservations| + 1)
            && (r.confirmationNumber in s.reservations ==> s' == s)
  {
  }

  /** Updated removes the old reservation, then adds the new one. */
  lemma UpdatedReplaces(s: State, o: Reservation, n: Reservation)
    requires n.confirmationNumber == o.confirmationNumber
    ensures Evolve(s, ReservationUpdated(o, n)).reservations == s.reservations[n.confirmationNumber := n]
  {
    assert (s.reservations - {o.confirmationNumber})[n.confirmationNumber := n] == s.reservations[n.confirmationNumber := n];
  }

  /** Canceled removes the reservation with that number and keeps every other one. */
  lemma CanceledRemoves(s: State, r: Reservation)
    ensures var s' := Evolve(s, ReservationCanceled(r));
            && r.confirmationNumber !in s'.reservations
            && (forall cn :: cn in s.reservations && cn != r.confirmationNumber ==>
                  cn in s'.reservations && s'.reservations[cn] == s.reservations[cn])
            && (r.confirmationNumber in s.reservations ==> |s'.reservations| == |s.reservations| - 1)
  {
  }
}
