/**
  The store over a run of requests served one at a time: bookings,
  cancellations and registrations. A consistent store keeps event and
  booking ids unique, usernames unique, ticket counts positive and every
  event within its capacity.
 */
module Lifecycle {
  import opened Linq
  import opened Models
  import opened Bookings
  import opened Auth
  import opened Database
  import opened Listings

  ghost predicate Consistent(s: Store)
  {
    && UniqueEventIds(s.events)
    && UniqueBookingIds(s.bookings)
    && PositiveTickets(s.bookings)
    && WithinCapacity(s.events, s.bookings)
    && UniqueUsernames(s.users)
  }

  datatype Command =
    | Book(request: BookingRequest, at: Timestamp)
    | Cancel(bookingId: int)
    | SignUp(username: string, password: string)

  /** One request served against the store, with the ticket count validated.
      Only the list the request is about can change: a booking request
      appends one Active booking for the requested event or changes nothing,
      a cancel removes one booking with the given id or changes nothing, and
      a sign-up appends one user with the given name or changes nothing. */
  function Step(s: Store, c: Command, h: Hasher): (r: Store)
    ensures r.events == s.events
    ensures !c.SignUp? ==> r.users == s.users
    ensures c.SignUp? ==> r.bookings == s.bookings
    ensures c.Book? ==>
              || r.bookings == s.bookings
              || (&& |r.bookings| == |s.bookings| + 1
                  && r.bookings[..|s.bookings|] == s.bookings
                  && r.bookings[|s.bookings|].eventId == c.request.eventId
                  && r.bookings[|s.bookings|].numberOfTickets == c.request.numberOfTickets > 0
                  && r.bookings[|s.bookings|].status == Active)
    ensures c.Cancel? ==>
              || r.bookings == s.bookings
              || exists k :: 0 <= k < |s.bookings| && s.bookings[k].id == c.bookingId
                             && r.bookings == RemoveAt(s.bookings, k)
    ensures c.SignUp? ==>
              || r.users == s.users
              || (&& |r.users| == |s.users| + 1
                  && r.users[..|s.users|] == s.users
                  && r.users[|s.users|].username == c.username)
  {
    match c
    case Book(req, at) => CreateBookingValidated(s, req, at).1
    case Cancel(id) => CancelBooking(s, id).1
    case SignUp(name, pw) => Register(s, name, pw, h).1
  }

  /** The requests served in order. The events never change; a run without
      sign-ups leaves the users as they were, and one made of sign-ups only
      leaves the bookings. */
  function Run(s: Store, cs: seq<Command>, h: Hasher): (r: Store)
    ensures r.events == s.events
    ensures (forall i :: 0 <= i < |cs| ==> !cs[i].SignUp?) ==> r.users == s.users
    ensures (forall i :: 0 <= i < |cs| ==> cs[i].SignUp?) ==> r.bookings == s.bookings
    ensures |r.bookings| <= |s.bookings| + |cs|
    decreases |cs|
  {
    if |cs| == 0 then s else Run(Step(s, cs[0], h), cs[1..], h)
  }

  lemma StepPreservesConsistency(s: Store, c: Command, h: Hasher)
    requires Consistent(s)
    ensures Consistent(Step(s, c, h))
    ensures Step(s, c, h).events == s.events
  {
    match c
    case Book(req, at) =>
      var r := CreateBookingValidated(s, req, at);
      if r.0.Created? {
        CreateBookingFreshId(s, req, at);
        CreateBookingPreservesCapacity(s, req, at);
        var bs := r.1.bookings;
        assert forall i :: 0 <= i < |s.bookings| ==> bs[i] == s.bookings[i];
        assert bs[|s.bookings|] == r.0.booking;
      }
    case Cancel(id) =>
      assert NonNegativeTickets(s.bookings);
      CancelBookingPreservesCapacity(s, id);
      CancelBookingKeepsBookingsWellFormed(s, id);
    case SignUp(name, pw) =>
      RegisterPreservesUniqueUsernames(s, name, pw, h);
  }

  /** Any run of requests served one at a time keeps a consistent store
      consistent. */
  lemma {:induction false} RunPreservesConsistency(s: Store, cs: seq<Command>, h: Hasher)
    requires Consistent(s)
    ensures Consistent(Run(s, cs, h))
    ensures Run(s, cs, h).events == s.events
    decreases |cs|
  {
    if |cs| > 0 {
      StepPreservesConsistency(s, cs[0], h);
      RunPreservesConsistency(Step(s, cs[0], h), cs[1..], h);
    }
  }

  /** In particular every store reachable from the seeded database. */
  lemma SeedRunIsConsistent(h: Hasher, now: Timestamp, utcNow: Timestamp, cs: seq<Command>)
    ensures Consistent(Run(Seed(h, now, utcNow), cs, h))
  {
    SeedUsersFacts(h, now, utcNow);
    SeedEventsFacts(h, now, utcNow);
    SeedBookingsFacts(h, now, utcNow);
    RunPreservesConsistency(Seed(h, now, utcNow), cs, h);
  }

  /** After a successful cancel in a store with unique booking ids, no
      listing shows a booking with that id. */
  lemma CancelledBookingIsNotListed(s: Store, id: int, userId: int, eventId: int)
    requires UniqueBookingIds(s.bookings)
    ensures var s1 := CancelBooking(s, id).1;
            && (forall b :: b in AllBookings(s1) ==> b.id != id)
            && (forall b :: b in UserBookings(s1, userId) ==> b.id != id)
            && (forall b :: b in EventBookings(s1, eventId) ==> b.id != id)
  {
    var s1 := CancelBooking(s, id).1;
    CancelBookingRemovesId(s, id);
    forall b | b in AllBookings(s1) ensures b.id != id {
      assert b in multiset(AllBookings(s1));
      assert b in multiset(s1.bookings);
    }
  }

  /** A sequence of booking requests, each served by `CreateBooking`. */
  function BookAll(s: Store, reqs: seq<BookingRequest>, at: Timestamp): Store
    decreases |reqs|
  {
    if |reqs| == 0 then s else BookAll(CreateBooking(s, reqs[0], at).1, reqs[1..], at)
  }

  /** Booking into a store whose bookings are numbered 1, 2, ..., n in order
      (the empty store included) keeps them numbered so: successive bookings
      receive consecutive ids. */
  lemma {:induction false} BookAllNumbersSequentially(s: Store, reqs: seq<BookingRequest>, at: Timestamp)
    requires NumberedFromOne(s.bookings)
    ensures NumberedFromOne(BookAll(s, reqs, at).bookings)
    ensures |BookAll(s, reqs, at).bookings| >= |s.bookings|
    decreases |reqs|
  {
    if |reqs| > 0 {
      CreateBookingNumbersSequentially(s, reqs[0], at);
      BookAllNumbersSequentially(CreateBooking(s, reqs[0], at).1, reqs[1..], at);
    }
  }

  // A 50-seat event and the bookings the counterexample below creates.
  const Gig: Event := Event(1, "Gig", "", Concert, 0, 0, 50)
  const GigStore: Store := Store([Gig], [], [])
  const Minus5: Booking := Booking(1, 1, 7, "u", "Gig", -5, 0, -5 * TicketPrice, Active)
  const Plus55: Booking := Booking(2, 1, 7, "u", "Gig", 55, 0, 55 * TicketPrice, Active)

  lemma GigBookMinus5()
    ensures CreateBooking(GigStore, BookingRequest(1, 7, "u", -5), 0) == (Created(Minus5), GigStore.(bookings := [Minus5]))
  {
    assert FindEvent(GigStore.events, 1) == Some(Gig);
    var r := CreateBooking(GigStore, BookingRequest(1, 7, "u", -5), 0);
    assert r.0.booking == Minus5;
    assert GigStore.bookings + [Minus5] == [Minus5];
  }

  lemma GigBookPlus55()
    ensures CreateBooking(GigStore.(bookings := [Minus5]), BookingRequest(1, 7, "u", 55), 0)
              == (Created(Plus55), GigStore.(bookings := [Minus5, Plus55]))
  {
    assert FindEvent(GigStore.events, 1) == Some(Gig);
    assert ActiveTickets([Minus5], 1) == -5 by {
      ActiveTicketsAppend([], Minus5, 1);
      assert [] + [Minus5] == [Minus5];
    }
    assert NextId([Minus5]) == 2;
    assert [Minus5] + [Plus55] == [Minus5, Plus55];
  }

  lemma GigCancelMinus5()
    ensures CancelBooking(GigStore.(bookings := [Minus5, Plus55]), 1) == (Removed(1), GigStore.(bookings := [Plus55]))
  {
    assert BookingIndex([Minus5, Plus55], 1) == Some(0);
    assert RemoveAt([Minus5, Plus55], 0) == [Plus55];
  }

  /** Without the ticket-count check, a booking of -5 tickets lets a 50-seat
      event take a 55-ticket booking, and cancelling the -5 booking then
      leaves the event over capacity. The validated create refuses the first
      request. */
  lemma NegativeTicketsOversell()
    ensures var r1 := CreateBooking(GigStore, BookingRequest(1, 7, "u", -5), 0);
            var r2 := CreateBooking(r1.1, BookingRequest(1, 7, "u", 55), 0);
            var r3 := CancelBooking(r2.1, 1);
            && WithinCapacity(GigStore.events, GigStore.bookings)
            && r1.0.Created? && r2.0.Created? && r3.0.Removed?
            && WithinCapacity(r2.1.events, r2.1.bookings)
            && !WithinCapacity(r3.1.events, r3.1.bookings)
            && CreateBookingValidated(GigStore, BookingRequest(1, 7, "u", -5), 0).0 == InvalidTicketCount
  {
    GigBookMinus5();
    GigBookPlus55();
    GigCancelMinus5();
    ActiveTicketsAppend([Minus5], Plus55, 1);
    assert [Minus5] + [Plus55] == [Minus5, Plus55];
    assert ActiveTickets([Minus5], 1) == -5 by {
      ActiveTicketsAppend([], Minus5, 1);
      assert [] + [Minus5] == [Minus5];
    }
    assert ActiveTickets([Plus55], 1) == 55 by {
      ActiveTicketsAppend([], Plus55, 1);
      assert [] + [Plus55] == [Plus55];
    }
  }

  /** A create the capacity test admits, into a store numbered 1..n: the
      booking gets id n + 1 and adds its tickets to the event's count. */
  lemma CreateAdmitted(s: Store, q: BookingRequest, at: Timestamp)
    requires FindEvent(s.events, q.eventId).Some?
    requires ActiveTickets(s.bookings, q.eventId) + q.numberOfTickets
               <= FindEvent(s.events, q.eventId).value.maxAttendees
    requires NumberedFromOne(s.bookings)
    ensures var r := CreateBooking(s, q, at);
            && r.0.Created?
            && r.1.events == s.events
            && NumberedFromOne(r.1.bookings)
            && |r.1.bookings| == |s.bookings| + 1
            && r.1.bookings[|s.bookings|] == r.0.booking
            && r.0.booking.id == |s.bookings| + 1
            && Contribution(r.0.booking, q.eventId) == q.numberOfTickets
            && ActiveTickets(r.1.bookings, q.eventId) == ActiveTickets(s.bookings, q.eventId) + q.numberOfTickets
  {
    var r := CreateBooking(s, q, at);
    CreateBookingNumbersSequentially(s, q, at);
    ActiveTicketsAppend(s.bookings, r.0.booking, q.eventId);
  }

  /** Cancelling a booking that holds a negative number of Active tickets,
      in a store numbered 1..n, raises its event's count by that many. */
  lemma CancelNegativeRaisesCount(s: Store, k: nat, eventId: int)
    requires k < |s.bookings|
    requires NumberedFromOne(s.bookings)
    requires Contribution(s.bookings[k], eventId) < 0
    ensures var r := CancelBooking(s, k + 1);
            && r.0.Removed?
            && r.1.events == s.events
            && ActiveTickets(r.1.bookings, eventId)
                 == ActiveTickets(s.bookings, eventId) - Contribution(s.bookings[k], eventId)
            && ActiveTickets(r.1.bookings, eventId) > ActiveTickets(s.bookings, eventId)
  {
    assert BookingIndex(s.bookings, k + 1) == Some(k);
    ActiveTicketsRemoveAt(s.bookings, k, eventId);
  }

  /** The oversell from the seeded database with the create as written:
      event 1 holds 2 of its 50 tickets; booking -10 and then 58 is admitted,
      and cancelling the -10 booking (id 3) leaves 60 tickets. So the run
      theorem above needs the validated create. */
  lemma SeedOversellAsWritten(h: Hasher, now: Timestamp, utcNow: Timestamp, at: Timestamp)
    ensures var s0 := Seed(h, now, utcNow);
            var r1 := CreateBooking(s0, BookingRequest(1, 2, "testuser", -10), at);
            var r2 := CreateBooking(r1.1, BookingRequest(1, 2, "testuser", 58), at);
            var r3 := CancelBooking(r2.1, 3);
            && Consistent(s0)
            && r1.0.Created? && r2.0.Created? && r3.0.Removed?
            && ActiveTickets(r3.1.bookings, 1) == 60
            && !WithinCapacity(r3.1.events, r3.1.bookings)
  {
    SeedUsersFacts(h, now, utcNow);
    SeedEventsFacts(h, now, utcNow);
    SeedBookingsFacts(h, now, utcNow);
    var s0 := Seed(h, now, utcNow);
    var q1 := BookingRequest(1, 2, "testuser", -10);
    var q2 := BookingRequest(1, 2, "testuser", 58);
    assert FindEvent(s0.events, 1) == Some(s0.events[0]);
    assert ActiveTickets(s0.bookings, 1) == 2;
    CreateAdmitted(s0, q1, at);
    var r1 := CreateBooking(s0, q1, at);
    CreateAdmitted(r1.1, q2, at);
    var r2 := CreateBooking(r1.1, q2, at);
    assert r2.1.bookings[2] == r1.0.booking;
    CancelNegativeRaisesCount(r2.1, 2, 1);
    var r3 := CancelBooking(r2.1, 3);
    assert r3.1.events[0].id == 1 && r3.1.events[0].maxAttendees == 50;
  }
}
