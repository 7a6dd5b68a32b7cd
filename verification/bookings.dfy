/**
  The booking endpoints: creating a booking against an event's capacity and
  cancelling one by id. Each operation takes the store and returns the
  outcome together with the store it leaves behind.
 */
module Bookings {
  import opened Linq
  import opened Models

  /** Body of `POST /bookings`. */
  datatype BookingRequest = BookingRequest(eventId: int, userId: int, userName: string, numberOfTickets: int)

  /** Fixed price of one ticket. */
  const TicketPrice: int := 299

  datatype CreateOutcome =
    | Created(booking: Booking)
    | EventNotFound
    | NotEnoughTickets
    | InvalidTicketCount

  datatype CancelOutcome = Removed(bookingId: int) | BookingNotFound

  // ---------------------------------------------------------------------
  // Capacity

  /** Tickets `b` holds against event `eventId`: only Active bookings count. */
  function Contribution(b: Booking, eventId: int): (n: int)
    ensures b.eventId == eventId && b.status == Active ==> n == b.numberOfTickets
    ensures n != 0 ==> b.eventId == eventId && b.status == Active && n == b.numberOfTickets
    ensures b.status == Cancelled ==> n == 0
    ensures b.numberOfTickets >= 0 ==> n >= 0
  {
    if b.eventId == eventId && b.status == Active then b.numberOfTickets else 0
  }

  /** Sum of the tickets of the Active bookings for `eventId`. */
  function ActiveTickets(bs: seq<Booking>, eventId: int): (n: int)
    ensures NonNegativeTickets(bs) ==> n >= 0
    ensures NonNegativeTickets(bs) ==> forall i :: 0 <= i < |bs| ==> Contribution(bs[i], eventId) <= n
    ensures (forall i :: 0 <= i < |bs| ==> bs[i].eventId != eventId || bs[i].status == Cancelled) ==> n == 0
  {
    if |bs| == 0 then 0
    else
      assert forall i :: 1 <= i < |bs| ==> bs[1..][i - 1] == bs[i];
      Contribution(bs[0], eventId) + ActiveTickets(bs[1..], eventId)
  }

  lemma {:induction false} ActiveTicketsConcat(a: seq<Booking>, b: seq<Booking>, eventId: int)
    ensures ActiveTickets(a + b, eventId) == ActiveTickets(a, eventId) + ActiveTickets(b, eventId)
  {
    if |a| == 0 {
      assert a + b == b;
    } else {
      assert (a + b)[1..] == a[1..] + b;
      ActiveTicketsConcat(a[1..], b, eventId);
    }
  }

  lemma ActiveTicketsAppend(bs: seq<Booking>, b: Booking, eventId: int)
    ensures ActiveTickets(bs + [b], eventId) == ActiveTickets(bs, eventId) + Contribution(b, eventId)
  {
    ActiveTicketsConcat(bs, [b], eventId);
    assert ActiveTickets([b], eventId) == Contribution(b, eventId) + ActiveTickets([], eventId);
  }

  lemma ActiveTicketsRemoveAt(bs: seq<Booking>, k: nat, eventId: int)
    requires k < |bs|
    ensures ActiveTickets(RemoveAt(bs, k), eventId) == ActiveTickets(bs, eventId) - Contribution(bs[k], eventId)
  {
    assert bs == bs[..k] + ([bs[k]] + bs[k + 1..]);
    ActiveTicketsConcat(bs[..k], [bs[k]] + bs[k + 1..], eventId);
    ActiveTicketsConcat(bs[..k], bs[k + 1..], eventId);
    assert ([bs[k]] + bs[k + 1..])[1..] == bs[k + 1..];
  }

  /** The filter of the capacity query: Active bookings for `eventId`. */
  function ActiveFor(eventId: int): Booking -> bool
  {
    (b: Booking) => b.eventId == eventId && b.status == Active
  }

  /** `Sum(b => b.NumberOfTickets)`. */
  function SumTickets(bs: seq<Booking>): int
  {
    if |bs| == 0 then 0 else bs[0].numberOfTickets + SumTickets(bs[1..])
  }

  /** The Active-ticket count is the query's own shape: the ticket counts of
      the bookings that pass the filter, summed. */
  lemma {:induction false} ActiveTicketsIsFilteredSum(bs: seq<Booking>, eventId: int)
    ensures ActiveTickets(bs, eventId) == SumTickets(Where(bs, ActiveFor(eventId)))
  {
    if |bs| > 0 {
      var w := Where(bs[1..], ActiveFor(eventId));
      ActiveTicketsIsFilteredSum(bs[1..], eventId);
      if ActiveFor(eventId)(bs[0]) {
        assert Where(bs, ActiveFor(eventId)) == [bs[0]] + w;
        assert ([bs[0]] + w)[1..] == w;
      } else {
        assert Where(bs, ActiveFor(eventId)) == [] + w;
        assert [] + w == w;
      }
    }
  }

  /** Every event's Active tickets stay within its `MaxAttendees`. */
  ghost predicate WithinCapacity(events: seq<Event>, bs: seq<Booking>)
  {
    forall i :: 0 <= i < |events| ==> ActiveTickets(bs, events[i].id) <= events[i].maxAttendees
  }

  ghost predicate UniqueEventIds(events: seq<Event>)
  {
    forall i, j :: 0 <= i < j < |events| ==> events[i].id != events[j].id
  }

  ghost predicate UniqueBookingIds(bs: seq<Booking>)
  {
    forall i, j :: 0 <= i < j < |bs| ==> bs[i].id != bs[j].id
  }

  ghost predicate PositiveTickets(bs: seq<Booking>)
  {
    forall i :: 0 <= i < |bs| ==> bs[i].numberOfTickets > 0
  }

  ghost predicate NonNegativeTickets(bs: seq<Booking>)
  {
    forall i :: 0 <= i < |bs| ==> bs[i].numberOfTickets >= 0
  }

  // ---------------------------------------------------------------------
  // Lookups and id assignment

  /** The first event with the given id, if any. */
  function FindEvent(events: seq<Event>, eventId: int): (r: Option<Event>)
    ensures r.None? <==> forall i :: 0 <= i < |events| ==> events[i].id != eventId
    ensures r.Some? ==> exists k :: 0 <= k < |events| && events[k] == r.value && r.value.id == eventId
                                   && forall j :: 0 <= j < k ==> events[j].id != eventId
  {
    match FirstIndex(events, (e: Event) => e.id == eventId)
    case None => None
    case Some(k) => Some(events[k])
  }

  /** Position of the first booking with the given id, if any. */
  function BookingIndex(bs: seq<Booking>, id: int): (r: Option<nat>)
    ensures r.None? <==> forall i :: 0 <= i < |bs| ==> bs[i].id != id
    ensures r.Some? ==> r.value < |bs| && bs[r.value].id == id
    ensures r.Some? ==> forall j :: 0 <= j < r.value ==> bs[j].id != id
  {
    FirstIndex(bs, (b: Booking) => b.id == id)
  }

  /** Largest booking id in a non-empty list. */
  function MaxId(bs: seq<Booking>): (m: int)
    requires |bs| > 0
    ensures exists i :: 0 <= i < |bs| && bs[i].id == m
    ensures forall i :: 0 <= i < |bs| ==> bs[i].id <= m
  {
    if |bs| == 1 then bs[0].id
    else
      var rest := MaxId(bs[1..]);
      assert forall i :: 1 <= i < |bs| ==> bs[i] == bs[1..][i - 1];
      if bs[0].id >= rest then bs[0].id else rest
  }

  /** Id of the next booking: one more than the largest id, or 1 for an
      empty list. */
  function NextId(bs: seq<Booking>): (r: int)
    ensures |bs| == 0 ==> r == 1
    ensures |bs| > 0 ==> exists i :: 0 <= i < |bs| && r == bs[i].id + 1
    ensures forall i :: 0 <= i < |bs| ==> bs[i].id < r
  {
    if |bs| == 0 then 1 else MaxId(bs) + 1
  }

  // ---------------------------------------------------------------------
  // Operations

  /** `CreateBooking`: resolve the event, check its remaining capacity, then
      append an Active booking priced at `TicketPrice` per ticket. The
      request's ticket count is not validated. */
  function CreateBooking(s: Store, req: BookingRequest, utcNow: Timestamp): (r: (CreateOutcome, Store))
    ensures r.0.EventNotFound? <==> forall i :: 0 <= i < |s.events| ==> s.events[i].id != req.eventId
    ensures r.0.NotEnoughTickets? <==>
              FindEvent(s.events, req.eventId).Some? &&
              ActiveTickets(s.bookings, req.eventId) + req.numberOfTickets
                > FindEvent(s.events, req.eventId).value.maxAttendees
    ensures !r.0.InvalidTicketCount?
    ensures !r.0.Created? ==> r.1 == s
    ensures r.0.Created? ==>
              var b := r.0.booking;
              && r.1 == s.(bookings := s.bookings + [b])
              && b.id == NextId(s.bookings)
              && b.eventId == req.eventId && b.userId == req.userId && b.userName == req.userName
              && b.eventName == FindEvent(s.events, req.eventId).value.name
              && b.numberOfTickets == req.numberOfTickets
              && b.totalPrice == req.numberOfTickets * TicketPrice
              && b.bookingDate == utcNow
              && b.status == Active
  {
    match FindEvent(s.events, req.eventId)
    case None => (EventNotFound, s)
    case Some(ev) =>
      if ActiveTickets(s.bookings, req.eventId) + req.numberOfTickets > ev.maxAttendees then
        (NotEnoughTickets, s)
      else
        var b := NewBooking(utcNow).(
          id := NextId(s.bookings),
          eventId := req.eventId,
          userId := req.userId,
          userName := req.userName,
          eventName := ev.name,
          numberOfTickets := req.numberOfTickets,
          totalPrice := req.numberOfTickets * TicketPrice,
          status := Active);
        (Created(b), s.(bookings := s.bookings + [b]))
  }

  /** `CancelBooking`: delete the first booking with the given id. */
  function CancelBooking(s: Store, id: int): (r: (CancelOutcome, Store))
    ensures r.0.BookingNotFound? <==> forall i :: 0 <= i < |s.bookings| ==> s.bookings[i].id != id
    ensures r.0.BookingNotFound? ==> r.1 == s
    ensures r.0.Removed? ==>
              && r.0.bookingId == id
              && exists k :: 0 <= k < |s.bookings| && s.bookings[k].id == id
                             && (forall j :: 0 <= j < k ==> s.bookings[j].id != id)
                             && r.1 == s.(bookings := RemoveAt(s.bookings, k))
  {
    match BookingIndex(s.bookings, id)
    case None => (BookingNotFound, s)
    case Some(k) => (Removed(id), s.(bookings := RemoveAt(s.bookings, k)))
  }

  /** `CreateBooking` that also refuses a request for zero or fewer
      tickets. */
  function CreateBookingValidated(s: Store, req: BookingRequest, utcNow: Timestamp): (r: (CreateOutcome, Store))
    ensures r.0.InvalidTicketCount? <==> req.numberOfTickets <= 0
    ensures r.0.Created? ==> r.0.booking.numberOfTickets > 0
    ensures req.numberOfTickets > 0 ==> r == CreateBooking(s, req, utcNow)
    ensures !r.0.Created? ==> r.1 == s
  {
    if req.numberOfTickets <= 0 then (InvalidTicketCount, s) else CreateBooking(s, req, utcNow)
  }

  // ---------------------------------------------------------------------
  // Properties

  /** The new booking's id differs from every id already in the store, and
      unique ids stay unique. */
  lemma CreateBookingFreshId(s: Store, req: BookingRequest, utcNow: Timestamp)
    requires CreateBooking(s, req, utcNow).0.Created?
    ensures forall i :: 0 <= i < |s.bookings| ==>
              s.bookings[i].id != CreateBooking(s, req, utcNow).0.booking.id
    ensures UniqueBookingIds(s.bookings) ==> UniqueBookingIds(CreateBooking(s, req, utcNow).1.bookings)
  {
    var r := CreateBooking(s, req, utcNow);
    var bs' := r.1.bookings;
    if UniqueBookingIds(s.bookings) {
      forall i, j | 0 <= i < j < |bs'| ensures bs'[i].id != bs'[j].id {
        if j == |s.bookings| {
          assert bs'[j] == r.0.booking;
          assert bs'[i] == s.bookings[i];
        } else {
          assert bs'[i] == s.bookings[i] && bs'[j] == s.bookings[j];
        }
      }
    }
  }

  /** Capacity is an invariant of a successful `CreateBooking`: the capacity test at
      the top of the operation keeps every event within its limit. */
  lemma CreateBookingPreservesCapacity(s: Store, req: BookingRequest, utcNow: Timestamp)
    requires UniqueEventIds(s.events)
    requires WithinCapacity(s.events, s.bookings)
    ensures WithinCapacity(s.events, CreateBooking(s, req, utcNow).1.bookings)
  {
    var r := CreateBooking(s, req, utcNow);
    if r.0.Created? {
      var b := r.0.booking;
      forall i | 0 <= i < |s.events|
        ensures ActiveTickets(r.1.bookings, s.events[i].id) <= s.events[i].maxAttendees
      {
        var e := s.events[i];
        ActiveTicketsAppend(s.bookings, b, e.id);
        if e.id == req.eventId {
          var ev := FindEvent(s.events, req.eventId).value;
          var k :| 0 <= k < |s.events| && s.events[k] == ev && ev.id == req.eventId;
          assert k == i;
        }
      }
    }
  }

  /** Removing a booking that holds no negative number of tickets cannot
      push any event over its limit. */
  lemma CancelBookingPreservesCapacity(s: Store, id: int)
    requires WithinCapacity(s.events, s.bookings)
    requires NonNegativeTickets(s.bookings)
    ensures WithinCapacity(s.events, CancelBooking(s, id).1.bookings)
  {
    match BookingIndex(s.bookings, id)
    case None =>
    case Some(k) =>
      forall i | 0 <= i < |s.events|
        ensures ActiveTickets(RemoveAt(s.bookings, k), s.events[i].id) <= s.events[i].maxAttendees
      {
        ActiveTicketsRemoveAt(s.bookings, k, s.events[i].id);
      }
  }

  /** A cancel keeps ticket counts positive and booking ids unique. */
  lemma CancelBookingKeepsBookingsWellFormed(s: Store, id: int)
    ensures PositiveTickets(s.bookings) ==> PositiveTickets(CancelBooking(s, id).1.bookings)
    ensures UniqueBookingIds(s.bookings) ==> UniqueBookingIds(CancelBooking(s, id).1.bookings)
  {
    match BookingIndex(s.bookings, id)
    case None =>
    case Some(k) =>
      var bs' := RemoveAt(s.bookings, k);
      assert forall i :: 0 <= i < |bs'| ==> bs'[i] == s.bookings[if i < k then i else i + 1];
  }

  /** With unique ids, a successful cancel leaves no booking with that id. */
  lemma CancelBookingRemovesId(s: Store, id: int)
    requires UniqueBookingIds(s.bookings)
    ensures forall i :: 0 <= i < |CancelBooking(s, id).1.bookings| ==>
              CancelBooking(s, id).1.bookings[i].id != id
  {
    match BookingIndex(s.bookings, id)
    case None =>
    case Some(k) =>
      var bs' := RemoveAt(s.bookings, k);
      forall i | 0 <= i < |bs'| ensures bs'[i].id != id {
        if i < k {
          assert bs'[i] == s.bookings[i];
        } else {
          assert bs'[i] == s.bookings[i + 1];
        }
      }
  }

  /** Cancelling the booking just created gives back the store as it was. */
  lemma CancelUndoesCreate(s: Store, req: BookingRequest, utcNow: Timestamp)
    requires CreateBooking(s, req, utcNow).0.Created?
    ensures var r := CreateBooking(s, req, utcNow);
            CancelBooking(r.1, r.0.booking.id) == (Removed(r.0.booking.id), s)
  {
    var r := CreateBooking(s, req, utcNow);
    var b := r.0.booking;
    var bs' := s.bookings + [b];
    var k := BookingIndex(bs', b.id);
    assert bs'[|s.bookings|] == b;
    assert forall j :: 0 <= j < |s.bookings| ==> bs'[j] == s.bookings[j];
    assert k == Some(|s.bookings|);
    assert RemoveAt(bs', |s.bookings|) == s.bookings;
  }

  /** Ids handed out on an empty list, and after it, run 1, 2, 3, ...: a list
      numbered from 1 in order stays so after a successful create. */
  ghost predicate NumberedFromOne(bs: seq<Booking>)
  {
    forall i :: 0 <= i < |bs| ==> bs[i].id == i + 1
  }

  lemma CreateBookingNumbersSequentially(s: Store, req: BookingRequest, utcNow: Timestamp)
    requires NumberedFromOne(s.bookings)
    ensures CreateBooking(s, req, utcNow).0.Created? ==>
              CreateBooking(s, req, utcNow).0.booking.id == |s.bookings| + 1
    ensures NumberedFromOne(CreateBooking(s, req, utcNow).1.bookings)
  {
    var n := |s.bookings|;
    if n > 0 {
      assert s.bookings[n - 1].id == n;
    }
  }

  // ---------------------------------------------------------------------
  // 32-bit arithmetic of the capacity test

  const Int32Min: int := -0x8000_0000
  const Int32Max: int := 0x7fff_ffff

  predicate IsInt32(x: int) { Int32Min <= x <= Int32Max }

  /** Two's-complement wrap-around of C#'s unchecked `int` addition. */
  function Wrap32(x: int): (r: int)
    ensures IsInt32(r)
    ensures IsInt32(x) ==> r == x
    ensures (r - x) % 0x1_0000_0000 == 0
  {
    (x - Int32Min) % 0x1_0000_0000 + Int32Min
  }

  /** The capacity test as the code evaluates it, with `existing +
      requested` in 32-bit arithmetic. */
  function AdmitsInt32(existing: int, requested: int, maxAttendees: int): (ok: bool)
    requires IsInt32(existing) && IsInt32(requested) && IsInt32(maxAttendees)
    ensures IsInt32(existing + requested) ==> (ok <==> existing + requested <= maxAttendees)
    ensures existing + requested > Int32Max && maxAttendees >= 0 ==> ok
  {
    Wrap32(existing + requested) <= maxAttendees
  }

  /** Where the sum fits in 32 bits, the code's test is the exact one. */
  lemma AdmitsInt32WithoutOverflow(existing: int, requested: int, maxAttendees: int)
    requires IsInt32(existing) && IsInt32(requested) && IsInt32(maxAttendees)
    requires IsInt32(existing + requested)
    ensures AdmitsInt32(existing, requested, maxAttendees) <==> existing + requested <= maxAttendees
  {
  }

  /** A request that overflows the sum passes the code's test although it
      exceeds the capacity: 10 booked, `int.MaxValue` requested, 50 seats. */
  lemma AdmitsInt32Overbooks()
    ensures AdmitsInt32(10, Int32Max, 50)
    ensures 10 + Int32Max > 50
  {
    assert Wrap32(10 + Int32Max) == Int32Min + 9;
  }
}
