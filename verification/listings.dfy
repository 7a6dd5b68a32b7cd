/**
  The three booking listings: by user, all, and by event. Each filters the
  store's bookings and orders them newest first with a stable sort, as
  `OrderByDescending` on the booking date does. None of them changes the
  store.
 */
module Listings {
  import opened Linq
  import opened Models

  /** Newest first: no booking is followed by a later one. */
  ghost predicate SortedDesc(s: seq<Booking>)
  {
    forall i, j :: 0 <= i < j < |s| ==> s[i].bookingDate >= s[j].bookingDate
  }

  /** The bookings dated `d`, in the order they appear. */
  function OnDate(s: seq<Booking>, d: Timestamp): seq<Booking>
  {
    if |s| == 0 then []
    else (if s[0].bookingDate == d then [s[0]] else []) + OnDate(s[1..], d)
  }

  /** Places `b` after every booking strictly newer than it and before the
      rest, so that among equal dates it stays first. */
  function InsertByDate(b: Booking, s: seq<Booking>): (r: seq<Booking>)
    ensures multiset(r) == multiset(s) + multiset{b}
  {
    if |s| == 0 || s[0].bookingDate <= b.bookingDate then
      [b] + s
    else
      assert s == [s[0]] + s[1..];
      [s[0]] + InsertByDate(b, s[1..])
  }

  lemma {:induction false} InsertByDateSorted(b: Booking, s: seq<Booking>)
    requires SortedDesc(s)
    ensures SortedDesc(InsertByDate(b, s))
  {
    if |s| == 0 || s[0].bookingDate <= b.bookingDate {
    } else {
      var t := InsertByDate(b, s[1..]);
      InsertByDateSorted(b, s[1..]);
      forall x | x in t ensures s[0].bookingDate >= x.bookingDate {
        assert x in multiset(t);
        assert x == b || x in multiset(s[1..]);
      }
      var r := [s[0]] + t;
      forall i, j | 0 <= i < j < |r| ensures r[i].bookingDate >= r[j].bookingDate {
        if i == 0 {
          assert r[j] == t[j - 1] && r[j] in t;
        } else {
          assert r[i] == t[i - 1] && r[j] == t[j - 1];
        }
      }
    }
  }

  lemma {:induction false} InsertByDateStable(b: Booking, s: seq<Booking>)
    ensures forall d :: OnDate(InsertByDate(b, s), d) == (if b.bookingDate == d then [b] else []) + OnDate(s, d)
  {
    if |s| == 0 || s[0].bookingDate <= b.bookingDate {
      assert ([b] + s)[1..] == s;
    } else {
      var t := InsertByDate(b, s[1..]);
      InsertByDateStable(b, s[1..]);
      assert ([s[0]] + t)[1..] == t;
    }
  }

  /** Stable sort by booking date, newest first. */
  function SortByDateDesc(s: seq<Booking>): (r: seq<Booking>)
    ensures SortedDesc(r)
    ensures multiset(r) == multiset(s)
    ensures forall d :: OnDate(r, d) == OnDate(s, d)
  {
    if |s| == 0 then []
    else
      assert s == [s[0]] + s[1..];
      var t := SortByDateDesc(s[1..]);
      InsertByDateSorted(s[0], t);
      InsertByDateStable(s[0], t);
      InsertByDate(s[0], t)
  }

  /** Filtering commutes with picking out one date: among the bookings with
      a given date, the ones a filter keeps appear in their input order. */
  lemma {:induction false} WhereOnDate(s: seq<Booking>, p: Booking -> bool, d: Timestamp)
    ensures OnDate(Where(s, p), d) == Where(OnDate(s, d), p)
  {
    if |s| > 0 {
      var head := if s[0].bookingDate == d then [s[0]] else [];
      WhereOnDate(s[1..], p, d);
      WhereConcat(head, OnDate(s[1..], d), p);
      OnDateConcat(if p(s[0]) then [s[0]] else [], Where(s[1..], p), d);
    }
  }

  lemma {:induction false} OnDateConcat(a: seq<Booking>, b: seq<Booking>, d: Timestamp)
    ensures OnDate(a + b, d) == OnDate(a, d) + OnDate(b, d)
  {
    if |a| == 0 {
      assert a + b == b;
    } else {
      var head := if a[0].bookingDate == d then [a[0]] else [];
      assert (a + b)[0] == a[0];
      assert (a + b)[1..] == a[1..] + b;
      assert OnDate(a, d) == head + OnDate(a[1..], d);
      assert OnDate(a + b, d) == head + OnDate(a[1..] + b, d);
      OnDateConcat(a[1..], b, d);
      ConcatAssoc(head, OnDate(a[1..], d), OnDate(b, d));
    }
  }

  lemma WhereOnDateAll(s: seq<Booking>, p: Booking -> bool)
    ensures forall d :: OnDate(Where(s, p), d) == Where(OnDate(s, d), p)
  {
    forall d ensures OnDate(Where(s, p), d) == Where(OnDate(s, d), p) {
      WhereOnDate(s, p, d);
    }
  }

  function ForUser(userId: int): Booking -> bool
  {
    (b: Booking) => b.userId == userId
  }

  function ForEvent(eventId: int): Booking -> bool
  {
    (b: Booking) => b.eventId == eventId
  }

  /** `GET /bookings/user/{userId}`. */
  function UserBookings(s: Store, userId: int): (r: seq<Booking>)
    ensures forall b :: multiset(r)[b] == if b.userId == userId then multiset(s.bookings)[b] else 0
    ensures forall b :: b in r <==> b in s.bookings && b.userId == userId
    ensures SortedDesc(r)
    ensures forall d :: OnDate(r, d) == OnDate(Where(s.bookings, ForUser(userId)), d)
    ensures forall d :: OnDate(r, d) == Where(OnDate(s.bookings, d), ForUser(userId))
  {
    WhereOnDateAll(s.bookings, ForUser(userId));
    SortByDateDesc(Where(s.bookings, ForUser(userId)))
  }

  /** `GET /bookings`. */
  function AllBookings(s: Store): (r: seq<Booking>)
    ensures multiset(r) == multiset(s.bookings)
    ensures SortedDesc(r)
    ensures forall d :: OnDate(r, d) == OnDate(s.bookings, d)
  {
    SortByDateDesc(s.bookings)
  }

  /** `GET /bookings/event/{eventId}`. */
  function EventBookings(s: Store, eventId: int): (r: seq<Booking>)
    ensures forall b :: multiset(r)[b] == if b.eventId == eventId then multiset(s.bookings)[b] else 0
    ensures forall b :: b in r <==> b in s.bookings && b.eventId == eventId
    ensures SortedDesc(r)
    ensures forall d :: OnDate(r, d) == OnDate(Where(s.bookings, ForEvent(eventId)), d)
    ensures forall d :: OnDate(r, d) == Where(OnDate(s.bookings, d), ForEvent(eventId))
  {
    WhereOnDateAll(s.bookings, ForEvent(eventId));
    SortByDateDesc(Where(s.bookings, ForEvent(eventId)))
  }
}
