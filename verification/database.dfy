/**
  The database the service starts from: two users, four events and two
  bookings. Password hashes come from the hasher and dates from the clock
  reading `now`, both parameters.
 */
module Database {
  import opened Linq
  import opened Models
  import opened Bookings
  import opened Auth

  function SeedUsers(h: Hasher): seq<User>
  {
    [ NewUser("admin", h.hash("admin123")).(id := 1, role := AdminRole),
      NewUser("testuser", h.hash("test123")).(id := 2, role := UserRole) ]
  }

  function SeedEvents(now: Timestamp): seq<Event>
  {
    [ Event(1, "Webbutveckling Workshop",
            "Intensiv workshop i modern webbutveckling med ASP.NET Core och Blazor",
            Other, now + 14 * Day, now + 14 * Day + 6 * Hour, 50),
      Event(2, "Rock Konsert - The Developers",
            "En episk konsert med bandet The Developers som spelar hits om kodning",
            Concert, now + 30 * Day, now + 30 * Day + 3 * Hour, 200),
      Event(3, "Tech Festival 2025",
            "Största tech-festivalen i Norden med föreläsningar, workshops och networking",
            Festival, now + 60 * Day, now + 62 * Day, 1000),
      Event(4, "Teater: Hamlet 2.0",
            "Shakespeares klassiker i modern tappning med AI och robotar",
            Theatre, now + 45 * Day, now + 45 * Day + 5 * Hour / 2, 100) ]
  }

  /** The status of the seeded bookings is left at its default. */
  function SeedBookings(now: Timestamp, utcNow: Timestamp): seq<Booking>
  {
    [ NewBooking(utcNow).(id := 1, eventId := 1, userId := 2, userName := "testuser",
                          eventName := "Webbutveckling Workshop", numberOfTickets := 2,
                          totalPrice := 598, bookingDate := now - 5 * Day),
      NewBooking(utcNow).(id := 2, eventId := 2, userId := 2, userName := "testuser",
                          eventName := "Rock Konsert - The Developers", numberOfTickets := 1,
                          totalPrice := 450, bookingDate := now - 2 * Day) ]
  }

  /** The store as the `Database` constructor leaves it. */
  function Seed(h: Hasher, now: Timestamp, utcNow: Timestamp): (s: Store)
    ensures |s.users| == 2 && |s.events| == 4 && |s.bookings| == 2
  {
    Store(SeedEvents(now), SeedUsers(h), SeedBookings(now, utcNow))
  }

  lemma SeedUsersFacts(h: Hasher, now: Timestamp, utcNow: Timestamp)
    ensures var us := Seed(h, now, utcNow).users;
            && us[0].id == 1 && us[0].username == "admin" && us[0].role == AdminRole
            && us[1].id == 2 && us[1].username == "testuser" && us[1].role == UserRole
            && UniqueUsernames(us)
  {
  }

  lemma SeedEventsFacts(h: Hasher, now: Timestamp, utcNow: Timestamp)
    ensures var es := Seed(h, now, utcNow).events;
            && (forall i :: 0 <= i < 4 ==> es[i].id == i + 1 && es[i].maxAttendees > 0)
            && es[0].maxAttendees == 50 && es[1].maxAttendees == 200
            && es[2].maxAttendees == 1000 && es[3].maxAttendees == 100
            && UniqueEventIds(es)
  {
  }

  /** The seeded bookings are Active (by default), reference existing events,
      respect every event's capacity, and are numbered 1 and 2, so the next
      booking created gets id 3. */
  lemma SeedBookingsFacts(h: Hasher, now: Timestamp, utcNow: Timestamp)
    ensures var s := Seed(h, now, utcNow);
            && (forall i :: 0 <= i < 2 ==> s.bookings[i].status == Active)
            && (forall i :: 0 <= i < 2 ==> FindEvent(s.events, s.bookings[i].eventId).Some?)
            && UniqueBookingIds(s.bookings)
            && NumberedFromOne(s.bookings)
            && PositiveTickets(s.bookings)
            && WithinCapacity(s.events, s.bookings)
            && NextId(s.bookings) == 3
  {
    var s := Seed(h, now, utcNow);
    assert FindEvent(s.events, 1).Some? by { assert s.events[0].id == 1; }
    assert FindEvent(s.events, 2).Some? by { assert s.events[1].id == 2; }
    SeedBookingsShape(now, utcNow);
    SeedWithinCapacity(now, utcNow);
  }

  lemma SeedBookingsShape(now: Timestamp, utcNow: Timestamp)
    ensures var bs := SeedBookings(now, utcNow);
            && |bs| == 2
            && bs[0].status == Active && bs[1].status == Active
            && bs[0].eventId == 1 && bs[1].eventId == 2
            && UniqueBookingIds(bs)
            && NumberedFromOne(bs)
            && PositiveTickets(bs)
            && NextId(bs) == 3
  {
    var bs := SeedBookings(now, utcNow);
    assert MaxId(bs[1..]) == 2;
  }

  lemma SeedWithinCapacity(now: Timestamp, utcNow: Timestamp)
    ensures ActiveTickets(SeedBookings(now, utcNow), 1) == 2
    ensures WithinCapacity(SeedEvents(now), SeedBookings(now, utcNow))
  {
    var bs := SeedBookings(now, utcNow);
    var es := SeedEvents(now);
    assert bs == [bs[0]] + [bs[1]];
    forall i | 0 <= i < 4
      ensures ActiveTickets(bs, es[i].id) == Contribution(bs[0], es[i].id) + Contribution(bs[1], es[i].id)
    {
      ActiveTicketsAppend([bs[0]], bs[1], es[i].id);
      ActiveTicketsAppend([], bs[0], es[i].id);
      assert [] + [bs[0]] == [bs[0]];
    }
    assert es[0].id == 1;
  }

  /** The seeded prices are not tickets times the unit price (one ticket for
      450), so that relation holds only for bookings `CreateBooking` makes. */
  lemma SeedPriceIsNotPerTicket(h: Hasher, now: Timestamp, utcNow: Timestamp)
    ensures var b := Seed(h, now, utcNow).bookings[1];
            b.numberOfTickets == 1 && b.totalPrice == 450 && b.totalPrice != b.numberOfTickets * TicketPrice
  {
  }

  /** With the as-written login the seeded administrator comes back with role
      "User"; the corrected login returns role "Admin". */
  lemma AdminLoginLosesRole(h: Hasher, now: Timestamp, utcNow: Timestamp)
    requires Sound(h)
    ensures var s := Seed(h, now, utcNow);
            && LoginAsWritten(s, "admin", "admin123", h).Some?
            && LoginAsWritten(s, "admin", "admin123", h).value.role == UserRole
            && Login(s, "admin", "admin123", h).Some?
            && Login(s, "admin", "admin123", h).value.role == AdminRole
  {
    var s := Seed(h, now, utcNow);
    assert h.verify("admin123", h.hash("admin123"));
    assert FindUser(s.users, "admin") == Some(s.users[0]);
  }
}
