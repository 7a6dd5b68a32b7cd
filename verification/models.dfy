/**
  The entities of the ticketing store: bookings with their status, events,
  users, and the three lists the shared database holds.
 */
module Models {
  import opened Linq

  /** A point in time in whole seconds. Clock readings (`DateTime.Now`,
      `DateTime.UtcNow`) enter the model as parameters of this type. */
  type Timestamp = int

  const Hour: int := 3600
  const Day: int := 24 * Hour

  /** Lifecycle state of a booking; the enum's underlying values are 0 and 1. */
  datatype BookingStatus = Active | Cancelled

  function StatusCode(s: BookingStatus): (c: int)
    ensures 0 <= c <= 1
    ensures c == 0 <==> s.Active?
  {
    match s
    case Active => 0
    case Cancelled => 1
  }

  /** The named member an integer stands for, if any. */
  function StatusOfCode(c: int): (r: Option<BookingStatus>)
    ensures r.Some? <==> c == 0 || c == 1
  {
    if c == 0 then Some(Active)
    else if c == 1 then Some(Cancelled)
    else None
  }

  lemma StatusCodeRoundTrip(s: BookingStatus, c: int)
    ensures StatusOfCode(StatusCode(s)) == Some(s)
    ensures StatusOfCode(c).Some? ==> StatusCode(StatusOfCode(c).value) == c
    ensures s == Active || s == Cancelled
  {
  }

  /** A booking of some tickets for one event by one user. The user's and the
      event's names are copied onto the booking. Prices are whole currency
      units. */
  datatype Booking = Booking(
    id: int,
    eventId: int,
    userId: int,
    userName: string,
    eventName: string,
    numberOfTickets: int,
    bookingDate: Timestamp,
    totalPrice: int,
    status: BookingStatus)

  /** A booking built with no initialiser: every field at its default, the
      date taken from the clock reading `now`. */
  function NewBooking(now: Timestamp): (b: Booking)
    ensures b.status == Active
    ensures b.userName == "" && b.eventName == ""
    ensures b.id == 0 && b.eventId == 0 && b.userId == 0
    ensures b.numberOfTickets == 0 && b.totalPrice == 0 && b.bookingDate == now
  {
    Booking(0, 0, 0, "", "", 0, now, 0, Active)
  }

  datatype EventType = Other | Concert | Festival | Theatre

  datatype Event = Event(
    id: int,
    name: string,
    description: string,
    kind: EventType,
    startTime: Timestamp,
    endTime: Timestamp,
    maxAttendees: int)

  const AdminRole: string := "Admin"
  const UserRole: string := "User"

  datatype User = User(id: int, username: string, passwordHash: string, role: string)

  /** `new User(username, passwordHash)`: id and role keep their defaults. */
  function NewUser(username: string, passwordHash: string): (u: User)
    ensures u.username == username && u.passwordHash == passwordHash
    ensures u.role == UserRole && u.id == 0
  {
    User(0, username, passwordHash, UserRole)
  }

  /** The shared in-memory database: one instance serves every request. */
  datatype Store = Store(events: seq<Event>, users: seq<User>, bookings: seq<Booking>)
}
