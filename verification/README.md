# TicketToCode booking store — a Dafny model

TicketToCode is a small event-ticketing service. One in-memory database holds
the events, users and bookings, and every request shares it. This project
models four parts of the service:

- the booking endpoints: create a booking against an event's capacity, cancel
  a booking by id, and list bookings by user, by event or all of them;
- the credential service: register a user and log in;
- the client's current-user holder, with `SetUser`, `Logout`, `IsLoggedIn` and
  `IsAdmin`;
- the booking record, its status enum, and the seed data the database starts
  from.

The model is functional. `Models.Store` holds the three lists. Each operation
takes a store and returns its outcome together with the store it leaves.
Listing and login return only their result, so by construction they cannot
change the store.

Abstractions:

- A clock reading (`DateTime.Now`, `DateTime.UtcNow`) is an integer timestamp
  in seconds, passed in as a parameter.
- `decimal` prices are integers in whole currency units. The source only
  multiplies a ticket count by 299, and the seeded prices are whole numbers.
- BCrypt is an `Auth.Hasher` value passed in as a parameter. It has a `hash`
  function and a `verify` predicate. `Auth.Sound` is the one assumption made
  about it: a password verifies against its own hash.
- `FirstOrDefault`, `Where`, `Any` and `List.Remove` are the functions in module
  `Linq`. A null reference is `Linq.Option.None`.
- `User.cs`, `Event.cs` and the `UserRoles` constants are not part of this
  model. The model assumes `new User(username, passwordHash)` is the only
  constructor, and that the id stays 0 and the role stays "User" by default.
  The roles are the strings "Admin" and "User"; `UserService.IsAdmin`
  compares against the literal "Admin". The event fields are those that
  `Database.cs` sets.

Modules, one per file: `Linq` (linq.dfy), `Models` (models.dfy), `Bookings`
(bookings.dfy), `Listings` (listings.dfy), `Auth` (auth.dfy), `Session`
(session.dfy), `Database` (database.dfy), and `Lifecycle` (lifecycle.dfy).
`Lifecycle` covers runs of requests served one at a time.

## Model

| member | source | states |
|---|---|---|
| Models.StatusCode | TicketToCode.Core/Models/Booking.cs:18-19 | Active is stored as 0 and Cancelled as 1; the code is always 0 or 1. |
| Models.StatusCodeRoundTrip | TicketToCode.Core/Models/Booking.cs:16-20 | The enum has exactly two members. Decoding a member's code gives that member back. A decoded code re-encodes to itself. |
| Models.NewBooking | TicketToCode.Core/Models/Booking.cs:3-14 | A new booking is Active, its user and event names are empty strings, its date is the current UTC time, and its numeric fields are 0. |
| Models.NewUser | TicketToCode.Core/Services/AuthService.cs:43 | `new User(name, hash)` keeps the name and hash it is given, and has the default role "User" and id 0. |
| Linq.FirstIndex | TicketToCode.Api/Endpoints/BookingEndpoints.cs:40 | `FirstOrDefault`: returns none exactly when no element matches. Otherwise it returns the position of a match with no match before it. |
| Linq.Where | TicketToCode.Api/Endpoints/BookingEndpoints.cs:86-87 | `Where`: each element occurs in the result as often as in the input if it matches, and not at all otherwise. |
| Linq.WhereConcat | TicketToCode.Api/Endpoints/BookingEndpoints.cs:86-87 | `Where` keeps input order: filtering a concatenation gives the filtered parts in turn. With the one-element case fixed by `Where`'s contract, this pins `Where` down on every list. |
| Linq.Any | TicketToCode.Core/Services/AuthService.cs:38 | `Any` holds exactly when `FirstOrDefault` with the same predicate finds an element. |
| Linq.RemoveAt | TicketToCode.Api/Endpoints/BookingEndpoints.cs:117 | Removing position k keeps the elements before k and shifts the elements after k down by one, so their order is kept. |
| Bookings.FindEvent | TicketToCode.Api/Endpoints/BookingEndpoints.cs:40-45 | Finds no event exactly when no event has the id. Otherwise it finds the first event that has the id. |
| Bookings.MaxId | TicketToCode.Api/Endpoints/BookingEndpoints.cs:57 | `Max(b => b.Id)`: the result is the id of some booking and is at least every booking's id. |
| Bookings.NextId | TicketToCode.Api/Endpoints/BookingEndpoints.cs:57 | The next id is 1 for an empty list. Otherwise it is some existing id plus one, and it is greater than every existing id. |
| Bookings.Contribution | TicketToCode.Api/Endpoints/BookingEndpoints.cs:47-49 | An Active booking for the event adds exactly its ticket count. Any other booking adds nothing, a Cancelled one included, and a booking with no negative count adds nothing negative. |
| Bookings.ActiveTickets | TicketToCode.Api/Endpoints/BookingEndpoints.cs:47-49 | With no negative ticket counts, the event's Active sum is non-negative and at least the share of any single booking. A list with no Active booking for the event sums to 0. |
| Bookings.ActiveTicketsIsFilteredSum | TicketToCode.Api/Endpoints/BookingEndpoints.cs:47-49 | The Active-ticket count equals the source query's own shape: filter the bookings to the event's Active ones with `Where`, then sum their ticket counts. |
| Bookings.ActiveTicketsConcat | TicketToCode.Api/Endpoints/BookingEndpoints.cs:47-49 | The Active-ticket sum of a concatenation is the sum of the two parts' sums. |
| Bookings.ActiveTicketsAppend | TicketToCode.Api/Endpoints/BookingEndpoints.cs:47-49 | Appending a booking adds its tickets to the sum only if the booking is for that event and Active. Cancelled bookings do not count. |
| Bookings.ActiveTicketsRemoveAt | TicketToCode.Api/Endpoints/BookingEndpoints.cs:47-49 | Removing a booking takes away exactly its contribution to the event's sum. |
| Bookings.CreateBooking | TicketToCode.Api/Endpoints/BookingEndpoints.cs:33-82 | An unknown event gives NotFound and leaves the store unchanged. If the Active sum plus the request exceeds `MaxAttendees`, the result is BadRequest and the store is unchanged. Otherwise exactly one booking is appended with id `NextId`, the request's fields, the event's name, price tickets×299, the current date and status Active. |
| Bookings.CreateBookingFreshId | TicketToCode.Api/Endpoints/BookingEndpoints.cs:57-72 | The new booking's id differs from every stored id, so unique booking ids stay unique. |
| Bookings.CreateBookingPreservesCapacity | TicketToCode.Api/Endpoints/BookingEndpoints.cs:47-72 | If event ids are unique and every event is within capacity before a create, every event is within capacity after it. This holds for any ticket count. |
| Bookings.CreateBookingNumbersSequentially | TicketToCode.Api/Endpoints/BookingEndpoints.cs:57 | If the bookings are numbered 1..n in order, a created booking gets n+1 and the numbering continues. |
| Bookings.BookingIndex | TicketToCode.Api/Endpoints/BookingEndpoints.cs:108 | Finds the position of the first booking with the id, or nothing if no booking has it. |
| Bookings.CancelBooking | TicketToCode.Api/Endpoints/BookingEndpoints.cs:103-123 | An absent id gives NotFound and leaves the store unchanged. A present id removes exactly the first booking with that id and leaves the rest in their original order. |
| Bookings.CancelBookingRemovesId | TicketToCode.Api/Endpoints/BookingEndpoints.cs:108-117 | If ids are unique, no booking with the cancelled id remains. |
| Bookings.CancelBookingPreservesCapacity | TicketToCode.Api/Endpoints/BookingEndpoints.cs:103-123 | If no stored booking has a negative ticket count, a cancel keeps every event within capacity. |
| Bookings.CancelBookingKeepsBookingsWellFormed | TicketToCode.Api/Endpoints/BookingEndpoints.cs:108-117 | A cancel keeps ticket counts positive and booking ids unique. |
| Bookings.CancelUndoesCreate | TicketToCode.Api/Endpoints/BookingEndpoints.cs:57-117 | Cancelling the booking that was just created returns the store to exactly its state before the create. |
| Bookings.CreateBookingValidated | TicketToCode.Api/Endpoints/BookingEndpoints.cs:51-55 | Corrected create. It refuses the request exactly when the ticket count is not positive, and otherwise behaves like `CreateBooking`. |
| Bookings.Wrap32 | TicketToCode.Api/Endpoints/BookingEndpoints.cs:51 | C#'s unchecked `int` addition: the result is in 32-bit range, equals its input when the input fits, and differs from it by a multiple of 2^32. |
| Bookings.AdmitsInt32 | TicketToCode.Api/Endpoints/BookingEndpoints.cs:51 | The capacity test as the code evaluates it, in 32-bit arithmetic. When the sum fits in 32 bits it is the exact test. When the sum overflows upward, it admits the request for every non-negative capacity. |
| Bookings.AdmitsInt32WithoutOverflow | TicketToCode.Api/Endpoints/BookingEndpoints.cs:51 | When `existing + requested` fits in 32 bits, the code's capacity test is the exact test. |
| Bookings.AdmitsInt32Overbooks | TicketToCode.Api/Endpoints/BookingEndpoints.cs:51 | With 10 tickets booked, `int.MaxValue` requested and 50 seats, the wrapped sum passes the code's test although the request exceeds capacity. |
| Listings.InsertByDate | TicketToCode.Api/Endpoints/BookingEndpoints.cs:88 | Inserting adds exactly the one booking (as a multiset). |
| Listings.InsertByDateSorted | TicketToCode.Api/Endpoints/BookingEndpoints.cs:88 | Inserting into a list ordered newest first keeps it ordered newest first. |
| Listings.InsertByDateStable | TicketToCode.Api/Endpoints/BookingEndpoints.cs:88 | The inserted booking comes first among the bookings with its date, and other bookings with that date keep their order. |
| Listings.SortByDateDesc | TicketToCode.Api/Endpoints/BookingEndpoints.cs:88 | `OrderByDescending(BookingDate)`: the result is ordered newest first and is a permutation of the input. It is stable: for each date, the bookings with that date keep their input order. |
| Listings.OnDateConcat | TicketToCode.Api/Endpoints/BookingEndpoints.cs:88 | Picking out one date from a concatenation picks it out of each part in turn. |
| Listings.WhereOnDate | TicketToCode.Api/Endpoints/BookingEndpoints.cs:86-88 | Filtering and picking out one date commute: the filtered bookings of a date are those of the date that pass the filter, in input order. |
| Listings.UserBookings | TicketToCode.Api/Endpoints/BookingEndpoints.cs:84-92 | The listing contains exactly the user's bookings, with their multiplicities, ordered newest first. For each date, it shows the store's bookings of that date that belong to the user, in store order. |
| Listings.AllBookings | TicketToCode.Api/Endpoints/BookingEndpoints.cs:94-101 | The listing is a permutation of all bookings, ordered newest first and stably. |
| Listings.EventBookings | TicketToCode.Api/Endpoints/BookingEndpoints.cs:125-133 | The listing contains exactly the event's bookings, with their multiplicities, ordered newest first. For each date, it shows the store's bookings of that date that belong to the event, in store order. |
| Auth.FindUser | TicketToCode.Core/Services/AuthService.cs:27 | Finds the first user whose username is exactly equal to the given name, or nothing if there is none. |
| Auth.Register | TicketToCode.Core/Services/AuthService.cs:36-47 | A taken username gives null and leaves the store unchanged. Otherwise exactly one user is appended with the given name, `hash(password)` and role "User", and that user is returned. |
| Auth.RegisterPreservesUniqueUsernames | TicketToCode.Core/Services/AuthService.cs:38-45 | Pairwise distinct usernames stay distinct. Events and bookings are untouched. |
| Auth.RegisterTwiceConflicts | TicketToCode.Core/Services/AuthService.cs:38-41 | Registering the same name a second time is refused and changes nothing. |
| Auth.LoginAsWritten | TicketToCode.Core/Services/AuthService.cs:25-34 | Login as written. It returns null when no user has the name or the password does not verify. Otherwise it returns a user with the name whose hash field holds the stored role and whose role is the default "User". |
| Auth.Login | TicketToCode.Core/Services/AuthService.cs:25-34 | Corrected login. It returns null exactly when no user has the name or the password does not verify against the first such user's hash. Otherwise it returns that stored user, so the role is as stored. |
| Auth.LoginAfterRegister | TicketToCode.Core/Services/AuthService.cs:25-46 | With a sound hasher, a user who has just registered logs in with their password and gets back the registered user. Another password succeeds only if the hasher verifies it. |
| Auth.LoginAsWrittenAgreesExceptRole | TicketToCode.Core/Services/AuthService.cs:33 | Both logins succeed on the same inputs and return the same username. The as-written one puts the stored role into the hash field. |
| Session.IsLoggedIn | TicketToCode.Client/Services/UserService.cs:21 | Logged in exactly when a username is held and it is not empty. A null and an empty username both count as logged out. |
| Session.IsAdmin | TicketToCode.Client/Services/UserService.cs:25 | Admin exactly when the role held is the string "Admin". A null role is never admin, and the username plays no part. |
| Session.SetUser | TicketToCode.Client/Services/UserService.cs:27-31 | Sets all three fields. The result is logged in exactly when the username is non-empty, and is admin exactly when the role is "Admin". |
| Session.Logout | TicketToCode.Client/Services/UserService.cs:41-47 | Clears all three fields to null. The result is neither logged in nor admin. |
| Session.SessionForgetsPriorState | TicketToCode.Client/Services/UserService.cs:27-47 | `SetUser` and `Logout` do not depend on the previous state. Logout is idempotent, and logging out after `SetUser` gives the initial null state. |
| Session.AdminWithoutLogin | TicketToCode.Client/Services/UserService.cs:21-25 | `IsAdmin` does not depend on `IsLoggedIn`: `SetUser("", "Admin", id)` gives an admin who is not logged in. |
| Database.Seed | TicketToCode.Core/Data/Database.cs:24-107 | The seeded store has two users, four events and two bookings. |
| Database.SeedUsersFacts | TicketToCode.Core/Data/Database.cs:26-36 | The seeded users are admin (id 1, role Admin) and testuser (id 2, role User), with distinct usernames. |
| Database.SeedEventsFacts | TicketToCode.Core/Data/Database.cs:38-80 | The seeded events have ids 1 to 4 and capacities 50, 200, 1000 and 100, all positive and the ids distinct. |
| Database.SeedBookingsFacts | TicketToCode.Core/Data/Database.cs:82-106 | The seeded bookings are Active by default and reference events 1 and 2. Their ids 1 and 2 are unique, their ticket counts are positive, every event is within capacity, and the next id is 3. |
| Database.SeedWithinCapacity | TicketToCode.Core/Data/Database.cs:82-106 | Event 1 starts with 2 Active tickets, and every seeded event is within its capacity. |
| Database.SeedPriceIsNotPerTicket | TicketToCode.Core/Data/Database.cs:102-103 | The second seeded booking costs 450 for one ticket, not 299. So price = tickets×299 is a property of created bookings only. |
| Database.AdminLoginLosesRole | TicketToCode.Core/Services/AuthService.cs:33 | With a sound hasher, the as-written login of the seeded admin returns role "User", while the corrected login returns "Admin". |
| Lifecycle.Step | TicketToCode.Api/Endpoints/BookingEndpoints.cs:33-123 | One request, with bookings served by the corrected create `CreateBookingValidated`. Events never change. A booking request leaves the users alone and either changes nothing or appends one Active booking for the requested event with the requested, positive ticket count, keeping the earlier bookings. A cancel leaves the users alone and either changes nothing or removes one booking with the given id. A sign-up leaves the bookings alone and either changes nothing or appends one user with the given name. |
| Lifecycle.Run | TicketToCode.Api/Program.cs:12 | Requests served one at a time against the one shared store, with bookings served by `CreateBookingValidated`. Events never change. A run without sign-ups leaves the users alone, a run of sign-ups only leaves the bookings alone, and each request adds at most one booking. |
| Lifecycle.StepPreservesConsistency | TicketToCode.Api/Endpoints/BookingEndpoints.cs:47-72 | A validated create, a cancel or a registration keeps a consistent store consistent. Consistent means unique event and booking ids, unique usernames, positive ticket counts and capacity respected. |
| Lifecycle.RunPreservesConsistency | TicketToCode.Api/Program.cs:12 | The store is one shared instance. Any run of requests served one at a time, with the validated create (corrected) serving bookings, keeps it consistent, and the events never change. |
| Lifecycle.SeedRunIsConsistent | TicketToCode.Core/Data/Database.cs:19-22 | Every store reachable from the seeded database by such a run, with the validated create (corrected), is consistent. |
| Lifecycle.BookAllNumbersSequentially | TicketToCode.Api/Endpoints/BookingEndpoints.cs:57 | Starting from the empty list, or any list numbered 1..n, successive creates hand out consecutive ids 1, 2, 3, … |
| Lifecycle.CancelledBookingIsNotListed | TicketToCode.Api/Endpoints/BookingEndpoints.cs:117 | If ids are unique, no listing shows a booking with the cancelled id after the cancel. |
| Lifecycle.CreateAdmitted | TicketToCode.Api/Endpoints/BookingEndpoints.cs:47-72 | A create that passes the capacity test, into bookings numbered 1..n, succeeds with id n+1, keeps the numbering, and raises the event's count by exactly the requested tickets. The events are untouched. |
| Lifecycle.CancelNegativeRaisesCount | TicketToCode.Api/Endpoints/BookingEndpoints.cs:103-117 | In a store numbered 1..n, cancelling a booking that holds a negative number of Active tickets raises its event's count by that many. |
| Lifecycle.SeedOversellAsWritten | TicketToCode.Api/Endpoints/BookingEndpoints.cs:47-117 | From the consistent seeded database, with the create as written: booking −10 tickets on event 1 and then 58 are both admitted. Cancelling booking 3 then leaves event 1 at 60 of 50 seats. |
| Lifecycle.NegativeTicketsOversell | TicketToCode.Api/Endpoints/BookingEndpoints.cs:51 | On a 50-seat event, the create as written accepts −5 tickets and then 55 tickets. Cancelling the −5 booking leaves the event over capacity. The validated create refuses the −5 request. |

## Left out

- Console logging and the `Results.Problem` path for unexpected exceptions. This includes the `OverflowException` that the checked `Sum` raises when the Active tickets of one event exceed 32 bits.
- HTTP plumbing: routing, status-code mapping, the login cookie, the `Auth/Login.cs` and `Auth/Register.cs` wrappers, and the client's `EventService`. That includes its hard-coded role and id guess after login.
- Dependency-injection and pipeline wiring in both `Program.cs` files. The only fact used is that the database is a single shared instance.
- Concurrency. Requests are modelled as atomic and served one at a time, so the check-then-insert race between concurrent creates is not represented.
- BCrypt internals and salt randomness. The hasher is a parameter, and `Sound` is the only property assumed of it.
- Bookings.NextId: ids are unbounded integers, so the 32-bit wrap of `Max(b => b.Id) + 1` at `int.MaxValue` is not modelled.
- Bookings.CreateBooking: the capacity sum uses exact integers. The 32-bit wrap of the source is modelled separately by `Bookings.AdmitsInt32`; see Findings.
- Lifecycle.RunPreservesConsistency: proved for the corrected service only, whose create refuses ticket counts of zero or less. With the create as written, a run can break capacity (see `Lifecycle.NegativeTicketsOversell` under Findings).
- Lifecycle.SeedRunIsConsistent: likewise covers runs of the corrected service only. With the create as written, `Lifecycle.SeedOversellAsWritten` shows a run from the seed that ends with event 1 at 60 tickets against 50 seats.
- Time zones. Seeded booking dates come from local time and new ones from UTC; both are plain timestamps here.
- `decimal` scale. Prices are whole units (598.00 becomes 598).
- The API's event endpoints are not modelled. The client lists events and posts new ones (`TicketToCode.Client/Services/EventService.cs:38,57,218`). Here events come only from the seed, whose event ids are unique, as the capacity lemmas need. Users come from the seed and `Register`.

## Findings

| source | as written | input that shows it | evidently intended | confidence | as-written member | corrected member |
|---|---|---|---|---|---|---|
| TicketToCode.Core/Services/AuthService.cs:33 | `new User(user.Username, user.Role)` passes the role as the constructor's password-hash argument. The returned user therefore carries the default role. | The seeded admin logs in with the correct password. Login returns role "User", and the cookie and response say "User". | Return the stored user's role ("Admin"). | medium (not executed; `User.cs` is not part of this model, and the constructor's shape is inferred from `Register` and the seed) | Auth.LoginAsWritten | Auth.Login |
| TicketToCode.Api/Endpoints/BookingEndpoints.cs:51 | Nothing rejects a ticket count of zero or less. A negative booking lowers the Active sum. | 50-seat event: book −5, then book 55 (the sum is 50, so it is accepted), then cancel the −5 booking. The event now holds 55 tickets. | Refuse non-positive ticket counts, so that capacity holds through cancels too. | high (not executed) | Lifecycle.NegativeTicketsOversell | Bookings.CreateBookingValidated |
| TicketToCode.Api/Endpoints/BookingEndpoints.cs:51 | `existingBookings + request.NumberOfTickets` is unchecked 32-bit `int` addition. | 10 tickets booked, 50 seats, request `int.MaxValue`: the sum wraps to −2147483639, so the request is admitted. | Compare the exact sum with `MaxAttendees`. | medium (not executed; assumes the default unchecked arithmetic context) | Bookings.AdmitsInt32Overbooks | Bookings.CreateBookingPreservesCapacity |
