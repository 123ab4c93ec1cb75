# HBS booking core in Dafny

This project models the booking domain of HBS, a console program that keeps
reservation records (customer, booking type, date range) in memory. The model
has three parts:

- `Bookings` (`booking.dfy`): the five-field `Booking` record, its defaults
  and setters, the error kinds, and the `Option`/`Result`/`Outcome` types. The
  model uses these types wherever the source returns null or throws.
- `Repository` (`repository.dfy`): `InMemoryBookingRepository`, a class whose
  one field `bookings: map<Guid, Booking>` is changed in place by `Add`,
  `Update` and `Delete`. Four functions over the map specify the methods:
  `Lookup`, `Insert`, `Replace` and `Remove`. The class invariant `Valid()`
  says that every record is stored under its own id (`WellKeyed`).
- `Service` (`service.dfy`): `BookingService`, which holds the repository.
  `ValidateBookingDates` is a pure check. `CreateBooking` and `UpdateBooking`
  validate before they touch the store. Reads and deletes pass through to the
  repository. The functions `Create` and `Revise` specify the two validating
  operations. `CreateAll` and `DeleteAll` specify runs of calls and support
  the properties about sequences of calls: id uniqueness and the listing count.
  `Scenarios` replays the unit tests' scenarios against the class contracts
  alone.

Representation choices:
- A GUID is a 128-bit natural number (`Guid`).
- A date is an integer day number (`Date`).
- "Today" is a parameter of the validating operations.
- The GUID that `CreateBooking` would draw at random is an `id` parameter.
  The model does not require that id to be free. If it is already stored,
  the add fails with `Duplicate` and the failure reaches the caller
  unchanged, just as the source's exception does. `CreateSucceedsIff` proves
  that a free id with valid dates always succeeds.

Two points about the source:
- `UpdateBooking` (HBS/BookingService.cs:48-55) catches `KeyNotFoundException`,
  but the repository signals a missing id with `InvalidOperationException`
  (HBS/InMemoryBookingRepository.cs:26). The handler never runs, and the
  repository's "Booking not found" failure reaches the caller unchanged. The
  model therefore has a single `NotFound` kind, and it reaches callers of
  `UpdateBooking` directly.
- The record's `Id` has a public setter (HBS/Booking.cs:11). The console
  layer uses it to put an existing id on a record it has just read from the
  user, before calling update (HBS/Program.cs:264-267). `SetId` models this
  setter, and `Scenarios` uses it. A record's identity is just the value of
  that field.

## Model

| member | source | states |
|---|---|---|
| `Bookings.DefaultBooking` | HBS/Booking.cs:11-15 | a new record has empty customer name and booking type, the empty GUID, and the day number that stands for DateTime.MinValue as both dates |
| `Bookings.SetId` | HBS/Booking.cs:11 | setting the id changes the id and leaves the other four fields as they were |
| `Bookings.SetCustomerName` | HBS/Booking.cs:12 | setting the name changes only the name |
| `Bookings.SetBookingType` | HBS/Booking.cs:13 | setting the type changes only the type |
| `Bookings.SetStartDate` | HBS/Booking.cs:14 | setting the start changes only the start |
| `Bookings.SetEndDate` | HBS/Booking.cs:15 | setting the end changes only the end |
| `Bookings.AnyDatesRepresentable` | HBS/Booking.cs:14-15 | the record enforces no date order: every start/end pair is held by some record |
| `Repository.Lookup` | HBS/InMemoryBookingRepository.cs:14 | a lookup finds a record exactly when the id is stored, and then it is the stored record |
| `Repository.Insert` | HBS/InMemoryBookingRepository.cs:17-21 | add under a taken id fails with Duplicate and changes nothing; under a free id it stores the record under its id, adds exactly that key and keeps every other entry |
| `Repository.Replace` | HBS/InMemoryBookingRepository.cs:23-29 | update keeps the key set; under a missing id it fails with NotFound and changes nothing; otherwise it stores exactly the given record at its id and keeps every other entry |
| `Repository.Remove` | HBS/InMemoryBookingRepository.cs:31 | delete removes exactly the given id, keeps every other entry, and changes nothing for an absent id |
| `Repository.InMemoryBookingRepository.constructor` | HBS/InMemoryBookingRepository.cs:12 | a new repository is empty and well keyed |
| `Repository.InMemoryBookingRepository.GetById` | HBS/InMemoryBookingRepository.cs:14 | returns the stored record or nothing, changes nothing, and a found record carries the requested id |
| `Repository.InMemoryBookingRepository.GetAll` | HBS/InMemoryBookingRepository.cs:15 | every listed record is the one stored under its id, every stored record is listed, and the count equals the number of stored ids |
| `Repository.InMemoryBookingRepository.Add` | HBS/InMemoryBookingRepository.cs:17-21 | the outcome and the new map are those of `Insert` on the old map; the invariant is kept |
| `Repository.InMemoryBookingRepository.Update` | HBS/InMemoryBookingRepository.cs:23-29 | the outcome and the new map are those of `Replace` on the old map; the invariant is kept |
| `Repository.InMemoryBookingRepository.Delete` | HBS/InMemoryBookingRepository.cs:31 | the new map is `Remove` of the old one; the invariant is kept |
| `Repository.OperationsKeepWellKeyed` | HBS/InMemoryBookingRepository.cs:17-31 | add, update and delete each keep every record stored under its own id |
| `Repository.ValuesCount` | HBS/InMemoryBookingRepository.cs:15 | in a well-keyed store the set of stored values has exactly as many elements as there are ids |
| `Repository.InsertThenLookup` | HBS/InMemoryBookingRepository.cs:14-21 | adding under a free id succeeds, the lookup then returns that record, and the store grows by exactly one |
| `Repository.InsertDuplicateKeepsOld` | HBS/InMemoryBookingRepository.cs:19-20 | adding under a taken id fails with Duplicate, and the old record is still what the lookup returns |
| `Repository.ReplaceThenLookup` | HBS/InMemoryBookingRepository.cs:28 | after updating a stored id, the lookup returns the new record in full, lookups of other ids are unchanged, and the size is unchanged |
| `Repository.RemoveIdempotent` | HBS/InMemoryBookingRepository.cs:31 | deleting twice equals deleting once, and a deleted id is not found |
| `Repository.RemoveShrinks` | HBS/InMemoryBookingRepository.cs:31 | deleting a stored id shrinks the store by one; deleting an absent id keeps its size |
| `Repository.InsertIgnoresDates` | HBS/InMemoryBookingRepository.cs:17-21 | the repository stores a record whose end is not after its start like any other |
| `Repository.InsertThenRemove` | HBS/InMemoryBookingRepository.cs:17-31 | adding under a free id and then deleting that id restores the original store |
| `Service.ValidateBookingDates` | HBS/BookingService.cs:60-67 | passes exactly when start < end and start >= today; start >= end is reported as the end-date rule even when the start is also past; otherwise a past start is reported as the past-date rule |
| `Service.Create` | HBS/BookingService.cs:24-39 | every failure leaves the store as it was; a date failure is reported as such; valid dates with a taken id give Duplicate; success returns the record built from the arguments and the store is the old one with that record added |
| `Service.Revise` | HBS/BookingService.cs:44-56 | update succeeds exactly when start < end, start >= today and the id is stored; every failure leaves the store unchanged; a date failure is reported as such; with valid dates the result is exactly the repository update |
| `Service.BookingService.constructor` | HBS/BookingService.cs:22 | the service holds the repository it is given, and starts out satisfying its invariant |
| `Service.BookingService.CreateBooking` | HBS/BookingService.cs:24-39 | the result and the new store are those of `Create` on the old store; the invariant is kept |
| `Service.BookingService.GetBooking` | HBS/BookingService.cs:41 | returns what the repository lookup returns |
| `Service.BookingService.GetAllBookings` | HBS/BookingService.cs:42 | lists exactly the stored records, one per stored id |
| `Service.BookingService.UpdateBooking` | HBS/BookingService.cs:44-56 | the outcome and the new store are those of `Revise` on the old store; the invariant is kept |
| `Service.BookingService.DeleteBooking` | HBS/BookingService.cs:58 | the new store is the repository delete of the old one |
| `Service.CreateSucceedsIff` | HBS/BookingService.cs:24-39 | create succeeds if and only if start < end, start >= today and the id is free; a failed create leaves the store unchanged |
| `Service.CreateThenGet` | HBS/BookingService.cs:28-38 | a successful create returns the given fields under the new id, GetBooking of that id returns it, the store grows by one, and earlier records are unchanged |
| `Service.ReviseThenGet` | HBS/BookingService.cs:44-51 | update succeeds if and only if the dates are valid and the id is stored; GetBooking then returns the new record in full; on failure nothing changes |
| `Service.ReviseMissing` | HBS/BookingService.cs:48-55 | with valid dates, updating an id never stored or already deleted fails with NotFound and changes nothing |
| `Service.InvalidDatesChangeNothing` | HBS/BookingService.cs:24-50 | invalid dates make create and update fail with an invalid-argument error before the store is touched |
| `Service.ServiceKeepsWellKeyed` | HBS/BookingService.cs:24-58 | create, update and delete keep every record stored under its own id |
| `Service.CreateAll` | HBS/BookingService.cs:24-39 | a run of creates returns one result per call, never disturbs records stored before, and stores each success's record under an id that was not stored at the start |
| `Service.CreatedIdsDistinct` | HBS/BookingService.cs:28-37 | whatever ids are drawn, no two successful creates in a run return the same id |
| `Service.FreshValidTail` | HBS/BookingService.cs:24-39 | once the first request's id is stored, the remaining requests are still valid, pairwise distinct and not stored |
| `Service.CreateAllGrows` | HBS/BookingService.cs:24-39 | N valid creates under distinct free ids all succeed with those ids, grow the store by exactly N, and keep it well keyed |
| `Service.DeleteAll` | HBS/BookingService.cs:58 | a run of deletes removes exactly the named ids and keeps every other record |
| `Service.DeleteAllShrinks` | HBS/BookingService.cs:58 | deleting M distinct stored ids shrinks the store by exactly M |
| `Service.ListingCount` | HBS/BookingService.cs:42 | from an empty repository, N valid creates followed by M deletes of distinct created ids leave exactly N - M listed records |

## Left out

- Concurrency: the repository is a concurrent dictionary in the source. The
  model runs every operation sequentially and models no interleavings. The
  existence check and the store in `Update` (HBS/InMemoryBookingRepository.cs:25-28)
  are two separate steps, so the source's update is not atomic against a
  concurrent delete. The model does not capture that race.
- `Guid.NewGuid()` randomness: the new id is a parameter. Collision
  probability is not modelled, but a collision is: it gives `Duplicate`.
- `DateTime.Today` and calendar semantics: dates are integer day numbers and
  today is a parameter. Time of day, calendars and the range of `DateTime`
  are not modelled.
- Object aliasing: the source returns the stored object itself, so a caller
  who mutates it also changes what is stored. The model's records are
  immutable values. The only way to change stored state is an explicit
  `Update`.
- `Repository.InMemoryBookingRepository.GetAll` returns the snapshot of
  stored records as a set. The order of the source's collection and its
  shape as a list are not modelled. Records are stored under distinct ids,
  so the set loses no duplicates.
- Exception types and messages: they are modelled by kind only
  (`InvalidArgument` with the rule broken, `Duplicate`, `NotFound`).
- The repository interface (HBS/IBookingService.cs) only declares signatures.
  The model uses its operation names for the repository class's methods.
- The console menu, input parsing, output formatting and dependency-injection
  wiring (HBS/Program.cs) are not part of this model.
