/** The booking service: date validation in front of the repository, id
    assignment on create, and pass-through reads and deletes. */
module Service {
  import opened Bookings
  import opened Repository

  /** ValidateBookingDates: the end must come strictly after the start, and
      the start must not lie before today. The end-versus-start rule is
      checked first, so it is the one reported when both are broken. */
  function ValidateBookingDates(start: Date, end: Date, today: Date): (r: Outcome)
    ensures r == Pass <==> start < end && today <= start
    ensures start >= end ==> r == Fail(InvalidArgument(EndNotAfterStart))
    ensures start < end && start < today ==> r == Fail(InvalidArgument(StartInPast))
  {
    if start >= end then Fail(InvalidArgument(EndNotAfterStart))
    else if start < today then Fail(InvalidArgument(StartInPast))
    else Pass
  }

  /** CreateBooking on a store: validate, then add a record built from the
      arguments under the id `id` (the id the source draws at random).
      A validation failure leaves the store untouched; a taken id fails the
      add, which leaves it untouched as well. */
  function Create(m: Store, customerName: string, bookingType: string,
                  start: Date, end: Date, today: Date, id: Guid): (r: (Result<Booking>, Store))
    ensures r.0.Failure? ==> r.1 == m
    ensures ValidateBookingDates(start, end, today).Fail? ==>
              r.0 == Failure(ValidateBookingDates(start, end, today).error)
    ensures ValidateBookingDates(start, end, today) == Pass && id in m ==>
              r.0 == Failure(Duplicate)
    ensures r.0.Success? ==>
              r.0.value == Booking(id, customerName, bookingType, start, end) &&
              r.1 == Insert(m, r.0.value).1
  {
    match ValidateBookingDates(start, end, today)
    case Fail(e) => (Failure(e), m)
    case Pass =>
      var b := Booking(id, customerName, bookingType, start, end);
      var (added, m') := Insert(m, b);
      if added.Fail? then (Failure(added.error), m') else (Success(b), m')
  }

  /** UpdateBooking on a store: validate the record's dates, then replace
      the record at its id. A missing id surfaces as NotFound. */
  function Revise(m: Store, b: Booking, today: Date): (r: (Outcome, Store))
    ensures ValidateBookingDates(b.startDate, b.endDate, today).Fail? ==>
              r == (ValidateBookingDates(b.startDate, b.endDate, today), m)
    ensures ValidateBookingDates(b.startDate, b.endDate, today) == Pass ==>
              r == Replace(m, b)
    ensures r.0 == Pass <==> b.startDate < b.endDate && today <= b.startDate && b.id in m
    ensures r.0 != Pass ==> r.1 == m
  {
    match ValidateBookingDates(b.startDate, b.endDate, today)
    case Fail(e) => (Fail(e), m)
    case Pass => Replace(m, b)
  }

  class BookingService {
    const repository: InMemoryBookingRepository

    ghost predicate Valid()
      reads this, repository
    {
      repository.Valid()
    }

    /** The service is built around the repository it is given. */
    constructor (repository: InMemoryBookingRepository)
      requires repository.Valid()
      ensures this.repository == repository
      ensures Valid()
    {
      this.repository := repository;
    }

    /** `today` stands for the clock read and `id` for the freshly drawn GUID. */
    method CreateBooking(customerName: string, bookingType: string,
                         start: Date, end: Date, today: Date, id: Guid)
      returns (r: Result<Booking>)
      requires Valid()
      modifies repository
      ensures Valid()
      ensures (r, repository.bookings) ==
                Create(old(repository.bookings), customerName, bookingType, start, end, today, id)
    {
      var checked := ValidateBookingDates(start, end, today);
      if checked.Fail? {
        return Failure(checked.error);
      }
      var booking := Booking(id, customerName, bookingType, start, end);
      var added := repository.Add(booking);
      if added.Fail? {
        return Failure(added.error);
      }
      r := Success(booking);
    }

    method GetBooking(id: Guid) returns (r: Option<Booking>)
      ensures r == Lookup(repository.bookings, id)
    {
      r := repository.GetById(id);
    }

    method GetAllBookings() returns (all: set<Booking>)
      requires Valid()
      ensures forall b :: b in all ==> Lookup(repository.bookings, b.id) == Some(b)
      ensures forall k :: k in repository.bookings ==> repository.bookings[k] in all
      ensures |all| == |repository.bookings|
    {
      all := repository.GetAll();
    }

    /** The source wraps the repository call in a handler for a
        key-not-found exception that the repository never raises; its own
        "not found" failure reaches the caller unchanged, as here. */
    method UpdateBooking(booking: Booking, today: Date) returns (r: Outcome)
      requires Valid()
      modifies repository
      ensures Valid()
      ensures (r, repository.bookings) == Revise(old(repository.bookings), booking, today)
    {
      r := ValidateBookingDates(booking.startDate, booking.endDate, today);
      if r.Fail? {
        return;
      }
      r := repository.Update(booking);
    }

    method DeleteBooking(id: Guid)
      requires Valid()
      modifies repository
      ensures Valid()
      ensures repository.bookings == Remove(old(repository.bookings), id)
    {
      repository.Delete(id);
    }
  }

  // ---------------------------------------------------------------------
  // Properties of single service operations.
  // ---------------------------------------------------------------------

  /** Create succeeds exactly when both date rules hold and the id is free;
      every failure leaves the store as it was. */
  lemma {:induction false} CreateSucceedsIff(m: Store, customerName: string, bookingType: string,
                                             start: Date, end: Date, today: Date, id: Guid)
    ensures (Create(m, customerName, bookingType, start, end, today, id).0.Success?
             <==> start < end && today <= start && id !in m)
    ensures !Create(m, customerName, bookingType, start, end, today, id).0.Success? ==>
              Create(m, customerName, bookingType, start, end, today, id).1 == m
  {
  }

  /** Read after create: the returned record carries the given fields under
      the new id, GetBooking of that id returns it, the store grows by one,
      and every record stored before is still there. */
  lemma {:induction false} CreateThenGet(m: Store, customerName: string, bookingType: string,
                                         start: Date, end: Date, today: Date, id: Guid)
    requires start < end && today <= start && id !in m
    ensures var (r, m') := Create(m, customerName, bookingType, start, end, today, id);
            && r == Success(Booking(id, customerName, bookingType, start, end))
            && Lookup(m', id) == Some(r.value)
            && |m'| == |m| + 1
            && (forall k :: k in m ==> Lookup(m', k) == Lookup(m, k))
  {
  }

  /** Update succeeds exactly when both date rules hold and the id is
      stored; a later GetBooking then returns the new record in full. */
  lemma {:induction false} ReviseThenGet(m: Store, b: Booking, today: Date)
    ensures Revise(m, b, today).0 == Pass <==>
              b.startDate < b.endDate && today <= b.startDate && b.id in m
    ensures Revise(m, b, today).0 == Pass ==>
              Lookup(Revise(m, b, today).1, b.id) == Some(b) &&
              |Revise(m, b, today).1| == |m|
    ensures Revise(m, b, today).0 != Pass ==> Revise(m, b, today).1 == m
  {
  }

  /** Update of an id never created, or already deleted, fails with
      NotFound and changes nothing. */
  lemma {:induction false} ReviseMissing(m: Store, b: Booking, today: Date)
    requires b.startDate < b.endDate && today <= b.startDate
    ensures b.id !in m ==> Revise(m, b, today) == (Fail(NotFound), m)
    ensures Revise(Remove(m, b.id), b, today) == (Fail(NotFound), Remove(m, b.id))
  {
  }

  /** A record whose dates break a rule never reaches the store, whether
      created or updated. */
  lemma {:induction false} InvalidDatesChangeNothing(m: Store, b: Booking, today: Date)
    requires !(b.startDate < b.endDate && today <= b.startDate)
    ensures Create(m, b.customerName, b.bookingType, b.startDate, b.endDate, today, b.id).0.error.InvalidArgument?
    ensures Create(m, b.customerName, b.bookingType, b.startDate, b.endDate, today, b.id).1 == m
    ensures Revise(m, b, today).0.error.InvalidArgument?
    ensures Revise(m, b, today).1 == m
  {
  }

  /** Each store-changing service operation keeps records under their ids. */
  lemma {:induction false} ServiceKeepsWellKeyed(m: Store, customerName: string, bookingType: string,
                                                 start: Date, end: Date, today: Date, id: Guid, b: Booking)
    requires WellKeyed(m)
    ensures WellKeyed(Create(m, customerName, bookingType, start, end, today, id).1)
    ensures WellKeyed(Revise(m, b, today).1)
    ensures WellKeyed(Remove(m, id))
  {
  }

  // ---------------------------------------------------------------------
  // Sequences of calls.
  // ---------------------------------------------------------------------

  /** The arguments of one CreateBooking call, with the id it draws. */
  datatype CreateRequest = CreateRequest(
    customerName: string, bookingType: string, start: Date, end: Date, id: Guid)

  /** Issue the requests one after another against the store, collecting
      each call's result. Records already stored are never disturbed, and
      each successful call's record is stored at the end under an id that
      was not stored at the beginning. */
  function CreateAll(m: Store, reqs: seq<CreateRequest>, today: Date): (r: (seq<Result<Booking>>, Store))
    ensures |r.0| == |reqs|
    ensures forall k :: k in m ==> k in r.1 && r.1[k] == m[k]
    ensures forall i :: 0 <= i < |reqs| && r.0[i].Success? ==>
              r.0[i].value.id !in m && Lookup(r.1, r.0[i].value.id) == Some(r.0[i].value)
    decreases |reqs|
  {
    if reqs == [] then ([], m)
    else
      var q := reqs[0];
      var step := Create(m, q.customerName, q.bookingType, q.start, q.end, today, q.id);
      var first, m1 := step.0, step.1;
      var (rest, m2) := CreateAll(m1, reqs[1..], today);
      ([first] + rest, m2)
  }

  /** No two successful results carry the same id. */
  ghost predicate SuccessIdsDistinct(results: seq<Result<Booking>>)
  {
    forall i, j :: 0 <= i < j < |results| && results[i].Success? && results[j].Success? ==>
      results[i].value.id != results[j].value.id
  }

  /** Identifier uniqueness: however the ids were drawn, no two successful
      creates in a run return the same id. */
  lemma {:induction false} CreatedIdsDistinct(m: Store, reqs: seq<CreateRequest>, today: Date)
    ensures SuccessIdsDistinct(CreateAll(m, reqs, today).0)
    decreases |reqs|
  {
    if reqs != [] {
      var q := reqs[0];
      var step := Create(m, q.customerName, q.bookingType, q.start, q.end, today, q.id);
      var first, m1 := step.0, step.1;
      var results := CreateAll(m, reqs, today).0;
      var rest := CreateAll(m1, reqs[1..], today).0;
      assert results == [first] + rest;
      CreatedIdsDistinct(m1, reqs[1..], today);
      assert SuccessIdsDistinct(rest);
      forall i, j | 0 <= i < j < |reqs| && results[i].Success? && results[j].Success?
        ensures results[i].value.id != results[j].value.id
      {
        if i == 0 {
          assert results[0] == first && results[j] == rest[j - 1];
          assert m1 == Insert(m, first.value).1;
          assert first.value.id in m1;
          assert rest[j - 1].Success?;
          assert rest[j - 1].value.id !in m1;
        } else {
          assert results[i] == rest[i - 1] && results[j] == rest[j - 1];
          assert rest[i - 1].value.id != rest[j - 1].value.id;
        }
      }
    }
  }

  /** Requests whose dates pass validation and whose ids are pairwise
      distinct and not yet stored. */
  ghost predicate FreshValidRequests(m: Store, reqs: seq<CreateRequest>, today: Date)
  {
    && (forall i :: 0 <= i < |reqs| ==>
          reqs[i].start < reqs[i].end && today <= reqs[i].start && reqs[i].id !in m)
    && (forall i, j :: 0 <= i < j < |reqs| ==> reqs[i].id != reqs[j].id)
  }

  /** Once the first request's id is stored, the remaining requests are
      still valid, pairwise distinct and fresh. */
  lemma {:induction false} FreshValidTail(m: Store, m1: Store, reqs: seq<CreateRequest>, today: Date)
    requires FreshValidRequests(m, reqs, today) && reqs != []
    requires m1.Keys == m.Keys + {reqs[0].id}
    ensures FreshValidRequests(m1, reqs[1..], today)
  {
    forall i | 0 <= i < |reqs[1..]|
      ensures reqs[1..][i].id !in m1
    {
      assert reqs[1..][i] == reqs[i + 1];
    }
    forall i, j | 0 <= i < j < |reqs[1..]|
      ensures reqs[1..][i].id != reqs[1..][j].id
    {
      assert reqs[1..][i] == reqs[i + 1] && reqs[1..][j] == reqs[j + 1];
    }
  }

  /** N valid creates under distinct fresh ids all succeed and grow the
      store by exactly N, keeping it well keyed. */
  lemma {:induction false} CreateAllGrows(m: Store, reqs: seq<CreateRequest>, today: Date)
    requires FreshValidRequests(m, reqs, today)
    ensures var (results, m') := CreateAll(m, reqs, today);
            && (forall i :: 0 <= i < |reqs| ==> results[i].Success? && results[i].value.id == reqs[i].id)
            && |m'| == |m| + |reqs|
            && (WellKeyed(m) ==> WellKeyed(m'))
    decreases |reqs|
  {
    if reqs != [] {
      var q := reqs[0];
      var step := Create(m, q.customerName, q.bookingType, q.start, q.end, today, q.id);
      var first, m1 := step.0, step.1;
      CreateThenGet(m, q.customerName, q.bookingType, q.start, q.end, today, q.id);
      if WellKeyed(m) {
        ServiceKeepsWellKeyed(m, q.customerName, q.bookingType, q.start, q.end, today, q.id, first.value);
      }
      assert m1.Keys == m.Keys + {q.id};
      FreshValidTail(m, m1, reqs, today);
      CreateAllGrows(m1, reqs[1..], today);
      var results := CreateAll(m, reqs, today).0;
      var rest := CreateAll(m1, reqs[1..], today).0;
      assert results == [first] + rest;
      forall i | 0 <= i < |reqs|
        ensures results[i].Success? && results[i].value.id == reqs[i].id
      {
        if i > 0 { assert results[i] == rest[i - 1] && reqs[i] == reqs[1..][i - 1]; }
      }
    }
  }

  /** Issue DeleteBooking for each id in turn. */
  function DeleteAll(m: Store, ids: seq<Guid>): (r: Store)
    ensures r.Keys == m.Keys - set i | i in ids
    ensures forall k :: k in r ==> r[k] == m[k]
    decreases |ids|
  {
    if ids == [] then m else DeleteAll(Remove(m, ids[0]), ids[1..])
  }

  /** Deleting M distinct stored ids shrinks the store by exactly M. */
  lemma {:induction false} DeleteAllShrinks(m: Store, ids: seq<Guid>)
    requires forall i :: 0 <= i < |ids| ==> ids[i] in m
    requires forall i, j :: 0 <= i < j < |ids| ==> ids[i] != ids[j]
    ensures |DeleteAll(m, ids)| == |m| - |ids|
    decreases |ids|
  {
    if ids != [] {
      var m1 := Remove(m, ids[0]);
      RemoveShrinks(m, ids[0]);
      forall i | 0 <= i < |ids[1..]| ensures ids[1..][i] in m1 {
        assert ids[1..][i] == ids[i + 1];
      }
      forall i, j | 0 <= i < j < |ids[1..]| ensures ids[1..][i] != ids[1..][j] {
        assert ids[1..][i] == ids[i + 1] && ids[1..][j] == ids[j + 1];
      }
      DeleteAllShrinks(m1, ids[1..]);
    }
  }

  /** Listing count: starting from an empty repository, after N successful
      creates and then M deletes of distinct created ids, GetAllBookings
      lists exactly N - M records. */
  lemma {:induction false} ListingCount(reqs: seq<CreateRequest>, deleted: seq<Guid>, today: Date)
    requires FreshValidRequests(map[], reqs, today)
    requires forall i :: 0 <= i < |deleted| ==> exists j :: 0 <= j < |reqs| && reqs[j].id == deleted[i]
    requires forall i, j :: 0 <= i < j < |deleted| ==> deleted[i] != deleted[j]
    ensures var created := CreateAll(map[], reqs, today).1;
            |DeleteAll(created, deleted).Values| == |reqs| - |deleted|
  {
    var run := CreateAll(map[], reqs, today);
    var results, created := run.0, run.1;
    CreateAllGrows(map[], reqs, today);
    forall i | 0 <= i < |deleted| ensures deleted[i] in created {
      var j :| 0 <= j < |reqs| && reqs[j].id == deleted[i];
      assert results[j].Success? && results[j].value.id == reqs[j].id;
    }
    DeleteAllShrinks(created, deleted);
    var left := DeleteAll(created, deleted);
    assert WellKeyed(left);
    ValuesCount(left);
  }

  // ---------------------------------------------------------------------
  // A client: what a caller can conclude from the contracts alone, on the
  // scenarios the project's unit tests exercise.
  // ---------------------------------------------------------------------

  method Scenarios(today: Date, id1: Guid, id2: Guid, unknown: Guid)
    requires id1 != id2 && unknown != id1 && unknown != id2
  {
    var repository := new InMemoryBookingRepository();
    var service := new BookingService(repository);

    // Valid dates: the booking comes back with the given fields.
    var created := service.CreateBooking("Ridwaan Maharaj", "Flat", today + 1, today + 7, today, id1);
    assert created == Success(Booking(id1, "Ridwaan Maharaj", "Flat", today + 1, today + 7));
    var found := service.GetBooking(id1);
    assert found == Some(created.value);

    // End before start, and start in the past, are rejected.
    var reversed := service.CreateBooking("Ridwaan Maharaj", "Flat", today + 7, today + 1, today, id2);
    assert reversed == Failure(InvalidArgument(EndNotAfterStart));
    var past := service.CreateBooking("Ridwaan Maharaj", "Flat", today - 1, today + 5, today, id2);
    assert past == Failure(InvalidArgument(StartInPast));

    // An id never created is not found.
    var missing := service.GetBooking(unknown);
    assert missing == None;

    // Two creates, two listed.
    var second := service.CreateBooking("Angelique Maharaj", "Vehicle", today + 2, today + 5, today, id2);
    assert second.Success?;
    var all := service.GetAllBookings();
    assert repository.bookings.Keys == {id1, id2};
    assert |all| == 2;

    // Changing the name and updating shows the new name.
    var renamed := SetCustomerName(created.value, "Angelique Maharaj");
    var updated := service.UpdateBooking(renamed, today);
    assert updated == Pass;
    found := service.GetBooking(id1);
    assert found.value.customerName == "Angelique Maharaj";

    // Updating an unknown id fails with NotFound.
    var stray := service.UpdateBooking(SetId(renamed, unknown), today);
    assert stray == Fail(NotFound);

    // Delete removes; deleting an unknown id is harmless.
    service.DeleteBooking(id1);
    found := service.GetBooking(id1);
    assert found == None;
    service.DeleteBooking(unknown);
  }
}
