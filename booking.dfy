/** The booking record shared by the repository and the service, the error
    kinds they signal, and the small outcome types used in place of the
    source's nulls and exceptions. */
module Bookings {

  /** A GUID: an opaque 128-bit identifier. Only equality is ever used. */
  newtype Guid = x: int | 0 <= x < 0x1_0000_0000_0000_0000_0000_0000_0000_0000

  /** The all-zero GUID, which is what a default-constructed record holds. */
  const EmptyGuid: Guid := 0

  /** A calendar date as a day number; time of day plays no part. */
  type Date = int

  /** The day number that stands for DateTime.MinValue, the date a
      default-constructed record holds. */
  const MinDate: Date := 0

  /** A reservation. Every field is freely settable in the source, so the
      record itself enforces nothing: in particular no ordering of the dates. */
  datatype Booking = Booking(
    id: Guid,
    customerName: string,
    bookingType: string,
    startDate: Date,
    endDate: Date)

  /** The record `new Booking()` produces: both strings are empty. */
  function DefaultBooking(): (b: Booking)
    ensures b.customerName == "" && b.bookingType == ""
    ensures b.id == EmptyGuid && b.startDate == MinDate && b.endDate == MinDate
  {
    Booking(EmptyGuid, "", "", MinDate, MinDate)
  }

  // The five property setters. Each changes its own field and no other.

  function SetId(b: Booking, id: Guid): (r: Booking)
    ensures r.id == id
    ensures r.customerName == b.customerName && r.bookingType == b.bookingType
    ensures r.startDate == b.startDate && r.endDate == b.endDate
  {
    b.(id := id)
  }

  function SetCustomerName(b: Booking, name: string): (r: Booking)
    ensures r.customerName == name
    ensures r.id == b.id && r.bookingType == b.bookingType
    ensures r.startDate == b.startDate && r.endDate == b.endDate
  {
    b.(customerName := name)
  }

  function SetBookingType(b: Booking, bookingType: string): (r: Booking)
    ensures r.bookingType == bookingType
    ensures r.id == b.id && r.customerName == b.customerName
    ensures r.startDate == b.startDate && r.endDate == b.endDate
  {
    b.(bookingType := bookingType)
  }

  function SetStartDate(b: Booking, start: Date): (r: Booking)
    ensures r.startDate == start
    ensures r.id == b.id && r.customerName == b.customerName
    ensures r.bookingType == b.bookingType && r.endDate == b.endDate
  {
    b.(startDate := start)
  }

  function SetEndDate(b: Booking, end: Date): (r: Booking)
    ensures r.endDate == end
    ensures r.id == b.id && r.customerName == b.customerName
    ensures r.bookingType == b.bookingType && r.startDate == b.startDate
  {
    b.(endDate := end)
  }

  /** The record holds any pair of dates, ordered or not: date validity is a
      rule of the service, not of the record. */
  lemma {:induction false} AnyDatesRepresentable(start: Date, end: Date)
    ensures exists b: Booking :: b.startDate == start && b.endDate == end
  {
    var b := SetEndDate(SetStartDate(DefaultBooking(), start), end);
    assert b.startDate == start && b.endDate == end;
  }

  /** Which of the two date rules a request broke. */
  datatype DateRule = EndNotAfterStart | StartInPast

  /** The failure kinds of the core: an invalid date argument, an add under
      an id already stored, an update of an id not stored. */
  datatype BookingError =
    | InvalidArgument(rule: DateRule)
    | Duplicate
    | NotFound

  /** A lookup that may find nothing (the source returns null). */
  datatype Option<+T> = None | Some(value: T)

  /** An operation that returns a value or fails with one error kind. */
  datatype Result<+T> = Success(value: T) | Failure(error: BookingError)

  /** An operation that returns nothing and may fail with one error kind. */
  datatype Outcome = Pass | Fail(error: BookingError)
}
