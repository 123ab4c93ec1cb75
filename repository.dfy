/** The in-memory booking store: a map from booking id to record, with
    read, add, whole-record update and delete. */
module Repository {
  import opened Bookings

  /** The stored bookings, keyed by id. */
  type Store = map<Guid, Booking>

  /** Every record is stored under its own id. Add and Update both key the
      map by the record's id, so no other shape can arise. */
  ghost predicate WellKeyed(m: Store)
  {
    forall k :: k in m ==> m[k].id == k
  }

  // ---------------------------------------------------------------------
  // The operations as functions of the store. The class methods below are
  // specified by them; the lemmas further down are stated about them.
  // ---------------------------------------------------------------------

  /** GetById: the stored record, or nothing for an id not stored. */
  function Lookup(m: Store, id: Guid): (r: Option<Booking>)
    ensures r.Some? <==> id in m
    ensures r.Some? ==> r.value == m[id]
  {
    if id in m then Some(m[id]) else None
  }

  /** Add: fails with Duplicate, changing nothing, when the id is taken;
      otherwise stores the record under its id and keeps every other entry. */
  function Insert(m: Store, b: Booking): (r: (Outcome, Store))
    ensures b.id in m ==> r.0 == Fail(Duplicate) && r.1 == m
    ensures b.id !in m ==> r.0 == Pass
    ensures b.id !in m ==> r.1.Keys == m.Keys + {b.id} && r.1[b.id] == b
    ensures forall k :: k in m ==> k in r.1 && r.1[k] == m[k]
  {
    if b.id in m then (Fail(Duplicate), m) else (Pass, m[b.id := b])
  }

  /** Update: fails with NotFound, changing nothing, when the id is not
      stored; otherwise the whole record at that id is replaced and the key
      set and every other entry stay as they were. */
  function Replace(m: Store, b: Booking): (r: (Outcome, Store))
    ensures r.1.Keys == m.Keys
    ensures b.id !in m ==> r.0 == Fail(NotFound) && r.1 == m
    ensures b.id in m ==> r.0 == Pass && r.1[b.id] == b
    ensures forall k :: k in m && k != b.id ==> r.1[k] == m[k]
  {
    if b.id !in m then (Fail(NotFound), m) else (Pass, m[b.id := b])
  }

  /** Delete: the id is gone afterwards, whether or not it was there, and
      every other entry is kept. */
  function Remove(m: Store, id: Guid): (r: Store)
    ensures r.Keys == m.Keys - {id}
    ensures forall k :: k in r ==> r[k] == m[k]
    ensures id !in m ==> r == m
  {
    m - {id}
  }

  // ---------------------------------------------------------------------
  // The repository object. Its one field is the dictionary the source
  // changes in place.
  // ---------------------------------------------------------------------

  class InMemoryBookingRepository {
    var bookings: Store

    ghost predicate Valid()
      reads this
    {
      WellKeyed(bookings)
    }

    /** A new repository is empty. */
    constructor ()
      ensures Valid() && bookings == map[]
    {
      bookings := map[];
    }

    method GetById(id: Guid) returns (r: Option<Booking>)
      ensures r.Some? <==> id in bookings
      ensures r.Some? ==> r.value == bookings[id]
      ensures Valid() && r.Some? ==> r.value.id == id
    {
      r := if id in bookings then Some(bookings[id]) else None;
    }

    /** All stored records: each one is stored, each stored one is listed,
        and there are exactly as many as there are ids. */
    method GetAll() returns (all: set<Booking>)
      requires Valid()
      ensures forall b :: b in all ==> b.id in bookings && bookings[b.id] == b
      ensures forall k :: k in bookings ==> bookings[k] in all
      ensures |all| == |bookings|
    {
      all := bookings.Values;
      ValuesCount(bookings);
    }

    method Add(b: Booking) returns (r: Outcome)
      requires Valid()
      modifies this
      ensures Valid()
      ensures (r, bookings) == Insert(old(bookings), b)
    {
      if b.id in bookings {
        r := Fail(Duplicate);
      } else {
        bookings := bookings[b.id := b];
        r := Pass;
      }
    }

    /** The existence check and the store are two steps in the source; run
        sequentially, as here, they behave as one. */
    method Update(b: Booking) returns (r: Outcome)
      requires Valid()
      modifies this
      ensures Valid()
      ensures (r, bookings) == Replace(old(bookings), b)
    {
      if b.id !in bookings {
        r := Fail(NotFound);
        return;
      }
      bookings := bookings[b.id := b];
      r := Pass;
    }

    method Delete(id: Guid)
      requires Valid()
      modifies this
      ensures Valid()
      ensures bookings == Remove(old(bookings), id)
    {
      bookings := bookings - {id};
    }
  }

  // ---------------------------------------------------------------------
  // Properties of the store operations.
  // ---------------------------------------------------------------------

  /** Each operation keeps every record under its own id. */
  lemma {:induction false} OperationsKeepWellKeyed(m: Store, b: Booking, id: Guid)
    requires WellKeyed(m)
    ensures WellKeyed(Insert(m, b).1)
    ensures WellKeyed(Replace(m, b).1)
    ensures WellKeyed(Remove(m, id))
  {
  }

  /** In a well-keyed store distinct ids hold distinct records, so the
      listing has exactly one record per id. */
  lemma {:induction false} ValuesCount(m: Store)
    requires WellKeyed(m)
    ensures |m.Values| == |m|
    decreases |m|
  {
    if m != map[] {
      var k :| k in m;
      var rest := m - {k};
      assert |rest| == |m| - 1;
      assert m.Values == rest.Values + {m[k]} by {
        forall v | v in m.Values ensures v in rest.Values + {m[k]} {
          var j :| j in m && m[j] == v;
          if j != k { assert rest[j] == v; }
        }
        forall v | v in rest.Values ensures v in m.Values {
          var j :| j in rest && rest[j] == v;
          assert m[j] == v;
        }
      }
      assert m[k] !in rest.Values;
      ValuesCount(rest);
    }
  }

  /** Read after add: a record added under a free id is what GetById then
      returns, and the store has grown by exactly one. */
  lemma {:induction false} InsertThenLookup(m: Store, b: Booking)
    requires b.id !in m
    ensures Insert(m, b).0 == Pass
    ensures Lookup(Insert(m, b).1, b.id) == Some(b)
    ensures |Insert(m, b).1| == |m| + 1
  {
  }

  /** Adding under a taken id fails and GetById still returns the old record. */
  lemma {:induction false} InsertDuplicateKeepsOld(m: Store, b: Booking)
    requires b.id in m
    ensures Insert(m, b) == (Fail(Duplicate), m)
    ensures Lookup(Insert(m, b).1, b.id) == Some(m[b.id])
  {
  }

  /** Read after update: the whole new record is returned, not a merge. */
  lemma {:induction false} ReplaceThenLookup(m: Store, b: Booking, other: Guid)
    requires b.id in m
    ensures Lookup(Replace(m, b).1, b.id) == Some(b)
    ensures other != b.id ==> Lookup(Replace(m, b).1, other) == Lookup(m, other)
    ensures |Replace(m, b).1| == |m|
  {
  }

  /** Delete is idempotent, and GetById of a deleted id finds nothing. */
  lemma {:induction false} RemoveIdempotent(m: Store, id: Guid)
    ensures Remove(Remove(m, id), id) == Remove(m, id)
    ensures Lookup(Remove(m, id), id) == None
  {
  }

  /** Deleting a stored id shrinks the store by exactly one. */
  lemma {:induction false} RemoveShrinks(m: Store, id: Guid)
    ensures id in m ==> |Remove(m, id)| == |m| - 1
    ensures id !in m ==> |Remove(m, id)| == |m|
  {
  }

  /** The store holds whatever it is given: a record whose dates are out
      of order is added like any other. */
  lemma {:induction false} InsertIgnoresDates(m: Store, b: Booking)
    requires b.id !in m && b.endDate <= b.startDate
    ensures Insert(m, b).0 == Pass && Insert(m, b).1[b.id] == b
  {
  }

  /** Add of a fresh id followed by Delete of it restores the store. */
  lemma {:induction false} InsertThenRemove(m: Store, b: Booking)
    requires b.id !in m
    ensures Remove(Insert(m, b).1, b.id) == m
  {
  }
}
