/** The booking queries of BookingRepository as filters over the booking
    table `bs`, kept in storage order. A query with ORDER BY sorts its rows;
    one without returns them in storage order. */
module BookingRepository {
  import opened Wrappers
  import opened Entities
  import opened Sequences

  /** The three time buckets relative to the instant `now`. */
  predicate IsPast(b: Booking, now: int) { b.end < now }
  predicate IsCurrent(b: Booking, now: int) { b.start <= now && now <= b.end }
  predicate IsFuture(b: Booking, now: int) { b.start > now }

  /** For a booking whose start is not after its end, `now` falls in exactly
      one bucket. */
  lemma TimeBucketsPartition(b: Booking, now: int)
    requires b.start <= b.end
    ensures IsPast(b, now) || IsCurrent(b, now) || IsFuture(b, now)
    ensures !(IsPast(b, now) && IsCurrent(b, now))
    ensures !(IsPast(b, now) && IsFuture(b, now))
    ensures !(IsCurrent(b, now) && IsFuture(b, now))
  {
  }

  /** Without `start <= end` the buckets overlap: such a booking can be past
      and future at once. */
  lemma InvertedBookingIsPastAndFuture(b: Booking, now: int)
    requires b.end < now < b.start
    ensures IsPast(b, now) && IsFuture(b, now)
    ensures !IsCurrent(b, now)
  {
  }

  /** `findAllByItem_Owner_IdOrderByStartDesc` (and the identical JPQL
      `findOwnerAll`): every booking of the owner's items, latest start first. */
  function OwnerAll(bs: seq<Booking>, ownerId: int): (r: seq<Booking>)
    ensures forall b :: b in r <==> b in bs && OwnedBy(b, ownerId)
    ensures |r| <= |bs|
    ensures SortedBy(r, StartOf, Descending)
  {
    SortBy(Filter(bs, (b: Booking) => OwnedBy(b, ownerId)), StartOf, Descending)
  }

  /** `findAllByBooker_IdOrderByStartDesc`: every booking made by the booker,
      latest start first. */
  function BookerAll(bs: seq<Booking>, bookerId: int): (r: seq<Booking>)
    ensures forall b :: b in r <==> b in bs && b.booker == bookerId
    ensures |r| <= |bs|
    ensures SortedBy(r, StartOf, Descending)
  {
    SortBy(Filter(bs, (b: Booking) => b.booker == bookerId), StartOf, Descending)
  }

  /** `findFirstByItem_IdAndEndBeforeOrderByEndDesc`: the booking of the item
      that ended before `t` most recently, whatever its status. */
  function LastBooking(bs: seq<Booking>, itemId: int, t: int): (r: Option<Booking>)
    ensures r.None? <==> forall b :: b in bs && b.item.id == itemId ==> !(b.end < t)
    ensures r.Some? ==> r.value in bs && r.value.item.id == itemId && r.value.end < t
    ensures r.Some? ==> forall b :: b in bs && b.item.id == itemId && b.end < t ==> b.end <= r.value.end
  {
    var c := SortBy(Filter(bs, (b: Booking) => b.item.id == itemId && b.end < t), EndOf, Descending);
    if |c| == 0 then None
    else
      assert forall b :: b in c ==> b.end <= c[0].end by {
        forall b | b in c ensures b.end <= c[0].end {
          var j :| 0 <= j < |c| && c[j] == b;
          if j > 0 {
            assert InOrder(Descending, EndOf(c[0]), EndOf(c[j]));
          }
        }
      }
      Some(c[0])
  }

  /** `findTopByItem_IdAndStartAfterOrderByStartAsc`: the booking of the item
      that starts after `t` soonest, whatever its status. */
  function NextBooking(bs: seq<Booking>, itemId: int, t: int): (r: Option<Booking>)
    ensures r.None? <==> forall b :: b in bs && b.item.id == itemId ==> !(b.start > t)
    ensures r.Some? ==> r.value in bs && r.value.item.id == itemId && r.value.start > t
    ensures r.Some? ==> forall b :: b in bs && b.item.id == itemId && b.start > t ==> r.value.start <= b.start
  {
    var c := SortBy(Filter(bs, (b: Booking) => b.item.id == itemId && b.start > t), StartOf, Ascending);
    if |c| == 0 then None
    else
      assert forall b :: b in c ==> c[0].start <= b.start by {
        forall b | b in c ensures c[0].start <= b.start {
          var j :| 0 <= j < |c| && c[j] == b;
          if j > 0 {
            assert InOrder(Ascending, StartOf(c[0]), StartOf(c[j]));
          }
        }
      }
      Some(c[0])
  }

  /** `findByBooker_IdAndStatus`: the booker's bookings with that status, in
      storage order (no ORDER BY). */
  function BookerWithStatus(bs: seq<Booking>, bookerId: int, status: BookingStatus): (r: seq<Booking>)
    ensures forall b :: b in r <==> b in bs && b.booker == bookerId && b.status == status
    ensures |r| <= |bs|
  {
    Filter(bs, (b: Booking) => b.booker == bookerId && b.status == status)
  }

  /** `findAllByItem_Owner_IdAndStatus`: the owner's bookings with that
      status, in storage order (no ORDER BY). */
  function OwnerWithStatus(bs: seq<Booking>, ownerId: int, status: BookingStatus): (r: seq<Booking>)
    ensures forall b :: b in r <==> b in bs && OwnedBy(b, ownerId) && b.status == status
    ensures |r| <= |bs|
  {
    Filter(bs, (b: Booking) => OwnedBy(b, ownerId) && b.status == status)
  }

  /** `findByBookerIdStatePast`: the booker's APPROVED bookings that ended
      before `now`, latest start first. */
  function BookerPast(bs: seq<Booking>, bookerId: int, now: int): (r: seq<Booking>)
    ensures forall b :: b in r <==> b in bs && b.booker == bookerId && IsPast(b, now) && b.status == Approved
    ensures SortedBy(r, StartOf, Descending)
  {
    SortBy(Filter(bs, (b: Booking) => b.booker == bookerId && IsPast(b, now) && b.status == Approved), StartOf, Descending)
  }

  /** `findByBookerIdStateCurrent`: the booker's bookings whose range holds
      `now`, whatever their status, latest start first. */
  function BookerCurrent(bs: seq<Booking>, bookerId: int, now: int): (r: seq<Booking>)
    ensures forall b :: b in r <==> b in bs && b.booker == bookerId && IsCurrent(b, now)
    ensures SortedBy(r, StartOf, Descending)
  {
    SortBy(Filter(bs, (b: Booking) => b.booker == bookerId && IsCurrent(b, now)), StartOf, Descending)
  }

  /** `findFuture`: the booker's bookings starting after `now`, latest start first. */
  function BookerFuture(bs: seq<Booking>, bookerId: int, now: int): (r: seq<Booking>)
    ensures forall b :: b in r <==> b in bs && b.booker == bookerId && IsFuture(b, now)
    ensures SortedBy(r, StartOf, Descending)
  {
    SortBy(Filter(bs, (b: Booking) => b.booker == bookerId && IsFuture(b, now)), StartOf, Descending)
  }

  /** `findOwnerFuture`: the owner's bookings starting after `now`, latest start first. */
  function OwnerFuture(bs: seq<Booking>, ownerId: int, now: int): (r: seq<Booking>)
    ensures forall b :: b in r <==> b in bs && OwnedBy(b, ownerId) && IsFuture(b, now)
    ensures SortedBy(r, StartOf, Descending)
  {
    SortBy(Filter(bs, (b: Booking) => OwnedBy(b, ownerId) && IsFuture(b, now)), StartOf, Descending)
  }

  /** `findOwnerCurrent`: the owner's bookings whose range holds `now`,
      latest start first. */
  function OwnerCurrent(bs: seq<Booking>, ownerId: int, now: int): (r: seq<Booking>)
    ensures forall b :: b in r <==> b in bs && OwnedBy(b, ownerId) && IsCurrent(b, now)
    ensures SortedBy(r, StartOf, Descending)
  {
    SortBy(Filter(bs, (b: Booking) => OwnedBy(b, ownerId) && IsCurrent(b, now)), StartOf, Descending)
  }

  /** `findOwnerPast`: the owner's bookings that ended before `now`. Unlike
      the booker's query it has no status condition and no ORDER BY, so the
      rows come in storage order. */
  function OwnerPast(bs: seq<Booking>, ownerId: int, now: int): (r: seq<Booking>)
    ensures forall b :: b in r <==> b in bs && OwnedBy(b, ownerId) && IsPast(b, now)
    ensures |r| <= |bs|
  {
    Filter(bs, (b: Booking) => OwnedBy(b, ownerId) && IsPast(b, now))
  }

  /** `findByBooker_IdAndEndBefore`: the booker's bookings that ended before
      `t`, whatever their status, in storage order. The legacy booking
      listing reads it as a list; addComment reads it as a single row. */
  function BookerEndBefore(bs: seq<Booking>, bookerId: int, t: int): (r: seq<Booking>)
    ensures forall b :: b in r <==> b in bs && b.booker == bookerId && b.end < t
  {
    Filter(bs, (b: Booking) => b.booker == bookerId && b.end < t)
  }

  /** Each listing query returns every booking it selects once per stored
      copy, and no other booking. */
  lemma QueriesSelectExactly(bs: seq<Booking>, bookerId: int, ownerId: int, status: BookingStatus, now: int, t: int)
    ensures Selects(OwnerAll(bs, ownerId), bs, (b: Booking) => OwnedBy(b, ownerId))
    ensures Selects(BookerAll(bs, bookerId), bs, (b: Booking) => b.booker == bookerId)
    ensures Selects(BookerWithStatus(bs, bookerId, status), bs, (b: Booking) => b.booker == bookerId && b.status == status)
    ensures Selects(OwnerWithStatus(bs, ownerId, status), bs, (b: Booking) => OwnedBy(b, ownerId) && b.status == status)
    ensures Selects(BookerPast(bs, bookerId, now), bs,
                    (b: Booking) => b.booker == bookerId && IsPast(b, now) && b.status == Approved)
    ensures Selects(BookerCurrent(bs, bookerId, now), bs, (b: Booking) => b.booker == bookerId && IsCurrent(b, now))
    ensures Selects(BookerFuture(bs, bookerId, now), bs, (b: Booking) => b.booker == bookerId && IsFuture(b, now))
    ensures Selects(OwnerFuture(bs, ownerId, now), bs, (b: Booking) => OwnedBy(b, ownerId) && IsFuture(b, now))
    ensures Selects(OwnerCurrent(bs, ownerId, now), bs, (b: Booking) => OwnedBy(b, ownerId) && IsCurrent(b, now))
    ensures Selects(OwnerPast(bs, ownerId, now), bs, (b: Booking) => OwnedBy(b, ownerId) && IsPast(b, now))
    ensures Selects(BookerEndBefore(bs, bookerId, t), bs, (b: Booking) => b.booker == bookerId && b.end < t)
  {
    SortedFilterSelects(bs, (b: Booking) => OwnedBy(b, ownerId), StartOf, Descending);
    SortedFilterSelects(bs, (b: Booking) => b.booker == bookerId, StartOf, Descending);
    FilterSelects(bs, (b: Booking) => b.booker == bookerId && b.status == status);
    FilterSelects(bs, (b: Booking) => OwnedBy(b, ownerId) && b.status == status);
    SortedFilterSelects(bs, (b: Booking) => b.booker == bookerId && IsPast(b, now) && b.status == Approved, StartOf, Descending);
    SortedFilterSelects(bs, (b: Booking) => b.booker == bookerId && IsCurrent(b, now), StartOf, Descending);
    SortedFilterSelects(bs, (b: Booking) => b.booker == bookerId && IsFuture(b, now), StartOf, Descending);
    SortedFilterSelects(bs, (b: Booking) => OwnedBy(b, ownerId) && IsFuture(b, now), StartOf, Descending);
    SortedFilterSelects(bs, (b: Booking) => OwnedBy(b, ownerId) && IsCurrent(b, now), StartOf, Descending);
    FilterSelects(bs, (b: Booking) => OwnedBy(b, ownerId) && IsPast(b, now));
    FilterSelects(bs, (b: Booking) => b.booker == bookerId && b.end < t);
  }

  /** Each booking of an owner whose start is not after its end is listed by
      exactly one of the owner's PAST, CURRENT and FUTURE queries. */
  lemma OwnerBucketsPartition(bs: seq<Booking>, ownerId: int, now: int, b: Booking)
    requires b in bs && OwnedBy(b, ownerId) && b.start <= b.end
    ensures b in OwnerPast(bs, ownerId, now) || b in OwnerCurrent(bs, ownerId, now) || b in OwnerFuture(bs, ownerId, now)
    ensures !(b in OwnerPast(bs, ownerId, now) && b in OwnerCurrent(bs, ownerId, now))
    ensures !(b in OwnerPast(bs, ownerId, now) && b in OwnerFuture(bs, ownerId, now))
    ensures !(b in OwnerCurrent(bs, ownerId, now) && b in OwnerFuture(bs, ownerId, now))
  {
    TimeBucketsPartition(b, now);
  }

  /** The owner's PAST listing keeps a finished booking that is not
      approved; the booker's PAST listing drops it. */
  lemma PastListingsDifferOnStatus(bs: seq<Booking>, b: Booking, now: int)
    requires b in bs && b.end < now && b.status != Approved && b.item.owner.Some?
    ensures b in OwnerPast(bs, b.item.owner.value, now)
    ensures b !in BookerPast(bs, b.booker, now)
  {
  }
}
