/** The earlier revision of the booking service (the single-tier `src`
    tree). Creation, the approval checks and the state token parser are the
    same code as in the server revision and reuse its definitions; the
    listings differ: they use Spring Data derived queries without paging, the
    CURRENT query compares the wrong way round, REJECTED has no branch, and
    the owner listing returns the caller's bookings as booker. */
module BookingServiceLegacy {
  import opened Wrappers
  import opened Entities
  import opened Sequences
  import opened BookingRepository
  import BookingService

  /** createBooking: the booker through the user service, the item through
      the item service, then the same `validate` and status WAITING. */
  function CreateBooking(users: seq<User>, items: seq<Item>, dto: BookingService.BookingDto, userId: int, now: int): (r: Result<Booking>)
    ensures !HasUser(users, userId) ==> r == Err(NotFound)
    ensures HasUser(users, userId) && FindItem(items, dto.itemId).None? ==> r == Err(NotFound)
    ensures r.Ok? ==> r.value.status == Waiting && r.value.booker == userId && BookingService.Acceptable(r.value, now)
    ensures r.Err? ==> r.error in {NotFound, Validation, Unhandled}
  {
    match FindUser(users, userId)
    case None => Err(NotFound)
    case Some(booker) =>
      match FindItem(items, dto.itemId)
      case None => Err(NotFound)
      case Some(item) =>
        var b := BookingService.ToBooking(booker, item, dto);
        match BookingService.Validate(b, now)
        case Fail(e) => Err(e)
        case Pass => Ok(b.(status := Waiting))
  }

  /** Both revisions create the same booking or fail the same way. */
  lemma CreateAgreesWithServer(users: seq<User>, items: seq<Item>, dto: BookingService.BookingDto, userId: int, now: int)
    ensures CreateBooking(users, items, dto, userId, now) == BookingService.CreateBooking(users, items, dto, userId, now)
  {
  }

  /** updateBooking: a missing booking is NotFound before anything else; this
      revision then also requires the caller to exist. */
  function UpdateBooking(users: seq<User>, bs: seq<Booking>, bookingId: int, userId: int, approve: bool): (r: Result<Booking>)
    ensures FindBooking(bs, bookingId).None? ==> r == Err(NotFound)
    ensures FindBooking(bs, bookingId).Some? && !HasUser(users, userId) ==> r == Err(NotFound)
    ensures FindBooking(bs, bookingId).Some? && HasUser(users, userId) ==>
              var b := FindBooking(bs, bookingId).value;
              && (b.item.owner.Some? && b.item.owner.value != userId ==> r == Err(NotFound))
              && (b.item.owner == Some(userId) && BookingService.RepeatsDecision(b.status, approve) ==> r == Err(Validation))
              && (r.Ok? <==> b.item.owner == Some(userId) && !BookingService.RepeatsDecision(b.status, approve))
              && (r.Ok? ==> r.value.(status := b.status) == b && (r.value.status == Approved <==> approve))
  {
    match FindBooking(bs, bookingId)
    case None => Err(NotFound)
    case Some(b) =>
      if !HasUser(users, userId) then Err(NotFound)
      else match BookingService.ValidateForUpdating(b, userId, approve)
      case Fail(e) => Err(e)
      case Pass => Ok(BookingService.SetApprovedStatus(b, approve))
  }

  /** With an existing caller the two revisions decide alike; with a caller
      missing from the user table only the server revision lets the item's
      owner decide. */
  lemma UpdateDiffersOnlyOnMissingCaller(users: seq<User>, bs: seq<Booking>, bookingId: int, userId: int, approve: bool)
    ensures HasUser(users, userId) ==>
              UpdateBooking(users, bs, bookingId, userId, approve) == BookingService.UpdateBooking(bs, bookingId, userId, approve)
    ensures !HasUser(users, userId) && FindBooking(bs, bookingId).Some?
            && FindBooking(bs, bookingId).value.item.owner == Some(userId)
            && !BookingService.RepeatsDecision(FindBooking(bs, bookingId).value.status, approve) ==>
              UpdateBooking(users, bs, bookingId, userId, approve) == Err(NotFound)
              && BookingService.UpdateBooking(bs, bookingId, userId, approve).Ok?
  {
  }

  /** getBookingById: the same rule as the server revision. */
  function GetBookingById(users: seq<User>, bs: seq<Booking>, bookingId: int, userId: int): (r: Result<Booking>)
    ensures r.Ok? <==> && FindBooking(bs, bookingId).Some? && HasUser(users, userId)
                       && (FindBooking(bs, bookingId).value.booker == userId
                           || FindBooking(bs, bookingId).value.item.owner == Some(userId))
    ensures r.Ok? ==> r.value in bs && r.value.id == bookingId
    ensures r.Err? && FindBooking(bs, bookingId).Some? && FindBooking(bs, bookingId).value.item.owner.Some? ==> r.error == NotFound
  {
    match FindBooking(bs, bookingId)
    case None => Err(NotFound)
    case Some(b) =>
      if !HasUser(users, userId) then Err(NotFound)
      else match BookingService.CheckAccess(b, userId)
      case Fail(e) => Err(e)
      case Pass => Ok(b)
  }

  /** `findByBooker_IdOrderByIdDesc`: the booker's bookings, highest id first. */
  function BookerByIdDesc(bs: seq<Booking>, bookerId: int): (r: seq<Booking>)
    ensures forall b :: b in r <==> b in bs && b.booker == bookerId
    ensures SortedBy(r, BookingId, Descending)
  {
    SortBy(Filter(bs, (b: Booking) => b.booker == bookerId), BookingId, Descending)
  }

  /** `findByBooker_IdAndStartAfterAndEndBefore(id, t, t)`: start after `t`
      and end before `t`. */
  function BookerStartAfterEndBefore(bs: seq<Booking>, bookerId: int, after: int, before: int): (r: seq<Booking>)
    ensures forall b :: b in r <==> b in bs && b.booker == bookerId && b.start > after && b.end < before
  {
    Filter(bs, (b: Booking) => b.booker == bookerId && b.start > after && b.end < before)
  }

  /** `findByBooker_IdAndStartAfter`: starts after `t`. */
  function BookerStartAfter(bs: seq<Booking>, bookerId: int, t: int): (r: seq<Booking>)
    ensures forall b :: b in r <==> b in bs && b.booker == bookerId && b.start > t
  {
    Filter(bs, (b: Booking) => b.booker == bookerId && b.start > t)
  }

  /** The legacy queries return each selected booking once per stored copy. */
  lemma LegacyQueriesSelectExactly(bs: seq<Booking>, bookerId: int, after: int, before: int, t: int)
    ensures Selects(BookerByIdDesc(bs, bookerId), bs, (b: Booking) => b.booker == bookerId)
    ensures Selects(BookerStartAfterEndBefore(bs, bookerId, after, before), bs,
                    (b: Booking) => b.booker == bookerId && b.start > after && b.end < before)
    ensures Selects(BookerStartAfter(bs, bookerId, t), bs, (b: Booking) => b.booker == bookerId && b.start > t)
  {
    SortedFilterSelects(bs, (b: Booking) => b.booker == bookerId, BookingId, Descending);
    FilterSelects(bs, (b: Booking) => b.booker == bookerId && b.start > after && b.end < before);
    FilterSelects(bs, (b: Booking) => b.booker == bookerId && b.start > t);
  }

  /** What each state selects in this revision's booker listing. */
  predicate LegacySelects(state: BookingState, b: Booking, now: int) {
    match state
    case ALL => true
    case CURRENT => b.start > now && b.end < now
    case PAST => b.end < now
    case FUTURE => b.start > now
    case WAITING => b.status == Waiting
    case REJECTED => false
  }

  /** getAllBookingByUserId: unknown user, then an unknown token, fail; the
      switch has no REJECTED branch, so that state lists nothing; an empty
      listing is not an error in this revision. */
  function GetAllBookingByUserId(users: seq<User>, bs: seq<Booking>, userId: int, token: Option<string>, now: int): (r: Result<seq<Booking>>)
    ensures !HasUser(users, userId) ==> r == Err(NotFound)
    ensures HasUser(users, userId) ==> (r.Ok? <==> BookingService.GetStateByStr(token).Ok?)
    ensures r.Err? ==> r.error in {NotFound, Validation}
    ensures r.Ok? ==> forall b :: b in r.value <==>
              b in bs && b.booker == userId && LegacySelects(BookingService.GetStateByStr(token).value, b, now)
    ensures r.Ok? && BookingService.GetStateByStr(token).value == ALL ==> SortedBy(r.value, BookingId, Descending)
  {
    if !HasUser(users, userId) then Err(NotFound)
    else
      var state :- BookingService.GetStateByStr(token);
      match state
      case ALL => Ok(BookerByIdDesc(bs, userId))
      case CURRENT => Ok(BookerStartAfterEndBefore(bs, userId, now, now))
      case PAST => Ok(BookerEndBefore(bs, userId, now))
      case FUTURE => Ok(BookerStartAfter(bs, userId, now))
      case WAITING => Ok(BookerWithStatus(bs, userId, Waiting))
      case REJECTED => Ok([])
  }

  /** The CURRENT query of this revision can only match a booking that ends
      before it starts, so over well-formed bookings it lists nothing. */
  lemma CurrentNeverMatches(users: seq<User>, bs: seq<Booking>, userId: int, now: int)
    requires HasUser(users, userId)
    requires forall b :: b in bs ==> b.start <= b.end
    ensures GetAllBookingByUserId(users, bs, userId, Some("CURRENT"), now) == Ok([])
  {
    assert BookingService.GetStateByStr(Some("CURRENT")) == Ok(CURRENT);
    EmptyIffNoMembers(GetAllBookingByUserId(users, bs, userId, Some("CURRENT"), now).value);
  }

  /** The revisions disagree on CURRENT: a booking in progress is listed by
      the server revision and not by this one. */
  lemma CurrentRevisionsDiffer(users: seq<User>, b: Booking, now: int)
    requires HasUser(users, b.booker) && b.start <= now <= b.end
    ensures b in BookingService.BookerQuery([b], b.booker, CURRENT, now)
    ensures GetAllBookingByUserId(users, [b], b.booker, Some("CURRENT"), now) == Ok([])
  {
    CurrentNeverMatches(users, [b], b.booker, now);
  }

  /** REJECTED parses but has no branch: the listing is empty even when the
      booker has rejected bookings. */
  lemma RejectedListsNothing(users: seq<User>, bs: seq<Booking>, userId: int, now: int)
    requires HasUser(users, userId)
    ensures GetAllBookingByUserId(users, bs, userId, Some("REJECTED"), now) == Ok([])
  {
    assert BookingService.GetStateByStr(Some("REJECTED")) == Ok(REJECTED);
  }

  /** An existing booker without bookings gets an empty ALL listing here and
      NotFound from the server revision. */
  lemma EmptyListingRevisionsDiffer(users: seq<User>, userId: int, now: int)
    requires HasUser(users, userId)
    ensures GetAllBookingByUserId(users, [], userId, None, now) == Ok([])
    ensures BookingService.GetAllBookingByUserId(users, [], userId, ALL, 0, 10, now) == Err(NotFound)
  {
    assert BookingService.GetStateByStr(None) == Ok(ALL);
  }

  /** getAllBookingForOwner: the state is ignored and the caller's bookings
      as booker are returned, highest id first. */
  function GetAllBookingForOwner(users: seq<User>, bs: seq<Booking>, userId: int, state: Option<string>): (r: Result<seq<Booking>>)
    ensures !HasUser(users, userId) ==> r == Err(NotFound)
    ensures HasUser(users, userId) ==> r.Ok?
    ensures r.Ok? ==> forall b :: b in r.value <==> b in bs && b.booker == userId
    ensures r.Ok? ==> SortedBy(r.value, BookingId, Descending)
  {
    if !HasUser(users, userId) then Err(NotFound)
    else Ok(BookerByIdDesc(bs, userId))
  }

  /** The owner listing does not depend on the state token, valid or not. */
  lemma OwnerListingIgnoresState(users: seq<User>, bs: seq<Booking>, userId: int, s1: Option<string>, s2: Option<string>)
    ensures GetAllBookingForOwner(users, bs, userId, s1) == GetAllBookingForOwner(users, bs, userId, s2)
  {
  }

  /** The owner listing lists the caller's own bookings, not bookings of the
      caller's items: an owner whose item another user booked sees nothing. */
  lemma OwnerListingMissesOwnedItems(users: seq<User>, bs: seq<Booking>, b: Booking, ownerId: int, state: Option<string>)
    requires HasUser(users, ownerId) && b in bs && b.item.owner == Some(ownerId) && b.booker != ownerId
    ensures GetAllBookingForOwner(users, bs, ownerId, state).Ok?
    ensures b !in GetAllBookingForOwner(users, bs, ownerId, state).value
  {
  }
}
