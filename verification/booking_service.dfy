/** The booking service of the server tier: creation with its ordered
    validation, the owner's approve/reject decision, the booker-or-owner read,
    the state token parser and the two paged listings. Time is the parameter
    `now`; `users`, `items` and `bs` are the user, item and
    booking tables in storage order. Operations return the entity they would
    save. */
module BookingService {
  import opened Wrappers
  import opened Entities
  import opened Sequences
  import opened Paging
  import opened BookingRepository

  /** The request body of a booking. */
  datatype BookingDto = BookingDto(id: int, start: int, end: int, itemId: int, status: Option<BookingStatus>)

  /** BookingMapper.toBooking: the booking the request describes. */
  function ToBooking(booker: User, item: Item, dto: BookingDto): Booking {
    Booking(dto.id, dto.start, dto.end, item, booker.id, dto.status.GetOr(Waiting))
  }

  /** What a booking must satisfy to be created: its item is available and
      owned by someone else, and its range starts no earlier than `now` and
      does not end before it starts. */
  predicate Acceptable(b: Booking, now: int) {
    && b.item.available == Some(true)
    && b.item.owner.Some? && b.item.owner.value != b.booker
    && now <= b.start <= b.end
  }

  /** The five ordered checks of `validate`; the first that fails decides the
      error. A null availability flag or owner throws before its check can
      answer. */
  function Validate(b: Booking, now: int): (r: Outcome)
    ensures b.item.available == Some(false) ==> r == Fail(Validation)
    ensures b.item.available == Some(true) && b.item.owner == Some(b.booker) ==> r == Fail(NotFound)
    ensures (b.item.available == Some(true) && b.item.owner.Some? && b.item.owner.value != b.booker
             && b.start > b.end) ==> r == Fail(Validation)
    ensures (b.item.available == Some(true) && b.item.owner.Some? && b.item.owner.value != b.booker
             && b.start <= b.end && b.start < now) ==> r == Fail(Validation)
    ensures r == Pass <==> Acceptable(b, now)
    ensures r.Fail? ==> r.error in {Validation, NotFound, Unhandled}
  {
    match b.item.available
    case None => Fail(Unhandled)
    case Some(available) =>
      if !available then Fail(Validation)
      else match b.item.owner
      case None => Fail(Unhandled)
      case Some(ownerId) =>
        if b.booker == ownerId then Fail(NotFound)
        else if b.start > b.end then Fail(Validation)
        else if b.start < now then Fail(Validation)
        else if b.end < now then Fail(Validation)
        else Pass
  }

  /** The fifth check ("end in the past") never decides: any booking that
      passes the third and fourth checks already ends at or after `now`. */
  lemma EndInPastCheckNeverFires(b: Booking, now: int)
    requires !(b.start > b.end) && !(b.start < now)
    ensures !(b.end < now)
  {
  }

  /** A booking whose start equals its end is accepted: only a strictly later
      start is refused. */
  lemma EmptyRangeAccepted(b: Booking, now: int)
    requires b.item.available == Some(true) && b.item.owner == Some(b.booker + 1)
    requires b.start == b.end && b.start >= now
    ensures Validate(b, now) == Pass
  {
  }

  /** createBooking: look up the booker, then the item, validate, and store
      the booking as WAITING whatever status the request carried. */
  function CreateBooking(users: seq<User>, items: seq<Item>, dto: BookingDto, userId: int, now: int): (r: Result<Booking>)
    ensures !HasUser(users, userId) ==> r == Err(NotFound)
    ensures HasUser(users, userId) && FindItem(items, dto.itemId).None? ==> r == Err(NotFound)
    ensures r.Ok? ==> r.value.status == Waiting
    ensures r.Ok? ==> && r.value.id == dto.id && r.value.start == dto.start && r.value.end == dto.end
                      && r.value.booker == userId && r.value.item in items && r.value.item.id == dto.itemId
    ensures r.Ok? ==> Acceptable(r.value, now)
    ensures HasUser(users, userId) && FindItem(items, dto.itemId).Some? ==>
              (r.Ok? <==> Acceptable(ToBooking(FindUser(users, userId).value, FindItem(items, dto.itemId).value, dto), now))
    ensures HasUser(users, userId) && FindItem(items, dto.itemId).Some? && r.Err? ==>
              r.error == Validate(ToBooking(FindUser(users, userId).value, FindItem(items, dto.itemId).value, dto), now).error
    ensures (&& HasUser(users, userId) && FindItem(items, dto.itemId).Some?
             && FindItem(items, dto.itemId).value.available == Some(true)
             && FindItem(items, dto.itemId).value.owner == Some(userId)) ==> r == Err(NotFound)
    ensures (&& HasUser(users, userId) && FindItem(items, dto.itemId).Some?
             && FindItem(items, dto.itemId).value.available == Some(true)
             && FindItem(items, dto.itemId).value.owner.Some? && FindItem(items, dto.itemId).value.owner != Some(userId)
             && (dto.start > dto.end || dto.start < now)) ==> r == Err(Validation)
  {
    match FindUser(users, userId)
    case None => Err(NotFound)
    case Some(booker) =>
      match FindItem(items, dto.itemId)
      case None => Err(NotFound)
      case Some(item) =>
      var b := ToBooking(booker, item, dto);
      match Validate(b, now)
      case Fail(e) => Err(e)
      case Pass => Ok(b.(status := Waiting))
  }

  /** The status a request carries never reaches the stored booking. */
  lemma CreateIgnoresRequestedStatus(users: seq<User>, items: seq<Item>, dto: BookingDto,
                                     userId: int, now: int, s: Option<BookingStatus>)
    ensures CreateBooking(users, items, dto.(status := s), userId, now) == CreateBooking(users, items, dto, userId, now)
  {
  }

  /** Approving twice or rejecting twice repeats the booking's decision. */
  predicate RepeatsDecision(status: BookingStatus, approve: bool) {
    (status == Approved && approve) || (status == Rejected && !approve)
  }

  /** validateForUpdating: only the item's owner may decide, and the same
      decision cannot be taken twice. */
  function ValidateForUpdating(b: Booking, userId: int, approve: bool): (r: Outcome)
    ensures b.item.owner.Some? && b.item.owner.value != userId ==> r == Fail(NotFound)
    ensures b.item.owner == Some(userId) && RepeatsDecision(b.status, approve) ==> r == Fail(Validation)
    ensures r == Pass <==> b.item.owner == Some(userId) && !RepeatsDecision(b.status, approve)
  {
    match b.item.owner
    case None => Fail(Unhandled)
    case Some(ownerId) =>
      if ownerId != userId then Fail(NotFound)
      else if b.status == Approved && approve then Fail(Validation)
      else if b.status == Rejected && !approve then Fail(Validation)
      else Pass
  }

  /** setApprovedStatus: APPROVED on approval, REJECTED otherwise; nothing
      else about the booking changes. */
  function SetApprovedStatus(b: Booking, approve: bool): (r: Booking)
    ensures r.status == Approved <==> approve
    ensures r.status == Rejected <==> !approve
    ensures r.(status := b.status) == b
  {
    b.(status := if approve then Approved else Rejected)
  }

  /** updateBooking: a missing booking is NotFound before any other check. */
  function UpdateBooking(bs: seq<Booking>, bookingId: int, userId: int, approve: bool): (r: Result<Booking>)
    ensures FindBooking(bs, bookingId).None? ==> r == Err(NotFound)
    ensures FindBooking(bs, bookingId).Some? ==>
              var b := FindBooking(bs, bookingId).value;
              && (r.Ok? <==> b.item.owner == Some(userId) && !RepeatsDecision(b.status, approve))
              && (r.Ok? ==> r.value.(status := b.status) == b && (r.value.status == Approved <==> approve))
              && (b.item.owner.Some? && b.item.owner != Some(userId) ==> r == Err(NotFound))
              && (b.item.owner == Some(userId) && RepeatsDecision(b.status, approve) ==> r == Err(Validation))
  {
    match FindBooking(bs, bookingId)
    case None => Err(NotFound)
    case Some(b) =>
      match ValidateForUpdating(b, userId, approve)
      case Fail(e) => Err(e)
      case Pass => Ok(SetApprovedStatus(b, approve))
  }

  /** A decided booking can be flipped: an approved one rejected, a rejected
      one approved. Only repeating the same decision is refused. */
  lemma DecisionCanBeFlipped(bs: seq<Booking>, bookingId: int, ownerId: int, approve: bool)
    requires FindBooking(bs, bookingId).Some?
    requires var b := FindBooking(bs, bookingId).value;
             b.item.owner == Some(ownerId) && b.status == (if approve then Rejected else Approved)
    ensures UpdateBooking(bs, bookingId, ownerId, approve) == Ok(SetApprovedStatus(FindBooking(bs, bookingId).value, approve))
  {
  }

  /** After a successful decision, the same decision again fails with Validation. */
  lemma RepeatedDecisionFails(b: Booking, userId: int, approve: bool)
    requires ValidateForUpdating(b, userId, approve) == Pass
    ensures ValidateForUpdating(SetApprovedStatus(b, approve), userId, approve) == Fail(Validation)
  {
  }

  /** getBookingById's access rule: the booker or the item's owner. */
  function CheckAccess(b: Booking, userId: int): (r: Outcome)
    ensures r == Pass <==> b.booker == userId || b.item.owner == Some(userId)
    ensures r.Fail? && b.item.owner.Some? ==> r.error == NotFound
  {
    if b.booker == userId then Pass
    else match b.item.owner
    case None => Fail(Unhandled)
    case Some(ownerId) => Need(ownerId == userId, NotFound)
  }

  /** getBookingById(bookingId, userId): the booking, for its booker or its
      item's owner only; missing booking, then missing user, are NotFound. */
  function GetBookingById(users: seq<User>, bs: seq<Booking>, bookingId: int, userId: int): (r: Result<Booking>)
    ensures FindBooking(bs, bookingId).None? ==> r == Err(NotFound)
    ensures FindBooking(bs, bookingId).Some? && !HasUser(users, userId) ==> r == Err(NotFound)
    ensures r.Ok? <==> && FindBooking(bs, bookingId).Some? && HasUser(users, userId)
                       && (FindBooking(bs, bookingId).value.booker == userId
                           || FindBooking(bs, bookingId).value.item.owner == Some(userId))
    ensures r.Ok? ==> r.value in bs && r.value.id == bookingId
  {
    match FindBooking(bs, bookingId)
    case None => Err(NotFound)
    case Some(b) =>
      if !HasUser(users, userId) then Err(NotFound)
      else match CheckAccess(b, userId)
      case Fail(e) => Err(e)
      case Pass => Ok(b)
  }

  /** The enum constant names. */
  function StateName(s: BookingState): string {
    match s
    case ALL => "ALL"
    case CURRENT => "CURRENT"
    case PAST => "PAST"
    case FUTURE => "FUTURE"
    case WAITING => "WAITING"
    case REJECTED => "REJECTED"
  }

  /** getStateByStr: null means ALL; otherwise `BookingState.valueOf`, whose
      failure becomes a ValidationException ("Unknown state"). */
  function GetStateByStr(token: Option<string>): (r: Result<BookingState>)
    ensures token.None? ==> r == Ok(ALL)
    ensures token.Some? && r.Ok? ==> StateName(r.value) == token.value
    ensures r.Err? ==> r.error == Validation
  {
    match token
    case None => Ok(ALL)
    case Some(t) =>
      if t == "ALL" then Ok(ALL)
      else if t == "CURRENT" then Ok(CURRENT)
      else if t == "PAST" then Ok(PAST)
      else if t == "FUTURE" then Ok(FUTURE)
      else if t == "WAITING" then Ok(WAITING)
      else if t == "REJECTED" then Ok(REJECTED)
      else Err(Validation)
  }

  /** Parsing the name of a state gives that state back. */
  lemma StateNameRoundTrip(s: BookingState)
    ensures GetStateByStr(Some(StateName(s))) == Ok(s)
  {
  }

  /** A token is accepted exactly when it is the name of a state. */
  lemma StateTokenAcceptedIffName(t: string)
    ensures GetStateByStr(Some(t)).Ok? <==> exists s :: StateName(s) == t
  {
    if GetStateByStr(Some(t)).Ok? {
      assert StateName(GetStateByStr(Some(t)).value) == t;
    } else {
      forall s ensures StateName(s) != t {
        StateNameRoundTrip(s);
      }
    }
  }

  /** The comparison is case-sensitive. */
  lemma StateTokenIsCaseSensitive()
    ensures GetStateByStr(Some("all")) == Err(Validation)
    ensures GetStateByStr(Some("Past")) == Err(Validation)
  {
  }

  /** What each state selects in the booker's listing. */
  predicate BookerSelects(state: BookingState, b: Booking, now: int) {
    match state
    case ALL => true
    case PAST => IsPast(b, now) && b.status == Approved
    case CURRENT => IsCurrent(b, now)
    case FUTURE => IsFuture(b, now)
    case WAITING => b.status == Waiting
    case REJECTED => b.status == Rejected
  }

  /** What each state selects in the owner's listing: PAST has no status condition. */
  predicate OwnerSelects(state: BookingState, b: Booking, now: int) {
    match state
    case ALL => true
    case PAST => IsPast(b, now)
    case CURRENT => IsCurrent(b, now)
    case FUTURE => IsFuture(b, now)
    case WAITING => b.status == Waiting
    case REJECTED => b.status == Rejected
  }

  /** The query the booker's switch picks for each state. */
  function BookerQuery(bs: seq<Booking>, userId: int, state: BookingState, now: int): (r: seq<Booking>)
    ensures forall b :: b in r <==> b in bs && b.booker == userId && BookerSelects(state, b, now)
    ensures state != WAITING && state != REJECTED ==> SortedBy(r, StartOf, Descending)
  {
    match state
    case ALL => BookerAll(bs, userId)
    case PAST => BookerPast(bs, userId, now)
    case WAITING => BookerWithStatus(bs, userId, Waiting)
    case CURRENT => BookerCurrent(bs, userId, now)
    case REJECTED => BookerWithStatus(bs, userId, Rejected)
    case FUTURE => BookerFuture(bs, userId, now)
  }

  /** The query the owner's switch picks for each state. */
  function OwnerQuery(bs: seq<Booking>, ownerId: int, state: BookingState, now: int): (r: seq<Booking>)
    ensures forall b :: b in r <==> b in bs && OwnedBy(b, ownerId) && OwnerSelects(state, b, now)
    ensures state == ALL || state == CURRENT || state == FUTURE ==> SortedBy(r, StartOf, Descending)
  {
    match state
    case ALL => OwnerAll(bs, ownerId)
    case FUTURE => OwnerFuture(bs, ownerId, now)
    case CURRENT => OwnerCurrent(bs, ownerId, now)
    case WAITING => OwnerWithStatus(bs, ownerId, Waiting)
    case PAST => OwnerPast(bs, ownerId, now)
    case REJECTED => OwnerWithStatus(bs, ownerId, Rejected)
  }

  /** getAllBookingByUser: the requested page of the booker's query. The ALL
      branch goes through getAllUser, which looks the user up again. */
  function GetAllBookingByUser(users: seq<User>, bs: seq<Booking>, userId: int, state: BookingState,
                               from: int, size: int, now: int): (r: Result<seq<Booking>>)
    ensures !(size > 0 && from > -size) ==> r == Err(Unhandled)
    ensures size > 0 && from > -size && state == ALL && !HasUser(users, userId) ==> r == Err(NotFound)
    ensures size > 0 && from > -size && (state != ALL || HasUser(users, userId)) ==> r.Ok?
    ensures r.Ok? ==> r.value == Page(BookerQuery(bs, userId, state, now), PageIndex(from, size).value, size)
    ensures r.Ok? ==> |r.value| <= size
    ensures r.Ok? ==> forall b :: b in r.value ==> b in bs && b.booker == userId && BookerSelects(state, b, now)
    ensures r.Ok? && state != WAITING && state != REJECTED ==> SortedBy(r.value, StartOf, Descending)
  {
    var page :- PageIndex(from, size);
    if state == ALL && !HasUser(users, userId) then Err(NotFound)
    else
      var q := BookerQuery(bs, userId, state, now);
      PageIsSubset(q, page, size);
      assert state != WAITING && state != REJECTED ==> SortedBy(Page(q, page, size), StartOf, Descending) by {
        if state != WAITING && state != REJECTED {
          PageKeepsOrder(q, page, size, StartOf, Descending);
        }
      }
      Ok(Page(q, page, size))
  }

  /** getAllBookingByOwner: the requested page of the owner's query. */
  function GetAllBookingByOwner(bs: seq<Booking>, ownerId: int, state: BookingState,
                                from: int, size: int, now: int): (r: Result<seq<Booking>>)
    ensures r.Ok? <==> size > 0 && from > -size
    ensures r.Err? ==> r.error == Unhandled
    ensures r.Ok? ==> r.value == Page(OwnerQuery(bs, ownerId, state, now), PageIndex(from, size).value, size)
    ensures r.Ok? ==> |r.value| <= size
    ensures r.Ok? ==> forall b :: b in r.value ==> b in bs && OwnedBy(b, ownerId) && OwnerSelects(state, b, now)
    ensures r.Ok? && (state == ALL || state == CURRENT || state == FUTURE) ==> SortedBy(r.value, StartOf, Descending)
  {
    var page :- PageIndex(from, size);
    var q := OwnerQuery(bs, ownerId, state, now);
    PageIsSubset(q, page, size);
    assert state == ALL || state == CURRENT || state == FUTURE ==> SortedBy(Page(q, page, size), StartOf, Descending) by {
      if state == ALL || state == CURRENT || state == FUTURE {
        PageKeepsOrder(q, page, size, StartOf, Descending);
      }
    }
    Ok(Page(q, page, size))
  }

  /** Paging loses no booking: every booking the booker's query selects is
      on the page that `from` set to its position reads. */
  lemma BookerListingReachesEveryRow(users: seq<User>, bs: seq<Booking>, userId: int, state: BookingState,
                                     size: int, now: int, b: Booking)
    requires size > 0 && (state != ALL || HasUser(users, userId))
    requires b in bs && b.booker == userId && BookerSelects(state, b, now)
    ensures exists from :: from >= 0 && b in GetAllBookingByUser(users, bs, userId, state, from, size, now).value
  {
    var q := BookerQuery(bs, userId, state, now);
    var i :| 0 <= i < |q| && q[i] == b;
    RowOnItsPage(q, i, size);
    assert b in GetAllBookingByUser(users, bs, userId, state, i, size, now).value;
  }

  /** Every booking the owner's query selects is on the page that `from`
      set to its position reads. */
  lemma OwnerListingReachesEveryRow(bs: seq<Booking>, ownerId: int, state: BookingState, size: int, now: int, b: Booking)
    requires size > 0
    requires b in bs && OwnedBy(b, ownerId) && OwnerSelects(state, b, now)
    ensures exists from :: from >= 0 && b in GetAllBookingByOwner(bs, ownerId, state, from, size, now).value
  {
    var q := OwnerQuery(bs, ownerId, state, now);
    var i :| 0 <= i < |q| && q[i] == b;
    RowOnItsPage(q, i, size);
    assert b in GetAllBookingByOwner(bs, ownerId, state, i, size, now).value;
  }

  /** A query no longer than `size` comes whole on the first window. */
  lemma ShortBookerListingIsWholeQuery(users: seq<User>, bs: seq<Booking>, userId: int, state: BookingState,
                                       from: int, size: int, now: int)
    requires 0 <= from < size && (state != ALL || HasUser(users, userId))
    requires |BookerQuery(bs, userId, state, now)| <= size
    ensures GetAllBookingByUser(users, bs, userId, state, from, size, now) == Ok(BookerQuery(bs, userId, state, now))
  {
    QuotientBounds(from, size);
    assert PageIndex(from, size).value == 0;
    FirstPageIsWholeShortList(BookerQuery(bs, userId, state, now), size);
  }

  /** getAllBookingByOwnerId: unknown user, then an owner without any
      booking (checked on the unpaged list), are NotFound; then the page. */
  function GetAllBookingByOwnerId(users: seq<User>, bs: seq<Booking>, ownerId: int, state: BookingState,
                                  from: int, size: int, now: int): (r: Result<seq<Booking>>)
    ensures !HasUser(users, ownerId) ==> r == Err(NotFound)
    ensures (forall b :: b in bs ==> !OwnedBy(b, ownerId)) ==> r == Err(NotFound)
    ensures HasUser(users, ownerId) && (exists b :: b in bs && OwnedBy(b, ownerId)) ==>
              r == GetAllBookingByOwner(bs, ownerId, state, from, size, now)
  {
    if !HasUser(users, ownerId) then Err(NotFound)
    else if |OwnerAll(bs, ownerId)| == 0 then Err(NotFound)
    else GetAllBookingByOwner(bs, ownerId, state, from, size, now)
  }

  /** getAllBookingByUserId: unknown user is NotFound; the paging is checked;
      then an empty requested page of the booker's ALL list is NotFound;
      otherwise the listing of getAllBookingByUser. */
  function GetAllBookingByUserId(users: seq<User>, bs: seq<Booking>, userId: int, state: BookingState,
                                 from: int, size: int, now: int): (r: Result<seq<Booking>>)
    ensures !HasUser(users, userId) ==> r == Err(NotFound)
    ensures HasUser(users, userId) && !(size > 0 && from > -size) ==> r == Err(Unhandled)
    ensures HasUser(users, userId) && size > 0 && from > -size ==>
              (r == Err(NotFound) <==> |Page(BookerAll(bs, userId), PageIndex(from, size).value, size)| == 0)
    ensures HasUser(users, userId) && size > 0 && from > -size && |Page(BookerAll(bs, userId), PageIndex(from, size).value, size)| > 0 ==>
              r == GetAllBookingByUser(users, bs, userId, state, from, size, now) && r.Ok?
    ensures HasUser(users, userId) && size > 0 && from > -size && (forall b :: b in bs ==> b.booker != userId) ==> r == Err(NotFound)
    ensures r.Ok? ==> forall b :: b in r.value ==> b in bs && b.booker == userId && BookerSelects(state, b, now)
  {
    if !HasUser(users, userId) then Err(NotFound)
    else
      var page :- PageIndex(from, size);
      var mine := BookerAll(bs, userId);
      EmptyIffNoMembers(mine);
      if |Page(mine, page, size)| == 0 then Err(NotFound)
      else
        var listing := GetAllBookingByUser(users, bs, userId, state, from, size, now);
        assert listing.Ok?;
        listing
  }

  /** The two listings check emptiness on different lists: for a user
      without a booking of an owned item and `size == 0`, the owner listing
      answers NotFound before dividing, the booker listing fails on the
      division. */
  lemma EmptinessCheckedBeforeOrAfterPaging(users: seq<User>, bs: seq<Booking>, userId: int, state: BookingState,
                                            from: int, now: int)
    requires HasUser(users, userId)
    requires forall b :: b in bs ==> !OwnedBy(b, userId)
    ensures GetAllBookingByOwnerId(users, bs, userId, state, from, 0, now) == Err(NotFound)
    ensures GetAllBookingByUserId(users, bs, userId, state, from, 0, now) == Err(Unhandled)
  {
  }

  /** A booker whose bookings all lie before the requested window gets
      NotFound, whatever the state asks for. */
  lemma PageBeyondBookerListIsNotFound(users: seq<User>, bs: seq<Booking>, userId: int, state: BookingState,
                                       from: int, size: int, now: int)
    requires HasUser(users, userId) && size > 0 && from >= 0
    requires |BookerAll(bs, userId)| <= from - from % size
    ensures GetAllBookingByUserId(users, bs, userId, state, from, size, now) == Err(NotFound)
  {
    PageStartsAtRoundedFrom(from, size);
  }

  /** The owner listing, past the end of the owner's query, answers an
      empty page instead. */
  lemma PageBeyondOwnerListIsEmpty(users: seq<User>, bs: seq<Booking>, ownerId: int, state: BookingState,
                                   from: int, size: int, now: int, owned: Booking)
    requires HasUser(users, ownerId) && size > 0 && from >= 0
    requires owned in bs && OwnedBy(owned, ownerId)
    requires |OwnerQuery(bs, ownerId, state, now)| <= from - from % size
    ensures GetAllBookingByOwnerId(users, bs, ownerId, state, from, size, now) == Ok([])
  {
    PageStartsAtRoundedFrom(from, size);
  }
}
