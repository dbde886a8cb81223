/** ItemServiceImpl (the single-tier revision): creating, patching, reading,
    listing and searching items, and commenting on them. The clock's reading
    is the parameter `now`; a saved entity is returned rather than stored. */
module ItemService {
  import opened Wrappers
  import opened Entities
  import opened Sequences
  import opened Text
  import opened BookingRepository
  import opened ItemRepository
  import opened ItemMapper

  datatype CommentDto = CommentDto(id: int, text: Option<string>)

  /** The fields an item must have once created. */
  predicate WellFormed(i: Item) {
    i.description.Some? && i.name.Some? && !IsBlank(i.name.value) && i.available.Some?
  }

  /** validate: null description, then blank name, then null available.
      A null name fails `isBlank` with a NullPointerException. */
  function ValidateItem(i: Item): (r: Outcome)
    ensures i.description.None? ==> r == Fail(Validation)
    ensures i.description.Some? && i.name.None? ==> r == Fail(Unhandled)
    ensures i.description.Some? && i.name.Some? && IsBlank(i.name.value) ==> r == Fail(Validation)
    ensures r.Fail? ==> r.error == Validation || (r.error == Unhandled && i.name.None?)
    ensures r == Pass <==> WellFormed(i)
  {
    if i.description.None? then Fail(Validation)
    else if i.name.None? then Fail(Unhandled)
    else if IsBlank(i.name.value) then Fail(Validation)
    else if i.available.None? then Fail(Validation)
    else Pass
  }

  /** A blank, even empty, description passes: only a null one is refused. */
  lemma BlankDescriptionAccepted(i: Item)
    requires i.description.Some? && IsBlank(i.description.value)
    requires i.name.Some? && !IsBlank(i.name.value) && i.available.Some?
    ensures ValidateItem(i) == Pass
  {
  }

  /** createItem: the caller must exist, the DTO must validate, and the new
      item belongs to the caller. */
  function CreateItem(users: seq<User>, dto: ItemDto, userId: int): (r: Result<Item>)
    ensures !HasUser(users, userId) ==> r == Err(NotFound)
    ensures HasUser(users, userId) ==> (r.Ok? <==> WellFormed(ToItem(dto, User(userId, None, None))))
    ensures r.Ok? ==> r.value.owner == Some(userId) && WellFormed(r.value)
    ensures r.Ok? ==> ToItemDto(r.value) == dto
  {
    var owner :- (if FindUser(users, userId).Some? then Ok(FindUser(users, userId).value) else Err(NotFound));
    var item := ToItem(dto, owner);
    :- ValidateItem(item);
    Ok(item.(owner := Some(owner.id)))
  }

  /** A patch value for a text field takes effect when non-null and non-blank. */
  predicate Overwrites(v: Option<string>) {
    v.Some? && !IsBlank(v.value)
  }

  /** The merge of getItemValid: description and name are replaced only by
      non-blank values, availability by any non-null value; everything else
      is the stored item's. */
  function Merge(stored: Item, patch: Item): (r: Item)
    ensures r.id == stored.id && r.owner == stored.owner && r.request == stored.request
    ensures Overwrites(patch.name) ==> r.name == patch.name
    ensures !Overwrites(patch.name) ==> r.name == stored.name
    ensures Overwrites(patch.description) ==> r.description == patch.description
    ensures !Overwrites(patch.description) ==> r.description == stored.description
    ensures patch.available.Some? ==> r.available == patch.available
    ensures patch.available.None? ==> r.available == stored.available
  {
    stored.(description := if Overwrites(patch.description) then patch.description else stored.description,
            name := if Overwrites(patch.name) then patch.name else stored.name,
            available := if patch.available.Some? then patch.available else stored.available)
  }

  /** A patch with no usable value changes nothing. */
  lemma EmptyPatchIsIdentity(stored: Item, patch: Item)
    requires !Overwrites(patch.description) && !Overwrites(patch.name) && patch.available.None?
    ensures Merge(stored, patch) == stored
  {
  }

  /** Applying the same patch twice is applying it once. */
  lemma MergeIdempotent(stored: Item, patch: Item)
    ensures Merge(Merge(stored, patch), patch) == Merge(stored, patch)
  {
  }

  /** A patch whose every field takes effect decides all three fields. */
  lemma FullPatchReplacesFields(stored: Item, patch: Item)
    requires Overwrites(patch.description) && Overwrites(patch.name) && patch.available.Some?
    ensures var r := Merge(stored, patch);
            r.description == patch.description && r.name == patch.name && r.available == patch.available
  {
  }

  /** Merging keeps a created item well formed, whatever the patch holds. */
  lemma MergePreservesWellFormed(stored: Item, patch: Item)
    requires WellFormed(stored)
    ensures WellFormed(Merge(stored, patch))
  {
  }

  /** getItemValid: look the item up, check the caller exists and owns it,
      then merge. A stored item without an owner fails with a
      NullPointerException. */
  function GetItemValid(users: seq<User>, items: seq<Item>, patch: Item, itemId: int, userId: int): (r: Result<Item>)
    ensures FindItem(items, itemId).None? ==> r == Err(NotFound)
    ensures FindItem(items, itemId).Some? && !HasUser(users, userId) ==> r == Err(NotFound)
    ensures r.Ok? ==> FindItem(items, itemId).Some? && FindItem(items, itemId).value.owner == Some(userId)
    ensures r.Ok? ==> r.value == Merge(FindItem(items, itemId).value, patch)
    ensures (FindItem(items, itemId).Some? && HasUser(users, userId) && FindItem(items, itemId).value.owner.Some?)
            ==> (r.Ok? <==> FindItem(items, itemId).value.owner == Some(userId))
  {
    var stored :- (if FindItem(items, itemId).Some? then Ok(FindItem(items, itemId).value) else Err(NotFound));
    :- Need(HasUser(users, userId), NotFound);
    :- Need(stored.owner.Some?, Unhandled);
    :- Need(stored.owner.value == userId, NotFound);
    Ok(Merge(stored, patch))
  }

  /** updateItem: the caller is looked up first, then getItemValid runs on
      the DTO mapped to an item. */
  function UpdateItem(users: seq<User>, items: seq<Item>, dto: ItemDto, itemId: int, userId: int): (r: Result<Item>)
    ensures !HasUser(users, userId) ==> r == Err(NotFound)
    ensures r.Ok? ==> FindItem(items, itemId).Some? && FindItem(items, itemId).value.owner == Some(userId)
    ensures r.Ok? ==> r.value.id == FindItem(items, itemId).value.id && r.value.request == FindItem(items, itemId).value.request
    ensures (HasUser(users, userId) && FindItem(items, itemId).Some? && FindItem(items, itemId).value.owner.Some?
             && FindItem(items, itemId).value.owner != Some(userId)) ==> r == Err(NotFound)
    ensures HasUser(users, userId) && FindItem(items, itemId).None? ==> r == Err(NotFound)
    ensures (HasUser(users, userId) && FindItem(items, itemId).Some?
             && FindItem(items, itemId).value.owner == Some(userId)) ==> r.Ok?
    ensures r.Ok? ==> r.value == Merge(FindItem(items, itemId).value, ToItem(dto, FindUser(users, userId).value))
    ensures HasUser(users, userId) ==> r == GetItemValid(users, items, ToItem(dto, FindUser(users, userId).value), itemId, userId)
  {
    var owner :- (if FindUser(users, userId).Some? then Ok(FindUser(users, userId).value) else Err(NotFound));
    GetItemValid(users, items, ToItem(dto, owner), itemId, userId)
  }

  /** The request a DTO names is ignored by an update. */
  lemma UpdateIgnoresRequestId(users: seq<User>, items: seq<Item>, dto: ItemDto, itemId: int, userId: int, requestId: Option<int>)
    ensures UpdateItem(users, items, dto, itemId, userId) == UpdateItem(users, items, dto.(requestId := requestId), itemId, userId)
  {
  }

  /** getItemByIdForBooking / getItemByIdWithoutDto. */
  function GetItemByIdForBooking(items: seq<Item>, itemId: int): (r: Result<Item>)
    ensures r.Err? <==> (forall i :: i in items ==> i.id != itemId)
    ensures r.Err? ==> r.error == NotFound
    ensures r.Ok? ==> r.value in items && r.value.id == itemId
  {
    match FindItem(items, itemId)
    case None => Err(NotFound)
    case Some(i) => Ok(i)
  }

  function CreatedOf(c: Comment): int { c.created }

  /** findByItem_IdOrderByCreatedDesc: the item's comments, newest first. */
  function CommentsOf(comments: seq<Comment>, itemId: int): (r: seq<Comment>)
    ensures forall c :: c in r <==> c in comments && c.item == itemId
    ensures SortedBy(r, CreatedOf, Descending)
  {
    SortBy(Filter(comments, (c: Comment) => c.item == itemId), CreatedOf, Descending)
  }

  /** The item's comments, each once per stored copy, and no other comment. */
  lemma CommentsOfSelectsExactly(comments: seq<Comment>, itemId: int)
    ensures Selects(CommentsOf(comments, itemId), comments, (c: Comment) => c.item == itemId)
  {
    SortedFilterSelects(comments, (c: Comment) => c.item == itemId, CreatedOf, Descending);
  }

  /** The view of one item: last and next bookings only for its owner. */
  function ItemView(bs: seq<Booking>, comments: seq<Comment>, item: Item, userId: int, now: int): (r: Result<ItemDtoWithBooking>)
    ensures item.owner.None? <==> r == Err(Unhandled)
    ensures r.Ok? && item.owner == Some(userId) ==>
              r.value.lastBooking == ToBookingShort(LastBooking(bs, item.id, now))
              && r.value.nextBooking == ToBookingShort(NextBooking(bs, item.id, now))
    ensures r.Ok? && item.owner != Some(userId) ==> r.value.lastBooking.None? && r.value.nextBooking.None?
    ensures r.Ok? ==> |r.value.comments| == |CommentsOf(comments, item.id)|
    ensures r.Ok? ==> forall k :: 0 <= k < |r.value.comments| ==>
              r.value.comments[k] == ToCommentView(CommentsOf(comments, item.id)[k])
    ensures r.Ok? ==> && r.value.id == item.id && r.value.name == item.name
                      && r.value.description == item.description && r.value.available == item.available
  {
    var cs := CommentsOf(comments, item.id);
    if item.owner.None? then Err(Unhandled)
    else if item.owner.value == userId then
      Ok(ToItemDtoWithBooking(cs, LastBooking(bs, item.id, now), NextBooking(bs, item.id, now), item))
    else
      Ok(ToItemDtoWithBooking(cs, None, None, item))
  }

  /** getItemById: the item, then the caller, must exist. */
  function GetItemById(users: seq<User>, items: seq<Item>, bs: seq<Booking>, comments: seq<Comment>,
                       itemId: int, userId: int, now: int): (r: Result<ItemDtoWithBooking>)
    ensures FindItem(items, itemId).None? ==> r == Err(NotFound)
    ensures FindItem(items, itemId).Some? && !HasUser(users, userId) ==> r == Err(NotFound)
    ensures r.Ok? ==> r.value.id == itemId
    ensures r.Ok? ==> var item := FindItem(items, itemId).value;
              && r.value.name == item.name && r.value.description == item.description && r.value.available == item.available
              && |r.value.comments| == |CommentsOf(comments, itemId)|
              && forall k :: 0 <= k < |r.value.comments| ==> r.value.comments[k] == ToCommentView(CommentsOf(comments, itemId)[k])
    ensures r.Ok? && FindItem(items, itemId).value.owner != Some(userId) ==>
              r.value.lastBooking.None? && r.value.nextBooking.None?
    ensures r.Ok? && r.value.lastBooking.Some? ==>
              exists b :: b in bs && b.item.id == itemId && b.end < now && b.id == r.value.lastBooking.value.id
    ensures r.Ok? && r.value.nextBooking.Some? ==>
              exists b :: b in bs && b.item.id == itemId && b.start > now && b.id == r.value.nextBooking.value.id
    ensures r.Ok? && FindItem(items, itemId).value.owner == Some(userId) ==>
              && r.value.lastBooking == ToBookingShort(LastBooking(bs, itemId, now))
              && r.value.nextBooking == ToBookingShort(NextBooking(bs, itemId, now))
    ensures FindItem(items, itemId).Some? && HasUser(users, userId) ==>
              r == ItemView(bs, comments, FindItem(items, itemId).value, userId, now)
              && (r.Ok? <==> FindItem(items, itemId).value.owner.Some?)
  {
    var item :- GetItemByIdForBooking(items, itemId);
    :- Need(HasUser(users, userId), NotFound);
    ItemView(bs, comments, item, userId, now)
  }

  /** Whatever bookings exist, a caller who is not the owner sees neither. */
  lemma NonOwnerSeesNoBookings(users: seq<User>, items: seq<Item>, bs1: seq<Booking>, bs2: seq<Booking>,
                               comments: seq<Comment>, itemId: int, userId: int, now: int)
    requires FindItem(items, itemId).Some? && FindItem(items, itemId).value.owner.Some?
    requires FindItem(items, itemId).value.owner != Some(userId)
    ensures GetItemById(users, items, bs1, comments, itemId, userId, now) == GetItemById(users, items, bs2, comments, itemId, userId, now)
  {
  }

  /** One item as its owner's listing shows it. */
  function OwnerView(bs: seq<Booking>, comments: seq<Comment>, item: Item, now: int): (r: ItemDtoWithBooking)
    ensures r.id == item.id
    ensures r.lastBooking == ToBookingShort(LastBooking(bs, item.id, now))
    ensures r.nextBooking == ToBookingShort(NextBooking(bs, item.id, now))
    ensures r.name == item.name && r.description == item.description && r.available == item.available
    ensures |r.comments| == |CommentsOf(comments, item.id)|
    ensures forall k :: 0 <= k < |r.comments| ==> r.comments[k] == ToCommentView(CommentsOf(comments, item.id)[k])
  {
    ToItemDtoWithBooking(CommentsOf(comments, item.id), LastBooking(bs, item.id, now), NextBooking(bs, item.id, now), item)
  }

  /** The owner's view of each item of `owned`, in order. */
  function OwnerViews(bs: seq<Booking>, comments: seq<Comment>, owned: seq<Item>, now: int): (r: seq<ItemDtoWithBooking>)
    ensures |r| == |owned|
    ensures forall k :: 0 <= k < |r| ==> r[k] == OwnerView(bs, comments, owned[k], now)
  {
    seq(|owned|, k requires 0 <= k < |owned| => OwnerView(bs, comments, owned[k], now))
  }

  /** retrieveAllItemByUserId: each of the caller's items, in the order
      of findByOwnerIdOrderByIdAsc, with its last and next bookings. */
  function RetrieveAllItemByUserId(items: seq<Item>, bs: seq<Booking>, comments: seq<Comment>,
                                   userId: int, now: int): (r: seq<ItemDtoWithBooking>)
    ensures |r| == |FindByOwnerIdOrderByIdAsc(items, userId)|
    ensures forall k :: 0 <= k < |r| ==> r[k].id == FindByOwnerIdOrderByIdAsc(items, userId)[k].id
    ensures forall k :: 0 <= k < |r| ==>
              && r[k].lastBooking == ToBookingShort(LastBooking(bs, r[k].id, now))
              && r[k].nextBooking == ToBookingShort(NextBooking(bs, r[k].id, now))
    ensures forall k :: 0 <= k < |r| ==> var it := FindByOwnerIdOrderByIdAsc(items, userId)[k];
              && r[k].name == it.name && r[k].description == it.description && r[k].available == it.available
              && |r[k].comments| == |CommentsOf(comments, it.id)|
              && forall j :: 0 <= j < |r[k].comments| ==> r[k].comments[j] == ToCommentView(CommentsOf(comments, it.id)[j])
  {
    OwnerViews(bs, comments, FindByOwnerIdOrderByIdAsc(items, userId), now)
  }

  /** The listing is in ascending id order. */
  lemma OwnerListingAscending(items: seq<Item>, bs: seq<Booking>, comments: seq<Comment>, userId: int, now: int)
    ensures var r := RetrieveAllItemByUserId(items, bs, comments, userId, now);
            forall i, j :: 0 <= i < j < |r| ==> r[i].id <= r[j].id
  {
    var owned := FindByOwnerIdOrderByIdAsc(items, userId);
    var r := RetrieveAllItemByUserId(items, bs, comments, userId, now);
    forall i, j | 0 <= i < j < |r| ensures r[i].id <= r[j].id {
      assert r[i].id == owned[i].id && r[j].id == owned[j].id;
      assert InOrder(Ascending, ItemId(owned[i]), ItemId(owned[j]));
    }
  }

  /** The user owns an item with this id. */
  ghost predicate OwnsItemWithId(items: seq<Item>, userId: int, id: int) {
    exists it :: it in items && it.owner == Some(userId) && it.id == id
  }

  /** Every entry of the listing is one of the caller's items. */
  lemma OwnerListingOnlyOwned(items: seq<Item>, bs: seq<Booking>, comments: seq<Comment>, userId: int, now: int)
    ensures var r := RetrieveAllItemByUserId(items, bs, comments, userId, now);
            forall k :: 0 <= k < |r| ==> OwnsItemWithId(items, userId, r[k].id)
  {
    var owned := FindByOwnerIdOrderByIdAsc(items, userId);
    var r := RetrieveAllItemByUserId(items, bs, comments, userId, now);
    forall k | 0 <= k < |r| ensures OwnsItemWithId(items, userId, r[k].id) {
      assert owned[k] in owned;
    }
  }

  /** Every item of the caller appears in the listing. */
  lemma OwnerListingComplete(items: seq<Item>, bs: seq<Booking>, comments: seq<Comment>, userId: int, now: int, it: Item)
    requires it in items && it.owner == Some(userId)
    ensures var r := RetrieveAllItemByUserId(items, bs, comments, userId, now);
            exists k :: 0 <= k < |r| && r[k].id == it.id
  {
    var owned := FindByOwnerIdOrderByIdAsc(items, userId);
    var r := RetrieveAllItemByUserId(items, bs, comments, userId, now);
    assert it in owned;
    var k :| 0 <= k < |owned| && owned[k] == it;
    assert r[k].id == it.id;
  }

  /** searchItemByKeyword: a blank keyword finds nothing; otherwise the
      matching available items as DTOs. */
  function SearchItemByKeyword(items: seq<Item>, keyword: string): (r: seq<ItemDto>)
    ensures IsBlank(keyword) ==> r == []
    ensures forall k :: 0 <= k < |r| ==>
              exists i :: i in items && i.available == Some(true) && MatchesKeyword(i, keyword) && r[k] == ToItemDto(i)
    ensures !IsBlank(keyword) ==>
              forall i :: i in items && i.available == Some(true) && MatchesKeyword(i, keyword) ==> ToItemDto(i) in r
    ensures !IsBlank(keyword) ==> var found := FindByKeyword(items, keyword);
              && |r| == |found|
              && forall k :: 0 <= k < |r| ==> r[k] == ToItemDto(found[k])
  {
    if IsBlank(keyword) || |keyword| == 0 then []
    else
      var found := FindByKeyword(items, keyword);
      var r := seq(|found|, k requires 0 <= k < |found| => ToItemDto(found[k]));
      assert forall k :: 0 <= k < |r| ==> found[k] in found && r[k] == ToItemDto(found[k]);
      assert forall i :: i in found ==> ToItemDto(i) in r by {
        forall i | i in found ensures ToItemDto(i) in r {
          var k :| 0 <= k < |found| && found[k] == i;
          assert r[k] == ToItemDto(i);
        }
      }
      r
  }

  /** addComment: the caller and the item must exist, the text must be
      non-blank (a null text fails with a NullPointerException), and
      `findByBooker_IdAndEndBefore` must find the caller's finished booking.
      That method is read as a single row: no row is a null (Validation), and
      more than one row makes Spring Data throw
      IncorrectResultSizeDataAccessException, which no handler maps. The
      comment is stamped with `now`. */
  function AddComment(users: seq<User>, items: seq<Item>, bs: seq<Booking>, itemId: int, userId: int,
                      dto: CommentDto, now: int): (r: Result<Comment>)
    ensures !HasUser(users, userId) ==> r == Err(NotFound)
    ensures HasUser(users, userId) && FindItem(items, itemId).None? ==> r == Err(NotFound)
    ensures HasUser(users, userId) && FindItem(items, itemId).Some? ==>
              && (dto.text.None? ==> r == Err(Unhandled))
              && (dto.text.Some? && IsBlank(dto.text.value) ==> r == Err(Validation))
              && (dto.text.Some? && !IsBlank(dto.text.value) ==>
                    && (r.Ok? <==> |BookerEndBefore(bs, userId, now)| == 1)
                    && (r == Err(Validation) <==> forall b :: b in bs && b.booker == userId ==> !(b.end < now))
                    && (r == Err(Unhandled) <==> |BookerEndBefore(bs, userId, now)| > 1))
    ensures r.Ok? ==> exists b :: b in bs && b.booker == userId && b.end < now
    ensures r.Ok? ==> r.value.created == now && r.value.item == itemId && r.value.author.id == userId
                      && r.value.text == dto.text && r.value.id == dto.id
  {
    var user :- (if FindUser(users, userId).Some? then Ok(FindUser(users, userId).value) else Err(NotFound));
    var item :- GetItemByIdForBooking(items, itemId);
    :- Need(dto.text.Some?, Unhandled);
    :- Need(!(|dto.text.value| == 0 || IsBlank(dto.text.value)), Validation);
    var finished := BookerEndBefore(bs, userId, now);
    EmptyIffNoMembers(finished);
    :- Need(|finished| <= 1, Unhandled);
    :- Need(|finished| == 1, Validation);
    assert finished[0] in finished;
    Ok(Comment(dto.id, dto.text, item.id, user, now))
  }

  /** Two finished bookings make the single-row lookup throw, so a
      caller who has borrowed twice cannot comment. */
  lemma TwoFinishedBookingsFailComment(users: seq<User>, items: seq<Item>, itemId: int, userId: int,
                                       b1: Booking, b2: Booking, dto: CommentDto, now: int)
    requires HasUser(users, userId) && FindItem(items, itemId).Some?
    requires dto.text.Some? && !IsBlank(dto.text.value)
    requires b1.booker == userId && b1.end < now && b2.booker == userId && b2.end < now
    ensures AddComment(users, items, [b1, b2], itemId, userId, dto, now) == Err(Unhandled)
  {
    QueriesSelectExactly([b1, b2], userId, 0, Waiting, now, now);
    var finished := BookerEndBefore([b1, b2], userId, now);
    assert multiset(finished)[b1] == multiset([b1, b2])[b1];
    if b1 == b2 {
      assert multiset(finished)[b1] == 2;
    } else {
      assert multiset(finished)[b2] == multiset([b1, b2])[b2];
      assert b1 in multiset(finished) && b2 in multiset(finished);
    }
    assert |finished| >= 2;
  }

  /** A finished booking of a different item is enough to comment. */
  lemma CommentNotRestrictedToItem(users: seq<User>, items: seq<Item>, itemId: int, userId: int, other: Booking, now: int)
    requires HasUser(users, userId) && FindItem(items, itemId).Some?
    requires other.booker == userId && other.end < now && other.item.id != itemId
    ensures AddComment(users, items, [other], itemId, userId, CommentDto(0, Some("text")), now).Ok?
  {
    assert !IsBlank("text") by { assert !IsWhitespace("text"[0]); }
    assert other in [other];
  }
}
