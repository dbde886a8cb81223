/** ItemMapper: conversions between the item record and its transfer
    objects. The item DTO carries `requestId`, as the mapper reads and writes
    it. */
module ItemMapper {
  import opened Wrappers
  import opened Entities

  datatype ItemDto = ItemDto(
    id: int,
    name: Option<string>,
    description: Option<string>,
    available: Option<bool>,
    requestId: Option<int>)

  /** ItemDtoWithBooking.Booking: a booking reduced to its id and booker. */
  datatype BookingShort = BookingShort(id: int, bookerId: int)

  /** ItemDtoWithBooking.Comment. */
  datatype CommentView = CommentView(id: int, text: Option<string>, authorName: Option<string>, created: int)

  datatype ItemDtoWithBooking = ItemDtoWithBooking(
    id: int,
    name: Option<string>,
    description: Option<string>,
    available: Option<bool>,
    lastBooking: Option<BookingShort>,
    nextBooking: Option<BookingShort>,
    comments: seq<CommentView>)

  /** toItem: copies the fields, references a request only when `requestId`
      is given, and never sets the owner (the user argument is unused). */
  function ToItem(d: ItemDto, user: User): (r: Item)
    ensures r.owner == None
    ensures r.request.Some? <==> d.requestId.Some?
  {
    Item(d.id, None, d.name, d.description, d.available, d.requestId)
  }

  /** toItemDto: `requestId` is null exactly when the item has no request. */
  function ToItemDto(i: Item): (r: ItemDto)
    ensures r.requestId.None? <==> i.request.None?
  {
    ItemDto(i.id, i.name, i.description, i.available, i.request)
  }

  /** Mapping a DTO to an item and back gives the DTO back. */
  lemma DtoRoundTrip(d: ItemDto, user: User)
    ensures ToItemDto(ToItem(d, user)) == d
  {
  }

  /** Mapping an item to a DTO and back loses only the owner. */
  lemma ItemRoundTrip(i: Item, user: User)
    ensures ToItem(ToItemDto(i), user) == i.(owner := None)
  {
  }

  /** The user passed to toItem has no influence on the result. */
  lemma ToItemIgnoresUser(d: ItemDto, u1: User, u2: User)
    ensures ToItem(d, u1) == ToItem(d, u2)
  {
  }

  /** A null booking maps to null; otherwise only id and booker id survive. */
  function ToBookingShort(b: Option<Booking>): (r: Option<BookingShort>)
    ensures r.None? <==> b.None?
    ensures r.Some? ==> r.value.id == b.value.id && r.value.bookerId == b.value.booker
  {
    match b
    case None => None
    case Some(x) => Some(BookingShort(x.id, x.booker))
  }

  /** A comment as shown with its item: the author's name replaces the author. */
  function ToCommentView(c: Comment): (r: CommentView)
    ensures r.authorName == c.author.name
    ensures r.id == c.id && r.text == c.text && r.created == c.created
  {
    CommentView(c.id, c.text, c.author.name, c.created)
  }

  /** toItemDtoWithBooking: the item's own fields, the two bookings reduced,
      and the comments mapped one for one in order. */
  function ToItemDtoWithBooking(comments: seq<Comment>, last: Option<Booking>, next: Option<Booking>, item: Item): (r: ItemDtoWithBooking)
    ensures |r.comments| == |comments|
    ensures forall k :: 0 <= k < |comments| ==>
              && r.comments[k].id == comments[k].id && r.comments[k].text == comments[k].text
              && r.comments[k].authorName == comments[k].author.name && r.comments[k].created == comments[k].created
    ensures r.lastBooking == ToBookingShort(last) && r.nextBooking == ToBookingShort(next)
    ensures forall k :: 0 <= k < |comments| ==> r.comments[k] == ToCommentView(comments[k])
    ensures r.id == item.id && r.name == item.name && r.description == item.description && r.available == item.available
  {
    ItemDtoWithBooking(item.id, item.name, item.description, item.available,
                       ToBookingShort(last), ToBookingShort(next),
                       seq(|comments|, k requires 0 <= k < |comments| => ToCommentView(comments[k])))
  }

  /** The item part of toItemDtoWithBooking agrees with toItemDto. */
  lemma WithBookingAgreesWithItemDto(comments: seq<Comment>, last: Option<Booking>, next: Option<Booking>, item: Item)
    ensures var r := ToItemDtoWithBooking(comments, last, next, item);
            var d := ToItemDto(item);
            r.id == d.id && r.name == d.name && r.description == d.description && r.available == d.available
  {
  }
}
