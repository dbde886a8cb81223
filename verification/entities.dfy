/** The persistent records of the application. References between entities
    are ids; a nullable column or field is an `Option`. Timestamps are
    integers on one clock. */
module Entities {
  import opened Wrappers
  import opened Sequences

  /** BookingStatus. */
  datatype BookingStatus = Waiting | Approved | Rejected | Canceled

  /** The listing filter a client asks for; the constructor names are the
      tokens `BookingState.valueOf` accepts. */
  datatype BookingState = ALL | CURRENT | PAST | FUTURE | WAITING | REJECTED

  /** A user: name and email may be null in the records the mappers build. */
  datatype User = User(id: int, name: Option<string>, email: Option<string>)

  /** An item: `owner` is the owner's user id, `request` the id of the
      sharing request the item answers. */
  datatype Item = Item(
    id: int,
    owner: Option<int>,
    name: Option<string>,
    description: Option<string>,
    available: Option<bool>,
    request: Option<int>)

  /** A booking of a copy of the item record, by the user `booker`, over the
      closed time range from `start` to `end`. */
  datatype Booking = Booking(
    id: int,
    start: int,
    end: int,
    item: Item,
    booker: int,
    status: BookingStatus)

  /** A sharing request posted by the user `requester`. */
  datatype ItemRequest = ItemRequest(
    id: int,
    description: Option<string>,
    requester: int,
    created: Option<int>)

  /** A comment on item `item` written by `author`. */
  datatype Comment = Comment(id: int, text: Option<string>, item: int, author: User, created: int)

  /** The booking's item belongs to `userId`. A null owner matches nobody, as
      in a SQL comparison. */
  predicate OwnedBy(b: Booking, userId: int) {
    b.item.owner == Some(userId)
  }

  function StartOf(b: Booking): int { b.start }
  function EndOf(b: Booking): int { b.end }
  function BookingId(b: Booking): int { b.id }
  function ItemId(i: Item): int { i.id }

  /** `findById` on each table. */
  function FindUser(users: seq<User>, userId: int): (r: Option<User>)
    ensures r.None? <==> forall u :: u in users ==> u.id != userId
    ensures r.Some? ==> r.value in users && r.value.id == userId
  {
    FindFirst(users, (u: User) => u.id == userId)
  }

  function FindItem(items: seq<Item>, itemId: int): (r: Option<Item>)
    ensures r.None? <==> forall i :: i in items ==> i.id != itemId
    ensures r.Some? ==> r.value in items && r.value.id == itemId
  {
    FindFirst(items, (i: Item) => i.id == itemId)
  }

  function FindBooking(bs: seq<Booking>, bookingId: int): (r: Option<Booking>)
    ensures r.None? <==> forall b :: b in bs ==> b.id != bookingId
    ensures r.Some? ==> r.value in bs && r.value.id == bookingId
  {
    FindFirst(bs, (b: Booking) => b.id == bookingId)
  }

  function FindRequest(requests: seq<ItemRequest>, requestId: int): (r: Option<ItemRequest>)
    ensures r.None? <==> forall q :: q in requests ==> q.id != requestId
    ensures r.Some? ==> r.value in requests && r.value.id == requestId
  {
    FindFirst(requests, (q: ItemRequest) => q.id == requestId)
  }

  /** The user exists in the table. */
  predicate HasUser(users: seq<User>, userId: int) {
    FindUser(users, userId).Some?
  }
}
