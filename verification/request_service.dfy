/** ItemRequestServiceImpl of the server tier: posting a request, listing
    one's own and others' requests, and reading one, each request shown with
    the items that answer it. */
module ItemRequestService {
  import opened Wrappers
  import opened Entities
  import opened Sequences
  import opened Text
  import opened Paging
  import opened ItemRepository
  import opened ItemRequestMapper
  import opened ItemRequestRepository

  /** validate: the description must be non-null and non-blank. */
  function ValidateRequest(q: ItemRequest): (r: Outcome)
    ensures r == Pass <==> q.description.Some? && !IsBlank(q.description.value)
    ensures r.Fail? ==> r.error == Validation
  {
    if q.description.None? || IsBlank(q.description.value) then Fail(Validation) else Pass
  }

  /** createItemRequest: the caller must exist and the description must
      validate; the request is stamped with `now` and returned without an
      item list. */
  function CreateItemRequest(users: seq<User>, userId: int, dto: ItemRequestDto, now: int): (r: Result<ItemRequestDto>)
    ensures !HasUser(users, userId) ==> r == Err(NotFound)
    ensures HasUser(users, userId) ==> (r.Ok? <==> dto.description.Some? && !IsBlank(dto.description.value))
    ensures r.Err? ==> r.error in {NotFound, Validation}
    ensures r.Ok? ==> r.value == dto.(created := Some(now), items := None)
  {
    var user :- (match FindUser(users, userId)
                 case None => Err(NotFound)
                 case Some(u) => Ok(u));
    var q := ToItemRequest(dto, user);
    :- ValidateRequest(q);
    ToItemRequestDto(q.(created := Some(now)), None)
  }

  /** The request shown with its own answering items, highest id first. */
  function RequestView(items: seq<Item>, q: ItemRequest): (r: ItemRequestDto)
    ensures r.id == q.id && r.created == q.created && r.description == q.description
    ensures r.items.Some?
    ensures |r.items.value| == |FindByRequestId(items, q.id)|
    ensures forall e :: e in r.items.value ==> e.requestId == q.id
    ensures forall a, b :: 0 <= a < b < |r.items.value| ==> r.items.value[a].id >= r.items.value[b].id
    ensures forall k :: 0 <= k < |r.items.value| ==> r.items.value[k] == ToRequestItemView(FindByRequestId(items, q.id)[k])
  {
    var own := FindByRequestId(items, q.id);
    assert !HasItemWithoutRequest(own);
    var r := ToItemRequestDto(q, Some(own)).value;
    assert forall a, b :: 0 <= a < b < |own| ==> InOrder(Descending, ItemId(own[a]), ItemId(own[b]));
    assert forall e :: e in r.items.value ==> e.requestId == q.id by {
      forall e | e in r.items.value ensures e.requestId == q.id {
        var k :| 0 <= k < |r.items.value| && r.items.value[k] == e;
        assert own[k] in own;
      }
    }
    r
  }

  /** Every item answering the request is listed with it. */
  lemma RequestViewComplete(items: seq<Item>, q: ItemRequest, i: Item)
    requires i in items && i.request == Some(q.id)
    ensures exists e :: e in RequestView(items, q).items.value && e.id == i.id
  {
    var own := FindByRequestId(items, q.id);
    var k :| 0 <= k < |own| && own[k] == i;
    assert RequestView(items, q).items.value[k].id == i.id;
  }

  /** An item answering another request is not shown with this one. */
  lemma RequestViewOnlyOwn(items: seq<Item>, q: ItemRequest, i: Item)
    requires i.request.Some? && i.request != Some(q.id)
    ensures ToRequestItemView(i) !in RequestView(items, q).items.value
  {
  }

  /** retrieveRequestsForItems: one view per request, in the given order. */
  function RetrieveRequestsForItems(items: seq<Item>, qs: seq<ItemRequest>): (r: seq<ItemRequestDto>)
    ensures |r| == |qs|
    ensures forall k :: 0 <= k < |qs| ==> r[k].id == qs[k].id && r[k].created == qs[k].created && r[k].items.Some?
  {
    if |qs| == 0 then []
    else
      var head := RequestView(items, qs[0]);
      var tail := RetrieveRequestsForItems(items, qs[1..]);
      assert forall k :: 1 <= k < |qs| ==> ([head] + tail)[k] == tail[k - 1];
      [head] + tail
  }

  /** Each entry is the request's own view. */
  lemma {:induction false} RetrievedEntryIsRequestView(items: seq<Item>, qs: seq<ItemRequest>, k: int)
    requires 0 <= k < |qs|
    ensures RetrieveRequestsForItems(items, qs)[k] == RequestView(items, qs[k])
  {
    var r := RetrieveRequestsForItems(items, qs);
    if k > 0 {
      RetrievedEntryIsRequestView(items, qs[1..], k - 1);
      assert qs[1..][k - 1] == qs[k];
      assert r[k] == RetrieveRequestsForItems(items, qs[1..])[k - 1];
    }
  }

  /** getAllMyItemRequest: the caller must exist; then each of their
      requests, in the order findByRequester_IdOrderByCreatedAsc gives. */
  function GetAllMyItemRequest(users: seq<User>, requests: seq<ItemRequest>, items: seq<Item>, userId: int): (r: Result<seq<ItemRequestDto>>)
    ensures r.Err? <==> !HasUser(users, userId)
    ensures r.Err? ==> r.error == NotFound
    ensures r.Ok? ==> r.value == RetrieveRequestsForItems(items, FindByRequesterIdOrderByCreatedAsc(requests, userId))
  {
    if !HasUser(users, userId) then Err(NotFound)
    else Ok(RetrieveRequestsForItems(items, FindByRequesterIdOrderByCreatedAsc(requests, userId)))
  }

  /** A request of this id was posted by the user. */
  ghost predicate PostedBy(requests: seq<ItemRequest>, userId: int, id: int) {
    exists q :: q in requests && q.requester == userId && q.id == id
  }

  /** A request of this id was posted by someone other than the user. */
  ghost predicate PostedByOther(requests: seq<ItemRequest>, userId: int, id: int) {
    exists q :: q in requests && q.requester != userId && q.id == id
  }

  /** The listing holds only the caller's requests. */
  lemma MyRequestsOnlyMine(users: seq<User>, requests: seq<ItemRequest>, items: seq<Item>, userId: int)
    requires HasUser(users, userId)
    ensures var r := GetAllMyItemRequest(users, requests, items, userId).value;
            forall k :: 0 <= k < |r| ==> PostedBy(requests, userId, r[k].id)
  {
    var own := FindByRequesterIdOrderByCreatedAsc(requests, userId);
    var r := GetAllMyItemRequest(users, requests, items, userId).value;
    forall k | 0 <= k < |r| ensures PostedBy(requests, userId, r[k].id) {
      assert own[k] in own;
    }
  }

  /** Every request of the caller is listed. */
  lemma MyRequestsAllListed(users: seq<User>, requests: seq<ItemRequest>, items: seq<Item>, userId: int, q: ItemRequest)
    requires HasUser(users, userId) && q in requests && q.requester == userId
    ensures var r := GetAllMyItemRequest(users, requests, items, userId).value;
            exists k :: 0 <= k < |r| && r[k].id == q.id
  {
    var own := FindByRequesterIdOrderByCreatedAsc(requests, userId);
    var r := GetAllMyItemRequest(users, requests, items, userId).value;
    assert q in own;
    var k :| 0 <= k < |own| && own[k] == q;
    assert r[k].id == q.id;
  }

  /** The caller's requests come oldest first. */
  lemma MyRequestsOldestFirst(users: seq<User>, requests: seq<ItemRequest>, items: seq<Item>, userId: int)
    requires HasUser(users, userId)
    ensures var r := GetAllMyItemRequest(users, requests, items, userId).value;
            forall a, b :: 0 <= a < b < |r| ==> r[a].created.GetOr(0) <= r[b].created.GetOr(0)
  {
    var own := FindByRequesterIdOrderByCreatedAsc(requests, userId);
    var r := GetAllMyItemRequest(users, requests, items, userId).value;
    forall a, b | 0 <= a < b < |r| ensures r[a].created.GetOr(0) <= r[b].created.GetOr(0) {
      assert InOrder(Ascending, CreatedKey(own[a]), CreatedKey(own[b]));
    }
  }

  /** The paging guard shared by both revisions of findAll. */
  predicate BadWindow(from: int, size: int) {
    size <= 0 || from < 0
  }

  /** findAll: a negative `from` or a non-positive `size` is refused; the
      page `from / size` of everybody else's requests, newest first. The
      caller is not looked up. */
  function FindAll(requests: seq<ItemRequest>, items: seq<Item>, userId: int, from: int, size: int): (r: Result<seq<ItemRequestDto>>)
    ensures r.Err? <==> BadWindow(from, size)
    ensures r.Err? ==> r.error == Validation
    ensures r.Ok? ==> r.value == RetrieveRequestsForItems(items, Page(FindByRequesterIdNot(requests, userId), WindowPage(from, size), size))
  {
    if BadWindow(from, size) then Err(Validation)
    else
      Ok(RetrieveRequestsForItems(items, Page(FindByRequesterIdNot(requests, userId), WindowPage(from, size), size)))
  }

  /** findAll never shows the caller's own requests. */
  lemma FindAllExcludesCaller(requests: seq<ItemRequest>, items: seq<Item>, userId: int, from: int, size: int)
    requires !BadWindow(from, size)
    ensures var r := FindAll(requests, items, userId, from, size).value;
            forall k :: 0 <= k < |r| ==> PostedByOther(requests, userId, r[k].id)
  {
    var all := FindByRequesterIdNot(requests, userId);
    var page := Page(all, WindowPage(from, size), size);
    var r := FindAll(requests, items, userId, from, size).value;
    forall k | 0 <= k < |r| ensures PostedByOther(requests, userId, r[k].id) {
      assert page[k] in all by { PageIsSubset(all, WindowPage(from, size), size); assert page[k] in page; }
    }
  }

  /** findAll shows at most `size` requests, the newest first. */
  lemma FindAllNewestFirst(requests: seq<ItemRequest>, items: seq<Item>, userId: int, from: int, size: int)
    requires !BadWindow(from, size)
    ensures var r := FindAll(requests, items, userId, from, size).value;
            && |r| <= size
            && forall a, b :: 0 <= a < b < |r| ==> r[a].created.GetOr(0) >= r[b].created.GetOr(0)
  {
    var all := FindByRequesterIdNot(requests, userId);
    var page := Page(all, WindowPage(from, size), size);
    PageKeepsOrder(all, WindowPage(from, size), size, CreatedKey, Descending);
    var r := FindAll(requests, items, userId, from, size).value;
    forall a, b | 0 <= a < b < |r| ensures r[a].created.GetOr(0) >= r[b].created.GetOr(0) {
      assert InOrder(Descending, CreatedKey(page[a]), CreatedKey(page[b]));
    }
  }

  /** With `from` below `size` the first page is read. */
  lemma FindAllFirstWindow(requests: seq<ItemRequest>, items: seq<Item>, userId: int, from: int, size: int)
    requires 0 <= from < size
    ensures FindAll(requests, items, userId, from, size)
            == Ok(RetrieveRequestsForItems(items, Page(FindByRequesterIdNot(requests, userId), 0, size)))
  {
  }

  /** getItemRequestById: the caller, then the request, must exist. */
  function GetItemRequestById(users: seq<User>, requests: seq<ItemRequest>, items: seq<Item>, userId: int, requestId: int): (r: Result<ItemRequestDto>)
    ensures !HasUser(users, userId) ==> r == Err(NotFound)
    ensures HasUser(users, userId) && FindRequest(requests, requestId).None? ==> r == Err(NotFound)
    ensures r.Ok? <==> HasUser(users, userId) && FindRequest(requests, requestId).Some?
    ensures r.Ok? ==> r.value.id == requestId && r.value.items.Some?
    ensures r.Ok? ==> forall e :: e in r.value.items.value ==> e.requestId == requestId
    ensures r.Ok? ==> |r.value.items.value| == |FindByRequestId(items, requestId)|
    ensures r.Ok? ==> && r.value.description == FindRequest(requests, requestId).value.description
                      && r.value.created == FindRequest(requests, requestId).value.created
    ensures r.Ok? ==> r.value == RequestView(items, FindRequest(requests, requestId).value)
  {
    if !HasUser(users, userId) then Err(NotFound)
    else match FindRequest(requests, requestId)
    case None => Err(NotFound)
    case Some(q) => Ok(RequestView(items, q))
  }
}
