/** The single-tier revision of ItemRequestServiceImpl. Creation, lookup
    by id and validation are the same as in the server revision; the two
    listings differ: they fetch the items answering ANY of the listed
    requests once and attach that same combined list to every request. */
module ItemRequestServiceLegacy {
  import opened Wrappers
  import opened Entities
  import opened Sequences
  import opened Paging
  import opened ItemRepository
  import opened ItemRequestMapper
  import opened ItemRequestRepository
  import Server = ItemRequestService

  /** The reduced view of each item of a list, in order. */
  function SharedViews(shared: seq<Item>): (r: seq<RequestItemView>)
    requires forall k :: 0 <= k < |shared| ==> shared[k].request.Some?
    ensures |r| == |shared|
    ensures forall j :: 0 <= j < |shared| ==> r[j] == ToRequestItemView(shared[j])
  {
    seq(|shared|, j requires 0 <= j < |shared| => ToRequestItemView(shared[j]))
  }

  /** Every request of `qs` shown with the one shared item list. */
  function WithSharedItems(qs: seq<ItemRequest>, shared: seq<Item>): (r: seq<ItemRequestDto>)
    requires forall k :: 0 <= k < |shared| ==> shared[k].request.Some?
    ensures |r| == |qs|
    ensures forall k :: 0 <= k < |qs| ==> r[k].id == qs[k].id && r[k].created == qs[k].created
    ensures forall k :: 0 <= k < |qs| ==> r[k].description == qs[k].description
    ensures forall k :: 0 <= k < |qs| ==> r[k].items == Some(SharedViews(shared))
  {
    seq(|qs|, k requires 0 <= k < |qs| => ItemRequestDto(qs[k].id, qs[k].description, qs[k].created, Some(SharedViews(shared))))
  }

  /** The mapper gives the same entry as the shared-list display. */
  lemma WithSharedItemsIsMapper(qs: seq<ItemRequest>, shared: seq<Item>, k: int)
    requires forall j :: 0 <= j < |shared| ==> shared[j].request.Some?
    requires 0 <= k < |qs|
    ensures ToItemRequestDto(qs[k], Some(shared)) == Ok(WithSharedItems(qs, shared)[k])
  {
    assert !HasItemWithoutRequest(shared) by {
      forall i | i in shared ensures i.request.Some? {
        var j :| 0 <= j < |shared| && shared[j] == i;
      }
    }
  }

  /** getAllMyItemRequest: the caller must exist; their requests, oldest
      first, each with the items answering any of them. */
  function GetAllMyItemRequest(users: seq<User>, requests: seq<ItemRequest>, items: seq<Item>, userId: int): (r: Result<seq<ItemRequestDto>>)
    ensures r.Err? <==> !HasUser(users, userId)
    ensures r.Err? ==> r.error == NotFound
    ensures r.Ok? ==> var own := FindByRequesterIdOrderByCreatedAsc(requests, userId);
              && |r.value| == |own|
              && (forall k :: 0 <= k < |own| ==> r.value[k].id == own[k].id && r.value[k].created == own[k].created)
              && (forall k :: 0 <= k < |own| ==> r.value[k].description == own[k].description)
              && forall k :: 0 <= k < |own| ==> r.value[k].items == Some(SharedViews(FindItemsByListOfRequests(items, own)))
  {
    if !HasUser(users, userId) then Err(NotFound)
    else
      var own := FindByRequesterIdOrderByCreatedAsc(requests, userId);
      Ok(WithSharedItems(own, FindItemsByListOfRequests(items, own)))
  }

  /** Every item shown answers a request the caller posted. */
  lemma SharedListOnlyOwnRequests(users: seq<User>, requests: seq<ItemRequest>, items: seq<Item>, userId: int, k: int, v: RequestItemView)
    requires HasUser(users, userId)
    requires 0 <= k < |GetAllMyItemRequest(users, requests, items, userId).value|
    requires v in GetAllMyItemRequest(users, requests, items, userId).value[k].items.value
    ensures Server.PostedBy(requests, userId, v.requestId)
  {
    var own := FindByRequesterIdOrderByCreatedAsc(requests, userId);
    var shared := FindItemsByListOfRequests(items, own);
    var views := SharedViews(shared);
    var j :| 0 <= j < |views| && views[j] == v;
    assert shared[j] in shared;
    var q :| q in own && q.id == shared[j].request.value;
    assert q in requests && q.requester == userId;
  }

  /** findAll: the same guard and page as the server revision, each request
      with the items answering any request of the page. */
  function FindAll(requests: seq<ItemRequest>, items: seq<Item>, userId: int, from: int, size: int): (r: Result<seq<ItemRequestDto>>)
    ensures r.Err? <==> Server.BadWindow(from, size)
    ensures r.Err? ==> r.error == Validation
    ensures r.Ok? ==> var page := Page(FindByRequesterIdNot(requests, userId), WindowPage(from, size), size);
              && |r.value| == |page|
              && (forall k :: 0 <= k < |page| ==> r.value[k].id == page[k].id && r.value[k].created == page[k].created)
              && (forall k :: 0 <= k < |page| ==> r.value[k].description == page[k].description)
              && forall k :: 0 <= k < |page| ==> r.value[k].items == Some(SharedViews(FindItemsByListOfRequests(items, page)))
  {
    if Server.BadWindow(from, size) then Err(Validation)
    else
      var page := Page(FindByRequesterIdNot(requests, userId), WindowPage(from, size), size);
      Ok(WithSharedItems(page, FindItemsByListOfRequests(items, page)))
  }

  /** An item view of the shared list answers one of the listed requests. */
  lemma SharedViewAnswersListed(qs: seq<ItemRequest>, items: seq<Item>, v: RequestItemView)
    requires v in SharedViews(FindItemsByListOfRequests(items, qs))
    ensures exists j :: 0 <= j < |qs| && qs[j].id == v.requestId
  {
    var shared := FindItemsByListOfRequests(items, qs);
    var views := SharedViews(shared);
    var i :| 0 <= i < |views| && views[i] == v;
    assert shared[i] in shared;
    var q :| q in qs && q.id == shared[i].request.value;
    var j :| 0 <= j < |qs| && qs[j] == q;
  }

  /** Every item findAll shows answers one of the requests on the page. */
  lemma FindAllSharedListOnlyPage(requests: seq<ItemRequest>, items: seq<Item>, userId: int, from: int, size: int, k: int, v: RequestItemView)
    requires !Server.BadWindow(from, size)
    requires 0 <= k < |FindAll(requests, items, userId, from, size).value|
    requires v in FindAll(requests, items, userId, from, size).value[k].items.value
    ensures exists j :: 0 <= j < |FindAll(requests, items, userId, from, size).value|
                        && FindAll(requests, items, userId, from, size).value[j].id == v.requestId
  {
    var r := FindAll(requests, items, userId, from, size).value;
    var page := Page(FindByRequesterIdNot(requests, userId), WindowPage(from, size), size);
    SharedViewAnswersListed(page, items, v);
    var j :| 0 <= j < |page| && page[j].id == v.requestId;
    assert r[j].id == v.requestId;
  }

  /** Both revisions list the same requests in the same order. */
  lemma RevisionsListSameRequests(users: seq<User>, requests: seq<ItemRequest>, items: seq<Item>, userId: int, from: int, size: int)
    ensures GetAllMyItemRequest(users, requests, items, userId).Ok? <==> Server.GetAllMyItemRequest(users, requests, items, userId).Ok?
    ensures GetAllMyItemRequest(users, requests, items, userId).Ok? ==>
              var a := GetAllMyItemRequest(users, requests, items, userId).value;
              var b := Server.GetAllMyItemRequest(users, requests, items, userId).value;
              |a| == |b| && forall k :: 0 <= k < |a| ==> a[k].id == b[k].id
    ensures FindAll(requests, items, userId, from, size).Ok? <==> Server.FindAll(requests, items, userId, from, size).Ok?
    ensures FindAll(requests, items, userId, from, size).Ok? ==>
              var a := FindAll(requests, items, userId, from, size).value;
              var b := Server.FindAll(requests, items, userId, from, size).value;
              |a| == |b| && forall k :: 0 <= k < |a| ==> a[k].id == b[k].id
  {
  }

  /** Every item the server revision shows with a request is also in the
      combined list shown with it. */
  lemma SharedListCoversOwnItems(users: seq<User>, requests: seq<ItemRequest>, items: seq<Item>, userId: int, k: int, i: Item)
    requires HasUser(users, userId)
    requires 0 <= k < |FindByRequesterIdOrderByCreatedAsc(requests, userId)|
    requires i in items && i.request == Some(FindByRequesterIdOrderByCreatedAsc(requests, userId)[k].id)
    ensures ToRequestItemView(i) in GetAllMyItemRequest(users, requests, items, userId).value[k].items.value
  {
    var own := FindByRequesterIdOrderByCreatedAsc(requests, userId);
    var shared := FindItemsByListOfRequests(items, own);
    assert own[k] in own;
    assert i in shared;
    var j :| 0 <= j < |shared| && shared[j] == i;
    assert GetAllMyItemRequest(users, requests, items, userId).value[k].items.value[j] == ToRequestItemView(i);
  }

  /** The revisions differ: an item answering another of the caller's
      requests is shown with request `k` by the older revision and not by
      the server revision. */
  lemma RevisionsDifferOnItems(users: seq<User>, requests: seq<ItemRequest>, items: seq<Item>, userId: int, k: int, i: Item, other: ItemRequest)
    requires HasUser(users, userId)
    requires 0 <= k < |FindByRequesterIdOrderByCreatedAsc(requests, userId)|
    requires other in requests && other.requester == userId
    requires i in items && i.request == Some(other.id) && other.id != FindByRequesterIdOrderByCreatedAsc(requests, userId)[k].id
    ensures ToRequestItemView(i) in GetAllMyItemRequest(users, requests, items, userId).value[k].items.value
    ensures ToRequestItemView(i) !in Server.GetAllMyItemRequest(users, requests, items, userId).value[k].items.value
  {
    LegacyShowsItemOfAnyOwnRequest(users, requests, items, userId, k, i, other);
    ServerHidesItemOfOtherRequest(users, requests, items, userId, k, i);
  }

  /** The server revision shows, with each request, only its own items. */
  lemma ServerHidesItemOfOtherRequest(users: seq<User>, requests: seq<ItemRequest>, items: seq<Item>, userId: int, k: int, i: Item)
    requires HasUser(users, userId)
    requires 0 <= k < |FindByRequesterIdOrderByCreatedAsc(requests, userId)|
    requires i.request.Some? && i.request != Some(FindByRequesterIdOrderByCreatedAsc(requests, userId)[k].id)
    ensures ToRequestItemView(i) !in Server.GetAllMyItemRequest(users, requests, items, userId).value[k].items.value
  {
    var own := FindByRequesterIdOrderByCreatedAsc(requests, userId);
    var srv := Server.GetAllMyItemRequest(users, requests, items, userId);
    assert srv.value == Server.RetrieveRequestsForItems(items, own);
    Server.RetrievedEntryIsRequestView(items, own, k);
    Server.RequestViewOnlyOwn(items, own[k], i);
  }

  /** The older revision shows, with each request, the items answering any
      request of the caller. */
  lemma LegacyShowsItemOfAnyOwnRequest(users: seq<User>, requests: seq<ItemRequest>, items: seq<Item>, userId: int, k: int, i: Item, other: ItemRequest)
    requires HasUser(users, userId)
    requires 0 <= k < |FindByRequesterIdOrderByCreatedAsc(requests, userId)|
    requires other in requests && other.requester == userId
    requires i in items && i.request == Some(other.id)
    ensures ToRequestItemView(i) in GetAllMyItemRequest(users, requests, items, userId).value[k].items.value
  {
    var own := FindByRequesterIdOrderByCreatedAsc(requests, userId);
    var shared := FindItemsByListOfRequests(items, own);
    assert other in own;
    assert i in shared;
    var j :| 0 <= j < |shared| && shared[j] == i;
    assert GetAllMyItemRequest(users, requests, items, userId).value[k].items.value[j] == ToRequestItemView(i);
  }
}
