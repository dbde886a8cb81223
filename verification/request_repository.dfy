/** The ItemRequestRepository queries as filters over the request table, and
    the item queries the request services use. */
module ItemRequestRepository {
  import opened Wrappers
  import opened Entities
  import opened Sequences

  /** The ORDER BY key for `created`. Stored requests always carry one;
      a null would sort as the epoch. */
  function CreatedKey(q: ItemRequest): int {
    q.created.GetOr(0)
  }

  /** findByRequester_IdOrderByCreatedAsc: the caller's requests, oldest
      first. */
  function FindByRequesterIdOrderByCreatedAsc(requests: seq<ItemRequest>, userId: int): (r: seq<ItemRequest>)
    ensures forall q :: q in r <==> q in requests && q.requester == userId
    ensures SortedBy(r, CreatedKey, Ascending)
  {
    SortBy(Filter(requests, (q: ItemRequest) => q.requester == userId), CreatedKey, Ascending)
  }

  /** findByRequester_IdNot with the `Sort.by("created").descending()` both
      callers pass: everybody else's requests, newest first. */
  function FindByRequesterIdNot(requests: seq<ItemRequest>, userId: int): (r: seq<ItemRequest>)
    ensures forall q :: q in r <==> q in requests && q.requester != userId
    ensures SortedBy(r, CreatedKey, Descending)
  {
    SortBy(Filter(requests, (q: ItemRequest) => q.requester != userId), CreatedKey, Descending)
  }

  /** The item references one of the listed requests. */
  predicate AnswersOneOf(i: Item, requests: seq<ItemRequest>) {
    i.request.Some? && FindRequest(requests, i.request.value).Some?
  }

  /** findItemsByListOfRequests (`i.request in (:reqs)`): every item
      answering any of the requests, in storage order. */
  function FindItemsByListOfRequests(items: seq<Item>, requests: seq<ItemRequest>): (r: seq<Item>)
    ensures forall i :: i in r <==> i in items && i.request.Some? && exists q :: q in requests && q.id == i.request.value
    ensures forall k :: 0 <= k < |r| ==> r[k].request.Some?
  {
    Filter(items, (i: Item) => AnswersOneOf(i, requests))
  }

  /** The request queries return each selected row once per stored copy,
      and no other row. */
  lemma RequestQueriesSelectExactly(requests: seq<ItemRequest>, items: seq<Item>, userId: int, listed: seq<ItemRequest>)
    ensures Selects(FindByRequesterIdOrderByCreatedAsc(requests, userId), requests, (q: ItemRequest) => q.requester == userId)
    ensures Selects(FindByRequesterIdNot(requests, userId), requests, (q: ItemRequest) => q.requester != userId)
    ensures Selects(FindItemsByListOfRequests(items, listed), items, (i: Item) => AnswersOneOf(i, listed))
  {
    SortedFilterSelects(requests, (q: ItemRequest) => q.requester == userId, CreatedKey, Ascending);
    SortedFilterSelects(requests, (q: ItemRequest) => q.requester != userId, CreatedKey, Descending);
    FilterSelects(items, (i: Item) => AnswersOneOf(i, listed));
  }
}
