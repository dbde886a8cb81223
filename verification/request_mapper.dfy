/** ItemRequestMapper: the request record and its transfer object, which
    lists the answering items in a reduced form. */
module ItemRequestMapper {
  import opened Wrappers
  import opened Entities

  /** ItemRequestDto.Item. */
  datatype RequestItemView = RequestItemView(
    id: int,
    name: Option<string>,
    description: Option<string>,
    available: Option<bool>,
    requestId: int)

  datatype ItemRequestDto = ItemRequestDto(
    id: int,
    description: Option<string>,
    created: Option<int>,
    items: Option<seq<RequestItemView>>)

  /** toItemRequest: copies id, description and created; the requester is
      the given user. */
  function ToItemRequest(d: ItemRequestDto, user: User): (r: ItemRequest)
    ensures r.requester == user.id
  {
    ItemRequest(d.id, d.description, user.id, d.created)
  }

  /** One answering item; reading its request id needs a request. */
  function ToRequestItemView(i: Item): (r: RequestItemView)
    requires i.request.Some?
    ensures r.requestId == i.request.value && r.id == i.id
    ensures r.name == i.name && r.description == i.description && r.available == i.available
  {
    RequestItemView(i.id, i.name, i.description, i.available, i.request.value)
  }

  /** Some item in the list has no request. */
  predicate HasItemWithoutRequest(items: seq<Item>) {
    exists i :: i in items && i.request.None?
  }

  /** toItemRequestDto: a null item list stays null; otherwise every item is
      mapped in order, and an item without a request fails with a
      NullPointerException. */
  function ToItemRequestDto(q: ItemRequest, items: Option<seq<Item>>): (r: Result<ItemRequestDto>)
    ensures r.Err? <==> items.Some? && HasItemWithoutRequest(items.value)
    ensures r.Err? ==> r.error == Unhandled
    ensures r.Ok? ==> r.value.id == q.id && r.value.description == q.description && r.value.created == q.created
    ensures r.Ok? ==> (r.value.items.None? <==> items.None?)
    ensures r.Ok? && items.Some? ==>
              && |r.value.items.value| == |items.value|
              && forall k :: 0 <= k < |items.value| ==>
                   && r.value.items.value[k].id == items.value[k].id
                   && Some(r.value.items.value[k].requestId) == items.value[k].request
    ensures r.Ok? && items.Some? ==>
              forall k :: 0 <= k < |items.value| ==>
                items.value[k].request.Some? && r.value.items.value[k] == ToRequestItemView(items.value[k])
  {
    match items
    case None => Ok(ItemRequestDto(q.id, q.description, q.created, None))
    case Some(xs) =>
      if HasItemWithoutRequest(xs) then Err(Unhandled)
      else
        Ok(ItemRequestDto(q.id, q.description, q.created,
                          Some(seq(|xs|, k requires 0 <= k < |xs| => ToRequestItemView(xs[k])))))
  }

  /** Mapping a DTO to a request and back keeps id, description and created. */
  lemma RequestRoundTrip(d: ItemRequestDto, user: User)
    ensures ToItemRequestDto(ToItemRequest(d, user), None) == Ok(d.(items := None))
  {
  }

  /** Mapping a request to a DTO and back gives the request, for its own
      requester. */
  lemma RecordRoundTrip(q: ItemRequest, items: Option<seq<Item>>, user: User)
    requires user.id == q.requester && ToItemRequestDto(q, items).Ok?
    ensures ToItemRequest(ToItemRequestDto(q, items).value, user) == q
  {
  }
}
