/** The item queries of the server tier's ItemRepository as filters over the
    item table in storage order. */
module ItemRepository {
  import opened Wrappers
  import opened Entities
  import opened Sequences
  import opened Text

  /** `lower(col) like lower(concat('%', :keyword, '%'))` on the name or the
      description; a null column matches nothing. */
  predicate MatchesKeyword(i: Item, keyword: string) {
    || (i.name.Some? && Contains(Lower(i.name.value), Lower(keyword)))
    || (i.description.Some? && Contains(Lower(i.description.value), Lower(keyword)))
  }

  /** `findByOwnerIdOrderByIdAsc`: the owner's items, lowest id first. */
  function FindByOwnerIdOrderByIdAsc(items: seq<Item>, ownerId: int): (r: seq<Item>)
    ensures forall i :: i in r <==> i in items && i.owner == Some(ownerId)
    ensures SortedBy(r, ItemId, Ascending)
  {
    SortBy(Filter(items, (i: Item) => i.owner == Some(ownerId)), ItemId, Ascending)
  }

  /** `findByKeyword`: available items whose name or description contains
      the keyword, ignoring ASCII case; no ORDER BY. */
  function FindByKeyword(items: seq<Item>, keyword: string): (r: seq<Item>)
    ensures forall i :: i in r <==> i in items && i.available == Some(true) && MatchesKeyword(i, keyword)
    ensures forall k :: 0 <= k < |r| ==> r[k].available == Some(true)
  {
    Filter(items, (i: Item) => i.available == Some(true) && MatchesKeyword(i, keyword))
  }

  /** `findByRequest_Id(id, Sort.by("id").descending())`, the only way the
      services call it: the items answering the request, highest id first. */
  function FindByRequestId(items: seq<Item>, requestId: int): (r: seq<Item>)
    ensures forall i :: i in r <==> i in items && i.request == Some(requestId)
    ensures SortedBy(r, ItemId, Descending)
  {
    SortBy(Filter(items, (i: Item) => i.request == Some(requestId)), ItemId, Descending)
  }

  /** The item queries return each selected item once per stored copy,
      and no other item. */
  lemma ItemQueriesSelectExactly(items: seq<Item>, ownerId: int, keyword: string, requestId: int)
    ensures Selects(FindByOwnerIdOrderByIdAsc(items, ownerId), items, (i: Item) => i.owner == Some(ownerId))
    ensures Selects(FindByKeyword(items, keyword), items, (i: Item) => i.available == Some(true) && MatchesKeyword(i, keyword))
    ensures Selects(FindByRequestId(items, requestId), items, (i: Item) => i.request == Some(requestId))
  {
    SortedFilterSelects(items, (i: Item) => i.owner == Some(ownerId), ItemId, Ascending);
    FilterSelects(items, (i: Item) => i.available == Some(true) && MatchesKeyword(i, keyword));
    SortedFilterSelects(items, (i: Item) => i.request == Some(requestId), ItemId, Descending);
  }

  lemma LowerCharIdempotent(c: char)
    ensures LowerChar(LowerChar(c)) == LowerChar(c)
  {
  }

  /** Lower-casing twice is lower-casing once. */
  lemma LowerIdempotent(s: string)
    ensures Lower(Lower(s)) == Lower(s)
  {
    forall k | 0 <= k < |s| ensures Lower(Lower(s))[k] == Lower(s)[k] {
      LowerCharIdempotent(s[k]);
    }
  }

  /** The match ignores the keyword's case. */
  lemma KeywordCaseIgnored(i: Item, keyword: string)
    ensures MatchesKeyword(i, Lower(keyword)) == MatchesKeyword(i, keyword)
  {
    LowerIdempotent(keyword);
  }

  /** The lower-cased keyword occurs in the lower-cased name or description. */
  ghost predicate KeywordOccurs(i: Item, keyword: string) {
    || (i.name.Some? && exists k :: OccursAt(Lower(i.name.value), Lower(keyword), k))
    || (i.description.Some? && exists k :: OccursAt(Lower(i.description.value), Lower(keyword), k))
  }

  /** An item is found exactly when it is available and the keyword occurs
      in it as a substring, ignoring ASCII case. */
  lemma KeywordMatchIsSubstring(items: seq<Item>, keyword: string, i: Item)
    ensures i in FindByKeyword(items, keyword) <==>
              i in items && i.available == Some(true) && KeywordOccurs(i, keyword)
  {
    if i.name.Some? {
      ContainsIsSubstring(Lower(i.name.value), Lower(keyword));
    }
    if i.description.Some? {
      ContainsIsSubstring(Lower(i.description.value), Lower(keyword));
    }
    assert MatchesKeyword(i, keyword) <==> KeywordOccurs(i, keyword);
  }

  /** The empty keyword matches every available item that has a description. */
  lemma EmptyKeywordMatchesAllAvailable(items: seq<Item>, i: Item)
    requires i in items && i.available == Some(true) && i.description.Some?
    ensures i in FindByKeyword(items, "")
  {
    EmptyNeedleOccurs(Lower(i.description.value));
  }
}
