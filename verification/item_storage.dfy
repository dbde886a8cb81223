/** InMemoryItemStorage: a `HashMap` from id to item and a counter holding
    the last id handed out. */
module ItemStorage {
  import opened Wrappers
  import opened Entities
  import opened Maps

  datatype ItemStore = ItemStore(items: map<int, Item>, lastId: int)

  const Empty := ItemStore(map[], 0)

  /** Every stored item sits under its own id, and no id is above the counter. */
  predicate Valid(st: ItemStore) {
    && st.lastId >= 0
    && forall k :: k in st.items ==> 1 <= k <= st.lastId && st.items[k].id == k
  }

  lemma EmptyValid()
    ensures Valid(Empty)
  {
  }

  datatype Saved = Saved(store: ItemStore, item: Item)

  /** save: the caller's id is replaced by the next counter value and the
      item is stored under it. */
  function Save(st: ItemStore, item: Item): (r: Saved)
    ensures r.item == item.(id := st.lastId + 1)
    ensures r.store.lastId == st.lastId + 1
    ensures r.store.items.Keys == st.items.Keys + {r.item.id}
    ensures r.store.items[r.item.id] == r.item
  {
    var id := st.lastId + 1;
    var stored := item.(id := id);
    Saved(ItemStore(st.items[id := stored], id), stored)
  }

  /** In a valid store the saved item gets a fresh id, every earlier item is
      kept, and the store stays valid. */
  lemma SaveIsFresh(st: ItemStore, item: Item)
    requires Valid(st)
    ensures var r := Save(st, item);
            && r.item.id !in st.items
            && (forall k :: k in st.items ==> r.store.items[k] == st.items[k])
            && Valid(r.store)
  {
  }

  /** updateItem: the item is put under its own id, which adds an entry when
      that id was not stored. */
  function UpdateItem(st: ItemStore, item: Item): (r: ItemStore)
    ensures r.items.Keys == st.items.Keys + {item.id}
    ensures r.items[item.id] == item
    ensures forall k :: k in st.items && k != item.id ==> r.items[k] == st.items[k]
    ensures r.lastId == st.lastId
  {
    st.(items := st.items[item.id := item])
  }

  /** Updating a stored id keeps the store valid. */
  lemma UpdateKeepsValid(st: ItemStore, item: Item)
    requires Valid(st) && item.id in st.items
    ensures Valid(UpdateItem(st, item))
  {
  }

  /** Nothing stops updateItem from writing an id the counter has not
      reached; the next save then overwrites that entry. */
  lemma UpdateAheadOfCounterIsOverwritten(st: ItemStore, item: Item, next: Item)
    requires Valid(st) && item.id == st.lastId + 1 && next.name != item.name
    ensures !Valid(UpdateItem(st, item))
    ensures Save(UpdateItem(st, item), next).store.items[item.id] != item
  {
  }

  /** getItemById. */
  function GetItemById(st: ItemStore, itemId: int): (r: Option<Item>)
    ensures r.None? <==> itemId !in st.items
    ensures r.Some? ==> r.value == st.items[itemId]
  {
    if itemId in st.items then Some(st.items[itemId]) else None
  }

  /** removeItemById: an absent id is NotFound; otherwise exactly that entry
      goes. */
  function RemoveItemById(st: ItemStore, itemId: int): (r: Result<ItemStore>)
    ensures r.Err? <==> itemId !in st.items
    ensures r.Err? ==> r.error == NotFound
    ensures r.Ok? ==> r.value.items.Keys == st.items.Keys - {itemId} && r.value.lastId == st.lastId
    ensures r.Ok? ==> forall k :: k in r.value.items ==> r.value.items[k] == st.items[k]
  {
    if GetItemById(st, itemId).None? then Err(NotFound)
    else Ok(st.(items := st.items - {itemId}))
  }

  /** Removing what was just saved leaves the earlier items, with the
      counter advanced: ids are never reused. */
  lemma SaveThenRemove(st: ItemStore, item: Item)
    requires Valid(st)
    ensures var s := Save(st, item);
            RemoveItemById(s.store, s.item.id) == Ok(st.(lastId := st.lastId + 1))
  {
    var s := Save(st, item);
    assert s.store.items - {s.item.id} == st.items;
  }

  /** After a removal the id is no longer found. */
  lemma RemoveThenGet(st: ItemStore, itemId: int)
    requires itemId in st.items
    ensures RemoveItemById(st, itemId).Ok?
    ensures GetItemById(RemoveItemById(st, itemId).value, itemId).None?
  {
  }

  /** retrieveAllUsers (so named in the source): every stored item, once. */
  function RetrieveAllUsers(st: ItemStore): (r: seq<Item>)
    ensures |r| == |st.items.Keys|
    ensures forall k :: k in st.items ==> st.items[k] in r
    ensures forall i :: 0 <= i < |r| ==> exists k :: k in st.items && st.items[k] == r[i]
  {
    ValuesByKey(st.items)
  }

  /** In a valid store each listed item is the one stored under its id. */
  lemma ListedItemsSitUnderTheirIds(st: ItemStore)
    requires Valid(st)
    ensures var r := RetrieveAllUsers(st);
            forall i :: 0 <= i < |r| ==> r[i] == st.items[r[i].id]
  {
    var r := RetrieveAllUsers(st);
    forall i | 0 <= i < |r| ensures r[i] == st.items[r[i].id] {
      var k :| k in st.items && st.items[k] == r[i];
    }
  }
}
