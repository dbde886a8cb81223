# ShareIt service core in Dafny

ShareIt is a small item-sharing service. Users list items, others book them
for a time range, owners approve or reject bookings, bookers comment on what
they borrowed, and users post requests for items nobody offers yet. This
project models the rules of its service layer as pure functions over
immutable records and proves what those rules promise.

The model covers:

- **bookings.** The server-tier `BookingServiceImpl` is in `booking_service.dfy`. The earlier revision of that service is in `booking_service_legacy.dfy`. The derived and JPQL queries of `BookingRepository` are in `booking_repository.dfy`.
- **items.** `ItemServiceImpl` is in `item_service.dfy`. The queries of the server `ItemRepository` are in `item_repository.dfy`. `ItemMapper` is in `item_mapper.dfy`. The in-memory `InMemoryItemStorage` is in `item_storage.dfy`.
- **users.** `InMemoryUserStorage` is in `user_storage.dfy`. `UserServiceImpl` is in `user_service.dfy`.
- **item requests.** The server-tier `ItemRequestServiceImpl` is in `request_service.dfy`. The earlier revision, which shares one item list among all requests, is in `request_service_legacy.dfy`. `ItemRequestMapper` and the request queries are in `request_mapper.dfy` and `request_repository.dfy`.
- **shared pieces.** The entities are in `entities.dfy`. The `from`/`size` page arithmetic is in `paging.dfy`. Generic filter, first-match and stable sort over sequences are in `sequences.dfy`. The listing of a map's values is in `maps.dfy`. The `String` operations (`isBlank`, ASCII lower-casing, substring search) are in `text.dfy`.

Conventions of the model:

- **Time.** Time is an integer. The service's `LocalDateTime.now()` becomes a parameter `now`.
- **Tables.** The JPA tables (users, items, bookings, requests, comments) are sequences in storage order. A query is a filter over such a sequence. A query with `ORDER BY` sorts its rows with a stable sort. A query without one keeps storage order.
- **In-memory stores.** The two in-memory stores are a `map<int, _>` plus an id counter, and the user store also has an email set.
- **Nulls.** A field that the code tests for null is an `Option`.
- **Errors.** Operations return `Result`, or `Outcome` for pure checks. The error kinds are `NotFound`, `Validation` and `Conflict`, which are the three exceptions `ErrorHandler` maps to HTTP 404, 400 and 409. A fourth kind, `Unhandled`, stands for an exception no handler maps. Such an exception reaches the client as HTTP 500. The code raises one in these cases:
  - a `NullPointerException` on a null field, such as an item with a null owner or a null availability flag;
  - an `ArithmeticException` from `from / size` with `size == 0`;
  - an `IllegalArgumentException` from `PageRequest.of` with a negative page or a size below one.
- **Writes.** JPA-backed services return the entity they would save. The in-memory stores return the new store.

## Model

| member | source | states |
|---|---|---|
| BookingRepository.TimeBucketsPartition | src/main/java/ru/practicum/shareit/booking/BookingRepository.java:26-36 | for a booking whose start is not after its end, `now` is in exactly one of the past (end < now), current (start ≤ now ≤ end) and future (start > now) buckets |
| BookingRepository.InvertedBookingIsPastAndFuture | src/main/java/ru/practicum/shareit/booking/BookingRepository.java:26-36 | without start ≤ end the buckets overlap: any booking with end < now < start is both past and future, and not current |
| BookingRepository.OwnerAll | src/main/java/ru/practicum/shareit/booking/BookingRepository.java:14 | exactly the bookings of items the owner owns, latest start first |
| BookingRepository.BookerAll | src/main/java/ru/practicum/shareit/booking/BookingRepository.java:16 | exactly the bookings made by the booker, latest start first |
| BookingRepository.LastBooking | src/main/java/ru/practicum/shareit/booking/BookingRepository.java:18 | none iff no booking of the item ended before `t`; otherwise a booking of the item that ended before `t` with the greatest end among them |
| BookingRepository.NextBooking | src/main/java/ru/practicum/shareit/booking/BookingRepository.java:20 | none iff no booking of the item starts after `t`; otherwise a booking of the item starting after `t` with the least start among them |
| BookingRepository.BookerWithStatus | src/main/java/ru/practicum/shareit/booking/BookingRepository.java:22 | exactly the booker's bookings with the given status |
| BookingRepository.OwnerWithStatus | src/main/java/ru/practicum/shareit/booking/BookingRepository.java:24 | exactly the owner's bookings with the given status |
| BookingRepository.BookerPast | src/main/java/ru/practicum/shareit/booking/BookingRepository.java:26-29 | exactly the booker's APPROVED bookings that ended before `now`, latest start first |
| BookingRepository.BookerCurrent | src/main/java/ru/practicum/shareit/booking/BookingRepository.java:31-33 | exactly the booker's bookings whose range holds `now`, of any status, latest start first |
| BookingRepository.BookerFuture | src/main/java/ru/practicum/shareit/booking/BookingRepository.java:35-36 | exactly the booker's bookings starting after `now`, latest start first |
| BookingRepository.OwnerFuture | src/main/java/ru/practicum/shareit/booking/BookingRepository.java:41-43 | exactly the owner's bookings starting after `now`, latest start first |
| BookingRepository.OwnerCurrent | src/main/java/ru/practicum/shareit/booking/BookingRepository.java:45-47 | exactly the owner's bookings whose range holds `now`, latest start first |
| BookingRepository.OwnerPast | src/main/java/ru/practicum/shareit/booking/BookingRepository.java:49-50 | exactly the owner's bookings that ended before `now`, of any status |
| BookingRepository.OwnerBucketsPartition | src/main/java/ru/practicum/shareit/booking/BookingRepository.java:41-50 | an owner's booking with start ≤ end is listed by exactly one of the owner's PAST, CURRENT and FUTURE queries |
| BookingRepository.PastListingsDifferOnStatus | src/main/java/ru/practicum/shareit/booking/BookingRepository.java:26-29 | any finished booking that is not APPROVED is in its owner's PAST listing but not in its booker's |
| BookingRepository.BookerEndBefore | src/main/java/ru/practicum/shareit/booking/service/BookingServiceImpl.java:125 | exactly the booker's bookings that ended before `t`, of any status |
| BookingRepository.QueriesSelectExactly | src/main/java/ru/practicum/shareit/booking/BookingRepository.java:14-50 | each listing query returns every booking it selects as many times as the table holds it, and no other booking |
| BookingService.Validate | server/src/main/java/ru/practicum/shareit/booking/service/BookingServiceImpl.java:200-217 | the five checks in order, first failure wins: unavailable → Validation, own item → NotFound, start after end → Validation, start before now → Validation; passes iff the item is available and owned by another user and now ≤ start ≤ end |
| BookingService.EndInPastCheckNeverFires | server/src/main/java/ru/practicum/shareit/booking/service/BookingServiceImpl.java:208-216 | once the third and fourth checks pass, the fifth ("end in the past") cannot fail |
| BookingService.EmptyRangeAccepted | server/src/main/java/ru/practicum/shareit/booking/service/BookingServiceImpl.java:208-210 | a booking with start == end that starts no earlier than now passes validation |
| BookingService.CreateBooking | server/src/main/java/ru/practicum/shareit/booking/service/BookingServiceImpl.java:37-51 | unknown booker, then unknown item, are NotFound; success iff the booking the request describes is acceptable; a failure carries the error kind of `validate`: booking one's own available item is NotFound, a bad range on another's item is Validation; the result is WAITING, has the request's id and range, the caller as booker and the requested item |
| BookingService.CreateIgnoresRequestedStatus | server/src/main/java/ru/practicum/shareit/booking/service/BookingServiceImpl.java:44-47 | the status carried by the request never changes the outcome |
| BookingService.ValidateForUpdating | server/src/main/java/ru/practicum/shareit/booking/service/BookingServiceImpl.java:219-229 | non-owner → NotFound; repeating the booking's decision → Validation; passes iff the caller owns the item and the decision is not a repeat |
| BookingService.SetApprovedStatus | server/src/main/java/ru/practicum/shareit/booking/service/BookingServiceImpl.java:231-237 | the status is APPROVED iff approved, REJECTED otherwise; every other field is unchanged |
| BookingService.UpdateBooking | server/src/main/java/ru/practicum/shareit/booking/service/BookingServiceImpl.java:53-62 | missing booking → NotFound before any other check; a caller who does not own the item → NotFound; repeating the booking's decision → Validation; success iff the caller owns the item and does not repeat the decision; only the status changes, to APPROVED iff approved |
| BookingService.DecisionCanBeFlipped | server/src/main/java/ru/practicum/shareit/booking/service/BookingServiceImpl.java:223-228 | in any table, the owner of a booking's item can turn an APPROVED booking into a REJECTED one and back |
| BookingService.RepeatedDecisionFails | server/src/main/java/ru/practicum/shareit/booking/service/BookingServiceImpl.java:223-228 | after a successful decision, taking the same decision again fails with Validation |
| BookingService.CheckAccess | server/src/main/java/ru/practicum/shareit/booking/service/BookingServiceImpl.java:70-74 | passes iff the caller is the booker or the item's owner; otherwise NotFound |
| BookingService.GetBookingById | server/src/main/java/ru/practicum/shareit/booking/service/BookingServiceImpl.java:64-82 | missing booking, then missing user, are NotFound; returns the stored booking iff it exists, the user exists and the user is its booker or its item's owner |
| BookingService.GetStateByStr | server/src/main/java/ru/practicum/shareit/booking/service/BookingServiceImpl.java:90-104 | null gives ALL; an accepted token is the name of the state returned; any failure is Validation |
| BookingService.StateNameRoundTrip | server/src/main/java/ru/practicum/shareit/booking/service/BookingServiceImpl.java:90-104 | parsing a state's name gives that state back |
| BookingService.StateTokenAcceptedIffName | server/src/main/java/ru/practicum/shareit/booking/service/BookingServiceImpl.java:96-100 | a token is accepted iff it is the name of some state |
| BookingService.StateTokenIsCaseSensitive | server/src/main/java/ru/practicum/shareit/booking/service/BookingServiceImpl.java:96-100 | "all" and "Past" are rejected with Validation |
| BookingService.BookerQuery | server/src/main/java/ru/practicum/shareit/booking/service/BookingServiceImpl.java:113-132 | exactly the booker's bookings that the state selects (PAST means ended and APPROVED); latest start first except for WAITING and REJECTED |
| BookingService.OwnerQuery | server/src/main/java/ru/practicum/shareit/booking/service/BookingServiceImpl.java:147-166 | exactly the owner's bookings that the state selects (PAST has no status condition); latest start first for ALL, CURRENT and FUTURE |
| BookingService.GetAllBookingByUser | server/src/main/java/ru/practicum/shareit/booking/service/BookingServiceImpl.java:106-138 | an invalid page (size ≤ 0 or from ≤ −size) is Unhandled; ALL with an unknown user is NotFound; otherwise the result is page from / size of the booker's query for the state: at most `size` bookings, each one the state selects, latest start first unless the state filters by status |
| BookingService.GetAllBookingByOwner | server/src/main/java/ru/practicum/shareit/booking/service/BookingServiceImpl.java:140-172 | succeeds iff size > 0 and from > −size, else Unhandled; the result is page from / size of the owner's query: at most `size` bookings, each one the state selects, latest start first for ALL, CURRENT and FUTURE |
| BookingService.BookerListingReachesEveryRow | server/src/main/java/ru/practicum/shareit/booking/service/BookingServiceImpl.java:106-138 | paging loses nothing: every booking the booker's state selects is on the page some `from ≥ 0` reads |
| BookingService.OwnerListingReachesEveryRow | server/src/main/java/ru/practicum/shareit/booking/service/BookingServiceImpl.java:140-172 | every booking the owner's state selects is on the page some `from ≥ 0` reads |
| BookingService.ShortBookerListingIsWholeQuery | server/src/main/java/ru/practicum/shareit/booking/service/BookingServiceImpl.java:106-138 | with 0 ≤ from < size and a query no longer than `size`, the listing is the whole query |
| BookingService.GetAllBookingByOwnerId | server/src/main/java/ru/practicum/shareit/booking/service/BookingServiceImpl.java:174-184 | unknown user, or an owner with no booking at all, is NotFound; otherwise the owner listing |
| BookingService.GetAllBookingByUserId | server/src/main/java/ru/practicum/shareit/booking/service/BookingServiceImpl.java:186-198 | unknown user → NotFound; invalid page → Unhandled; NotFound iff the requested page of the booker's whole list (start descending) is empty; otherwise exactly getAllBookingByUser's successful listing |
| BookingService.EmptinessCheckedBeforeOrAfterPaging | server/src/main/java/ru/practicum/shareit/booking/service/BookingServiceImpl.java:179-196 | for a user who owns no booked item and size 0, the owner listing answers NotFound (unpaged check first) and the booker listing fails on the division (Unhandled) |
| BookingService.PageBeyondBookerListIsNotFound | server/src/main/java/ru/practicum/shareit/booking/service/BookingServiceImpl.java:179-196 | when the window starts at or past the end of the booker's bookings, the booker listing is NotFound whatever the state |
| BookingService.PageBeyondOwnerListIsEmpty | server/src/main/java/ru/practicum/shareit/booking/service/BookingServiceImpl.java:174-184 | an owner with some booking whose window starts past the end of the state's query gets an empty page, not NotFound |
| Paging.JavaDiv | server/src/main/java/ru/practicum/shareit/booking/service/BookingServiceImpl.java:111 | the quotient truncates toward zero: non-negative for non-negative operands, 0 for −b < a < 0, negative for a ≤ −b |
| Paging.PageIndex | server/src/main/java/ru/practicum/shareit/booking/service/BookingServiceImpl.java:111 | `PageRequest.of(from / size, size)` succeeds iff size > 0 and from > −size; its index is from / size, or 0 for a small negative `from` |
| Paging.Page | server/src/main/java/ru/practicum/shareit/booking/service/BookingServiceImpl.java:111 | the page holds rows page·size onward of the list, up to `size` of them |
| Paging.WindowPage | server/src/main/java/ru/practicum/shareit/request/service/ItemRequestServiceImpl.java:64-68 | for from ≥ 0 the page index from / size is the page whose rows include row `from`; below `size` it is page 0 |
| Paging.RowOnItsPage | server/src/main/java/ru/practicum/shareit/booking/service/BookingServiceImpl.java:111 | row i of a list is on the page that `from = i` reads |
| Paging.PageIsSubset | server/src/main/java/ru/practicum/shareit/booking/service/BookingServiceImpl.java:111 | every row on a page is a row of the list |
| Paging.PageStartsAtRoundedFrom | server/src/main/java/ru/practicum/shareit/booking/service/BookingServiceImpl.java:111 | for from ≥ 0 the page starts at `from` rounded down to a multiple of `size` |
| Paging.NegativeFromReadsFirstPage | server/src/main/java/ru/practicum/shareit/booking/service/BookingServiceImpl.java:111 | a `from` between −size and 0 reads the first page |
| Paging.FirstPageIsWholeShortList | server/src/main/java/ru/practicum/shareit/booking/service/BookingServiceImpl.java:192 | the first page of a list no longer than `size` is the whole list |
| Paging.PageKeepsOrder | server/src/main/java/ru/practicum/shareit/request/service/ItemRequestServiceImpl.java:67-68 | a page of an ordered list keeps the order |
| BookingServiceLegacy.CreateBooking | src/main/java/ru/practicum/shareit/booking/service/BookingServiceImpl.java:45-56 | unknown booker or item → NotFound; a created booking is WAITING, belongs to the caller and is acceptable |
| BookingServiceLegacy.CreateAgreesWithServer | src/main/java/ru/practicum/shareit/booking/service/BookingServiceImpl.java:45-56 | creation and its five ordered checks (lines 148-166) agree with the server revision on every input |
| BookingServiceLegacy.UpdateBooking | src/main/java/ru/practicum/shareit/booking/service/BookingServiceImpl.java:58-83 | missing booking → NotFound, then missing caller → NotFound; otherwise the server revision's owner and repeat rules decide and only the status changes |
| BookingServiceLegacy.UpdateDiffersOnlyOnMissingCaller | src/main/java/ru/practicum/shareit/booking/service/BookingServiceImpl.java:58-83 | with an existing caller the revisions decide alike; with an unknown caller who owns the item this one answers NotFound where the server revision succeeds |
| BookingServiceLegacy.GetBookingById | src/main/java/ru/practicum/shareit/booking/service/BookingServiceImpl.java:85-97 | returns the booking iff it exists, the user exists and the user is its booker or its item's owner |
| BookingServiceLegacy.BookerByIdDesc | src/main/java/ru/practicum/shareit/booking/service/BookingServiceImpl.java:119 | exactly the booker's bookings, highest id first |
| BookingServiceLegacy.BookerStartAfterEndBefore | src/main/java/ru/practicum/shareit/booking/service/BookingServiceImpl.java:122 | exactly the booker's bookings that start after one instant and end before another |
| BookingServiceLegacy.BookerStartAfter | src/main/java/ru/practicum/shareit/booking/service/BookingServiceImpl.java:128 | exactly the booker's bookings starting after `t` |
| BookingServiceLegacy.LegacyQueriesSelectExactly | src/main/java/ru/practicum/shareit/booking/service/BookingServiceImpl.java:119-128 | the id-ordered and the two time-bounded booker queries return every booking they select as many times as the table holds it, and no other |
| BookingServiceLegacy.GetAllBookingByUserId | src/main/java/ru/practicum/shareit/booking/service/BookingServiceImpl.java:99-136 | unknown user → NotFound; succeeds iff the token parses; lists exactly the booker's bookings that this revision's switch selects; ALL highest id first |
| BookingServiceLegacy.CurrentNeverMatches | src/main/java/ru/practicum/shareit/booking/service/BookingServiceImpl.java:121-122 | CURRENT (start > now and end < now) lists nothing when every booking has start ≤ end |
| BookingServiceLegacy.CurrentRevisionsDiffer | src/main/java/ru/practicum/shareit/booking/service/BookingServiceImpl.java:121-122 | a booking in progress is listed as CURRENT by the server query and not by this revision |
| BookingServiceLegacy.RejectedListsNothing | src/main/java/ru/practicum/shareit/booking/service/BookingServiceImpl.java:117-133 | REJECTED parses but has no case, so the listing is empty |
| BookingServiceLegacy.EmptyListingRevisionsDiffer | src/main/java/ru/practicum/shareit/booking/service/BookingServiceImpl.java:99-136 | a booker without bookings gets an empty list here and NotFound from the server revision |
| BookingServiceLegacy.GetAllBookingForOwner | src/main/java/ru/practicum/shareit/booking/service/BookingServiceImpl.java:138-146 | unknown user → NotFound; otherwise exactly the caller's bookings as booker, highest id first |
| BookingServiceLegacy.OwnerListingIgnoresState | src/main/java/ru/practicum/shareit/booking/service/BookingServiceImpl.java:138-146 | the result does not depend on the state token, valid or not |
| BookingServiceLegacy.OwnerListingMissesOwnedItems | src/main/java/ru/practicum/shareit/booking/service/BookingServiceImpl.java:138-146 | for any table and any state token, a booking of the caller's item made by another user is not listed |
| ItemRepository.FindByOwnerIdOrderByIdAsc | server/src/main/java/ru/practicum/shareit/item/ItemRepository.java:14 | exactly the owner's items, ascending id |
| ItemRepository.FindByKeyword | server/src/main/java/ru/practicum/shareit/item/ItemRepository.java:16-19 | exactly the available items whose lower-cased name or description contains the lower-cased keyword |
| ItemRepository.FindByRequestId | server/src/main/java/ru/practicum/shareit/item/ItemRepository.java:21 | exactly the items answering the request, descending id (the sort every caller passes) |
| ItemRepository.ItemQueriesSelectExactly | server/src/main/java/ru/practicum/shareit/item/ItemRepository.java:14-21 | the owner, keyword and request queries return every item they select as many times as the table holds it, and no other |
| ItemRepository.LowerIdempotent | server/src/main/java/ru/practicum/shareit/item/ItemRepository.java:17-18 | lower-casing twice is lower-casing once |
| ItemRepository.KeywordCaseIgnored | server/src/main/java/ru/practicum/shareit/item/ItemRepository.java:17-18 | a keyword and its lower-cased form match the same items |
| ItemRepository.KeywordMatchIsSubstring | server/src/main/java/ru/practicum/shareit/item/ItemRepository.java:16-19 | an item is found iff it is stored, available, and the lower-cased keyword occurs at some index of its lower-cased name or description |
| ItemRepository.EmptyKeywordMatchesAllAvailable | server/src/main/java/ru/practicum/shareit/item/ItemRepository.java:17-18 | the empty keyword matches every available item with a description |
| ItemMapper.ToItem | src/main/java/ru/practicum/shareit/item/ItemMapper.java:16-29 | no owner is set; a request is set iff the DTO has a request id |
| ItemMapper.ToItemDto | src/main/java/ru/practicum/shareit/item/ItemMapper.java:32-41 | the request id is null iff the item has no request |
| ItemMapper.DtoRoundTrip | src/main/java/ru/practicum/shareit/item/ItemMapper.java:16-41 | DTO → item → DTO gives the DTO back |
| ItemMapper.ItemRoundTrip | src/main/java/ru/practicum/shareit/item/ItemMapper.java:16-41 | item → DTO → item gives the item back without its owner |
| ItemMapper.ToItemIgnoresUser | src/main/java/ru/practicum/shareit/item/ItemMapper.java:16-29 | the user argument does not affect the item |
| ItemMapper.ToBookingShort | src/main/java/ru/practicum/shareit/item/ItemMapper.java:56-70 | null maps to null; otherwise the booking's id and booker id |
| ItemMapper.ToCommentView | src/main/java/ru/practicum/shareit/item/ItemMapper.java:46-54 | id, text and creation time are copied, and the author name is the comment author's name |
| ItemMapper.ToItemDtoWithBooking | src/main/java/ru/practicum/shareit/item/ItemMapper.java:43-81 | the item's id, name, description and availability; comment k is the view of comment k; last and next bookings map through the short form |
| ItemMapper.WithBookingAgreesWithItemDto | src/main/java/ru/practicum/shareit/item/ItemMapper.java:72-80 | id, name, description and availability equal those of the plain item DTO |
| ItemService.ValidateItem | src/main/java/ru/practicum/shareit/item/service/ItemServiceImpl.java:151-162 | null description → Validation, then null name → Unhandled, blank name → Validation, null availability → Validation; passes iff well formed |
| ItemService.BlankDescriptionAccepted | src/main/java/ru/practicum/shareit/item/service/ItemServiceImpl.java:151-154 | any blank (even empty) description passes when the name is non-blank and availability is set: only a null description is refused |
| ItemService.CreateItem | src/main/java/ru/practicum/shareit/item/service/ItemServiceImpl.java:44-53 | unknown user → NotFound; succeeds iff the mapped item is well formed; the item is owned by the caller and maps back to the DTO |
| ItemService.Merge | src/main/java/ru/practicum/shareit/item/service/ItemServiceImpl.java:171-182 | id, owner and request are kept; the name changes to the patch's iff the patch name is non-null and non-blank, likewise the description; availability changes iff the patch's is non-null |
| ItemService.EmptyPatchIsIdentity | src/main/java/ru/practicum/shareit/item/service/ItemServiceImpl.java:171-182 | a patch of nulls and blanks leaves the item unchanged |
| ItemService.MergeIdempotent | src/main/java/ru/practicum/shareit/item/service/ItemServiceImpl.java:171-182 | applying the same patch twice equals applying it once |
| ItemService.FullPatchReplacesFields | src/main/java/ru/practicum/shareit/item/service/ItemServiceImpl.java:171-182 | a patch with non-blank name and description and an availability replaces all three |
| ItemService.MergePreservesWellFormed | src/main/java/ru/practicum/shareit/item/service/ItemServiceImpl.java:171-182 | merging into a well-formed item gives a well-formed item |
| ItemService.GetItemValid | src/main/java/ru/practicum/shareit/item/service/ItemServiceImpl.java:164-183 | missing item, then missing user, are NotFound; a non-owner gets NotFound; success only for the owner, giving the merge of the stored item and the patch |
| ItemService.UpdateItem | src/main/java/ru/practicum/shareit/item/service/ItemServiceImpl.java:55-64 | unknown user → NotFound first, then a missing item or a non-owner → NotFound; the owner's update succeeds and is the stored item merged with the mapped DTO |
| ItemService.UpdateIgnoresRequestId | src/main/java/ru/practicum/shareit/item/service/ItemServiceImpl.java:55-64 | the request id in the patch has no effect |
| ItemService.GetItemByIdForBooking | src/main/java/ru/practicum/shareit/item/service/ItemServiceImpl.java:83-94 | NotFound iff no item has the id; otherwise the stored item with that id |
| ItemService.CommentsOf | src/main/java/ru/practicum/shareit/item/service/ItemServiceImpl.java:147-149 | exactly the item's comments, newest first |
| ItemService.CommentsOfSelectsExactly | src/main/java/ru/practicum/shareit/item/service/ItemServiceImpl.java:147-149 | the item's comments, each as often as stored, and no other comment |
| ItemService.ItemView | src/main/java/ru/practicum/shareit/item/service/ItemServiceImpl.java:73-80 | an ownerless item is Unhandled; otherwise the item's id, name, description and availability, with comment k the view of the item's k-th comment, newest first; the owner sees the last and next bookings; anyone else sees neither |
| ItemService.GetItemById | src/main/java/ru/practicum/shareit/item/service/ItemServiceImpl.java:66-81 | missing item, then missing user, are NotFound; otherwise the item's view: Unhandled iff the item has no owner; the stored item's fields and the view of each of its comments, newest first; the owner sees the latest finished and the earliest future booking, anyone else neither |
| ItemService.NonOwnerSeesNoBookings | src/main/java/ru/practicum/shareit/item/service/ItemServiceImpl.java:78-80 | for a non-owner the answer does not depend on the booking table |
| ItemService.OwnerView | src/main/java/ru/practicum/shareit/item/service/ItemServiceImpl.java:101-107 | the item's id, name, description and availability, the view of each of its comments newest first, and its last and next bookings relative to `now` |
| ItemService.OwnerViews | src/main/java/ru/practicum/shareit/item/service/ItemServiceImpl.java:99-110 | one owner view per item, in the same order |
| ItemService.RetrieveAllItemByUserId | src/main/java/ru/practicum/shareit/item/service/ItemServiceImpl.java:97-111 | one entry per owned item in ascending id order, each with that item's fields, the views of its comments and its last and next bookings |
| ItemService.OwnerListingAscending | src/main/java/ru/practicum/shareit/item/service/ItemServiceImpl.java:99 | the listing's ids ascend |
| ItemService.OwnerListingOnlyOwned | src/main/java/ru/practicum/shareit/item/service/ItemServiceImpl.java:99 | every listed id is the id of an item the caller owns |
| ItemService.OwnerListingComplete | src/main/java/ru/practicum/shareit/item/service/ItemServiceImpl.java:99 | every item the caller owns is listed |
| ItemService.SearchItemByKeyword | src/main/java/ru/practicum/shareit/item/service/ItemServiceImpl.java:113-122 | a blank keyword gives nothing; otherwise entry k is the DTO of the k-th `findByKeyword` row, so every result is an available matching item and every available matching item is a result |
| ItemService.AddComment | src/main/java/ru/practicum/shareit/item/service/ItemServiceImpl.java:124-145 | unknown user, then unknown item, are NotFound; null text is Unhandled, blank text Validation; then no finished booking of the caller → Validation, more than one → Unhandled (the single-row query throws), exactly one → a comment on the item by the caller, stamped `now` |
| ItemService.TwoFinishedBookingsFailComment | src/main/java/ru/practicum/shareit/item/service/ItemServiceImpl.java:133-134 | a caller with two finished bookings cannot comment: the single-row lookup throws |
| ItemService.CommentNotRestrictedToItem | src/main/java/ru/practicum/shareit/item/service/ItemServiceImpl.java:133-137 | a finished booking of a different item is enough to comment |
| ItemStorage.EmptyValid | src/main/java/ru/practicum/shareit/item/InMemoryItemStorage.java:18-26 | the empty store keeps every id under the counter, stored under itself |
| ItemStorage.Save | src/main/java/ru/practicum/shareit/item/InMemoryItemStorage.java:18-26 | the item gets id counter+1 whatever id it carried; it is stored under that id and no other key changes |
| ItemStorage.SaveIsFresh | src/main/java/ru/practicum/shareit/item/InMemoryItemStorage.java:18-26 | in a valid store the new id was not yet a key, and the store stays valid |
| ItemStorage.UpdateItem | src/main/java/ru/practicum/shareit/item/InMemoryItemStorage.java:28-31 | the entry at the item's id is replaced and the other entries and the counter are unchanged |
| ItemStorage.UpdateKeepsValid | src/main/java/ru/practicum/shareit/item/InMemoryItemStorage.java:28-31 | updating an existing item keeps the store valid |
| ItemStorage.UpdateAheadOfCounterIsOverwritten | src/main/java/ru/practicum/shareit/item/InMemoryItemStorage.java:18-31 | updating under the next free id breaks validity, and the next save overwrites that entry |
| ItemStorage.GetItemById | src/main/java/ru/practicum/shareit/item/InMemoryItemStorage.java:33-35 | none iff the id is not a key; otherwise the stored entry |
| ItemStorage.RemoveItemById | src/main/java/ru/practicum/shareit/item/InMemoryItemStorage.java:37-41 | NotFound iff the id is absent; otherwise exactly that key is removed and the rest is unchanged |
| ItemStorage.SaveThenRemove | src/main/java/ru/practicum/shareit/item/InMemoryItemStorage.java:22-41 | removing a just-saved item gives back the original entries with the counter still advanced, so ids are never reused |
| ItemStorage.RemoveThenGet | src/main/java/ru/practicum/shareit/item/InMemoryItemStorage.java:33-41 | after removing an id it is no longer found |
| ItemStorage.RetrieveAllUsers | src/main/java/ru/practicum/shareit/item/InMemoryItemStorage.java:42-44 | one entry per key, every stored item listed, nothing else |
| ItemStorage.ListedItemsSitUnderTheirIds | src/main/java/ru/practicum/shareit/item/InMemoryItemStorage.java:42-44 | in a valid store each listed item is stored under its own id |
| UserStorage.CreateUser | src/main/java/ru/practicum/shareit/user/InMemoryUserStorage.java:20-29 | the user gets id counter+1, is stored under it, and its email joins the email set |
| UserStorage.CreateIsFresh | src/main/java/ru/practicum/shareit/user/InMemoryUserStorage.java:20-29 | in a valid store the new id was not a key, and the store stays valid |
| UserStorage.UpdateUser | src/main/java/ru/practicum/shareit/user/InMemoryUserStorage.java:31-34 | only the entry at the id changes; the email set and counter are untouched |
| UserStorage.GetUserById | src/main/java/ru/practicum/shareit/user/InMemoryUserStorage.java:36-38 | none iff the id is absent; otherwise the stored user |
| UserStorage.RetrieveAllUsers | src/main/java/ru/practicum/shareit/user/InMemoryUserStorage.java:44-46 | one entry per key, every stored user listed, nothing else |
| UserStorage.RemoveById | src/main/java/ru/practicum/shareit/user/InMemoryUserStorage.java:47-52 | NotFound iff absent; otherwise that user and their email are removed and other entries are unchanged |
| UserStorage.CreateThenRemove | src/main/java/ru/practicum/shareit/user/InMemoryUserStorage.java:24-52 | removing a just-created user with a new email restores the users and the email set; the counter stays advanced |
| UserService.EmptyInv | src/main/java/ru/practicum/shareit/user/service/UserServiceImpl.java:27-38 | the empty store satisfies the invariant: the email set is exactly the users' emails, and emails are unique |
| UserService.ValidateUser | src/main/java/ru/practicum/shareit/user/service/UserServiceImpl.java:71-78 | null email → Validation, then null name → Unhandled; passes iff the email is set and the name is non-empty |
| UserService.CreateUser | src/main/java/ru/practicum/shareit/user/service/UserServiceImpl.java:27-38 | a registered email is Conflict before any field check; otherwise succeeds iff the fields validate, with id counter+1 |
| UserService.CreateKeepsInv | src/main/java/ru/practicum/shareit/user/service/UserServiceImpl.java:27-38 | creation keeps the email set equal to the users' emails and emails unique |
| UserService.MergeUser | src/main/java/ru/practicum/shareit/user/service/UserServiceImpl.java:80-99 | the id is kept; name and email change only to a non-null, non-blank value |
| UserService.UpdateUser | src/main/java/ru/practicum/shareit/user/service/UserServiceImpl.java:40-46 | missing id → NotFound; a new email already in the set → Conflict; no other error, so an existing user without a clashing email is updated to the merge; on success the old email leaves the set and the new one is not added |
| UserService.UpdateUserFixed | src/main/java/ru/practicum/shareit/user/service/UserServiceImpl.java:87-97 | as UpdateUser (NotFound or Conflict are the only errors), but the new email joins the set |
| UserService.FixedDiffersOnlyInEmailSet | src/main/java/ru/practicum/shareit/user/service/UserServiceImpl.java:94-96 | both updates succeed on the same inputs and store the same users; only the email set differs |
| UserService.UpdateLosesNewEmail | src/main/java/ru/practicum/shareit/user/service/UserServiceImpl.java:94-96 | after an email change, the user's new email is not in the set |
| UserService.DuplicateEmailAfterUpdate | src/main/java/ru/practicum/shareit/user/service/UserServiceImpl.java:94-96 | after Ann changes "a@x" to "b@x", Bob can register "b@x": two users share an email |
| UserService.FixedRejectsDuplicate | src/main/java/ru/practicum/shareit/user/service/UserServiceImpl.java:30-32 | with the corrected update, the same second registration is Conflict |
| UserService.OwnEmailIsConflict | src/main/java/ru/practicum/shareit/user/service/UserServiceImpl.java:90-92 | re-submitting one's own current email is Conflict |
| UserService.UpdateFixedKeepsInv | src/main/java/ru/practicum/shareit/user/service/UserServiceImpl.java:87-97 | the corrected update keeps the email set equal to the users' emails and emails unique |
| UserService.RemoveUserById | src/main/java/ru/practicum/shareit/user/service/UserServiceImpl.java:48-51 | NotFound iff absent; otherwise the user and their email are gone, every other user is unchanged, the email set loses exactly that email and the id counter is kept |
| UserService.RemoveKeepsInv | src/main/java/ru/practicum/shareit/user/service/UserServiceImpl.java:48-51 | removal keeps the invariant |
| UserService.GetUserById | src/main/java/ru/practicum/shareit/user/service/UserServiceImpl.java:53-57 | NotFound iff absent; otherwise the stored user |
| UserService.CreatedUserIsFound | src/main/java/ru/practicum/shareit/user/service/UserServiceImpl.java:27-57 | a created user is found under its new id |
| UserService.RetrieveAllUsers | src/main/java/ru/practicum/shareit/user/service/UserServiceImpl.java:59-64 | one entry per stored user, every stored user listed, and every entry a stored user |
| ItemRequestMapper.ToItemRequest | src/main/java/ru/practicum/shareit/request/ItemRequestMapper.java:13-20 | the requester is the given user |
| ItemRequestMapper.ToRequestItemView | src/main/java/ru/practicum/shareit/request/ItemRequestMapper.java:25-34 | the entry keeps the item's id, name, description and availability and carries its request id |
| ItemRequestMapper.ToItemRequestDto | src/main/java/ru/practicum/shareit/request/ItemRequestMapper.java:22-44 | fails (null request) iff some item has no request; null items stay null; otherwise entry k is the reduced view of item k, carrying its request id; id, description and created are copied |
| ItemRequestMapper.RequestRoundTrip | src/main/java/ru/practicum/shareit/request/ItemRequestMapper.java:13-44 | DTO → request → DTO with null items gives the DTO back with null items |
| ItemRequestMapper.RecordRoundTrip | src/main/java/ru/practicum/shareit/request/ItemRequestMapper.java:13-44 | request → DTO → request with its requester gives the request back |
| ItemRequestRepository.FindByRequesterIdOrderByCreatedAsc | src/main/java/ru/practicum/shareit/request/ItemRequestRepository.java:14 | exactly the user's requests, oldest first |
| ItemRequestRepository.FindByRequesterIdNot | src/main/java/ru/practicum/shareit/request/ItemRequestRepository.java:16 | exactly the other users' requests, newest first (the sort every caller passes) |
| ItemRequestRepository.FindItemsByListOfRequests | src/main/java/ru/practicum/shareit/request/ItemRequestRepository.java:18-19 | exactly the items answering one of the listed requests |
| ItemRequestRepository.RequestQueriesSelectExactly | src/main/java/ru/practicum/shareit/request/ItemRequestRepository.java:14-19 | the requester queries and the items-of-requests query return every row they select as many times as the table holds it, and no other |
| ItemRequestService.ValidateRequest | server/src/main/java/ru/practicum/shareit/request/service/ItemRequestServiceImpl.java:95-100 | passes iff the description is non-null and non-blank; otherwise Validation |
| ItemRequestService.CreateItemRequest | server/src/main/java/ru/practicum/shareit/request/service/ItemRequestServiceImpl.java:33-44 | unknown user → NotFound; succeeds iff the description is non-blank; the result is the request created at `now` with null items |
| ItemRequestService.RequestView | server/src/main/java/ru/practicum/shareit/request/service/ItemRequestServiceImpl.java:76-77 | the request's id, description and creation time with its own items only, descending id; entry k is the reduced view of the k-th item answering the request |
| ItemRequestService.RequestViewComplete | server/src/main/java/ru/practicum/shareit/request/service/ItemRequestServiceImpl.java:76-77 | every item answering the request is shown with it |
| ItemRequestService.RequestViewOnlyOwn | server/src/main/java/ru/practicum/shareit/request/service/ItemRequestServiceImpl.java:76-77 | an item answering another request is not shown with it |
| ItemRequestService.RetrieveRequestsForItems | server/src/main/java/ru/practicum/shareit/request/service/ItemRequestServiceImpl.java:72-80 | one entry per request in input order, keeping id and creation time |
| ItemRequestService.RetrievedEntryIsRequestView | server/src/main/java/ru/practicum/shareit/request/service/ItemRequestServiceImpl.java:72-80 | entry k is request k with its own items |
| ItemRequestService.GetAllMyItemRequest | server/src/main/java/ru/practicum/shareit/request/service/ItemRequestServiceImpl.java:52-59 | NotFound iff the user is unknown; otherwise the user's requests, oldest first, each with its own items |
| ItemRequestService.MyRequestsOnlyMine | server/src/main/java/ru/practicum/shareit/request/service/ItemRequestServiceImpl.java:57 | every listed request was posted by the caller |
| ItemRequestService.MyRequestsAllListed | server/src/main/java/ru/practicum/shareit/request/service/ItemRequestServiceImpl.java:57 | every request the caller posted is listed |
| ItemRequestService.MyRequestsOldestFirst | server/src/main/java/ru/practicum/shareit/request/service/ItemRequestServiceImpl.java:57 | creation times ascend along the listing |
| ItemRequestService.FindAll | server/src/main/java/ru/practicum/shareit/request/service/ItemRequestServiceImpl.java:61-70 | Validation iff size ≤ 0 or from < 0; otherwise page from / size of the others' requests, newest first, each with its own items |
| ItemRequestService.FindAllExcludesCaller | server/src/main/java/ru/practicum/shareit/request/service/ItemRequestServiceImpl.java:67-68 | no listed request was posted by the caller |
| ItemRequestService.FindAllNewestFirst | server/src/main/java/ru/practicum/shareit/request/service/ItemRequestServiceImpl.java:67-68 | at most `size` requests, creation times descending |
| ItemRequestService.FindAllFirstWindow | server/src/main/java/ru/practicum/shareit/request/service/ItemRequestServiceImpl.java:67-68 | any 0 ≤ from < size reads the first page |
| ItemRequestService.GetItemRequestById | server/src/main/java/ru/practicum/shareit/request/service/ItemRequestServiceImpl.java:82-93 | unknown user, then unknown request, are NotFound; otherwise the stored request's id, description and creation time, with exactly the request view of its own items |
| ItemRequestServiceLegacy.WithSharedItems | src/main/java/ru/practicum/shareit/request/service/ItemRequestServiceImpl.java:55-57 | one entry per request with its id, description and creation time, each carrying the views of the whole shared item list |
| ItemRequestServiceLegacy.SharedViews | src/main/java/ru/practicum/shareit/request/service/ItemRequestServiceImpl.java:55-57 | one view per item of the list, in order |
| ItemRequestServiceLegacy.WithSharedItemsIsMapper | src/main/java/ru/practicum/shareit/request/service/ItemRequestServiceImpl.java:55-57 | each entry is what the mapper makes of that request and the shared list |
| ItemRequestServiceLegacy.GetAllMyItemRequest | src/main/java/ru/practicum/shareit/request/service/ItemRequestServiceImpl.java:46-58 | NotFound iff the user is unknown; one entry per own request, oldest first, with its id, description and creation time; every entry carries the views of exactly the items answering one of the caller's requests |
| ItemRequestServiceLegacy.FindAll | src/main/java/ru/practicum/shareit/request/service/ItemRequestServiceImpl.java:73-86 | the same Validation guard as the server revision; one entry per request of page from / size of the other users' requests, newest first, with its id, description and creation time; every entry carries the views of the items answering any request of that page |
| ItemRequestServiceLegacy.RevisionsListSameRequests | src/main/java/ru/practicum/shareit/request/service/ItemRequestServiceImpl.java:46-86 | for both listings, both revisions succeed on the same inputs and list the same requests in the same order |
| ItemRequestServiceLegacy.SharedListOnlyOwnRequests | src/main/java/ru/practicum/shareit/request/service/ItemRequestServiceImpl.java:52-57 | every item shown by getAllMyItemRequest answers a request the caller posted |
| ItemRequestServiceLegacy.SharedViewAnswersListed | src/main/java/ru/practicum/shareit/request/service/ItemRequestServiceImpl.java:53-57 | every view of the shared list answers one of the listed requests |
| ItemRequestServiceLegacy.FindAllSharedListOnlyPage | src/main/java/ru/practicum/shareit/request/service/ItemRequestServiceImpl.java:73-86 | every item shown by findAll answers a request listed on the same page |
| ItemRequestServiceLegacy.SharedListCoversOwnItems | src/main/java/ru/practicum/shareit/request/service/ItemRequestServiceImpl.java:52-57 | an item answering a request is shown with that request |
| ItemRequestServiceLegacy.ServerHidesItemOfOtherRequest | server/src/main/java/ru/practicum/shareit/request/service/ItemRequestServiceImpl.java:72-80 | the server revision does not show an item of another request |
| ItemRequestServiceLegacy.LegacyShowsItemOfAnyOwnRequest | src/main/java/ru/practicum/shareit/request/service/ItemRequestServiceImpl.java:52-57 | this revision shows, with each request, the items answering any of the caller's requests |
| ItemRequestServiceLegacy.RevisionsDifferOnItems | src/main/java/ru/practicum/shareit/request/service/ItemRequestServiceImpl.java:52-57 | an item answering the caller's other request is shown by this revision and hidden by the server revision |

## Left out

- The HTTP layer is not modelled: controllers, the gateway client, and the formatting of `ErrorHandler` responses. Only its three error kinds are used.
- The Spring and JPA machinery is not modelled: dependency injection, `@Transactional`, entity annotations, lazy collections and the internals of `PageRequest` and `Sort`. Paging is only the `from`/`size` arithmetic and a slice of the ordered rows.
- JPA `save` is not modelled. Ids that the database would generate are taken from the request (bookings, items, comments, requests).
- `LocalDateTime.now()` is a parameter. Where the source calls it several times within one operation, the model uses a single instant.
- The exception messages and the logging are left out.
- `LocalDateTime` precision is not modelled, nor the `LocalDate` type of a request's `created`. All times are integers.
- `Text.IsWhitespace` covers the ASCII whitespace of `Character.isWhitespace`, not the Unicode space separators.
- `Text.Lower` is ASCII lower-casing, not Unicode case folding. SQL `LIKE` wildcards inside a keyword are not interpreted.
- A null start, end or approval flag in a booking request is not modelled. These are plain values that the source dereferences.
- `BookingMapper`, `UserMapper`, `CommentMapper` and `CommentRepository` are not part of this model.
  - Their behaviour is assumed from their call sites: `toBooking` copies id, start, end and status.
  - `findByItem_IdOrderByCreatedDesc` is modelled as a filter plus a sort by creation time.
- `BookingRepository` declares none of the methods the legacy booking revision and `addComment` call (`findByBooker_IdOrderByIdDesc`, `findByBooker_IdAndStartAfterAndEndBefore`, `findByBooker_IdAndEndBefore`, `findByBooker_IdAndStartAfter`). They are modelled from their derived-query names.
- `addComment` assigns the result of `findByBooker_IdAndEndBefore` to a single `Booking`, while the legacy booking service uses the same method as a list. `ItemService.AddComment` follows Spring Data's single-result rule: no row is a null, exactly one row is that booking, and two or more rows throw `IncorrectResultSizeDataAccessException`, which becomes `Unhandled`.
- `UserServiceImpl` calls `isEmailExists`, which `InMemoryUserStorage` does not declare. It is modelled as membership in the storage's email set.
- `ItemMapper` reads and writes a `requestId`, but `ItemDto` has no `requestId` field. The model's DTO has the field.
- The legacy request service's `createItemRequest`, `getItemRequestById` and `validate` are line for line the server revision's (`ItemRequestService.CreateItemRequest`, `GetItemRequestById`, `ValidateRequest`). They are not modelled twice.
- `getItemByIdWithoutDto` is the same lookup as `getItemByIdForBooking` and is covered by `ItemService.GetItemByIdForBooking`.
- `ItemStorage.RetrieveAllUsers` and `UserStorage.RetrieveAllUsers` list the values in ascending key order. The source returns `HashMap.values()`, whose order is unspecified. The contracts state only which values appear, not their order.
- Ids and counters are unbounded integers. The 64-bit `long` counters of the stores never wrap in the model.
- ItemRequestRepository.CreatedKey sorts a request with a null `created` as time 0. How the database sorts nulls is not modelled.
- Concurrency and transaction races are not modelled.
- The server-tier `BookingRepository` is not part of this model. The server `BookingServiceImpl` calls paged overloads such as `findOwnerAll(useId, pageable)` and `findByBookerIdStatePast(useId, now, pageable)`. They are assumed to run the same JPQL as the `src` repository's methods of the same names, which `BookingRepository` models for both revisions; paging is applied afterwards as a slice.
- The `src`-tier `ItemRepository` is not part of this model. The legacy services are assumed to see the same `findByOwnerIdOrderByIdAsc`, `findByKeyword` and `findByRequest_Id` as the server `ItemRepository`, which `ItemRepository` models.
- The legacy `BookingStateEnum` is not part of this model. Its constants are assumed to be those of the server `BookingState` (ALL, CURRENT, PAST, FUTURE, WAITING, REJECTED); `BookingServiceLegacy.RejectedListsNothing` rests on REJECTED being one of them.

Behaviour of the code worth noting, which the model keeps:

- A booking whose start equals its end is accepted (`BookingService.EmptyRangeAccepted`). Only a start strictly after the end is refused.
- A decided booking can be flipped; only a repeated decision is refused (`BookingService.DecisionCanBeFlipped`).
- The server booking listings have no guard on `from` and `size`. A zero size or a negative page fails as an unmapped exception (`Unhandled`), not as a validation error.
- A comment needs a finished booking by the caller of any item, not of the item commented on (`ItemService.CommentNotRestrictedToItem`).
- A caller with two or more finished bookings cannot comment at all: the single-row lookup throws (`ItemService.TwoFinishedBookingsFailComment`).

## Findings

| source | as written | input that shows it | evidently intended | confidence | as-written member | corrected member |
|---|---|---|---|---|---|---|
| src/main/java/ru/practicum/shareit/user/service/UserServiceImpl.java:94-96 | on an email change the old email is removed from the storage's email set, but the new email is never added | user 1 registers "a@x", changes it to "b@x"; user 2 then registers "b@x" and succeeds, so two users share "b@x" | the new email joins the set, so a later registration with it is a Conflict and emails stay unique | not executed | UserService.UpdateUser (with UserService.DuplicateEmailAfterUpdate) | UserService.UpdateUserFixed (with UserService.UpdateFixedKeepsInv and UserService.FixedRejectsDuplicate) |
