# ShareIt core, modelled in Dafny

ShareIt is a rental service. Users offer items, other users book them for a
time interval, and the owner approves or rejects each booking. Users who rented
an item may comment on it. Users may also post requests for items that nobody
offers yet. The repository holds three generations of the back end, and this
project models the business logic of each:

- **The in-memory generation** (`src/.../item`, `src/.../user`). Hash-map
  stores with id counters: an owner-to-items map of maps, and an id-to-user map
  of mutable user objects. Thin services check their input and then delegate.
  These become classes whose fields the methods update: `InMemoryItemRepository`,
  `InMemoryItemService`, `InMemoryUserRepository` and `InMemoryUserService`.
- **The earlier JPA generation** (`src/.../service`, `src/.../dao`). The
  booking, item and user services over database tables, with the booking
  queries written in native SQL: `SrcBookingService`, `SrcItemService`,
  `SrcUserService` and `BookingQueries` (its `NativeSql` dialect).
- **The later JPA generation** (`server/`). The same services with different
  check orders, an ownership check on item update, an address check on user
  update, derived queries that compare strictly, and the item request service:
  `ServerBookingService`, `ServerItemService`, `ServerItemRepository`,
  `ServerUserService`, `ItemRequestService` and `BookingQueries` (`Derived`).

Shared modules:

- `BookingModel` and `BookingLifecycle` hold the booking entity, the date check,
  the owner's decision and the visibility rule.
- `BookingState` models the six list states and both parsers of a state string.
- `ItemModel` holds items, the nullable item record of the in-memory store, patches and comments.
- `UserModel` holds the JPA user table.
- `Common` holds `Option`, `Result` and the error kinds.
- `Text` models ASCII case folding and the "not blank" test over Java's whitespace set.
- `Sequences` holds filtering and a stable sort by descending key.

Database tables are sequences (an identity id is its index plus one) or maps
(for users, who can be deleted). A service that changes a table is a class over
it. Each change is specified by a pure function of the old state, and the
well-formedness invariant is proved to be preserved. Read-only operations are
functions. Whatever a service reads from another service is passed in as a
parameter: the set of existing users, the item table, the request ids and the
current time.

## Model

| member | source | states |
|---|---|---|
| Common.JavaDivTruncates | server/src/main/java/ru/practicum/shareit/request/service/ItemRequestServiceImpl.java:57 | for a positive divisor the remainder `a - q*b` lies in `[0, b)` for a non-negative dividend and in `(-b, 0]` for a negative one (and symmetrically for a negative divisor): the quotient truncates toward zero |
| Text.HasTextIsNonBlank | src/main/java/ru/practicum/shareit/user/dao/UserRepository.java:32 | the "not null, not empty, not blank" guard is the same as "present and not blank" |
| Text.WideSpaceIsBlank | src/main/java/ru/practicum/shareit/user/dao/UserRepository.java:32 | text made of ideographic spaces is blank, a no-break space is not, as for `String.isBlank` |
| BookingState.FirstMatching | src/main/java/ru/practicum/shareit/booking/model/BookingState.java:14-16 | the first value whose name equals the string ignoring case; none exactly when no value matches |
| BookingState.From | src/main/java/ru/practicum/shareit/booking/model/BookingState.java:13-17 | a result is a state whose name equals the string ignoring case; failure is IllegalArgument and happens only when no name matches |
| BookingState.ValueOf | server/src/main/java/ru/practicum/shareit/booking/service/BookingServiceImpl.java:148 | `valueOf` gives the state with exactly that name, or none when no name is equal |
| BookingState.ParseState | server/src/main/java/ru/practicum/shareit/booking/service/BookingServiceImpl.java:146-152 | the state whose name is the upper-cased string; otherwise Validation, and then no name equals the upper-cased string |
| BookingState.NamesDistinctIgnoringCase | src/main/java/ru/practicum/shareit/booking/model/BookingState.java:5-11 | the six names are distinct even ignoring case, so the match is unique |
| BookingState.FromMatchesIgnoringCase | src/main/java/ru/practicum/shareit/booking/model/BookingState.java:13-17 | `from` returns a state if and only if its name equals the string ignoring case |
| BookingState.FromName | src/main/java/ru/practicum/shareit/booking/model/BookingState.java:13-16 | round trip: parsing a state's own name gives that state back |
| BookingState.ParseStateAgreesWithFrom | server/src/main/java/ru/practicum/shareit/booking/service/BookingServiceImpl.java:146-152 | the two parsers accept the same strings and return the same state; only the exception differs (Validation vs IllegalArgument) |
| BookingModel.FindById | server/src/main/java/ru/practicum/shareit/booking/service/BookingServiceImpl.java:58-59 | a found booking is in the store and, in a well-formed store, has the id asked for; found iff some booking has that id |
| BookingModel.Decided | server/src/main/java/ru/practicum/shareit/booking/service/BookingServiceImpl.java:70-74 | status APPROVED iff approved, REJECTED iff not; every other field unchanged |
| BookingLifecycle.CheckData | server/src/main/java/ru/practicum/shareit/booking/service/BookingServiceImpl.java:140-144 | accepts a booking iff start is strictly before end; `start == end` is rejected too, with IllegalArgument |
| BookingLifecycle.NewBooking | server/src/main/java/ru/practicum/shareit/booking/service/BookingServiceImpl.java:48-50 | the new booking is WAITING, booked by the caller, for the requested item and interval |
| BookingLifecycle.Approve | server/src/main/java/ru/practicum/shareit/booking/service/BookingServiceImpl.java:56-80 | unknown booking NotFound; non-WAITING IllegalState for any caller (status checked first); only the item owner succeeds, anyone else gets Validation; success decides the status |
| BookingLifecycle.Saved | server/src/main/java/ru/practicum/shareit/booking/service/BookingServiceImpl.java:76 | saving replaces exactly the decided booking and keeps every other one |
| BookingLifecycle.ApproveKeepsStoreValid | server/src/main/java/ru/practicum/shareit/booking/service/BookingServiceImpl.java:69-76 | a decision keeps ids, intervals and statuses of the store well formed |
| BookingLifecycle.DecisionIsFinal | server/src/main/java/ru/practicum/shareit/booking/service/BookingServiceImpl.java:62-64 | once decided, a booking can never be decided again, by anyone, either way |
| BookingQueries.FindByBooker | server/src/main/java/ru/practicum/shareit/booking/service/BookingRepository.java:15-31 | exactly the booker's bookings in the state (strict or inclusive filter per generation), sorted by start descending, a sub-multiset of the store |
| BookingQueries.FindByOwner | server/src/main/java/ru/practicum/shareit/booking/service/BookingRepository.java:33-49 | exactly the bookings of items owned by the user in the state, sorted by start descending |
| BookingQueries.FinishedApproved | server/src/main/java/ru/practicum/shareit/booking/service/BookingRepository.java:51-55 | exactly the APPROVED bookings of that booker and item whose end is before now |
| BookingQueries.LastBooking | server/src/main/java/ru/practicum/shareit/booking/service/BookingRepository.java:57-59 | an APPROVED booking of the item started before now with the greatest start; none iff no such booking |
| BookingQueries.NextBooking | server/src/main/java/ru/practicum/shareit/booking/service/BookingRepository.java:61-63 | an APPROVED booking of the item starting after now with the smallest start; none iff no such booking |
| BookingQueries.DialectsDifferOnlyAtCurrentBounds | src/main/java/ru/practicum/shareit/booking/dao/BookingRepository.java:18-21 | strict and inclusive filters agree on every state but CURRENT, and there differ exactly when now equals start or end |
| BookingQueries.ListsAgreeOutsideCurrent | src/main/java/ru/practicum/shareit/booking/dao/BookingRepository.java:14-74 | the two repositories list the same bookings for every state except CURRENT |
| BookingQueries.CurrentAtStartDiffers | src/main/java/ru/practicum/shareit/booking/dao/BookingRepository.java:47-51 | a booking starting exactly now is CURRENT for the SQL `BETWEEN` and not for the derived query |
| ServerBookingService.CreateCheck | server/src/main/java/ru/practicum/shareit/booking/service/BookingServiceImpl.java:36-46 | checks run user, dates, item, availability; the first failing one decides the error (NotFound, IllegalArgument, NotFound, IllegalState) |
| ServerBookingService.BookingService.constructor | server/src/main/java/ru/practicum/shareit/booking/service/BookingServiceImpl.java:31 | an empty booking store |
| ServerBookingService.BookingService.CreateBooking | server/src/main/java/ru/practicum/shareit/booking/service/BookingServiceImpl.java:36-53 | fails with the first failing check and saves nothing; otherwise appends a WAITING booking with the next id |
| ServerBookingService.BookingService.BookingApproved | server/src/main/java/ru/practicum/shareit/booking/service/BookingServiceImpl.java:56-80 | outcome is `Approve`; on success only the decided booking changes; on failure nothing changes |
| ServerBookingService.GetBooking | server/src/main/java/ru/practicum/shareit/booking/service/BookingServiceImpl.java:83-96 | caller must exist and the booking must exist (NotFound); returned iff the caller is the booker or the item owner, else IllegalArgument |
| ServerBookingService.GetBookingByUserId | server/src/main/java/ru/practicum/shareit/booking/service/BookingServiceImpl.java:99-117 | state parsed first (Validation), then user (NotFound); each of the booker's bookings in the strict state is listed as often as the store holds it and no other booking is listed, start descending |
| ServerBookingService.GetBookingByOwnerId | server/src/main/java/ru/practicum/shareit/booking/service/BookingServiceImpl.java:120-138 | as above for the bookings of the owner's items: exact multiplicities, nothing else, start descending |
| ServerBookingService.CreatedBookingVisibility | server/src/main/java/ru/practicum/shareit/booking/service/BookingServiceImpl.java:48-53 | a booking just created is visible to its booker and item owner and to nobody else |
| SrcBookingService.CreateCheck | src/main/java/ru/practicum/shareit/booking/service/BookingServiceImpl.java:39-49 | checks run dates, item, availability, user; the first failing one decides the error |
| SrcBookingService.BookingService.constructor | src/main/java/ru/practicum/shareit/booking/service/BookingServiceImpl.java:32-36 | an empty booking store |
| SrcBookingService.BookingService.CreateBooking | src/main/java/ru/practicum/shareit/booking/service/BookingServiceImpl.java:39-54 | fails with the first failing check and saves nothing; otherwise appends a WAITING booking |
| SrcBookingService.BookingService.BookingApproved | src/main/java/ru/practicum/shareit/booking/service/BookingServiceImpl.java:57-81 | the same decision as the later service, status checked before ownership |
| SrcBookingService.GetBooking | src/main/java/ru/practicum/shareit/booking/service/BookingServiceImpl.java:84-95 | no check of the caller; unknown booking NotFound; returned iff caller is booker or owner, else IllegalArgument |
| SrcBookingService.GetBookingByUserId | src/main/java/ru/practicum/shareit/booking/service/BookingServiceImpl.java:98-113 | `from` first (IllegalArgument), then user (NotFound); each of the booker's bookings in the inclusive state as often as the store holds it, nothing else, start descending |
| SrcBookingService.GetBookingByOwnerId | src/main/java/ru/practicum/shareit/booking/service/BookingServiceImpl.java:116-131 | as above for the bookings of the owner's items: exact multiplicities, nothing else, start descending |
| SrcBookingService.CreateChecksAgreeOnSuccess | src/main/java/ru/practicum/shareit/booking/service/BookingServiceImpl.java:41-49 | both generations accept exactly the same creations |
| SrcBookingService.CreateCheckOrderDiffers | src/main/java/ru/practicum/shareit/booking/service/BookingServiceImpl.java:41 | an unknown user with an empty interval gets NotFound from the later service and IllegalArgument from the earlier |
| SrcBookingService.GetBookingAgreesForKnownUsers | src/main/java/ru/practicum/shareit/booking/service/BookingServiceImpl.java:84-95 | for an existing caller both generations answer `getBooking` alike |
| SrcBookingService.ListsAgree | src/main/java/ru/practicum/shareit/booking/service/BookingServiceImpl.java:98-131 | for every state but CURRENT both generations list the same bookings |
| ItemModel.FindItem | server/src/main/java/ru/practicum/shareit/item/service/ItemServiceImpl.java:121-124 | a found item is in the store and has the id asked for; found iff some item has that id |
| ItemModel.CommentsOf | server/src/main/java/ru/practicum/shareit/item/service/CommentsRepository.java:9 | the comments on the item, each as often as the store holds it |
| ItemModel.Patched | server/src/main/java/ru/practicum/shareit/item/service/ItemServiceImpl.java:64-72 | each present field overwrites the stored one; id and owner never change |
| ItemModel.EmptyPatchIsIdentity | server/src/main/java/ru/practicum/shareit/item/service/ItemServiceImpl.java:64-72 | a patch with no field present changes nothing |
| ItemModel.PatchIdempotent | server/src/main/java/ru/practicum/shareit/item/service/ItemServiceImpl.java:64-72 | applying the same patch twice equals applying it once |
| ServerItemRepository.FindByOwner | server/src/main/java/ru/practicum/shareit/item/service/ItemRepository.java:13 | the items whose owner is the argument, each as often as the table holds it |
| ServerItemRepository.SearchItem | server/src/main/java/ru/practicum/shareit/item/service/ItemRepository.java:15-19 | the available items whose lower-cased name or description contains the lower-cased text, each as often as the table holds it |
| ServerItemRepository.SearchIgnoresCase | server/src/main/java/ru/practicum/shareit/item/service/ItemRepository.java:16-17 | searching for the upper-cased text finds the same items |
| ServerItemRepository.EmptyTextMatchesAllAvailable | server/src/main/java/ru/practicum/shareit/item/service/ItemRepository.java:15-18 | the empty text matches every available item |
| ServerItemService.UpdateResult | server/src/main/java/ru/practicum/shareit/item/service/ItemServiceImpl.java:57-75 | succeeds iff the caller exists, the item exists and the caller owns it (else NotFound); the result is the patched item |
| ServerItemService.ItemService.constructor | server/src/main/java/ru/practicum/shareit/item/service/ItemServiceImpl.java:32-35 | empty item and comment stores |
| ServerItemService.ItemService.Create | server/src/main/java/ru/practicum/shareit/item/service/ItemServiceImpl.java:43-54 | owner and any given request must exist (NotFound, nothing saved); the item gets the next id and the body's fields |
| ServerItemService.ItemService.Update | server/src/main/java/ru/practicum/shareit/item/service/ItemServiceImpl.java:57-75 | outcome is `UpdateResult`; on success only that item changes |
| ServerItemService.ItemService.AddCommentToItem | server/src/main/java/ru/practicum/shareit/item/service/ItemServiceImpl.java:127-139 | author and item must exist (NotFound); succeeds iff the author has an APPROVED booking of the item ended before now (else Validation); the comment carries item, author and now |
| ServerItemService.GetItem | server/src/main/java/ru/practicum/shareit/item/service/ItemServiceImpl.java:78-103 | caller, item and owner must exist (NotFound); the item's comments, each as often as stored; last/next booking only for the owner, none for others |
| ServerItemService.GetItemsForOwner | server/src/main/java/ru/practicum/shareit/item/service/ItemServiceImpl.java:106-109 | the owner's items, each as often as the table holds it |
| ServerItemService.ItemSearch | server/src/main/java/ru/practicum/shareit/item/service/ItemServiceImpl.java:112-118 | empty text gives the empty list; otherwise the matching available items, each as often as the table holds it |
| ServerItemService.UpdateOnlyByOwner | server/src/main/java/ru/practicum/shareit/item/service/ItemServiceImpl.java:61-63 | an update by anyone but the owner fails with NotFound |
| ServerItemService.UpdateKeepsStoreValid | server/src/main/java/ru/practicum/shareit/item/service/ItemServiceImpl.java:64-74 | an update keeps the item store well formed |
| SrcItemService.UpdateResult | src/main/java/ru/practicum/shareit/item/service/ItemServiceImpl.java:47-64 | succeeds iff the caller and the item exist (no ownership check); request is patched too |
| SrcItemService.ItemService.constructor | src/main/java/ru/practicum/shareit/item/service/ItemServiceImpl.java:31-34 | empty item and comment stores |
| SrcItemService.ItemService.Create | src/main/java/ru/practicum/shareit/item/service/ItemServiceImpl.java:40-44 | owner must exist (NotFound, nothing saved); the item gets the next id |
| SrcItemService.ItemService.Update | src/main/java/ru/practicum/shareit/item/service/ItemServiceImpl.java:47-64 | outcome is `UpdateResult`; on success only that item changes |
| SrcItemService.ItemService.AddCommentToItem | src/main/java/ru/practicum/shareit/item/service/ItemServiceImpl.java:118-130 | the same gate as the later service: finished APPROVED booking required |
| SrcItemService.GetItem | src/main/java/ru/practicum/shareit/item/service/ItemServiceImpl.java:67-90 | only the item must exist; the item's comments, each as often as stored; last/next booking only for the owner |
| SrcItemService.GetItemsForOwner | src/main/java/ru/practicum/shareit/item/service/ItemServiceImpl.java:92-95 | no owner check; the items whose owner is the argument, each as often as the table holds it |
| SrcItemService.ItemSearch | src/main/java/ru/practicum/shareit/item/service/ItemServiceImpl.java:98-103 | empty text gives the empty list without querying |
| SrcItemService.UpdateByStrangerDiffers | src/main/java/ru/practicum/shareit/item/service/ItemServiceImpl.java:47-50 | the earlier update lets a non-owner change an item, the later one refuses |
| SrcItemService.UpdateByOwnerAgrees | src/main/java/ru/practicum/shareit/item/service/ItemServiceImpl.java:51-62 | for the owner both updates succeed together and agree except on the request |
| ItemDtoMapper.ToItem | src/main/java/ru/practicum/shareit/item/dto/ItemDtoMapper.java:6-15 | the item has the given id and owner, and the body's name, description, availability and request id as they stand, absent ones included |
| ItemDtoMapper.ToItemRoundTrip | src/main/java/ru/practicum/shareit/item/dto/ItemDtoMapper.java:6-15 | round trip: every body, complete or not, is recovered from the built item |
| ItemDtoMapper.ToItemInjective | src/main/java/ru/practicum/shareit/item/dto/ItemDtoMapper.java:6-15 | different bodies never give the same item |
| InMemoryItemRepository.Lookup | src/main/java/ru/practicum/shareit/item/dao/ItemRepository.java:45 | the entry under the id, or null when there is none |
| InMemoryItemRepository.TextPatched | src/main/java/ru/practicum/shareit/item/dao/ItemRepository.java:48-59 | name/description replaced only by text with a character outside Java's whitespace set, availability and request whenever present; id and owner kept |
| InMemoryItemRepository.FilterOutcome | src/main/java/ru/practicum/shareit/item/dao/ItemRepository.java:89-91 | the filter throws exactly when it reads a null name, a null description it needs, or a null availability it needs; when it decides, it decides whether the item matches |
| InMemoryItemRepository.OwnerMatches | src/main/java/ru/practicum/shareit/item/dao/ItemRepository.java:86-91 | one owner's entries: NullPointerException iff one of its items throws, else its matching items, each as often as the map's entries (one per key) hold it |
| InMemoryItemRepository.PresentMatching | src/main/java/ru/practicum/shareit/item/dao/ItemRepository.java:88-91 | the non-null entries that match the text, each as often as the entries hold it |
| InMemoryItemRepository.OwnerPartIsDistinct | src/main/java/ru/practicum/shareit/item/dao/ItemRepository.java:86-91 | in a well-formed store one owner's matching part holds each item at most once, and only that owner's items |
| InMemoryItemRepository.StoredStep | src/main/java/ru/practicum/shareit/item/dao/ItemRepository.java:86-87 | flattening one more owner's map adds exactly that owner's items |
| InMemoryItemRepository.OwnerEntryIsHeld | src/main/java/ru/practicum/shareit/item/dao/ItemRepository.java:68-74 | an item in its owner's map is found by the global lookup |
| InMemoryItemRepository.UpdateResult | src/main/java/ru/practicum/shareit/item/dao/ItemRepository.java:41-66 | owner without map, or missing id with something to set (text in the Java sense, or any other field): NullPointerException; missing id with nothing to set: null; held item: patched |
| InMemoryItemRepository.AfterUpdate | src/main/java/ru/practicum/shareit/item/dao/ItemRepository.java:61-63 | only the owner's map changes, and only under the item id; a failed update changes nothing |
| InMemoryItemRepository.UpdateKeepsStoreValid | src/main/java/ru/practicum/shareit/item/dao/ItemRepository.java:41-66 | an update keeps every item under its own id and owner |
| InMemoryItemRepository.ItemRepository.constructor | src/main/java/ru/practicum/shareit/item/dao/ItemRepository.java:18-19 | empty store, counter 1 |
| InMemoryItemRepository.ItemRepository.Create | src/main/java/ru/practicum/shareit/item/dao/ItemRepository.java:21-39 | any body, with or without name, description or availability: the item gets the counter as id, joins the owner's map keeping its other items, and the counter moves on |
| InMemoryItemRepository.ItemRepository.Update | src/main/java/ru/practicum/shareit/item/dao/ItemRepository.java:41-66 | outcome is `UpdateResult`, new store `AfterUpdate`; the store stays well formed |
| InMemoryItemRepository.ItemRepository.GetItem | src/main/java/ru/practicum/shareit/item/dao/ItemRepository.java:68-75 | finds the id under any owner; IllegalArgument iff no owner holds it |
| InMemoryItemRepository.ItemRepository.GetItemsForOwner | src/main/java/ru/practicum/shareit/item/dao/ItemRepository.java:77-83 | NotFound iff the owner has no map; otherwise the entries of that map listed one per key, through a key sequence without repeats that covers the map |
| InMemoryItemRepository.ItemRepository.SearchItems | src/main/java/ru/practicum/shareit/item/dao/ItemRepository.java:85-94 | NullPointerException iff some stored item's filter reaches a null field; otherwise exactly the stored items whose lower-cased name or description contains the text as given, and available, none of them twice |
| InMemoryItemService.CheckOwner | src/main/java/ru/practicum/shareit/item/ItemServiceImpl.java:53-58 | BAD_REQUEST iff the owner is missing |
| InMemoryItemService.ItemService.constructor | src/main/java/ru/practicum/shareit/item/ItemServiceImpl.java:17-18 | a service over an empty repository |
| InMemoryItemService.ItemService.Create | src/main/java/ru/practicum/shareit/item/ItemServiceImpl.java:21-24 | missing owner BAD_REQUEST and nothing stored; otherwise the repository's create, for any body |
| InMemoryItemService.ItemService.Update | src/main/java/ru/practicum/shareit/item/ItemServiceImpl.java:27-31 | as written: missing owner BAD_REQUEST; IllegalArgument when no item has the OWNER's id; then the repository's update |
| InMemoryItemService.ItemService.UpdateFixed | src/main/java/ru/practicum/shareit/item/ItemServiceImpl.java:27-31 | corrected: the existence check looks up the item id, so an owner updating an item they hold gets it patched |
| InMemoryItemService.ItemService.GetItem | src/main/java/ru/practicum/shareit/item/ItemServiceImpl.java:34-36 | the repository's lookup, no owner check |
| InMemoryItemService.ItemService.GetItemsForOwner | src/main/java/ru/practicum/shareit/item/ItemServiceImpl.java:39-42 | BAD_REQUEST for a missing owner, NotFound without a map, else the owner's entries one per key |
| InMemoryItemService.ItemService.ItemSearch | src/main/java/ru/practicum/shareit/item/ItemServiceImpl.java:45-51 | empty text IllegalArgument; otherwise NullPointerException iff a stored item's filter reaches a null field, else exactly the items matching the lower-cased text, none of them twice |
| InMemoryItemService.SearchIgnoresCase | src/main/java/ru/practicum/shareit/item/ItemServiceImpl.java:49 | searching for the upper-cased text has the same outcome for every item, throwing included |
| InMemoryItemService.OwnerIdLookupRefusesOwnItem | src/main/java/ru/practicum/shareit/item/ItemServiceImpl.java:29 | owner 2 holding item 1 is refused the update of item 1 with IllegalArgument |
| InMemoryItemService.ItemLookupAcceptsOwnItem | src/main/java/ru/practicum/shareit/item/ItemServiceImpl.java:29 | with the corrected check the same update succeeds and patches the item |
| InMemoryItemService.NamelessItemBreaksSearch | src/main/java/ru/practicum/shareit/item/ItemServiceImpl.java:21-24 | an item created from a body without a name makes the next search throw NullPointerException |
| UserModel.GetUser | server/src/main/java/ru/practicum/shareit/user/service/UserServiceImpl.java:57-67 | null id IllegalArgument, unknown id NotFound, else the stored user |
| UserModel.GetAllUsers | server/src/main/java/ru/practicum/shareit/user/service/UserServiceImpl.java:70-79 | every stored user once per key, through a key sequence without repeats that covers the table; same count, nothing else |
| UserModel.DeleteResult | server/src/main/java/ru/practicum/shareit/user/service/UserServiceImpl.java:82-94 | null id IllegalArgument, unknown id NotFound, else success |
| ServerUserService.UpdateResult | server/src/main/java/ru/practicum/shareit/user/service/UserServiceImpl.java:36-54 | null id IllegalArgument, unknown NotFound, a given address already stored CONFLICT; else given name/address replace the stored ones |
| ServerUserService.UserService.constructor | server/src/main/java/ru/practicum/shareit/user/service/UserServiceImpl.java:24 | an empty user table |
| ServerUserService.UserService.Create | server/src/main/java/ru/practicum/shareit/user/service/UserServiceImpl.java:28-33 | CONFLICT iff the address is stored, saving nothing; otherwise a new user under a fresh id; addresses stay unique |
| ServerUserService.UserService.Update | server/src/main/java/ru/practicum/shareit/user/service/UserServiceImpl.java:36-54 | outcome is `UpdateResult`; only that user changes; addresses stay unique |
| ServerUserService.UserService.Delete | server/src/main/java/ru/practicum/shareit/user/service/UserServiceImpl.java:82-94 | outcome is `DeleteResult`; on success exactly that user goes |
| ServerUserService.UpdateKeepsEmailsUnique | server/src/main/java/ru/practicum/shareit/user/service/UserServiceImpl.java:47-51 | a successful update keeps every address unique |
| ServerUserService.UpdateToOwnEmailConflicts | server/src/main/java/ru/practicum/shareit/user/service/UserServiceImpl.java:47-50 | resending the user's own address is a CONFLICT |
| ServerUserService.NameOnlyUpdateKeepsEmail | server/src/main/java/ru/practicum/shareit/user/service/UserServiceImpl.java:43-45 | a name-only update succeeds and changes only the name |
| SrcUserService.UpdateResult | src/main/java/ru/practicum/shareit/user/service/UserServiceImpl.java:42-58 | null id IllegalArgument, unknown NotFound; else given name/address replace the stored ones, no address check |
| SrcUserService.UserService.constructor | src/main/java/ru/practicum/shareit/user/service/UserServiceImpl.java:24 | an empty user table |
| SrcUserService.UserService.Create | src/main/java/ru/practicum/shareit/user/service/UserServiceImpl.java:34-39 | CONFLICT iff the address is stored; otherwise a new user under a fresh id |
| SrcUserService.UserService.Update | src/main/java/ru/practicum/shareit/user/service/UserServiceImpl.java:42-58 | outcome is `UpdateResult`; only that user changes |
| SrcUserService.UserService.Delete | src/main/java/ru/practicum/shareit/user/service/UserServiceImpl.java:84-96 | outcome is `DeleteResult`; on success exactly that user goes |
| SrcUserService.UpdatesAgreeOnFreeEmail | src/main/java/ru/practicum/shareit/user/service/UserServiceImpl.java:53-55 | with a free or absent address both generations' updates agree |
| SrcUserService.UpdateCanDuplicateEmail | src/main/java/ru/practicum/shareit/user/service/UserServiceImpl.java:53-55 | the earlier update can give two users the same address, which the later refuses |
| InMemoryUserRepository.User.constructor | src/main/java/ru/practicum/shareit/user/dao/UserRepository.java:22-23 | a user object with the given fields |
| InMemoryUserRepository.Snapshot | src/main/java/ru/practicum/shareit/user/dao/UserRepository.java:27 | the DTO copies the user's current fields |
| InMemoryUserRepository.UserRepository.constructor | src/main/java/ru/practicum/shareit/user/dao/UserRepository.java:18-19 | empty store, counter 1 |
| InMemoryUserRepository.UserRepository.Create | src/main/java/ru/practicum/shareit/user/dao/UserRepository.java:22-28 | the user gets the counter as id and is stored under it; the counter moves on; every key keeps its user |
| InMemoryUserRepository.UserRepository.Update | src/main/java/ru/practicum/shareit/user/dao/UserRepository.java:30-41 | as written: non-blank address/name replace the stored ones in place, then the same object is also stored under the counter key |
| InMemoryUserRepository.UserRepository.UpdateFixed | src/main/java/ru/practicum/shareit/user/dao/UserRepository.java:30-41 | corrected: the same patch with the keys unchanged, so every key keeps its own user |
| InMemoryUserRepository.UserRepository.GetUser | src/main/java/ru/practicum/shareit/user/dao/UserRepository.java:43-49 | NotFound iff no user under the id; else its fields |
| InMemoryUserRepository.UserRepository.GetAllUsers | src/main/java/ru/practicum/shareit/user/dao/UserRepository.java:51-57 | one snapshot per key, through a key sequence without repeats that covers the map (a user under two keys comes twice); same count |
| InMemoryUserRepository.UserRepository.Delete | src/main/java/ru/practicum/shareit/user/dao/UserRepository.java:59-62 | exactly that key goes |
| InMemoryUserRepository.UserRepository.CheckUserExist | src/main/java/ru/practicum/shareit/user/dao/UserRepository.java:64-73 | CONFLICT iff some stored user has an equal address |
| InMemoryUserRepository.UpdateListsUserTwice | src/main/java/ru/practicum/shareit/user/dao/UserRepository.java:38 | after one create and one update the store lists the same user twice |
| InMemoryUserRepository.FixedUpdateListsUserOnce | src/main/java/ru/practicum/shareit/user/dao/UserRepository.java:38 | with the corrected update it lists the user once |
| InMemoryUserService.UserService.constructor | src/main/java/ru/practicum/shareit/user/UserServiceImpl.java:20-22 | a service over an empty store |
| InMemoryUserService.UserService.Create | src/main/java/ru/practicum/shareit/user/UserServiceImpl.java:25-30 | CONFLICT iff some stored user has the address (nothing stored); else a fresh user object under the counter whose snapshot is the returned user |
| InMemoryUserService.UserService.Update | src/main/java/ru/practicum/shareit/user/UserServiceImpl.java:33-42 | unknown id NotFound, nothing changes; otherwise only that user's object changes: address and name replaced by given text, the store's re-insertion under the counter's key |
| InMemoryUserService.UserService.GetUser | src/main/java/ru/practicum/shareit/user/UserServiceImpl.java:45-51 | NotFound iff no user under the id |
| InMemoryUserService.UserService.GetAllUsers | src/main/java/ru/practicum/shareit/user/UserServiceImpl.java:54-61 | one snapshot per key of the store, through a key sequence without repeats |
| InMemoryUserService.UserService.Delete | src/main/java/ru/practicum/shareit/user/UserServiceImpl.java:64-73 | unknown id NotFound, nothing removed; otherwise exactly that key goes |
| ItemRequestService.Answer | server/src/main/java/ru/practicum/shareit/request/service/ItemRequestServiceImpl.java:46-51 | the answer holds the request and the items that name it, each as often as the table holds it |
| ItemRequestService.Answers | server/src/main/java/ru/practicum/shareit/request/service/ItemRequestServiceImpl.java:45-52 | one answer per request, in order |
| ItemRequestService.OwnRequests | server/src/main/java/ru/practicum/shareit/request/service/ItemRequestServiceImpl.java:42-53 | the user's requests, each as often as the table holds it and no other, newest first |
| ItemRequestService.RequestService.constructor | server/src/main/java/ru/practicum/shareit/request/service/ItemRequestServiceImpl.java:27 | an empty request table |
| ItemRequestService.RequestService.Create | server/src/main/java/ru/practicum/shareit/request/service/ItemRequestServiceImpl.java:33-38 | unknown user NotFound and nothing saved; else the request with the next id, the user and now is appended |
| ItemRequestService.GetUserRequests | server/src/main/java/ru/practicum/shareit/request/service/ItemRequestServiceImpl.java:42-53 | unknown user NotFound; else each of the user's requests as often as the table holds it and no other, each with its items, newest first |
| ItemRequestService.Page | server/src/main/java/ru/practicum/shareit/request/service/ItemRequestServiceImpl.java:57 | as written: limit 0 ArithmeticException; negative page index or limit below 1 IllegalArgument; else elements from `(offset / limit) * limit`, at most `limit` |
| ItemRequestService.PageFromOffset | server/src/main/java/ru/practicum/shareit/request/service/ItemRequestServiceImpl.java:57 | corrected: skip `offset` elements, take at most `limit` |
| ItemRequestService.PagesAgreeOnWholePages | server/src/main/java/ru/practicum/shareit/request/service/ItemRequestServiceImpl.java:57 | the two agree whenever the offset is a multiple of the limit |
| ItemRequestService.OffsetWithinPageRestartsPage | server/src/main/java/ru/practicum/shareit/request/service/ItemRequestServiceImpl.java:57 | limit 2, offset 1 returns the first two elements instead of the second and third |
| ItemRequestService.OffsetPastEndCanBeNonEmpty | server/src/main/java/ru/practicum/shareit/request/service/ItemRequestServiceImpl.java:57 | 3 elements, limit 2, offset 3 returns the last element instead of nothing |
| ItemRequestService.PageOfSortedIsSorted | server/src/main/java/ru/practicum/shareit/request/service/ItemRequestServiceImpl.java:57-58 | a page cut from the newest-first order is newest first |
| ItemRequestService.PageOfSortedIsStored | server/src/main/java/ru/practicum/shareit/request/service/ItemRequestServiceImpl.java:57-58 | a page cut from the sorted requests holds only stored requests |
| ItemRequestService.GetAllRequests | server/src/main/java/ru/practicum/shareit/request/service/ItemRequestServiceImpl.java:56-66 | errors as `Page`; else the answers to the sorted requests from index `(offset / limit) * limit`, at most `limit`, newest first, all stored; its requests are exactly that slice of the sorted table |
| ItemRequestService.GetAllRequestsFromOffset | server/src/main/java/ru/practicum/shareit/request/service/ItemRequestServiceImpl.java:56-66 | corrected: the answers to the sorted requests from index `offset`, at most `limit`, newest first; its requests are exactly that slice of the sorted table |
| ItemRequestService.GetRequest | server/src/main/java/ru/practicum/shareit/request/service/ItemRequestServiceImpl.java:70-80 | unknown id NotFound; else the request with that id and its items |

## Left out

- Controllers, the gateway and its HTTP clients: routing and forwarding only.
- Bean Validation and the database's column constraints are not modelled.
  Item creation in the JPA generations therefore requires name, description
  and availability instead of modelling a null:
  - ServerItemService.ItemService.Create: requires name, description and availability; the gateway's `Marker.OnCreate` validation of the creating body supplies them before the request reaches the server.
  - SrcItemService.ItemService.Create: requires name, description and availability. The controller activates a `Marker.OnCreate` group other than the one `ItemDto` names, so the body is not checked there. A missing field is refused only when the item is saved, by the entity's `@NotBlank` name, its `@NotNull` availability and the `NOT NULL` columns (src/main/java/ru/practicum/shareit/item/model/Item.java:20-28). That save-time refusal is part of the database, which the model leaves out.
  - SrcItemService.ItemService.Update: the same save-time checks would refuse a patch to a blank name or to a description over 200 characters; the model saves the patched item without them.
- The in-memory generation validates only the default group, which the
  creating body's checks are not in, so its items may lack any field:
  `ItemRecord` keeps them optional and the search models the resulting
  NullPointerException.
- The MapStruct mappers are treated as plain field copies, because the generated code is not visible. For the same reason:
  - The comment id `1L` that the service passes to the mapper, with the JPA merge it would cause, is not modelled; a comment gets the next id.
  - The same holds for the request id `0L` passed on request creation.
- Logging, transactions and the database itself are not modelled:
  - ordering among equal timestamps is left to the stable sort;
  - SQL `LIKE` wildcards inside the search text and database collation are not modelled.
- The clock (`LocalDateTime.now()`) is a `now` parameter. The request store, the user directory and the booking table that a service consults are parameters too.
- Case folding is ASCII only. Java's `toLowerCase`/`toUpperCase` fold the whole of Unicode and depend on the locale. The blank test uses Java's full whitespace set.
- Hash-map iteration order is not modelled. Operations that list a map return one entry per key in an order the model leaves open.
- SrcItemService.ItemSearch: the earlier repository's `searchAvailableItems` query is not part of this model, so its answer is a parameter.
- InMemoryItemRepository: items are values, so two references to one `Item` object are not modelled (the store never creates such aliases).
- InMemoryUserRepository.UserRepository.Update: requires the user to exist. The NullPointerException of a direct call for a missing user is not modelled, because its only caller checks first.
- InMemoryUserService.UserService.Create: builds the user from a name and an address rather than receiving a `User` object from the caller.
- InMemoryUserService.UserService.GetAllUsers: the fallback to an empty list on a NullPointerException is unreachable (the map is never null) and is not modelled.
- The JPA `getAllUsers` of both generations is `UserModel.GetAllUsers`, one function over the user table.
- The service models use the source as written; the corrected members of the findings stand beside them.

## Findings

| source | as written | input that shows it | evidently intended | confidence | as-written member | corrected member |
|---|---|---|---|---|---|---|
| src/main/java/ru/practicum/shareit/item/ItemServiceImpl.java:29 | `update` first calls `repository.getItem(owner)`, looking up an item whose id is the owner's id | owner 2 holds item 1 and no item has id 2; updating item 1 as owner 2 throws IllegalArgumentException | look up the item being updated, `getItem(id)` | high, not executed | InMemoryItemService.OwnerIdLookupRefusesOwnItem | InMemoryItemService.ItemLookupAcceptsOwnItem |
| src/main/java/ru/practicum/shareit/user/dao/UserRepository.java:38 | `update` re-inserts the user with `users.put(id, newUser)`, where `id` is the id counter, not `userId` | create user 1, then update its name: keys 1 and 2 both hold user 1 and `getAllUsers` lists it twice | `users.put(userId, newUser)` | high, not executed | InMemoryUserRepository.UpdateListsUserTwice | InMemoryUserRepository.FixedUpdateListsUserOnce |
| server/src/main/java/ru/practicum/shareit/request/service/ItemRequestServiceImpl.java:57 | `PageRequest.of(offset / limit, limit)` starts the page at the page boundary below `offset` | three requests, limit 2: offset 1 returns the first two (the first should be skipped); offset 3 returns the third (should be empty) | skip `offset` elements, then take `limit` | medium, not executed | ItemRequestService.OffsetWithinPageRestartsPage | ItemRequestService.GetAllRequestsFromOffset |
