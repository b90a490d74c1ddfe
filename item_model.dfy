/** Items, the request body that creates or patches them, and comments, shared
    by every generation of the item service. */
module ItemModel {
  import opened Common
  import opened Text
  import opened BookingModel
  import Sequences

  /** An item offered for rent. `request` is the id of the item request it
      answers, if any. */
  datatype Item = Item(
    id: int,
    name: string,
    description: string,
    available: bool,
    owner: int,
    request: Option<int>)

  /** An item as the in-memory generation keeps it. Nothing validates the
      creating body there, so name, description and availability may each be
      null (`None`). */
  datatype ItemRecord = ItemRecord(
    id: int,
    name: Option<string>,
    description: Option<string>,
    available: Option<bool>,
    owner: int,
    request: Option<int>)

  /** The item request body: every field may be absent (null). On creation the
      first three are present; on a patch any subset may be. */
  datatype ItemDto = ItemDto(
    name: Option<string>,
    description: Option<string>,
    available: Option<bool>,
    requestId: Option<int>)

  /** A comment left on an item by a user who rented it. */
  datatype Comment = Comment(id: int, text: string, itemId: int, authorId: int, created: Time)

  /** The comments on item `itemId` (`findAllByItemId`), in store order, each
      as often as the store holds it. */
  function CommentsOf(comments: seq<Comment>, itemId: int): (r: seq<Comment>)
    ensures forall c :: c in r <==> c in comments && c.itemId == itemId
    ensures forall c :: multiset(r)[c] == if c.itemId == itemId then multiset(comments)[c] else 0
  {
    var onItem := Sequences.Filter(comments, (c: Comment) => c.itemId == itemId);
    assert forall c :: multiset(onItem)[c] == if c.itemId == itemId then multiset(comments)[c] else 0 by {
      forall c ensures multiset(onItem)[c] == if c.itemId == itemId then multiset(comments)[c] else 0 {
        Sequences.FilterCounts(comments, (c: Comment) => c.itemId == itemId, c);
      }
    }
    onItem
  }

  /** What `getItem` answers: the item, its last and next approved bookings
      (shown to the owner only) and its comments. */
  datatype ItemFullDto = ItemFullDto(
    item: Item,
    lastBooking: Option<Booking>,
    nextBooking: Option<Booking>,
    comments: seq<Comment>)

  /** What the database holds at all times: the item with id k is at index
      k - 1 (identity ids are handed out in order and items are never deleted). */
  ghost predicate ItemStoreValid(items: seq<Item>) {
    forall i :: 0 <= i < |items| ==> items[i].id == i + 1
  }

  /** `itemRepository.findById`. */
  function FindItem(items: seq<Item>, id: int): (r: Option<Item>)
    ensures r.Some? ==> r.value in items
    ensures ItemStoreValid(items) ==> (r.Some? <==> exists it :: it in items && it.id == id)
    ensures ItemStoreValid(items) && r.Some? ==> r.value.id == id
  {
    if 1 <= id <= |items| then Some(items[id - 1]) else None
  }

  /** The partial update of the JPA services: each field present in the patch
      overwrites the stored one; id, owner and (unless `withRequest`) the
      request stay as they were. */
  function Patched(it: Item, dto: ItemDto, withRequest: bool): (r: Item)
    ensures r.id == it.id && r.owner == it.owner
    ensures r.name == dto.name.GetOr(it.name)
    ensures r.description == dto.description.GetOr(it.description)
    ensures r.available == dto.available.GetOr(it.available)
    ensures r.request == if withRequest && dto.requestId.Some? then dto.requestId else it.request
  {
    var name := if dto.name.Some? then dto.name.value else it.name;
    var description := if dto.description.Some? then dto.description.value else it.description;
    var available := if dto.available.Some? then dto.available.value else it.available;
    var request := if withRequest && dto.requestId.Some? then dto.requestId else it.request;
    Item(it.id, name, description, available, it.owner, request)
  }

  /** A patch with no field present changes nothing. */
  lemma EmptyPatchIsIdentity(it: Item, withRequest: bool)
    ensures Patched(it, ItemDto(None, None, None, None), withRequest) == it
  {
  }

  /** Applying the same patch twice is applying it once. */
  lemma PatchIdempotent(it: Item, dto: ItemDto, withRequest: bool)
    ensures Patched(Patched(it, dto, withRequest), dto, withRequest) == Patched(it, dto, withRequest)
  {
  }
}
