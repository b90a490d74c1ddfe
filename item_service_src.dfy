/** The earlier JPA item service (`src/.../item/service`). Unlike the later one
    its update does not check who owns the item and also patches the request,
    its `getItem` checks neither the caller nor the owner, and its search query
    lives in a repository that is not part of this model. */
module SrcItemService {
  import opened Common
  import opened BookingModel
  import opened BookingQueries
  import opened ItemModel
  import opened Sequences
  import ServerItemService
  import ServerItemRepository

  /** The outcome of `update`: the caller must exist and the item must exist
      (both NotFound); there is no ownership check; the fields present in the
      patch, the request included, overwrite the item's. */
  function UpdateResult(items: seq<Item>, users: set<int>, dto: ItemDto, owner: int, id: int): (r: Result<Item>)
    ensures r.Ok? <==> owner in users && FindItem(items, id).Some?
    ensures r.Err? ==> r.error == NotFound
    ensures r.Ok? ==> r.value == Patched(FindItem(items, id).value, dto, true)
  {
    if owner !in users then Err(NotFound)
    else match FindItem(items, id)
      case None => Err(NotFound)
      case Some(existing) => Ok(Patched(existing, dto, true))
  }

  /** The item and comment stores. */
  class ItemService {
    var items: seq<Item>
    var comments: seq<Comment>

    ghost predicate Valid()
      reads this
    {
      ItemStoreValid(items) && forall i :: 0 <= i < |comments| ==> comments[i].id == i + 1
    }

    constructor ()
      ensures Valid() && items == [] && comments == []
    {
      items := [];
      comments := [];
    }

    /** `create`: the DTO is mapped first, then the owner must exist
        (NotFound); the item is saved with the next id. */
    method Create(dto: ItemDto, owner: int, users: set<int>) returns (r: Result<Item>)
      requires Valid()
      requires dto.name.Some? && dto.description.Some? && dto.available.Some?
      modifies this
      ensures Valid() && comments == old(comments)
      ensures r.Ok? <==> owner in users
      ensures r.Err? ==> r.error == NotFound && items == old(items)
      ensures r.Ok? ==> r.value == Item(|old(items)| + 1, dto.name.value, dto.description.value,
                                        dto.available.value, owner, dto.requestId)
                        && items == old(items) + [r.value]
    {
      var item := Item(|items| + 1, dto.name.value, dto.description.value, dto.available.value, owner, dto.requestId);
      if owner !in users {
        return Err(NotFound);
      }
      items := items + [item];
      r := Ok(item);
    }

    /** `update`: the outcome is `UpdateResult`; on success the patched item
        replaces the stored one. */
    method Update(dto: ItemDto, owner: int, id: int, users: set<int>) returns (r: Result<Item>)
      requires Valid()
      modifies this
      ensures Valid() && comments == old(comments)
      ensures r == UpdateResult(old(items), users, dto, owner, id)
      ensures r.Ok? ==> 1 <= id <= |old(items)| && items == old(items)[id - 1 := r.value]
      ensures r.Err? ==> items == old(items)
    {
      r := UpdateResult(items, users, dto, owner, id);
      if r.Ok? {
        items := items[id - 1 := r.value];
      }
    }

    /** `addCommentToItem`: the same gate as the later service: author and
        item must exist (NotFound), and the author must have a finished
        APPROVED booking of the item (Validation). */
    method AddCommentToItem(userId: int, itemId: int, text: string, users: set<int>, bookings: seq<Booking>, now: Time)
      returns (r: Result<Comment>)
      requires Valid()
      modifies this
      ensures Valid() && items == old(items)
      ensures userId !in users ==> r == Err(NotFound)
      ensures userId in users && FindItem(items, itemId).None? ==> r == Err(NotFound)
      ensures r.Ok? <==> userId in users && FindItem(items, itemId).Some?
                         && exists b :: b in bookings && b.bookerId == userId && b.itemId == itemId
                                        && b.status == APPROVED && b.end < now
      ensures r.Err? && userId in users && FindItem(items, itemId).Some? ==> r.error == Validation
      ensures r.Err? ==> comments == old(comments)
      ensures r.Ok? ==> r.value == Comment(|old(comments)| + 1, text, itemId, userId, now)
                        && comments == old(comments) + [r.value]
    {
      if userId !in users {
        return Err(NotFound);
      }
      if FindItem(items, itemId).None? {
        return Err(NotFound);
      }
      var finished := FinishedApproved(bookings, userId, itemId, now);
      if finished == [] {
        return Err(Validation);
      }
      assert finished[0] in finished;
      var c := Comment(|comments| + 1, text, itemId, userId, now);
      comments := comments + [c];
      r := Ok(c);
    }
  }

  /** `getItem`: only the item must exist (NotFound); the last and next
      bookings are filled in only when the caller owns the item. */
  function GetItem(items: seq<Item>, comments: seq<Comment>, bookings: seq<Booking>,
                   itemId: int, userId: int, now: Time): (r: Result<ItemFullDto>)
    ensures r.Ok? <==> FindItem(items, itemId).Some?
    ensures r.Err? ==> r.error == NotFound
    ensures r.Ok? ==> r.value.item == FindItem(items, itemId).value
    ensures r.Ok? ==> forall c :: c in r.value.comments <==> c in comments && c.itemId == itemId
    ensures r.Ok? ==> forall c :: multiset(r.value.comments)[c] == if c.itemId == itemId then multiset(comments)[c] else 0
    ensures r.Ok? && userId != r.value.item.owner ==> r.value.lastBooking.None? && r.value.nextBooking.None?
    ensures r.Ok? && userId == r.value.item.owner ==>
              r.value.lastBooking == LastBooking(bookings, itemId, now)
              && r.value.nextBooking == NextBooking(bookings, itemId, now)
  {
    match FindItem(items, itemId)
    case None => Err(NotFound)
    case Some(item) =>
      var itemComments := CommentsOf(comments, itemId);
      var isOwner := userId == item.owner;
      var last := if isOwner then LastBooking(bookings, itemId, now) else None;
      var next := if isOwner then NextBooking(bookings, itemId, now) else None;
      Ok(ItemFullDto(item, last, next, itemComments))
  }

  /** `getItemsForOwner`: no check of the owner; the derived query
      `findByOwner` selects the items whose owner column is `owner`, each as
      often as the table holds it. */
  function GetItemsForOwner(items: seq<Item>, owner: int): (r: seq<Item>)
    ensures forall it :: it in r <==> it in items && it.owner == owner
    ensures forall it :: multiset(r)[it] == if it.owner == owner then multiset(items)[it] else 0
  {
    ServerItemRepository.FindByOwner(items, owner)
  }

  /** `itemSearch`: an empty text finds nothing without querying; any other
      text gets the repository's answer, passed in as `found`. */
  function ItemSearch(text: string, found: seq<Item>): (r: seq<Item>)
    ensures text == [] ==> r == []
    ensures text != [] ==> r == found
  {
    if text == [] then [] else found
  }

  /** The earlier update lets anyone who exists change anyone's item; the
      later one answers NotFound. */
  lemma UpdateByStrangerDiffers(items: seq<Item>, users: set<int>, dto: ItemDto, caller: int, id: int)
    requires caller in users && FindItem(items, id).Some? && FindItem(items, id).value.owner != caller
    ensures UpdateResult(items, users, dto, caller, id).Ok?
    ensures ServerItemService.UpdateResult(items, users, dto, caller, id) == Err(NotFound)
  {
  }

  /** For the owner, both updates succeed together and patch the same fields,
      except that only the earlier one copies the request. */
  lemma UpdateByOwnerAgrees(items: seq<Item>, users: set<int>, dto: ItemDto, owner: int, id: int)
    requires FindItem(items, id).Some? && FindItem(items, id).value.owner == owner
    ensures UpdateResult(items, users, dto, owner, id).Ok? <==> ServerItemService.UpdateResult(items, users, dto, owner, id).Ok?
    ensures UpdateResult(items, users, dto, owner, id).Ok? ==>
            UpdateResult(items, users, dto, owner, id).value
            == ServerItemService.UpdateResult(items, users, dto, owner, id).value.(request := Patched(FindItem(items, id).value, dto, true).request)
  {
  }
}
