/** The later item service (`server/`): creation, the owner-checked partial
    update and comments change the stores; viewing, listing and searching read
    them. Users, item requests and bookings it consults are given as
    parameters. */
module ServerItemService {
  import opened Common
  import opened BookingModel
  import opened BookingQueries
  import opened ItemModel
  import opened Sequences
  import opened ServerItemRepository

  /** The outcome of `update`: the caller must exist, the item must exist and
      the caller must own it, each failure being NotFound; then the fields
      present in the patch overwrite the item's (the request is never
      patched). */
  function UpdateResult(items: seq<Item>, users: set<int>, dto: ItemDto, owner: int, id: int): (r: Result<Item>)
    ensures r.Ok? <==> owner in users && FindItem(items, id).Some? && FindItem(items, id).value.owner == owner
    ensures r.Err? ==> r.error == NotFound
    ensures r.Ok? ==> r.value == Patched(FindItem(items, id).value, dto, false)
  {
    if owner !in users then Err(NotFound)
    else match FindItem(items, id)
      case None => Err(NotFound)
      case Some(existing) =>
        if existing.owner != owner then Err(NotFound)
        else Ok(Patched(existing, dto, false))
  }

  /** The item and comment stores. */
  class ItemService {
    var items: seq<Item>
    var comments: seq<Comment>

    ghost predicate Valid()
      reads this
    {
      ItemStoreValid(items) && forall i :: 0 <= i < |comments| ==> comments[i].id == i + 1
    }

    constructor ()
      ensures Valid() && items == [] && comments == []
    {
      items := [];
      comments := [];
    }

    /** `create`: the owner must exist, and a request id, when given, must name
        an existing request (both NotFound); the item is saved with the next
        id. */
    method Create(dto: ItemDto, owner: int, users: set<int>, requestIds: set<int>) returns (r: Result<Item>)
      requires Valid()
      requires dto.name.Some? && dto.description.Some? && dto.available.Some?
      modifies this
      ensures Valid() && comments == old(comments)
      ensures r.Ok? <==> owner in users && (dto.requestId.Some? ==> dto.requestId.value in requestIds)
      ensures r.Err? ==> r.error == NotFound && items == old(items)
      ensures r.Ok? ==> r.value == Item(|old(items)| + 1, dto.name.value, dto.description.value,
                                        dto.available.value, owner, dto.requestId)
                        && items == old(items) + [r.value]
    {
      if owner !in users {
        return Err(NotFound);
      }
      if dto.requestId.Some? && dto.requestId.value !in requestIds {
        return Err(NotFound);
      }
      var item := Item(|items| + 1, dto.name.value, dto.description.value, dto.available.value, owner, dto.requestId);
      items := items + [item];
      r := Ok(item);
    }

    /** `update`: the outcome is `UpdateResult`; on success the patched item
        replaces the stored one and nothing else changes. */
    method Update(dto: ItemDto, owner: int, id: int, users: set<int>) returns (r: Result<Item>)
      requires Valid()
      modifies this
      ensures Valid() && comments == old(comments)
      ensures r == UpdateResult(old(items), users, dto, owner, id)
      ensures r.Ok? ==> 1 <= id <= |old(items)| && items == old(items)[id - 1 := r.value]
      ensures r.Err? ==> items == old(items)
    {
      r := UpdateResult(items, users, dto, owner, id);
      if r.Ok? {
        items := items[id - 1 := r.value];
      }
    }

    /** `addCommentToItem`: the author must exist and the item must exist (both
        NotFound); the author must have an APPROVED booking of the item that
        ended before `now` (Validation); the comment is saved with the next id,
        the item, the author and `now`. */
    method AddCommentToItem(userId: int, itemId: int, text: string, users: set<int>, bookings: seq<Booking>, now: Time)
      returns (r: Result<Comment>)
      requires Valid()
      modifies this
      ensures Valid() && items == old(items)
      ensures userId !in users ==> r == Err(NotFound)
      ensures userId in users && FindItem(items, itemId).None? ==> r == Err(NotFound)
      ensures r.Ok? <==> userId in users && FindItem(items, itemId).Some?
                         && exists b :: b in bookings && b.bookerId == userId && b.itemId == itemId
                                        && b.status == APPROVED && b.end < now
      ensures r.Err? && userId in users && FindItem(items, itemId).Some? ==> r.error == Validation
      ensures r.Err? ==> comments == old(comments)
      ensures r.Ok? ==> r.value == Comment(|old(comments)| + 1, text, itemId, userId, now)
                        && comments == old(comments) + [r.value]
    {
      if userId !in users {
        return Err(NotFound);
      }
      if FindItem(items, itemId).None? {
        return Err(NotFound);
      }
      var finished := FinishedApproved(bookings, userId, itemId, now);
      if finished == [] {
        return Err(Validation);
      }
      assert finished[0] in finished;
      var c := Comment(|comments| + 1, text, itemId, userId, now);
      comments := comments + [c];
      r := Ok(c);
    }
  }

  /** `getItem`: the caller must exist, the item must exist, and so must its
      owner (each NotFound). The last and next bookings are filled in only when
      the caller owns the item. */
  function GetItem(items: seq<Item>, comments: seq<Comment>, users: set<int>, bookings: seq<Booking>,
                   itemId: int, userId: int, now: Time): (r: Result<ItemFullDto>)
    ensures r.Ok? <==> userId in users && FindItem(items, itemId).Some? && FindItem(items, itemId).value.owner in users
    ensures r.Err? ==> r.error == NotFound
    ensures r.Ok? ==> r.value.item == FindItem(items, itemId).value
    ensures r.Ok? ==> forall c :: c in r.value.comments <==> c in comments && c.itemId == itemId
    ensures r.Ok? ==> forall c :: multiset(r.value.comments)[c] == if c.itemId == itemId then multiset(comments)[c] else 0
    ensures r.Ok? && userId != r.value.item.owner ==> r.value.lastBooking.None? && r.value.nextBooking.None?
    ensures r.Ok? && userId == r.value.item.owner ==>
              r.value.lastBooking == LastBooking(bookings, itemId, now)
              && r.value.nextBooking == NextBooking(bookings, itemId, now)
  {
    if userId !in users then Err(NotFound)
    else match FindItem(items, itemId)
      case None => Err(NotFound)
      case Some(item) =>
        var itemComments := CommentsOf(comments, itemId);
        var isOwner := userId == item.owner;
        var last := if isOwner then LastBooking(bookings, itemId, now) else None;
        var next := if isOwner then NextBooking(bookings, itemId, now) else None;
        if item.owner !in users then Err(NotFound)
        else Ok(ItemFullDto(item, last, next, itemComments))
  }

  /** `getItemsForOwner`: no check of the owner; the owner's items. */
  function GetItemsForOwner(items: seq<Item>, owner: int): (r: seq<Item>)
    ensures forall it :: it in r <==> it in items && it.owner == owner
    ensures forall it :: multiset(r)[it] == if it.owner == owner then multiset(items)[it] else 0
  {
    ServerItemRepository.FindByOwner(items, owner)
  }

  /** `itemSearch`: an empty text finds nothing, without querying; any other
      text is searched for ignoring case among the available items. */
  function ItemSearch(items: seq<Item>, text: string): (r: seq<Item>)
    ensures text == [] ==> r == []
    ensures text != [] ==> forall it :: it in r <==> it in items && Matches(it, text)
    ensures text != [] ==> forall it :: multiset(r)[it] == if Matches(it, text) then multiset(items)[it] else 0
  {
    if text == [] then [] else SearchItem(items, text)
  }

  /** An update by anyone but the owner fails, so an item can change only at
      its owner's request. */
  lemma UpdateOnlyByOwner(items: seq<Item>, users: set<int>, dto: ItemDto, caller: int, id: int)
    requires FindItem(items, id).Some? && FindItem(items, id).value.owner != caller
    ensures UpdateResult(items, users, dto, caller, id) == Err(NotFound)
  {
  }

  /** An update keeps the store well formed and every other item as it was. */
  lemma {:induction false} UpdateKeepsStoreValid(items: seq<Item>, users: set<int>, dto: ItemDto, owner: int, id: int)
    requires ItemStoreValid(items)
    requires UpdateResult(items, users, dto, owner, id).Ok?
    ensures 1 <= id <= |items|
    ensures ItemStoreValid(items[id - 1 := UpdateResult(items, users, dto, owner, id).value])
  {
  }
}
