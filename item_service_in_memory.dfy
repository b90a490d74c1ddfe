/** The in-memory item service of the earliest generation: it rejects a missing
    owner header, checks the repository before an update, and lower-cases the
    search text before handing it to the repository. */
module InMemoryItemService {
  import opened Common
  import opened Text
  import opened ItemModel
  import opened ItemDtoMapper
  import opened Sequences
  import opened InMemoryItemRepository

  /** `checkOwner`: a missing owner header is a BAD_REQUEST. */
  function CheckOwner(owner: Option<int>): (r: Option<Error>)
    ensures r.Some? <==> owner.None?
    ensures r.Some? ==> r.value == BadRequest
  {
    if owner.None? then Some(BadRequest) else None
  }

  class ItemService {
    const repository: ItemRepository

    ghost predicate Valid()
      reads this, repository
    {
      repository.Valid()
    }

    constructor ()
      ensures Valid() && fresh(repository)
      ensures repository.items == map[] && repository.id == 1
    {
      repository := new ItemRepository();
    }

    /** `create`: the owner header must be present; then the repository
        creates the item. */
    method Create(dto: ItemDto, owner: Option<int>) returns (r: Result<ItemRecord>)
      requires Valid()
      modifies repository
      ensures Valid()
      ensures owner.None? ==> r == Err(BadRequest) && unchanged(repository)
      ensures owner.Some? ==>
                r == Ok(ToItem(dto, old(repository.id), owner.value))
                && repository.id == old(repository.id) + 1
                && repository.items == old(repository.items)[owner.value :=
                     (if owner.value in old(repository.items) then old(repository.items)[owner.value] else map[])
                     [old(repository.id) := Some(r.value)]]
    {
      var check := CheckOwner(owner);
      if check.Some? {
        return Err(check.value);
      }
      var item := repository.Create(dto, owner.value);
      r := Ok(item);
    }

    /** `update` as written: after the owner check it looks up an item whose
        id is the OWNER's id and fails with IllegalArgument when there is
        none; only then does the repository update item `id`. */
    method Update(dto: ItemDto, owner: Option<int>, id: int) returns (r: Result<Option<ItemRecord>>)
      requires Valid()
      modifies repository
      ensures Valid() && repository.id == old(repository.id)
      ensures owner.None? ==> r == Err(BadRequest) && repository.items == old(repository.items)
      ensures owner.Some? && !HoldsId(old(repository.items), owner.value) ==>
                r == Err(IllegalArgument) && repository.items == old(repository.items)
      ensures owner.Some? && HoldsId(old(repository.items), owner.value) ==>
                r == UpdateResult(old(repository.items), dto, owner.value, id)
                && repository.items == AfterUpdate(old(repository.items), dto, owner.value, id)
    {
      var check := CheckOwner(owner);
      if check.Some? {
        return Err(check.value);
      }
      var found := repository.GetItem(owner.value);
      if found.Err? {
        return Err(found.error);
      }
      r := repository.Update(dto, owner.value, id);
    }

    /** The update the code evidently means: the existence check looks up the
        item being updated, so an owner can update an item they hold whatever
        their own id is. */
    method UpdateFixed(dto: ItemDto, owner: Option<int>, id: int) returns (r: Result<Option<ItemRecord>>)
      requires Valid()
      modifies repository
      ensures Valid() && repository.id == old(repository.id)
      ensures owner.None? ==> r == Err(BadRequest) && repository.items == old(repository.items)
      ensures owner.Some? && !HoldsId(old(repository.items), id) ==>
                r == Err(IllegalArgument) && repository.items == old(repository.items)
      ensures owner.Some? && HoldsId(old(repository.items), id) ==>
                r == UpdateResult(old(repository.items), dto, owner.value, id)
                && repository.items == AfterUpdate(old(repository.items), dto, owner.value, id)
      ensures owner.Some? && owner.value in old(repository.items)
              && Lookup(old(repository.items)[owner.value], id).Some? ==>
                r == Ok(Some(TextPatched(Lookup(old(repository.items)[owner.value], id).value, dto)))
    {
      var check := CheckOwner(owner);
      if check.Some? {
        return Err(check.value);
      }
      OwnerEntryIsHeld(repository.items, owner.value, id);
      var found := repository.GetItem(id);
      if found.Err? {
        return Err(found.error);
      }
      r := repository.Update(dto, owner.value, id);
    }

    /** `getItem`: the repository's lookup, with no owner check. */
    method GetItem(id: int) returns (r: Result<ItemRecord>)
      requires Valid()
      ensures r.Ok? <==> HoldsId(repository.items, id)
      ensures r.Err? ==> r.error == IllegalArgument
      ensures r.Ok? ==> r.value.id == id && r.value.owner in repository.items
                        && id in repository.items[r.value.owner]
                        && repository.items[r.value.owner][id] == Some(r.value)
    {
      r := repository.GetItem(id);
    }

    /** `getItemsForOwner`: the owner header must be present (BAD_REQUEST),
        and the owner must have a map (NotFound); then every entry of it. */
    method GetItemsForOwner(owner: Option<int>) returns (r: Result<seq<Option<ItemRecord>>>)
      requires Valid()
      ensures owner.None? ==> r == Err(BadRequest)
      ensures owner.Some? && owner.value !in repository.items ==> r == Err(NotFound)
      ensures r.Ok? <==> owner.Some? && owner.value in repository.items
      ensures r.Ok? ==> ListsValues(repository.items[owner.value], r.value)
      ensures r.Ok? ==> |r.value| == |repository.items[owner.value]|
                        && (forall k :: k in repository.items[owner.value] ==> repository.items[owner.value][k] in r.value)
                        && (forall i :: 0 <= i < |r.value| ==> r.value[i] in repository.items[owner.value].Values)
    {
      var check := CheckOwner(owner);
      if check.Some? {
        return Err(check.value);
      }
      r := repository.GetItemsForOwner(owner.value);
    }

    /** `itemSearch`: an empty text is an IllegalArgumentException; any other
        text is lower-cased and searched for, which throws when a stored item
        lacks a field the filter reads. */
    method ItemSearch(text: string) returns (r: Result<seq<ItemRecord>>)
      requires Valid()
      ensures text == [] ==> r == Err(IllegalArgument)
      ensures text != [] ==> (r.Err? <==> SearchThrows(repository.items, ToLower(text)))
      ensures text != [] && r.Err? ==> r.error == NullPointer
      ensures r.Ok? ==> forall x :: x in r.value <==>
                          StoredIn(repository.items, repository.items.Keys, x) && Matches(x, ToLower(text))
      ensures r.Ok? ==> Distinct(r.value)
    {
      if text == [] {
        return Err(IllegalArgument);
      }
      r := repository.SearchItems(ToLower(text));
    }
  }

  /** Because the text is lower-cased first, searching for its upper-cased
      form matches the same items. */
  lemma {:induction false} SearchIgnoresCase(x: ItemRecord, text: string)
    ensures FilterOutcome(x, ToLower(ToUpper(text))) == FilterOutcome(x, ToLower(text))
  {
    LowerOfUpper(text);
  }

  /** The update as written refuses an owner's own item: owner 2 holds item 1,
      no item has id 2, so the update of item 1 by owner 2 is an
      IllegalArgumentException. */
  method OwnerIdLookupRefusesOwnItem() returns (r: Result<Option<ItemRecord>>)
    ensures r == Err(IllegalArgument)
  {
    var service := new ItemService();
    var dto := ItemDto(Some("drill"), Some("cordless"), Some(true), None);
    var created := service.Create(dto, Some(2));
    assert service.repository.items == map[2 := map[1 := Some(created.value)]];
    assert !HoldsId(service.repository.items, 2);
    r := service.Update(ItemDto(None, None, Some(false), None), Some(2), 1);
  }

  /** The corrected update accepts the same request and patches the item. */
  method ItemLookupAcceptsOwnItem() returns (r: Result<Option<ItemRecord>>)
    ensures r.Ok? && r.value.Some? && r.value.value.available == Some(false)
  {
    var service := new ItemService();
    var dto := ItemDto(Some("drill"), Some("cordless"), Some(true), None);
    var created := service.Create(dto, Some(2));
    assert service.repository.items == map[2 := map[1 := Some(created.value)]];
    assert Lookup(service.repository.items[2], 1).Some?;
    r := service.UpdateFixed(ItemDto(None, None, Some(false), None), Some(2), 1);
  }

  /** Nothing checks the creating body, so an item can be stored without a
      name; from then on every search throws, whatever the text. */
  method NamelessItemBreaksSearch() returns (r: Result<seq<ItemRecord>>)
    ensures r == Err(NullPointer)
  {
    var service := new ItemService();
    var created := service.Create(ItemDto(None, Some("cordless"), Some(true), None), Some(1));
    assert service.repository.items[1][1] == Some(created.value);
    assert Throws(created.value, ToLower("drill"));
    r := service.ItemSearch("drill");
  }
}
