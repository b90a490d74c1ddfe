/** The in-memory item store of the earliest generation: a hash map from owner
    id to a hash map from item id to item, and a counter that hands out ids.

    The inner maps may hold null: an update of an id the owner does not hold,
    with nothing to change, stores null under that id. Null is `None` here. */
module InMemoryItemRepository {
  import opened Common
  import opened Text
  import opened ItemModel
  import opened ItemDtoMapper
  import opened Sequences

  /** The entry under `k`, or null when there is none. */
  function Lookup(m: map<int, Option<ItemRecord>>, k: int): (r: Option<ItemRecord>)
    ensures r.Some? ==> k in m && m[k] == r
    ensures r.None? ==> k !in m || m[k].None?
  {
    if k in m then m[k] else None
  }

  /** Whether an update with this body sets at least one field: name and
      description count only when they have text, the rest when present. */
  predicate SetsSomething(dto: ItemDto) {
    HasText(dto.name) || HasText(dto.description) || dto.available.Some? || dto.requestId.Some?
  }

  /** The item after `update`: name and description are replaced only by text
      that is not empty and not blank, availability and request whenever
      present; id and owner never change. */
  function TextPatched(it: ItemRecord, dto: ItemDto): (r: ItemRecord)
    ensures r.id == it.id && r.owner == it.owner
    ensures r.name == (if HasText(dto.name) then dto.name else it.name)
    ensures r.description == (if HasText(dto.description) then dto.description else it.description)
    ensures r.available == (if dto.available.Some? then dto.available else it.available)
    ensures r.request == (if dto.requestId.Some? then dto.requestId else it.request)
  {
    it.(name := if HasText(dto.name) then dto.name else it.name)
      .(description := if HasText(dto.description) then dto.description else it.description)
      .(available := if dto.available.Some? then dto.available else it.available)
      .(request := if dto.requestId.Some? then dto.requestId else it.request)
  }

  /** The name is present and, lower-cased, contains `text`. */
  predicate NameHas(it: ItemRecord, text: string) {
    it.name.Some? && Contains(ToLower(it.name.value), text)
  }

  /** The description is present and, lower-cased, contains `text`. */
  predicate DescriptionHas(it: ItemRecord, text: string) {
    it.description.Some? && Contains(ToLower(it.description.value), text)
  }

  /** The search condition of this store: the lower-cased name or description
      contains `text` as given (the caller lower-cases it), and the item is
      available. */
  predicate Matches(it: ItemRecord, text: string) {
    (NameHas(it, text) || DescriptionHas(it, text)) && it.available == Some(true)
  }

  /** Whether the condition, read left to right, reaches a null field: the
      name always, the description when the name does not match, and the
      availability when one of them does. */
  predicate Throws(it: ItemRecord, text: string) {
    it.name.None?
    || (!NameHas(it, text) && it.description.None?)
    || ((NameHas(it, text) || DescriptionHas(it, text)) && it.available.None?)
  }

  /** How the search filter ends for one stored item: `Some(b)` when it
      decides `b`, `None` when it dereferences a null field (a
      NullPointerException). */
  function FilterOutcome(it: ItemRecord, text: string): (r: Option<bool>)
    ensures r.None? <==> Throws(it, text)
    ensures r.Some? ==> (r.value <==> Matches(it, text))
  {
    match it.name
    case None => None
    case Some(n) =>
      if Contains(ToLower(n), text) then it.available
      else
        match it.description
        case None => None
        case Some(d) => if Contains(ToLower(d), text) then it.available else Some(false)
  }

  /** Whether some non-null entry of `vals` makes the filter throw. */
  function AnyThrows(vals: seq<Option<ItemRecord>>, text: string): (r: bool)
    ensures r <==> exists i :: 0 <= i < |vals| && vals[i].Some? && Throws(vals[i].value, text)
  {
    if vals == [] then false
    else
      var rest := AnyThrows(vals[1..], text);
      assert forall i :: 0 < i < |vals| ==> vals[i] == vals[1..][i - 1];
      (vals[0].Some? && Throws(vals[0].value, text)) || rest
  }

  /** The non-null entries of `vals` that match `text`, each as often as
      `vals` holds it. */
  function PresentMatching(vals: seq<Option<ItemRecord>>, text: string): (r: seq<ItemRecord>)
    ensures forall x :: x in r <==> Some(x) in vals && Matches(x, text)
    ensures forall x :: multiset(r)[x] == if Matches(x, text) then multiset(vals)[Some(x)] else 0
  {
    if vals == [] then []
    else
      var rest := PresentMatching(vals[1..], text);
      assert forall v :: v in vals <==> v == vals[0] || v in vals[1..];
      assert vals == [vals[0]] + vals[1..];
      if vals[0].Some? && Matches(vals[0].value, text) then [vals[0].value] + rest else rest
  }

  /** Whether the map of one of `owners` holds item `x`. */
  ghost predicate StoredIn(items: map<int, map<int, Option<ItemRecord>>>, owners: set<int>, x: ItemRecord) {
    exists o, k :: o in owners && o in items && k in items[o] && items[o][k] == Some(x)
  }

  /** Whether one owner's map holds an item whose filter throws. */
  ghost predicate EntriesThrow(entries: map<int, Option<ItemRecord>>, text: string) {
    exists k :: k in entries && entries[k].Some? && Throws(entries[k].value, text)
  }

  /** Whether the search reaches a stored item whose filter throws. */
  ghost predicate SearchThrows(items: map<int, map<int, Option<ItemRecord>>>, text: string) {
    exists o :: o in items && EntriesThrow(items[o], text)
  }

  /** One owner's part of `searchItems`: the matching non-null items of that
      owner's map, each as often as the map holds it, or a
      NullPointerException when one of them throws. `vals` is the map's
      entries in iteration order, one per key of `ks`. */
  method OwnerMatches(entries: map<int, Option<ItemRecord>>, text: string)
    returns (r: Result<seq<ItemRecord>>, ghost vals: seq<Option<ItemRecord>>, ghost ks: seq<int>)
    ensures r.Err? <==> EntriesThrow(entries, text)
    ensures r.Err? ==> r.error == NullPointer
    ensures r.Ok? ==> forall x :: x in r.value <==> Some(x) in vals && Matches(x, text)
    ensures r.Ok? ==> forall x :: multiset(r.value)[x] == if Matches(x, text) then multiset(vals)[Some(x)] else 0
    ensures ListedBy(entries, vals, ks)
    ensures forall k :: k in entries ==> entries[k] in vals
    ensures forall i :: 0 <= i < |vals| ==> vals[i] in entries.Values
  {
    var listed := Values(entries);
    vals := listed;
    ks :| ListedBy(entries, listed, ks);
    if AnyThrows(listed, text) {
      var i :| 0 <= i < |listed| && listed[i].Some? && Throws(listed[i].value, text);
      ValueHasKey(entries, listed[i]);
      return Err(NullPointer), vals, ks;
    }
    r := Ok(PresentMatching(listed, text));
  }

  /** Taking in one more owner adds exactly the items among that owner's
      entries, whatever order they are listed in. */
  lemma {:induction false} StoredStep(items: map<int, map<int, Option<ItemRecord>>>, done: set<int>, o: int, vals: seq<Option<ItemRecord>>)
    requires o in items
    requires forall k :: k in items[o] ==> items[o][k] in vals
    requires forall i :: 0 <= i < |vals| ==> vals[i] in items[o].Values
    ensures forall x :: StoredIn(items, done + {o}, x) <==> StoredIn(items, done, x) || Some(x) in vals
  {
    forall x ensures StoredIn(items, done + {o}, x) <==> StoredIn(items, done, x) || Some(x) in vals {
      if Some(x) in vals {
        var i :| 0 <= i < |vals| && vals[i] == Some(x);
        ValueHasKey(items[o], vals[i]);
        var k :| k in items[o] && items[o][k] == vals[i];
        assert o in done + {o};
      }
      if StoredIn(items, done + {o}, x) {
        var o', k :| o' in done + {o} && o' in items && k in items[o'] && items[o'][k] == Some(x);
        if o' == o {
          assert items[o][k] in vals;
        } else {
          assert o' in done;
        }
      }
    }
  }

  /** In a well-formed store each item of an owner's map sits under its own
      id, so the matching part of that map holds every item at most once, and
      only items of that owner. */
  lemma {:induction false} OwnerPartIsDistinct(items: map<int, map<int, Option<ItemRecord>>>, id: int, o: int,
                                               vals: seq<Option<ItemRecord>>, ks: seq<int>,
                                               part: seq<ItemRecord>, text: string)
    requires StoreValid(items, id) && o in items
    requires ListedBy(items[o], vals, ks)
    requires forall x :: multiset(part)[x] == if Matches(x, text) then multiset(vals)[Some(x)] else 0
    ensures forall x :: multiset(part)[x] <= 1
    ensures forall x :: x in part ==> x.owner == o
  {
    forall x ensures multiset(part)[x] <= 1 {
      forall i, j | 0 <= i < j < |vals| && vals[i] == Some(x) ensures vals[j] != Some(x) {
        assert ks[i] != ks[j];
        assert items[o][ks[i]] == Some(x);
        assert vals[j] == items[o][ks[j]];
        assert vals[j].Some? ==> vals[j].value.id == ks[j];
      }
      AtMostOnce(vals, Some(x));
    }
    forall x | x in part ensures x.owner == o {
      assert multiset(vals)[Some(x)] > 0;
      var i :| 0 <= i < |vals| && vals[i] == Some(x);
      var k := ks[i];
      assert k in items[o] && items[o][k] == Some(x);
      assert items[o][k].value.owner == o;
    }
  }

  /** Appending one owner's part, whose items occur at most once and belong
      to that owner, to the items of other owners found so far keeps every
      item at most once. */
  lemma {:induction false} AppendOwnerPart(found: seq<ItemRecord>, part: seq<ItemRecord>, done: set<int>, o: int)
    requires o !in done
    requires forall x :: multiset(found)[x] <= 1
    requires forall x :: x in found ==> x.owner in done
    requires forall x :: multiset(part)[x] <= 1
    requires forall x :: x in part ==> x.owner == o
    ensures forall x :: multiset(found + part)[x] <= 1
    ensures forall x :: x in found + part ==> x.owner in done + {o}
  {
    forall x ensures multiset(found + part)[x] <= 1 {
      assert multiset(found + part)[x] == multiset(found)[x] + multiset(part)[x];
      if x in part {
        assert x !in found;
      }
    }
  }

  /** A value of an owner's map is stored under some item id. */
  lemma {:induction false} ValueHasKey(m: map<int, Option<ItemRecord>>, v: Option<ItemRecord>)
    requires v in m.Values
    ensures exists k :: k in m && m[k] == v
  {
    if forall k :: k in m ==> m[k] != v {
      assert false;
    }
  }

  /** Every stored item sits under its own id and its own owner and has an id
      below the counter; no id holds an item under two owners. (Null entries
      may sit under any id.) */
  ghost predicate StoreValid(items: map<int, map<int, Option<ItemRecord>>>, id: int) {
    id >= 1
    && (forall o, k :: o in items && k in items[o] && items[o][k].Some? ==>
          items[o][k].value.id == k && items[o][k].value.owner == o && 1 <= k < id)
    && (forall o1, o2, k :: (o1 in items && o2 in items && k in items[o1] && k in items[o2]
          && items[o1][k].Some? && items[o2][k].Some?) ==> o1 == o2)
  }

  /** Whether some owner holds an item with id `itemId`. */
  ghost predicate HoldsId(items: map<int, map<int, Option<ItemRecord>>>, itemId: int) {
    exists o :: o in items && itemId in items[o] && items[o][itemId].Some?
  }

  /** An item in its owner's map is held by the store. */
  lemma {:induction false} OwnerEntryIsHeld(items: map<int, map<int, Option<ItemRecord>>>, owner: int, itemId: int)
    ensures owner in items && Lookup(items[owner], itemId).Some? ==> HoldsId(items, itemId)
  {
    if owner in items && Lookup(items[owner], itemId).Some? {
      assert itemId in items[owner] && items[owner][itemId].Some?;
    }
  }

  /** What `update` returns or throws: an owner without a map, or an id the
      owner does not hold together with a body that sets something, end in a
      NullPointerException; an id the owner does not hold with an empty body
      gives null; a held item comes back patched. */
  function UpdateResult(items: map<int, map<int, Option<ItemRecord>>>, dto: ItemDto, owner: int, itemId: int)
    : (r: Result<Option<ItemRecord>>)
    ensures r.Err? <==> owner !in items || (Lookup(items[owner], itemId).None? && SetsSomething(dto))
    ensures r.Err? ==> r.error == NullPointer
    ensures r == Ok(None) <==> owner in items && Lookup(items[owner], itemId).None? && !SetsSomething(dto)
    ensures r.Ok? && r.value.Some? ==>
              owner in items && Lookup(items[owner], itemId).Some?
              && r.value.value == TextPatched(Lookup(items[owner], itemId).value, dto)
  {
    if owner !in items then Err(NullPointer)
    else
      var oldItem := Lookup(items[owner], itemId);
      if oldItem.None? then
        if SetsSomething(dto) then Err(NullPointer) else Ok(None)
      else Ok(Some(TextPatched(oldItem.value, dto)))
  }

  /** The store after `update`: when it returns, the owner's map holds the
      returned entry under `itemId`; when it throws, nothing changed. */
  function AfterUpdate(items: map<int, map<int, Option<ItemRecord>>>, dto: ItemDto, owner: int, itemId: int)
    : (r: map<int, map<int, Option<ItemRecord>>>)
    ensures r.Keys == items.Keys
    ensures forall o :: o in items && o != owner ==> r[o] == items[o]
    ensures UpdateResult(items, dto, owner, itemId).Ok? ==>
              r[owner] == items[owner][itemId := UpdateResult(items, dto, owner, itemId).value]
    ensures UpdateResult(items, dto, owner, itemId).Err? ==> r == items
  {
    var res := UpdateResult(items, dto, owner, itemId);
    if res.Ok? then items[owner := items[owner][itemId := res.value]] else items
  }

  /** An update keeps the store well formed: a patched item keeps its id and
      its owner, and a null entry holds no item. */
  lemma {:induction false} UpdateKeepsStoreValid(items: map<int, map<int, Option<ItemRecord>>>, id: int,
                                                 dto: ItemDto, owner: int, itemId: int)
    requires StoreValid(items, id)
    ensures StoreValid(AfterUpdate(items, dto, owner, itemId), id)
  {
    var after: map<int, map<int, Option<ItemRecord>>> := AfterUpdate(items, dto, owner, itemId);
    var res := UpdateResult(items, dto, owner, itemId);
    if res.Ok? && res.value.Some? {
      var prev := Lookup(items[owner], itemId).value;
      assert prev.id == itemId && prev.owner == owner;
      forall o: int, k: int | o in after && k in after[o] && after[o][k].Some?
        ensures after[o][k].value.id == k && after[o][k].value.owner == o && 1 <= k < id
      {
        if o == owner && k == itemId {
          assert after[o][k].value == TextPatched(prev, dto);
        } else {
          assert after[o][k] == items[o][k];
        }
      }
      forall o1: int, o2: int, k: int | (o1 in after && o2 in after && k in after[o1] && k in after[o2]
                          && after[o1][k].Some? && after[o2][k].Some?)
        ensures o1 == o2
      {
        assert after[o1][k].value.id == k && after[o1][k].value.owner == o1;
        assert after[o2][k].value.id == k && after[o2][k].value.owner == o2;
      }
    }
  }

  class ItemRepository {
    var items: map<int, map<int, Option<ItemRecord>>>
    var id: int

    ghost predicate Valid()
      reads this
    {
      StoreValid(items, id)
    }

    constructor ()
      ensures Valid() && items == map[] && id == 1
    {
      items := map[];
      id := 1;
    }

    /** `create`: the item gets the counter as id and goes into its owner's
        map (made if missing), beside the items already there; the counter
        moves on. */
    method Create(dto: ItemDto, owner: int) returns (r: ItemRecord)
      requires Valid()
      modifies this
      ensures Valid()
      ensures r == ToItem(dto, old(id), owner)
      ensures id == old(id) + 1
      ensures items == old(items)[owner := (if owner in old(items) then old(items)[owner] else map[])[old(id) := Some(r)]]
    {
      r := ToItem(dto, id, owner);
      var itemsMap: map<int, Option<ItemRecord>>;
      if owner in items {
        itemsMap := items[owner];
      } else {
        itemsMap := map[];
      }
      itemsMap := itemsMap[id := Some(r)];
      items := items[owner := itemsMap];
      id := id + 1;
    }

    /** `update`: the outcome is `UpdateResult`, the new store `AfterUpdate`;
        the counter does not move. */
    method Update(dto: ItemDto, owner: int, itemId: int) returns (r: Result<Option<ItemRecord>>)
      requires Valid()
      modifies this
      ensures Valid() && id == old(id)
      ensures r == UpdateResult(old(items), dto, owner, itemId)
      ensures items == AfterUpdate(old(items), dto, owner, itemId)
    {
      UpdateKeepsStoreValid(items, id, dto, owner, itemId);
      if owner !in items {
        return Err(NullPointer);
      }
      var itemsMap := items[owner];
      var oldItem := Lookup(itemsMap, itemId);
      if oldItem.None? {
        if SetsSomething(dto) {
          return Err(NullPointer);
        }
        items := items[owner := itemsMap[itemId := None]];
        return Ok(None);
      }
      var patched := TextPatched(oldItem.value, dto);
      items := items[owner := itemsMap[itemId := Some(patched)]];
      r := Ok(Some(patched));
    }

    /** `getItem`: the item with that id under whichever owner holds it, or
        IllegalArgument when no owner does. */
    method GetItem(itemId: int) returns (r: Result<ItemRecord>)
      requires Valid()
      ensures r.Ok? ==> r.value.id == itemId && r.value.owner in items && itemId in items[r.value.owner]
                        && items[r.value.owner][itemId] == Some(r.value)
      ensures r.Err? ==> r.error == IllegalArgument && !HoldsId(items, itemId)
    {
      var m := items;
      var owners := m.Keys;
      while owners != {}
        invariant owners <= m.Keys
        invariant forall o :: o in m && o !in owners && itemId in m[o] ==> m[o][itemId].None?
        decreases owners
      {
        NonEmptyHasElement(owners);
        var o :| o in owners;
        var found := Lookup(m[o], itemId);
        if found.Some? {
          return Ok(found.value);
        }
        owners := owners - {o};
      }
      r := Err(IllegalArgument);
    }

    /** `getItemsForOwner`: every entry of the owner's map (nulls included), or
        NotFound when the owner has no map. */
    method GetItemsForOwner(owner: int) returns (r: Result<seq<Option<ItemRecord>>>)
      ensures owner !in items <==> r == Err(NotFound)
      ensures r.Ok? <==> owner in items
      ensures r.Ok? ==> ListsValues(items[owner], r.value)
      ensures r.Ok? ==> |r.value| == |items[owner]|
                        && (forall k :: k in items[owner] ==> items[owner][k] in r.value)
                        && (forall i :: 0 <= i < |r.value| ==> r.value[i] in items[owner].Values)
    {
      if owner !in items {
        return Err(NotFound);
      }
      var vals := Values(items[owner]);
      r := Ok(vals);
    }

    /** `searchItems`: the non-null items of every owner that match `text`;
        a NullPointerException when the filter meets a stored item with a
        null field it needs. */
    method SearchItems(text: string) returns (r: Result<seq<ItemRecord>>)
      requires Valid()
      ensures r.Err? <==> SearchThrows(items, text)
      ensures r.Err? ==> r.error == NullPointer
      ensures r.Ok? ==> forall x :: x in r.value <==> StoredIn(items, items.Keys, x) && Matches(x, text)
      ensures r.Ok? ==> Distinct(r.value)
    {
      var m := items;
      var found: seq<ItemRecord> := [];
      var owners := m.Keys;
      ghost var done: set<int> := {};
      while owners != {}
        invariant owners <= m.Keys && done == m.Keys - owners
        invariant forall x :: x in found <==> StoredIn(m, done, x) && Matches(x, text)
        invariant forall o :: o in done ==> !EntriesThrow(m[o], text)
        invariant forall x :: multiset(found)[x] <= 1
        invariant forall x :: x in found ==> x.owner in done
        decreases owners
      {
        NonEmptyHasElement(owners);
        var o :| o in owners;
        var part, vals, ks := OwnerMatches(m[o], text);
        if part.Err? {
          return Err(NullPointer);
        }
        StoredStep(m, done, o, vals);
        OwnerPartIsDistinct(m, id, o, vals, ks, part.value, text);
        AppendOwnerPart(found, part.value, done, o);
        found := found + part.value;
        owners := owners - {o};
        done := done + {o};
      }
      CountsAtMostOneIsDistinct(found);
      r := Ok(found);
    }
  }
}
