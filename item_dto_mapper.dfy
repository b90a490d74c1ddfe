/** The hand-written mapper of the in-memory generation, which builds an item
    from a request body, an id and an owner. */
module ItemDtoMapper {
  import opened Common
  import opened ItemModel

  /** `toItemDto` (despite its name it builds an `Item`): the id and the owner
      are the given ones, and every other field is the body's as it stands,
      null included. */
  function ToItem(dto: ItemDto, id: int, owner: int): (r: ItemRecord)
    ensures r.id == id && r.owner == owner
    ensures r.name == dto.name && r.description == dto.description
    ensures r.available == dto.available && r.request == dto.requestId
  {
    ItemRecord(id, dto.name, dto.description, dto.available, owner, dto.requestId)
  }

  /** The body an item would have been built from. */
  function ToDto(it: ItemRecord): ItemDto {
    ItemDto(it.name, it.description, it.available, it.request)
  }

  /** Nothing of the body is lost: it can be read back from the item. */
  lemma {:induction false} ToItemRoundTrip(dto: ItemDto, id: int, owner: int)
    ensures ToDto(ToItem(dto, id, owner)) == dto
  {
    var it := ToItem(dto, id, owner);
    assert ToDto(it).name == dto.name;
  }

  /** So two different bodies never give the same item. */
  lemma {:induction false} ToItemInjective(a: ItemDto, b: ItemDto, id: int, owner: int)
    requires ToItem(a, id, owner) == ToItem(b, id, owner)
    ensures a == b
  {
    ToItemRoundTrip(a, id, owner);
    ToItemRoundTrip(b, id, owner);
  }
}
