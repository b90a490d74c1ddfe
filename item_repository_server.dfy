/** The two queries of the later item repository that are not plain lookups:
    the items of an owner and the text search. */
module ServerItemRepository {
  import opened Common
  import opened Text
  import opened Sequences
  import opened ItemModel

  /** `findByOwner`: the owner's items, in store order. */
  function FindByOwner(items: seq<Item>, owner: int): (r: seq<Item>)
    ensures forall it :: it in r <==> it in items && it.owner == owner
    ensures multiset(r) <= multiset(items)
    ensures forall it :: multiset(r)[it] == if it.owner == owner then multiset(items)[it] else 0
  {
    var mine := Filter(items, (it: Item) => it.owner == owner);
    assert forall it :: multiset(mine)[it] == if it.owner == owner then multiset(items)[it] else 0 by {
      forall it ensures multiset(mine)[it] == if it.owner == owner then multiset(items)[it] else 0 {
        FilterCounts(items, (it: Item) => it.owner == owner, it);
      }
    }
    mine
  }

  /** The search condition: the lower-cased name or description contains the
      lower-cased text, and the item is available. */
  predicate Matches(it: Item, text: string) {
    (Contains(ToLower(it.name), ToLower(text)) || Contains(ToLower(it.description), ToLower(text)))
    && it.available
  }

  /** `searchItem`: the available items whose name or description contains the
      text, ignoring case. */
  function SearchItem(items: seq<Item>, text: string): (r: seq<Item>)
    ensures forall it :: it in r <==> it in items && Matches(it, text)
    ensures forall it :: it in r ==> it.available
    ensures multiset(r) <= multiset(items)
    ensures forall it :: multiset(r)[it] == if Matches(it, text) then multiset(items)[it] else 0
  {
    var found := Filter(items, (it: Item) => Matches(it, text));
    assert forall it :: multiset(found)[it] == if Matches(it, text) then multiset(items)[it] else 0 by {
      forall it ensures multiset(found)[it] == if Matches(it, text) then multiset(items)[it] else 0 {
        FilterCounts(items, (it: Item) => Matches(it, text), it);
      }
    }
    found
  }

  /** The search does not depend on the case of the text: searching for its
      upper-cased form finds exactly what searching for it finds. */
  lemma {:induction false} SearchIgnoresCase(items: seq<Item>, text: string)
    ensures SearchItem(items, ToUpper(text)) == SearchItem(items, text)
  {
    LowerOfUpper(text);
    FilterSamePredicate(items, (it: Item) => Matches(it, ToUpper(text)), (it: Item) => Matches(it, text));
  }

  /** Every available item matches the empty text (it is a substring of any
      string); the services therefore never send it here. */
  lemma EmptyTextMatchesAllAvailable(it: Item)
    requires it.available
    ensures Matches(it, "")
  {
    assert "" <= ToLower(it.name)[0..];
  }
}
