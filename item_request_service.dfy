/** The item request service (`server/`): users post requests for items they
    would like to rent, and owners answer them by creating items that name the
    request. The request table, the users and the items are given as values. */
module ItemRequestService {
  import opened Common
  import opened ItemModel
  import opened Sequences

  datatype ItemRequest = ItemRequest(id: int, description: string, requesterId: int, created: Time)

  /** A request together with the items that answer it. */
  datatype ItemRequestAnswer = ItemRequestAnswer(request: ItemRequest, items: seq<Item>)

  function CreatedOf(q: ItemRequest): int {
    q.created
  }

  /** The request table: the request with id k is at index k - 1. */
  ghost predicate RequestStoreValid(requests: seq<ItemRequest>) {
    forall i :: 0 <= i < |requests| ==> requests[i].id == i + 1
  }

  /** `toItemRequestAnswerDto`: the request and the items whose request is
      this one. */
  function Answer(q: ItemRequest, items: seq<Item>): (r: ItemRequestAnswer)
    ensures r.request == q
    ensures forall it :: it in r.items <==> it in items && it.request == Some(q.id)
    ensures forall it :: multiset(r.items)[it] == if it.request == Some(q.id) then multiset(items)[it] else 0
  {
    var answering := Filter(items, (it: Item) => it.request == Some(q.id));
    assert forall it :: multiset(answering)[it] == if it.request == Some(q.id) then multiset(items)[it] else 0 by {
      forall it ensures multiset(answering)[it] == if it.request == Some(q.id) then multiset(items)[it] else 0 {
        FilterCounts(items, (it: Item) => it.request == Some(q.id), it);
      }
    }
    ItemRequestAnswer(q, answering)
  }

  /** One answer per request, in the same order. */
  function Answers(qs: seq<ItemRequest>, items: seq<Item>): (r: seq<ItemRequestAnswer>)
    ensures |r| == |qs|
    ensures forall i :: 0 <= i < |qs| ==> r[i] == Answer(qs[i], items)
  {
    seq(|qs|, i requires 0 <= i < |qs| => Answer(qs[i], items))
  }

  /** The requests the answers are about, in the same order. */
  function RequestsOf(answers: seq<ItemRequestAnswer>): (r: seq<ItemRequest>)
    ensures |r| == |answers|
    ensures forall i :: 0 <= i < |r| ==> r[i] == answers[i].request
  {
    seq(|answers|, i requires 0 <= i < |answers| => answers[i].request)
  }

  /** The request table. */
  class RequestService {
    var requests: seq<ItemRequest>

    ghost predicate Valid()
      reads this
    {
      RequestStoreValid(requests)
    }

    constructor ()
      ensures Valid() && requests == []
    {
      requests := [];
    }

    /** `create`: an unknown user is a NotFoundException and saves nothing;
        otherwise the request is saved under the next id, for that user, made
        at `now`. */
    method Create(description: string, user: int, users: set<int>, now: Time) returns (r: Result<ItemRequest>)
      requires Valid()
      modifies this
      ensures Valid()
      ensures r.Err? <==> user !in users
      ensures r.Err? ==> r.error == NotFound && requests == old(requests)
      ensures r.Ok? ==> r.value == ItemRequest(|old(requests)| + 1, description, user, now)
                        && requests == old(requests) + [r.value]
    {
      if user !in users {
        return Err(NotFound);
      }
      var q := ItemRequest(|requests| + 1, description, user, now);
      requests := requests + [q];
      r := Ok(q);
    }
  }

  /** The user's requests, newest first: each of them as often as the table
      holds it, and nothing else. */
  function OwnRequests(requests: seq<ItemRequest>, userId: int): (r: seq<ItemRequest>)
    ensures forall q :: multiset(r)[q] == if q.requesterId == userId then multiset(requests)[q] else 0
    ensures forall q :: q in r <==> q in requests && q.requesterId == userId
    ensures IsSortedDesc(r, CreatedOf)
  {
    var mine := Filter(requests, (q: ItemRequest) => q.requesterId == userId);
    var own := SortDesc(mine, CreatedOf);
    assert forall q :: multiset(own)[q] == if q.requesterId == userId then multiset(requests)[q] else 0 by {
      forall q ensures multiset(own)[q] == if q.requesterId == userId then multiset(requests)[q] else 0 {
        FilterCounts(requests, (q: ItemRequest) => q.requesterId == userId, q);
      }
    }
    assert forall q :: q in own <==> q in multiset(own);
    own
  }

  /** `getUserRequests`: an unknown user is a NotFoundException; otherwise the
      user's requests, newest first, each with its items. */
  function GetUserRequests(requests: seq<ItemRequest>, items: seq<Item>, users: set<int>, userId: int)
    : (r: Result<seq<ItemRequestAnswer>>)
    ensures r.Err? <==> userId !in users
    ensures r.Err? ==> r.error == NotFound
    ensures r.Ok? ==> forall q :: q in requests && q.requesterId == userId <==>
                        exists i :: 0 <= i < |r.value| && r.value[i].request == q
    ensures r.Ok? ==> forall q :: multiset(RequestsOf(r.value))[q] ==
                        if q.requesterId == userId then multiset(requests)[q] else 0
    ensures r.Ok? ==> forall i :: 0 <= i < |r.value| ==> r.value[i] == Answer(r.value[i].request, items)
    ensures r.Ok? ==> forall i, j :: 0 <= i < j < |r.value| ==>
                        r.value[i].request.created >= r.value[j].request.created
  {
    if userId !in users then Err(NotFound)
    else
      var own := OwnRequests(requests, userId);
      var answers := Answers(own, items);
      assert RequestsOf(answers) == own;
      assert forall i, j :: 0 <= i < j < |own| ==> CreatedOf(own[i]) >= CreatedOf(own[j]);
      Ok(answers)
  }

  /** The first element of page `offset / limit` when pages hold `limit`
      elements, with Java's integer division. */
  function PageStart(limit: int, offset: int): int
    requires limit != 0
  {
    JavaDiv(offset, limit) * limit
  }

  /** The smaller of two integers. */
  function Min(a: int, b: int): int {
    if a <= b then a else b
  }

  /** The page `PageRequest.of(offset / limit, limit)` selects, as written: a
      zero limit is an ArithmeticException (the division); a negative page
      index or a limit below one is an IllegalArgumentException; otherwise the
      elements from `PageStart` on, at most `limit` of them. */
  function Page<T>(s: seq<T>, limit: int, offset: int): (r: Result<seq<T>>)
    ensures limit == 0 ==> r == Err(Arithmetic)
    ensures limit < 0 ==> r == Err(IllegalArgument)
    ensures limit > 0 ==> (r.Err? <==> JavaDiv(offset, limit) < 0)
    ensures r.Err? && limit != 0 ==> r.error == IllegalArgument
    ensures r.Ok? ==> limit > 0 && 0 <= PageStart(limit, offset) && |r.value| <= limit
    ensures r.Ok? ==> forall i :: 0 <= i < |r.value| ==>
                        PageStart(limit, offset) + i < |s| && r.value[i] == s[PageStart(limit, offset) + i]
    ensures r.Ok? && PageStart(limit, offset) >= |s| ==> r.value == []
    ensures r.Ok? && PageStart(limit, offset) + limit <= |s| ==> |r.value| == limit
    ensures r.Ok? ==> r.value == s[Min(PageStart(limit, offset), |s|) .. Min(PageStart(limit, offset) + limit, |s|)]
  {
    if limit == 0 then Err(Arithmetic)
    else
      var page := JavaDiv(offset, limit);
      if page < 0 || limit < 1 then Err(IllegalArgument)
      else
        var start := PageStart(limit, offset);
        assert start >= 0;
        if start >= |s| then Ok([])
        else Ok(s[start .. Min(start + limit, |s|)])
  }

  /** The page the `offset` and `limit` parameters describe: skip `offset`
      elements, then take at most `limit`. The same errors as `Page`, and a
      negative offset is refused like a negative page index. */
  function PageFromOffset<T>(s: seq<T>, limit: int, offset: int): (r: Result<seq<T>>)
    ensures limit == 0 ==> r == Err(Arithmetic)
    ensures limit != 0 ==> (r.Err? <==> limit < 0 || offset < 0)
    ensures r.Err? && limit != 0 ==> r.error == IllegalArgument
    ensures r.Ok? ==> |r.value| <= limit
    ensures r.Ok? ==> forall i :: 0 <= i < |r.value| ==> offset + i < |s| && r.value[i] == s[offset + i]
    ensures r.Ok? && offset >= |s| ==> r.value == []
    ensures r.Ok? && offset + limit <= |s| ==> |r.value| == limit
    ensures r.Ok? ==> r.value == s[Min(offset, |s|) .. Min(offset + limit, |s|)]
  {
    if limit == 0 then Err(Arithmetic)
    else if limit < 0 || offset < 0 then Err(IllegalArgument)
    else if offset >= |s| then Ok([])
    else Ok(s[offset .. Min(offset + limit, |s|)])
  }

  /** When the offset is a whole number of pages the two agree. */
  lemma {:induction false} PagesAgreeOnWholePages<T>(s: seq<T>, limit: int, offset: int)
    requires limit > 0 && offset >= 0 && offset % limit == 0
    ensures Page(s, limit, offset) == PageFromOffset(s, limit, offset)
  {
    assert PageStart(limit, offset) == offset;
  }

  /** Otherwise the page as written starts at the page boundary below the
      offset: with limit 2 and offset 1 it returns the first two elements,
      the first of which the offset was to skip. */
  lemma OffsetWithinPageRestartsPage<T>(s: seq<T>)
    requires |s| >= 3
    ensures Page(s, 2, 1) == Ok(s[0..2])
    ensures PageFromOffset(s, 2, 1) == Ok(s[1..3])
  {
    assert PageStart(2, 1) == 0;
  }

  /** And an offset at or past the end does not always give an empty page:
      three elements, limit 2, offset 3 gives the last element. */
  lemma OffsetPastEndCanBeNonEmpty<T>(s: seq<T>)
    requires |s| == 3
    ensures Page(s, 2, 3) == Ok([s[2]])
    ensures PageFromOffset(s, 2, 3) == Ok([])
  {
    assert PageStart(2, 3) == 2;
    assert s[2..3] == [s[2]];
  }

  /** A page cut from a sequence sorted newest first is sorted newest first. */
  lemma {:induction false} PageOfSortedIsSorted(sorted: seq<ItemRequest>, page: seq<ItemRequest>, start: int)
    requires IsSortedDesc(sorted, CreatedOf)
    requires forall i :: 0 <= i < |page| ==> 0 <= start + i < |sorted| && page[i] == sorted[start + i]
    ensures forall i, j :: 0 <= i < j < |page| ==> page[i].created >= page[j].created
  {
    forall i, j | 0 <= i < j < |page| ensures page[i].created >= page[j].created {
      var p, q := page[i], page[j];
      var a, b := start + i, start + j;
      assert p == sorted[a] && q == sorted[b];
      assert CreatedOf(sorted[a]) >= CreatedOf(sorted[b]);
    }
  }

  /** A page cut from the sorted requests holds only stored requests. */
  lemma {:induction false} PageOfSortedIsStored(requests: seq<ItemRequest>, sorted: seq<ItemRequest>,
                                                page: seq<ItemRequest>, start: int)
    requires multiset(sorted) == multiset(requests)
    requires forall i :: 0 <= i < |page| ==> 0 <= start + i < |sorted| && page[i] == sorted[start + i]
    ensures forall i :: 0 <= i < |page| ==> page[i] in requests
  {
    forall i | 0 <= i < |page| ensures page[i] in requests {
      var p := page[i];
      var a := start + i;
      assert p == sorted[a];
      assert sorted[a] in multiset(sorted);
    }
  }

  /** `getAllRequests`: everyone's requests, newest first, cut to the page
      `offset / limit` of size `limit`, each with its items. */
  function GetAllRequests(requests: seq<ItemRequest>, items: seq<Item>, limit: int, offset: int)
    : (r: Result<seq<ItemRequestAnswer>>)
    ensures limit == 0 ==> r == Err(Arithmetic)
    ensures limit != 0 ==> (r.Err? <==> limit < 0 || JavaDiv(offset, limit) < 0)
    ensures r.Err? && limit != 0 ==> r.error == IllegalArgument
    ensures r.Ok? ==> |r.value| <= limit && 0 <= PageStart(limit, offset)
    ensures r.Ok? ==> RequestsOf(r.value) == SortDesc(requests, CreatedOf)[Min(PageStart(limit, offset), |requests|)
                                                                      .. Min(PageStart(limit, offset) + limit, |requests|)]
    ensures r.Ok? ==> forall i :: 0 <= i < |r.value| ==>
                        PageStart(limit, offset) + i < |requests|
                        && r.value[i] == Answer(SortDesc(requests, CreatedOf)[PageStart(limit, offset) + i], items)
    ensures r.Ok? ==> forall i, j :: 0 <= i < j < |r.value| ==>
                        r.value[i].request.created >= r.value[j].request.created
    ensures r.Ok? ==> forall i :: 0 <= i < |r.value| ==> r.value[i].request in requests
    ensures r.Ok? && PageStart(limit, offset) >= |requests| ==> r.value == []
  {
    var sorted := SortDesc(requests, CreatedOf);
    match Page(sorted, limit, offset)
    case Err(e) => Err(e)
    case Ok(page) =>
      var start := PageStart(limit, offset);
      PageOfSortedIsSorted(sorted, page, start);
      PageOfSortedIsStored(requests, sorted, page, start);
      assert RequestsOf(Answers(page, items)) == page;
      Ok(Answers(page, items))
  }

  /** The paging the parameters describe: everyone's requests, newest first,
      from the `offset`-th on, at most `limit` of them. */
  function GetAllRequestsFromOffset(requests: seq<ItemRequest>, items: seq<Item>, limit: int, offset: int)
    : (r: Result<seq<ItemRequestAnswer>>)
    ensures limit == 0 ==> r == Err(Arithmetic)
    ensures limit != 0 ==> (r.Err? <==> limit < 0 || offset < 0)
    ensures r.Err? && limit != 0 ==> r.error == IllegalArgument
    ensures r.Ok? ==> |r.value| <= limit
    ensures r.Ok? ==> forall i :: 0 <= i < |r.value| ==>
                        offset + i < |requests|
                        && r.value[i] == Answer(SortDesc(requests, CreatedOf)[offset + i], items)
    ensures r.Ok? ==> forall i, j :: 0 <= i < j < |r.value| ==>
                        r.value[i].request.created >= r.value[j].request.created
    ensures r.Ok? ==> forall i :: 0 <= i < |r.value| ==> r.value[i].request in requests
    ensures r.Ok? && offset >= |requests| ==> r.value == []
    ensures r.Ok? ==> RequestsOf(r.value) == SortDesc(requests, CreatedOf)[Min(offset, |requests|) .. Min(offset + limit, |requests|)]
  {
    var sorted := SortDesc(requests, CreatedOf);
    match PageFromOffset(sorted, limit, offset)
    case Err(e) => Err(e)
    case Ok(page) =>
      var start := offset;
      PageOfSortedIsSorted(sorted, page, start);
      PageOfSortedIsStored(requests, sorted, page, start);
      assert RequestsOf(Answers(page, items)) == page;
      Ok(Answers(page, items))
  }

  /** `getRequest`: an unknown id is a NotFoundException; otherwise the
      request with its items. */
  function GetRequest(requests: seq<ItemRequest>, items: seq<Item>, requestId: int): (r: Result<ItemRequestAnswer>)
    ensures r.Err? ==> r.error == NotFound
    ensures r.Ok? ==> r.value.request in requests && r.value == Answer(r.value.request, items)
    ensures RequestStoreValid(requests) ==> (r.Ok? <==> exists q :: q in requests && q.id == requestId)
    ensures RequestStoreValid(requests) && r.Ok? ==> r.value.request.id == requestId
  {
    if 1 <= requestId <= |requests| then Ok(Answer(requests[requestId - 1], items))
    else Err(NotFound)
  }
}
