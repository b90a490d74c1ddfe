/** The booking queries of both repositories: the six state filters for a
    booker and for an item owner, the last and next approved booking of an
    item, and the finished approved bookings of a user and an item.

    The later repository writes the filters as derived query names
    (`StartBefore`, `EndAfter`, ...), which compare strictly; the earlier one
    writes them in SQL, where `BETWEEN` includes both ends. The two agree on
    every state except CURRENT. */
module BookingQueries {
  import opened Common
  import opened BookingModel
  import opened BookingState
  import opened Sequences

  /** A booking's start, the key every list is ordered by (descending). */
  function StartOf(b: Booking): int { b.start }

  /** Minus a booking's start: ordering by it descending is `ORDER BY start ASC`. */
  function NegStartOf(b: Booking): int { -b.start }

  /** The state filter of the later repository, applied with `now` as both
      time arguments. */
  predicate StrictInState(b: Booking, st: State, now: Time) {
    match st
    case ALL => true
    case CURRENT => b.start < now && b.end > now
    case PAST => b.end < now
    case FUTURE => b.start > now
    case WAITING => b.status == Status.WAITING && b.start > now
    case REJECTED => b.status == Status.REJECTED
  }

  /** The state filter of the earlier repository's SQL. */
  predicate InclusiveInState(b: Booking, st: State, now: Time) {
    match st
    case ALL => true
    case CURRENT => b.start <= now <= b.end
    case PAST => b.end < now
    case FUTURE => b.start > now
    case WAITING => b.status == Status.WAITING && b.start > now
    case REJECTED => b.status == Status.REJECTED
  }

  /** Which generation's filters a query uses. */
  datatype Dialect = Derived | NativeSql

  predicate InState(d: Dialect, b: Booking, st: State, now: Time) {
    match d
    case Derived => StrictInState(b, st, now)
    case NativeSql => InclusiveInState(b, st, now)
  }

  /** The bookings of booker `bookerId` in state `st`, latest start first: the six
      `findByBookerId...OrderByStartDesc` queries (or their SQL forms), one per state. */
  function FindByBooker(d: Dialect, store: seq<Booking>, bookerId: int, st: State, now: Time): (r: seq<Booking>)
    ensures forall b :: b in r <==> b in store && b.bookerId == bookerId && InState(d, b, st, now)
    ensures multiset(r) <= multiset(store)
    ensures forall b :: multiset(r)[b] == if b.bookerId == bookerId && InState(d, b, st, now) then multiset(store)[b] else 0
    ensures IsSortedDesc(r, StartOf)
  {
    var sel := Filter(store, (b: Booking) => b.bookerId == bookerId && InState(d, b, st, now));
    var r := SortDesc(sel, StartOf);
    assert forall b :: multiset(r)[b] == if b.bookerId == bookerId && InState(d, b, st, now) then multiset(store)[b] else 0 by {
      forall b ensures multiset(r)[b] == if b.bookerId == bookerId && InState(d, b, st, now) then multiset(store)[b] else 0 {
        FilterCounts(store, (b: Booking) => b.bookerId == bookerId && InState(d, b, st, now), b);
      }
    }
    assert forall b :: b in r <==> b in sel by {
      forall b ensures b in r <==> b in sel {
        assert b in r <==> b in multiset(r);
      }
    }
    r
  }

  /** The bookings of the items owned by `ownerId` in state `st`, latest start
      first: the six `findByItem_Owner...OrderByStartDesc` queries (or the SQL
      that joins items on `owner_id`). */
  function FindByOwner(d: Dialect, store: seq<Booking>, ownerId: int, st: State, now: Time): (r: seq<Booking>)
    ensures forall b :: b in r <==> b in store && b.itemOwner == ownerId && InState(d, b, st, now)
    ensures multiset(r) <= multiset(store)
    ensures forall b :: multiset(r)[b] == if b.itemOwner == ownerId && InState(d, b, st, now) then multiset(store)[b] else 0
    ensures IsSortedDesc(r, StartOf)
  {
    var sel := Filter(store, (b: Booking) => b.itemOwner == ownerId && InState(d, b, st, now));
    var r := SortDesc(sel, StartOf);
    assert forall b :: multiset(r)[b] == if b.itemOwner == ownerId && InState(d, b, st, now) then multiset(store)[b] else 0 by {
      forall b ensures multiset(r)[b] == if b.itemOwner == ownerId && InState(d, b, st, now) then multiset(store)[b] else 0 {
        FilterCounts(store, (b: Booking) => b.itemOwner == ownerId && InState(d, b, st, now), b);
      }
    }
    assert forall b :: b in r <==> b in sel by {
      forall b ensures b in r <==> b in sel {
        assert b in r <==> b in multiset(r);
      }
    }
    r
  }

  /** `findAllByUserBookings`: the APPROVED bookings of `userId` for `itemId`
      that ended before `now`. The query has no ORDER BY; the store order is kept. */
  function FinishedApproved(store: seq<Booking>, userId: int, itemId: int, now: Time): (r: seq<Booking>)
    ensures forall b :: b in r <==> (b in store && b.bookerId == userId && b.itemId == itemId
                                    && b.status == APPROVED && b.end < now)
    ensures multiset(r) <= multiset(store)
  {
    Filter(store, (b: Booking) => b.bookerId == userId && b.itemId == itemId && b.status == APPROVED && b.end < now)
  }

  /** `getLastBooking`: an APPROVED booking of the item that started before
      `now`, with the latest start among those; none if there is none. */
  function LastBooking(store: seq<Booking>, itemId: int, now: Time): (r: Option<Booking>)
    ensures r.Some? ==> r.value in store && r.value.itemId == itemId
                        && r.value.status == APPROVED && r.value.start < now
    ensures r.Some? ==> forall b :: b in store && b.itemId == itemId && b.status == APPROVED && b.start < now
                                   ==> b.start <= r.value.start
    ensures r.None? <==> forall b :: b in store && b.itemId == itemId && b.status == APPROVED ==> b.start >= now
  {
    var sel := Filter(store, (b: Booking) => b.itemId == itemId && b.status == APPROVED && b.start < now);
    var sorted := SortDesc(sel, StartOf);
    if sorted == [] then
      assert forall b :: b in sel ==> b in multiset(sorted);
      None
    else
      assert sorted[0] in multiset(sel);
      assert forall b :: b in sel ==> b.start <= sorted[0].start by {
        forall b | b in sel ensures b.start <= sorted[0].start {
          assert b in multiset(sorted);
          HeadIsMax(sorted, StartOf, b);
        }
      }
      Some(sorted[0])
  }

  /** `getNextBooking`: an APPROVED booking of the item that starts after
      `now`, with the earliest start among those; none if there is none. */
  function NextBooking(store: seq<Booking>, itemId: int, now: Time): (r: Option<Booking>)
    ensures r.Some? ==> r.value in store && r.value.itemId == itemId
                        && r.value.status == APPROVED && r.value.start > now
    ensures r.Some? ==> forall b :: b in store && b.itemId == itemId && b.status == APPROVED && b.start > now
                                   ==> b.start >= r.value.start
    ensures r.None? <==> forall b :: b in store && b.itemId == itemId && b.status == APPROVED ==> b.start <= now
  {
    var sel := Filter(store, (b: Booking) => b.itemId == itemId && b.status == APPROVED && b.start > now);
    var sorted := SortDesc(sel, NegStartOf);
    if sorted == [] then
      assert forall b :: b in sel ==> b in multiset(sorted);
      None
    else
      assert sorted[0] in multiset(sel);
      assert forall b :: b in sel ==> b.start >= sorted[0].start by {
        forall b | b in sel ensures b.start >= sorted[0].start {
          assert b in multiset(sorted);
          HeadIsMax(sorted, NegStartOf, b);
        }
      }
      Some(sorted[0])
  }

  /** The two dialects differ only on CURRENT: a booking is current for the SQL
      and not for the derived query exactly when `now` falls on its start or its
      end; the derived CURRENT never admits a booking the SQL rejects. */
  lemma DialectsDifferOnlyAtCurrentBounds(b: Booking, st: State, now: Time)
    ensures st != CURRENT ==> (StrictInState(b, st, now) <==> InclusiveInState(b, st, now))
    ensures StrictInState(b, st, now) ==> InclusiveInState(b, st, now)
    ensures InclusiveInState(b, st, now) && !StrictInState(b, st, now)
            <==> st == CURRENT && b.start <= now <= b.end && (now == b.start || now == b.end)
  {
  }

  /** The lists of the two generations are equal for every state but CURRENT. */
  lemma {:induction false} ListsAgreeOutsideCurrent(store: seq<Booking>, id: int, st: State, now: Time)
    requires st != CURRENT
    ensures FindByBooker(Derived, store, id, st, now) == FindByBooker(NativeSql, store, id, st, now)
    ensures FindByOwner(Derived, store, id, st, now) == FindByOwner(NativeSql, store, id, st, now)
  {
    FilterSamePredicate(store, (b: Booking) => b.bookerId == id && InState(Derived, b, st, now),
                               (b: Booking) => b.bookerId == id && InState(NativeSql, b, st, now));
    FilterSamePredicate(store, (b: Booking) => b.itemOwner == id && InState(Derived, b, st, now),
                               (b: Booking) => b.itemOwner == id && InState(NativeSql, b, st, now));
  }

  /** A booking that starts exactly now is CURRENT for the earlier repository and
      not for the later one. */
  lemma CurrentAtStartDiffers(b: Booking, now: Time)
    requires b.start == now && now < b.end
    ensures b in FindByBooker(NativeSql, [b], b.bookerId, CURRENT, now)
    ensures b !in FindByBooker(Derived, [b], b.bookerId, CURRENT, now)
  {
  }
}
