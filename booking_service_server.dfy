/** The later booking service (`server/`): creation and decision change the
    booking store; viewing and listing read it. The user and item services it
    calls are given as the set of existing user ids and the item store. */
module ServerBookingService {
  import opened Common
  import opened BookingModel
  import opened BookingState
  import opened BookingQueries
  import opened BookingLifecycle
  import opened ItemModel
  import opened Sequences

  /** The checks of `createBooking`, in the order it runs them: the user
      exists, the interval is not empty, the item exists, the item is
      available. The first that fails decides the exception. */
  function CreateCheck(userId: int, dto: BookingCreationDto, users: set<int>, items: seq<Item>): (r: Option<Error>)
    ensures r.None? <==> userId in users && dto.start < dto.end
                         && FindItem(items, dto.itemId).Some? && FindItem(items, dto.itemId).value.available
    ensures userId !in users ==> r == Some(NotFound)
    ensures userId in users && !(dto.start < dto.end) ==> r == Some(IllegalArgument)
    ensures userId in users && dto.start < dto.end && FindItem(items, dto.itemId).None? ==> r == Some(NotFound)
    ensures (userId in users && dto.start < dto.end && FindItem(items, dto.itemId).Some?
             && !FindItem(items, dto.itemId).value.available) ==> r == Some(IllegalState)
  {
    if userId !in users then Some(NotFound)
    else if CheckData(dto).Some? then CheckData(dto)
    else match FindItem(items, dto.itemId)
      case None => Some(NotFound)
      case Some(item) => if !item.available then Some(IllegalState) else None
  }

  /** The booking store behind the service. */
  class BookingService {
    var bookings: seq<Booking>

    ghost predicate Valid()
      reads this
    {
      StoreValid(bookings)
    }

    constructor ()
      ensures Valid() && bookings == []
    {
      bookings := [];
    }

    /** `createBooking`: when every check passes, a WAITING booking with the
        next id is appended; when one fails, its exception is returned and
        nothing is saved. */
    method CreateBooking(userId: int, dto: BookingCreationDto, users: set<int>, items: seq<Item>)
      returns (r: Result<Booking>)
      requires Valid()
      modifies this
      ensures Valid()
      ensures r.Err? <==> CreateCheck(userId, dto, users, items).Some?
      ensures r.Err? ==> r.error == CreateCheck(userId, dto, users, items).value && bookings == old(bookings)
      ensures r.Ok? ==> r.value == NewBooking(|old(bookings)| + 1, dto, FindItem(items, dto.itemId).value, userId)
                        && bookings == old(bookings) + [r.value]
    {
      var check := CreateCheck(userId, dto, users, items);
      if check.Some? {
        return Err(check.value);
      }
      var item := FindItem(items, dto.itemId).value;
      var b := NewBooking(|bookings| + 1, dto, item, userId);
      bookings := bookings + [b];
      r := Ok(b);
    }

    /** `bookingApproved`: the outcome is `Approve`; on success the decided
        booking replaces the stored one and nothing else changes. */
    method BookingApproved(userId: int, bookingId: int, approved: bool) returns (r: Result<Booking>)
      requires Valid()
      modifies this
      ensures Valid()
      ensures r == Approve(old(bookings), userId, bookingId, approved)
      ensures r.Ok? ==> 1 <= bookingId <= |old(bookings)| && bookings == Saved(old(bookings), r.value)
      ensures r.Err? ==> bookings == old(bookings)
    {
      r := Approve(bookings, userId, bookingId, approved);
      if r.Ok? {
        ApproveKeepsStoreValid(bookings, userId, bookingId, approved);
        bookings := Saved(bookings, r.value);
      }
    }
  }

  /** `getBooking`: the caller must exist (NotFound), then the booking
      (NotFound), and the caller must be its booker or its item's owner
      (IllegalArgument). */
  function GetBooking(store: seq<Booking>, users: set<int>, userId: int, bookingId: int): (r: Result<Booking>)
    ensures userId !in users ==> r == Err(NotFound)
    ensures userId in users && FindById(store, bookingId).None? ==> r == Err(NotFound)
    ensures r.Ok? <==> userId in users && FindById(store, bookingId).Some? && CanView(FindById(store, bookingId).value, userId)
    ensures r.Ok? ==> r.value == FindById(store, bookingId).value
    ensures r.Err? && userId in users && FindById(store, bookingId).Some? ==> r.error == IllegalArgument
  {
    if userId !in users then Err(NotFound)
    else match FindById(store, bookingId)
      case None => Err(NotFound)
      case Some(b) => if CanView(b, userId) then Ok(b) else Err(IllegalArgument)
  }

  /** `getBookingByUserId`: the state string is parsed first (Validation),
      then the user must exist (NotFound); the result is the user's bookings in
      that state, strictly compared with `now`, latest start first. */
  function GetBookingByUserId(store: seq<Booking>, users: set<int>, id: int, stateString: string, now: Time)
    : (r: Result<seq<Booking>>)
    ensures ParseState(stateString).Err? ==> r == Err(Validation)
    ensures ParseState(stateString).Ok? && id !in users ==> r == Err(NotFound)
    ensures r.Ok? <==> ParseState(stateString).Ok? && id in users
    ensures r.Ok? ==> forall b :: b in r.value <==>
                        b in store && b.bookerId == id && StrictInState(b, ParseState(stateString).value, now)
    ensures r.Ok? ==> forall b :: multiset(r.value)[b] ==
                        if b.bookerId == id && StrictInState(b, ParseState(stateString).value, now) then multiset(store)[b] else 0
    ensures r.Ok? ==> IsSortedDesc(r.value, StartOf)
  {
    match ParseState(stateString)
    case Err(e) => Err(e)
    case Ok(state) =>
      if id !in users then Err(NotFound)
      else Ok(FindByBooker(Derived, store, id, state, now))
  }

  /** `getBookingByOwnerId`: as `getBookingByUserId`, over the bookings of the
      items the user owns. */
  function GetBookingByOwnerId(store: seq<Booking>, users: set<int>, id: int, stateString: string, now: Time)
    : (r: Result<seq<Booking>>)
    ensures ParseState(stateString).Err? ==> r == Err(Validation)
    ensures ParseState(stateString).Ok? && id !in users ==> r == Err(NotFound)
    ensures r.Ok? <==> ParseState(stateString).Ok? && id in users
    ensures r.Ok? ==> forall b :: b in r.value <==>
                        b in store && b.itemOwner == id && StrictInState(b, ParseState(stateString).value, now)
    ensures r.Ok? ==> forall b :: multiset(r.value)[b] ==
                        if b.itemOwner == id && StrictInState(b, ParseState(stateString).value, now) then multiset(store)[b] else 0
    ensures r.Ok? ==> IsSortedDesc(r.value, StartOf)
  {
    match ParseState(stateString)
    case Err(e) => Err(e)
    case Ok(state) =>
      if id !in users then Err(NotFound)
      else Ok(FindByOwner(Derived, store, id, state, now))
  }

  /** A booking just created is visible to its booker and to its item's owner,
      and to nobody else. */
  lemma {:induction false} CreatedBookingVisibility(store: seq<Booking>, users: set<int>, userId: int,
                                                    dto: BookingCreationDto, items: seq<Item>, viewer: int)
    requires StoreValid(store) && ItemStoreValid(items)
    requires CreateCheck(userId, dto, users, items).None?
    requires viewer in users
    ensures var b := NewBooking(|store| + 1, dto, FindItem(items, dto.itemId).value, userId);
            GetBooking(store + [b], users, viewer, |store| + 1)
            == if viewer == userId || viewer == FindItem(items, dto.itemId).value.owner then Ok(b) else Err(IllegalArgument)
  {
    var b := NewBooking(|store| + 1, dto, FindItem(items, dto.itemId).value, userId);
    assert FindById(store + [b], |store| + 1) == Some(b);
  }
}
