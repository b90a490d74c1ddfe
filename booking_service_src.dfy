/** The earlier booking service (`src/`). It differs from the later one in
    the order of the creation checks, in not checking the caller of
    `getBooking`, in parsing the state with `BookingState.from`, and in the
    inclusive CURRENT of its SQL. */
module SrcBookingService {
  import opened Common
  import opened BookingModel
  import opened BookingState
  import opened BookingQueries
  import opened BookingLifecycle
  import opened ItemModel
  import opened Sequences
  import ServerBookingService

  /** The checks of `createBooking`, in the order it runs them: the interval is
      not empty, the item exists, the item is available, and only then the user
      exists. */
  function CreateCheck(userId: int, dto: BookingCreationDto, users: set<int>, items: seq<Item>): (r: Option<Error>)
    ensures r.None? <==> userId in users && dto.start < dto.end
                         && FindItem(items, dto.itemId).Some? && FindItem(items, dto.itemId).value.available
    ensures !(dto.start < dto.end) ==> r == Some(IllegalArgument)
    ensures dto.start < dto.end && FindItem(items, dto.itemId).None? ==> r == Some(NotFound)
    ensures (dto.start < dto.end && FindItem(items, dto.itemId).Some?
             && !FindItem(items, dto.itemId).value.available) ==> r == Some(IllegalState)
    ensures (dto.start < dto.end && FindItem(items, dto.itemId).Some?
             && FindItem(items, dto.itemId).value.available && userId !in users) ==> r == Some(NotFound)
  {
    if CheckData(dto).Some? then CheckData(dto)
    else match FindItem(items, dto.itemId)
      case None => Some(NotFound)
      case Some(item) =>
        if !item.available then Some(IllegalState)
        else if userId !in users then Some(NotFound)
        else None
  }

  /** The booking store behind the service. */
  class BookingService {
    var bookings: seq<Booking>

    ghost predicate Valid()
      reads this
    {
      StoreValid(bookings)
    }

    constructor ()
      ensures Valid() && bookings == []
    {
      bookings := [];
    }

    /** `createBooking`: a WAITING booking with the next id is appended when
        every check passes; otherwise the first failing check's exception is
        returned and nothing is saved. */
    method CreateBooking(userId: int, dto: BookingCreationDto, users: set<int>, items: seq<Item>)
      returns (r: Result<Booking>)
      requires Valid()
      modifies this
      ensures Valid()
      ensures r.Err? <==> CreateCheck(userId, dto, users, items).Some?
      ensures r.Err? ==> r.error == CreateCheck(userId, dto, users, items).value && bookings == old(bookings)
      ensures r.Ok? ==> r.value == NewBooking(|old(bookings)| + 1, dto, FindItem(items, dto.itemId).value, userId)
                        && bookings == old(bookings) + [r.value]
    {
      var check := CreateCheck(userId, dto, users, items);
      if check.Some? {
        return Err(check.value);
      }
      var item := FindItem(items, dto.itemId).value;
      var b := NewBooking(|bookings| + 1, dto, item, userId);
      bookings := bookings + [b];
      r := Ok(b);
    }

    /** `bookingApproved`: the same decision as the later service. */
    method BookingApproved(userId: int, bookingId: int, approved: bool) returns (r: Result<Booking>)
      requires Valid()
      modifies this
      ensures Valid()
      ensures r == Approve(old(bookings), userId, bookingId, approved)
      ensures r.Ok? ==> 1 <= bookingId <= |old(bookings)| && bookings == Saved(old(bookings), r.value)
      ensures r.Err? ==> bookings == old(bookings)
    {
      r := Approve(bookings, userId, bookingId, approved);
      if r.Ok? {
        ApproveKeepsStoreValid(bookings, userId, bookingId, approved);
        bookings := Saved(bookings, r.value);
      }
    }
  }

  /** `getBooking`: no check that the caller exists; an unknown booking is
      NotFound and a caller who is neither booker nor owner gets
      IllegalArgument. */
  function GetBooking(store: seq<Booking>, userId: int, bookingId: int): (r: Result<Booking>)
    ensures FindById(store, bookingId).None? ==> r == Err(NotFound)
    ensures r.Ok? <==> FindById(store, bookingId).Some? && CanView(FindById(store, bookingId).value, userId)
    ensures r.Ok? ==> r.value == FindById(store, bookingId).value
    ensures r.Err? && FindById(store, bookingId).Some? ==> r.error == IllegalArgument
  {
    match FindById(store, bookingId)
    case None => Err(NotFound)
    case Some(b) => if CanView(b, userId) then Ok(b) else Err(IllegalArgument)
  }

  /** `getBookingByUserId`: `BookingState.from` first (IllegalArgument), then
      the user (NotFound); the SQL filters compare inclusively for CURRENT. */
  function GetBookingByUserId(store: seq<Booking>, users: set<int>, id: int, stateString: string, now: Time)
    : (r: Result<seq<Booking>>)
    ensures From(stateString).Err? ==> r == Err(IllegalArgument)
    ensures From(stateString).Ok? && id !in users ==> r == Err(NotFound)
    ensures r.Ok? <==> From(stateString).Ok? && id in users
    ensures r.Ok? ==> forall b :: b in r.value <==>
                        b in store && b.bookerId == id && InclusiveInState(b, From(stateString).value, now)
    ensures r.Ok? ==> forall b :: multiset(r.value)[b] ==
                        if b.bookerId == id && InclusiveInState(b, From(stateString).value, now) then multiset(store)[b] else 0
    ensures r.Ok? ==> IsSortedDesc(r.value, StartOf)
  {
    match From(stateString)
    case Err(e) => Err(e)
    case Ok(state) =>
      if id !in users then Err(NotFound)
      else Ok(FindByBooker(NativeSql, store, id, state, now))
  }

  /** `getBookingByOwnerId`: as `getBookingByUserId`, over the bookings of the
      items the user owns. */
  function GetBookingByOwnerId(store: seq<Booking>, users: set<int>, id: int, stateString: string, now: Time)
    : (r: Result<seq<Booking>>)
    ensures From(stateString).Err? ==> r == Err(IllegalArgument)
    ensures From(stateString).Ok? && id !in users ==> r == Err(NotFound)
    ensures r.Ok? <==> From(stateString).Ok? && id in users
    ensures r.Ok? ==> forall b :: b in r.value <==>
                        b in store && b.itemOwner == id && InclusiveInState(b, From(stateString).value, now)
    ensures r.Ok? ==> forall b :: multiset(r.value)[b] ==
                        if b.itemOwner == id && InclusiveInState(b, From(stateString).value, now) then multiset(store)[b] else 0
    ensures r.Ok? ==> IsSortedDesc(r.value, StartOf)
  {
    match From(stateString)
    case Err(e) => Err(e)
    case Ok(state) =>
      if id !in users then Err(NotFound)
      else Ok(FindByOwner(NativeSql, store, id, state, now))
  }

  /** Both generations accept the same creations; they disagree only on which
      exception a request failing several checks gets. */
  lemma CreateChecksAgreeOnSuccess(userId: int, dto: BookingCreationDto, users: set<int>, items: seq<Item>)
    ensures CreateCheck(userId, dto, users, items).None?
            <==> ServerBookingService.CreateCheck(userId, dto, users, items).None?
  {
  }

  /** An unknown user with an empty interval: the later service reports the
      user (NotFound), the earlier one the dates (IllegalArgument). */
  lemma CreateCheckOrderDiffers(userId: int, dto: BookingCreationDto, users: set<int>, items: seq<Item>)
    requires userId !in users && dto.start == dto.end
    ensures ServerBookingService.CreateCheck(userId, dto, users, items) == Some(NotFound)
    ensures CreateCheck(userId, dto, users, items) == Some(IllegalArgument)
  {
  }

  /** For a caller that exists, both generations answer `getBooking` alike. */
  lemma GetBookingAgreesForKnownUsers(store: seq<Booking>, users: set<int>, userId: int, bookingId: int)
    requires userId in users
    ensures GetBooking(store, userId, bookingId) == ServerBookingService.GetBooking(store, users, userId, bookingId)
  {
  }

  /** For every state other than CURRENT both generations list the same
      bookings; they differ in the exception an unknown state string gets. */
  lemma {:induction false} ListsAgree(store: seq<Booking>, users: set<int>, id: int, stateString: string, now: Time)
    requires From(stateString).Ok? ==> From(stateString).value != CURRENT
    ensures GetBookingByUserId(store, users, id, stateString, now).Ok?
            <==> ServerBookingService.GetBookingByUserId(store, users, id, stateString, now).Ok?
    ensures GetBookingByUserId(store, users, id, stateString, now).Ok? ==>
            GetBookingByUserId(store, users, id, stateString, now)
            == ServerBookingService.GetBookingByUserId(store, users, id, stateString, now)
    ensures GetBookingByOwnerId(store, users, id, stateString, now).Ok? ==>
            GetBookingByOwnerId(store, users, id, stateString, now)
            == ServerBookingService.GetBookingByOwnerId(store, users, id, stateString, now)
  {
    ParseStateAgreesWithFrom(stateString);
    if From(stateString).Ok? {
      ListsAgreeOutsideCurrent(store, id, From(stateString).value, now);
    }
  }
}
