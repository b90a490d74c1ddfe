/** The parts of the booking lifecycle both generations of the service share:
    the date check, the owner's decision on a WAITING booking, and who may see
    a booking. */
module BookingLifecycle {
  import opened Common
  import opened BookingModel
  import opened ItemModel

  /** `checkData`: a booking must start strictly before it ends, so an empty
      interval (`start == end`) is rejected as well as a reversed one. */
  function CheckData(dto: BookingCreationDto): (r: Option<Error>)
    ensures r.None? <==> dto.start < dto.end
    ensures r.Some? ==> r.value == IllegalArgument
  {
    if !(dto.start < dto.end) then Some(IllegalArgument) else None
  }

  /** The booking `createBooking` saves once every check has passed: WAITING,
      booked by `bookerId`, for the item and the interval of the request. */
  function NewBooking(id: int, dto: BookingCreationDto, item: Item, bookerId: int): (r: Booking)
    ensures r.status == Status.WAITING && r.bookerId == bookerId
    ensures r.itemId == dto.itemId && r.itemOwner == item.owner
    ensures r.start == dto.start && r.end == dto.end && r.id == id
  {
    Booking(id, dto.itemId, item.owner, bookerId, dto.start, dto.end, Status.WAITING)
  }

  /** `bookingApproved`, identical in both generations: an unknown booking is
      NotFound; a booking that is no longer WAITING is IllegalState whoever
      asks, because the status is checked before the caller; a caller other
      than the item's owner gets Validation; the owner gets the booking with
      its decided status. */
  function Approve(store: seq<Booking>, userId: int, bookingId: int, approved: bool): (r: Result<Booking>)
    ensures FindById(store, bookingId).None? ==> r == Err(NotFound)
    ensures FindById(store, bookingId).Some? && FindById(store, bookingId).value.status != Status.WAITING
            ==> r == Err(IllegalState)
    ensures r.Ok? <==> FindById(store, bookingId).Some? && FindById(store, bookingId).value.status == Status.WAITING
                       && userId == FindById(store, bookingId).value.itemOwner
    ensures r.Err? && FindById(store, bookingId).Some? && FindById(store, bookingId).value.status == Status.WAITING
            ==> r.error == Validation
    ensures r.Ok? ==> r.value == Decided(FindById(store, bookingId).value, approved)
  {
    match FindById(store, bookingId)
    case None => Err(NotFound)
    case Some(b) =>
      if b.status != Status.WAITING then Err(IllegalState)
      else if userId == b.itemOwner then Ok(Decided(b, approved))
      else Err(Validation)
  }

  /** The store after a successful decision: the decided booking replaces the
      one with its id. */
  function Saved(store: seq<Booking>, b: Booking): (r: seq<Booking>)
    requires 1 <= b.id <= |store|
    ensures |r| == |store| && r[b.id - 1] == b
    ensures forall i :: 0 <= i < |store| && i != b.id - 1 ==> r[i] == store[i]
  {
    store[b.id - 1 := b]
  }

  /** A decision keeps the store well formed. */
  lemma {:induction false} ApproveKeepsStoreValid(store: seq<Booking>, userId: int, bookingId: int, approved: bool)
    requires StoreValid(store)
    requires Approve(store, userId, bookingId, approved).Ok?
    ensures 1 <= bookingId <= |store|
    ensures StoreValid(Saved(store, Approve(store, userId, bookingId, approved).value))
  {
    var b := Approve(store, userId, bookingId, approved).value;
    var s' := Saved(store, b);
    forall i | 0 <= i < |s'|
      ensures s'[i].id == i + 1 && s'[i].start < s'[i].end && s'[i].status != CANCELED
    {
      if i != bookingId - 1 {
        assert s'[i] == store[i];
      }
    }
  }

  /** A decision is final: once saved, deciding the same booking again fails
      with IllegalState for every caller and either answer. */
  lemma {:induction false} DecisionIsFinal(store: seq<Booking>, userId: int, bookingId: int, approved: bool,
                                           otherUser: int, again: bool)
    requires StoreValid(store)
    requires Approve(store, userId, bookingId, approved).Ok?
    ensures Approve(Saved(store, Approve(store, userId, bookingId, approved).value), otherUser, bookingId, again)
            == Err(IllegalState)
  {
    var b := Approve(store, userId, bookingId, approved).value;
    assert b.status != Status.WAITING;
    assert Saved(store, b)[bookingId - 1] == b;
  }

  /** `getBooking`'s access rule: only the item's owner and the booker may see
      a booking. */
  predicate CanView(b: Booking, userId: int) {
    userId == b.itemOwner || userId == b.bookerId
  }
}
