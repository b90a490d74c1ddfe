/** The booking entity and the booking store shared by both generations of the
    booking service. */
module BookingModel {
  import opened Common

  /** Persisted status of a booking. CANCELED is declared but no operation sets it. */
  datatype Status = WAITING | APPROVED | REJECTED | CANCELED

  /** A booking. `itemOwner` is the owner of the booked item, which the source
      reaches through the booking's item (`booking.getItem().getOwner()`). */
  datatype Booking = Booking(
    id: int,
    itemId: int,
    itemOwner: int,
    bookerId: int,
    start: Time,
    end: Time,
    status: Status)

  /** The request body of a booking: which item, from when, until when. */
  datatype BookingCreationDto = BookingCreationDto(itemId: int, start: Time, end: Time)

  /** What the store holds at all times: the booking with id k is at index k - 1
      (ids are assigned in order by the database), every booking starts strictly
      before it ends, and none is CANCELED. */
  ghost predicate StoreValid(store: seq<Booking>) {
    forall i :: 0 <= i < |store| ==>
      store[i].id == i + 1 && store[i].start < store[i].end && store[i].status != CANCELED
  }

  /** `bookingRepository.findById`. */
  function FindById(store: seq<Booking>, id: int): (r: Option<Booking>)
    ensures r.Some? ==> r.value in store
    ensures StoreValid(store) ==> (r.Some? <==> exists b :: b in store && b.id == id)
    ensures StoreValid(store) && r.Some? ==> r.value.id == id
  {
    if 1 <= id <= |store| then Some(store[id - 1]) else None
  }

  /** The booking after the owner's decision: APPROVED when `approved`, otherwise
      REJECTED; no other field changes. */
  function Decided(b: Booking, approved: bool): (r: Booking)
    ensures r.status == APPROVED <==> approved
    ensures r.status == REJECTED <==> !approved
    ensures r.(status := b.status) == b
  {
    b.(status := if approved then APPROVED else REJECTED)
  }
}
