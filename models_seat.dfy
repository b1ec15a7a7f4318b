/** Seats of a hall (internal/models/seat.go). */
module SeatModel {

  datatype Seat = Seat(id: int, row: string, seatNumber: int, hallId: int, createdAt: int, updatedAt: int)

  datatype Seating = Seating(version: int, seats: seq<Seat>)

  /** `Seating.Capacity`: the number of seats. */
  function Capacity(s: Seating): nat
  {
    |s.seats|
  }

  /** The capacity counts seats only: two seatings with the same seats have the same capacity, whatever their versions. */
  lemma CapacityIgnoresVersion(s: Seating, version: int)
    ensures Capacity(s.(version := version)) == Capacity(s) == |s.seats|
  {
  }
}
