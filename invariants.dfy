/** The rules the store is meant to keep between requests: the capacity ledger
    (each lot's `available_spots` is the number of its unoccupied spots), one
    active booking per user and per spot, and the id bookkeeping they rest on. */
module Invariants {
  import opened Wrappers
  import opened Records

  /** Lot and spot ids lie below the next id handed out, spots are listed in
      increasing id order, and every spot belongs to a lot that exists. */
  ghost predicate SpotsWellFormed(db: Database) {
    && (forall l :: l in db.lots ==> l < db.nextLotId)
    && (forall k :: 0 <= k < |db.spots| ==> db.spots[k].lotId in db.lots && db.spots[k].id < db.nextSpotId)
    && IdsIncreasing(db.spots)
  }

  /** The capacity ledger: every lot's `available_spots` counts its unoccupied spots. */
  ghost predicate LedgerOk(db: Database) {
    forall l :: l in db.lots ==> db.lots[l].availableSpots == FreeCount(db.spots, l)
  }

  /** Every lot's `total_spots` counts its spots. */
  ghost predicate CapacityOk(db: Database) {
    forall l :: l in db.lots ==> db.lots[l].totalSpots == SpotCount(db.spots, l)
  }

  /** Two spots of one lot that carry the same label are the same spot. */
  ghost predicate NumbersDistinct(s: seq<Spot>) {
    forall i, j :: 0 <= i < |s| && 0 <= j < |s| && s[i].lotId == s[j].lotId && s[i].number == s[j].number
      ==> s[i].id == s[j].id
  }

  /** Spot `x` is the occupied spot, in the right lot, that booking `b` holds. */
  predicate HeldBy(x: Spot, b: Booking) {
    x.id == b.spotId && x.occupied && x.lotId == b.lotId
  }

  /** Every active booking holds an existing, occupied spot of its lot. */
  ghost predicate ActiveBookingsHeld(db: Database) {
    forall k :: 0 <= k < |db.bookings| && db.bookings[k].status == Active
      ==> exists x :: x in db.spots && HeldBy(x, db.bookings[k])
  }

  /** At most one active booking per user and per spot. */
  ghost predicate SingleActive(bs: seq<Booking>) {
    forall key :: ActiveCount(bs, key) <= 1
  }

  ghost predicate BookingIdsIssued(db: Database) {
    forall k :: 0 <= k < |db.bookings| ==> db.bookings[k].id < db.nextBookingId
  }

  ghost predicate Inv(db: Database) {
    && SpotsWellFormed(db)
    && LedgerOk(db)
    && CapacityOk(db)
    && NumbersDistinct(db.spots)
    && ActiveBookingsHeld(db)
    && SingleActive(db.bookings)
    && BookingIdsIssued(db)
  }

  /** A fresh database keeps every rule. */
  lemma EmptyInv()
    ensures Inv(Empty)
  {
    forall key ensures ActiveCount(Empty.bookings, key) <= 1 { }
  }

  /** No booking active for a key means a count of zero. */
  lemma {:induction false} ActiveCountZero(bs: seq<Booking>, key: Key)
    requires forall k :: 0 <= k < |bs| ==> !ActiveFor(bs[k], key)
    ensures ActiveCount(bs, key) == 0
    decreases |bs|
  {
    if bs != [] {
      ActiveCountZero(bs[1..], key);
    }
  }

  /** Under the rules, a spot that is unoccupied carries no active booking. */
  lemma FreeSpotHasNoBooking(db: Database, i: nat)
    requires SpotsWellFormed(db) && ActiveBookingsHeld(db)
    requires i < |db.spots| && !db.spots[i].occupied
    ensures ActiveCount(db.bookings, OnSpot(db.spots[i].id)) == 0
  {
    var key := OnSpot(db.spots[i].id);
    forall k | 0 <= k < |db.bookings| && db.bookings[k].status == Active
      ensures db.bookings[k].spotId != db.spots[i].id
    {
      var x :| x in db.spots && HeldBy(x, db.bookings[k]);
      var m :| 0 <= m < |db.spots| && db.spots[m] == x;
      assert m != i;
    }
    ActiveCountZero(db.bookings, key);
  }

  /** Spot ids identify positions. */
  lemma SameIdSamePosition(s: seq<Spot>, i: nat, j: nat)
    requires IdsIncreasing(s) && i < |s| && j < |s| && s[i].id == s[j].id
    ensures i == j
  {
  }

  /** Rules hold of a store when they hold of an equal one. */
  lemma InvOfEqual(a: Database, b: Database)
    requires Inv(a) && a == b
    ensures Inv(b)
  {
  }
}
