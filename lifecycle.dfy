/** The booking lifecycle: a user books a spot (active), releases it and is
    billed (completed), or an administrator frees the spot (cancelled). Each
    operation is a function from the store before to the store after; the
    `Store` class carries them out in place. */
module Lifecycle {
  import opened Wrappers
  import opened Records
  import opened Invariants
  import Text
  import Billing

  // ---------------------------------------------------------------------
  // The operations

  /** The booking branch of the user dashboard, with the spot required to lie
      in the submitted lot (the handler itself omits that check; see
      Findings.BookAsWritten). */
  function Book(db: Database, user: UserId, spotId: SpotId, lotId: LotId,
                vehicle: string, now: int): (r: Step)
    ensures r.outcome.Rejected? ==> r.db == db
    ensures FirstActive(db.bookings, OfUser(user)).Some? <==> r.outcome == Rejected(DuplicateActiveBooking)
    ensures r.outcome == Done || r.outcome == Rejected(DuplicateActiveBooking) || r.outcome == Rejected(SpotUnavailable)
  {
    if FirstActive(db.bookings, OfUser(user)).Some? then Step(db, Rejected(DuplicateActiveBooking))
    else match SpotIndex(db.spots, spotId)
      case None => Step(db, Rejected(SpotUnavailable))
      case Some(i) =>
        if lotId !in db.lots || db.spots[i].occupied || db.spots[i].lotId != lotId then
          Step(db, Rejected(SpotUnavailable))
        else
          var lot := db.lots[lotId];
          var booking := Booking(db.nextBookingId, Text.Upper(vehicle), now, None, Active,
                                 lot.pricePerHour, user, spotId, lotId);
          Step(db.(lots := db.lots[lotId := lot.(availableSpots := lot.availableSpots - 1)],
                   spots := db.spots[i := db.spots[i].(occupied := true)],
                   bookings := db.bookings + [booking],
                   nextBookingId := db.nextBookingId + 1),
               Done)
  }

  /** `release_parking`: the user's active booking is completed and billed for
      the hours since it was made, and its spot is freed. */
  function Release(db: Database, user: UserId, now: int): (r: Step)
    ensures r.outcome.Rejected? ==> r.db == db
    ensures FirstActive(db.bookings, OfUser(user)).None? <==> r.outcome == Rejected(NoActiveBooking)
  {
    match FirstActive(db.bookings, OfUser(user))
    case None => Step(db, Rejected(NoActiveBooking))
    case Some(j) =>
      var b := db.bookings[j];
      match SpotIndex(db.spots, b.spotId)
      case None => Step(db, Rejected(StorageFault))
      case Some(i) =>
        var spot := db.spots[i];
        if spot.lotId !in db.lots then Step(db, Rejected(StorageFault))
        else
          var hours := Billing.BilledHours(now - b.bookingTime);
          var lot := db.lots[spot.lotId];
          Step(db.(bookings := db.bookings[j := b.(status := Completed, releaseTime := Some(now),
                                                   totalCost := b.totalCost * hours)],
                   spots := db.spots[i := spot.(occupied := false)],
                   lots := db.lots[spot.lotId := lot.(availableSpots := lot.availableSpots + 1)]),
               Done)
  }

  /** Marks the first active booking on a spot cancelled, if there is one; the
      cost stays as it was. */
  function CancelActiveOn(bs: seq<Booking>, spotId: SpotId, now: int): (r: seq<Booking>)
    ensures |r| == |bs|
    ensures forall key :: ActiveCount(r, key) <= ActiveCount(bs, key)
    ensures ActiveCount(bs, OnSpot(spotId)) <= 1 ==> ActiveCount(r, OnSpot(spotId)) == 0
    ensures forall k :: 0 <= k < |bs| && !ActiveFor(bs[k], OnSpot(spotId)) ==> r[k] == bs[k]
    ensures forall k :: 0 <= k < |bs| && ActiveFor(bs[k], OnSpot(spotId)) && r[k] != bs[k]
              ==> r[k] == bs[k].(status := Cancelled, releaseTime := Some(now))
    ensures ActiveCount(bs, OnSpot(spotId)) <= 1 ==>
              forall k :: 0 <= k < |bs| && ActiveFor(bs[k], OnSpot(spotId))
                ==> r[k] == bs[k].(status := Cancelled, releaseTime := Some(now))
  {
    match FirstActive(bs, OnSpot(spotId))
    case None => ActiveCountZero(bs, OnSpot(spotId)); bs
    case Some(j) =>
      var r := bs[j := bs[j].(status := Cancelled, releaseTime := Some(now))];
      assert ActiveCount(bs, OnSpot(spotId)) <= 1 ==>
               forall k :: 0 <= k < |bs| && ActiveFor(bs[k], OnSpot(spotId))
                 ==> r[k] == bs[k].(status := Cancelled, releaseTime := Some(now)) by {
        if ActiveCount(bs, OnSpot(spotId)) <= 1 {
          forall k | 0 <= k < |bs| && ActiveFor(bs[k], OnSpot(spotId))
            ensures r[k] == bs[k].(status := Cancelled, releaseTime := Some(now))
          {
            AtMostOneActive(bs, OnSpot(spotId), k, j);
          }
        }
      }
      assert forall key :: ActiveCount(r, key) <= ActiveCount(bs, key) by {
        forall key ensures ActiveCount(r, key) <= ActiveCount(bs, key) {
          ActiveCountAfterUpdate(bs, j, r[j], key);
        }
      }
      ActiveCountAfterUpdate(bs, j, r[j], OnSpot(spotId));
      r
  }

  /** `release_spot`: an administrator frees an occupied spot, cancelling the
      booking on it if there is one. A free spot is left alone. */
  function ForceRelease(db: Database, spotId: SpotId, now: int): (r: Step)
    ensures r.outcome.Rejected? ==> r.db == db
    ensures SpotIndex(db.spots, spotId).None? <==> r.outcome == Rejected(NotFound)
    ensures r.outcome == Rejected(SpotNotOccupied) <==>
              SpotIndex(db.spots, spotId).Some? && !db.spots[SpotIndex(db.spots, spotId).value].occupied
  {
    match SpotIndex(db.spots, spotId)
    case None => Step(db, Rejected(NotFound))
    case Some(i) =>
      var spot := db.spots[i];
      if !spot.occupied then Step(db, Rejected(SpotNotOccupied))
      else if spot.lotId !in db.lots then Step(db, Rejected(StorageFault))
      else
        var lot := db.lots[spot.lotId];
        Step(db.(bookings := CancelActiveOn(db.bookings, spotId, now),
                 spots := db.spots[i := spot.(occupied := false)],
                 lots := db.lots[spot.lotId := lot.(availableSpots := lot.availableSpots + 1)]),
             Done)
  }

  /** `change_spot_status`, with the counter adjusted whenever the flag changes
      (the handler assigns the flag before comparing and never adjusts it; see
      Findings.ToggleAsWritten). Freeing an occupied spot cancels its booking;
      occupying a free spot creates none. */
  function ToggleStatus(db: Database, spotId: SpotId, occupied: bool, now: int): (r: Step)
    ensures r.outcome.Rejected? ==> r.db == db
    ensures SpotIndex(db.spots, spotId).None? <==> r.outcome == Rejected(NotFound)
    ensures (SpotIndex(db.spots, spotId).Some? && db.spots[SpotIndex(db.spots, spotId).value].occupied == occupied)
              ==> r == Step(db, Done)
  {
    match SpotIndex(db.spots, spotId)
    case None => Step(db, Rejected(NotFound))
    case Some(i) =>
      var spot := db.spots[i];
      if spot.occupied == occupied then Step(db, Done)
      else if spot.lotId !in db.lots then Step(db, Rejected(StorageFault))
      else
        var lot := db.lots[spot.lotId];
        var bs := if occupied then db.bookings else CancelActiveOn(db.bookings, spotId, now);
        Step(db.(bookings := bs,
                 spots := db.spots[i := spot.(occupied := occupied)],
                 lots := db.lots[spot.lotId := lot.(availableSpots := lot.availableSpots + (if occupied then -1 else 1))]),
             Done)
  }

  // ---------------------------------------------------------------------
  // Shared steps of the proofs

  /** Flipping one spot's flag and moving its lot's counter the same way keeps
      the ledger, the capacities, the ids and the labels right. */
  lemma FlipKeepsSpotRules(db: Database, d: Database, i: nat, occupied: bool)
    requires SpotsWellFormed(db) && LedgerOk(db) && CapacityOk(db) && NumbersDistinct(db.spots)
    requires i < |db.spots| && db.spots[i].occupied != occupied
    requires d.spots == db.spots[i := db.spots[i].(occupied := occupied)]
    requires d.nextLotId == db.nextLotId && d.nextSpotId == db.nextSpotId
    requires var l := db.spots[i].lotId;
             d.lots == db.lots[l := db.lots[l].(availableSpots := db.lots[l].availableSpots + (if occupied then -1 else 1))]
    ensures SpotsWellFormed(d) && LedgerOk(d) && CapacityOk(d) && NumbersDistinct(d.spots)
  {
    FlipKeepsCounts(db, d, i, occupied);
    FlipKeepsShape(db, d, i, occupied);
  }

  lemma FlipKeepsCounts(db: Database, d: Database, i: nat, occupied: bool)
    requires LedgerOk(db) && CapacityOk(db)
    requires i < |db.spots| && db.spots[i].occupied != occupied && db.spots[i].lotId in db.lots
    requires d.spots == db.spots[i := db.spots[i].(occupied := occupied)]
    requires var l := db.spots[i].lotId;
             d.lots == db.lots[l := db.lots[l].(availableSpots := db.lots[l].availableSpots + (if occupied then -1 else 1))]
    ensures LedgerOk(d) && CapacityOk(d)
  {
    var x := db.spots[i].(occupied := occupied);
    forall l | l in d.lots
      ensures d.lots[l].availableSpots == FreeCount(d.spots, l)
      ensures d.lots[l].totalSpots == SpotCount(d.spots, l)
    {
      CountsAfterUpdate(db.spots, i, x, l);
    }
  }

  lemma FlipKeepsShape(db: Database, d: Database, i: nat, occupied: bool)
    requires SpotsWellFormed(db) && NumbersDistinct(db.spots)
    requires i < |db.spots|
    requires d.spots == db.spots[i := db.spots[i].(occupied := occupied)]
    requires d.nextLotId == db.nextLotId && d.nextSpotId == db.nextSpotId && d.lots.Keys == db.lots.Keys
    ensures SpotsWellFormed(d) && NumbersDistinct(d.spots)
  {
  }

  /** Under the rules, an active booking's spot is found by its id, is occupied
      and lies in the booking's lot. */
  lemma ActiveBookingSpot(db: Database, k: nat)
    requires SpotsWellFormed(db) && ActiveBookingsHeld(db)
    requires k < |db.bookings| && db.bookings[k].status == Active
    ensures SpotIndex(db.spots, db.bookings[k].spotId).Some?
    ensures var i := SpotIndex(db.spots, db.bookings[k].spotId).value;
            db.spots[i].occupied && db.spots[i].lotId == db.bookings[k].lotId && db.spots[i].lotId in db.lots
  {
    var x :| x in db.spots && HeldBy(x, db.bookings[k]);
    var m :| 0 <= m < |db.spots| && db.spots[m] == x;
    SameIdSamePosition(db.spots, m, SpotIndex(db.spots, x.id).value);
  }

  /** Occupying free spot i and adding an active booking for it, for a user
      with no active booking, keeps the booking rules. */
  lemma OccupyKeepsBookingRules(db: Database, d: Database, i: nat, b: Booking)
    requires SpotsWellFormed(db) && ActiveBookingsHeld(db) && SingleActive(db.bookings) && BookingIdsIssued(db)
    requires i < |db.spots| && !db.spots[i].occupied
    requires d.spots == db.spots[i := db.spots[i].(occupied := true)]
    requires d.bookings == db.bookings + [b]
    requires b.status == Active && b.spotId == db.spots[i].id && b.lotId == db.spots[i].lotId
    requires ActiveCount(db.bookings, OfUser(b.userId)) == 0
    requires b.id == db.nextBookingId && d.nextBookingId == db.nextBookingId + 1
    ensures ActiveBookingsHeld(d) && SingleActive(d.bookings) && BookingIdsIssued(d)
  {
    HeldAfterOccupy(db.spots, i, db.bookings);
    assert HeldBy(d.spots[i], b);
    FreeSpotHasNoBooking(db, i);
    forall key ensures ActiveCount(d.bookings, key) <= 1 {
      ActiveCountAppend(db.bookings, [b], key);
      assert ActiveCount([b], key) == if ActiveFor(b, key) then 1 else 0;
    }
  }

  /** Freeing spot i once the booking on it (if any) has ended keeps the
      booking rules. */
  lemma FreeKeepsBookingRules(db: Database, d: Database, i: nat)
    requires ActiveBookingsHeld(db) && SingleActive(db.bookings) && BookingIdsIssued(db)
    requires i < |db.spots|
    requires d.spots == db.spots[i := db.spots[i].(occupied := false)]
    requires |d.bookings| == |db.bookings| && d.nextBookingId == db.nextBookingId
    requires forall k :: 0 <= k < |db.bookings| && !ActiveFor(db.bookings[k], OnSpot(db.spots[i].id))
               ==> d.bookings[k] == db.bookings[k]
    requires forall k :: 0 <= k < |db.bookings| && ActiveFor(db.bookings[k], OnSpot(db.spots[i].id))
               ==> d.bookings[k].status != Active && d.bookings[k].id == db.bookings[k].id
    requires forall key :: ActiveCount(d.bookings, key) <= ActiveCount(db.bookings, key)
    ensures ActiveBookingsHeld(d) && SingleActive(d.bookings) && BookingIdsIssued(d)
  {
    HeldAfterFree(db.spots, i, d.bookings);
  }

  /** Freeing spot i keeps every active booking held, provided none of them is on spot i. */
  lemma HeldAfterFree(s: seq<Spot>, i: nat, bs: seq<Booking>)
    requires i < |s|
    requires forall k :: 0 <= k < |bs| && bs[k].status == Active
               ==> (exists x :: x in s && HeldBy(x, bs[k])) && bs[k].spotId != s[i].id
    ensures forall k :: 0 <= k < |bs| && bs[k].status == Active
               ==> exists x :: x in s[i := s[i].(occupied := false)] && HeldBy(x, bs[k])
  {
    var s' := s[i := s[i].(occupied := false)];
    forall k | 0 <= k < |bs| && bs[k].status == Active
      ensures exists x :: x in s' && HeldBy(x, bs[k])
    {
      var x :| x in s && HeldBy(x, bs[k]);
      var m :| 0 <= m < |s| && s[m] == x;
      assert s'[m] == x;
    }
  }

  /** Occupying spot i keeps every active booking held. */
  lemma HeldAfterOccupy(s: seq<Spot>, i: nat, bs: seq<Booking>)
    requires i < |s|
    requires forall k :: 0 <= k < |bs| && bs[k].status == Active ==> exists x :: x in s && HeldBy(x, bs[k])
    ensures forall k :: 0 <= k < |bs| && bs[k].status == Active
               ==> exists x :: x in s[i := s[i].(occupied := true)] && HeldBy(x, bs[k])
  {
    var s' := s[i := s[i].(occupied := true)];
    forall k | 0 <= k < |bs| && bs[k].status == Active
      ensures exists x :: x in s' && HeldBy(x, bs[k])
    {
      var x :| x in s && HeldBy(x, bs[k]);
      var m :| 0 <= m < |s| && s[m] == x;
      assert s'[m] == x;
    }
  }

  // ---------------------------------------------------------------------
  // Booking

  /** Booking succeeds exactly when the user holds no active booking, the lot
      exists and the spot exists, is free and lies in that lot. */
  lemma BookAccepts(db: Database, user: UserId, spotId: SpotId, lotId: LotId, vehicle: string, now: int)
    requires SpotsWellFormed(db)
    ensures Book(db, user, spotId, lotId, vehicle, now).outcome == Done <==>
            && ActiveCount(db.bookings, OfUser(user)) == 0
            && lotId in db.lots
            && exists x :: x in db.spots && x.id == spotId && !x.occupied && x.lotId == lotId
  {
    if ActiveCount(db.bookings, OfUser(user)) == 0 {
      if FirstActive(db.bookings, OfUser(user)).Some? {
        ActiveCountPositive(db.bookings, FirstActive(db.bookings, OfUser(user)).value, OfUser(user));
      }
    } else if FirstActive(db.bookings, OfUser(user)).None? {
      ActiveCountZero(db.bookings, OfUser(user));
    }
    match SpotIndex(db.spots, spotId)
    case None =>
    case Some(i) =>
      forall x | x in db.spots && x.id == spotId ensures x == db.spots[i] {
        var m :| 0 <= m < |db.spots| && db.spots[m] == x;
        SameIdSamePosition(db.spots, m, i);
      }
  }

  /** A successful booking adds one active booking, priced at the lot's hourly
      rate with the plate uppercased; the spot becomes occupied and that lot's
      counter drops by one, as does its number of free spots; nothing else
      changes but the next booking id. */
  lemma BookEffect(db: Database, user: UserId, spotId: SpotId, lotId: LotId, vehicle: string, now: int)
    requires SpotsWellFormed(db)
    requires Book(db, user, spotId, lotId, vehicle, now).outcome == Done
    ensures var r := Book(db, user, spotId, lotId, vehicle, now);
            && lotId in db.lots
            && |r.db.bookings| == |db.bookings| + 1
            && r.db.bookings[..|db.bookings|] == db.bookings
            && r.db.bookings[|db.bookings|]
               == Booking(db.nextBookingId, Text.Upper(vehicle), now, None, Active,
                          db.lots[lotId].pricePerHour, user, spotId, lotId)
            && r.db.lots == db.lots[lotId := db.lots[lotId].(availableSpots := db.lots[lotId].availableSpots - 1)]
            && FreeCount(r.db.spots, lotId) == FreeCount(db.spots, lotId) - 1
            && r.db.nextLotId == db.nextLotId && r.db.nextSpotId == db.nextSpotId
            && r.db.nextBookingId == db.nextBookingId + 1
            && |r.db.spots| == |db.spots|
            && (forall k :: 0 <= k < |db.spots| ==>
                  r.db.spots[k] == if db.spots[k].id == spotId then db.spots[k].(occupied := true) else db.spots[k])
  {
    var i := SpotIndex(db.spots, spotId).value;
    CountsAfterUpdate(db.spots, i, db.spots[i].(occupied := true), lotId);
    forall k | 0 <= k < |db.spots| && db.spots[k].id == spotId ensures k == i {
      SameIdSamePosition(db.spots, k, i);
    }
  }

  lemma BookPreservesInv(db: Database, user: UserId, spotId: SpotId, lotId: LotId, vehicle: string, now: int)
    requires Inv(db)
    ensures Inv(Book(db, user, spotId, lotId, vehicle, now).db)
  {
    var r := Book(db, user, spotId, lotId, vehicle, now);
    if r.outcome == Done {
      var i := SpotIndex(db.spots, spotId).value;
      var b := r.db.bookings[|db.bookings|];
      assert r.db.bookings == db.bookings + [b];
      ActiveCountZero(db.bookings, OfUser(user));
      FlipKeepsSpotRules(db, r.db, i, true);
      OccupyKeepsBookingRules(db, r.db, i, b);
    }
  }

  // ---------------------------------------------------------------------
  // Self-release

  /** Release succeeds exactly when the user holds an active booking, and it
      is then the only one they hold. */
  lemma ReleaseAccepts(db: Database, user: UserId, now: int)
    requires Inv(db)
    ensures var r := Release(db, user, now);
            && (r.outcome == Done <==> ActiveCount(db.bookings, OfUser(user)) == 1)
            && (r.outcome.Rejected? ==> r.outcome == Rejected(NoActiveBooking))
  {
    match FirstActive(db.bookings, OfUser(user))
    case None =>
      ActiveCountZero(db.bookings, OfUser(user));
    case Some(j) =>
      ActiveCountPositive(db.bookings, j, OfUser(user));
      ActiveBookingSpot(db, j);
  }

  /** A release completes the user's active booking, stamps the release time
      and bills the rate it was booked at for the hours parked (at least one);
      the user is then left with no active booking and no other booking
      changes. */
  lemma ReleaseBills(db: Database, user: UserId, now: int)
    requires Release(db, user, now).outcome == Done
    ensures var r := Release(db, user, now);
            var j := FirstActive(db.bookings, OfUser(user)).value;
            var b := db.bookings[j];
            && |r.db.bookings| == |db.bookings|
            && (forall k :: 0 <= k < |db.bookings| && k != j ==> r.db.bookings[k] == db.bookings[k])
            && r.db.bookings[j].status == Completed
            && r.db.bookings[j].releaseTime == Some(now)
            && r.db.bookings[j].totalCost == b.totalCost * Billing.BilledHours(now - b.bookingTime)
            && r.db.bookings[j] == b.(status := Completed, releaseTime := Some(now),
                                      totalCost := r.db.bookings[j].totalCost)
            && ActiveCount(r.db.bookings, OfUser(user)) == ActiveCount(db.bookings, OfUser(user)) - 1
  {
    var r := Release(db, user, now);
    var j := FirstActive(db.bookings, OfUser(user)).value;
    ActiveCountAfterUpdate(db.bookings, j, r.db.bookings[j], OfUser(user));
  }

  /** A release frees the booked spot and raises its lot's counter and free
      count by one; no other spot, no other lot and no id counter changes. */
  lemma ReleaseFreesSpot(db: Database, user: UserId, now: int)
    requires Inv(db)
    requires Release(db, user, now).outcome == Done
    ensures var r := Release(db, user, now);
            var b := db.bookings[FirstActive(db.bookings, OfUser(user)).value];
            && b.lotId in db.lots
            && SpotIndex(db.spots, b.spotId).Some?
            && var i := SpotIndex(db.spots, b.spotId).value;
               && db.spots[i].id == b.spotId && db.spots[i].occupied && db.spots[i].lotId == b.lotId
               && r.db.spots == db.spots[i := db.spots[i].(occupied := false)]
               && r.db.lots == db.lots[b.lotId := db.lots[b.lotId].(availableSpots := db.lots[b.lotId].availableSpots + 1)]
               && FreeCount(r.db.spots, b.lotId) == FreeCount(db.spots, b.lotId) + 1
               && r.db.nextLotId == db.nextLotId && r.db.nextSpotId == db.nextSpotId
               && r.db.nextBookingId == db.nextBookingId
  {
    var r := Release(db, user, now);
    var j := FirstActive(db.bookings, OfUser(user)).value;
    var b := db.bookings[j];
    ActiveBookingSpot(db, j);
    var i := SpotIndex(db.spots, b.spotId).value;
    CountsAfterUpdate(db.spots, i, db.spots[i].(occupied := false), b.lotId);
  }

  lemma ReleasePreservesInv(db: Database, user: UserId, now: int)
    requires Inv(db)
    ensures Inv(Release(db, user, now).db)
  {
    var r := Release(db, user, now);
    if r.outcome == Done {
      var j := FirstActive(db.bookings, OfUser(user)).value;
      var b := db.bookings[j];
      ActiveBookingSpot(db, j);
      var i := SpotIndex(db.spots, b.spotId).value;
      FlipKeepsSpotRules(db, r.db, i, false);
      forall key ensures ActiveCount(r.db.bookings, key) <= ActiveCount(db.bookings, key) {
        ActiveCountAfterUpdate(db.bookings, j, r.db.bookings[j], key);
      }
      forall k | 0 <= k < |db.bookings| && ActiveFor(db.bookings[k], OnSpot(b.spotId)) ensures k == j {
        AtMostOneActive(db.bookings, OnSpot(b.spotId), k, j);
      }
      FreeKeepsBookingRules(db, r.db, i);
    }
  }

  // ---------------------------------------------------------------------
  // Administrator force-release

  /** Forcing a free spot changes nothing. Forcing an occupied one frees it,
      cancels the booking on it (if any) without touching its cost, and raises
      that lot's counter and free count by one; no other spot, lot or booking
      and no id counter changes. */
  lemma ForceReleaseEffect(db: Database, spotId: SpotId, now: int)
    requires Inv(db)
    ensures var r := ForceRelease(db, spotId, now);
      && (r.outcome.Rejected? ==> r.outcome == Rejected(NotFound) || r.outcome == Rejected(SpotNotOccupied))
      && (r.outcome == Done ==>
            var i := SpotIndex(db.spots, spotId).value;
            var l := db.spots[i].lotId;
            && db.spots[i].occupied
            && l in db.lots
            && r.db.spots == db.spots[i := db.spots[i].(occupied := false)]
            && r.db.lots == db.lots[l := db.lots[l].(availableSpots := db.lots[l].availableSpots + 1)]
            && FreeCount(r.db.spots, l) == FreeCount(db.spots, l) + 1
            && r.db.nextLotId == db.nextLotId && r.db.nextSpotId == db.nextSpotId
            && r.db.nextBookingId == db.nextBookingId
            && ActiveCount(r.db.bookings, OnSpot(spotId)) == 0
            && |r.db.bookings| == |db.bookings|
            && (forall k :: 0 <= k < |db.bookings| ==>
                  r.db.bookings[k] == if ActiveFor(db.bookings[k], OnSpot(spotId))
                                      then db.bookings[k].(status := Cancelled, releaseTime := Some(now))
                                      else db.bookings[k]))
  {
    var r := ForceRelease(db, spotId, now);
    if SpotIndex(db.spots, spotId).Some? && db.spots[SpotIndex(db.spots, spotId).value].occupied {
      var i := SpotIndex(db.spots, spotId).value;
      assert db.spots[i].lotId in db.lots;
      ForceFrees(db, spotId, now);
      CountsAfterUpdate(db.spots, i, db.spots[i].(occupied := false), db.spots[i].lotId);
      assert ActiveCount(db.bookings, OnSpot(spotId)) <= 1;
    }
  }

  /** The store forcing an occupied spot of an existing lot leaves. */
  lemma ForceFrees(db: Database, spotId: SpotId, now: int)
    requires SpotIndex(db.spots, spotId).Some?
    requires var i := SpotIndex(db.spots, spotId).value;
             db.spots[i].occupied && db.spots[i].lotId in db.lots
    ensures var i := SpotIndex(db.spots, spotId).value;
            var l := db.spots[i].lotId;
            ForceRelease(db, spotId, now)
              == Step(db.(bookings := CancelActiveOn(db.bookings, spotId, now),
                          spots := db.spots[i := db.spots[i].(occupied := false)],
                          lots := db.lots[l := db.lots[l].(availableSpots := db.lots[l].availableSpots + 1)]),
                      Done)
  {
  }

  lemma ForceReleasePreservesInv(db: Database, spotId: SpotId, now: int)
    requires Inv(db)
    ensures Inv(ForceRelease(db, spotId, now).db)
  {
    var r := ForceRelease(db, spotId, now);
    if r.outcome == Done {
      var i := SpotIndex(db.spots, spotId).value;
      assert ActiveCount(db.bookings, OnSpot(spotId)) <= 1;
      FlipKeepsSpotRules(db, r.db, i, false);
      FreeKeepsBookingRules(db, r.db, i);
    }
  }

  // ---------------------------------------------------------------------
  // Administrator status toggle

  /** Setting a spot's flag to the value it has changes nothing. Otherwise the
      flag takes the new value, the lot's counter and free count move with it
      by one, freeing cancels the spot's active booking at `now`, and nothing
      else changes. */
  lemma ToggleEffect(db: Database, spotId: SpotId, occupied: bool, now: int)
    requires Inv(db)
    ensures var r := ToggleStatus(db, spotId, occupied, now);
      && (r.outcome.Rejected? ==> r.outcome == Rejected(NotFound))
      && (SpotIndex(db.spots, spotId).Some? && db.spots[SpotIndex(db.spots, spotId).value].occupied != occupied ==>
            var i := SpotIndex(db.spots, spotId).value;
            var l := db.spots[i].lotId;
            && r.outcome == Done && r.db != db
            && r.db.spots[i].occupied == occupied
            && l in db.lots
            && r.db.spots == db.spots[i := db.spots[i].(occupied := occupied)]
            && r.db.lots == db.lots[l := db.lots[l].(availableSpots := db.lots[l].availableSpots + (if occupied then -1 else 1))]
            && FreeCount(r.db.spots, l) == FreeCount(db.spots, l) + (if occupied then -1 else 1)
            && r.db.nextLotId == db.nextLotId && r.db.nextSpotId == db.nextSpotId
            && r.db.nextBookingId == db.nextBookingId
            && (occupied ==> r.db.bookings == db.bookings)
            && (!occupied ==>
                  && ActiveCount(r.db.bookings, OnSpot(spotId)) == 0
                  && |r.db.bookings| == |db.bookings|
                  && forall k :: 0 <= k < |db.bookings| ==>
                       r.db.bookings[k] == if ActiveFor(db.bookings[k], OnSpot(spotId))
                                           then db.bookings[k].(status := Cancelled, releaseTime := Some(now))
                                           else db.bookings[k]))
  {
    var r := ToggleStatus(db, spotId, occupied, now);
    if SpotIndex(db.spots, spotId).Some? && db.spots[SpotIndex(db.spots, spotId).value].occupied != occupied {
      var i := SpotIndex(db.spots, spotId).value;
      assert db.spots[i].lotId in db.lots;
      ToggleFlips(db, spotId, occupied, now);
      assert r.db.spots[i].occupied == occupied;
      CountsAfterUpdate(db.spots, i, db.spots[i].(occupied := occupied), db.spots[i].lotId);
      assert ActiveCount(db.bookings, OnSpot(spotId)) <= 1;
    }
  }

  /** The store a toggle that changes an existing spot's flag leaves. */
  lemma ToggleFlips(db: Database, spotId: SpotId, occupied: bool, now: int)
    requires SpotIndex(db.spots, spotId).Some?
    requires var i := SpotIndex(db.spots, spotId).value;
             db.spots[i].occupied != occupied && db.spots[i].lotId in db.lots
    ensures var i := SpotIndex(db.spots, spotId).value;
            var l := db.spots[i].lotId;
            ToggleStatus(db, spotId, occupied, now)
              == Step(db.(bookings := if occupied then db.bookings else CancelActiveOn(db.bookings, spotId, now),
                          spots := db.spots[i := db.spots[i].(occupied := occupied)],
                          lots := db.lots[l := db.lots[l].(availableSpots := db.lots[l].availableSpots + (if occupied then -1 else 1))]),
                      Done)
  {
  }

  lemma TogglePreservesInv(db: Database, spotId: SpotId, occupied: bool, now: int)
    requires Inv(db)
    ensures Inv(ToggleStatus(db, spotId, occupied, now).db)
  {
    var r := ToggleStatus(db, spotId, occupied, now);
    if r.outcome == Done && r.db != db {
      var i := SpotIndex(db.spots, spotId).value;
      FlipKeepsSpotRules(db, r.db, i, occupied);
      if occupied {
        HeldAfterOccupy(db.spots, i, db.bookings);
      } else {
        assert ActiveCount(db.bookings, OnSpot(spotId)) <= 1;
        FreeKeepsBookingRules(db, r.db, i);
      }
    }
  }
}
