/** The application's tables as one mutable store. Each request handler is a
    method that updates the tables in place, step by step as the handler
    does, and is proved to leave exactly the store its specification function
    in `Lifecycle` or `Administration` describes; since those functions keep
    every rule of `Invariants.Inv` and `Placement.BookingsPlaced`, so does every method. */
module Storage {
  import opened Wrappers
  import opened Records
  import opened Invariants
  import opened SpotRuns
  import opened Lifecycle
  import opened Administration
  import opened Placement
  import Text
  import Billing

  class Store {
    var lots: map<LotId, Lot>
    var spots: seq<Spot>
    var bookings: seq<Booking>
    var nextLotId: LotId
    var nextSpotId: SpotId
    var nextBookingId: BookingId

    /** The tables as one value. */
    function Snapshot(): Database
      reads this
    {
      Database(lots, spots, bookings, nextLotId, nextSpotId, nextBookingId)
    }

    ghost predicate Valid()
      reads this
    {
      Inv(Snapshot()) && BookingsPlaced(Snapshot())
    }

    /** `db.create_all()`: empty tables, every counter at 1. */
    constructor()
      ensures Snapshot() == Empty
      ensures Valid()
    {
      lots := map[];
      spots := [];
      bookings := [];
      nextLotId := 1;
      nextSpotId := 1;
      nextBookingId := 1;
      EmptyInv();
      EmptyPlaced();
    }

    // -------------------------------------------------------------------
    // The user's requests

    /** The booking branch of `user_dashboard`. */
    method BookSpot(user: UserId, spotId: SpotId, lotId: LotId, vehicle: string, now: int) returns (outcome: Outcome)
      modifies this
      ensures Step(Snapshot(), outcome) == Book(old(Snapshot()), user, spotId, lotId, vehicle, now)
      ensures old(Valid()) ==> Valid()
    {
      ghost var before := Snapshot();
      if FirstActive(bookings, OfUser(user)).Some? {
        return Rejected(DuplicateActiveBooking);
      }
      var i := SpotIndex(spots, spotId);
      if i.None? || lotId !in lots || spots[i.value].occupied || spots[i.value].lotId != lotId {
        return Rejected(SpotUnavailable);
      }
      var lot := lots[lotId];
      var booking := Booking(nextBookingId, Text.Upper(vehicle), now, None, Active, lot.pricePerHour, user, spotId, lotId);
      spots := spots[i.value := spots[i.value].(occupied := true)];
      lots := lots[lotId := lot.(availableSpots := lot.availableSpots - 1)];
      bookings := bookings + [booking];
      nextBookingId := nextBookingId + 1;
      outcome := Done;
      if old(Valid()) {
        BookPreservesInv(before, user, spotId, lotId, vehicle, now);
        BookKeepsPlaced(before, user, spotId, lotId, vehicle, now);
      }
    }

    /** `release_parking`. */
    method ReleaseParking(user: UserId, now: int) returns (outcome: Outcome)
      modifies this
      ensures Step(Snapshot(), outcome) == Release(old(Snapshot()), user, now)
      ensures old(Valid()) ==> Valid()
    {
      ghost var before := Snapshot();
      var j := FirstActive(bookings, OfUser(user));
      if j.None? {
        return Rejected(NoActiveBooking);
      }
      var b := bookings[j.value];
      var i := SpotIndex(spots, b.spotId);
      if i.None? || spots[i.value].lotId !in lots {
        return Rejected(StorageFault);
      }
      var hours := Billing.BilledHours(now - b.bookingTime);
      bookings := bookings[j.value := b.(status := Completed, releaseTime := Some(now), totalCost := b.totalCost * hours)];
      var spot := spots[i.value];
      spots := spots[i.value := spot.(occupied := false)];
      var lot := lots[spot.lotId];
      lots := lots[spot.lotId := lot.(availableSpots := lot.availableSpots + 1)];
      outcome := Done;
      if old(Valid()) {
        ReleasePreservesInv(before, user, now);
        ReleaseKeepsPlaced(before, user, now);
      }
    }

    // -------------------------------------------------------------------
    // The administrator's requests on spots

    /** `release_spot`. */
    method ReleaseSpot(spotId: SpotId, now: int) returns (outcome: Outcome)
      modifies this
      ensures Step(Snapshot(), outcome) == ForceRelease(old(Snapshot()), spotId, now)
      ensures old(Valid()) ==> Valid()
    {
      ghost var before := Snapshot();
      var i := SpotIndex(spots, spotId);
      if i.None? {
        return Rejected(NotFound);
      }
      var spot := spots[i.value];
      if !spot.occupied {
        return Rejected(SpotNotOccupied);
      }
      if spot.lotId !in lots {
        return Rejected(StorageFault);
      }
      bookings := CancelActiveOn(bookings, spotId, now);
      spots := spots[i.value := spot.(occupied := false)];
      var lot := lots[spot.lotId];
      lots := lots[spot.lotId := lot.(availableSpots := lot.availableSpots + 1)];
      outcome := Done;
      if old(Valid()) {
        ForceReleasePreservesInv(before, spotId, now);
        ForceReleaseKeepsPlaced(before, spotId, now);
      }
    }

    /** `change_spot_status`, comparing the flags before the assignment. */
    method ChangeSpotStatus(spotId: SpotId, occupied: bool, now: int) returns (outcome: Outcome)
      modifies this
      ensures Step(Snapshot(), outcome) == ToggleStatus(old(Snapshot()), spotId, occupied, now)
      ensures old(Valid()) ==> Valid()
    {
      ghost var before := Snapshot();
      var i := SpotIndex(spots, spotId);
      if i.None? {
        return Rejected(NotFound);
      }
      var spot := spots[i.value];
      if spot.occupied == occupied {
        return Done;
      }
      if spot.lotId !in lots {
        return Rejected(StorageFault);
      }
      if !occupied {
        bookings := CancelActiveOn(bookings, spotId, now);
      }
      spots := spots[i.value := spot.(occupied := occupied)];
      var lot := lots[spot.lotId];
      lots := lots[spot.lotId := lot.(availableSpots := lot.availableSpots + (if occupied then -1 else 1))];
      outcome := Done;
      if old(Valid()) {
        TogglePreservesInv(before, spotId, occupied, now);
        ToggleKeepsPlaced(before, spotId, occupied, now);
      }
    }

    /** `edit_spot_name`. */
    method EditSpotName(spotId: SpotId, raw: string) returns (outcome: Outcome)
      modifies this
      ensures Step(Snapshot(), outcome) == RenameSpot(old(Snapshot()), spotId, raw)
      ensures old(Valid()) ==> Valid()
    {
      ghost var before := Snapshot();
      var i := SpotIndex(spots, spotId);
      if i.None? {
        return Rejected(NotFound);
      }
      var name := Text.Strip(raw);
      if NameTaken(spots, spots[i.value].lotId, name, spotId) {
        return Rejected(DuplicateSpotName);
      }
      spots := spots[i.value := spots[i.value].(number := name)];
      outcome := Done;
      if old(Valid()) {
        RenamePreservesInv(before, spotId, raw);
        RenameKeepsPlaced(before, spotId, raw);
      }
    }

    // -------------------------------------------------------------------
    // The administrator's requests on lots

    /** The growing branch of `edit_parking_lot`: `add` free spots labelled
        from `first` on, and the lot's record with its counter raised by `add`. */
    method GrowLot(l: LotId, lot: Lot, first: nat, add: nat)
      modifies this
      ensures Snapshot() == Grow(old(Snapshot()), l, lot, first, add)
    {
      AppendSpots(l, first, add, first + add);
      lots := lots[l := lot.(availableSpots := lot.availableSpots + add)];
    }

    /** The shrinking branch of `edit_parking_lot`: the lot's first `remove`
        free spots deleted with their bookings, and its record with its
        counter lowered by `remove`. */
    method ShrinkLot(l: LotId, lot: Lot, remove: nat)
      requires remove <= FreeCount(spots, l)
      modifies this
      ensures Snapshot() == Shrink(old(Snapshot()), l, lot, remove)
    {
      var free := Unoccupied(LotSpots(spots, l));
      RemoveSpots(free[..remove]);
      lots := lots[l := lot.(availableSpots := lot.availableSpots - remove)];
    }

    /** Adds `count` spots of lot `lotId`, labelled from index `first`, with
        ids from the spot counter; those past `freeUpTo` start out occupied. */
    method AppendSpots(lotId: LotId, first: nat, count: nat, freeUpTo: int)
      modifies this`spots, this`nextSpotId
      ensures spots == old(spots) + NewSpots(old(nextSpotId), lotId, first, count, freeUpTo)
      ensures nextSpotId == old(nextSpotId) + count
    {
      var run := BuildRun(nextSpotId, lotId, first, count, freeUpTo);
      spots, nextSpotId := spots + run, nextSpotId + count;
    }

    /** Deletes the given spots one at a time, each with the bookings made on it. */
    method RemoveSpots(gone: seq<Spot>)
      modifies this`spots, this`bookings
      ensures spots == WithoutIds(old(spots), Ids(gone))
      ensures bookings == BookingsNotOn(old(bookings), Ids(gone))
    {
      var i := 0;
      IdsPrefix(gone, 0);
      WithoutNoIds(spots);
      BookingsNotOnNoIds(bookings);
      while i < |gone|
        invariant 0 <= i <= |gone|
        invariant spots == WithoutIds(old(spots), Ids(gone[..i]))
        invariant bookings == BookingsNotOn(old(bookings), Ids(gone[..i]))
      {
        IdsPrefix(gone, i + 1);
        WithoutIdsTwice(old(spots), Ids(gone[..i]), {gone[i].id});
        BookingsNotOnTwice(old(bookings), Ids(gone[..i]), {gone[i].id});
        bookings := BookingsNotOn(bookings, {gone[i].id});
        spots := WithoutIds(spots, {gone[i].id});
        i := i + 1;
      }
      assert gone[..i] == gone;
    }

    /** Writes a new lot, then its `total` spots one by one; the first
        `available` of them are free. */
    method InsertLot(name: string, location: string, total: nat, available: int, price: int)
      modifies this`lots, this`nextLotId, this`spots, this`nextSpotId
      ensures Snapshot() == AddLot(old(Snapshot()), name, location, total, available, price)
    {
      var id := nextLotId;
      lots := lots[id := Lot(name, location, total, available, price)];
      nextLotId := id + 1;
      AppendSpots(id, 1, total, available);
    }

    /** `add_parking_lot`. */
    method AddParkingLot(name: string, location: string, count: int, price: int) returns (outcome: Outcome)
      modifies this
      ensures Step(Snapshot(), outcome) == CreateLot(old(Snapshot()), name, location, count, price)
      ensures old(Valid()) ==> Valid()
    {
      ghost var before := Snapshot();
      if count < 0 {
        return Rejected(InvalidSpotCount);
      }
      InsertLot(name, location, count, count, price);
      outcome := Done;
      if old(Valid()) {
        CreateLotPreservesInv(before, name, location, count, price);
        CreateLotKeepsPlaced(before, name, location, count, price);
      }
    }

    /** `init_db`: the five seed lots, each with its numbered spots, unless a
        lot exists already. */
    method SeedLots()
      modifies this
      ensures Snapshot() == Seed(old(Snapshot()))
      ensures old(Valid()) ==> Valid()
    {
      ghost var before := Snapshot();
      if lots != map[] {
        return;
      }
      var k := 0;
      while k < |Seeds|
        invariant 0 <= k <= |Seeds|
        invariant SeedAll(Snapshot(), Seeds[k..]) == SeedAll(before, Seeds)
      {
        var x := Seeds[k];
        InsertLot(x.name, x.location, x.total, x.available, x.price);
        assert Seeds[k..][0] == x && Seeds[k..][1..] == Seeds[k + 1..];
        k := k + 1;
      }
      if old(Valid()) {
        SeedEffect(before);
        SeedKeepsPlaced(before);
      }
    }

    /** `delete_parking_lot`. */
    method DeleteParkingLot(l: LotId) returns (outcome: Outcome)
      modifies this
      ensures Step(Snapshot(), outcome) == DeleteLot(old(Snapshot()), l)
      ensures old(Valid()) ==> Valid()
    {
      ghost var before := Snapshot();
      if l !in lots {
        return Rejected(NotFound);
      }
      if exists k :: 0 <= k < |spots| && spots[k].lotId == l && spots[k].occupied {
        return Rejected(LotHasOccupiedSpots);
      }
      bookings := BookingsOutsideLot(bookings, l);
      spots := OutsideLot(spots, l);
      lots := lots - {l};
      outcome := Done;
      if old(Valid()) {
        DeleteLotPreservesInv(before, l);
        DeleteLotKeepsPlaced(before, l);
      }
    }

    /** `edit_parking_lot`. */
    method EditParkingLot(l: LotId, name: string, location: string, newTotal: int, price: int) returns (outcome: Outcome)
      modifies this
      ensures Step(Snapshot(), outcome) == Resize(old(Snapshot()), l, name, location, newTotal, price)
      ensures old(Valid()) ==> Valid()
    {
      ghost var before := Snapshot();
      if l !in lots {
        return Rejected(NotFound);
      }
      var lot := lots[l].(name := name, location := location, pricePerHour := price);
      if newTotal == lot.totalSpots {
        lots := lots[l := lot];
        ResizeSameTotal(before, l, name, location, price);
        if old(Valid()) {
          ResizePreservesInv(before, l, name, location, newTotal, price);
          ResizeKeepsPlaced(before, l, name, location, newTotal, price);
        }
        return Done;
      }
      var count := SpotCount(spots, l);
      lot := lot.(totalSpots := newTotal);
      if newTotal > count {
        GrowLot(l, lot, MaxLabelIndex(spots, l) + 1, newTotal - count);
        ResizeGrows(before, l, name, location, newTotal, price);
        if old(Valid()) {
          ResizePreservesInv(before, l, name, location, newTotal, price);
          ResizeKeepsPlaced(before, l, name, location, newTotal, price);
        }
        return Done;
      } else if newTotal < count {
        if FreeCount(spots, l) < count - newTotal {
          ResizeRefused(before, l, name, location, newTotal, price);
          return Rejected(InsufficientFreeCapacity);
        }
        ShrinkLot(l, lot, count - newTotal);
        ResizeShrinks(before, l, name, location, newTotal, price);
        if old(Valid()) {
          ResizePreservesInv(before, l, name, location, newTotal, price);
          ResizeKeepsPlaced(before, l, name, location, newTotal, price);
        }
        return Done;
      }
      lots := lots[l := lot];
      ResizeRecordOnly(before, l, name, location, newTotal, price);
      outcome := Done;
      if old(Valid()) {
        ResizePreservesInv(before, l, name, location, newTotal, price);
        ResizeKeepsPlaced(before, l, name, location, newTotal, price);
      }
    }
  }

  // ---------------------------------------------------------------------
  // Making and removing runs of spots

  /** The loop of the lot handlers that makes the spots one at a time: the
      spot made at step `i` has id `firstId + i` and label index `first + i`,
      and is occupied when that index is past `freeUpTo`. */
  method BuildRun(firstId: SpotId, lotId: LotId, first: nat, count: nat, freeUpTo: int)
    returns (run: seq<Spot>)
    ensures run == NewSpots(firstId, lotId, first, count, freeUpTo)
  {
    run := [];
    var i := 0;
    while i < count
      invariant 0 <= i <= count
      invariant run == NewSpots(firstId, lotId, first, i, freeUpTo)
    {
      NewSpotsStep(firstId, lotId, first, i, freeUpTo);
      run := run + [Spot(firstId + i, Text.Label(first + i), first + i > freeUpTo, lotId)];
      i := i + 1;
    }
  }

  /** The ids of a prefix one longer hold one more id. */
  lemma IdsPrefix(s: seq<Spot>, i: nat)
    requires i <= |s|
    ensures i == 0 ==> Ids(s[..i]) == {}
    ensures 0 < i ==> Ids(s[..i]) == Ids(s[..i - 1]) + {s[i - 1].id}
  {
    if 0 < i {
      var a, b := s[..i], s[..i - 1];
      forall id | id in Ids(a) ensures id in Ids(b) + {s[i - 1].id} {
        var k :| 0 <= k < |a| && a[k].id == id;
        if k < i - 1 {
          assert b[k] == a[k];
        }
      }
      forall id | id in Ids(b) + {s[i - 1].id} ensures id in Ids(a) {
        if id in Ids(b) {
          var k :| 0 <= k < |b| && b[k].id == id;
          assert a[k] == b[k];
        } else {
          assert a[i - 1] == s[i - 1];
        }
      }
    }
  }

  /** Removing no ids changes nothing. */
  lemma {:induction false} WithoutNoIds(s: seq<Spot>)
    ensures WithoutIds(s, {}) == s
    decreases |s|
  {
    if s != [] {
      WithoutNoIds(s[1..]);
    }
  }

  /** Removing no ids keeps every booking. */
  lemma {:induction false} BookingsNotOnNoIds(bs: seq<Booking>)
    ensures BookingsNotOn(bs, {}) == bs
    decreases |bs|
  {
    if bs != [] {
      BookingsNotOnNoIds(bs[1..]);
    }
  }

  /** Removing spots in two rounds removes their union. */
  lemma {:induction false} WithoutIdsTwice(s: seq<Spot>, a: set<SpotId>, b: set<SpotId>)
    ensures WithoutIds(WithoutIds(s, a), b) == WithoutIds(s, a + b)
    decreases |s|
  {
    if s != [] {
      var rest := WithoutIds(s[1..], a);
      WithoutIdsTwice(s[1..], a, b);
      if s[0].id in a {
        assert WithoutIds(s, a) == rest;
        assert WithoutIds(s, a + b) == WithoutIds(s[1..], a + b);
      } else {
        var t := [s[0]] + rest;
        assert WithoutIds(s, a) == t;
        assert t[0] == s[0] && t[1..] == rest;
        assert WithoutIds(t, b) == (if s[0].id !in b then [s[0]] else []) + WithoutIds(rest, b);
      }
    }
  }

  /** Removing the bookings of two sets of spots in turn removes those of their union. */
  lemma {:induction false} BookingsNotOnTwice(bs: seq<Booking>, a: set<SpotId>, b: set<SpotId>)
    ensures BookingsNotOn(BookingsNotOn(bs, a), b) == BookingsNotOn(bs, a + b)
    decreases |bs|
  {
    if bs != [] {
      var rest := BookingsNotOn(bs[1..], a);
      BookingsNotOnTwice(bs[1..], a, b);
      if bs[0].spotId in a {
        assert BookingsNotOn(bs, a) == rest;
        assert BookingsNotOn(bs, a + b) == BookingsNotOn(bs[1..], a + b);
      } else {
        var t := [bs[0]] + rest;
        assert BookingsNotOn(bs, a) == t;
        assert t[0] == bs[0] && t[1..] == rest;
        assert BookingsNotOn(t, b) == (if bs[0].spotId !in b then [bs[0]] else []) + BookingsNotOn(rest, b);
      }
    }
  }
}
