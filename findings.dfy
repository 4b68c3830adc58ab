/** Four handlers as they are written, each with an input on which it breaks
    a rule the rest of the application relies on. The operations of
    `Lifecycle` and `Administration` are the corrected versions, and their
    `...PreservesInv` lemmas prove the rules kept. */
module Findings {
  import opened Wrappers
  import opened Records
  import opened Invariants
  import opened SpotRuns
  import opened Lifecycle
  import opened Administration
  import Text

  // ---------------------------------------------------------------------
  // Booking a spot under another lot

  /** `book_parking` as written: the spot and the lot are looked up
      independently, and nothing checks that the spot belongs to the lot. */
  function BookAsWritten(db: Database, user: UserId, spotId: SpotId, lotId: LotId,
                         vehicle: string, now: int): (r: Step)
    ensures r.outcome.Rejected? ==> r.db == db
    ensures r.outcome == Done ==> |r.db.bookings| == |db.bookings| + 1
  {
    if FirstActive(db.bookings, OfUser(user)).Some? then Step(db, Rejected(DuplicateActiveBooking))
    else match SpotIndex(db.spots, spotId)
      case None => Step(db, Rejected(SpotUnavailable))
      case Some(i) =>
        if lotId !in db.lots || db.spots[i].occupied then Step(db, Rejected(SpotUnavailable))
        else
          var lot := db.lots[lotId];
          var booking := Booking(db.nextBookingId, Text.Upper(vehicle), now, None, Active,
                                 lot.pricePerHour, user, spotId, lotId);
          Step(db.(lots := db.lots[lotId := lot.(availableSpots := lot.availableSpots - 1)],
                   spots := db.spots[i := db.spots[i].(occupied := true)],
                   bookings := db.bookings + [booking],
                   nextBookingId := db.nextBookingId + 1),
               Done)
  }

  /** Two lots with one free spot each. */
  const TwoLots: Database :=
    Database(map[1 := Lot("North", "Mall", 1, 1, 10), 2 := Lot("South", "Mall", 1, 1, 20)],
             [Spot(1, "A01", false, 1), Spot(2, "A01", false, 2)], [], 3, 3, 1)

  /** Booking spot 1 (of lot 1) under lot 2 is accepted: lot 2 loses an
      available spot it still has free, and lot 1 keeps counting as free the
      spot that is now occupied. The corrected `Book` refuses the request. */
  lemma BookAsWrittenBreaksLedger()
    ensures LedgerOk(TwoLots)
    ensures var r := BookAsWritten(TwoLots, 7, 1, 2, "ka01", 0);
            r.outcome == Done && !LedgerOk(r.db)
    ensures Book(TwoLots, 7, 1, 2, "ka01", 0).outcome == Rejected(SpotUnavailable)
  {
    var r := BookAsWritten(TwoLots, 7, 1, 2, "ka01", 0);
    assert r.db.spots == [Spot(1, "A01", true, 1), Spot(2, "A01", false, 2)];
    assert LotSpots(r.db.spots, 2) == [Spot(2, "A01", false, 2)];
    assert FreeCount(r.db.spots, 2) == 1;
    assert r.db.lots[2].availableSpots == 0;
    assert LotSpots(TwoLots.spots, 1) == [Spot(1, "A01", false, 1)];
    assert LotSpots(TwoLots.spots, 2) == [Spot(2, "A01", false, 2)];
  }

  // ---------------------------------------------------------------------
  // Changing a spot's status

  /** `change_spot_status` as written: the new flag is stored before it is
      compared with the old one, so the comparison never differs and the
      lot's counter is never moved. An active booking on the spot is still
      cancelled when the spot is set free. */
  function ToggleAsWritten(db: Database, spotId: SpotId, occupied: bool, now: int): (r: Step)
    ensures r.outcome.Rejected? ==> r.db == db
    ensures r.outcome == Done ==> r.db.lots == db.lots
  {
    match SpotIndex(db.spots, spotId)
    case None => Step(db, Rejected(NotFound))
    case Some(i) =>
      var spot := db.spots[i];
      var bs := if spot.occupied && !occupied then CancelActiveOn(db.bookings, spotId, now) else db.bookings;
      Step(db.(bookings := bs, spots := db.spots[i := spot.(occupied := occupied)]), Done)
  }

  /** One lot with one free spot. */
  const OneFree: Database :=
    Database(map[1 := Lot("North", "Mall", 1, 1, 10)], [Spot(1, "A01", false, 1)], [], 2, 2, 1)

  /** Marking the free spot occupied leaves the lot claiming one available
      spot while it has none; the corrected `ToggleStatus` moves the counter. */
  lemma ToggleAsWrittenBreaksLedger()
    ensures LedgerOk(OneFree)
    ensures var r := ToggleAsWritten(OneFree, 1, true, 0);
            r.outcome == Done && !LedgerOk(r.db)
    ensures var r := ToggleStatus(OneFree, 1, true, 0);
            r.outcome == Done && LedgerOk(r.db)
  {
    assert LotSpots(OneFree.spots, 1) == [Spot(1, "A01", false, 1)];
    var r := ToggleAsWritten(OneFree, 1, true, 0);
    assert r.db.spots == [Spot(1, "A01", true, 1)];
    assert LotSpots(r.db.spots, 1) == [Spot(1, "A01", true, 1)];
    var c := ToggleStatus(OneFree, 1, true, 0);
    assert c.db.spots == [Spot(1, "A01", true, 1)];
    assert c.db.lots == map[1 := Lot("North", "Mall", 1, 0, 10)];
  }

  // ---------------------------------------------------------------------
  // Growing a lot

  /** `edit_parking_lot` as written: new spots are labelled from the number
      of spots the lot has, plus one. */
  function ResizeAsWritten(db: Database, l: LotId, name: string, location: string, newTotal: int, price: int): (r: Step)
    ensures r.outcome.Rejected? ==> r.db == db
  {
    if l !in db.lots then Step(db, Rejected(NotFound))
    else
      var lot := db.lots[l].(name := name, location := location, pricePerHour := price);
      if newTotal == lot.totalSpots then Step(db.(lots := db.lots[l := lot]), Done)
      else
        var count := SpotCount(db.spots, l);
        var resized := lot.(totalSpots := newTotal);
        if newTotal > count then Step(Grow(db, l, resized, count + 1, newTotal - count), Done)
        else if newTotal < count then
          if FreeCount(db.spots, l) < count - newTotal then Step(db, Rejected(InsufficientFreeCapacity))
          else Step(Shrink(db, l, resized, count - newTotal), Done)
        else Step(db.(lots := db.lots[l := resized]), Done)
  }

  /** When a lot has fewer spots than its highest label, as shrinking leaves
      it (shrinking A01, A02 to one spot removes A01 and keeps A02), growing
      it labels the first new spot with a label the lot already uses. The
      corrected `Resize` starts past the highest label in use, and
      `ResizePreservesInv` proves labels stay distinct. */
  lemma ResizeAsWrittenDuplicatesLabel(db: Database, l: LotId, name: string, location: string,
                                       newTotal: int, price: int, i: nat)
    requires SpotsWellFormed(db) && l in db.lots && db.lots[l].totalSpots == SpotCount(db.spots, l)
    requires newTotal > SpotCount(db.spots, l)
    requires i < |db.spots| && db.spots[i].lotId == l && db.spots[i].number == Text.Label(SpotCount(db.spots, l) + 1)
    ensures var r := ResizeAsWritten(db, l, name, location, newTotal, price);
            r.outcome == Done && !NumbersDistinct(r.db.spots)
  {
    var c := SpotCount(db.spots, l);
    var lot := db.lots[l].(name := name, location := location, pricePerHour := price, totalSpots := newTotal);
    var d := Grow(db, l, lot, c + 1, newTotal - c);
    var n := |db.spots|;
    assert d.spots[n] == Spot(db.nextSpotId, Text.Label(c + 1), false, l);
    assert d.spots[i] == db.spots[i];
    ResizeAsWrittenBreaks(db, l, name, location, newTotal, price, i, n);
  }

  lemma ResizeAsWrittenBreaks(db: Database, l: LotId, name: string, location: string,
                              newTotal: int, price: int, i: nat, j: nat)
    requires l in db.lots && db.lots[l].totalSpots == SpotCount(db.spots, l) && newTotal > SpotCount(db.spots, l)
    requires var d := Grow(db, l, db.lots[l].(name := name, location := location, pricePerHour := price, totalSpots := newTotal),
                           SpotCount(db.spots, l) + 1, newTotal - SpotCount(db.spots, l));
             i < |d.spots| && j < |d.spots| && d.spots[i].lotId == d.spots[j].lotId
             && d.spots[i].number == d.spots[j].number && d.spots[i].id != d.spots[j].id
    ensures var r := ResizeAsWritten(db, l, name, location, newTotal, price);
            r.outcome == Done && !NumbersDistinct(r.db.spots)
  {
    ResizeAsWrittenGrows(db, l, name, location, newTotal, price);
  }

  /** A resize as written that grows the lot numbers the new spots from the
      lot's spot count plus one. */
  lemma ResizeAsWrittenGrows(db: Database, l: LotId, name: string, location: string, newTotal: int, price: int)
    requires l in db.lots && db.lots[l].totalSpots == SpotCount(db.spots, l) && newTotal > SpotCount(db.spots, l)
    ensures ResizeAsWritten(db, l, name, location, newTotal, price)
            == Step(Grow(db, l, db.lots[l].(name := name, location := location, pricePerHour := price, totalSpots := newTotal),
                         SpotCount(db.spots, l) + 1, newTotal - SpotCount(db.spots, l)), Done)
  {
  }

  // ---------------------------------------------------------------------
  // Creating a lot with a negative count

  /** `add_parking_lot` as written: the form only requires a non-zero count,
      a negative one creates a lot with that total and no spots. */
  function CreateLotAsWritten(db: Database, name: string, location: string, count: int, price: int): (r: Step)
    ensures r.outcome == Done
    ensures db.nextLotId in r.db.lots && r.db.lots[db.nextLotId].totalSpots == count
  {
    var id := db.nextLotId;
    var made: nat := if count < 0 then 0 else count;
    Step(db.(lots := db.lots[id := Lot(name, location, count, count, price)],
             spots := db.spots + NewSpots(db.nextSpotId, id, 1, made, count),
             nextLotId := id + 1,
             nextSpotId := db.nextSpotId + made),
         Done)
  }

  /** With a negative count the new lot's total cannot match its number of
      spots, on any store; the corrected `CreateLot` refuses the request. */
  lemma CreateLotAsWrittenBreaksCapacity(db: Database, name: string, location: string, count: int, price: int)
    requires count < 0
    ensures !CapacityOk(CreateLotAsWritten(db, name, location, count, price).db)
    ensures CreateLot(db, name, location, count, price) == Step(db, Rejected(InvalidSpotCount))
  {
    var r := CreateLotAsWritten(db, name, location, count, price);
    assert SpotCount(r.db.spots, db.nextLotId) >= 0;
  }
}
