/** A rule every request keeps alongside `Invariants.Inv`: every booking,
    active or not, names a spot that exists and lies in the booking's lot.
    No handler deletes a spot without the bookings made on it, and deleting a
    lot deletes the bookings made against it, so a booking never outlives its
    spot. The administrator's report joins each booking with its spot and its
    lot, so under this rule that join drops no booking. */
module Placement {
  import opened Wrappers
  import opened Records
  import opened Invariants
  import opened Lifecycle
  import opened Administration
  import opened SpotRuns
  import Text

  /** Booking `b` names a spot of `s` that lies in the booking's lot. */
  predicate Placed(s: seq<Spot>, b: Booking) {
    exists x :: x in s && x.id == b.spotId && x.lotId == b.lotId
  }

  ghost predicate BookingsPlaced(db: Database) {
    forall k :: 0 <= k < |db.bookings| ==> Placed(db.spots, db.bookings[k])
  }

  lemma EmptyPlaced()
    ensures BookingsPlaced(Empty)
  {
  }

  // ---------------------------------------------------------------------
  // How the spot table may change under a placed booking

  /** Changing a spot's flag or label keeps its id and lot, and so every
      booking placed on it. */
  lemma PlacedAfterUpdate(s: seq<Spot>, t: seq<Spot>, b: Booking)
    requires Placed(s, b)
    requires |t| == |s| && forall k :: 0 <= k < |s| ==> t[k].id == s[k].id && t[k].lotId == s[k].lotId
    ensures Placed(t, b)
  {
    var x :| x in s && x.id == b.spotId && x.lotId == b.lotId;
    var m :| 0 <= m < |s| && s[m] == x;
    assert t[m] in t;
  }

  lemma PlacedAfterAppend(s: seq<Spot>, run: seq<Spot>, b: Booking)
    requires Placed(s, b)
    ensures Placed(s + run, b)
  {
    var x :| x in s && x.id == b.spotId && x.lotId == b.lotId;
    var m :| 0 <= m < |s| && s[m] == x;
    assert (s + run)[m] == x;
  }

  /** Removing the spots with ids in `gone` keeps every other spot. */
  lemma {:induction false} WithoutIdsKeeps(s: seq<Spot>, gone: set<SpotId>, x: Spot)
    requires x in s && x.id !in gone
    ensures x in WithoutIds(s, gone)
    decreases |s|
  {
    if s[0] != x {
      assert x in s[1..];
      WithoutIdsKeeps(s[1..], gone, x);
    }
  }

  /** Every booking stays placed when the spots keep their ids and lots and
      the bookings keep their spot and lot. */
  lemma SitesKept(db: Database, d: Database)
    requires BookingsPlaced(db)
    requires |d.spots| == |db.spots| && forall k :: 0 <= k < |db.spots| ==> d.spots[k].id == db.spots[k].id && d.spots[k].lotId == db.spots[k].lotId
    requires |d.bookings| == |db.bookings|
    requires forall k :: 0 <= k < |db.bookings| ==> d.bookings[k].spotId == db.bookings[k].spotId && d.bookings[k].lotId == db.bookings[k].lotId
    ensures BookingsPlaced(d)
  {
    forall k | 0 <= k < |d.bookings| ensures Placed(d.spots, d.bookings[k]) {
      assert Placed(db.spots, db.bookings[k]);
      PlacedAfterUpdate(db.spots, d.spots, db.bookings[k]);
    }
  }

  /** Appending spots keeps every booking placed. */
  lemma SpotsAppended(db: Database, d: Database, run: seq<Spot>)
    requires BookingsPlaced(db) && d.spots == db.spots + run && d.bookings == db.bookings
    ensures BookingsPlaced(d)
  {
    forall k | 0 <= k < |d.bookings| ensures Placed(d.spots, d.bookings[k]) {
      PlacedAfterAppend(db.spots, run, db.bookings[k]);
    }
  }

  // ---------------------------------------------------------------------
  // Every request keeps the rule

  /** The new booking names the spot it occupies, in the submitted lot, and
      the earlier bookings keep their spots. */
  lemma BookKeepsPlaced(db: Database, user: UserId, spotId: SpotId, lotId: LotId, vehicle: string, now: int)
    requires BookingsPlaced(db)
    ensures BookingsPlaced(Book(db, user, spotId, lotId, vehicle, now).db)
  {
    var r := Book(db, user, spotId, lotId, vehicle, now);
    if r.outcome == Done {
      var i := SpotIndex(db.spots, spotId).value;
      forall k | 0 <= k < |r.db.bookings| ensures Placed(r.db.spots, r.db.bookings[k]) {
        if k < |db.bookings| {
          assert r.db.bookings[k] == db.bookings[k];
          PlacedAfterUpdate(db.spots, r.db.spots, db.bookings[k]);
        } else {
          assert r.db.spots[i] in r.db.spots;
        }
      }
    }
  }

  lemma ReleaseKeepsPlaced(db: Database, user: UserId, now: int)
    requires BookingsPlaced(db)
    ensures BookingsPlaced(Release(db, user, now).db)
  {
    var r := Release(db, user, now);
    if r.outcome == Done {
      SitesKept(db, r.db);
    }
  }

  lemma ForceReleaseKeepsPlaced(db: Database, spotId: SpotId, now: int)
    requires BookingsPlaced(db)
    ensures BookingsPlaced(ForceRelease(db, spotId, now).db)
  {
    var r := ForceRelease(db, spotId, now);
    if r.outcome == Done {
      SitesKept(db, r.db);
    }
  }

  lemma ToggleKeepsPlaced(db: Database, spotId: SpotId, occupied: bool, now: int)
    requires BookingsPlaced(db)
    ensures BookingsPlaced(ToggleStatus(db, spotId, occupied, now).db)
  {
    var r := ToggleStatus(db, spotId, occupied, now);
    if r.outcome == Done && r.db != db {
      SitesKept(db, r.db);
    }
  }

  lemma RenameKeepsPlaced(db: Database, spotId: SpotId, raw: string)
    requires BookingsPlaced(db)
    ensures BookingsPlaced(RenameSpot(db, spotId, raw).db)
  {
    if SpotIndex(db.spots, spotId).Some? {
      var i := SpotIndex(db.spots, spotId).value;
      RelabelKeepsPlaced(db, i, Text.Strip(raw));
      RenameRelabels(db, spotId, raw);
    }
  }

  lemma RelabelKeepsPlaced(db: Database, i: nat, name: string)
    requires BookingsPlaced(db) && i < |db.spots|
    ensures BookingsPlaced(db.(spots := db.spots[i := db.spots[i].(number := name)]))
  {
    SitesKept(db, db.(spots := db.spots[i := db.spots[i].(number := name)]));
  }

  lemma AddLotKeepsPlaced(db: Database, name: string, location: string, total: nat, available: int, price: int)
    requires BookingsPlaced(db)
    ensures BookingsPlaced(AddLot(db, name, location, total, available, price))
  {
    SpotsAppended(db, AddLot(db, name, location, total, available, price),
                  NewSpots(db.nextSpotId, db.nextLotId, 1, total, available));
  }

  lemma CreateLotKeepsPlaced(db: Database, name: string, location: string, count: int, price: int)
    requires BookingsPlaced(db)
    ensures BookingsPlaced(CreateLot(db, name, location, count, price).db)
  {
    if count >= 0 {
      AddLotKeepsPlaced(db, name, location, count, count, price);
    }
  }

  lemma {:induction false} SeedAllKeepsPlaced(db: Database, ss: seq<SeedLot>)
    requires BookingsPlaced(db)
    ensures BookingsPlaced(SeedAll(db, ss))
    decreases |ss|
  {
    if ss != [] {
      AddLotKeepsPlaced(db, ss[0].name, ss[0].location, ss[0].total, ss[0].available, ss[0].price);
      SeedAllKeepsPlaced(AddLot(db, ss[0].name, ss[0].location, ss[0].total, ss[0].available, ss[0].price), ss[1..]);
    }
  }

  lemma SeedKeepsPlaced(db: Database)
    requires BookingsPlaced(db)
    ensures BookingsPlaced(Seed(db))
  {
    if db.lots == map[] {
      SeedAllKeepsPlaced(db, Seeds);
    }
  }

  /** A booking left after deleting lot `l` was made against another lot,
      and so is its spot. */
  lemma DeleteLotKeepsPlaced(db: Database, l: LotId)
    requires BookingsPlaced(db)
    ensures BookingsPlaced(DeleteLot(db, l).db)
  {
    var r := DeleteLot(db, l);
    if r.outcome == Done {
      forall k | 0 <= k < |r.db.bookings| ensures Placed(r.db.spots, r.db.bookings[k]) {
        var b := r.db.bookings[k];
        var m :| 0 <= m < |db.bookings| && db.bookings[m] == b;
        assert Placed(db.spots, db.bookings[m]);
        var x :| x in db.spots && x.id == b.spotId && x.lotId == b.lotId;
        var n :| 0 <= n < |db.spots| && db.spots[n] == x;
        assert x in OutsideLot(db.spots, l);
      }
    }
  }

  /** A booking left after removing spots was not made on a removed spot, so
      its spot is still there. */
  lemma ShrinkKeepsPlaced(db: Database, l: LotId, lot: Lot, remove: nat)
    requires BookingsPlaced(db) && remove <= FreeCount(db.spots, l)
    ensures BookingsPlaced(Shrink(db, l, lot, remove))
  {
    var d := Shrink(db, l, lot, remove);
    var gone := Ids(Unoccupied(LotSpots(db.spots, l))[..remove]);
    BookingsNotOnKeeps(db.bookings, gone);
    forall k | 0 <= k < |d.bookings| ensures Placed(d.spots, d.bookings[k]) {
      var b := d.bookings[k];
      var m :| 0 <= m < |db.bookings| && db.bookings[m] == b;
      assert Placed(db.spots, db.bookings[m]);
      var x :| x in db.spots && x.id == b.spotId && x.lotId == b.lotId;
      WithoutIdsKeeps(db.spots, gone, x);
    }
  }

  lemma ResizeKeepsPlaced(db: Database, l: LotId, name: string, location: string, newTotal: int, price: int)
    requires BookingsPlaced(db)
    ensures BookingsPlaced(Resize(db, l, name, location, newTotal, price).db)
  {
    if l in db.lots {
      var count := SpotCount(db.spots, l);
      var resized := db.lots[l].(name := name, location := location, pricePerHour := price, totalSpots := newTotal);
      if newTotal == db.lots[l].totalSpots {
        ResizeSameTotal(db, l, name, location, price);
      } else if newTotal > count {
        ResizeGrows(db, l, name, location, newTotal, price);
        SpotsAppended(db, Grow(db, l, resized, MaxLabelIndex(db.spots, l) + 1, newTotal - count),
                      NewSpots(db.nextSpotId, l, MaxLabelIndex(db.spots, l) + 1, newTotal - count, MaxLabelIndex(db.spots, l) + 1 + (newTotal - count)));
      } else if newTotal < count {
        if count - newTotal <= FreeCount(db.spots, l) {
          ResizeShrinks(db, l, name, location, newTotal, price);
          ShrinkKeepsPlaced(db, l, resized, count - newTotal);
        } else {
          ResizeRefused(db, l, name, location, newTotal, price);
        }
      } else {
        ResizeRecordOnly(db, l, name, location, newTotal, price);
      }
    }
  }

  // ---------------------------------------------------------------------
  // What the rule gives the report

  /** Under the rules, a placed booking's spot is found by its id and its lot
      exists: both joins of the report find a row for it. */
  lemma PlacedJoins(db: Database, b: Booking)
    requires SpotsWellFormed(db) && Placed(db.spots, b)
    ensures SpotIndex(db.spots, b.spotId).Some? && b.lotId in db.lots
  {
    var x :| x in db.spots && x.id == b.spotId && x.lotId == b.lotId;
    var n :| 0 <= n < |db.spots| && db.spots[n] == x;
  }
}
