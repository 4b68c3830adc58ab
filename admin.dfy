/** The administrator's lot and spot management: creating a lot with its
    numbered spots, the start-up seeding, deleting a lot, resizing it and
    renaming a spot. */
module Administration {
  import opened Wrappers
  import opened Records
  import opened Invariants
  import opened SpotRuns
  import Text

  // ---------------------------------------------------------------------
  // The operations

  /** Adds lot `nextLotId` with `total` spots labelled from A01, of which the
      first `available` are free and the rest occupied. */
  function AddLot(db: Database, name: string, location: string, total: nat, available: int, price: int): Database {
    var id := db.nextLotId;
    db.(lots := db.lots[id := Lot(name, location, total, available, price)],
        spots := db.spots + NewSpots(db.nextSpotId, id, 1, total, available),
        nextLotId := id + 1,
        nextSpotId := db.nextSpotId + total)
  }

  /** `add_parking_lot`: a lot whose spots all start free. A negative count is
      refused (the handler accepts it; see Findings.CreateLotAsWritten). */
  function CreateLot(db: Database, name: string, location: string, count: int, price: int): (r: Step)
    ensures r.outcome.Rejected? ==> r.db == db && r.outcome == Rejected(InvalidSpotCount)
  {
    if count < 0 then Step(db, Rejected(InvalidSpotCount))
    else Step(AddLot(db, name, location, count, count, price), Done)
  }

  /** One of the lots the application starts with. */
  datatype SeedLot = SeedLot(name: string, location: string, total: nat, available: int, price: int)

  const Seeds: seq<SeedLot> := [
    SeedLot("City Mall Parking", "Mall", 20, 15, 50),
    SeedLot("Airport Parking", "Airport", 15, 8, 75),
    SeedLot("Downtown Plaza", "Downtown", 10, 3, 60),
    SeedLot("Shopping Center", "Mall", 18, 12, 45),
    SeedLot("Business District", "Downtown", 12, 6, 80)
  ]

  predicate SeedOk(x: SeedLot) {
    0 <= x.available <= x.total
  }

  function SeedAll(db: Database, ss: seq<SeedLot>): Database
    decreases |ss|
  {
    if ss == [] then db
    else SeedAll(AddLot(db, ss[0].name, ss[0].location, ss[0].total, ss[0].available, ss[0].price), ss[1..])
  }

  /** `init_db`: a store without lots receives the five seed lots; a store
      that has a lot is left alone. */
  function Seed(db: Database): Database {
    if db.lots != map[] then db else SeedAll(db, Seeds)
  }

  /** `delete_parking_lot`: refused while a spot of the lot is occupied;
      otherwise the lot goes, with its spots and every booking made on it. */
  function DeleteLot(db: Database, l: LotId): (r: Step)
    ensures r.outcome.Rejected? ==> r.db == db
    ensures r.outcome == Rejected(NotFound) <==> l !in db.lots
  {
    if l !in db.lots then Step(db, Rejected(NotFound))
    else if exists k :: 0 <= k < |db.spots| && db.spots[k].lotId == l && db.spots[k].occupied then
      Step(db, Rejected(LotHasOccupiedSpots))
    else
      Step(db.(lots := db.lots - {l}, spots := OutsideLot(db.spots, l),
               bookings := BookingsOutsideLot(db.bookings, l)), Done)
  }

  /** `edit_parking_lot`: the name, location and price are replaced; a new
      total above the lot's spot count adds free spots, labelled past the
      highest label in use (the handler labels them from the count onwards;
      see Findings.ResizeAsWritten); a total below it removes that many of the
      lot's free spots, first ones first, with every booking made on them, and
      is refused when the lot has too few free spots. */
  function Resize(db: Database, l: LotId, name: string, location: string, newTotal: int, price: int): (r: Step)
    ensures r.outcome.Rejected? ==> r.db == db
    ensures r.outcome == Rejected(NotFound) <==> l !in db.lots
  {
    if l !in db.lots then Step(db, Rejected(NotFound))
    else
      var lot := db.lots[l].(name := name, location := location, pricePerHour := price);
      if newTotal == lot.totalSpots then Step(db.(lots := db.lots[l := lot]), Done)
      else
        var count := SpotCount(db.spots, l);
        var resized := lot.(totalSpots := newTotal);
        if newTotal > count then Step(Grow(db, l, resized, MaxLabelIndex(db.spots, l) + 1, newTotal - count), Done)
        else if newTotal < count then
          if FreeCount(db.spots, l) < count - newTotal then Step(db, Rejected(InsufficientFreeCapacity))
          else Step(Shrink(db, l, resized, count - newTotal), Done)
        else Step(db.(lots := db.lots[l := resized]), Done)
  }

  /** Lot `l` takes the record `lot` with `add` more available spots, and
      `add` free spots are appended to it, labelled from `first` on. */
  function Grow(db: Database, l: LotId, lot: Lot, first: nat, add: nat): Database {
    db.(lots := db.lots[l := lot.(availableSpots := lot.availableSpots + add)],
        spots := db.spots + NewSpots(db.nextSpotId, l, first, add, first + add),
        nextSpotId := db.nextSpotId + add)
  }

  /** Lot `l` takes the record `lot` with `remove` fewer available spots, and
      its first `remove` free spots are deleted together with every booking
      made on them. */
  function Shrink(db: Database, l: LotId, lot: Lot, remove: nat): Database
    requires remove <= FreeCount(db.spots, l)
  {
    var gone := Ids(Unoccupied(LotSpots(db.spots, l))[..remove]);
    db.(lots := db.lots[l := lot.(availableSpots := lot.availableSpots - remove)],
        spots := WithoutIds(db.spots, gone),
        bookings := BookingsNotOn(db.bookings, gone))
  }

  /** Whether a spot of lot `l` other than `spotId` is labelled `name`. */
  predicate NameTaken(s: seq<Spot>, l: LotId, name: string, spotId: SpotId) {
    exists k :: 0 <= k < |s| && s[k].lotId == l && s[k].number == name && s[k].id != spotId
  }

  /** `edit_spot_name`: the spot takes the submitted name with surrounding
      white space stripped, unless another spot of its lot already has it. */
  function RenameSpot(db: Database, spotId: SpotId, raw: string): (r: Step)
    ensures r.outcome.Rejected? ==> r.db == db
    ensures r.outcome == Rejected(NotFound) <==> SpotIndex(db.spots, spotId).None?
  {
    match SpotIndex(db.spots, spotId)
    case None => Step(db, Rejected(NotFound))
    case Some(i) =>
      var name := Text.Strip(raw);
      if NameTaken(db.spots, db.spots[i].lotId, name, spotId) then Step(db, Rejected(DuplicateSpotName))
      else Step(db.(spots := db.spots[i := db.spots[i].(number := name)]), Done)
  }

  // ---------------------------------------------------------------------
  // Shared steps of the proofs

  /** A lot no spot belongs to has no spots. */
  lemma {:induction false} NoSpotsOfLot(s: seq<Spot>, l: LotId)
    requires forall k :: 0 <= k < |s| ==> s[k].lotId != l
    ensures LotSpots(s, l) == []
    decreases |s|
  {
    if s != [] {
      NoSpotsOfLot(s[1..], l);
    }
  }

  /** The spots of lot `lotId` in a run of its new spots are the whole run. */
  lemma RunIsItsLot(firstId: SpotId, lotId: LotId, first: nat, count: nat, freeUpTo: int)
    ensures LotSpots(NewSpots(firstId, lotId, first, count, freeUpTo), lotId) == NewSpots(firstId, lotId, first, count, freeUpTo)
  {
    AllOfLot(NewSpots(firstId, lotId, first, count, freeUpTo), lotId);
  }

  /** Appending a run of new spots of lot `lotId` to the spots: that lot's
      spots gain the run, every other lot's spots stay as they were. */
  lemma AppendRunLotSpots(s: seq<Spot>, firstId: SpotId, lotId: LotId, first: nat, count: nat, freeUpTo: int, l: LotId)
    ensures LotSpots(s + NewSpots(firstId, lotId, first, count, freeUpTo), l)
            == LotSpots(s, l) + (if l == lotId then NewSpots(firstId, lotId, first, count, freeUpTo) else [])
  {
    LotSpotsAppend(s, NewSpots(firstId, lotId, first, count, freeUpTo), l);
    if l == lotId {
      RunIsItsLot(firstId, lotId, first, count, freeUpTo);
    } else {
      NewSpotsCounts(firstId, lotId, first, count, freeUpTo, l);
    }
  }

  /** Appending a run of new spots, with fresh ids and labels past every label
      index of its lot, keeps the ids ordered and the labels distinct. */
  lemma AppendRunKeepsShape(db: Database, d: Database, lotId: LotId, first: nat, count: nat, freeUpTo: int)
    requires SpotsWellFormed(db) && NumbersDistinct(db.spots)
    requires d.spots == db.spots + NewSpots(db.nextSpotId, lotId, first, count, freeUpTo)
    requires d.nextSpotId == db.nextSpotId + count
    requires db.lots.Keys <= d.lots.Keys && lotId in d.lots && forall l :: l in d.lots ==> l < d.nextLotId
    requires MaxLabelIndex(db.spots, lotId) < first
    ensures SpotsWellFormed(d) && NumbersDistinct(d.spots)
  {
    AppendRunLabels(db.spots, db.nextSpotId, lotId, first, count, freeUpTo);
    AppendRunIds(db.spots, db.nextSpotId, lotId, first, count, freeUpTo);
    forall k | 0 <= k < |d.spots|
      ensures d.spots[k].lotId in d.lots && d.spots[k].id < d.nextSpotId
    {
      if k >= |db.spots| {
        assert d.spots[k] == NewSpots(db.nextSpotId, lotId, first, count, freeUpTo)[k - |db.spots|];
      } else {
        assert d.spots[k] == db.spots[k];
      }
    }
  }

  /** A run with ids from `firstId` on, after spots whose ids are all below it, keeps the ids increasing. */
  lemma AppendRunIds(s: seq<Spot>, firstId: SpotId, lotId: LotId, first: nat, count: nat, freeUpTo: int)
    requires IdsIncreasing(s) && forall k :: 0 <= k < |s| ==> s[k].id < firstId
    ensures IdsIncreasing(s + NewSpots(firstId, lotId, first, count, freeUpTo))
  {
    var run := NewSpots(firstId, lotId, first, count, freeUpTo);
    var t := s + run;
    forall i, j | 0 <= i < j < |t|
      ensures t[i].id < t[j].id
    {
      if j >= |s| {
        assert t[j] == run[j - |s|];
        if i >= |s| {
          assert t[i] == run[i - |s|];
        }
      }
    }
  }

  lemma AppendRunLabels(s: seq<Spot>, firstId: SpotId, lotId: LotId, first: nat, count: nat, freeUpTo: int)
    requires NumbersDistinct(s)
    requires MaxLabelIndex(s, lotId) < first
    ensures NumbersDistinct(s + NewSpots(firstId, lotId, first, count, freeUpTo))
  {
    var run := NewSpots(firstId, lotId, first, count, freeUpTo);
    var t := s + run;
    forall i, j | 0 <= i < |t| && 0 <= j < |t| && t[i].lotId == t[j].lotId && t[i].number == t[j].number
      ensures t[i].id == t[j].id
    {
      AppendRunPair(s, firstId, lotId, first, count, freeUpTo, i, j);
    }
  }

  /** Two spots of the spots followed by a new run that share lot and label are the same spot. */
  lemma AppendRunPair(s: seq<Spot>, firstId: SpotId, lotId: LotId, first: nat, count: nat, freeUpTo: int, i: nat, j: nat)
    requires NumbersDistinct(s) && MaxLabelIndex(s, lotId) < first
    requires i < |s| + count && j < |s| + count
    ensures var t := s + NewSpots(firstId, lotId, first, count, freeUpTo);
            t[i].lotId == t[j].lotId && t[i].number == t[j].number ==> t[i].id == t[j].id
  {
    var run := NewSpots(firstId, lotId, first, count, freeUpTo);
    if i < |s| && j >= |s| {
      OldLabelNotInRun(s, firstId, lotId, first, count, freeUpTo, i, j - |s|);
    } else if i >= |s| && j < |s| {
      OldLabelNotInRun(s, firstId, lotId, first, count, freeUpTo, j, i - |s|);
    } else if i >= |s| && j >= |s| {
      NewSpotsLabelsDistinct(firstId, lotId, first, count, freeUpTo, i - |s|, j - |s|);
    } else {
      assert (s + run)[i] == s[i] && (s + run)[j] == s[j];
    }
  }

  /** A spot already in the lot never shares its label with a spot of a run
      labelled past the lot's highest label index. */
  lemma OldLabelNotInRun(s: seq<Spot>, firstId: SpotId, lotId: LotId, first: nat, count: nat, freeUpTo: int, i: nat, k: nat)
    requires MaxLabelIndex(s, lotId) < first && i < |s| && k < count
    ensures var x := NewSpots(firstId, lotId, first, count, freeUpTo)[k];
            s[i].lotId != x.lotId || s[i].number != x.number
  {
    var x := NewSpots(firstId, lotId, first, count, freeUpTo)[k];
    assert x.lotId == lotId && x.number == Text.Label(first + k);
    if s[i].lotId == lotId {
      LabelAboveMaxIsFresh(s, lotId, first + k, i);
    }
  }

  /** Every active booking keeps its spot when the spots only grow. */
  lemma HeldAfterAppend(db: Database, d: Database, run: seq<Spot>)
    requires ActiveBookingsHeld(db)
    requires d.spots == db.spots + run && d.bookings == db.bookings
    ensures ActiveBookingsHeld(d)
  {
    forall k | 0 <= k < |d.bookings| && d.bookings[k].status == Active
      ensures exists x :: x in d.spots && HeldBy(x, d.bookings[k])
    {
      var x :| x in db.spots && HeldBy(x, db.bookings[k]);
      assert x in d.spots;
    }
  }

  // ---------------------------------------------------------------------
  // Creating a lot, and the seeding

  /** Every lot id in use, by a lot or by a spot, lies below the next lot id. */
  ghost predicate LotIdsBelow(db: Database) {
    && (forall l :: l in db.lots ==> l < db.nextLotId)
    && (forall k :: 0 <= k < |db.spots| ==> db.spots[k].lotId < db.nextLotId)
  }

  lemma WellFormedLotIdsBelow(db: Database)
    requires SpotsWellFormed(db)
    ensures LotIdsBelow(db)
  {
  }

  /** Adding a lot gives it the next lot id and a run of spots labelled A01
      onwards whose first `available` are free, and leaves every other lot
      and its spots as they were. */
  lemma AddLotEffect(db: Database, name: string, location: string, total: nat, available: int, price: int)
    requires LotIdsBelow(db)
    ensures var d := AddLot(db, name, location, total, available, price);
            var id := db.nextLotId;
            && LotIdsBelow(d)
            && id !in db.lots
            && d.lots == db.lots[id := Lot(name, location, total, available, price)]
            && LotSpots(d.spots, id) == NewSpots(db.nextSpotId, id, 1, total, available)
            && (forall l :: l != id ==> LotSpots(d.spots, l) == LotSpots(db.spots, l))
            && d.bookings == db.bookings
  {
    var id := db.nextLotId;
    NoSpotsOfLot(db.spots, id);
    forall l ensures LotSpots(AddLot(db, name, location, total, available, price).spots, l)
                     == LotSpots(db.spots, l) + (if l == id then NewSpots(db.nextSpotId, id, 1, total, available) else [])
    {
      AppendRunLotSpots(db.spots, db.nextSpotId, id, 1, total, available, l);
    }
  }

  /** Adding a lot keeps the ids ordered and the labels distinct. */
  lemma AddLotKeepsShape(db: Database, name: string, location: string, total: nat, available: int, price: int)
    requires SpotsWellFormed(db) && NumbersDistinct(db.spots)
    ensures var d := AddLot(db, name, location, total, available, price);
            SpotsWellFormed(d) && NumbersDistinct(d.spots)
  {
    MaxLabelIndexIsMax(db.spots, db.nextLotId);
    AppendRunKeepsShape(db, AddLot(db, name, location, total, available, price), db.nextLotId, 1, total, available);
  }

  /** Adding a lot whose free spots number between none and all of them keeps every rule. */
  lemma AddLotPreservesInv(db: Database, name: string, location: string, total: nat, available: int, price: int)
    requires Inv(db) && 0 <= available <= total
    ensures Inv(AddLot(db, name, location, total, available, price))
  {
    var d := AddLot(db, name, location, total, available, price);
    var id := db.nextLotId;
    var run := NewSpots(db.nextSpotId, id, 1, total, available);
    NoSpotsOfLot(db.spots, id);
    forall l | l in d.lots
      ensures d.lots[l].availableSpots == FreeCount(d.spots, l)
      ensures d.lots[l].totalSpots == SpotCount(d.spots, l)
    {
      CountsAppend(db.spots, run, l);
      NewSpotsCounts(db.nextSpotId, id, 1, total, available, l);
    }
    AddLotKeepsShape(db, name, location, total, available, price);
    HeldAfterAppend(db, d, run);
  }

  /** Creating a lot succeeds exactly for a count that is not negative; the
      new lot then has that many spots, all free, labelled A01, A02, ... in
      id order, and its counter says so. */
  lemma CreateLotEffect(db: Database, name: string, location: string, count: int, price: int)
    requires Inv(db)
    ensures var r := CreateLot(db, name, location, count, price);
            && (r.outcome == Done <==> 0 <= count)
            && (r.outcome == Done ==>
                  var id := db.nextLotId;
                  var mine := LotSpots(r.db.spots, id);
                  && id !in db.lots
                  && r.db.lots == db.lots[id := Lot(name, location, count, count, price)]
                  && |mine| == count
                  && (forall k :: 0 <= k < count ==>
                        mine[k] == Spot(db.nextSpotId + k, Text.Label(k + 1), false, id))
                  && FreeCount(r.db.spots, id) == count
                  && (forall l :: l != id ==> LotSpots(r.db.spots, l) == LotSpots(db.spots, l))
                  && r.db.bookings == db.bookings)
  {
    if 0 <= count {
      AddLotEffect(db, name, location, count, count, price);
      NewSpotsCounts(db.nextSpotId, db.nextLotId, 1, count, count, db.nextLotId);
      RunIsItsLot(db.nextSpotId, db.nextLotId, 1, count, count);
    }
  }

  lemma CreateLotPreservesInv(db: Database, name: string, location: string, count: int, price: int)
    requires Inv(db)
    ensures Inv(CreateLot(db, name, location, count, price).db)
  {
    if 0 <= count {
      AddLotPreservesInv(db, name, location, count, count, price);
    }
  }

  function LotOf(x: SeedLot): Lot {
    Lot(x.name, x.location, x.total, x.available, x.price)
  }

  /** The labels of a run of spots and whether each is occupied, in order. */
  function Layout(mine: seq<Spot>): seq<(string, bool)> {
    seq(|mine|, j requires 0 <= j < |mine| => (mine[j].number, mine[j].occupied))
  }

  /** How a seed lot's spots are laid out: labelled A01 onwards, the first
      `available` free and the rest occupied. */
  function SeedLayout(x: SeedLot): seq<(string, bool)> {
    seq(x.total, j requires 0 <= j < x.total => (Text.Label(j + 1), j + 1 > x.available))
  }

  /** A seeded lot: its record is the seed's and its spots are laid out as the seed says. */
  predicate SeededAs(lot: Lot, mine: seq<Spot>, x: SeedLot) {
    lot == LotOf(x) && Layout(mine) == SeedLayout(x)
  }

  /** Seeding a run of lots keeps every rule. */
  lemma {:induction false} SeedAllKeepsInv(db: Database, ss: seq<SeedLot>)
    requires Inv(db) && forall k :: 0 <= k < |ss| ==> SeedOk(ss[k])
    ensures Inv(SeedAll(db, ss))
    decreases |ss|
  {
    if ss != [] {
      var x := ss[0];
      AddLotPreservesInv(db, x.name, x.location, x.total, x.available, x.price);
      SeedAllKeepsInv(AddLot(db, x.name, x.location, x.total, x.available, x.price), ss[1..]);
    }
  }

  /** Seeding a run of lots keeps the ids ordered and the labels distinct,
      and hands out consecutive lot ids. */
  lemma {:induction false} SeedAllKeepsShape(db: Database, ss: seq<SeedLot>)
    requires SpotsWellFormed(db) && NumbersDistinct(db.spots)
    ensures var r := SeedAll(db, ss);
            && SpotsWellFormed(r) && NumbersDistinct(r.spots)
            && r.nextLotId == db.nextLotId + |ss|
            && r.bookings == db.bookings
    decreases |ss|
  {
    if ss != [] {
      var x := ss[0];
      AddLotKeepsShape(db, x.name, x.location, x.total, x.available, x.price);
      SeedAllKeepsShape(AddLot(db, x.name, x.location, x.total, x.available, x.price), ss[1..]);
    }
  }

  /** Seeding a run of lots leaves a lot that was already there, and its
      spots, as they were. */
  lemma {:induction false} SeedAllKeepsLot(db: Database, ss: seq<SeedLot>, l: LotId)
    requires LotIdsBelow(db) && l in db.lots
    ensures var r := SeedAll(db, ss);
            l in r.lots && r.lots[l] == db.lots[l] && LotSpots(r.spots, l) == LotSpots(db.spots, l)
    decreases |ss|
  {
    if ss != [] {
      var x := ss[0];
      AddLotEffect(db, x.name, x.location, x.total, x.available, x.price);
      SeedAllKeepsLot(AddLot(db, x.name, x.location, x.total, x.available, x.price), ss[1..], l);
    }
  }

  /** Adding the lot of one seed gives it that seed's record and spots. */
  lemma AddLotSeeded(db: Database, x: SeedLot)
    requires LotIdsBelow(db)
    ensures var d := AddLot(db, x.name, x.location, x.total, x.available, x.price);
            db.nextLotId in d.lots && SeededAs(d.lots[db.nextLotId], LotSpots(d.spots, db.nextLotId), x)
  {
    AddLotEffect(db, x.name, x.location, x.total, x.available, x.price);
    RunLayout(db.nextSpotId, db.nextLotId, x);
  }

  /** A seed lot's run of new spots is laid out as the seed says. */
  lemma RunLayout(firstId: SpotId, lotId: LotId, x: SeedLot)
    ensures Layout(NewSpots(firstId, lotId, 1, x.total, x.available)) == SeedLayout(x)
  {
    var run := NewSpots(firstId, lotId, 1, x.total, x.available);
    forall j | 0 <= j < x.total
      ensures Layout(run)[j] == SeedLayout(x)[j]
    {
      assert run[j] == Spot(firstId + j, Text.Label(1 + j), 1 + j > x.available, lotId);
    }
  }

  /** Lot `id` of `r` exists and is seeded as `x` says. */
  predicate SeededAt(r: Database, id: LotId, x: SeedLot) {
    id in r.lots && SeededAs(r.lots[id], LotSpots(r.spots, id), x)
  }

  /** The lots `first`, `first + 1`, ... of `r` are seeded as the seeds `ss` say, in order. */
  ghost predicate SeededFrom(r: Database, first: LotId, ss: seq<SeedLot>) {
    forall k :: 0 <= k < |ss| ==> SeededAt(r, first + k, ss[k])
  }

  lemma AddLotKeepsLotIdsBelow(db: Database, x: SeedLot)
    requires LotIdsBelow(db)
    ensures LotIdsBelow(AddLot(db, x.name, x.location, x.total, x.available, x.price))
  {
  }

  /** Seeding a run of lots gives the k-th of them the id `nextLotId + k`, the
      seed's record, and its seeded spots. */
  lemma SeedAllLots(db: Database, ss: seq<SeedLot>)
    requires LotIdsBelow(db)
    ensures SeededFrom(SeedAll(db, ss), db.nextLotId, ss)
  {
    forall k | 0 <= k < |ss|
      ensures SeededAt(SeedAll(db, ss), db.nextLotId + k, ss[k])
    {
      SeedAllLot(db, ss, k);
    }
  }

  /** The k-th lot of a seeded run has id `nextLotId + k` and is seeded as the k-th seed says. */
  lemma {:induction false} SeedAllLot(db: Database, ss: seq<SeedLot>, k: nat)
    requires LotIdsBelow(db) && k < |ss|
    ensures SeededAt(SeedAll(db, ss), db.nextLotId + k, ss[k])
    decreases k
  {
    var x := ss[0];
    var d := AddLot(db, x.name, x.location, x.total, x.available, x.price);
    SeedAllCons(db, ss);
    if k == 0 {
      SeedAllLotsHead(db, ss);
    } else {
      AddLotKeepsLotIdsBelow(db, x);
      SeedAllLot(d, ss[1..], k - 1);
      assert ss[1..][k - 1] == ss[k];
    }
  }

  /** The first seed lot keeps its id, record and spots while the rest are seeded. */
  lemma SeedAllLotsHead(db: Database, ss: seq<SeedLot>)
    requires LotIdsBelow(db) && ss != []
    ensures var x := ss[0];
            var d := AddLot(db, x.name, x.location, x.total, x.available, x.price);
            var r := SeedAll(d, ss[1..]);
            && LotIdsBelow(d) && d.nextLotId == db.nextLotId + 1
            && SeededAt(r, db.nextLotId, ss[0])
  {
    var x := ss[0];
    var d := AddLot(db, x.name, x.location, x.total, x.available, x.price);
    AddLotSeeded(db, x);
    AddLotKeepsLotIdsBelow(db, x);
    SeedAllKeepsLot(d, ss[1..], db.nextLotId);
  }

  lemma SeedAllCons(db: Database, ss: seq<SeedLot>)
    requires ss != []
    ensures SeedAll(db, ss) == SeedAll(AddLot(db, ss[0].name, ss[0].location, ss[0].total, ss[0].available, ss[0].price), ss[1..])
  {
  }

  /** Seeding a run of valid seed lots into a store that keeps every rule:
      the rules still hold and the k-th seed lot has id `nextLotId + k`, its
      seed's record and its seed's layout. */
  lemma SeedAllEffect(db: Database, ss: seq<SeedLot>)
    requires Inv(db) && forall k :: 0 <= k < |ss| ==> SeedOk(ss[k])
    ensures Inv(SeedAll(db, ss)) && SeededFrom(SeedAll(db, ss), db.nextLotId, ss)
  {
    SeedAllKeepsInv(db, ss);
    WellFormedLotIdsBelow(db);
    SeedAllLots(db, ss);
  }

  /** Where the ledger holds, a seeded lot has as many free spots as its seed
      says: the counter and the spots agree. */
  lemma SeededFree(r: Database, first: LotId, ss: seq<SeedLot>, k: nat)
    requires LedgerOk(r) && SeededFrom(r, first, ss) && k < |ss|
    ensures first + k in r.lots && FreeCount(r.spots, first + k) == ss[k].available
  {
    assert SeededAt(r, first + k, ss[k]);
  }

  lemma SeedsOk()
    ensures forall k :: 0 <= k < |Seeds| ==> SeedOk(Seeds[k])
  {
  }

  /** The seeding fills a store without lots with the five seed lots, each
      with its seeded spots and a counter that agrees with them, and leaves a
      store that has a lot unchanged. */
  lemma SeedEffect(db: Database)
    requires Inv(db)
    ensures Inv(Seed(db))
    ensures db.lots != map[] ==> Seed(db) == db
    ensures db.lots == map[] ==> SeededFrom(Seed(db), db.nextLotId, Seeds)
  {
    if db.lots == map[] {
      SeedsOk();
      SeedAllEffect(db, Seeds);
    }
  }

  // ---------------------------------------------------------------------
  // Deleting a lot

  /** Deleting a lot succeeds exactly when it exists and none of its spots is
      occupied. The lot, its spots and the bookings made on it are then gone,
      every other booking stays (so no active booking is lost), and every
      other lot keeps its record and its spots. */
  lemma DeleteLotEffect(db: Database, l: LotId)
    requires Inv(db)
    ensures var r := DeleteLot(db, l);
      && (r.outcome == Done <==>
            l in db.lots && forall k :: 0 <= k < |db.spots| && db.spots[k].lotId == l ==> !db.spots[k].occupied)
      && (r.outcome == Done ==>
            && r.db.lots.Keys == db.lots.Keys - {l}
            && (forall l' :: l' in r.db.lots ==> r.db.lots[l'] == db.lots[l'] && LotSpots(r.db.spots, l') == LotSpots(db.spots, l'))
            && (forall k :: 0 <= k < |r.db.spots| ==> r.db.spots[k].lotId != l)
            && (forall k :: 0 <= k < |r.db.bookings| ==> r.db.bookings[k].lotId != l && r.db.bookings[k] in db.bookings)
            && (forall k :: 0 <= k < |db.bookings| && db.bookings[k].lotId != l ==> db.bookings[k] in r.db.bookings)
            && (forall k :: 0 <= k < |db.bookings| && db.bookings[k].status == Active ==> db.bookings[k] in r.db.bookings))
  {
    var r := DeleteLot(db, l);
    if r.outcome == Done {
      forall l' | l' in r.db.lots ensures LotSpots(r.db.spots, l') == LotSpots(db.spots, l') {
        OutsideLotKeepsOthers(db.spots, l, l');
      }
      forall k | 0 <= k < |db.bookings| && db.bookings[k].status == Active
        ensures db.bookings[k].lotId != l
      {
        var x :| x in db.spots && HeldBy(x, db.bookings[k]);
      }
    }
  }

  lemma DeleteLotPreservesInv(db: Database, l: LotId)
    requires Inv(db)
    ensures Inv(DeleteLot(db, l).db)
  {
    var r := DeleteLot(db, l);
    if r.outcome == Done {
      var d := r.db;
      forall l' | l' in d.lots
        ensures d.lots[l'].availableSpots == FreeCount(d.spots, l')
        ensures d.lots[l'].totalSpots == SpotCount(d.spots, l')
      {
        OutsideLotKeepsOthers(db.spots, l, l');
      }
      forall key ensures ActiveCount(d.bookings, key) <= 1 {
        ActiveCountOutsideLot(db.bookings, l, key);
      }
      DeleteKeepsHeld(db, l);
      OutsideLotIncreasing(db.spots, l);
    }
  }

  lemma DeleteKeepsHeld(db: Database, l: LotId)
    requires ActiveBookingsHeld(db)
    ensures ActiveBookingsHeld(db.(spots := OutsideLot(db.spots, l), bookings := BookingsOutsideLot(db.bookings, l)))
  {
    var s, bs := OutsideLot(db.spots, l), BookingsOutsideLot(db.bookings, l);
    forall k | 0 <= k < |bs| && bs[k].status == Active
      ensures exists x :: x in s && HeldBy(x, bs[k])
    {
      var x :| x in db.spots && HeldBy(x, bs[k]);
      var m :| 0 <= m < |db.spots| && db.spots[m] == x;
      assert x in s;
    }
  }

  // ---------------------------------------------------------------------
  // Resizing a lot

  /** Growing lot `l` by `add` raises its spot count and its free count by
      `add` and leaves every other lot's counts alone. */
  lemma GrowCounts(db: Database, l: LotId, lot: Lot, first: nat, add: nat, l': LotId)
    ensures var d := Grow(db, l, lot, first, add);
            && SpotCount(d.spots, l') == SpotCount(db.spots, l') + (if l' == l then add else 0)
            && FreeCount(d.spots, l') == FreeCount(db.spots, l') + (if l' == l then add else 0)
  {
    CountsAppend(db.spots, NewSpots(db.nextSpotId, l, first, add, first + add), l');
    NewSpotsCounts(db.nextSpotId, l, first, add, first + add, l');
  }

  /** Shrinking lot `l` by `remove` takes out its first `remove` free spots:
      its spot count and free count drop by `remove`, every other lot's
      counts stay, exactly the bookings made on the removed spots go, and so
      no active booking is deleted. */
  lemma ShrinkEffect(db: Database, l: LotId, lot: Lot, remove: nat)
    requires SpotsWellFormed(db) && ActiveBookingsHeld(db) && remove <= FreeCount(db.spots, l)
    ensures var d := Shrink(db, l, lot, remove);
            && d.spots == DropFree(db.spots, l, remove)
            && (forall l' :: SpotCount(d.spots, l') == SpotCount(db.spots, l') - (if l' == l then remove else 0))
            && (forall l' :: FreeCount(d.spots, l') == FreeCount(db.spots, l') - (if l' == l then remove else 0))
            && (forall k :: 0 <= k < |db.bookings| && db.bookings[k].status == Active ==> db.bookings[k] in d.bookings)
            && var gone := Ids(Unoccupied(LotSpots(db.spots, l))[..remove]);
               && (forall k :: 0 <= k < |d.bookings| ==> d.bookings[k] in db.bookings && d.bookings[k].spotId !in gone)
               && (forall k :: 0 <= k < |db.bookings| && db.bookings[k].spotId !in gone ==> db.bookings[k] in d.bookings)
  {
    RemoveFirstFree(db.spots, l, remove);
    forall l' ensures SpotCount(DropFree(db.spots, l, remove), l') == SpotCount(db.spots, l') - (if l' == l then remove else 0)
                  && FreeCount(DropFree(db.spots, l, remove), l') == FreeCount(db.spots, l') - (if l' == l then remove else 0)
    {
      DropFreeCounts(db.spots, l, remove, l');
    }
    ActiveSpotsNotGone(db, l, remove);
    BookingsNotOnKeeps(db.bookings, Ids(Unoccupied(LotSpots(db.spots, l))[..remove]));
  }

  /** Under the rules, resizing an existing lot succeeds exactly when the new
      total is at least its number of occupied spots, and is otherwise
      refused for want of free spots. */
  lemma ResizeAccepts(db: Database, l: LotId, name: string, location: string, newTotal: int, price: int)
    requires LedgerOk(db) && CapacityOk(db) && l in db.lots
    ensures var r := Resize(db, l, name, location, newTotal, price);
      && (r.outcome == Done <==> newTotal >= SpotCount(db.spots, l) - FreeCount(db.spots, l))
      && (r.outcome.Rejected? ==> r.outcome == Rejected(InsufficientFreeCapacity))
  {
    assert db.lots[l].totalSpots == SpotCount(db.spots, l);
  }

  /** A successful resize gives the lot the new name, location, price and
      total, and moves its counter of available spots by the change in
      total; every other lot keeps its record. */
  lemma ResizeRecord(db: Database, l: LotId, name: string, location: string, newTotal: int, price: int)
    requires CapacityOk(db) && l in db.lots
    ensures var r := Resize(db, l, name, location, newTotal, price);
      var before := db.lots[l];
      r.outcome == Done ==>
        r.db.lots == db.lots[l := Lot(name, location, newTotal, before.availableSpots + (newTotal - before.totalSpots), price)]
  {
    assert db.lots[l].totalSpots == SpotCount(db.spots, l);
  }

  /** After a successful resize lot `l` has as many spots as its new total
      and its free spots move by the change in total; every other lot keeps
      its spot count and its free count. */
  lemma ResizeCounts(db: Database, l: LotId, name: string, location: string, newTotal: int, price: int, l': LotId)
    requires SpotsWellFormed(db) && CapacityOk(db) && l in db.lots
    ensures var r := Resize(db, l, name, location, newTotal, price);
            var delta := if l' == l then newTotal - db.lots[l].totalSpots else 0;
            r.outcome == Done ==>
              && SpotCount(r.db.spots, l') == SpotCount(db.spots, l') + delta
              && FreeCount(r.db.spots, l') == FreeCount(db.spots, l') + delta
  {
    ResizeLotCounts(db, l, name, location, newTotal, price, l');
  }

  lemma ResizeLotCounts(db: Database, l: LotId, name: string, location: string, newTotal: int, price: int, l': LotId)
    requires IdsIncreasing(db.spots) && l in db.lots && db.lots[l].totalSpots == SpotCount(db.spots, l)
    ensures var r := Resize(db, l, name, location, newTotal, price);
            var delta := if l' == l then newTotal - db.lots[l].totalSpots else 0;
            r.outcome == Done ==>
              && SpotCount(r.db.spots, l') == SpotCount(db.spots, l') + delta
              && FreeCount(r.db.spots, l') == FreeCount(db.spots, l') + delta
  {
    var count := SpotCount(db.spots, l);
    var resized := db.lots[l].(name := name, location := location, pricePerHour := price, totalSpots := newTotal);
    if newTotal > count {
      ResizeGrowCounts(db, l, name, location, newTotal, price, l');
    } else if newTotal < count && count - newTotal <= FreeCount(db.spots, l) {
      ResizeShrinkCounts(db, l, name, location, newTotal, price, l');
    } else if newTotal == count {
      ResizeKeepsSpots(db, l, name, location, newTotal, price);
    } else {
      ResizeRefused(db, l, name, location, newTotal, price);
    }
  }

  lemma ResizeGrowCounts(db: Database, l: LotId, name: string, location: string, newTotal: int, price: int, l': LotId)
    requires l in db.lots && db.lots[l].totalSpots == SpotCount(db.spots, l) && newTotal > SpotCount(db.spots, l)
    ensures var r := Resize(db, l, name, location, newTotal, price);
            var delta := if l' == l then newTotal - db.lots[l].totalSpots else 0;
            && SpotCount(r.db.spots, l') == SpotCount(db.spots, l') + delta
            && FreeCount(r.db.spots, l') == FreeCount(db.spots, l') + delta
  {
    var count := SpotCount(db.spots, l);
    var resized := db.lots[l].(name := name, location := location, pricePerHour := price, totalSpots := newTotal);
    GrowCounts(db, l, resized, MaxLabelIndex(db.spots, l) + 1, newTotal - count, l');
    ResizeGrows(db, l, name, location, newTotal, price);
  }

  lemma ResizeShrinkCounts(db: Database, l: LotId, name: string, location: string, newTotal: int, price: int, l': LotId)
    requires IdsIncreasing(db.spots) && l in db.lots && db.lots[l].totalSpots == SpotCount(db.spots, l)
    requires newTotal < SpotCount(db.spots, l) && SpotCount(db.spots, l) - newTotal <= FreeCount(db.spots, l)
    ensures var r := Resize(db, l, name, location, newTotal, price);
            var delta := if l' == l then newTotal - db.lots[l].totalSpots else 0;
            && SpotCount(r.db.spots, l') == SpotCount(db.spots, l') + delta
            && FreeCount(r.db.spots, l') == FreeCount(db.spots, l') + delta
  {
    var count := SpotCount(db.spots, l);
    var resized := db.lots[l].(name := name, location := location, pricePerHour := price, totalSpots := newTotal);
    ShrinkCounts(db, l, resized, count - newTotal, l');
    ResizeShrinks(db, l, name, location, newTotal, price);
  }

  /** Shrinking lot `l` by `remove` lowers its spot count and its free count
      by `remove` and leaves every other lot's counts alone. */
  lemma ShrinkCounts(db: Database, l: LotId, lot: Lot, remove: nat, l': LotId)
    requires IdsIncreasing(db.spots) && remove <= FreeCount(db.spots, l)
    ensures var d := Shrink(db, l, lot, remove);
            && SpotCount(d.spots, l') == SpotCount(db.spots, l') - (if l' == l then remove else 0)
            && FreeCount(d.spots, l') == FreeCount(db.spots, l') - (if l' == l then remove else 0)
  {
    RemoveFirstFree(db.spots, l, remove);
    DropFreeCounts(db.spots, l, remove, l');
  }

  /** Growing lot `l` by `add` raises its spot count and its free count by
      `add`, gives it the record `lot` with `add` more available spots, and
      leaves every other lot's record and counts alone. */
  lemma GrowEffect(db: Database, l: LotId, lot: Lot, first: nat, add: nat)
    ensures var d := Grow(db, l, lot, first, add);
            && d.lots == db.lots[l := lot.(availableSpots := lot.availableSpots + add)]
            && (forall l' :: SpotCount(d.spots, l') == SpotCount(db.spots, l') + (if l' == l then add else 0))
            && (forall l' :: FreeCount(d.spots, l') == FreeCount(db.spots, l') + (if l' == l then add else 0))
  {
    forall l' ensures SpotCount(Grow(db, l, lot, first, add).spots, l') == SpotCount(db.spots, l') + (if l' == l then add else 0)
                  && FreeCount(Grow(db, l, lot, first, add).spots, l') == FreeCount(db.spots, l') + (if l' == l then add else 0)
    {
      GrowCounts(db, l, lot, first, add, l');
    }
  }

  /** Growing a lot past its highest label keeps the ids ordered and the labels distinct. */
  lemma GrowKeepsShape(db: Database, l: LotId, lot: Lot, first: nat, add: nat)
    requires SpotsWellFormed(db) && NumbersDistinct(db.spots) && l in db.lots && MaxLabelIndex(db.spots, l) < first
    ensures var d := Grow(db, l, lot, first, add);
            SpotsWellFormed(d) && NumbersDistinct(d.spots)
  {
    AppendRunKeepsShape(db, Grow(db, l, lot, first, add), l, first, add, first + add);
  }

  /** No active booking is on one of the first free spots of a lot. */
  lemma ActiveSpotsNotGone(db: Database, l: LotId, n: nat)
    requires SpotsWellFormed(db) && ActiveBookingsHeld(db) && n <= FreeCount(db.spots, l)
    ensures forall k :: 0 <= k < |db.bookings| && db.bookings[k].status == Active ==>
              db.bookings[k].spotId !in Ids(Unoccupied(LotSpots(db.spots, l))[..n])
  {
    var f := Unoccupied(LotSpots(db.spots, l))[..n];
    FreeSpotsAreSpots(db.spots, l);
    forall k, j | 0 <= k < |db.bookings| && db.bookings[k].status == Active && 0 <= j < |f|
      ensures f[j].id != db.bookings[k].spotId
    {
      var x :| x in db.spots && HeldBy(x, db.bookings[k]);
      var m :| 0 <= m < |db.spots| && db.spots[m] == x;
      assert f[j] in db.spots;
      var m' :| 0 <= m' < |db.spots| && db.spots[m'] == f[j];
      assert m != m';
    }
  }

  /** Growing a lot whose record moves its total and counter by `add` keeps every rule. */
  lemma GrowKeepsInv(db: Database, l: LotId, lot: Lot, first: nat, add: nat)
    requires Inv(db) && l in db.lots && MaxLabelIndex(db.spots, l) < first
    requires lot.totalSpots == db.lots[l].totalSpots + add && lot.availableSpots == db.lots[l].availableSpots
    ensures Inv(Grow(db, l, lot, first, add))
  {
    var d := Grow(db, l, lot, first, add);
    forall l' | l' in d.lots
      ensures d.lots[l'].availableSpots == FreeCount(d.spots, l')
      ensures d.lots[l'].totalSpots == SpotCount(d.spots, l')
    {
      GrowCounts(db, l, lot, first, add, l');
    }
    GrowKeepsShape(db, l, lot, first, add);
    HeldAfterAppend(db, d, NewSpots(db.nextSpotId, l, first, add, first + add));
  }

  /** Shrinking a lot whose record moves its total down by `remove` keeps every rule. */
  lemma ShrinkKeepsInv(db: Database, l: LotId, lot: Lot, remove: nat)
    requires Inv(db) && l in db.lots && remove <= FreeCount(db.spots, l)
    requires lot.totalSpots == db.lots[l].totalSpots - remove && lot.availableSpots == db.lots[l].availableSpots
    ensures Inv(Shrink(db, l, lot, remove))
  {
    ShrinkKeepsLedger(db, l, lot, remove);
    RemoveFirstFree(db.spots, l, remove);
    DropFreeKeepsShape(db.spots, l, remove);
    ShrinkKeepsBookingRules(db, l, lot, remove);
  }

  lemma ShrinkKeepsLedger(db: Database, l: LotId, lot: Lot, remove: nat)
    requires SpotsWellFormed(db) && ActiveBookingsHeld(db) && LedgerOk(db) && CapacityOk(db)
    requires l in db.lots && remove <= FreeCount(db.spots, l)
    requires lot.totalSpots == db.lots[l].totalSpots - remove && lot.availableSpots == db.lots[l].availableSpots
    ensures var d := Shrink(db, l, lot, remove);
            LedgerOk(d) && CapacityOk(d)
  {
    ShrinkEffect(db, l, lot, remove);
  }

  lemma ShrinkKeepsBookingRules(db: Database, l: LotId, lot: Lot, remove: nat)
    requires SpotsWellFormed(db) && ActiveBookingsHeld(db) && SingleActive(db.bookings) && BookingIdsIssued(db)
    requires remove <= FreeCount(db.spots, l)
    ensures var d := Shrink(db, l, lot, remove);
            ActiveBookingsHeld(d) && SingleActive(d.bookings) && BookingIdsIssued(d)
  {
    var d := Shrink(db, l, lot, remove);
    var gone := Ids(Unoccupied(LotSpots(db.spots, l))[..remove]);
    RemoveFirstFree(db.spots, l, remove);
    BookingsNotOnKeeps(db.bookings, gone);
    forall key ensures ActiveCount(d.bookings, key) <= 1 {
      ActiveCountNotOn(db.bookings, gone, key);
    }
    forall k | 0 <= k < |d.bookings| && d.bookings[k].status == Active
      ensures exists x :: x in d.spots && HeldBy(x, d.bookings[k])
    {
      var j :| 0 <= j < |db.bookings| && db.bookings[j] == d.bookings[k];
      var x :| x in db.spots && HeldBy(x, db.bookings[j]);
      var m :| 0 <= m < |db.spots| && db.spots[m] == x;
      assert x in d.spots;
    }
  }

  /** Taking out free spots keeps the ids ordered and the labels distinct. */
  lemma DropFreeKeepsShape(s: seq<Spot>, l: LotId, n: nat)
    requires IdsIncreasing(s) && NumbersDistinct(s)
    ensures IdsIncreasing(DropFree(s, l, n)) && NumbersDistinct(DropFree(s, l, n))
  {
    var r := DropFree(s, l, n);
    forall i, j | 0 <= i < |r| && 0 <= j < |r| && r[i].lotId == r[j].lotId && r[i].number == r[j].number
      ensures r[i].id == r[j].id
    {
      assert r[i] in s && r[j] in s;
    }
    DropFreeOrdered(s, l, n);
  }

  lemma {:induction false} DropFreeOrdered(s: seq<Spot>, l: LotId, n: nat)
    requires IdsIncreasing(s)
    ensures IdsIncreasing(DropFree(s, l, n))
    decreases |s|
  {
    if s != [] {
      var rest := if s[0].lotId == l && !s[0].occupied && n > 0 then n - 1 else n;
      DropFreeOrdered(s[1..], l, rest);
      var t := DropFree(s[1..], l, rest);
      forall k | 0 <= k < |t| ensures s[0].id < t[k].id {
        assert t[k] in s[1..];
      }
    }
  }

  lemma ResizePreservesInv(db: Database, l: LotId, name: string, location: string, newTotal: int, price: int)
    requires Inv(db)
    ensures Inv(Resize(db, l, name, location, newTotal, price).db)
  {
    if l in db.lots {
      var count := SpotCount(db.spots, l);
      var lot := db.lots[l].(name := name, location := location, pricePerHour := price);
      if newTotal < count {
        ShrinkingKeepsInv(db, l, name, location, newTotal, price);
      } else if newTotal > count {
        GrowingKeepsInv(db, l, name, location, newTotal, price);
      } else {
        ResizeKeepsSpots(db, l, name, location, newTotal, price);
        RecordKeepsInv(db, l, lot);
      }
    }
  }

  lemma GrowingKeepsInv(db: Database, l: LotId, name: string, location: string, newTotal: int, price: int)
    requires Inv(db) && l in db.lots && newTotal > SpotCount(db.spots, l)
    ensures Inv(Resize(db, l, name, location, newTotal, price).db)
  {
    var count := SpotCount(db.spots, l);
    assert CapacityOk(db);
    assert db.lots[l].totalSpots == count;
    var lot := db.lots[l].(name := name, location := location, pricePerHour := price, totalSpots := newTotal);
    GrowKeepsInv(db, l, lot, MaxLabelIndex(db.spots, l) + 1, newTotal - count);
    ResizeGrowsInv(db, l, name, location, newTotal, price);
  }

  lemma ShrinkingKeepsInv(db: Database, l: LotId, name: string, location: string, newTotal: int, price: int)
    requires Inv(db) && l in db.lots && newTotal < SpotCount(db.spots, l)
    ensures Inv(Resize(db, l, name, location, newTotal, price).db)
  {
    var count := SpotCount(db.spots, l);
    assert CapacityOk(db);
    assert db.lots[l].totalSpots == count;
    if count - newTotal <= FreeCount(db.spots, l) {
      var lot := db.lots[l].(name := name, location := location, pricePerHour := price, totalSpots := newTotal);
      ShrinkKeepsInv(db, l, lot, count - newTotal);
      ResizeShrinksInv(db, l, name, location, newTotal, price);
    } else {
      ResizeRefusedInv(db, l, name, location, newTotal, price);
    }
  }

  /** A resize that grows the lot leaves the store `Grow` builds, so it keeps
      the rules when that store does. */
  lemma ResizeGrowsInv(db: Database, l: LotId, name: string, location: string, newTotal: int, price: int)
    requires l in db.lots && newTotal != db.lots[l].totalSpots && newTotal > SpotCount(db.spots, l)
    requires Inv(Grow(db, l, db.lots[l].(name := name, location := location, pricePerHour := price, totalSpots := newTotal),
                      MaxLabelIndex(db.spots, l) + 1, newTotal - SpotCount(db.spots, l)))
    ensures Inv(Resize(db, l, name, location, newTotal, price).db)
  {
    ResizeGrows(db, l, name, location, newTotal, price);
    InvOfEqual(Grow(db, l, db.lots[l].(name := name, location := location, pricePerHour := price, totalSpots := newTotal),
                    MaxLabelIndex(db.spots, l) + 1, newTotal - SpotCount(db.spots, l)),
               Resize(db, l, name, location, newTotal, price).db);
  }

  /** Likewise for a resize that shrinks the lot and `Shrink`. */
  lemma ResizeShrinksInv(db: Database, l: LotId, name: string, location: string, newTotal: int, price: int)
    requires l in db.lots && newTotal != db.lots[l].totalSpots && newTotal < SpotCount(db.spots, l)
    requires SpotCount(db.spots, l) - newTotal <= FreeCount(db.spots, l)
    requires Inv(Shrink(db, l, db.lots[l].(name := name, location := location, pricePerHour := price, totalSpots := newTotal),
                        SpotCount(db.spots, l) - newTotal))
    ensures Inv(Resize(db, l, name, location, newTotal, price).db)
  {
    ResizeShrinks(db, l, name, location, newTotal, price);
    InvOfEqual(Shrink(db, l, db.lots[l].(name := name, location := location, pricePerHour := price, totalSpots := newTotal),
                      SpotCount(db.spots, l) - newTotal),
               Resize(db, l, name, location, newTotal, price).db);
  }

  /** A refused resize leaves the store as it was. */
  lemma ResizeRefusedInv(db: Database, l: LotId, name: string, location: string, newTotal: int, price: int)
    requires Inv(db) && l in db.lots && db.lots[l].totalSpots == SpotCount(db.spots, l) && newTotal < SpotCount(db.spots, l)
    requires SpotCount(db.spots, l) - newTotal > FreeCount(db.spots, l)
    ensures Inv(Resize(db, l, name, location, newTotal, price).db)
  {
  }

  /** The store a resize of an existing lot leaves when the lot grows. */
  lemma ResizeGrows(db: Database, l: LotId, name: string, location: string, newTotal: int, price: int)
    requires l in db.lots && newTotal != db.lots[l].totalSpots && newTotal > SpotCount(db.spots, l)
    ensures Resize(db, l, name, location, newTotal, price)
            == Step(Grow(db, l, db.lots[l].(name := name, location := location, pricePerHour := price, totalSpots := newTotal),
                         MaxLabelIndex(db.spots, l) + 1, newTotal - SpotCount(db.spots, l)), Done)
  {
  }

  /** The store a resize of an existing lot leaves when the lot shrinks. */
  lemma ResizeShrinks(db: Database, l: LotId, name: string, location: string, newTotal: int, price: int)
    requires l in db.lots && newTotal != db.lots[l].totalSpots && newTotal < SpotCount(db.spots, l)
    requires SpotCount(db.spots, l) - newTotal <= FreeCount(db.spots, l)
    ensures Resize(db, l, name, location, newTotal, price)
            == Step(Shrink(db, l, db.lots[l].(name := name, location := location, pricePerHour := price, totalSpots := newTotal),
                           SpotCount(db.spots, l) - newTotal), Done)
  {
  }

  /** The store a resize of an existing lot leaves when its number of spots stays. */
  lemma ResizeKeepsSpots(db: Database, l: LotId, name: string, location: string, newTotal: int, price: int)
    requires l in db.lots && db.lots[l].totalSpots == SpotCount(db.spots, l) && newTotal == SpotCount(db.spots, l)
    ensures Resize(db, l, name, location, newTotal, price)
            == Step(db.(lots := db.lots[l := db.lots[l].(name := name, location := location, pricePerHour := price)]), Done)
  {
  }

  /** A resize that leaves the recorded total as it is only changes the record. */
  lemma ResizeSameTotal(db: Database, l: LotId, name: string, location: string, price: int)
    requires l in db.lots
    ensures Resize(db, l, name, location, db.lots[l].totalSpots, price)
            == Step(db.(lots := db.lots[l := db.lots[l].(name := name, location := location, pricePerHour := price)]), Done)
  {
  }

  /** A resize to a new total that already matches the lot's spots only changes the record. */
  lemma ResizeRecordOnly(db: Database, l: LotId, name: string, location: string, newTotal: int, price: int)
    requires l in db.lots && newTotal != db.lots[l].totalSpots && newTotal == SpotCount(db.spots, l)
    ensures Resize(db, l, name, location, newTotal, price)
            == Step(db.(lots := db.lots[l := db.lots[l].(name := name, location := location, pricePerHour := price, totalSpots := newTotal)]), Done)
  {
  }

  /** A resize below the lot's occupied spots is refused. */
  lemma ResizeRefused(db: Database, l: LotId, name: string, location: string, newTotal: int, price: int)
    requires l in db.lots && newTotal != db.lots[l].totalSpots && newTotal < SpotCount(db.spots, l)
    requires SpotCount(db.spots, l) - newTotal > FreeCount(db.spots, l)
    ensures Resize(db, l, name, location, newTotal, price) == Step(db, Rejected(InsufficientFreeCapacity))
  {
  }

  /** Changing a lot's name, location or price keeps every rule. */
  lemma RecordKeepsInv(db: Database, l: LotId, lot: Lot)
    requires Inv(db) && l in db.lots
    requires lot.totalSpots == db.lots[l].totalSpots && lot.availableSpots == db.lots[l].availableSpots
    ensures Inv(db.(lots := db.lots[l := lot]))
  {
    var d := db.(lots := db.lots[l := lot]);
    assert d.lots.Keys == db.lots.Keys;
    forall l' | l' in d.lots
      ensures d.lots[l'].availableSpots == FreeCount(d.spots, l') && d.lots[l'].totalSpots == SpotCount(d.spots, l')
    {
    }
  }




  // ---------------------------------------------------------------------
  // Renaming a spot

  /** Renaming succeeds exactly when the spot exists and no other spot of its
      lot carries the stripped name; the spot then carries that name, no
      other spot of the lot does, and nothing else changes. */
  lemma RenameEffect(db: Database, spotId: SpotId, raw: string)
    requires Inv(db)
    ensures var r := RenameSpot(db, spotId, raw);
      && (r.outcome == Done <==>
            exists x :: x in db.spots && x.id == spotId && !NameTaken(db.spots, x.lotId, Text.Strip(raw), spotId))
      && (r.outcome == Done ==>
            var i := SpotIndex(db.spots, spotId).value;
            && r.db.lots == db.lots && r.db.bookings == db.bookings
            && |r.db.spots| == |db.spots|
            && r.db.spots[i] == db.spots[i].(number := Text.Strip(raw))
            && (forall k :: 0 <= k < |db.spots| && k != i ==> r.db.spots[k] == db.spots[k])
            && (forall k :: 0 <= k < |db.spots| && k != i && r.db.spots[k].lotId == r.db.spots[i].lotId
                  ==> r.db.spots[k].number != Text.Strip(raw)))
  {
    match SpotIndex(db.spots, spotId)
    case None =>
    case Some(i) =>
      forall x | x in db.spots && x.id == spotId ensures x == db.spots[i] {
        var m :| 0 <= m < |db.spots| && db.spots[m] == x;
        SameIdSamePosition(db.spots, m, i);
      }
      forall k | 0 <= k < |db.spots| && k != i ensures db.spots[k].id != spotId {
      }
  }

  lemma RenamePreservesInv(db: Database, spotId: SpotId, raw: string)
    requires Inv(db)
    ensures Inv(RenameSpot(db, spotId, raw).db)
  {
    var r := RenameSpot(db, spotId, raw);
    if r.outcome == Done {
      var i := SpotIndex(db.spots, spotId).value;
      var name := Text.Strip(raw);
      RelabelKeepsInv(db, i, name);
      InvOfEqual(db.(spots := db.spots[i := db.spots[i].(number := name)]), r.db);
    }
  }

  /** A rename of an existing spot either leaves the store as it was or
      relabels that spot with the stripped name. */
  lemma RenameRelabels(db: Database, spotId: SpotId, raw: string)
    requires SpotIndex(db.spots, spotId).Some?
    ensures var i := SpotIndex(db.spots, spotId).value;
            var r := RenameSpot(db, spotId, raw);
            r.db == db || r.db == db.(spots := db.spots[i := db.spots[i].(number := Text.Strip(raw))])
  {
  }

  /** Giving spot `i` a label no other spot of its lot carries keeps every rule. */
  lemma RelabelKeepsInv(db: Database, i: nat, name: string)
    requires Inv(db) && i < |db.spots|
    requires !NameTaken(db.spots, db.spots[i].lotId, name, db.spots[i].id)
    ensures Inv(db.(spots := db.spots[i := db.spots[i].(number := name)]))
  {
    var x := db.spots[i].(number := name);
    RelabelKeepsCounts(db, i, name);
    RelabelKeepsShape(db, i, name);
    RenameKeepsLabels(db.spots, i, name);
    RenameKeepsHeld(db.spots, i, x, db.bookings);
  }

  /** Relabelling a spot keeps the capacity ledger and the lots' totals. */
  lemma RelabelKeepsCounts(db: Database, i: nat, name: string)
    requires LedgerOk(db) && CapacityOk(db) && i < |db.spots|
    ensures var d := db.(spots := db.spots[i := db.spots[i].(number := name)]);
            LedgerOk(d) && CapacityOk(d)
  {
    var x := db.spots[i].(number := name);
    var d := db.(spots := db.spots[i := x]);
    forall l | l in db.lots
      ensures d.lots[l].availableSpots == FreeCount(d.spots, l)
      ensures d.lots[l].totalSpots == SpotCount(d.spots, l)
    {
      CountsAfterUpdate(db.spots, i, x, l);
    }
  }

  /** Relabelling a spot keeps its id and lot, so the ids stay well formed. */
  lemma RelabelKeepsShape(db: Database, i: nat, name: string)
    requires SpotsWellFormed(db) && i < |db.spots|
    ensures SpotsWellFormed(db.(spots := db.spots[i := db.spots[i].(number := name)]))
  {
    var d := db.(spots := db.spots[i := db.spots[i].(number := name)]);
    forall k | 0 <= k < |d.spots|
      ensures d.spots[k].lotId in d.lots && d.spots[k].id < d.nextSpotId
    {
      assert d.spots[k].lotId == db.spots[k].lotId && d.spots[k].id == db.spots[k].id;
    }
    forall a, b | 0 <= a < b < |d.spots|
      ensures d.spots[a].id < d.spots[b].id
    {
      assert d.spots[a].id == db.spots[a].id && d.spots[b].id == db.spots[b].id;
    }
  }

  /** Giving a spot a name no other spot of its lot carries keeps the labels distinct. */
  lemma RenameKeepsLabels(s: seq<Spot>, i: nat, name: string)
    requires IdsIncreasing(s) && NumbersDistinct(s) && i < |s|
    requires !NameTaken(s, s[i].lotId, name, s[i].id)
    ensures IdsIncreasing(s[i := s[i].(number := name)]) && NumbersDistinct(s[i := s[i].(number := name)])
  {
  }

  /** Replacing a spot by one with the same id, lot and occupancy keeps every active booking held. */
  lemma RenameKeepsHeld(s: seq<Spot>, i: nat, x: Spot, bs: seq<Booking>)
    requires i < |s| && x.id == s[i].id && x.lotId == s[i].lotId && x.occupied == s[i].occupied
    requires forall k :: 0 <= k < |bs| && bs[k].status == Active ==> exists y :: y in s && HeldBy(y, bs[k])
    ensures forall k :: 0 <= k < |bs| && bs[k].status == Active ==> exists y :: y in s[i := x] && HeldBy(y, bs[k])
  {
    forall k | 0 <= k < |bs| && bs[k].status == Active
      ensures exists y :: y in s[i := x] && HeldBy(y, bs[k])
    {
      var y :| y in s && HeldBy(y, bs[k]);
      var m :| 0 <= m < |s| && s[m] == y;
      if m == i {
        assert HeldBy(s[i := x][i], bs[k]);
      } else {
        assert s[i := x][m] == y;
      }
    }
  }
}
