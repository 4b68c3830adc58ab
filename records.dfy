/** The four tables of the parking application (app.py:21-56) as values, the
    lookups the handlers make on them, and the counts the capacity ledger is
    about. */
module Records {
  import opened Wrappers

  type UserId = nat
  type LotId = nat
  type SpotId = nat
  type BookingId = nat

  /** The values the `status` column of a booking takes. */
  datatype Status = Active | Completed | Cancelled

  /** A parking lot. Prices are whole currency units (the source stores floats). */
  datatype Lot = Lot(name: string, location: string, totalSpots: int,
                     availableSpots: int, pricePerHour: int)

  /** A parking spot: its primary key, its label `number` (`spot_number`), whether it is
      occupied, and the lot it belongs to. */
  datatype Spot = Spot(id: SpotId, number: string, occupied: bool, lotId: LotId)

  /** A booking. Times are whole seconds; `releaseTime` is None until the
      booking is completed or cancelled. */
  datatype Booking = Booking(id: BookingId, vehicle: string, bookingTime: int,
                             releaseTime: Option<int>, status: Status,
                             totalCost: int, userId: UserId, spotId: SpotId,
                             lotId: LotId)

  /** The whole store: lots by id, spots and bookings in the order of their ids,
      and the next id each table hands out. */
  datatype Database = Database(lots: map<LotId, Lot>, spots: seq<Spot>,
                               bookings: seq<Booking>, nextLotId: LotId,
                               nextSpotId: SpotId, nextBookingId: BookingId)

  const Empty: Database := Database(map[], [], [], 1, 1, 1)

  /** Why an operation was turned down. */
  datatype Error =
    | NotFound
    | DuplicateActiveBooking
    | SpotUnavailable
    | NoActiveBooking
    | SpotNotOccupied
    | InsufficientFreeCapacity
    | DuplicateSpotName
    | LotHasOccupiedSpots
    | InvalidSpotCount
    | StorageFault

  datatype Outcome = Done | Rejected(reason: Error)

  /** The store after an operation, and how the operation ended. */
  datatype Step = Step(db: Database, outcome: Outcome)

  // ---------------------------------------------------------------------
  // Lookups

  /** `ParkingSpot.query.get(id)`: the position of the spot with that id. */
  function SpotIndex(s: seq<Spot>, id: SpotId): (r: Option<nat>)
    ensures r.Some? ==> r.value < |s| && s[r.value].id == id
    ensures r.None? ==> forall k :: 0 <= k < |s| ==> s[k].id != id
  {
    if s == [] then None
    else if s[0].id == id then Some(0)
    else match SpotIndex(s[1..], id)
         case None => None
         case Some(k) => Some(k + 1)
  }

  /** The key of a `Booking.query.filter_by(..., status='active')` query. */
  datatype Key = OfUser(user: UserId) | OnSpot(spot: SpotId)

  predicate ActiveFor(b: Booking, key: Key) {
    && b.status == Active
    && match key
       case OfUser(u) => b.userId == u
       case OnSpot(id) => b.spotId == id
  }

  /** `.first()` of the active bookings for a user or on a spot. */
  function FirstActive(bs: seq<Booking>, key: Key): (r: Option<nat>)
    ensures r.Some? ==> r.value < |bs| && ActiveFor(bs[r.value], key)
    ensures r.None? ==> forall k :: 0 <= k < |bs| ==> !ActiveFor(bs[k], key)
  {
    if bs == [] then None
    else if ActiveFor(bs[0], key) then Some(0)
    else match FirstActive(bs[1..], key)
         case None => None
         case Some(k) => Some(k + 1)
  }

  /** How many active bookings a user holds, or a spot carries. */
  function ActiveCount(bs: seq<Booking>, key: Key): nat {
    if bs == [] then 0
    else (if ActiveFor(bs[0], key) then 1 else 0) + ActiveCount(bs[1..], key)
  }

  // ---------------------------------------------------------------------
  // Spot filters and the counts of the capacity ledger

  /** The spots of one lot, in listing order (`ParkingSpot.query.filter_by(parking_lot_id=l)`). */
  function LotSpots(s: seq<Spot>, l: LotId): (r: seq<Spot>)
    ensures |r| <= |s|
  {
    if s == [] then []
    else (if s[0].lotId == l then [s[0]] else []) + LotSpots(s[1..], l)
  }

  /** The unoccupied spots among `s`, in order. */
  function Unoccupied(s: seq<Spot>): (r: seq<Spot>)
    ensures |r| <= |s|
  {
    if s == [] then []
    else (if !s[0].occupied then [s[0]] else []) + Unoccupied(s[1..])
  }

  /** The number of spots of lot `l`. */
  function SpotCount(s: seq<Spot>, l: LotId): nat {
    |LotSpots(s, l)|
  }

  /** The number of unoccupied spots of lot `l`: what `available_spots` should say. */
  function FreeCount(s: seq<Spot>, l: LotId): nat {
    |Unoccupied(LotSpots(s, l))|
  }

  function Ids(s: seq<Spot>): (r: set<SpotId>)
  {
    set k | 0 <= k < |s| :: s[k].id
  }

  predicate IdsIncreasing(s: seq<Spot>) {
    forall i, j :: 0 <= i < j < |s| ==> s[i].id < s[j].id
  }

  /** The spots outside lot `l` (what deleting lot `l` leaves). */
  function OutsideLot(s: seq<Spot>, l: LotId): (r: seq<Spot>)
    ensures forall k :: 0 <= k < |r| ==> r[k] in s && r[k].lotId != l
    ensures forall k :: 0 <= k < |s| && s[k].lotId != l ==> s[k] in r
  {
    if s == [] then []
    else (if s[0].lotId != l then [s[0]] else []) + OutsideLot(s[1..], l)
  }

  /** Dropping a lot's spots keeps the rest in increasing id order. */
  lemma {:induction false} OutsideLotIncreasing(s: seq<Spot>, l: LotId)
    requires IdsIncreasing(s)
    ensures IdsIncreasing(OutsideLot(s, l))
    decreases |s|
  {
    if s != [] {
      var rest := OutsideLot(s[1..], l);
      OutsideLotIncreasing(s[1..], l);
      if s[0].lotId != l {
        forall k | 0 <= k < |rest|
          ensures s[0].id < rest[k].id
        {
          assert rest[k] in s[1..];
          var m :| 0 <= m < |s[1..]| && s[1..][m] == rest[k];
          assert s[1..][m] == s[m + 1];
        }
        ConsIncreasing(s[0], rest);
      } else {
        assert OutsideLot(s, l) == rest;
      }
    }
  }

  /** A spot put in front of spots with larger ids keeps them in increasing order. */
  lemma ConsIncreasing(x: Spot, rest: seq<Spot>)
    requires IdsIncreasing(rest) && forall k :: 0 <= k < |rest| ==> x.id < rest[k].id
    ensures IdsIncreasing([x] + rest)
  {
    var t := [x] + rest;
    forall i, j | 0 <= i < j < |t| ensures t[i].id < t[j].id {
      assert t[j] == rest[j - 1];
      if i > 0 {
        assert t[i] == rest[i - 1];
      }
    }
  }

  /** The spots whose id is not in `gone` (what removing those spots leaves). */
  function WithoutIds(s: seq<Spot>, gone: set<SpotId>): seq<Spot> {
    if s == [] then []
    else (if s[0].id !in gone then [s[0]] else []) + WithoutIds(s[1..], gone)
  }

  /** The bookings not made against lot `l`. */
  function BookingsOutsideLot(bs: seq<Booking>, l: LotId): (r: seq<Booking>)
    ensures forall k :: 0 <= k < |r| ==> r[k] in bs && r[k].lotId != l
    ensures forall k :: 0 <= k < |bs| && bs[k].lotId != l ==> bs[k] in r
  {
    if bs == [] then []
    else (if bs[0].lotId != l then [bs[0]] else []) + BookingsOutsideLot(bs[1..], l)
  }

  /** The bookings whose spot is not in `gone`. */
  function BookingsNotOn(bs: seq<Booking>, gone: set<SpotId>): seq<Booking> {
    if bs == [] then []
    else (if bs[0].spotId !in gone then [bs[0]] else []) + BookingsNotOn(bs[1..], gone)
  }

  /** Removing the bookings made on the spots `gone` keeps exactly the others. */
  lemma {:induction false} BookingsNotOnKeeps(bs: seq<Booking>, gone: set<SpotId>)
    ensures var r := BookingsNotOn(bs, gone);
            && (forall k :: 0 <= k < |r| ==> r[k] in bs && r[k].spotId !in gone)
            && (forall k :: 0 <= k < |bs| && bs[k].spotId !in gone ==> bs[k] in r)
    decreases |bs|
  {
    if bs != [] {
      BookingsNotOnKeeps(bs[1..], gone);
      var r := BookingsNotOn(bs, gone);
      var rest := BookingsNotOn(bs[1..], gone);
      var head := if bs[0].spotId !in gone then [bs[0]] else [];
      assert r == head + rest;
      forall k | 0 <= k < |r| ensures r[k] in bs && r[k].spotId !in gone {
        if k >= |head| {
          assert r[k] == rest[k - |head|];
        }
      }
      forall k | 0 <= k < |bs| && bs[k].spotId !in gone ensures bs[k] in r {
        if k > 0 {
          assert bs[k] == bs[1..][k - 1];
        }
      }
    }
  }

  // ---------------------------------------------------------------------
  // Lemmas about the counts

  /** A run of spots that all belong to lot `l` is the whole of that lot's spots in it. */
  lemma {:induction false} AllOfLot(s: seq<Spot>, l: LotId)
    requires forall k :: 0 <= k < |s| ==> s[k].lotId == l
    ensures LotSpots(s, l) == s
    decreases |s|
  {
    if s != [] {
      AllOfLot(s[1..], l);
    }
  }

  lemma {:induction false} LotSpotsAppend(a: seq<Spot>, b: seq<Spot>, l: LotId)
    ensures LotSpots(a + b, l) == LotSpots(a, l) + LotSpots(b, l)
    decreases |a|
  {
    if a != [] {
      assert (a + b)[1..] == a[1..] + b;
      LotSpotsAppend(a[1..], b, l);
    } else {
      assert a + b == b;
    }
  }

  lemma {:induction false} UnoccupiedAppend(a: seq<Spot>, b: seq<Spot>)
    ensures Unoccupied(a + b) == Unoccupied(a) + Unoccupied(b)
    decreases |a|
  {
    if a != [] {
      assert (a + b)[1..] == a[1..] + b;
      UnoccupiedAppend(a[1..], b);
    } else {
      assert a + b == b;
    }
  }

  /** The counts of a run of spots followed by another are the sums of their counts. */
  lemma CountsAppend(a: seq<Spot>, b: seq<Spot>, l: LotId)
    ensures SpotCount(a + b, l) == SpotCount(a, l) + SpotCount(b, l)
    ensures FreeCount(a + b, l) == FreeCount(a, l) + FreeCount(b, l)
  {
    LotSpotsAppend(a, b, l);
    UnoccupiedAppend(LotSpots(a, l), LotSpots(b, l));
  }

  /** Replacing one spot by a spot of the same lot keeps every lot's spot count and
      changes the free count of that lot only, by the change in the spot's occupancy. */
  lemma CountsAfterUpdate(s: seq<Spot>, i: nat, x: Spot, l: LotId)
    requires i < |s| && x.lotId == s[i].lotId
    ensures SpotCount(s[i := x], l) == SpotCount(s, l)
    ensures FreeCount(s[i := x], l)
            == FreeCount(s, l)
               + (if l == x.lotId && !x.occupied then 1 else 0)
               - (if l == x.lotId && !s[i].occupied then 1 else 0)
  {
    var pre, post := s[..i], s[i + 1..];
    assert s == pre + [s[i]] + post;
    assert s[i := x] == pre + [x] + post;
    CountsAppend(pre + [s[i]], post, l);
    CountsAppend(pre, [s[i]], l);
    CountsAppend(pre + [x], post, l);
    CountsAppend(pre, [x], l);
  }

  /** Deleting the spots of lot `l` leaves the spots of every other lot as they were. */
  lemma {:induction false} OutsideLotKeepsOthers(s: seq<Spot>, l: LotId, l': LotId)
    requires l' != l
    ensures LotSpots(OutsideLot(s, l), l') == LotSpots(s, l')
    decreases |s|
  {
    if s != [] {
      OutsideLotKeepsOthers(s[1..], l, l');
      var head := if s[0].lotId != l then [s[0]] else [];
      LotSpotsAppend(head, OutsideLot(s[1..], l), l');
    }
  }

  lemma {:induction false} ActiveCountAppend(a: seq<Booking>, b: seq<Booking>, key: Key)
    ensures ActiveCount(a + b, key) == ActiveCount(a, key) + ActiveCount(b, key)
    decreases |a|
  {
    if a != [] {
      assert (a + b)[1..] == a[1..] + b;
      ActiveCountAppend(a[1..], b, key);
    } else {
      assert a + b == b;
    }
  }

  /** Replacing one booking changes each count by what the old and the new booking contribute. */
  lemma ActiveCountAfterUpdate(bs: seq<Booking>, j: nat, v: Booking, key: Key)
    requires j < |bs|
    ensures ActiveCount(bs[j := v], key)
            == ActiveCount(bs, key) + (if ActiveFor(v, key) then 1 else 0)
               - (if ActiveFor(bs[j], key) then 1 else 0)
  {
    var pre, post := bs[..j], bs[j + 1..];
    assert bs == pre + [bs[j]] + post;
    assert bs[j := v] == pre + [v] + post;
    ActiveCountAppend(pre + [bs[j]], post, key);
    ActiveCountAppend(pre, [bs[j]], key);
    ActiveCountAppend(pre + [v], post, key);
    ActiveCountAppend(pre, [v], key);
  }

  /** A booking that is active for a key is counted. */
  lemma {:induction false} ActiveCountPositive(bs: seq<Booking>, j: nat, key: Key)
    requires j < |bs| && ActiveFor(bs[j], key)
    ensures 1 <= ActiveCount(bs, key)
    decreases |bs|
  {
    if j > 0 {
      ActiveCountPositive(bs[1..], j - 1, key);
    }
  }

  /** Where the count is at most one, two bookings active for the key are the same booking. */
  lemma {:induction false} AtMostOneActive(bs: seq<Booking>, key: Key, i: nat, j: nat)
    requires ActiveCount(bs, key) <= 1
    requires i < |bs| && j < |bs| && ActiveFor(bs[i], key) && ActiveFor(bs[j], key)
    ensures i == j
    decreases |bs|
  {
    if i == 0 && j != 0 {
      ActiveCountPositive(bs[1..], j - 1, key);
    } else if j == 0 && i != 0 {
      ActiveCountPositive(bs[1..], i - 1, key);
    } else if i != 0 && j != 0 {
      AtMostOneActive(bs[1..], key, i - 1, j - 1);
    }
  }

  /** Dropping bookings never raises a count. */
  lemma {:induction false} ActiveCountOutsideLot(bs: seq<Booking>, l: LotId, key: Key)
    ensures ActiveCount(BookingsOutsideLot(bs, l), key) <= ActiveCount(bs, key)
    decreases |bs|
  {
    if bs != [] {
      ActiveCountOutsideLot(bs[1..], l, key);
      var head := if bs[0].lotId != l then [bs[0]] else [];
      ActiveCountAppend(head, BookingsOutsideLot(bs[1..], l), key);
    }
  }

  lemma {:induction false} ActiveCountNotOn(bs: seq<Booking>, gone: set<SpotId>, key: Key)
    ensures ActiveCount(BookingsNotOn(bs, gone), key) <= ActiveCount(bs, key)
    decreases |bs|
  {
    if bs != [] {
      ActiveCountNotOn(bs[1..], gone, key);
      var head := if bs[0].spotId !in gone then [bs[0]] else [];
      ActiveCountAppend(head, BookingsNotOn(bs[1..], gone), key);
    }
  }
}
