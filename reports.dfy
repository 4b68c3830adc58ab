/** The figures the dashboards show: a user's booking statistics and the
    administrator's report, whose revenue adds up the completed bookings
    among the latest fifty. */
module Reports {
  import opened Wrappers
  import opened Records
  import opened Invariants
  import opened Lifecycle
  import opened Placement
  import Billing

  /** How many bookings the report lists (`.limit(50)`). */
  const ReportSize: nat := 50

  /** The bookings with the given status (`filter_by(status=...)`). */
  function WithStatus(bs: seq<Booking>, st: Status): (r: seq<Booking>)
    ensures |r| <= |bs|
    ensures forall k :: 0 <= k < |r| ==> r[k].status == st && r[k] in bs
    ensures forall k :: 0 <= k < |bs| && bs[k].status == st ==> bs[k] in r
  {
    if bs == [] then []
    else (if bs[0].status == st then [bs[0]] else []) + WithStatus(bs[1..], st)
  }

  /** The bookings of one user (`filter_by(user_id=...)`). */
  function BookingsOf(bs: seq<Booking>, u: UserId): (r: seq<Booking>)
    ensures |r| <= |bs|
    ensures forall k :: 0 <= k < |r| ==> r[k].userId == u && r[k] in bs
    ensures forall k :: 0 <= k < |bs| && bs[k].userId == u ==> bs[k] in r
  {
    if bs == [] then []
    else (if bs[0].userId == u then [bs[0]] else []) + BookingsOf(bs[1..], u)
  }

  /** The sum of the costs of the completed bookings among `bs`. */
  function CompletedCost(bs: seq<Booking>): int {
    if bs == [] then 0
    else (if bs[0].status == Completed then bs[0].totalCost else 0) + CompletedCost(bs[1..])
  }

  /** The statistics of the user dashboard. */
  datatype UserStats = UserStats(total: nat, completed: nat, cancelled: nat, spent: int)

  function UserDashboardStats(bs: seq<Booking>, u: UserId): (r: UserStats)
    ensures r.completed + r.cancelled <= r.total <= |bs|
  {
    var mine := BookingsOf(bs, u);
    StatusPartition(mine);
    UserStats(|mine|, |WithStatus(mine, Completed)|, |WithStatus(mine, Cancelled)|, CompletedCost(mine))
  }

  /** The latest `n` bookings, newest first (`order_by(booking_time.desc()).limit(n)`):
      bookings are stored in the order they were made. */
  function Latest(bs: seq<Booking>, n: nat): (r: seq<Booking>)
    ensures |r| == if |bs| < n then |bs| else n
    ensures forall k :: 0 <= k < |r| ==> r[k] == bs[|bs| - 1 - k]
  {
    if bs == [] || n == 0 then []
    else [bs[|bs| - 1]] + Latest(bs[..|bs| - 1], n - 1)
  }

  /** Whether both joins of the report find a row for booking `b`: a spot
      with its spot id and a lot with its lot id. */
  predicate Joins(db: Database, b: Booking) {
    SpotIndex(db.spots, b.spotId).Some? && b.lotId in db.lots
  }

  /** The bookings the report's joins keep, in order
      (`join(ParkingSpot, ...).join(ParkingLot, ...)`). */
  function Joined(db: Database, bs: seq<Booking>): (r: seq<Booking>)
    ensures |r| <= |bs|
    ensures forall k :: 0 <= k < |r| ==> Joins(db, r[k]) && r[k] in bs
    ensures forall k :: 0 <= k < |bs| && Joins(db, bs[k]) ==> bs[k] in r
  {
    if bs == [] then []
    else (if Joins(db, bs[0]) then [bs[0]] else []) + Joined(db, bs[1..])
  }

  /** The counters of the administrator's report. */
  datatype ReportStats = ReportStats(total: nat, active: nat, completed: nat, cancelled: nat,
                                     revenue: int, lots: nat, spots: nat)

  function AdminReportStats(db: Database): (r: ReportStats)
    ensures r.active + r.completed + r.cancelled == r.total
  {
    StatusPartition(db.bookings);
    ReportStats(|db.bookings|, |WithStatus(db.bookings, Active)|, |WithStatus(db.bookings, Completed)|,
                |WithStatus(db.bookings, Cancelled)|, CompletedCost(Latest(Joined(db, db.bookings), ReportSize)),
                |db.lots|, |db.spots|)
  }

  /** The revenue loop of `admin_reports`: walks the latest of the joined
      bookings `bs`, newest first, adding up the cost of each completed one. */
  method ReportRevenue(bs: seq<Booking>) returns (total: int)
    ensures total == CompletedCost(Latest(bs, ReportSize))
  {
    var listed := Latest(bs, ReportSize);
    total := 0;
    var i := 0;
    while i < |listed|
      invariant 0 <= i <= |listed|
      invariant total == CompletedCost(listed[..i])
    {
      CompletedCostSplit(listed[..i + 1], i);
      assert listed[..i + 1][..i] == listed[..i];
      if listed[i].status == Completed {
        total := total + listed[i].totalCost;
      }
      i := i + 1;
    }
    assert listed[..i] == listed;
  }

  /** `admin_reports`: the counters come from the status queries and the
      revenue from the loop over the latest joined bookings. */
  method AdminReport(db: Database) returns (st: ReportStats)
    ensures st == AdminReportStats(db)
  {
    var revenue := ReportRevenue(Joined(db, db.bookings));
    st := ReportStats(|db.bookings|, |WithStatus(db.bookings, Active)|, |WithStatus(db.bookings, Completed)|,
                      |WithStatus(db.bookings, Cancelled)|, revenue, |db.lots|, |db.spots|);
  }

  // ---------------------------------------------------------------------
  // Lemmas

  /** The cost of a sequence is that of its first `i` bookings plus that of the booking at `i`, when it is the last. */
  lemma {:induction false} CompletedCostSplit(bs: seq<Booking>, i: nat)
    requires i + 1 == |bs|
    ensures CompletedCost(bs) == CompletedCost(bs[..i]) + (if bs[i].status == Completed then bs[i].totalCost else 0)
    decreases i
  {
    if i > 0 {
      CompletedCostSplit(bs[1..], i - 1);
      assert bs[1..][..i - 1] == bs[..i][1..];
    } else {
      assert bs[1..] == [];
    }
  }

  lemma {:induction false} CompletedCostAppend(a: seq<Booking>, b: seq<Booking>)
    ensures CompletedCost(a + b) == CompletedCost(a) + CompletedCost(b)
    decreases |a|
  {
    if a == [] {
      assert a + b == b;
    } else {
      assert (a + b)[1..] == a[1..] + b;
      CompletedCostAppend(a[1..], b);
    }
  }

  /** Every booking is active, completed or cancelled: the three counters
      of the report add up to the number of bookings. */
  lemma {:induction false} StatusPartition(bs: seq<Booking>)
    ensures |WithStatus(bs, Active)| + |WithStatus(bs, Completed)| + |WithStatus(bs, Cancelled)| == |bs|
    decreases |bs|
  {
    if bs != [] {
      StatusPartition(bs[1..]);
    }
  }

  /** A user's completed and cancelled bookings are among all their
      bookings, and the rest of them are active. */
  lemma UserStatsPartition(bs: seq<Booking>, u: UserId)
    ensures var st := UserDashboardStats(bs, u);
            st.completed + st.cancelled + |WithStatus(BookingsOf(bs, u), Active)| == st.total
  {
    StatusPartition(BookingsOf(bs, u));
  }

  /** The active bookings of a user are what the single-booking rule counts. */
  lemma {:induction false} ActiveOfUserCount(bs: seq<Booking>, u: UserId)
    ensures |WithStatus(BookingsOf(bs, u), Active)| == ActiveCount(bs, OfUser(u))
    decreases |bs|
  {
    if bs != [] {
      ActiveOfUserCount(bs[1..], u);
      var head := if bs[0].userId == u then [bs[0]] else [];
      assert BookingsOf(bs, u) == head + BookingsOf(bs[1..], u);
      WithStatusAppend(head, BookingsOf(bs[1..], u), Active);
    }
  }

  lemma {:induction false} WithStatusAppend(a: seq<Booking>, b: seq<Booking>, st: Status)
    ensures WithStatus(a + b, st) == WithStatus(a, st) + WithStatus(b, st)
    decreases |a|
  {
    if a == [] {
      assert a + b == b;
    } else {
      assert (a + b)[1..] == a[1..] + b;
      WithStatusAppend(a[1..], b, st);
    }
  }

  /** Under the rules, the user dashboard shows at most one active booking,
      and every other booking of the user is completed or cancelled. */
  lemma UserHasAtMostOneActive(db: Database, u: UserId)
    requires Inv(db)
    ensures var st := UserDashboardStats(db.bookings, u);
            st.total - 1 <= st.completed + st.cancelled <= st.total
  {
    UserStatsPartition(db.bookings, u);
    ActiveOfUserCount(db.bookings, u);
  }

  /** When there are at most `ReportSize` bookings, the report's revenue is
      that of every completed booking. */
  lemma LatestCoversAll(bs: seq<Booking>)
    requires |bs| <= ReportSize
    ensures CompletedCost(Latest(bs, ReportSize)) == CompletedCost(bs)
  {
    CompletedCostReversed(bs, Latest(bs, ReportSize));
  }

  /** Listing bookings in the opposite order does not change their cost. */
  lemma {:induction false} CompletedCostReversed(bs: seq<Booking>, r: seq<Booking>)
    requires |r| == |bs| && forall k :: 0 <= k < |r| ==> r[k] == bs[|bs| - 1 - k]
    ensures CompletedCost(r) == CompletedCost(bs)
    decreases |bs|
  {
    if bs != [] {
      var n := |bs| - 1;
      CompletedCostReversed(bs[..n], r[1..]);
      CompletedCostSplit(bs, n);
    }
  }

  /** The administrator's report: its three status counters add up to its
      total; its revenue covers every completed joined booking while at most
      `ReportSize` bookings join, and every completed booking when the store
      keeps its rules and has at most `ReportSize` bookings; with no negative
      cost it never exceeds the revenue of all completed bookings. */
  lemma AdminReportFigures(db: Database)
    ensures var st := AdminReportStats(db);
            && st.active + st.completed + st.cancelled == st.total == |db.bookings|
            && st.lots == |db.lots| && st.spots == |db.spots|
            && (|Joined(db, db.bookings)| <= ReportSize ==> st.revenue == CompletedCost(Joined(db, db.bookings)))
            && (Inv(db) && BookingsPlaced(db) && |db.bookings| <= ReportSize ==> st.revenue == CompletedCost(db.bookings))
            && ((forall k :: 0 <= k < |db.bookings| ==> db.bookings[k].totalCost >= 0)
                  ==> 0 <= st.revenue <= CompletedCost(db.bookings))
  {
    var joined := Joined(db, db.bookings);
    if |joined| <= ReportSize {
      LatestCoversAll(joined);
    }
    if Inv(db) && BookingsPlaced(db) {
      JoinDropsNothing(db);
    }
    if forall k :: 0 <= k < |db.bookings| ==> db.bookings[k].totalCost >= 0 {
      assert forall k :: 0 <= k < |joined| ==> joined[k].totalCost >= 0;
      LatestRevenueBounded(joined, ReportSize);
      JoinedCostBounded(db, db.bookings);
    }
  }

  /** A sequence of bookings that all join is kept whole. */
  lemma {:induction false} JoinedAll(db: Database, bs: seq<Booking>)
    requires forall k :: 0 <= k < |bs| ==> Joins(db, bs[k])
    ensures Joined(db, bs) == bs
    decreases |bs|
  {
    if bs != [] {
      JoinedAll(db, bs[1..]);
    }
  }

  /** Under the rules, every booking's spot and lot exist, so the report's
      joins drop no booking. */
  lemma JoinDropsNothing(db: Database)
    requires Inv(db) && BookingsPlaced(db)
    ensures Joined(db, db.bookings) == db.bookings
  {
    forall k | 0 <= k < |db.bookings| ensures Joins(db, db.bookings[k]) {
      PlacedJoins(db, db.bookings[k]);
    }
    JoinedAll(db, db.bookings);
  }

  /** With no negative cost, dropping bookings never raises the revenue. */
  lemma {:induction false} JoinedCostBounded(db: Database, bs: seq<Booking>)
    requires forall k :: 0 <= k < |bs| ==> bs[k].totalCost >= 0
    ensures CompletedCost(Joined(db, bs)) <= CompletedCost(bs)
    decreases |bs|
  {
    if bs != [] {
      JoinedCostBounded(db, bs[1..]);
      var head := if Joins(db, bs[0]) then [bs[0]] else [];
      assert Joined(db, bs) == head + Joined(db, bs[1..]);
      CompletedCostAppend(head, Joined(db, bs[1..]));
    }
  }

  /** When no booking has a negative cost, the report's revenue is at most
      the revenue of every completed booking. */
  lemma LatestRevenueBounded(bs: seq<Booking>, n: nat)
    requires forall k :: 0 <= k < |bs| ==> bs[k].totalCost >= 0
    ensures 0 <= CompletedCost(Latest(bs, n)) <= CompletedCost(bs)
  {
    var m := |Latest(bs, n)|;
    var tail := bs[|bs| - m..];
    CompletedCostReversed(tail, Latest(bs, n));
    assert bs == bs[..|bs| - m] + tail;
    CompletedCostAppend(bs[..|bs| - m], tail);
    CompletedCostNonNegative(bs[..|bs| - m]);
    CompletedCostNonNegative(tail);
  }

  lemma {:induction false} CompletedCostNonNegative(bs: seq<Booking>)
    requires forall k :: 0 <= k < |bs| ==> bs[k].totalCost >= 0
    ensures CompletedCost(bs) >= 0
    decreases |bs|
  {
    if bs != [] {
      CompletedCostNonNegative(bs[1..]);
    }
  }

  /** Replacing one booking changes the completed cost by the difference of
      the two bookings' contributions. */
  lemma {:induction false} CompletedCostUpdate(bs: seq<Booking>, j: nat, b: Booking)
    requires j < |bs|
    ensures CompletedCost(bs[j := b])
            == CompletedCost(bs) - (if bs[j].status == Completed then bs[j].totalCost else 0)
                                 + (if b.status == Completed then b.totalCost else 0)
    decreases j
  {
    if j > 0 {
      CompletedCostUpdate(bs[1..], j - 1, b);
      assert bs[j := b][1..] == bs[1..][j - 1 := b];
    } else {
      assert bs[j := b][1..] == bs[1..];
    }
  }

  /** A booking adds nothing to the revenue while it is active. */
  lemma BookKeepsRevenue(db: Database, user: UserId, spotId: SpotId, lotId: LotId, vehicle: string, now: int)
    ensures CompletedCost(Book(db, user, spotId, lotId, vehicle, now).db.bookings) == CompletedCost(db.bookings)
  {
    var r := Book(db, user, spotId, lotId, vehicle, now);
    if r.outcome == Done {
      var b := r.db.bookings[|db.bookings|];
      assert r.db.bookings == db.bookings + [b];
      CompletedCostAppend(db.bookings, [b]);
    }
  }

  /** Releasing a parked car adds exactly its bill to the revenue: the price
      per hour times the billed hours. */
  lemma ReleaseAddsBill(db: Database, user: UserId, now: int)
    ensures var r := Release(db, user, now);
            r.outcome == Done ==>
              var b := db.bookings[FirstActive(db.bookings, OfUser(user)).value];
              CompletedCost(r.db.bookings)
                == CompletedCost(db.bookings) + b.totalCost * Billing.BilledHours(now - b.bookingTime)
  {
    var r := Release(db, user, now);
    if r.outcome == Done {
      var j := FirstActive(db.bookings, OfUser(user)).value;
      var b := db.bookings[j];
      CompletedCostUpdate(db.bookings, j,
        b.(status := Completed, releaseTime := Some(now), totalCost := b.totalCost * Billing.BilledHours(now - b.bookingTime)));
    }
  }
}
