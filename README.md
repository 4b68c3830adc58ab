# Parking store: bookings, capacity and billing

This project models the core of a Flask parking application (`app.py`). Users
book a free spot in a parking lot and later release it. Releasing bills them
for the hours parked. An administrator creates, resizes and deletes lots,
renames spots, frees a spot or sets its occupancy by hand, and reads a
revenue report. The application seeds five lots at start-up.

Each lot keeps two counters next to its spots: `total_spots` and
`available_spots`. The model is built around the rules those counters and the
bookings are meant to keep between requests (`Invariants.Inv`):

- every lot's `available_spots` equals its number of unoccupied spots (the ledger);
- every lot's `total_spots` equals its number of spots;
- the labels inside a lot are distinct;
- every active booking holds an occupied spot of its lot;
- a user has at most one active booking, and so does a spot;
- ids stay below the next id handed out, and spots are listed in id order.

A second rule, `Placement.BookingsPlaced`, covers every booking, active or
not: it names a spot that exists and lies in the booking's lot. Removing a
spot deletes its bookings through the cascade of app.py:45, and deleting a lot
first deletes the bookings made against it (app.py:454-456), so no booking
outlives its spot. The administrator's report joins every booking with its
spot and its lot, and so drops none of them.

The model has two layers:

- **Specification functions.** Module `Lifecycle` covers the user's requests
  and the administrator's spot-level requests. Module `Administration` covers
  lot management and seeding. Each is a function from the store before to a
  `Step`: the store after, plus `Done` or the reason the request was turned
  down. A lemma proves that every one of these functions keeps `Inv`.
- **The store.** Class `Storage.Store` holds the four tables as fields. Each
  request handler is a method that updates those fields in place, one table
  at a time. Each method is proved to leave exactly the store that its
  specification function describes, and to keep both rules (`Valid()`).

Four handlers break a rule as they are written (see "## Findings"). For
those four (booking, setting a spot's status, growing a lot and creating a
lot), `Lifecycle`, `Administration` and `Storage` model the CORRECTED
handler. The handler as written is in module `Findings`, and the rows below
that describe a corrected behaviour say so.

Billing (`Billing`), the spot labels and string clean-up (`Text`), and the
dashboard figures (`Reports`) are pure functions with lemmas. Module
`Findings` holds the four handlers as they are written, each with an input
on which it breaks one of the rules.

Times are whole seconds, passed in as `now`. Prices and costs are whole
currency units.

## Model

| member | source | states |
|---|---|---|
| Lifecycle.Book | app.py:229-258 | Corrected; as written: Findings.BookAsWritten. A request is turned down with `DuplicateActiveBooking` exactly when the user already has an active booking. Any other refusal is `SpotUnavailable`, and a refused request leaves the store unchanged. |
| Lifecycle.BookAccepts | app.py:229-239 | Corrected; as written: Findings.BookAsWritten. A booking is accepted if and only if the user has no active booking, the lot exists, and the spot exists, is free and lies in that lot. |
| Lifecycle.BookEffect | app.py:240-251 | An accepted booking appends one active booking. That booking carries the upper-cased plate, the lot's hourly price as its cost, and the time of the request. The spot becomes occupied. The lot's `available_spots` and its count of free spots both drop by one. The lots map, the spot table and the id counters are given exactly: apart from those changes and the next booking id, nothing changes. |
| Lifecycle.BookPreservesInv | app.py:229-258 | A booking, accepted or refused, keeps every rule of `Inv`. |
| Lifecycle.Release | app.py:349-369 | A release is turned down with `NoActiveBooking` exactly when the user has no active booking. A refused release leaves the store unchanged. |
| Lifecycle.ReleaseAccepts | app.py:349-369 | Under the rules, a release is accepted if and only if the user has exactly one active booking. `NoActiveBooking` is the only refusal that can occur. |
| Lifecycle.ReleaseBills | app.py:355-360 | The user's active booking becomes completed, with its release time set to `now`. Its cost becomes the hourly price times the billed hours. Every other booking is unchanged, and the user's active count drops by one. |
| Lifecycle.ReleaseFreesSpot | app.py:361-364 | Under the rules, the booked spot, in the booking's lot, goes from occupied to free. Its lot's `available_spots` and free-spot count both rise by one. The spot table and the lots map are given exactly: no other spot, no other lot and no other field of the lot changes, and neither does any id counter. |
| Lifecycle.ReleasePreservesInv | app.py:349-369 | A release keeps every rule of `Inv`. |
| Lifecycle.CancelActiveOn | app.py:470-473 | Only an active booking on the spot can change, and it becomes cancelled at `now`. No key's active count grows. When the spot had at most one active booking, it now has none. |
| Lifecycle.ForceRelease | app.py:466-477 | A missing spot is `NotFound` and a free spot is `SpotNotOccupied`, each exactly in that case. A refused request leaves the store unchanged. |
| Lifecycle.ForceReleaseEffect | app.py:466-477 | Under the rules, the only refusals are `NotFound` and `SpotNotOccupied`. On success the occupied spot becomes free and its lot's counter and free count rise by one. The spot table and the lots map are given exactly, so no other spot or lot changes, and the id counters stay. The spot keeps no active booking. Every booking is unchanged, except the active one on the spot, which becomes cancelled at `now` with its cost kept. |
| Lifecycle.ForceReleasePreservesInv | app.py:466-477 | An administrator's release keeps every rule of `Inv`. |
| Lifecycle.ToggleStatus | app.py:589-610 | Corrected; as written: Findings.ToggleAsWritten. A missing spot is `NotFound`. Setting a spot to the state it already has changes nothing. A refused request leaves the store unchanged. |
| Lifecycle.ToggleEffect | app.py:589-610 | Corrected; as written: Findings.ToggleAsWritten. Under the rules, the only refusal is `NotFound`. A request for the other state than an existing spot's current one is accepted and changes the store: the spot takes the requested state, and the lot's counter and its free count move together, by -1 when the spot is occupied and by +1 when it is freed. The spot table and the lots map are given exactly, and the id counters stay. Freeing the spot turns its active booking into a cancelled one at `now`, with its cost kept, and leaves every other booking as it was. Occupying it leaves the bookings unchanged. |
| Lifecycle.TogglePreservesInv | app.py:589-610 | Setting a spot's status keeps every rule of `Inv`. |
| Billing.TruncDiv | app.py:356 | Python's `int(a / b)`: the quotient rounded toward zero, for either sign of `a`. |
| Billing.BilledHours | app.py:356 | At least one hour is billed. A stay of an hour or more is billed its whole hours, rounded down. Anything under two hours is billed one. |
| Billing.BilledHoursMonotone | app.py:356 | A longer stay is never billed fewer hours. |
| Billing.BilledHoursStep | app.py:356 | After the first hour, each further hour adds exactly one billed hour. |
| Text.Decimal | app.py:432 | The decimal digits of a number: at least one character, and all of them digits. |
| Text.TwoDigits | app.py:432 | `{i:02d}`: at least two characters, all of them digits. |
| Text.LabelRoundTrip | app.py:432 | Reading the number back out of a generated label `A{i:02d}` gives `i`. |
| Text.LabelInjective | app.py:432 | Two generated labels are equal if and only if their numbers are. |
| Text.Upper | app.py:245 | The upper-cased plate has the same length, and each character is the upper-cased character at the same position. |
| Text.UpperIsUpper | app.py:245 | An upper-cased plate holds no lower-case letter, and upper-casing is idempotent. |
| Text.TrimStart | app.py:569 | Only leading whitespace is removed, and the result does not start with whitespace. |
| Text.TrimEnd | app.py:569 | Only trailing whitespace is removed, and the result does not end with whitespace. |
| Text.Strip | app.py:569 | A non-empty stripped name neither starts nor ends with whitespace. |
| Text.StripCutsOnlySpace | app.py:569 | The stripped name is a slice of the input, and everything cut off on either side is whitespace. |
| Text.StripIdempotent | app.py:569 | Stripping twice is stripping once. |
| SpotRuns.NewSpots | app.py:430-436 | A run of `count` new spots has consecutive ids and labels `A{first+k:02d}`. It lies in the given lot, and a spot is free exactly when its label number is at most `freeUpTo`. |
| SpotRuns.NewSpotsCounts | app.py:430-436 | A run adds `count` spots to its own lot and none to any other lot. Its free spots number `freeUpTo`, clamped to the range 0..count. |
| SpotRuns.NewSpotsLabelsDistinct | app.py:430-436 | The labels within one run of new spots are pairwise distinct. |
| SpotRuns.MaxLabelIndexIsMax | app.py:499-501 | Corrected; as written: Findings.ResizeAsWritten. The highest label number in a lot bounds the number of every label of the form `A` plus digits in use there, and is one of them unless it is 0. |
| SpotRuns.LabelAboveMaxIsFresh | app.py:499-501 | Corrected; as written: Findings.ResizeAsWritten. A label numbered above that maximum is used by no spot of the lot. |
| SpotRuns.DropFreeCounts | app.py:510-517 | Removing the lot's first `remove` free spots lowers both its spot count and its free count by `remove`. Other lots keep theirs. |
| Administration.CreateLot | app.py:421-437 | Corrected; as written: Findings.CreateLotAsWritten. A refused creation changes nothing, and its reason is `InvalidSpotCount`. |
| Administration.CreateLotEffect | app.py:421-437 | Corrected; as written: Findings.CreateLotAsWritten. A creation is accepted if and only if the count is not negative. The new lot gets a fresh id and `total_spots = available_spots = count`. Its spots are exactly `count` free spots labelled A01 onwards, with fresh ids. Other lots' spots and all bookings are unchanged. |
| Administration.CreateLotPreservesInv | app.py:421-437 | Creating a lot keeps every rule of `Inv`. |
| Administration.AddLotEffect | app.py:421-437 | Adding a lot record with its run of spots gives the lot exactly that run, under a fresh id, and leaves every other lot's spots and all bookings as they were. |
| Administration.AddLotPreservesInv | app.py:704-711 | Adding a lot whose `available` lies between 0 and `total` keeps every rule of `Inv`. |
| Administration.SeedsOk | app.py:694-700 | Every seed lot's available count lies between 0 and its total. |
| Administration.SeedEffect | app.py:690-712 | Seeding keeps every rule of `Inv`. A store that already has a lot is left alone. Otherwise each of the five seed lots is present, with its record and its spots A01 to A{total}, where exactly the first `available` spots are free. |
| Administration.SeededFree | app.py:704-711 | After seeding, each seed lot's free spots number its declared `available_spots`, so the ledger agrees with the seed list. |
| Administration.DeleteLot | app.py:448-457 | The request is `NotFound` exactly when the lot does not exist. A refused deletion changes nothing. |
| Administration.DeleteLotEffect | app.py:448-457 | Under the rules, a deletion is accepted if and only if the lot exists and none of its spots is occupied. Then the lot, its spots and its bookings are gone, and every other lot keeps its record and its spots. Every booking of another lot stays, so no active booking is lost, and no booking appears that was not there. |
| Administration.DeleteLotPreservesInv | app.py:448-457 | Deleting a lot keeps every rule of `Inv`. |
| Administration.Resize | app.py:489-521 | Corrected; as written: Findings.ResizeAsWritten. The request is `NotFound` exactly when the lot does not exist. A refused edit changes nothing. |
| Administration.ResizeAccepts | app.py:494-513 | Under the ledger and capacity rules, an edit is accepted if and only if the new total is at least the number of occupied spots in the lot. The only refusal is `InsufficientFreeCapacity`. |
| Administration.ResizeRecord | app.py:489-520 | An accepted edit replaces the name, location and price, and sets `total_spots` to the new total. It moves `available_spots` by the change in total. Every other lot record is unchanged. |
| Administration.ResizeCounts | app.py:494-519 | An accepted edit moves the lot's spot count and free count both by the change in total, and leaves every other lot's counts alone. |
| Administration.ResizePreservesInv | app.py:489-521 | Corrected; as written: Findings.ResizeAsWritten. Editing a lot keeps every rule of `Inv`, including distinct labels after growth. |
| Administration.RenameSpot | app.py:565-579 | The request is `NotFound` exactly when the spot does not exist. A refused rename changes nothing. |
| Administration.RenameEffect | app.py:565-579 | Under the rules, a rename is accepted if and only if the spot exists and no other spot of its lot carries the stripped name. Then only that spot's label changes, to the stripped name, which no other spot of the lot carries. |
| Administration.RenamePreservesInv | app.py:565-579 | Renaming a spot keeps every rule of `Inv`. |
| Invariants.EmptyInv | app.py:691 | The freshly created empty store keeps every rule. |
| Reports.WithStatus | app.py:293-296 | Filtering by status keeps every booking with that status and nothing else, and never more bookings than it started with. |
| Reports.BookingsOf | app.py:293-296 | Filtering by user keeps every booking of that user and nothing else, and never more bookings than it started with. |
| Reports.UserDashboardStats | app.py:292-297 | The user's completed and cancelled counts together never exceed the user's total, which never exceeds the number of bookings. |
| Reports.Joined | app.py:646-652 | The joins keep exactly the bookings whose spot and lot rows exist, in order, and never more bookings than there are. |
| Reports.AdminReportStats | app.py:646-687 | The report's active, completed and cancelled counters add up to its total. |
| Reports.AdminReport | app.py:642-687 | The figures computed with the revenue loop are exactly `AdminReportStats`. |
| Reports.AdminReportFigures | app.py:646-687 | The three status counters add up to the number of bookings, and the lot and spot counts are those of the tables. When at most 50 bookings survive the joins, the revenue is that of every completed one of them. Under both rules with at most 50 bookings, the revenue is that of every completed booking. With no negative cost it lies between 0 and the revenue of all completed bookings. |
| Reports.JoinDropsNothing | app.py:646-652 | Under both rules, the report's joins keep every booking. |
| Reports.JoinedCostBounded | app.py:646-677 | With no negative cost, the joined bookings' revenue never exceeds that of all bookings. |
| Reports.Latest | app.py:645-652 | The report lists `min(n, number of bookings)` bookings: the last ones made, newest first. |
| Reports.ReportRevenue | app.py:654-677 | Given the joined bookings, the revenue loop adds up exactly the costs of the completed bookings among the latest 50 of them. |
| Reports.StatusPartition | app.py:678-682 | The active, completed and cancelled counters add up to the total number of bookings. |
| Reports.UserStatsPartition | app.py:292-297 | A user's completed and cancelled counts, plus their active bookings, add up to their total. |
| Reports.UserHasAtMostOneActive | app.py:292-297 | Under the rules, the user's completed and cancelled counts fall short of their total by at most one. |
| Reports.LatestCoversAll | app.py:652-677 | With at most 50 bookings, the report's revenue is that of every completed booking. |
| Reports.LatestRevenueBounded | app.py:652-677 | With no negative costs, the report's revenue lies between 0 and the revenue of all completed bookings. |
| Reports.BookKeepsRevenue | app.py:229-258 | A booking leaves the completed revenue unchanged. |
| Reports.ReleaseAddsBill | app.py:349-369 | A release adds exactly its bill to the completed revenue: the price times the billed hours. |
| Placement.EmptyPlaced | app.py:691 | The empty store places every booking. |
| Placement.BookKeepsPlaced | app.py:229-258 | Corrected; as written: Findings.BookAsWritten. A booking keeps every booking placed: the new one names the spot it takes, in its own lot. |
| Placement.ReleaseKeepsPlaced | app.py:349-369 | A release keeps every booking placed. |
| Placement.ForceReleaseKeepsPlaced | app.py:466-477 | An administrator's release keeps every booking placed. |
| Placement.ToggleKeepsPlaced | app.py:589-610 | Setting a spot's status keeps every booking placed. |
| Placement.RenameKeepsPlaced | app.py:565-579 | Renaming a spot keeps every booking placed. |
| Placement.CreateLotKeepsPlaced | app.py:421-437 | Creating a lot keeps every booking placed. |
| Placement.SeedKeepsPlaced | app.py:690-712 | Seeding keeps every booking placed. |
| Placement.DeleteLotKeepsPlaced | app.py:448-457 | Deleting a lot, together with the bookings made against it and its spots, keeps every remaining booking placed. |
| Placement.ShrinkKeepsPlaced | app.py:508-519 | Removing free spots together with the bookings made on them keeps every remaining booking placed. |
| Placement.ResizeKeepsPlaced | app.py:489-521 | Editing a lot keeps every booking placed. |
| Placement.PlacedJoins | app.py:646-652 | Under the rules, a placed booking's spot is found by its id and its lot exists, so both joins find a row for it. |
| Storage.Store.constructor | app.py:691 | The tables start empty with every id counter at 1, and the store keeps the rules. |
| Storage.Store.BookSpot | app.py:229-258 | Corrected; as written: Findings.BookAsWritten. The updated tables and the outcome are exactly those of `Lifecycle.Book`, and the rules are kept. |
| Storage.Store.ReleaseParking | app.py:349-369 | The updated tables and the outcome are exactly those of `Lifecycle.Release`, and the rules are kept. |
| Storage.Store.ReleaseSpot | app.py:466-477 | The updated tables and the outcome are exactly those of `Lifecycle.ForceRelease`, and the rules are kept. |
| Storage.Store.ChangeSpotStatus | app.py:589-610 | Corrected; as written: Findings.ToggleAsWritten. The updated tables and the outcome are exactly those of `Lifecycle.ToggleStatus`, and the rules are kept. |
| Storage.Store.EditSpotName | app.py:565-579 | The updated tables and the outcome are exactly those of `Administration.RenameSpot`, and the rules are kept. |
| Storage.Store.AddParkingLot | app.py:421-437 | Corrected; as written: Findings.CreateLotAsWritten. The updated tables and the outcome are exactly those of `Administration.CreateLot`, and the rules are kept. |
| Storage.Store.InsertLot | app.py:426-437 | The lot record and its run of spots are added as `Administration.AddLot` describes. |
| Storage.Store.AppendSpots | app.py:430-437 | The spot table gains exactly the run `NewSpots`, and the next spot id moves past it. |
| Storage.BuildRun | app.py:430-436 | The loop builds exactly the run `NewSpots`. |
| Storage.Store.SeedLots | app.py:690-712 | The tables end as `Administration.Seed` describes: unchanged when a lot exists, otherwise with the five seed lots added in order. The rules are kept. |
| Storage.Store.DeleteParkingLot | app.py:448-457 | The updated tables and the outcome are exactly those of `Administration.DeleteLot`, and the rules are kept. |
| Storage.Store.EditParkingLot | app.py:489-521 | Corrected; as written: Findings.ResizeAsWritten. The updated tables and the outcome are exactly those of `Administration.Resize`, and the rules are kept. |
| Storage.Store.GrowLot | app.py:497-507 | Corrected labels; as written: Findings.ResizeAsWritten. Growing appends the new free spots and raises the lot's available count, as `Administration.Grow` describes. |
| Storage.Store.ShrinkLot | app.py:508-519 | Shrinking deletes the lot's first free spots, with their bookings, and lowers its counter, as `Administration.Shrink` describes. |
| Storage.Store.RemoveSpots | app.py:514-517 | The loop deletes the given spots, one at a time, together with every booking made on them. |
| Findings.BookAsWritten | app.py:229-258 | The handler as written: a refusal changes nothing, and an accepted booking adds one booking. |
| Findings.BookAsWrittenBreaksLedger | app.py:237-249 | Booking lot 1's spot under lot 2 is accepted as written and breaks the ledger. The corrected `Book` refuses it. |
| Findings.ToggleAsWritten | app.py:589-610 | The handler as written never changes a lot record. |
| Findings.ToggleAsWrittenBreaksLedger | app.py:603-609 | Occupying a free spot as written leaves the counter too high. The corrected `ToggleStatus` keeps the ledger. |
| Findings.ResizeAsWritten | app.py:489-521 | The handler as written: a refused edit changes nothing. |
| Findings.ResizeAsWrittenDuplicatesLabel | app.py:497-505 | When a lot already uses the label numbered one past its spot count, growing it as written creates a second spot with that label. |
| Findings.ResizeAsWrittenGrows | app.py:497-505 | Growing as written numbers the new spots from the spot count plus one. |
| Findings.CreateLotAsWritten | app.py:421-437 | The handler as written accepts every count and records it as the lot's total. |
| Findings.CreateLotAsWrittenBreaksCapacity | app.py:421-437 | As written, a negative count gives a lot whose total cannot match its spot count. The corrected `CreateLot` refuses it. |

## Left out

- Users, sign-up, login, sessions and the administrator check are left out. Every handler takes the acting user's id as a parameter.
- `Reports.ReportRevenue`: the report's join with `User` (app.py:646-647) is not modelled, because users are not. No handler deletes a user, so that join drops no booking. The joins with the spot and the lot are modelled (`Reports.Joined`).
- Form validation is left out, except the handling of a negative spot count. This covers required fields, the 1-10 character limit on spot names, and the rule that a count must be non-zero. Flask-WTF's refusal of a total of 0 is not modelled, so `CreateLot` and `Resize` accept a count of 0.
- Prices and costs are floats in the source and whole numbers here. Rounding of float products is not modelled.
- The clock (`datetime.utcnow()` / `datetime.now()`) becomes the parameter `now`, in seconds. The difference between UTC and local time is not modelled.
- Flash messages, templates, redirects, search, the charts and the duration strings (`"{h}h {m}m"`) are not modelled. The report's total-users count and the per-spot history views are not modelled either.
- Commits and rollback are not modelled: each handler is one atomic step. The `StorageFault` outcome stands for a dangling foreign key, which the rules exclude.
- SQLite can reuse the largest deleted id. Here ids come from counters that only grow.
- Query order is not modelled. `query.all()` is taken as id order, and "latest by `booking_time`" as creation order. These agree as long as the clock never goes back.
- `Reports.LatestRevenueBounded` assumes no negative cost. A negative price would let the report show less than zero.
- `Text.Upper` covers ASCII letters only: Python's `str.upper` also maps other letters, and can lengthen a string.
- `SeedLots` adds each lot with its spots in one step. The source first writes all five lots and then all their spots; the resulting tables are the same.

## Findings

| source | as written | input that shows it | evidently intended | confidence | as-written member | corrected member |
|---|---|---|---|---|---|---|
| app.py:237-249 | The spot and the lot are looked up separately. Nothing checks that the spot belongs to the submitted lot. | Two lots with one free spot each; book spot 1 of lot 1 with `lot_id = 2` | Book only a spot of the submitted lot | low, not executed: reachable only when the form is bypassed, because app.py:214-225 limits the spot choices to the free spots of the submitted lot and overwrites the form's lot id, so `validate()` refuses a mismatch | Findings.BookAsWrittenBreaksLedger | Lifecycle.BookPreservesInv |
| app.py:603-609 | `is_occupied` is assigned before it is compared with the new value, so the counter never moves | One lot with one free spot; set the spot occupied | Move `available_spots` when the flag changes | high, not executed | Findings.ToggleAsWrittenBreaksLedger | Lifecycle.TogglePreservesInv |
| app.py:497-505 | New spots are labelled from the lot's spot count plus one. Shrinking removes the first free spots, so higher labels may still be in use | Lot with A01, A02; shrink to 1 (A02 stays), then grow to 2: a second A02 | New labels unused in the lot | high, not executed | Findings.ResizeAsWrittenDuplicatesLabel | Administration.ResizePreservesInv |
| app.py:421-437 | A negative `total_spots` passes the form and is stored as the lot's total, with no spots created | `add_parking_lot` with `total_spots = -3` | Refuse counts below zero | high, not executed | Findings.CreateLotAsWrittenBreaksCapacity | Administration.CreateLotPreservesInv |
