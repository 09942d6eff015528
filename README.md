# Parking-slot reservation engine

A Dafny model of the reservation engine of a parking-slot backend.
The routes in `routes/slotRoutes.js` reserve a slot for a car for a fixed
duration. They also cancel a booking, list the slots currently held, report
every booking with an Active/Expired status derived from the clock, and read
and set the total slot count. They write to two document collections:
- the reserved-slot collection (`models/reservedSlot.js`), with one row per
  hold, a unique index on `slot`, a six-label `duration` enum and a TTL index
  on `expiresAt`;
- the user collection (`models/user.js`). Each user embeds an ordered list of
  booking entries, and the collection has a unique `username` and a
  phone-or-email validation hook.

## Layout

- `wrappers.dfy` (`Wrappers`): `Option`, `Result` and `Outcome`, plus
  `StoreError`, the two ways the store refuses a write: a validator fails, or a
  unique index already holds the key.
- `durations.dfy` (`Durations`): the six labels of the `duration` enum, which
  both schemas share.
- `sequences.dfy` (`Sequences`): two small facts about sequences.
  `SpliceCons` serves the delete and pull proofs, and `AppendAssoc` the
  all-bookings loop.
- `reserved_slot.dfy` (`ReservedSlotModel`): the ledger of holds.
  - Each row must satisfy the schema: the required fields are non-empty and
    the duration is an enum label.
  - No two rows share a slot. This is the unique index, and it spans expired
    rows too.
  - The file models `save`, the TTL purge and `deleteOne`, plus the
    exclusivity lemma.
- `user.dfy` (`UserModel`): users and their embedded booking entries.
  - It models the validation hook, the unique username, and insertion.
  - It models `findOneAndUpdate` with `$push`, the owner lookup on
    `bookings._id`, `bookings.id(...)`, and `$pull`.
- `slot_routes.dfy` (`SlotRoutes`): the read-only side of the routes:
  - `DURATION_MAP` and its `|| 60` fallback;
  - the capacity read with its `|| 4` default;
  - the reserved-slots listing;
  - the derived status;
  - the all-bookings and per-user listings.
- `reservations.dfy` (`Reservations`): class `Engine`, whose fields are the
  two collections, the capacity config and the counter that hands out entry
  ids.
  - Its methods are set-total-slots, reserve-slot and cancel-booking, plus the
    all-bookings loop.
  - Two more steps make every route-visible state reachable: inserting a user
    document and one pass of the TTL monitor.
  - `Engine.Valid()` is the invariant every method keeps: both collections
    satisfy their schemas and indexes, entry ids are unique and below the
    counter, and a stored capacity is at least one.
  - Three client methods run concrete scenarios and prove their outcomes.

Time is an integer number of milliseconds, passed in as `now`. Each request
reads the clock once, so the hold's `reservedAt`, its `expiresAt` and the
entry's `bookedAt` all derive from that single `now`.

### Behaviours of the code worth knowing

- **An unknown duration label never gives a 60-minute hold.** The route
  computes the 60-minute fallback (`routes/slotRoutes.js:62`). The ledger
  schema's enum (`models/reservedSlot.js:17-21`) then refuses the save, so
  the route answers 500 and writes nothing. `Engine.Reserve` returns
  `SaveFailed(ValidationFailed)` exactly in that case. `SlotRoutes.Minutes`
  keeps the fallback, which the all-bookings status uses.
- **An expired row blocks its slot until it is purged.** The unique index on
  `slot` (`models/reservedSlot.js:4-8`) covers every row, expired or not.
  While the TTL monitor has not yet removed an expired row, the conflict
  check (`routes/slotRoutes.js:65-72`) passes and the save then fails with a
  duplicate key, so the route answers 500. `Engine.Reserve` returns
  `SaveFailed(DuplicateKey)` exactly when no unexpired row exists but some
  row for the slot does. After a purge, "taken" and "held" coincide
  (`ReservedSlotModel.PurgedSlotTakenIffHeld`).
- **Cancelling deletes one row, matched on slot and plate only.** The code
  calls `deleteOne({slot, carPlate})` (`routes/slotRoutes.js:145`), which
  removes the first matching row in collection order. The match ignores the
  row's username and expiry, so cancelling an old, Expired booking can
  delete another user's live hold on the same slot for the same plate.
  `Reservations.StaleCancelScenario` proves that this happens.
- **Reserve succeeds without a user.** The booking is pushed with
  `findOneAndUpdate`, which changes nothing when no user has the name, and
  the route still reports success (`routes/slotRoutes.js:85-99`).

## Model

| member | source | states |
|---|---|---|
| ReservedSlotModel.NewHold | models/reservedSlot.js:22-25 | The row carries the given slot, user, plate, duration and expiry. `reservedAt` is the supplied time, or the store's clock when none is supplied. |
| ReservedSlotModel.SaveHold | models/reservedSlot.js:4-21 | The save fails validation exactly when a required field is empty or the duration is not an enum label. It fails with a duplicate key exactly when the row is valid and any row, expired or not, already has the slot. Otherwise the row is appended, and a valid ledger stays valid. |
| ReservedSlotModel.Purge | models/reservedSlot.js:26-30 | The TTL monitor keeps exactly the rows with `expiresAt > now`. No row it keeps has expired. |
| ReservedSlotModel.PurgeKeepsLedgerValid | models/reservedSlot.js:26-30 | Purging keeps every row valid and every slot unique. |
| ReservedSlotModel.FirstMatch | routes/slotRoutes.js:145 | Gives the position of the first row whose slot and plate both match, or the ledger's length when none does. No earlier row matches. |
| ReservedSlotModel.DeleteOne | routes/slotRoutes.js:145 | `deleteOne` removes exactly the first row that matches on slot and plate, and keeps the other rows in order. With no match the ledger is unchanged. |
| ReservedSlotModel.DeleteOneKeepsLedgerValid | routes/slotRoutes.js:145 | Deleting one row keeps the ledger valid. |
| ReservedSlotModel.ExclusiveHolds | models/reservedSlot.js:4-8 | With unique slots, at most one unexpired row exists per slot at any instant. There is exactly one when the slot is held. |
| ReservedSlotModel.PurgedSlotTakenIffHeld | models/reservedSlot.js:26-30 | After a purge at `now`, a slot has a row exactly when an unexpired row for it existed. |
| ReservedSlotModel.DeleteOneFreesSlot | routes/slotRoutes.js:145 | With unique slots and a matching row, the delete leaves no row for that slot and shortens the ledger by one. |
| UserModel.NewBooking | models/user.js:3-14 | The entry carries the given id, plate, slot and duration. `bookedAt` is the supplied time, or the store's clock. |
| UserModel.Validate | models/user.js:17-32 | Validation reports a missing contact exactly when both phone and email are empty. It passes exactly when one of them is present and the username and password are non-empty. |
| UserModel.IndexOfUser | routes/slotRoutes.js:192 | `findOne({username})` finds nothing exactly when no user has the name. Otherwise it gives the first user with that name. |
| UserModel.InsertUser | models/user.js:16-32 | An invalid document is refused by validation. A valid one whose username is taken is refused by the unique index. Otherwise the document is appended. |
| UserModel.InsertUserKeepsUsersValid | models/user.js:16-23 | Inserting a new user with no entries keeps the collection valid and the id bound. |
| UserModel.PushBooking | routes/slotRoutes.js:85-97 | `$push` appends the entry to the end of the first matching user's list and leaves every other user unchanged. With no matching user nothing changes. |
| UserModel.PushBookingKeepsUsersValid | routes/slotRoutes.js:85-97 | Pushing an entry with a fresh id and an enum duration keeps names unique, ids unique and durations valid, and moves the id bound past the new id. |
| UserModel.BookingIndex | routes/slotRoutes.js:135 | `bookings.id(id)` gives the position of the first entry carrying the id. |
| UserModel.OwnerOf | routes/slotRoutes.js:129 | `findOne({"bookings._id": id})` finds nothing exactly when no user's list has the id. Otherwise it names a user whose list has it. |
| UserModel.PullBooking | routes/slotRoutes.js:139-142 | `$pull` never lengthens the list and keeps exactly the entries whose id differs. |
| UserModel.PullUniqueBooking | routes/slotRoutes.js:139-142 | When the id occurs once, at position k, the pull removes exactly position k. |
| UserModel.PullAbsentBooking | routes/slotRoutes.js:139-142 | Pulling an id no entry carries changes nothing. |
| SlotRoutes.Minutes | routes/slotRoutes.js:62 | A label in the table gives its minutes, and any other label gives 60. The result is always between 30 and 1440. |
| SlotRoutes.DurationMapMatchesEnum | routes/slotRoutes.js:11-18 | The table's keys are exactly the six enum labels, with values 30, 60, 120, 180, 240 and 1440. |
| SlotRoutes.ExpiryTime | routes/slotRoutes.js:62-63 | The expiry is between 30 and 1440 minutes after the start. A label outside the enum expires 60 minutes after the start. |
| SlotRoutes.TotalSlots | routes/slotRoutes.js:24 | The capacity read gives 4 without a config or when the stored count is the falsy 0, and the stored count otherwise. It is never 0. |
| SlotRoutes.ReservedSlots | routes/slotRoutes.js:110-113 | The listing has at most one slot per row. A slot is listed exactly when an unexpired row holds it. |
| SlotRoutes.ReservedSlotsAppend | routes/slotRoutes.js:111-112 | The listing keeps ledger order: the listing of `a + b` is the listing of `a` followed by that of `b`. |
| SlotRoutes.ReservedSlotsDistinct | routes/slotRoutes.js:111-112 | With unique slots, no slot is listed twice. |
| SlotRoutes.PurgeKeepsReservedSlots | routes/slotRoutes.js:111 | A TTL purge at `now` does not change the listing at `now` or at any later time. |
| SlotRoutes.Status | routes/slotRoutes.js:166-168 | A booking is Active for at least its first 30 minutes and is Expired once a full day has passed. |
| SlotRoutes.OneHourStatus | routes/slotRoutes.js:166-168 | A "1 hr" booking is Active exactly while `now` is before `bookedAt` plus 60 minutes. |
| SlotRoutes.ExpiredIsFinal | routes/slotRoutes.js:166-168 | A booking that reads as Expired reads as Expired at every later time. |
| SlotRoutes.UserViews | routes/slotRoutes.js:165-178 | One user contributes one row per entry, in list order, each with the entry's fields, the user's name and the derived status. |
| SlotRoutes.AllBookingsLength | routes/slotRoutes.js:164-179 | The all-bookings listing has exactly one row per entry across all users. |
| SlotRoutes.AllBookingsComplete | routes/slotRoutes.js:164-179 | Every entry of every user appears in the listing, with its owner's name and its status. |
| SlotRoutes.AllBookingsSound | routes/slotRoutes.js:164-179 | Every row of the listing comes from some user's entry. |
| SlotRoutes.BookingsFor | routes/slotRoutes.js:188-203 | Gives not-found exactly when no user has the name. With unique names it gives that user's list. |
| Reservations.Engine.SetTotalSlots | routes/slotRoutes.js:31-50 | A missing count, or one below 1, is refused and leaves the config unchanged. Any other count is stored, whether the config existed or not, and is what the capacity read then gives. |
| Reservations.Engine.CreateUser | models/user.js:16-32 | The three outcomes of inserting a user hold exactly under the conditions `InsertUser` states. Success appends the user and a refusal changes nothing. |
| Reservations.Engine.Reserve | routes/slotRoutes.js:53-105 | See the reserve entry below the table. |
| Reservations.Engine.Cancel | routes/slotRoutes.js:120-153 | An unparsable id gives InvalidBookingId. An id no user owns gives BookingNotFound. Both leave the state unchanged. Otherwise the entry is removed from its owner's list, at its found position only, and `deleteOne` runs on the entry's slot and plate; the invariant is kept. |
| Reservations.Engine.ExpireHolds | models/reservedSlot.js:26-30 | One pass of the TTL monitor replaces the ledger by its purge and keeps the invariant. |
| Reservations.Engine.AllBookings | routes/slotRoutes.js:157-185 | The nested loops produce exactly the all-bookings listing: users in collection order, entries in list order. |
| Reservations.CancelKeepsValid | routes/slotRoutes.js:139-145 | Under the invariant, the `$pull` of a found entry's id removes just that entry, and the pull and the delete together keep the invariant. |
| Reservations.UniqueIdIsAlone | routes/slotRoutes.js:129-135 | With unique ids, the entry found at (k, j) is the only entry with its id: no other position in k's list has it, and no other user's list has it. |
| Reservations.PullKeepsUsersValid | routes/slotRoutes.js:139-142 | Removing one entry keeps the user collection valid and the id bound. |
| Reservations.CancelRemovesOneBooking | routes/slotRoutes.js:139-142 | A cancellation lowers the number of entries across all users by exactly one. |
| Reservations.CancelFreesSlot | routes/slotRoutes.js:145 | Once the matching row is deleted, the slot is neither held at any time nor taken, so the next reserve of it passes the conflict check and the unique index. |
| Reservations.StatusMatchesListing | routes/slotRoutes.js:162-168 | When a reserve creates a hold and its entry, the slot is listed at time t exactly when the entry reads as Active at t. |
| Reservations.ThirtyMinuteWindow | routes/slotRoutes.js:110-113 | A "30 min" hold made at t0 is listed 29 minutes later and is no longer listed 31 minutes later. |
| Reservations.CapacityScenario | routes/slotRoutes.js:21-50 | The capacity read gives 4 before any set. After sets of 10 and 25 and a refused 0, it gives 25. |
| Reservations.ReservationScenario | routes/slotRoutes.js:53-153 | alice reserves A1 at t=0. bob is refused at 10 minutes. alice cancels, and bob then reserves A1 at 21 minutes. |
| Reservations.StaleCancelScenario | routes/slotRoutes.js:135-145 | alice's purged hold on A1 is followed by bob's hold on A1 for the same plate. alice then cancels her Expired entry. This deletes bob's hold: A1 is no longer listed, while bob still has one entry and it reads as Active. |

The reserve entry (`Reservations.Engine.Reserve`):
- An empty field gives MissingFields.
- Otherwise, an unexpired row for the slot gives AlreadyReserved.
- Otherwise, a label outside the enum gives `SaveFailed(ValidationFailed)`.
- Otherwise, any row left for the slot gives `SaveFailed(DuplicateKey)`.
- Every outcome except Reserved leaves the state unchanged.
- Reserved appends exactly one hold, with `reservedAt = now` and the expiry on
  its label. It pushes exactly one entry, which has a fresh id, onto the named
  user's list if that user exists, and it keeps the invariant.

## Left out

- HTTP and Express: request parsing, status codes and JSON bodies. Each
  route's responses are outcome datatypes.
- Storage failures and timeouts (the other 500 paths). Only the two refusals
  the schemas cause are modelled.
- Concurrency: the routes are modelled as sequential steps, so the race
  between the conflict check and the save is not represented.
- ObjectId syntax: `mongoose.Types.ObjectId.isValid` is abstract. The caller
  supplies the id either as `Unparsable` or as a parsed id.
- Fresh ObjectIds for embedded entries: the engine takes them from a counter.
- The reserve route's call to `new Date()` is the `now` parameter. Dates are
  integer milliseconds.
- The TTL monitor's schedule: `Engine.ExpireHolds` is a step that clients may
  take at any time.
- The clock's monotonicity: the engine keeps no clock, so the `now` values of
  successive calls (`Engine.Reserve`, `Engine.ExpireHolds`, and so on) are not
  required to increase. A client may purge at t1 and then reserve at an
  earlier t0, which the running server cannot do. No proved property depends
  on the order of these times.
- The `trim` and `lowercase` setters on username, phone and email
  (`models/user.js:17-20`). Strings are stored as given.
- Password hashing and login (`index.js`), the connection code (`db.js`), the
  device-message routes and their model, and the unused admin and slot
  message models.
- The user collection is a sequence in collection order rather than a map
  keyed by name. The all-bookings route lists users in that order, and
  unique names are part of the invariant.
- `models/slotConfig.js`: its default of 20 is never observed, because the
  route falls back to 4. Capacity is an `Option<int>` in the engine.
- Reservations.Engine.SetTotalSlots: the request value is an optional integer.
  JavaScript's truthiness and comparison on strings, fractions or `NaN` are
  not modelled.
- SlotRoutes.Minutes: only the six table keys count as known labels. Keys
  inherited from `Object.prototype`, such as `"constructor"`, are not
  modelled.
- SlotRoutes.ReservedSlots: its own contract states membership only. The
  ledger order of the listing is stated by `SlotRoutes.ReservedSlotsAppend`
  together with the one-row case of its definition.
