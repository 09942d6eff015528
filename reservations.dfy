/** The state-changing slot routes over the two collections and the capacity
    config: set-total-slots (an upsert), reserve-slot (check, save, push),
    cancel-booking (pull, deleteOne), and the all-bookings loop. Inserting a
    user document and one pass of the TTL monitor are modelled as steps too,
    so that every state the routes see can be reached. */
module Reservations {
  import opened Wrappers
  import opened Durations
  import opened ReservedSlotModel
  import opened UserModel
  import opened SlotRoutes
  import opened Sequences

  datatype SetSlotsOutcome = Updated | InvalidSlotCount

  /** 200 on success, 400 on a missing field, 409 on an unexpired hold, and the
      500 paths where the ledger refuses the save. */
  datatype ReserveOutcome = Reserved | MissingFields | AlreadyReserved | SaveFailed(error: StoreError)

  datatype CancelOutcome = Cancelled | InvalidBookingId | BookingNotFound

  /** The `:bookingId` path parameter, as the ObjectId syntax check sees it. */
  datatype BookingIdParam = Unparsable | ObjectId(id: BookingId)

  predicate Missing(slot: string, username: string, carPlate: string, duration: string)
  {
    slot == "" || username == "" || carPlate == "" || duration == ""
  }

  /** The invariant of the engine's state: both collections satisfy their
      schemas and indexes, every entry id is below the counter, and a stored
      capacity is at least one. */
  predicate StateValid(ledger: seq<Hold>, users: seq<User>, nextId: BookingId, config: Option<int>)
  {
    LedgerValid(ledger) && UsersValid(users) && IdsBelow(users, nextId) && CapacityValid(config)
  }

  class Engine {
    /** The reserved-slot collection, in natural order. */
    var ledger: seq<Hold>
    /** The user collection, in natural order. */
    var users: seq<User>
    /** The single capacity config document, if any. */
    var config: Option<int>
    /** The next entry id to hand out; every id in use is below it. */
    var nextId: BookingId

    ghost predicate Valid()
      reads this
    {
      StateValid(ledger, users, nextId, config)
    }

    constructor ()
      ensures Valid()
      ensures ledger == [] && users == [] && config == None && nextId == 0
    {
      ledger, users, config, nextId := [], [], None, 0;
    }

    /** `set-total-slots`: a missing or falsy count, or one below 1, is
        refused; otherwise the existing config is overwritten or a new one is
        created. */
    method SetTotalSlots(totalSlots: Option<int>) returns (r: SetSlotsOutcome)
      requires Valid()
      modifies this`config
      ensures Valid()
      ensures r == InvalidSlotCount <==> totalSlots.None? || totalSlots.value < 1
      ensures r == InvalidSlotCount ==> config == old(config)
      ensures r == Updated ==> config == Some(totalSlots.value) && TotalSlots(config) == totalSlots.value
    {
      if totalSlots.None? || totalSlots.value == 0 || totalSlots.value < 1 {
        return InvalidSlotCount;
      }
      if config.Some? {
        config := config.(value := totalSlots.value);
      } else {
        config := Some(totalSlots.value);
      }
      r := Updated;
    }

    /** Inserting a user document (the collection `reserve-slot` pushes into).
        The new user starts with no bookings. */
    method CreateUser(username: string, password: string, phone: string, email: string, now: int)
      returns (r: Outcome<StoreError>)
      requires Valid()
      modifies this`users
      ensures Valid()
      ensures var u := User(username, password, phone, email, [], now);
        && (r == Fail(ValidationFailed) <==> Validate(u).Some?)
        && (r == Fail(DuplicateKey) <==> Validate(u).None? && IndexOfUser(old(users), username).Some?)
        && (r.Pass? <==> Validate(u).None? && IndexOfUser(old(users), username).None?)
        && (r.Pass? ==> users == old(users) + [u])
        && (r.Fail? ==> users == old(users))
    {
      var u := User(username, password, phone, email, [], now);
      var saved := InsertUser(users, u);
      if saved.Failure? {
        return Fail(saved.error);
      }
      InsertUserKeepsUsersValid(users, u, nextId);
      users := saved.value;
      r := Pass;
    }

    /** `reserve-slot`. The hold is written before the booking; a missing user
        is not an error, the hold then has no mirrored booking. */
    method Reserve(slot: string, username: string, carPlate: string, duration: string, now: int)
      returns (r: ReserveOutcome)
      requires Valid()
      modifies this`ledger, this`users, this`nextId
      ensures Valid()
      ensures var missing := Missing(slot, username, carPlate, duration);
        && (r == MissingFields <==> missing)
        && (r == AlreadyReserved <==> !missing && HeldAt(old(ledger), slot, now))
        && (r == SaveFailed(ValidationFailed) <==>
              !missing && !HeldAt(old(ledger), slot, now) && !IsDurationLabel(duration))
        && (r == SaveFailed(DuplicateKey) <==>
              !missing && !HeldAt(old(ledger), slot, now) && IsDurationLabel(duration) && SlotTaken(old(ledger), slot))
        && (r == Reserved <==>
              !missing && IsDurationLabel(duration) && !SlotTaken(old(ledger), slot))
      ensures r != Reserved ==> ledger == old(ledger) && users == old(users) && nextId == old(nextId)
      ensures r == Reserved ==>
        && ledger == old(ledger) + [Hold(slot, username, carPlate, duration, now, ExpiryTime(duration, now))]
        && users == PushBooking(old(users), username, Booking(old(nextId), carPlate, slot, duration, now))
        && nextId == old(nextId) + 1
    {
      if Missing(slot, username, carPlate, duration) {
        return MissingFields;
      }
      var minutes := Minutes(duration);
      var expiresAt := now + minutes * MillisPerMinute;
      if HeldAt(ledger, slot, now) {
        return AlreadyReserved;
      }
      var hold := NewHold(slot, username, carPlate, duration, Some(now), expiresAt, now);
      var saved := SaveHold(ledger, hold);
      if saved.Failure? {
        return SaveFailed(saved.error);
      }
      ledger := saved.value;
      var booking := NewBooking(nextId, carPlate, slot, duration, Some(now), now);
      PushBookingKeepsUsersValid(users, username, booking, nextId);
      users := PushBooking(users, username, booking);
      nextId := nextId + 1;
      r := Reserved;
    }

    /** `cancel-booking/:bookingId`: finds the owner of the entry, pulls it
        from the owner's list, then deletes one ledger row with the entry's
        slot and plate, whoever holds it and whether or not it has expired. */
    method Cancel(bookingId: BookingIdParam) returns (r: CancelOutcome)
      requires Valid()
      modifies this`ledger, this`users
      ensures Valid()
      ensures bookingId.Unparsable? <==> r == InvalidBookingId
      ensures bookingId.ObjectId? ==> (r == BookingNotFound <==> OwnerOf(old(users), bookingId.id).None?)
      ensures r != Cancelled ==> ledger == old(ledger) && users == old(users)
      ensures r == Cancelled ==>
        && bookingId.ObjectId? && OwnerOf(old(users), bookingId.id).Some?
        && var k := OwnerOf(old(users), bookingId.id).value;
           CancelledAt(old(users), old(ledger), bookingId.id, k, BookingIndex(old(users)[k].bookings, bookingId.id), users, ledger)
    {
      if bookingId.Unparsable? {
        return InvalidBookingId;
      }
      var id := bookingId.id;
      var owner := OwnerOf(users, id);
      if owner.None? {
        return BookingNotFound;
      }
      var k := owner.value;
      var j := BookingIndex(users[k].bookings, id);
      var booking := users[k].bookings[j];
      CancelKeepsValid(users, ledger, nextId, config, id, k, j);
      users := users[k := users[k].(bookings := PullBooking(users[k].bookings, id))];
      ledger := DeleteOne(ledger, booking.slot, booking.carPlate);
      r := Cancelled;
    }

    /** One pass of the TTL monitor on `expiresAt`. */
    method ExpireHolds(now: int)
      requires Valid()
      modifies this`ledger
      ensures Valid()
      ensures ledger == Purge(old(ledger), now)
    {
      PurgeKeepsLedgerValid(ledger, now);
      ledger := Purge(ledger, now);
    }

    /** `all-bookings`: two nested loops that push one row per booking. */
    method AllBookings(now: int) returns (views: seq<BookingView>)
      ensures views == AllBookingsOf(users, now)
    {
      var all := users;
      views := [];
      var i := 0;
      while i < |all|
        invariant 0 <= i <= |all|
        invariant views == AllBookingsOf(all[..i], now)
      {
        var user := all[i];
        var j := 0;
        while j < |user.bookings|
          invariant 0 <= j <= |user.bookings|
          invariant views == AllBookingsOf(all[..i], now) + UserViews(user.username, user.bookings[..j], now)
        {
          var b := user.bookings[j];
          UserViewsStep(user.username, user.bookings, now, j);
          AppendAssoc(AllBookingsOf(all[..i], now), UserViews(user.username, user.bookings[..j], now), [ViewOf(user.username, b, now)]);
          views := views + [ViewOf(user.username, b, now)];
          j := j + 1;
        }
        assert user.bookings[..j] == user.bookings;
        AllBookingsStep(all, now, i);
        i := i + 1;
      }
      assert all[..i] == all;
    }
  }

  /** The state after cancelling the entry at position j of user k's list,
      which carries `id`: that one entry is gone from that one list, and one
      ledger row with the entry's slot and plate is deleted. */
  ghost predicate CancelledAt(users: seq<User>, ledger: seq<Hold>, id: BookingId, k: int, j: int,
                              users': seq<User>, ledger': seq<Hold>)
  {
    && 0 <= k < |users| && 0 <= j < |users[k].bookings|
    && users[k].bookings[j].id == id
    && users' == RemoveBooking(users, k, j)
    && ledger' == DeleteOne(ledger, users[k].bookings[j].slot, users[k].bookings[j].carPlate)
  }

  /** The collection with the entry at position j of user k's list removed. */
  function RemoveBooking(users: seq<User>, k: nat, j: nat): seq<User>
    requires k < |users| && j < |users[k].bookings|
  {
    users[k := users[k].(bookings := users[k].bookings[..j] + users[k].bookings[j + 1..])]
  }

  /** The two writes of a cancellation keep the state valid, and the pull
      removes just the entry at (k, j). */
  lemma CancelKeepsValid(users: seq<User>, ledger: seq<Hold>, bound: BookingId, config: Option<int>,
                         id: BookingId, k: nat, j: nat)
    requires StateValid(ledger, users, bound, config)
    requires k < |users| && j < |users[k].bookings| && users[k].bookings[j].id == id
    ensures var pulled := users[k := users[k].(bookings := PullBooking(users[k].bookings, id))];
      var deleted := DeleteOne(ledger, users[k].bookings[j].slot, users[k].bookings[j].carPlate);
      && CancelledAt(users, ledger, id, k, j, pulled, deleted)
      && StateValid(deleted, pulled, bound, config)
  {
    UniqueIdIsAlone(users, k, j);
    PullUniqueBooking(users[k].bookings, id, j);
    PullKeepsUsersValid(users, k, j, bound);
    DeleteOneKeepsLedgerValid(ledger, users[k].bookings[j].slot, users[k].bookings[j].carPlate);
  }

  /** Under unique ids, the entry found at (k, j) is the only one with its id. */
  lemma UniqueIdIsAlone(users: seq<User>, k: nat, j: nat)
    requires IdsUnique(users)
    requires k < |users| && j < |users[k].bookings|
    ensures forall j2 :: 0 <= j2 < |users[k].bookings| && j2 != j ==> users[k].bookings[j2].id != users[k].bookings[j].id
    ensures forall i :: 0 <= i < |users| && i != k ==> !HasBookingId(users[i].bookings, users[k].bookings[j].id)
  {
  }

  /** Where entry j2 of user i of `RemoveBooking(users, k, j)` sat before. */
  function SourcePos(k: nat, j: nat, i: nat, j2: nat): nat
  {
    if i == k && j2 >= j then j2 + 1 else j2
  }

  /** Removing an entry keeps every user's other fields and moves the later
      entries of user k one place forward. */
  lemma RemoveBookingEntries(users: seq<User>, k: nat, j: nat)
    requires k < |users| && j < |users[k].bookings|
    ensures var r := RemoveBooking(users, k, j);
      && |r| == |users|
      && (forall i :: 0 <= i < |r| ==> r[i].username == users[i].username && Validate(r[i]) == Validate(users[i]))
      && forall i, j2 :: 0 <= i < |r| && 0 <= j2 < |r[i].bookings| ==>
           SourcePos(k, j, i, j2) < |users[i].bookings| && r[i].bookings[j2] == users[i].bookings[SourcePos(k, j, i, j2)]
  {
  }

  /** Removing one entry from one user's list keeps the collection valid. */
  lemma PullKeepsUsersValid(users: seq<User>, k: nat, j: nat, bound: BookingId)
    requires UsersValid(users) && IdsBelow(users, bound)
    requires k < |users| && j < |users[k].bookings|
    ensures UsersValid(RemoveBooking(users, k, j)) && IdsBelow(RemoveBooking(users, k, j), bound)
  {
    var r := RemoveBooking(users, k, j);
    RemoveBookingEntries(users, k, j);
    forall i1, j1, i2, j2 |
      0 <= i1 < |r| && 0 <= j1 < |r[i1].bookings| && 0 <= i2 < |r| && 0 <= j2 < |r[i2].bookings| &&
      r[i1].bookings[j1].id == r[i2].bookings[j2].id
      ensures i1 == i2 && j1 == j2
    {
      assert users[i1].bookings[SourcePos(k, j, i1, j1)].id == users[i2].bookings[SourcePos(k, j, i2, j2)].id;
    }
  }

  /** Cancellation removes exactly one booking from the whole collection. */
  lemma CancelRemovesOneBooking(users: seq<User>, k: nat, j: nat)
    requires k < |users| && j < |users[k].bookings|
    ensures TotalBookings(RemoveBooking(users, k, j)) == TotalBookings(users) - 1
  {
    var bs := users[k].bookings;
    TotalBookingsUpdate(users, k, users[k].(bookings := bs[..j] + bs[j + 1..]));
  }

  /** Cancellation frees the slot when it removed the hold: the next reserve
      of that slot passes both the conflict check and the unique index,
      whatever the time. */
  lemma CancelFreesSlot(ledger: seq<Hold>, b: Booking, later: int)
    requires SlotsUnique(ledger)
    requires exists i :: 0 <= i < |ledger| && RowMatches(ledger[i], b.slot, b.carPlate)
    ensures !HeldAt(DeleteOne(ledger, b.slot, b.carPlate), b.slot, later)
    ensures !SlotTaken(DeleteOne(ledger, b.slot, b.carPlate), b.slot)
  {
    DeleteOneFreesSlot(ledger, b.slot, b.carPlate);
  }

  /** A hold written by a successful reserve is listed exactly while its
      mirrored booking reads as Active: both use the same expiry. */
  lemma StatusMatchesListing(ledger: seq<Hold>, slot: string, username: string, carPlate: string,
                             duration: string, now: int, id: BookingId, t: int)
    requires !SlotTaken(ledger, slot)
    ensures var h := Hold(slot, username, carPlate, duration, now, ExpiryTime(duration, now));
      var b := Booking(id, carPlate, slot, duration, now);
      Status(b, t) == Active <==> slot in ReservedSlots(ledger + [h], t)
  {
    var h := Hold(slot, username, carPlate, duration, now, ExpiryTime(duration, now));
    ReservedSlotsAppend(ledger, [h], t);
    assert ReservedSlots([h], t) == (if h.expiresAt > t then [slot] else []);
    assert !HeldAt(ledger, slot, t);
  }

  /** A "30 min" hold made at t0 is listed 29 minutes later and gone 31
      minutes later. */
  lemma ThirtyMinuteWindow(ledger: seq<Hold>, slot: string, username: string, carPlate: string, t0: int)
    requires !SlotTaken(ledger, slot)
    ensures var h := Hold(slot, username, carPlate, "30 min", t0, ExpiryTime("30 min", t0));
      && slot in ReservedSlots(ledger + [h], t0 + 29 * MillisPerMinute)
      && slot !in ReservedSlots(ledger + [h], t0 + 31 * MillisPerMinute)
  {
    StatusMatchesListing(ledger, slot, username, carPlate, "30 min", t0, 0, t0 + 29 * MillisPerMinute);
    StatusMatchesListing(ledger, slot, username, carPlate, "30 min", t0, 0, t0 + 31 * MillisPerMinute);
  }

  /** A client of the capacity routes: the default before any set, then the
      last value set. */
  method CapacityScenario() returns (before: int, after: int)
    ensures before == 4 && after == 25
  {
    var e := new Engine();
    before := TotalSlots(e.config);
    var r1 := e.SetTotalSlots(Some(10));
    assert r1 == Updated;
    var r2 := e.SetTotalSlots(Some(25));
    assert e.config == Some(25);
    var r3 := e.SetTotalSlots(Some(0));
    assert r3 == InvalidSlotCount;
    after := TotalSlots(e.config);
  }

  // The users, entries and holds of the scenarios below.
  const Alice := User("alice", "h1", "555-0100", "", [], 0)
  const Bob := User("bob", "h2", "", "bob@example.com", [], 0)
  const TwoHours: int := 2 * 60 * MillisPerMinute
  const AliceBooking := Booking(0, "XYZ-123", "A1", "1 hr", 0)
  const AliceHold := Hold("A1", "alice", "XYZ-123", "1 hr", 0, 60 * MillisPerMinute)
  const BobBooking := Booking(1, "XYZ-123", "A1", "1 hr", TwoHours)
  const BobHold := Hold("A1", "bob", "XYZ-123", "1 hr", TwoHours, TwoHours + 60 * MillisPerMinute)

  /** A "1 hr" label expires sixty minutes after its start. */
  lemma OneHour(start: int)
    ensures ExpiryTime("1 hr", start) == start + 60 * MillisPerMinute
  {
    DurationMapMatchesEnum();
  }

  /** The lookups and writes the scenarios perform, on their literal states. */
  lemma ScenarioLookups()
    ensures IndexOfUser([Alice], "bob").None?
    ensures IndexOfUser([Alice, Bob], "alice") == Some(0)
    ensures IndexOfUser([Alice.(bookings := [AliceBooking]), Bob], "bob") == Some(1)
    ensures PushBooking([Alice, Bob], "alice", AliceBooking) == [Alice.(bookings := [AliceBooking]), Bob]
    ensures PushBooking([Alice.(bookings := [AliceBooking]), Bob], "bob", BobBooking)
         == [Alice.(bookings := [AliceBooking]), Bob.(bookings := [BobBooking])]
  {
    assert [Alice.(bookings := [AliceBooking]), Bob][1..] == [Bob];
    assert Alice.bookings + [AliceBooking] == [AliceBooking] && Bob.bookings + [BobBooking] == [BobBooking];
  }

  /** Where entry 0 lives in the scenarios' user collections, and what
      cancelling it leaves. */
  lemma CancelLookups(other: seq<Booking>)
    ensures HasBookingId([AliceBooking], 0)
    ensures OwnerOf([Alice.(bookings := [AliceBooking]), Bob.(bookings := other)], 0) == Some(0)
    ensures BookingIndex([AliceBooking], 0) == 0
    ensures RemoveBooking([Alice.(bookings := [AliceBooking]), Bob.(bookings := other)], 0, 0)
         == [Alice, Bob.(bookings := other)]
    ensures DeleteOne([AliceHold], "A1", "XYZ-123") == []
    ensures DeleteOne([BobHold], "A1", "XYZ-123") == []
  {
    assert [AliceBooking][0].id == 0;
    assert [AliceBooking][..0] + [AliceBooking][1..] == [];
  }

  /** alice and bob register: alice with a phone number, bob with an email. */
  method RegisterAliceAndBob() returns (e: Engine)
    ensures fresh(e) && e.Valid()
    ensures e.users == [Alice, Bob] && e.ledger == [] && e.nextId == 0
  {
    e := new Engine();
    ScenarioLookups();
    var a := e.CreateUser("alice", "h1", "555-0100", "", 0);
    assert e.users == [Alice];
    var b := e.CreateUser("bob", "h2", "", "bob@example.com", 0);
  }

  /** alice and bob are registered, and alice reserves A1 for one hour at t=0. */
  method AliceHoldsA1() returns (e: Engine, r: ReserveOutcome)
    ensures fresh(e) && e.Valid() && r == Reserved && e.nextId == 1
    ensures e.users == [Alice.(bookings := [AliceBooking]), Bob] && e.ledger == [AliceHold]
  {
    e := RegisterAliceAndBob();
    ScenarioLookups();
    OneHour(0);
    r := e.Reserve("A1", "alice", "XYZ-123", "1 hr", 0);
    assert e.ledger == [] + [AliceHold];
  }

  /** A client of the reservation routes: alice holds A1 for one hour from
      t=0, bob is refused at t=10min, alice cancels at t=20min, and bob then
      gets A1 at t=21min. */
  method ReservationScenario() returns (outcomes: seq<ReserveOutcome>, cancelled: CancelOutcome)
    ensures outcomes == [Reserved, AlreadyReserved, Reserved]
    ensures cancelled == Cancelled
  {
    var e, r1 := AliceHoldsA1();
    assert HeldAt(e.ledger, "A1", 10 * MillisPerMinute) by { assert e.ledger[0] == AliceHold; }
    var r2 := e.Reserve("A1", "bob", "ABC-999", "1 hr", 10 * MillisPerMinute);
    CancelLookups([]);
    cancelled := e.Cancel(ObjectId(0));
    assert e.ledger == [];
    var r3 := e.Reserve("A1", "bob", "ABC-999", "1 hr", 21 * MillisPerMinute);
    outcomes := [r1, r2, r3];
  }

  /** The state before the stale cancellation: alice's hold on A1 is purged at
      t=2h, and bob then reserves A1 for a car with the same plate. */
  method StaleCancelSetup() returns (e: Engine)
    ensures fresh(e) && e.Valid()
    ensures e.users == [Alice.(bookings := [AliceBooking]), Bob.(bookings := [BobBooking])]
    ensures e.ledger == [BobHold]
  {
    var r1;
    e, r1 := AliceHoldsA1();
    e.ExpireHolds(TwoHours);
    assert e.ledger == [];
    ScenarioLookups();
    OneHour(TwoHours);
    var r2 := e.Reserve("A1", "bob", "XYZ-123", "1 hr", TwoHours);
    assert r2 == Reserved;
    assert e.ledger == [] + [BobHold];
  }

  /** Cancellation matches ledger rows by slot and plate only. alice cancels
      her old, Expired booking, and the delete removes bob's unexpired hold,
      while bob's booking stays in his list and still reads as Active. */
  method StaleCancelScenario() returns (bobBookings: nat, listed: bool, status: BookingStatus)
    ensures bobBookings == 1 && !listed && status == Active
  {
    var e := StaleCancelSetup();
    CancelLookups([BobBooking]);
    var c := e.Cancel(ObjectId(0));
    assert e.users == [Alice, Bob.(bookings := [BobBooking])] && e.ledger == [];
    var later := TwoHours + 5 * MillisPerMinute;
    bobBookings := |e.users[1].bookings|;
    listed := "A1" in ReservedSlots(e.ledger, later);
    status := Status(e.users[1].bookings[0], later);
  }
}
