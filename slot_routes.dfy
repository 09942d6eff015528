/** The read-only side of the slot routes: the duration table and its 60-minute
    fallback, the capacity read with its default of 4, the reserved-slots
    listing, the derived Active/Expired status and the two booking listings. */
module SlotRoutes {
  import opened Wrappers
  import opened Durations
  import opened ReservedSlotModel
  import opened UserModel

  /** `DURATION_MAP`: label to minutes. */
  const DurationMap: map<string, nat> :=
    map["30 min" := 30, "1 hr" := 60, "2 hrs" := 120, "3 hrs" := 180, "4 hrs" := 240, "Full Day" := 1440]

  const FallbackMinutes: nat := 60
  const MillisPerMinute: nat := 60000
  const DefaultTotalSlots: int := 4

  /** `DURATION_MAP[label] || 60`: total; a label the table lacks (or maps to a
      falsy 0, which none does) falls back to 60 minutes. */
  function Minutes(name: string): (m: nat)
    ensures name in DurationMap ==> m == DurationMap[name]
    ensures name !in DurationMap ==> m == FallbackMinutes
    ensures 30 <= m <= 1440
  {
    if name in DurationMap && DurationMap[name] != 0 then DurationMap[name] else FallbackMinutes
  }

  /** The table's keys are exactly the labels both schemas' enums accept, and
      the six labels map to 30, 60, 120, 180, 240 and 1440 minutes. */
  lemma DurationMapMatchesEnum()
    ensures forall name :: name in DurationMap <==> IsDurationLabel(name)
    ensures Minutes("30 min") == 30 && Minutes("1 hr") == 60 && Minutes("2 hrs") == 120
    ensures Minutes("3 hrs") == 180 && Minutes("4 hrs") == 240 && Minutes("Full Day") == 1440
  {
  }

  /** Start time plus the label's minutes, in milliseconds: the `expiresAt` of
      a hold and the expiry used to derive a booking's status. */
  function ExpiryTime(duration: string, start: int): (t: int)
    ensures start + 30 * MillisPerMinute <= t <= start + 1440 * MillisPerMinute
    ensures !IsDurationLabel(duration) ==> t == start + FallbackMinutes * MillisPerMinute
  {
    DurationMapMatchesEnum();
    start + Minutes(duration) * MillisPerMinute
  }

  /** `config?.totalSlots || 4`: the stored count unless there is no config or
      the count is the falsy 0. */
  function TotalSlots(config: Option<int>): (n: int)
    ensures config.None? || config.value == 0 ==> n == DefaultTotalSlots
    ensures config.Some? && config.value != 0 ==> n == config.value
    ensures n != 0
  {
    if config.Some? && config.value != 0 then config.value else DefaultTotalSlots
  }

  /** Every count the set route can store (one at least) is read back as is. */
  predicate CapacityValid(config: Option<int>)
  {
    config.Some? ==> config.value >= 1
  }

  /** `find({expiresAt: {$gt: now}}).map(r => r.slot)`: the slot of every
      unexpired row, in ledger order. */
  function ReservedSlots(ledger: seq<Hold>, now: int): (slots: seq<string>)
    ensures |slots| <= |ledger|
    ensures forall s :: s in slots <==> HeldAt(ledger, s, now)
  {
    if ledger == [] then []
    else
      var rest := ReservedSlots(ledger[1..], now);
      assert forall s :: HeldAt(ledger, s, now) <==>
        (ledger[0].slot == s && ledger[0].expiresAt > now) || HeldAt(ledger[1..], s, now) by {
        forall s | HeldAt(ledger, s, now)
          ensures (ledger[0].slot == s && ledger[0].expiresAt > now) || HeldAt(ledger[1..], s, now) {
          var i :| 0 <= i < |ledger| && ledger[i].slot == s && ledger[i].expiresAt > now;
          if i > 0 { assert ledger[1..][i - 1] == ledger[i]; }
        }
        forall s | HeldAt(ledger[1..], s, now) ensures HeldAt(ledger, s, now) {
          var i :| 0 <= i < |ledger| - 1 && ledger[1..][i].slot == s && ledger[1..][i].expiresAt > now;
          assert ledger[i + 1] == ledger[1..][i];
        }
      }
      (if ledger[0].expiresAt > now then [ledger[0].slot] else []) + rest
  }

  /** The listing of a concatenated ledger is the concatenation of the listings. */
  lemma {:induction false} ReservedSlotsAppend(a: seq<Hold>, b: seq<Hold>, now: int)
    ensures ReservedSlots(a + b, now) == ReservedSlots(a, now) + ReservedSlots(b, now)
  {
    if a == [] {
      assert a + b == b;
    } else {
      assert (a + b)[0] == a[0] && (a + b)[1..] == a[1..] + b;
      ReservedSlotsAppend(a[1..], b, now);
    }
  }

  /** With unique slots the listing names each slot once. */
  lemma {:induction false} ReservedSlotsDistinct(ledger: seq<Hold>, now: int)
    requires SlotsUnique(ledger)
    ensures forall i, j :: 0 <= i < j < |ReservedSlots(ledger, now)| ==>
      ReservedSlots(ledger, now)[i] != ReservedSlots(ledger, now)[j]
  {
    if ledger != [] {
      var tail := ledger[1..];
      assert SlotsUnique(tail) by {
        forall i, j | 0 <= i < j < |tail| ensures tail[i].slot != tail[j].slot {
          assert tail[i] == ledger[i + 1] && tail[j] == ledger[j + 1];
        }
      }
      ReservedSlotsDistinct(tail, now);
      var rest := ReservedSlots(tail, now);
      if ledger[0].expiresAt > now {
        assert ledger[0].slot !in rest by {
          forall i | 0 <= i < |tail| ensures tail[i].slot != ledger[0].slot {
            assert tail[i] == ledger[i + 1];
          }
        }
        var r := [ledger[0].slot] + rest;
        forall i, j | 0 <= i < j < |r| ensures r[i] != r[j] {
          assert r[j] == rest[j - 1];
          if i > 0 { assert r[i] == rest[i - 1]; } else { assert r[j] in rest; }
        }
      }
    }
  }

  /** The TTL purge is invisible to the listing, now and at every later instant. */
  lemma {:induction false} PurgeKeepsReservedSlots(ledger: seq<Hold>, now: int, later: int)
    requires now <= later
    ensures ReservedSlots(Purge(ledger, now), later) == ReservedSlots(ledger, later)
  {
    if ledger != [] {
      PurgeKeepsReservedSlots(ledger[1..], now, later);
      if ledger[0].expiresAt > now {
        assert ([ledger[0]] + Purge(ledger[1..], now))[1..] == Purge(ledger[1..], now);
      }
    }
  }

  datatype BookingStatus = Active | Expired

  /** `expiryTime > now ? "Active" : "Expired"`, computed on every read. A
      booking is Active for at least its first 30 minutes and Expired once a
      full day has passed. */
  function Status(b: Booking, now: int): (s: BookingStatus)
    ensures now < b.bookedAt + 30 * MillisPerMinute ==> s == Active
    ensures now >= b.bookedAt + 1440 * MillisPerMinute ==> s == Expired
  {
    if ExpiryTime(b.duration, b.bookedAt) > now then Active else Expired
  }

  /** A "1 hr" booking is Active exactly during the sixty minutes after it
      was made: ten minutes in it is Active, two hours in it is Expired. */
  lemma OneHourStatus(b: Booking, now: int)
    requires b.duration == "1 hr"
    ensures Status(b, now) == Active <==> now < b.bookedAt + 60 * MillisPerMinute
  {
    DurationMapMatchesEnum();
  }

  /** Once Expired, a booking stays Expired. */
  lemma ExpiredIsFinal(b: Booking, now: int, later: int)
    requires now <= later && Status(b, now) == Expired
    ensures Status(b, later) == Expired
  {
  }

  /** One row of the all-bookings listing. */
  datatype BookingView = BookingView(
    bookingId: BookingId,
    username: string,
    slot: string,
    duration: string,
    bookedAt: int,
    status: BookingStatus)

  function ViewOf(username: string, b: Booking, now: int): BookingView
  {
    BookingView(b.id, username, b.slot, b.duration, b.bookedAt, Status(b, now))
  }

  /** The rows contributed by one user, in booking order. */
  function UserViews(username: string, bookings: seq<Booking>, now: int): (vs: seq<BookingView>)
    ensures |vs| == |bookings|
    ensures forall j :: 0 <= j < |bookings| ==> vs[j] == ViewOf(username, bookings[j], now)
  {
    if bookings == [] then []
    else UserViews(username, bookings[..|bookings| - 1], now) + [ViewOf(username, bookings[|bookings| - 1], now)]
  }

  /** The all-bookings listing: every user in collection order, and within a
      user every booking in list order. */
  function AllBookingsOf(users: seq<User>, now: int): seq<BookingView>
  {
    if users == [] then []
    else
      var last := users[|users| - 1];
      AllBookingsOf(users[..|users| - 1], now) + UserViews(last.username, last.bookings, now)
  }

  /** One more booking extends its user's rows by one. */
  lemma UserViewsStep(username: string, bookings: seq<Booking>, now: int, j: nat)
    requires j < |bookings|
    ensures UserViews(username, bookings[..j + 1], now) == UserViews(username, bookings[..j], now) + [ViewOf(username, bookings[j], now)]
  {
    assert bookings[..j + 1][..j] == bookings[..j];
  }

  /** One more user extends the listing by that user's rows. */
  lemma AllBookingsStep(users: seq<User>, now: int, i: nat)
    requires i < |users|
    ensures AllBookingsOf(users[..i + 1], now) == AllBookingsOf(users[..i], now) + UserViews(users[i].username, users[i].bookings, now)
  {
    assert users[..i + 1][..i] == users[..i];
  }

  /** The listing has one row per booking. */
  lemma {:induction false} AllBookingsLength(users: seq<User>, now: int)
    ensures |AllBookingsOf(users, now)| == TotalBookings(users)
  {
    if users != [] {
      AllBookingsLength(users[..|users| - 1], now);
    }
  }

  /** Every booking of every user appears, with its owner's name and its status. */
  lemma {:induction false} AllBookingsComplete(users: seq<User>, now: int, i: nat, j: nat)
    requires i < |users| && j < |users[i].bookings|
    ensures ViewOf(users[i].username, users[i].bookings[j], now) in AllBookingsOf(users, now)
  {
    var n := |users| - 1;
    if i < n {
      assert users[..n][i] == users[i];
      AllBookingsComplete(users[..n], now, i, j);
    } else {
      var vs := UserViews(users[n].username, users[n].bookings, now);
      assert vs[j] == ViewOf(users[i].username, users[i].bookings[j], now);
      assert AllBookingsOf(users, now) == AllBookingsOf(users[..n], now) + vs;
    }
  }

  /** Every row of the listing comes from some user's booking. */
  lemma {:induction false} AllBookingsSound(users: seq<User>, now: int, v: BookingView)
    requires v in AllBookingsOf(users, now)
    ensures exists i, j ::
      0 <= i < |users| && 0 <= j < |users[i].bookings| && v == ViewOf(users[i].username, users[i].bookings[j], now)
  {
    var n := |users| - 1;
    var last := users[n];
    var vs := UserViews(last.username, last.bookings, now);
    if v in AllBookingsOf(users[..n], now) {
      AllBookingsSound(users[..n], now, v);
      var i, j :| 0 <= i < n && 0 <= j < |users[..n][i].bookings| &&
        v == ViewOf(users[..n][i].username, users[..n][i].bookings[j], now);
      assert users[..n][i] == users[i];
    } else {
      assert v in vs;
      var j :| 0 <= j < |vs| && vs[j] == v;
      assert v == ViewOf(users[n].username, users[n].bookings[j], now);
    }
  }

  /** `bookings/:username`: the raw booking list of the named user, or
      not-found when no user has that name. */
  function BookingsFor(users: seq<User>, username: string): (r: Option<seq<Booking>>)
    ensures r.None? <==> forall i :: 0 <= i < |users| ==> users[i].username != username
    ensures UsernamesUnique(users) && r.Some? ==>
      forall i :: 0 <= i < |users| && users[i].username == username ==> r.value == users[i].bookings
  {
    match IndexOfUser(users, username)
    case None => None
    case Some(k) => Some(users[k].bookings)
  }
}
