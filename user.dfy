/** The user collection: each user document embeds an ordered list of booking
    entries. Covers the booking sub-document shape, the `username` unique index,
    the validators (required fields and the phone-or-email hook), and the two
    array updates the routes issue (`$push` of an entry, `$pull` by entry id). */
module UserModel {
  import opened Wrappers
  import opened Durations
  import opened Sequences

  /** Stands in for the ObjectId the store gives each embedded entry. */
  type BookingId = nat

  datatype Booking = Booking(
    id: BookingId,
    carPlate: string,
    slot: string,
    duration: string,
    bookedAt: int)

  /** A user document. The empty string stands for an absent optional field. */
  datatype User = User(
    username: string,
    password: string,
    phone: string,
    email: string,
    bookings: seq<Booking>,
    createdAt: int)

  /** Builds an entry the way the sub-schema does: `bookedAt` takes the store's
      clock when the caller supplies none. */
  function NewBooking(id: BookingId, carPlate: string, slot: string, duration: string,
                      bookedAt: Option<int>, clock: int): (b: Booking)
    ensures b.id == id && b.carPlate == carPlate && b.slot == slot && b.duration == duration
    ensures bookedAt.None? ==> b.bookedAt == clock
    ensures bookedAt.Some? ==> b.bookedAt == bookedAt.value
  {
    Booking(id, carPlate, slot, duration, if bookedAt.Some? then bookedAt.value else clock)
  }

  datatype ValidationError = MissingContact | MissingUsername | MissingPassword

  /** Document validation: the `pre('validate')` hook runs first and refuses a
      user with neither phone nor email; then the required validators refuse an
      empty username or password. */
  function Validate(u: User): (r: Option<ValidationError>)
    ensures r == Some(MissingContact) <==> u.phone == "" && u.email == ""
    ensures r.None? <==> (u.phone != "" || u.email != "") && u.username != "" && u.password != ""
  {
    if u.phone == "" && u.email == "" then Some(MissingContact)
    else if u.username == "" then Some(MissingUsername)
    else if u.password == "" then Some(MissingPassword)
    else None
  }

  predicate UsernamesUnique(users: seq<User>)
  {
    forall i, j :: 0 <= i < j < |users| ==> users[i].username != users[j].username
  }

  /** Every embedded entry id occurs once across the whole collection. */
  predicate IdsUnique(users: seq<User>)
  {
    forall i1, j1, i2, j2 ::
      (0 <= i1 < |users| && 0 <= j1 < |users[i1].bookings| &&
       0 <= i2 < |users| && 0 <= j2 < |users[i2].bookings| &&
       users[i1].bookings[j1].id == users[i2].bookings[j2].id) ==> i1 == i2 && j1 == j2
  }

  /** Every entry id is below `bound`, so `bound` itself is fresh. */
  predicate IdsBelow(users: seq<User>, bound: BookingId)
  {
    forall i, j :: 0 <= i < |users| && 0 <= j < |users[i].bookings| ==> users[i].bookings[j].id < bound
  }

  /** Entries only ever carry one of the enum durations. */
  predicate DurationsValid(users: seq<User>)
  {
    forall i, j :: 0 <= i < |users| && 0 <= j < |users[i].bookings| ==> IsDurationLabel(users[i].bookings[j].duration)
  }

  predicate UsersValid(users: seq<User>)
  {
    (forall i :: 0 <= i < |users| ==> Validate(users[i]).None?)
    && UsernamesUnique(users) && IdsUnique(users) && DurationsValid(users)
  }

  /** `findOne({username})`: the first user with that name. */
  function IndexOfUser(users: seq<User>, username: string): (r: Option<nat>)
    ensures r.None? <==> forall i :: 0 <= i < |users| ==> users[i].username != username
    ensures r.Some? ==> r.value < |users| && users[r.value].username == username
    ensures r.Some? ==> forall i :: 0 <= i < r.value ==> users[i].username != username
  {
    if users == [] then None
    else if users[0].username == username then Some(0)
    else match IndexOfUser(users[1..], username)
      case None => None
      case Some(k) => Some(k + 1)
  }

  /** Inserting a user document: validation, then the unique index on
      `username`, then the document is appended to the collection. */
  function InsertUser(users: seq<User>, u: User): (r: Result<seq<User>, StoreError>)
    ensures r == Failure(ValidationFailed) <==> Validate(u).Some?
    ensures r == Failure(DuplicateKey) <==> Validate(u).None? && IndexOfUser(users, u.username).Some?
    ensures r.Success? ==> r.value == users + [u]
  {
    if Validate(u).Some? then Failure(ValidationFailed)
    else if IndexOfUser(users, u.username).Some? then Failure(DuplicateKey)
    else Success(users + [u])
  }

  /** A new user with no bookings keeps the collection valid. */
  lemma InsertUserKeepsUsersValid(users: seq<User>, u: User, bound: BookingId)
    requires UsersValid(users) && IdsBelow(users, bound)
    requires u.bookings == []
    requires InsertUser(users, u).Success?
    ensures UsersValid(InsertUser(users, u).value)
    ensures IdsBelow(InsertUser(users, u).value, bound)
  {
    var r := users + [u];
    assert forall i :: 0 <= i < |users| ==> r[i] == users[i];
    assert r[|users|] == u;
    // The new user has no entries, so every entry of r is an old one.
    forall i | 0 <= i < |r| && r[i].bookings != [] ensures i < |users| {
    }
  }

  /** `findOneAndUpdate({username}, {$push: {bookings: b}})`: appends `b` to
      the end of the first matching user's list; no match changes nothing. */
  function PushBooking(users: seq<User>, username: string, b: Booking): (r: seq<User>)
    ensures |r| == |users|
    ensures forall i :: 0 <= i < |users| && users[i].username != username ==> r[i] == users[i]
    ensures forall i :: 0 <= i < |users| ==> r[i] == users[i] || r[i] == users[i].(bookings := users[i].bookings + [b])
    ensures match IndexOfUser(users, username)
      case None => r == users
      case Some(k) => r[k] == users[k].(bookings := users[k].bookings + [b])
                      && forall i :: 0 <= i < |users| && i != k ==> r[i] == users[i]
  {
    match IndexOfUser(users, username)
    case None => users
    case Some(k) => users[k := users[k].(bookings := users[k].bookings + [b])]
  }

  /** Appending `b` to user k's list keeps every user's other fields, and each
      entry is either an old one at its old position or `b` at the end of k's list. */
  lemma AppendedEntries(users: seq<User>, k: nat, b: Booking)
    requires k < |users|
    ensures var r := users[k := users[k].(bookings := users[k].bookings + [b])];
      && |r| == |users|
      && (forall i :: 0 <= i < |r| ==> r[i].username == users[i].username && Validate(r[i]) == Validate(users[i]))
      && forall i, j :: 0 <= i < |r| && 0 <= j < |r[i].bookings| ==>
           (i == k && j == |users[k].bookings| && r[i].bookings[j] == b) ||
           (j < |users[i].bookings| && r[i].bookings[j] == users[i].bookings[j])
  {
  }

  /** Appending an entry whose id is fresh and whose duration is an enum label
      keeps the collection valid, and the bound moves past the new id. */
  lemma PushBookingKeepsUsersValid(users: seq<User>, username: string, b: Booking, bound: BookingId)
    requires UsersValid(users) && IdsBelow(users, bound)
    requires b.id == bound && IsDurationLabel(b.duration)
    ensures UsersValid(PushBooking(users, username, b))
    ensures IdsBelow(PushBooking(users, username, b), bound + 1)
  {
    match IndexOfUser(users, username)
    case None =>
    case Some(k) =>
      var r := users[k := users[k].(bookings := users[k].bookings + [b])];
      assert PushBooking(users, username, b) == r;
      AppendedEntries(users, k, b);
      forall i1, j1, i2, j2 |
        0 <= i1 < |r| && 0 <= j1 < |r[i1].bookings| && 0 <= i2 < |r| && 0 <= j2 < |r[i2].bookings| &&
        r[i1].bookings[j1].id == r[i2].bookings[j2].id
        ensures i1 == i2 && j1 == j2
      {
      }
  }

  predicate HasBookingId(bookings: seq<Booking>, id: BookingId)
  {
    exists j :: 0 <= j < |bookings| && bookings[j].id == id
  }

  /** `user.bookings.id(id)`: position of the first entry with that id. */
  function BookingIndex(bookings: seq<Booking>, id: BookingId): (j: nat)
    requires HasBookingId(bookings, id)
    ensures j < |bookings| && bookings[j].id == id
    ensures forall i :: 0 <= i < j ==> bookings[i].id != id
  {
    if bookings[0].id == id then 0
    else
      assert HasBookingId(bookings[1..], id) by {
        var j :| 0 <= j < |bookings| && bookings[j].id == id;
        assert bookings[1..][j - 1] == bookings[j];
      }
      1 + BookingIndex(bookings[1..], id)
  }

  /** `findOne({"bookings._id": id})`: the first user owning an entry with that id. */
  function OwnerOf(users: seq<User>, id: BookingId): (r: Option<nat>)
    ensures r.None? <==> forall i :: 0 <= i < |users| ==> !HasBookingId(users[i].bookings, id)
    ensures r.Some? ==> r.value < |users| && HasBookingId(users[r.value].bookings, id)
  {
    if users == [] then None
    else if HasBookingId(users[0].bookings, id) then Some(0)
    else match OwnerOf(users[1..], id)
      case None => None
      case Some(k) => Some(k + 1)
  }

  /** `$pull: {bookings: {_id: id}}`: drops every entry with that id and keeps
      the others in order. */
  function PullBooking(bookings: seq<Booking>, id: BookingId): (r: seq<Booking>)
    ensures |r| <= |bookings|
    ensures forall b :: b in r <==> b in bookings && b.id != id
  {
    if bookings == [] then []
    else if bookings[0].id == id then PullBooking(bookings[1..], id)
    else [bookings[0]] + PullBooking(bookings[1..], id)
  }

  /** When the id occurs exactly once, the pull removes exactly that entry. */
  lemma {:induction false} PullUniqueBooking(bookings: seq<Booking>, id: BookingId, k: nat)
    requires k < |bookings| && bookings[k].id == id
    requires forall j :: 0 <= j < |bookings| && j != k ==> bookings[j].id != id
    ensures PullBooking(bookings, id) == bookings[..k] + bookings[k + 1..]
  {
    var tail := bookings[1..];
    if k == 0 {
      forall j | 0 <= j < |tail| ensures tail[j].id != id {
        assert tail[j] == bookings[j + 1];
      }
      PullAbsentBooking(tail, id);
      assert bookings[..0] + bookings[1..] == tail;
    } else {
      forall j | 0 <= j < |tail| && j != k - 1 ensures tail[j].id != id {
        assert tail[j] == bookings[j + 1];
      }
      PullUniqueBooking(tail, id, k - 1);
      assert bookings[0].id != id;
      assert PullBooking(bookings, id) == [bookings[0]] + PullBooking(tail, id);
      SpliceCons(bookings, k);
    }
  }

  /** Pulling an id that no entry carries changes nothing. */
  lemma {:induction false} PullAbsentBooking(bookings: seq<Booking>, id: BookingId)
    requires forall j :: 0 <= j < |bookings| ==> bookings[j].id != id
    ensures PullBooking(bookings, id) == bookings
  {
    if bookings != [] {
      assert forall j :: 0 <= j < |bookings| - 1 ==> bookings[1..][j] == bookings[j + 1];
      PullAbsentBooking(bookings[1..], id);
    }
  }

  /** Number of entries across all users. */
  function TotalBookings(users: seq<User>): nat
  {
    if users == [] then 0 else TotalBookings(users[..|users| - 1]) + |users[|users| - 1].bookings|
  }

  /** Replacing one user's list changes the total by the difference in length. */
  lemma {:induction false} TotalBookingsUpdate(users: seq<User>, k: nat, u: User)
    requires k < |users|
    ensures TotalBookings(users[k := u]) == TotalBookings(users) - |users[k].bookings| + |u.bookings|
  {
    var r := users[k := u];
    var n := |users| - 1;
    assert r[..n] == if k == n then users[..n] else users[..n][k := u];
    if k < n {
      TotalBookingsUpdate(users[..n], k, u);
    }
  }
}
