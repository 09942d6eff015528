/** The reserved-slot ledger: one row per hold, the constraints the store
    enforces on each row (required fields, the duration enum, a unique `slot`
    index across ALL rows), the TTL purge on `expiresAt`, and the two writes
    the routes issue against it (`save` and `deleteOne`). */
module ReservedSlotModel {
  import opened Wrappers
  import opened Durations
  import opened Sequences

  /** One ledger row. Times are milliseconds since the epoch. */
  datatype Hold = Hold(
    slot: string,
    username: string,
    carPlate: string,
    duration: string,
    reservedAt: int,
    expiresAt: int)

  /** Builds a row the way the schema does: `reservedAt` takes the store's
      clock when the caller supplies none. */
  function NewHold(slot: string, username: string, carPlate: string, duration: string,
                   reservedAt: Option<int>, expiresAt: int, clock: int): (h: Hold)
    ensures h.slot == slot && h.username == username && h.carPlate == carPlate
    ensures h.duration == duration && h.expiresAt == expiresAt
    ensures reservedAt.None? ==> h.reservedAt == clock
    ensures reservedAt.Some? ==> h.reservedAt == reservedAt.value
  {
    Hold(slot, username, carPlate, duration,
         if reservedAt.Some? then reservedAt.value else clock, expiresAt)
  }

  /** The schema validators: required strings are non-empty, `duration` is one
      of the enum labels. (`expiresAt` is required too; every Hold carries one.) */
  predicate HoldValid(h: Hold)
  {
    h.slot != "" && h.username != "" && h.carPlate != "" && IsDurationLabel(h.duration)
  }

  /** The unique index on `slot`: no two rows share a slot, expired or not. */
  predicate SlotsUnique(ledger: seq<Hold>)
  {
    forall i, j :: 0 <= i < j < |ledger| ==> ledger[i].slot != ledger[j].slot
  }

  predicate LedgerValid(ledger: seq<Hold>)
  {
    (forall i :: 0 <= i < |ledger| ==> HoldValid(ledger[i])) && SlotsUnique(ledger)
  }

  /** Some row, expired or not, holds this slot key. */
  predicate SlotTaken(ledger: seq<Hold>, slot: string)
  {
    exists i :: 0 <= i < |ledger| && ledger[i].slot == slot
  }

  /** Some row for this slot has `expiresAt` strictly after `now`. */
  predicate HeldAt(ledger: seq<Hold>, slot: string, now: int)
  {
    exists i :: 0 <= i < |ledger| && ledger[i].slot == slot && ledger[i].expiresAt > now
  }

  /** Number of rows for `slot` whose `expiresAt` is after `now`. */
  function ActiveCount(ledger: seq<Hold>, slot: string, now: int): nat
  {
    if ledger == [] then 0
    else (if ledger[0].slot == slot && ledger[0].expiresAt > now then 1 else 0)
         + ActiveCount(ledger[1..], slot, now)
  }

  /** `save` of a new row: validation first, then the unique index, then the
      row is appended to the collection. A refused save writes nothing. */
  function SaveHold(ledger: seq<Hold>, h: Hold): (r: Result<seq<Hold>, StoreError>)
    ensures r == Failure(ValidationFailed) <==> !HoldValid(h)
    ensures r == Failure(DuplicateKey) <==> HoldValid(h) && SlotTaken(ledger, h.slot)
    ensures r.Success? ==> r.value == ledger + [h]
    ensures LedgerValid(ledger) && r.Success? ==> LedgerValid(r.value)
  {
    if !HoldValid(h) then Failure(ValidationFailed)
    else if SlotTaken(ledger, h.slot) then Failure(DuplicateKey)
    else Success(ledger + [h])
  }

  /** The TTL monitor: deletes exactly the rows whose `expiresAt` has been
      reached and keeps the others in their order. */
  function Purge(ledger: seq<Hold>, now: int): (r: seq<Hold>)
    ensures |r| <= |ledger|
    ensures forall h :: h in r <==> h in ledger && h.expiresAt > now
    ensures forall i :: 0 <= i < |r| ==> r[i].expiresAt > now
  {
    if ledger == [] then []
    else if ledger[0].expiresAt > now then [ledger[0]] + Purge(ledger[1..], now)
    else Purge(ledger[1..], now)
  }

  predicate RowMatches(h: Hold, slot: string, carPlate: string)
  {
    h.slot == slot && h.carPlate == carPlate
  }

  /** Position of the first row whose slot and plate match, or the length of
      the ledger when none does. */
  function FirstMatch(ledger: seq<Hold>, slot: string, carPlate: string): (k: nat)
    ensures k <= |ledger|
    ensures k < |ledger| ==> RowMatches(ledger[k], slot, carPlate)
    ensures forall i :: 0 <= i < k ==> !RowMatches(ledger[i], slot, carPlate)
  {
    if ledger == [] then 0
    else if RowMatches(ledger[0], slot, carPlate) then 0
    else 1 + FirstMatch(ledger[1..], slot, carPlate)
  }

  /** `deleteOne({slot, carPlate})`: removes the first row, in collection
      order, whose slot and plate both match; expiry and username are ignored.
      With no match the ledger is unchanged. */
  function DeleteOne(ledger: seq<Hold>, slot: string, carPlate: string): (r: seq<Hold>)
    ensures var k := FirstMatch(ledger, slot, carPlate);
      r == if k < |ledger| then ledger[..k] + ledger[k + 1..] else ledger
  {
    if ledger == [] then []
    else if RowMatches(ledger[0], slot, carPlate) then ledger[1..]
    else
      var rest := DeleteOne(ledger[1..], slot, carPlate);
      var k := FirstMatch(ledger[1..], slot, carPlate);
      if k < |ledger| - 1 then
        SpliceCons(ledger, k + 1);
        [ledger[0]] + rest
      else
        assert [ledger[0]] + ledger[1..] == ledger;
        [ledger[0]] + rest
  }

  /** Dropping the first row keeps the ledger valid. */
  lemma TailKeepsLedgerValid(ledger: seq<Hold>)
    requires LedgerValid(ledger) && ledger != []
    ensures LedgerValid(ledger[1..])
    ensures forall i :: 0 <= i < |ledger| - 1 ==> ledger[1..][i].slot != ledger[0].slot
  {
    var tail := ledger[1..];
    forall i, j | 0 <= i < j < |tail| ensures tail[i].slot != tail[j].slot {
      assert tail[i] == ledger[i + 1] && tail[j] == ledger[j + 1];
    }
    forall i | 0 <= i < |tail| ensures HoldValid(tail[i]) && tail[i].slot != ledger[0].slot {
      assert tail[i] == ledger[i + 1];
    }
  }

  /** Putting a valid row whose slot is new in front keeps the ledger valid. */
  lemma ConsKeepsLedgerValid(h: Hold, rest: seq<Hold>)
    requires LedgerValid(rest) && HoldValid(h)
    requires forall x :: x in rest ==> x.slot != h.slot
    ensures LedgerValid([h] + rest)
  {
    var r := [h] + rest;
    forall i, j | 0 <= i < j < |r| ensures r[i].slot != r[j].slot {
      assert r[j] == rest[j - 1];
      if i > 0 { assert r[i] == rest[i - 1]; }
    }
    forall i | 0 <= i < |r| ensures HoldValid(r[i]) {
      if i > 0 { assert r[i] == rest[i - 1]; }
    }
  }

  /** Removing rows never breaks validity: every row of a sub-sequence was a
      valid row, and distinct positions keep distinct slots. */
  lemma {:induction false} PurgeKeepsLedgerValid(ledger: seq<Hold>, now: int)
    requires LedgerValid(ledger)
    ensures LedgerValid(Purge(ledger, now))
  {
    if ledger != [] {
      TailKeepsLedgerValid(ledger);
      var tail := ledger[1..];
      PurgeKeepsLedgerValid(tail, now);
      var p := Purge(tail, now);
      if ledger[0].expiresAt > now {
        forall x | x in p ensures x.slot != ledger[0].slot {
          var j :| 0 <= j < |tail| && tail[j] == x;
        }
        ConsKeepsLedgerValid(ledger[0], p);
      }
    }
  }

  lemma DeleteOneKeepsLedgerValid(ledger: seq<Hold>, slot: string, carPlate: string)
    requires LedgerValid(ledger)
    ensures LedgerValid(DeleteOne(ledger, slot, carPlate))
  {
    var r := DeleteOne(ledger, slot, carPlate);
    var k := FirstMatch(ledger, slot, carPlate);
    if k < |ledger| {
      forall i | 0 <= i < |r| ensures r[i] == ledger[if i < k then i else i + 1] {}
    }
  }

  /** The unique index makes holds exclusive: at any instant at most one
      unexpired row exists per slot. */
  lemma {:induction false} ExclusiveHolds(ledger: seq<Hold>, slot: string, now: int)
    requires SlotsUnique(ledger)
    ensures ActiveCount(ledger, slot, now) <= 1
    ensures ActiveCount(ledger, slot, now) == 1 <==> HeldAt(ledger, slot, now)
  {
    if ledger != [] {
      var tail := ledger[1..];
      assert SlotsUnique(tail) by {
        forall i, j | 0 <= i < j < |tail| ensures tail[i].slot != tail[j].slot {
          assert tail[i] == ledger[i + 1] && tail[j] == ledger[j + 1];
        }
      }
      ExclusiveHolds(tail, slot, now);
      if ledger[0].slot == slot {
        assert !HeldAt(tail, slot, now) by {
          forall i | 0 <= i < |tail| ensures tail[i].slot != slot {
            assert tail[i] == ledger[i + 1];
          }
        }
      }
      assert HeldAt(ledger, slot, now) <==>
        (ledger[0].slot == slot && ledger[0].expiresAt > now) || HeldAt(tail, slot, now) by {
        if HeldAt(ledger, slot, now) && !(ledger[0].slot == slot && ledger[0].expiresAt > now) {
          var i :| 0 <= i < |ledger| && ledger[i].slot == slot && ledger[i].expiresAt > now;
          assert i > 0 && tail[i - 1] == ledger[i];
        }
        if HeldAt(tail, slot, now) {
          var i :| 0 <= i < |tail| && tail[i].slot == slot && tail[i].expiresAt > now;
          assert ledger[i + 1] == tail[i];
        }
      }
    }
  }

  /** What the TTL monitor leaves behind has no expired row, so after a purge
      a slot is taken exactly when it is held. */
  lemma PurgedSlotTakenIffHeld(ledger: seq<Hold>, now: int, slot: string)
    ensures SlotTaken(Purge(ledger, now), slot) <==> HeldAt(ledger, slot, now)
  {
    var p := Purge(ledger, now);
    if SlotTaken(p, slot) {
      var i :| 0 <= i < |p| && p[i].slot == slot;
      assert p[i] in ledger;
    }
    if HeldAt(ledger, slot, now) {
      var i :| 0 <= i < |ledger| && ledger[i].slot == slot && ledger[i].expiresAt > now;
      assert ledger[i] in p;
    }
  }

  /** Cancelling frees the slot key itself: once the one row matching the
      slot and plate is deleted, no row for that slot remains. */
  lemma DeleteOneFreesSlot(ledger: seq<Hold>, slot: string, carPlate: string)
    requires SlotsUnique(ledger)
    requires exists i :: 0 <= i < |ledger| && RowMatches(ledger[i], slot, carPlate)
    ensures !SlotTaken(DeleteOne(ledger, slot, carPlate), slot)
    ensures |DeleteOne(ledger, slot, carPlate)| == |ledger| - 1
  {
    var r := DeleteOne(ledger, slot, carPlate);
    var k := FirstMatch(ledger, slot, carPlate);
    assert k < |ledger|;
    forall i | 0 <= i < |r| ensures r[i].slot != slot {
      assert r[i] == ledger[if i < k then i else i + 1];
    }
  }
}
