/**
 * Common-slot search (`suggestSessions`): over the next 14 calendar days, every even
 * half-hour slot from 16 (08:00) to 38 (19:00) at which both users are available, in day then
 * slot order, stopping after the first day that brings the number of suggestions to 5 or more.
 *
 * The clock is a parameter: `today` is `now.getDay()` (0 = Sunday). Day `d` after today has
 * `getDay()` equal to `(today + d) % 7`, and its Monday-based index in the mask is
 * `(getDay() + 6) % 7`. The suggested start is kept as day offset, hour and minute; turning it
 * into a `Date` is not modelled.
 */
module Sessions {
  import opened Wrappers
  import opened Base64
  import opened Availability
  import opened Entities

  /** How many days ahead the search looks. */
  const Horizon: nat := 14
  /** The first slot tried each day (08:00) and the bound the slot stays below (20:00). */
  const FirstSlot: nat := 16
  const EndSlot: nat := 40
  /** The scan stops after a day that leaves at least this many suggestions. */
  const Enough: nat := 5

  /** One proposed session: `{ gymId, start }`, with `start` as day offset and time of day. */
  datatype Suggestion = Suggestion(gymId: Option<string>, dayOffset: nat, hour: nat, minute: nat)

  /** The half-hour slot a suggestion starts at. */
  function SlotOf(s: Suggestion): nat {
    2 * s.hour + s.minute / 30
  }

  /** `gymIds[0] ?? a.favorites[0]`: `None` stands for `undefined`. */
  function ChosenGym(gymIds: seq<string>, a: User): Option<string> {
    if |gymIds| > 0 then Some(gymIds[0])
    else if |a.favorites| > 0 then Some(a.favorites[0])
    else None
  }

  /** The Monday-based weekday of the day `d` days after a day whose `getDay()` is `today`. */
  function Weekday(today: int, d: nat): (w: nat)
    ensures w < 7
  {
    ((today + d) % 7 + 6) % 7
  }

  /** `bitsA[idx] && bitsB[idx]`: both flags are 1 (an index past the end reads as unset). */
  predicate BothFree(bitsA: seq<Bit>, bitsB: seq<Bit>, idx: nat) {
    idx < |bitsA| && idx < |bitsB| && bitsA[idx] == 1 && bitsB[idx] == 1
  }

  /** Whether slot `slot` of day `d` is one the scan tries and both users have free. */
  predicate CommonSlot(bitsA: seq<Bit>, bitsB: seq<Bit>, today: int, d: nat, slot: nat) {
    FirstSlot <= slot < EndSlot && slot % 2 == 0 && BothFree(bitsA, bitsB, Weekday(today, d) * 48 + slot)
  }

  /** The suggestion for slot `slot` of day `d`: it starts at `slot / 2` hours and `(slot % 2) * 30` minutes. */
  function At(gym: Option<string>, d: nat, slot: nat): Suggestion {
    Suggestion(gym, d, slot / 2, (slot % 2) * 30)
  }

  /** The suggestions of day `d` from the slots tried below `slot`, in slot order. */
  function SlotsBelow(bitsA: seq<Bit>, bitsB: seq<Bit>, today: int, gym: Option<string>, d: nat, slot: nat)
    : (r: seq<Suggestion>)
    requires FirstSlot <= slot && slot % 2 == 0
    decreases slot, d, bitsA
  {
    if slot == FirstSlot then []
    else
      SlotsBelow(bitsA, bitsB, today, gym, d, slot - 2)
      + (if CommonSlot(bitsA, bitsB, today, d, slot - 2) then [At(gym, d, slot - 2)] else [])
  }

  /** The suggestions of day `d`. */
  function Day(bitsA: seq<Bit>, bitsB: seq<Bit>, today: int, gym: Option<string>, d: nat): seq<Suggestion> {
    SlotsBelow(bitsA, bitsB, today, gym, d, EndSlot)
  }

  /** The suggestions of the first `k` days, day after day. */
  function Upto(bitsA: seq<Bit>, bitsB: seq<Bit>, today: int, gym: Option<string>, k: nat): seq<Suggestion>
    decreases k, bitsA
  {
    if k == 0 then [] else Upto(bitsA, bitsB, today, gym, k - 1) + Day(bitsA, bitsB, today, gym, k - 1)
  }

  /** How many days the scan finishes, looking from day count `k` on. */
  function ScanLength(bitsA: seq<Bit>, bitsB: seq<Bit>, today: int, gym: Option<string>, k: nat): (n: nat)
    requires 1 <= k <= Horizon
    ensures k <= n <= Horizon
    decreases Horizon - k, bitsA
  {
    if k == Horizon || |Upto(bitsA, bitsB, today, gym, k)| >= Enough then k
    else ScanLength(bitsA, bitsB, today, gym, k + 1)
  }

  /** The suggestions of the days the scan finishes. */
  function Scan(bitsA: seq<Bit>, bitsB: seq<Bit>, today: int, gym: Option<string>): seq<Suggestion> {
    Upto(bitsA, bitsB, today, gym, ScanLength(bitsA, bitsB, today, gym, 1))
  }

  /** `suggestSessions(a, b, gymIds)`, or the error decoding a mask raises. */
  function SessionsOf(a: User, b: User, gymIds: seq<string>, today: int): Result<seq<Suggestion>, DecodeError> {
    match DecodeBits(a.availabilityMask, WeekSlots)
    case Err(e) => Err(e)
    case Ok(bitsA) =>
      match DecodeBits(b.availabilityMask, WeekSlots)
      case Err(e) => Err(e)
      case Ok(bitsB) => Ok(Scan(bitsA, bitsB, today, ChosenGym(gymIds, a)))
  }

  /** `suggestSessions`: decodes both masks (either may throw), then scans the days. */
  method SuggestSessions(a: User, b: User, gymIds: seq<string>, today: int)
    returns (r: Result<seq<Suggestion>, DecodeError>)
    ensures r == SessionsOf(a, b, gymIds, today)
  {
    var da := Base64ToBits(a.availabilityMask, WeekSlots);
    if da.Err? {
      return Err(da.error);
    }
    var db := Base64ToBits(b.availabilityMask, WeekSlots);
    if db.Err? {
      return Err(db.error);
    }
    var suggestions := ScanDays(da.value, db.value, today, ChosenGym(gymIds, a));
    r := Ok(suggestions);
  }

  /** The day loop of `suggestSessions`, pushing each day's suggestions and leaving early. */
  method ScanDays(bitsA: seq<Bit>, bitsB: seq<Bit>, today: int, gym: Option<string>)
    returns (suggestions: seq<Suggestion>)
    ensures suggestions == Scan(bitsA, bitsB, today, gym)
  {
    suggestions := [];
    var dayOffset := 0;
    while dayOffset < Horizon
      invariant 0 <= dayOffset <= Horizon
      invariant suggestions == Upto(bitsA, bitsB, today, gym, dayOffset)
      invariant dayOffset == 0 || |suggestions| < Enough
    {
      var weekday := ((today + dayOffset) % 7 + 6) % 7;
      var day := ScanSlots(bitsA, bitsB, today, gym, dayOffset, weekday);
      suggestions := suggestions + day;
      if |suggestions| >= Enough {
        ScanLengthLeast(bitsA, bitsB, today, gym, dayOffset + 1);
        return;
      }
      dayOffset := dayOffset + 1;
    }
    ScanLengthLeast(bitsA, bitsB, today, gym, Horizon);
  }

  /** The slot loop of `suggestSessions` for day `dayOffset`, whose Monday-based weekday is `weekday`. */
  method ScanSlots(bitsA: seq<Bit>, bitsB: seq<Bit>, today: int, gym: Option<string>, dayOffset: nat, weekday: nat)
    returns (day: seq<Suggestion>)
    requires weekday == Weekday(today, dayOffset)
    ensures day == Day(bitsA, bitsB, today, gym, dayOffset)
  {
    day := [];
    var slot := FirstSlot;
    while slot < EndSlot
      invariant FirstSlot <= slot <= EndSlot && slot % 2 == 0
      invariant day == SlotsBelow(bitsA, bitsB, today, gym, dayOffset, slot)
    {
      var idx := weekday * 48 + slot;
      if idx < |bitsA| && idx < |bitsB| && bitsA[idx] == 1 && bitsB[idx] == 1 {
        day := day + [Suggestion(gym, dayOffset, slot / 2, (slot % 2) * 30)];
      }
      slot := slot + 2;
    }
  }

  // ---------------------------------------------------------------------------------------
  // Properties

  /**
   * The scan finishes exactly the days up to the first one that brings the count to 5, or all
   * 14: `j` is the scan length when the count before day `j` stayed below 5 and `j` reached 5
   * or is the horizon.
   */
  lemma ScanLengthLeast(bitsA: seq<Bit>, bitsB: seq<Bit>, today: int, gym: Option<string>, j: nat)
    requires 1 <= j <= Horizon
    requires j == 1 || |Upto(bitsA, bitsB, today, gym, j - 1)| < Enough
    requires j == Horizon || |Upto(bitsA, bitsB, today, gym, j)| >= Enough
    ensures ScanLength(bitsA, bitsB, today, gym, 1) == j
  {
    ScanLengthFrom(bitsA, bitsB, today, gym, 1, j);
  }

  /** Scanning more days only adds suggestions at the end. */
  lemma {:induction false} UptoGrows(bitsA: seq<Bit>, bitsB: seq<Bit>, today: int, gym: Option<string>,
                                     k: nat, k': nat)
    requires k <= k'
    ensures Upto(bitsA, bitsB, today, gym, k) <= Upto(bitsA, bitsB, today, gym, k')
    decreases k'
  {
    if k < k' {
      UptoGrows(bitsA, bitsB, today, gym, k, k' - 1);
    }
  }

  /** The induction behind `ScanLengthLeast`, from any start `i` not after `j`. */
  lemma {:induction false} ScanLengthFrom(bitsA: seq<Bit>, bitsB: seq<Bit>, today: int, gym: Option<string>,
                                          i: nat, j: nat)
    requires 1 <= i <= j <= Horizon
    requires i == j || |Upto(bitsA, bitsB, today, gym, j - 1)| < Enough
    requires j == Horizon || |Upto(bitsA, bitsB, today, gym, j)| >= Enough
    ensures ScanLength(bitsA, bitsB, today, gym, i) == j
    decreases j - i
  {
    if i < j {
      UptoGrows(bitsA, bitsB, today, gym, i, j - 1);
      ScanLengthFrom(bitsA, bitsB, today, gym, i + 1, j);
    }
  }

  /** Before the day the scan stops at, every count stayed below 5. */
  lemma {:induction false} ScanLengthBefore(bitsA: seq<Bit>, bitsB: seq<Bit>, today: int, gym: Option<string>,
                                            i: nat, k: nat)
    requires 1 <= i <= Horizon
    requires i <= k < ScanLength(bitsA, bitsB, today, gym, i)
    ensures |Upto(bitsA, bitsB, today, gym, k)| < Enough
    decreases k - i
  {
    if i < k {
      ScanLengthBefore(bitsA, bitsB, today, gym, i + 1, k);
    }
  }

  /** At the day the scan stops at, the count reached 5 unless the whole horizon was scanned. */
  lemma {:induction false} ScanLengthStop(bitsA: seq<Bit>, bitsB: seq<Bit>, today: int, gym: Option<string>,
                                          i: nat)
    requires 1 <= i <= Horizon
    ensures ScanLength(bitsA, bitsB, today, gym, i) == Horizon ||
      |Upto(bitsA, bitsB, today, gym, ScanLength(bitsA, bitsB, today, gym, i))| >= Enough
    decreases Horizon - i
  {
    if i < Horizon && |Upto(bitsA, bitsB, today, gym, i)| < Enough {
      ScanLengthStop(bitsA, bitsB, today, gym, i + 1);
    }
  }

  /** A day's suggestions below `slot` are exactly its common slots below `slot`. */
  lemma {:induction false} SlotsBelowMembers(bitsA: seq<Bit>, bitsB: seq<Bit>, today: int, gym: Option<string>,
                                             d: nat, slot: nat, s: Suggestion)
    requires FirstSlot <= slot && slot % 2 == 0
    ensures s in SlotsBelow(bitsA, bitsB, today, gym, d, slot) <==>
      exists t :: FirstSlot <= t < slot && CommonSlot(bitsA, bitsB, today, d, t) && s == At(gym, d, t)
    decreases slot
  {
    if slot > FirstSlot {
      SlotsBelowMembers(bitsA, bitsB, today, gym, d, slot - 2, s);
    }
  }

  /** Whether the suggestions start at strictly increasing slots. */
  predicate InSlotOrder(r: seq<Suggestion>) {
    forall i, j :: 0 <= i < j < |r| ==> SlotOf(r[i]) < SlotOf(r[j])
  }

  /** A day's suggestions are in strictly increasing time and are all on that day. */
  lemma {:induction false} SlotsBelowOrdered(bitsA: seq<Bit>, bitsB: seq<Bit>, today: int, gym: Option<string>,
                                             d: nat, slot: nat)
    requires FirstSlot <= slot && slot % 2 == 0
    ensures forall s :: s in SlotsBelow(bitsA, bitsB, today, gym, d, slot) ==>
      s.dayOffset == d && s.gymId == gym && SlotOf(s) < slot
    ensures InSlotOrder(SlotsBelow(bitsA, bitsB, today, gym, d, slot))
    decreases slot
  {
    if slot > FirstSlot {
      SlotsBelowOrdered(bitsA, bitsB, today, gym, d, slot - 2);
      var p := SlotsBelow(bitsA, bitsB, today, gym, d, slot - 2);
      var q := if CommonSlot(bitsA, bitsB, today, d, slot - 2) then [At(gym, d, slot - 2)] else [];
      var r := p + q;
      assert r == SlotsBelow(bitsA, bitsB, today, gym, d, slot);
      SlotOfAt(gym, d, slot - 2);
      forall i, j | 0 <= i < j < |r| ensures SlotOf(r[i]) < SlotOf(r[j]) {
        if j >= |p| {
          assert r[j] == At(gym, d, slot - 2) && r[i] == p[i] && p[i] in p;
        } else {
          assert r[i] == p[i] && r[j] == p[j];
        }
      }
    }
  }

  /** The suggestion for a slot starts at that slot, on that day, at that gym. */
  lemma SlotOfAt(gym: Option<string>, d: nat, t: nat)
    ensures SlotOf(At(gym, d, t)) == t && At(gym, d, t).dayOffset == d && At(gym, d, t).gymId == gym
  {
    assert ((t % 2) * 30) / 30 == t % 2;
  }

  /** A day has at most one suggestion per slot tried: twelve. */
  lemma {:induction false} SlotsBelowLength(bitsA: seq<Bit>, bitsB: seq<Bit>, today: int, gym: Option<string>,
                                            d: nat, slot: nat)
    requires FirstSlot <= slot && slot % 2 == 0
    ensures |SlotsBelow(bitsA, bitsB, today, gym, d, slot)| <= (slot - FirstSlot) / 2
    decreases slot
  {
    if slot > FirstSlot {
      SlotsBelowLength(bitsA, bitsB, today, gym, d, slot - 2);
    }
  }

  /** A day has at most twelve suggestions. */
  lemma DayLength(bitsA: seq<Bit>, bitsB: seq<Bit>, today: int, gym: Option<string>, d: nat)
    ensures |Day(bitsA, bitsB, today, gym, d)| <= 12
  {
    SlotsBelowLength(bitsA, bitsB, today, gym, d, EndSlot);
  }

  /** Whether a suggestion comes strictly before another: earlier day, or same day and earlier slot. */
  predicate Before(x: Suggestion, y: Suggestion) {
    x.dayOffset < y.dayOffset || (x.dayOffset == y.dayOffset && SlotOf(x) < SlotOf(y))
  }

  /** Whether the suggestions are in strictly increasing day-then-slot order. */
  predicate Chronological(r: seq<Suggestion>) {
    forall i, j :: 0 <= i < j < |r| ==> Before(r[i], r[j])
  }

  /** The first `k` days give suggestions in day-then-slot order, all on those days. */
  lemma {:induction false} UptoOrdered(bitsA: seq<Bit>, bitsB: seq<Bit>, today: int, gym: Option<string>, k: nat)
    ensures forall s :: s in Upto(bitsA, bitsB, today, gym, k) ==> s.dayOffset < k && s.gymId == gym
    ensures Chronological(Upto(bitsA, bitsB, today, gym, k))
  {
    if k > 0 {
      UptoOrdered(bitsA, bitsB, today, gym, k - 1);
      SlotsBelowOrdered(bitsA, bitsB, today, gym, k - 1, EndSlot);
      var p, q := Upto(bitsA, bitsB, today, gym, k - 1), Day(bitsA, bitsB, today, gym, k - 1);
      var r := p + q;
      assert r == Upto(bitsA, bitsB, today, gym, k);
      forall i, j | 0 <= i < j < |r| ensures Before(r[i], r[j]) {
        if j < |p| {
          assert r[i] == p[i] && r[j] == p[j];
        } else if i < |p| {
          assert r[i] == p[i] && p[i] in p;
          assert r[j] == q[j - |p|] && q[j - |p|] in q;
        } else {
          assert r[i] == q[i - |p|] && r[j] == q[j - |p|];
        }
      }
    }
  }

  /** The first `k` days give exactly the common slots of those days, each once, for the chosen gym. */
  lemma {:induction false} UptoMembers(bitsA: seq<Bit>, bitsB: seq<Bit>, today: int, gym: Option<string>,
                                       k: nat, s: Suggestion)
    ensures s in Upto(bitsA, bitsB, today, gym, k) <==>
      exists d, t :: 0 <= d < k && FirstSlot <= t < EndSlot && CommonSlot(bitsA, bitsB, today, d, t)
                     && s == At(gym, d, t)
  {
    if k > 0 {
      var p, q := Upto(bitsA, bitsB, today, gym, k - 1), Day(bitsA, bitsB, today, gym, k - 1);
      assert Upto(bitsA, bitsB, today, gym, k) == p + q;
      UptoMembers(bitsA, bitsB, today, gym, k - 1, s);
      SlotsBelowMembers(bitsA, bitsB, today, gym, k - 1, EndSlot, s);
      if s in p {
        var d, t :| 0 <= d < k - 1 && FirstSlot <= t < EndSlot && CommonSlot(bitsA, bitsB, today, d, t)
                    && s == At(gym, d, t);
        assert 0 <= d < k;
      } else if s in q {
        var t :| FirstSlot <= t < EndSlot && CommonSlot(bitsA, bitsB, today, k - 1, t) && s == At(gym, k - 1, t);
        assert 0 <= k - 1 < k;
      } else {
        forall d, t | 0 <= d < k && FirstSlot <= t < EndSlot && CommonSlot(bitsA, bitsB, today, d, t)
          ensures s != At(gym, d, t)
        {
          if d == k - 1 {
            assert !(FirstSlot <= t < EndSlot && CommonSlot(bitsA, bitsB, today, k - 1, t) && s == At(gym, k - 1, t));
          }
        }
      }
    }
  }

  /** The first `k` days give at most twelve suggestions each. */
  lemma {:induction false} UptoLength(bitsA: seq<Bit>, bitsB: seq<Bit>, today: int, gym: Option<string>, k: nat)
    ensures |Upto(bitsA, bitsB, today, gym, k)| <= 12 * k
  {
    if k > 0 {
      UptoLength(bitsA, bitsB, today, gym, k - 1);
      SlotsBelowLength(bitsA, bitsB, today, gym, k - 1, EndSlot);
    }
  }

  /**
   * Whether `s` is a slot the scan tries (even, from 16 to 38) on one of the next 14 days, at
   * which both users are free at index `weekday * 48 + slot`, for the chosen gym.
   */
  predicate IsCommon(bitsA: seq<Bit>, bitsB: seq<Bit>, today: int, gym: Option<string>, s: Suggestion) {
    && s.dayOffset < Horizon
    && s.gymId == gym
    && SlotOf(s) % 2 == 0 && FirstSlot <= SlotOf(s) < EndSlot
    && BothFree(bitsA, bitsB, Weekday(today, s.dayOffset) * 48 + SlotOf(s))
  }

  /** Every suggestion of the first `k` days, within the horizon, is a common slot. */
  lemma UptoValid(bitsA: seq<Bit>, bitsB: seq<Bit>, today: int, gym: Option<string>, k: nat)
    requires k <= Horizon
    ensures forall s :: s in Upto(bitsA, bitsB, today, gym, k) ==> IsCommon(bitsA, bitsB, today, gym, s)
  {
    forall s | s in Upto(bitsA, bitsB, today, gym, k) ensures IsCommon(bitsA, bitsB, today, gym, s) {
      UptoMembers(bitsA, bitsB, today, gym, k, s);
      var d, t :| 0 <= d < k && FirstSlot <= t < EndSlot && CommonSlot(bitsA, bitsB, today, d, t) && s == At(gym, d, t);
      SlotOfAt(gym, d, t);
    }
  }

  /** Each suggestion of the scan is a common slot of the two masks, in day-then-slot order. */
  lemma ScanValid(bitsA: seq<Bit>, bitsB: seq<Bit>, today: int, gym: Option<string>)
    ensures forall s :: s in Scan(bitsA, bitsB, today, gym) ==> IsCommon(bitsA, bitsB, today, gym, s)
    ensures Chronological(Scan(bitsA, bitsB, today, gym))
  {
    var n := ScanLength(bitsA, bitsB, today, gym, 1);
    UptoValid(bitsA, bitsB, today, gym, n);
    UptoOrdered(bitsA, bitsB, today, gym, n);
  }

  /**
   * The scan returns, for some number `n` of days, exactly the common slots of the first `n`
   * days: `n` is 14, or the first day count at which the total reached 5.
   */
  lemma ScanComplete(bitsA: seq<Bit>, bitsB: seq<Bit>, today: int, gym: Option<string>)
    ensures exists n ::
        && 1 <= n <= Horizon
        && Scan(bitsA, bitsB, today, gym) == Upto(bitsA, bitsB, today, gym, n)
        && (forall k :: 1 <= k < n ==> |Upto(bitsA, bitsB, today, gym, k)| < Enough)
        && (n == Horizon || |Upto(bitsA, bitsB, today, gym, n)| >= Enough)
        && (forall d, t :: 0 <= d < n && CommonSlot(bitsA, bitsB, today, d, t) ==>
              At(gym, d, t) in Upto(bitsA, bitsB, today, gym, n))
  {
    var n := ScanLength(bitsA, bitsB, today, gym, 1);
    ScanLengthStop(bitsA, bitsB, today, gym, 1);
    forall k | 1 <= k < n ensures |Upto(bitsA, bitsB, today, gym, k)| < Enough {
      ScanLengthBefore(bitsA, bitsB, today, gym, 1, k);
    }
    forall d, t | 0 <= d < n && CommonSlot(bitsA, bitsB, today, d, t)
      ensures At(gym, d, t) in Upto(bitsA, bitsB, today, gym, n)
    {
      UptoMembers(bitsA, bitsB, today, gym, n, At(gym, d, t));
    }
  }

  /**
   * The scan holds at most 4 + 12 = 16 suggestions: fewer than 5 before its last day and at
   * most 12 on it. So it may hold more than 5.
   */
  lemma ScanBound(bitsA: seq<Bit>, bitsB: seq<Bit>, today: int, gym: Option<string>)
    ensures |Scan(bitsA, bitsB, today, gym)| <= 16
  {
    ScanLengthLast(bitsA, bitsB, today, gym);
    UptoBound(bitsA, bitsB, today, gym, ScanLength(bitsA, bitsB, today, gym, 1));
  }

  /** A count still below 5 after `k - 1` days is at most 16 after day `k`. */
  lemma UptoBound(bitsA: seq<Bit>, bitsB: seq<Bit>, today: int, gym: Option<string>, k: nat)
    requires k >= 1 && |Upto(bitsA, bitsB, today, gym, k - 1)| < Enough
    ensures |Upto(bitsA, bitsB, today, gym, k)| <= 16
  {
    UptoStep(bitsA, bitsB, today, gym, k);
    DayLength(bitsA, bitsB, today, gym, k - 1);
  }

  /** Before the last day the scan finishes, the count is still below 5. */
  lemma ScanLengthLast(bitsA: seq<Bit>, bitsB: seq<Bit>, today: int, gym: Option<string>)
    ensures |Upto(bitsA, bitsB, today, gym, ScanLength(bitsA, bitsB, today, gym, 1) - 1)| < Enough
  {
    var n := ScanLength(bitsA, bitsB, today, gym, 1);
    if n > 1 {
      ScanLengthBefore(bitsA, bitsB, today, gym, 1, n - 1);
    }
  }

  /** One more day adds that day's suggestions to the count. */
  lemma UptoStep(bitsA: seq<Bit>, bitsB: seq<Bit>, today: int, gym: Option<string>, k: nat)
    requires k > 0
    ensures |Upto(bitsA, bitsB, today, gym, k)| ==
      |Upto(bitsA, bitsB, today, gym, k - 1)| + |Day(bitsA, bitsB, today, gym, k - 1)|
  {
  }

  /** The scan is empty exactly when the two users share no tried slot in the whole horizon. */
  lemma ScanEmpty(bitsA: seq<Bit>, bitsB: seq<Bit>, today: int, gym: Option<string>)
    ensures Scan(bitsA, bitsB, today, gym) == [] <==>
      forall d, t :: 0 <= d < Horizon ==> !CommonSlot(bitsA, bitsB, today, d, t)
  {
    var n := ScanLength(bitsA, bitsB, today, gym, 1);
    var r := Upto(bitsA, bitsB, today, gym, n);
    ScanLengthStop(bitsA, bitsB, today, gym, 1);
    if r == [] {
      assert n == Horizon;
      forall d, t | 0 <= d < Horizon ensures !CommonSlot(bitsA, bitsB, today, d, t) {
        UptoMembers(bitsA, bitsB, today, gym, n, At(gym, d, t));
      }
    } else {
      assert r[0] in r;
      UptoMembers(bitsA, bitsB, today, gym, n, r[0]);
      var d, t :| 0 <= d < n && FirstSlot <= t < EndSlot && CommonSlot(bitsA, bitsB, today, d, t)
                  && r[0] == At(gym, d, t);
      assert 0 <= d < Horizon && CommonSlot(bitsA, bitsB, today, d, t);
    }
  }

  /**
   * Every suggestion of a successful search is a common free slot of the two decoded masks
   * for the chosen gym, in day-then-slot order, and the search lists every common slot of the
   * days it scans (see `ScanValid` and `ScanComplete`).
   */
  lemma SessionsValid(a: User, b: User, gymIds: seq<string>, today: int)
    requires SessionsOf(a, b, gymIds, today).Ok?
    ensures var bitsA, bitsB := DecodeBits(a.availabilityMask, WeekSlots).value, DecodeBits(b.availabilityMask, WeekSlots).value;
      && (forall s :: s in SessionsOf(a, b, gymIds, today).value ==> IsCommon(bitsA, bitsB, today, ChosenGym(gymIds, a), s))
      && Chronological(SessionsOf(a, b, gymIds, today).value)
      && |SessionsOf(a, b, gymIds, today).value| <= 16
  {
    var bitsA, bitsB := DecodeBits(a.availabilityMask, WeekSlots).value, DecodeBits(b.availabilityMask, WeekSlots).value;
    ScanValid(bitsA, bitsB, today, ChosenGym(gymIds, a));
    ScanBound(bitsA, bitsB, today, ChosenGym(gymIds, a));
  }

  /** The chosen gym is the first requested one, else the first user's first favourite, else none. */
  lemma ChosenGymCases(gymIds: seq<string>, a: User)
    ensures ChosenGym(gymIds, a).Some? <==> |gymIds| > 0 || |a.favorites| > 0
    ensures |gymIds| > 0 ==> ChosenGym(gymIds, a) == Some(gymIds[0])
    ensures |gymIds| == 0 && |a.favorites| > 0 ==> ChosenGym(gymIds, a) == Some(a.favorites[0])
  {
  }

  /** The search fails exactly when one of the two masks does not decode. */
  lemma SessionsFail(a: User, b: User, gymIds: seq<string>, today: int)
    ensures SessionsOf(a, b, gymIds, today).Err? <==>
      DecodeBits(a.availabilityMask, WeekSlots).Err? || DecodeBits(b.availabilityMask, WeekSlots).Err?
  {
  }
}
