/**
 * The level score (`levelScore`) and the aggregate compatibility score (`matchScore`):
 * 0.4 times the schedule similarity, plus 0.4 times the proximity score, plus 0.2 times the
 * level score.
 */
module Scoring {
  import opened Wrappers
  import opened Base64
  import opened Availability
  import opened Entities
  import opened Proximity

  /** `u?.level ?? 1`: a missing level counts as 1. */
  function LevelOf(u: User): int {
    if u.level.Some? then u.level.value else 1
  }

  /** `Math.abs` on integers. */
  function Abs(x: int): nat {
    if x < 0 then -x else x
  }

  /** The level difference, capped at 3 as the lookup does. */
  function CappedDiff(a: User, b: User): (d: nat)
    ensures d <= 3
  {
    var diff := Abs(LevelOf(a) - LevelOf(b));
    if diff < 3 then diff else 3
  }

  /** `levelScore`: the table [1.0, 0.66, 0.33, 0.0] read at the capped difference. */
  function LevelScore(a: User, b: User): real {
    [1.0, 0.66, 0.33, 0.0][CappedDiff(a, b)]
  }

  /**
   * The level score is 1.0, 0.66, 0.33 for a level difference of 0, 1, 2 and 0.0 for any
   * larger difference; it is symmetric, lies in [0, 1] and never grows with the difference.
   */
  lemma LevelScoreTable(a: User, b: User)
    ensures var diff := Abs(LevelOf(a) - LevelOf(b));
      && (diff == 0 ==> LevelScore(a, b) == 1.0)
      && (diff == 1 ==> LevelScore(a, b) == 0.66)
      && (diff == 2 ==> LevelScore(a, b) == 0.33)
      && (diff >= 3 ==> LevelScore(a, b) == 0.0)
    ensures LevelScore(a, b) == LevelScore(b, a)
    ensures 0.0 <= LevelScore(a, b) <= 1.0
  {
  }

  /** A closer pair of levels never scores less than a more distant one. */
  lemma LevelScoreMonotone(a: User, b: User, c: User, d: User)
    requires Abs(LevelOf(a) - LevelOf(b)) <= Abs(LevelOf(c) - LevelOf(d))
    ensures LevelScore(c, d) <= LevelScore(a, b)
  {
  }

  /** A missing level behaves exactly like level 1. */
  lemma MissingLevelIsOne(a: User, b: User)
    requires a.level.None?
    ensures LevelScore(a, b) == LevelScore(a.(level := Some(1)), b)
  {
  }

  /** The weighted sum of the three component scores. */
  function Weighted(schedule: real, gym: real, level: real): real {
    0.4 * schedule + 0.4 * gym + 0.2 * level
  }

  /**
   * `matchScore(a, b)`: fails with the decoding error when either availability mask is not
   * valid base64 (the exception `atob` raises), otherwise the weighted sum.
   */
  function MatchScore(gyms: seq<Gym>, km: Km, a: User, b: User): Result<real, DecodeError> {
    match MaskSimilarity(a.availabilityMask, b.availabilityMask)
    case Err(e) => Err(e)
    case Ok(schedule) => Ok(Weighted(schedule, GymScoreOf(gyms, a, b, km), LevelScore(a, b)))
  }

  /** The score exists exactly when both masks decode, and then lies in [0, 1]. */
  lemma MatchScoreBounds(gyms: seq<Gym>, km: Km, a: User, b: User)
    ensures MatchScore(gyms, km, a, b).Ok? <==>
      DecodeBits(a.availabilityMask, WeekSlots).Ok? && DecodeBits(b.availabilityMask, WeekSlots).Ok?
    ensures MatchScore(gyms, km, a, b).Ok? ==> 0.0 <= MatchScore(gyms, km, a, b).value <= 1.0
  {
    MaskSimilarityFacts(a.availabilityMask, b.availabilityMask);
    GymScoreCases(gyms, a, b, km);
    LevelScoreTable(a, b);
  }

  /** With a symmetric distance, the score of a pair does not depend on its order. */
  lemma MatchScoreSymmetric(gyms: seq<Gym>, km: Km, a: User, b: User)
    requires SymmetricKm(km)
    requires MatchScore(gyms, km, a, b).Ok?
    ensures MatchScore(gyms, km, b, a) == MatchScore(gyms, km, a, b)
  {
    MaskSimilarityFacts(a.availabilityMask, b.availabilityMask);
    GymScoreSymmetric(gyms, a, b, km);
    LevelScoreTable(a, b);
  }

  /**
   * The best possible match: identical non-empty masks, a shared favourite naming a known
   * gym and equal levels give exactly 1.
   */
  lemma PerfectMatch(gyms: seq<Gym>, km: Km, a: User, b: User, id: string)
    requires DecodeBits(a.availabilityMask, WeekSlots).Ok?
    requires DecodeBits(b.availabilityMask, WeekSlots) == DecodeBits(a.availabilityMask, WeekSlots)
    requires !AllZero(DecodeBits(a.availabilityMask, WeekSlots).value)
    requires id in a.favorites && id in b.favorites && FindGym(gyms, id).Some?
    requires LevelOf(a) == LevelOf(b)
    ensures MatchScore(gyms, km, a, b) == Ok(1.0)
  {
    JaccardSelf(DecodeBits(a.availabilityMask, WeekSlots).value);
    SharedFavoriteScoresOne(gyms, a, b, km, id);
  }
}
