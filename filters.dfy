/**
 * The facility cascade filter (`getFilteredGyms`) and the partner search of the search page:
 * users filtered by level, location, chain, a free-text place and a weekday, then scored with
 * `matchScore` and sorted by descending score.
 */
module Filters {
  import opened Wrappers
  import opened Base64
  import opened Availability
  import opened Entities
  import opened Proximity
  import opened Scoring
  import opened Ranking
  import opened Seqs

  // ---------------------------------------------------------------------------------------
  // getFilteredGyms

  /** Whether a facility passes the cascade: an absent or empty criterion does not filter. */
  predicate GymPasses(g: Gym, chainId: Option<string>, regionCode: Option<string>,
                      departmentCode: Option<string>, city: Option<string>) {
    && (!Truthy(chainId) || g.chainId == chainId.value)
    && (!Truthy(regionCode) || g.regionCode == regionCode.value)
    && (!Truthy(departmentCode) || g.departmentCode == departmentCode.value)
    && (!Truthy(city) || g.city == city.value)
  }

  /** `getFilteredGyms({chainId, regionCode, departmentCode, city})`: the facilities that pass, in order. */
  function FilteredGyms(gyms: seq<Gym>, chainId: Option<string>, regionCode: Option<string>,
                        departmentCode: Option<string>, city: Option<string>): (r: seq<Gym>)
    ensures |r| <= |gyms|
    ensures forall g :: g in r <==> g in gyms && GymPasses(g, chainId, regionCode, departmentCode, city)
  {
    if gyms == [] then []
    else
      assert forall g :: g in gyms <==> g == gyms[0] || g in gyms[1..];
      (if GymPasses(gyms[0], chainId, regionCode, departmentCode, city) then [gyms[0]] else [])
        + FilteredGyms(gyms[1..], chainId, regionCode, departmentCode, city)
  }

  /** Filtering keeps the catalogue order: it distributes over concatenation. */
  lemma {:induction false} FilteredGymsAppend(xs: seq<Gym>, ys: seq<Gym>, chainId: Option<string>,
                                              regionCode: Option<string>, departmentCode: Option<string>,
                                              city: Option<string>)
    ensures FilteredGyms(xs + ys, chainId, regionCode, departmentCode, city) ==
      FilteredGyms(xs, chainId, regionCode, departmentCode, city) + FilteredGyms(ys, chainId, regionCode, departmentCode, city)
  {
    if xs == [] {
      AppendNil(ys);
      AppendNil(FilteredGyms(ys, chainId, regionCode, departmentCode, city));
    } else {
      AppendParts(xs, ys);
      FilteredGymsAppend(xs[1..], ys, chainId, regionCode, departmentCode, city);
      var head := if GymPasses(xs[0], chainId, regionCode, departmentCode, city) then [xs[0]] else [];
      AppendAssoc(head, FilteredGyms(xs[1..], chainId, regionCode, departmentCode, city),
                  FilteredGyms(ys, chainId, regionCode, departmentCode, city));
    }
  }

  /** With no criterion every facility is kept. */
  lemma {:induction false} FilteredGymsNone(gyms: seq<Gym>)
    ensures FilteredGyms(gyms, None, None, None, None) == gyms
  {
    if gyms != [] {
      FilteredGymsNone(gyms[1..]);
    }
  }

  /**
   * Narrowing by city acts on the facilities the other criteria kept, as the city list of the
   * cascade (`getCitiesFor`) computes them.
   */
  lemma {:induction false} FilteredGymsByCity(gyms: seq<Gym>, chainId: Option<string>, regionCode: Option<string>,
                                              departmentCode: Option<string>, city: Option<string>)
    ensures FilteredGyms(gyms, chainId, regionCode, departmentCode, city) ==
      FilteredGyms(FilteredGyms(gyms, chainId, regionCode, departmentCode, None), None, None, None, city)
  {
    if gyms != [] {
      var g := gyms[0];
      FilteredGymsByCity(gyms[1..], chainId, regionCode, departmentCode, city);
      var head := if GymPasses(g, chainId, regionCode, departmentCode, None) then [g] else [];
      FilteredGymsAppend(head, FilteredGyms(gyms[1..], chainId, regionCode, departmentCode, None), None, None, None, city);
      ConsParts(g, []);
      assert FilteredGyms(head, None, None, None, city)
          == if GymPasses(g, chainId, regionCode, departmentCode, city) then [g] else [];
    }
  }

  // ---------------------------------------------------------------------------------------
  // The partner search

  /**
   * The search form: `level` is `None` for "all" and otherwise the selected level; `day` is the
   * selected Monday-based weekday, or -1 for "all"; the location and chain criteria are the
   * selected codes, empty for "all"; `precision` is the free text as typed.
   */
  datatype Query = Query(
    level: Option<int>,
    day: int,
    chainId: string,
    regionCode: string,
    departmentCode: string,
    city: string,
    precision: string)

  /** Whether `needle` occurs in `hay` (`String.prototype.includes`). */
  predicate Contains(hay: string, needle: string) {
    exists i :: 0 <= i <= |hay| - |needle| && needle <= hay[i..]
  }

  /** Whether one of the user's favourites is a known facility satisfying `p`. */
  predicate FavoriteWith(gyms: seq<Gym>, u: User, p: Gym -> bool) {
    exists i :: 0 <= i < |gyms| && gyms[i].id in u.favorites && p(gyms[i])
  }

  /**
   * The criteria decided on the profile alone, in the order the filter applies them: level,
   * region, department, city, chain of a favourite facility, and the place text (compared
   * after `norm`, the accent- and case-folding normaliser) in a favourite's "name city".
   */
  predicate ProfileMatch(q: Query, gyms: seq<Gym>, norm: string -> string, u: User) {
    && (q.level.None? || u.level == Some(q.level.value))
    && (q.regionCode == "" || u.regionCode == Some(q.regionCode))
    && (q.departmentCode == "" || u.departmentCode == Some(q.departmentCode))
    && (q.city == "" || u.city == Some(q.city))
    && (q.chainId == "" || FavoriteWith(gyms, u, (g: Gym) => g.chainId == q.chainId))
    && (norm(q.precision) == "" ||
        FavoriteWith(gyms, u, (g: Gym) => Contains(norm(g.name + " " + g.city), norm(q.precision))))
  }

  /** `bits.slice(day * 48, (day + 1) * 48)` for a day that is not negative. */
  function DaySlice(bits: seq<Bit>, day: nat): (r: seq<Bit>)
    ensures |r| <= 48
  {
    var lo := if day * 48 < |bits| then day * 48 else |bits|;
    var hi := if (day + 1) * 48 < |bits| then (day + 1) * 48 else |bits|;
    bits[lo..hi]
  }

  /** Whether the user is free at some half hour of `day`. */
  predicate HasDay(bits: seq<Bit>, day: nat) {
    1 in DaySlice(bits, day)
  }

  /** On a week mask, weekday `day` (0 to 6) has a free half hour at one of its 48 positions; later days have none. */
  lemma HasDayWeek(bits: seq<Bit>, day: nat)
    requires |bits| == WeekSlots
    ensures day < 7 ==> (HasDay(bits, day) <==> exists k :: day * 48 <= k < day * 48 + 48 && bits[k] == 1)
    ensures day >= 7 ==> !HasDay(bits, day)
  {
    if day < 7 {
      var r := DaySlice(bits, day);
      assert |r| == 48;
      assert forall k :: day * 48 <= k < day * 48 + 48 ==> bits[k] == r[k - day * 48];
    }
  }

  /** Whether a user is kept: the profile criteria and, when a day is selected, a free half hour on it. */
  predicate Selected(q: Query, gyms: seq<Gym>, norm: string -> string, u: User) {
    && ProfileMatch(q, gyms, norm, u)
    && (q.day >= 0 ==>
          DecodeBits(u.availabilityMask, WeekSlots).Ok? && HasDay(DecodeBits(u.availabilityMask, WeekSlots).value, q.day))
  }

  /** The filter callback: fails when a day is selected and the mask of a user still in the running does not decode. */
  function Keep(q: Query, gyms: seq<Gym>, norm: string -> string, u: User): (r: Result<bool, DecodeError>)
    ensures r.Ok? <==> !ProfileMatch(q, gyms, norm, u) || q.day < 0 || DecodeBits(u.availabilityMask, WeekSlots).Ok?
    ensures r.Ok? ==> (r.value <==> Selected(q, gyms, norm, u))
  {
    if !ProfileMatch(q, gyms, norm, u) then Ok(false)
    else if q.day >= 0 then
      match DecodeBits(u.availabilityMask, WeekSlots)
      case Err(e) => Err(e)
      case Ok(bits) => Ok(HasDay(bits, q.day))
    else Ok(true)
  }

  /** `state.users.filter(...)`: the users kept, in order, or the first decoding error. */
  function FilterUsers(q: Query, gyms: seq<Gym>, norm: string -> string, users: seq<User>)
    : (r: Result<seq<User>, DecodeError>)
    ensures r.Ok? <==> forall i :: 0 <= i < |users| ==> Keep(q, gyms, norm, users[i]).Ok?
    ensures r.Ok? ==> forall u :: u in r.value <==> u in users && Selected(q, gyms, norm, u)
  {
    if users == [] then Ok([])
    else
      assert forall u :: u in users <==> u == users[0] || u in users[1..];
      assert forall i :: 1 <= i < |users| ==> users[i] == users[1..][i - 1];
      match Keep(q, gyms, norm, users[0])
      case Err(e) => Err(e)
      case Ok(keep) =>
        match FilterUsers(q, gyms, norm, users[1..])
        case Err(e) =>
          assert exists i :: 1 <= i < |users| && Keep(q, gyms, norm, users[i]).Err? by {
            var i :| 0 <= i < |users| - 1 && Keep(q, gyms, norm, users[1..][i]).Err?;
            assert users[1..][i] == users[i + 1];
          }
          Err(e)
        case Ok(rest) => Ok((if keep then [users[0]] else []) + rest)
  }

  /**
   * The kept users keep the order of the user list: filtering distributes over
   * concatenation, and the first failing callback decides the error.
   */
  lemma {:induction false} FilterUsersAppend(q: Query, gyms: seq<Gym>, norm: string -> string,
                                             xs: seq<User>, ys: seq<User>)
    ensures FilterUsers(q, gyms, norm, xs + ys) ==
      match FilterUsers(q, gyms, norm, xs)
      case Err(e) => Err(e)
      case Ok(a) =>
        match FilterUsers(q, gyms, norm, ys)
        case Err(e) => Err(e)
        case Ok(b) => Ok(a + b)
  {
    if xs == [] {
      AppendNil(ys);
      if FilterUsers(q, gyms, norm, ys).Ok? {
        AppendNil(FilterUsers(q, gyms, norm, ys).value);
      }
    } else {
      AppendParts(xs, ys);
      FilterUsersAppend(q, gyms, norm, xs[1..], ys);
      var k := Keep(q, gyms, norm, xs[0]);
      if k.Ok? && FilterUsers(q, gyms, norm, xs[1..]).Ok? && FilterUsers(q, gyms, norm, ys).Ok? {
        var head := if k.value then [xs[0]] else [];
        AppendAssoc(head, FilterUsers(q, gyms, norm, xs[1..]).value, FilterUsers(q, gyms, norm, ys).value);
      }
    }
  }

  /** The search: the kept users, each scored against the signed-in user `me`, sorted by descending score. */
  function Search(gyms: seq<Gym>, km: Km, me: User, users: seq<User>, q: Query, norm: string -> string)
    : Result<seq<Recommendation>, DecodeError>
  {
    match FilterUsers(q, gyms, norm, users)
    case Err(e) => Err(e)
    case Ok(kept) =>
      match ScoreAll(Scorer(gyms, km, me), kept)
      case Err(e) => Err(e)
      case Ok(scored) => Ok(SortByScore(scored))
  }

  /**
   * The search succeeds exactly when every mask it decodes is valid: the mask of each user
   * still in the running when a day is selected, and those of `me` and of each kept user
   * for the score.
   */
  lemma SearchFail(gyms: seq<Gym>, km: Km, me: User, users: seq<User>, q: Query, norm: string -> string)
    ensures Search(gyms, km, me, users, q, norm).Ok? <==>
      && (forall u :: u in users && ProfileMatch(q, gyms, norm, u) && q.day >= 0 ==>
            DecodeBits(u.availabilityMask, WeekSlots).Ok?)
      && (forall u :: u in users && Selected(q, gyms, norm, u) ==> MatchScore(gyms, km, me, u).Ok?)
  {
    var f := FilterUsers(q, gyms, norm, users);
    if f.Ok? {
      var kept := f.value;
      assert forall i :: 0 <= i < |kept| ==> kept[i] in kept;
    } else {
      var i :| 0 <= i < |users| && Keep(q, gyms, norm, users[i]).Err?;
      assert users[i] in users;
    }
  }

  /**
   * A successful search lists exactly the selected users, each with its match score against
   * `me`, by non-increasing score, users of equal score in the order of the user list.
   */
  lemma SearchResults(gyms: seq<Gym>, km: Km, me: User, users: seq<User>, q: Query, norm: string -> string)
    requires Search(gyms, km, me, users, q, norm).Ok?
    ensures forall r :: r in Search(gyms, km, me, users, q, norm).value <==>
      r.user in users && Selected(q, gyms, norm, r.user) && MatchScore(gyms, km, me, r.user) == Ok(r.score)
    ensures NonIncreasing(Search(gyms, km, me, users, q, norm).value)
    ensures forall v ::
              WithScore(Search(gyms, km, me, users, q, norm).value, v) ==
              WithScore(ScoreAll(Scorer(gyms, km, me), FilterUsers(q, gyms, norm, users).value).value, v)
  {
    var kept := FilterUsers(q, gyms, norm, users).value;
    var score := Scorer(gyms, km, me);
    var scored := ScoreAll(score, kept).value;
    assert Search(gyms, km, me, users, q, norm).value == SortByScore(scored);
    SortByScoreSorted(scored);
    forall v ensures WithScore(SortByScore(scored), v) == WithScore(scored, v) {
      SortByScoreStable(scored, v);
    }
    forall r ensures r in SortByScore(scored) <==> r.user in kept && score(r.user) == Ok(r.score) {
      ScoredMembers(score, kept, r);
    }
  }
}
