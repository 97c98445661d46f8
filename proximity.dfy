/**
 * The facility proximity score (`gymScore`): the best rule-ladder score over every pair of
 * the two users' resolved favourite gyms, with a fallback to the profiles' city and
 * department when that best is exactly 0.
 *
 * The great-circle distance itself is floating-point trigonometry and is not modelled: `km`
 * stands for the haversine formula applied to four present coordinates
 * (lat1, lon1, lat2, lon2). The guard that returns 10 km when a coordinate is missing is
 * modelled.
 */
module Proximity {
  import opened Wrappers
  import opened Entities
  import opened Seqs

  /** Which distance function to use on four present coordinates. */
  type Km = (real, real, real, real) -> real

  /** `gyms.find(g => g.id === id)`: the first gym with that id. */
  function FindGym(gyms: seq<Gym>, id: string): (r: Option<Gym>)
    ensures r.None? <==> forall g :: g in gyms ==> g.id != id
    ensures r.Some? ==> exists k :: 0 <= k < |gyms| && gyms[k] == r.value && r.value.id == id
                                    && forall j :: 0 <= j < k ==> gyms[j].id != id
  {
    if gyms == [] then None
    else if gyms[0].id == id then Some(gyms[0])
    else
      var r := FindGym(gyms[1..], id);
      assert r.Some? ==> exists k :: 1 <= k < |gyms| && gyms[k] == r.value && r.value.id == id
                                     && forall j :: 0 <= j < k ==> gyms[j].id != id by {
        if r.Some? {
          var k :| 0 <= k < |gyms| - 1 && gyms[1..][k] == r.value && r.value.id == id
                   && forall j :: 0 <= j < k ==> gyms[1..][j].id != id;
          assert gyms[k + 1] == r.value;
          assert forall j :: 1 <= j < k + 1 ==> gyms[j] == gyms[1..][j - 1];
        }
      }
      r
  }

  /**
   * `favorites.map(id => gyms.find(...)).filter(Boolean)`: each favourite id replaced by its
   * gym, in order, with ids that match no gym dropped.
   */
  function Resolve(gyms: seq<Gym>, favorites: seq<string>): (r: seq<Gym>)
    ensures |r| <= |favorites|
    ensures forall g :: g in r ==> g in gyms && g.id in favorites
  {
    if favorites == [] then []
    else
      var rest := Resolve(gyms, favorites[1..]);
      match FindGym(gyms, favorites[0])
      case Some(g) => [g] + rest
      case None => rest
  }

  /** `haversineKm(ga.lat, ga.lon, gb.lat, gb.lon)`: 10 when any coordinate is missing. */
  function Distance(ga: Gym, gb: Gym, km: Km): real {
    if ga.lat.Some? && ga.lon.Some? && gb.lat.Some? && gb.lon.Some?
    then km(ga.lat.value, ga.lon.value, gb.lat.value, gb.lon.value)
    else 10.0
  }

  /** `Math.min(hi, Math.max(0, 1 - dist / 10))`. */
  function DistanceScore(hi: real, dist: real): (s: real)
    requires 0.0 <= hi
    ensures 0.0 <= s <= hi
  {
    var v := 1.0 - dist / 10.0;
    var clamped := if v > 0.0 then v else 0.0;
    if clamped < hi then clamped else hi
  }

  /** The score of one pair of gyms: the first rule of the ladder that applies. */
  function PairScore(ga: Gym, gb: Gym, km: Km): (s: real)
    ensures 0.0 <= s <= 1.0
  {
    var sameGym := ga.id == gb.id;
    var sameCity := ga.city == gb.city;
    var sameDept := ga.departmentCode == gb.departmentCode;
    var sameChain := ga.chainId == gb.chainId;
    if sameGym then 1.0
    else if sameCity && sameChain then 0.9
    else if sameCity then 0.75
    else if sameDept && sameChain then 0.7
    else if sameDept then 0.55
    else if sameChain then DistanceScore(0.8, Distance(ga, gb, km))
    else DistanceScore(0.5, Distance(ga, gb, km))
  }

  /** `Math.max`. */
  function Max(x: real, y: real): real {
    if x >= y then x else y
  }

  /** The best score of `ga` against the gyms of `bs`, starting from 0. */
  function Row(ga: Gym, bs: seq<Gym>, km: Km): real {
    if bs == [] then 0.0 else Max(Row(ga, bs[..|bs| - 1], km), PairScore(ga, bs[|bs| - 1], km))
  }

  /** The best score over every pair of `as_ x bs`, starting from 0. */
  function Grid(as_: seq<Gym>, bs: seq<Gym>, km: Km): real {
    if as_ == [] then 0.0 else Max(Grid(as_[..|as_| - 1], bs, km), Row(as_[|as_| - 1], bs, km))
  }

  /** The profile fallback, applied only when the best pair score is exactly 0. */
  function Fallback(a: User, b: User, best: real): real {
    if best == 0.0 && Truthy(a.city) && Truthy(b.city) then
      if a.city == b.city then 0.6
      else if Truthy(a.departmentCode) && a.departmentCode == b.departmentCode then 0.45
      else best
    else best
  }

  /** `gymScore(userA, userB)` as a value. */
  function GymScoreOf(gyms: seq<Gym>, a: User, b: User, km: Km): real {
    Fallback(a, b, Grid(Resolve(gyms, a.favorites), Resolve(gyms, b.favorites), km))
  }

  /** `gymScore`: nested loops over the resolved favourites keeping the best pair score. */
  method GymScore(gyms: seq<Gym>, a: User, b: User, km: Km) returns (best: real)
    ensures best == GymScoreOf(gyms, a, b, km)
  {
    var favoritesA := Resolve(gyms, a.favorites);
    var favoritesB := Resolve(gyms, b.favorites);
    best := BestPair(favoritesA, favoritesB, km);
    if best == 0.0 && Truthy(a.city) && Truthy(b.city) {
      if a.city == b.city {
        best := 0.6;
      } else if Truthy(a.departmentCode) && a.departmentCode == b.departmentCode {
        best := 0.45;
      }
    }
  }

  /** The outer loop of `gymScore`: the best pair score, starting from 0. */
  method BestPair(as_: seq<Gym>, bs: seq<Gym>, km: Km) returns (best: real)
    ensures best == Grid(as_, bs, km)
  {
    best := 0.0;
    for i := 0 to |as_|
      invariant 0.0 <= best == Grid(as_[..i], bs, km)
    {
      TakeTake(as_, i, i + 1);
      best := BestInRow(as_[i], bs, km, best);
    }
    TakeAll(as_);
  }

  /** The inner loop of `gymScore`: raises `best` to the best score of `ga` against the gyms of `bs`. */
  method BestInRow(ga: Gym, bs: seq<Gym>, km: Km, before: real) returns (best: real)
    requires 0.0 <= before
    ensures best == Max(before, Row(ga, bs, km))
  {
    best := before;
    for j := 0 to |bs|
      invariant best == Max(before, Row(ga, bs[..j], km))
    {
      TakeTake(bs, j, j + 1);
      var s := PairScore(ga, bs[j], km);
      best := Max(best, s);
    }
    TakeAll(bs);
  }

  // ---------------------------------------------------------------------------------------
  // Properties

  /** A same-city, same-chain pair of different gyms scores 0.9 whatever the distance. */
  lemma SameCityAndChainIgnoresDistance(ga: Gym, gb: Gym, km1: Km, km2: Km)
    requires ga.id != gb.id && ga.city == gb.city && ga.chainId == gb.chainId
    ensures PairScore(ga, gb, km1) == PairScore(ga, gb, km2) == 0.9
  {
  }

  /** The best score of a row bounds every pair in it and is either 0 or one of them. */
  lemma {:induction false} RowIsMax(ga: Gym, bs: seq<Gym>, km: Km)
    ensures forall j :: 0 <= j < |bs| ==> PairScore(ga, bs[j], km) <= Row(ga, bs, km)
    ensures Row(ga, bs, km) == 0.0 || exists j :: 0 <= j < |bs| && Row(ga, bs, km) == PairScore(ga, bs[j], km)
    ensures 0.0 <= Row(ga, bs, km) <= 1.0
  {
    if bs != [] {
      var bs' := bs[..|bs| - 1];
      RowIsMax(ga, bs', km);
      assert forall j :: 0 <= j < |bs'| ==> bs'[j] == bs[j];
    }
  }

  /** The best score over all pairs bounds every pair and is either 0 or attained by one. */
  lemma GridIsMax(as_: seq<Gym>, bs: seq<Gym>, km: Km)
    ensures forall i, j :: 0 <= i < |as_| && 0 <= j < |bs| ==> PairScore(as_[i], bs[j], km) <= Grid(as_, bs, km)
    ensures Grid(as_, bs, km) == 0.0
            || exists i, j :: 0 <= i < |as_| && 0 <= j < |bs| && Grid(as_, bs, km) == PairScore(as_[i], bs[j], km)
    ensures 0.0 <= Grid(as_, bs, km) <= 1.0
  {
    GridBounds(as_, bs, km);
    GridAttained(as_, bs, km);
  }

  /** The best score over all pairs lies in [0, 1] and bounds every pair. */
  lemma {:induction false} GridBounds(as_: seq<Gym>, bs: seq<Gym>, km: Km)
    ensures forall i, j :: 0 <= i < |as_| && 0 <= j < |bs| ==> PairScore(as_[i], bs[j], km) <= Grid(as_, bs, km)
    ensures 0.0 <= Grid(as_, bs, km) <= 1.0
  {
    if as_ != [] {
      var as' := as_[..|as_| - 1];
      var last := as_[|as_| - 1];
      GridBounds(as', bs, km);
      RowIsMax(last, bs, km);
      forall i, j | 0 <= i < |as_| && 0 <= j < |bs| ensures PairScore(as_[i], bs[j], km) <= Grid(as_, bs, km) {
        if i < |as'| {
          assert as'[i] == as_[i];
          assert PairScore(as'[i], bs[j], km) <= Grid(as', bs, km);
        } else {
          assert PairScore(last, bs[j], km) <= Row(last, bs, km);
        }
      }
    }
  }

  /** The best score over all pairs is 0 or the score of some pair. */
  lemma {:induction false} GridAttained(as_: seq<Gym>, bs: seq<Gym>, km: Km)
    ensures Grid(as_, bs, km) == 0.0
            || exists i, j :: 0 <= i < |as_| && 0 <= j < |bs| && Grid(as_, bs, km) == PairScore(as_[i], bs[j], km)
  {
    if as_ != [] {
      var as' := as_[..|as_| - 1];
      var last := as_[|as_| - 1];
      var g := Grid(as_, bs, km);
      if g != 0.0 {
        if g == Row(last, bs, km) {
          RowIsMax(last, bs, km);
          var j :| 0 <= j < |bs| && Row(last, bs, km) == PairScore(last, bs[j], km);
          assert g == PairScore(as_[|as_| - 1], bs[j], km);
        } else {
          GridAttained(as', bs, km);
          var i, j :| 0 <= i < |as'| && 0 <= j < |bs| && Grid(as', bs, km) == PairScore(as'[i], bs[j], km);
          assert as'[i] == as_[i];
        }
      }
    }
  }

  /** Whether the distance function does not depend on the order of the two points. */
  ghost predicate SymmetricKm(km: Km) {
    forall la, oa, lb, ob :: km(la, oa, lb, ob) == km(lb, ob, la, oa)
  }

  /** With a symmetric distance, every pair scores the same in either order. */
  lemma PairScoreSymmetric(ga: Gym, gb: Gym, km: Km)
    requires SymmetricKm(km)
    ensures PairScore(ga, gb, km) == PairScore(gb, ga, km)
  {
    if ga.lat.Some? && ga.lon.Some? && gb.lat.Some? && gb.lon.Some? {
      var la, oa, lb, ob := ga.lat.value, ga.lon.value, gb.lat.value, gb.lon.value;
      assert km(la, oa, lb, ob) == km(lb, ob, la, oa);
    }
  }

  /** The best pair score does not depend on which user's favourites come first. */
  lemma GridSymmetric(as_: seq<Gym>, bs: seq<Gym>, km: Km)
    requires SymmetricKm(km)
    ensures Grid(as_, bs, km) == Grid(bs, as_, km)
  {
    GridIsMax(as_, bs, km);
    GridIsMax(bs, as_, km);
    var x, y := Grid(as_, bs, km), Grid(bs, as_, km);
    if x != 0.0 {
      var i, j :| 0 <= i < |as_| && 0 <= j < |bs| && x == PairScore(as_[i], bs[j], km);
      PairScoreSymmetric(as_[i], bs[j], km);
      assert x <= y;
    }
    if y != 0.0 {
      var j, i :| 0 <= j < |bs| && 0 <= i < |as_| && y == PairScore(bs[j], as_[i], km);
      PairScoreSymmetric(bs[j], as_[i], km);
      assert y <= x;
    }
  }

  /**
   * The proximity score lies in [0, 1]. When some resolved pair scores above 0 the result is
   * the best pair score; otherwise it is 0.6 for two profiles in the same city, 0.45 for the
   * same department, else 0, and the fallback is consulted only when both profiles have a city.
   */
  lemma GymScoreCases(gyms: seq<Gym>, a: User, b: User, km: Km)
    ensures 0.0 <= GymScoreOf(gyms, a, b, km) <= 1.0
    ensures var best := Grid(Resolve(gyms, a.favorites), Resolve(gyms, b.favorites), km);
      && (best != 0.0 ==> GymScoreOf(gyms, a, b, km) == best)
      && (best == 0.0 && !(Truthy(a.city) && Truthy(b.city)) ==> GymScoreOf(gyms, a, b, km) == 0.0)
      && (best == 0.0 && Truthy(a.city) && Truthy(b.city) ==>
            GymScoreOf(gyms, a, b, km)
            == if a.city == b.city then 0.6
               else if Truthy(a.departmentCode) && a.departmentCode == b.departmentCode then 0.45
               else 0.0)
  {
    GridIsMax(Resolve(gyms, a.favorites), Resolve(gyms, b.favorites), km);
  }

  /** The result is at least every resolved pair's score. */
  lemma GymScoreBoundsPairs(gyms: seq<Gym>, a: User, b: User, km: Km, ga: Gym, gb: Gym)
    requires ga in Resolve(gyms, a.favorites) && gb in Resolve(gyms, b.favorites)
    ensures PairScore(ga, gb, km) <= GymScoreOf(gyms, a, b, km)
  {
    var as_, bs := Resolve(gyms, a.favorites), Resolve(gyms, b.favorites);
    GridIsMax(as_, bs, km);
    var i :| 0 <= i < |as_| && as_[i] == ga;
    var j :| 0 <= j < |bs| && bs[j] == gb;
    assert PairScore(as_[i], bs[j], km) <= Grid(as_, bs, km);
    FallbackKeepsBest(a, b, Grid(as_, bs, km));
  }

  /** The fallback never lowers the best pair score. */
  lemma FallbackKeepsBest(a: User, b: User, best: real)
    ensures best <= Fallback(a, b, best)
  {
  }

  /** With a symmetric distance the proximity score is symmetric. */
  lemma GymScoreSymmetric(gyms: seq<Gym>, a: User, b: User, km: Km)
    requires SymmetricKm(km)
    ensures GymScoreOf(gyms, a, b, km) == GymScoreOf(gyms, b, a, km)
  {
    GridSymmetric(Resolve(gyms, a.favorites), Resolve(gyms, b.favorites), km);
  }

  /** Two users whose favourites share an id that names a known gym score 1. */
  lemma SharedFavoriteScoresOne(gyms: seq<Gym>, a: User, b: User, km: Km, id: string)
    requires id in a.favorites && id in b.favorites && FindGym(gyms, id).Some?
    ensures GymScoreOf(gyms, a, b, km) == 1.0
  {
    var g := FindGym(gyms, id).value;
    ResolveKeepsKnown(gyms, a.favorites, id);
    ResolveKeepsKnown(gyms, b.favorites, id);
    GymScoreBoundsPairs(gyms, a, b, km, g, g);
    GymScoreCases(gyms, a, b, km);
  }

  /** Every favourite id that names a gym contributes that gym. */
  lemma {:induction false} ResolveKeepsKnown(gyms: seq<Gym>, favorites: seq<string>, id: string)
    requires id in favorites && FindGym(gyms, id).Some?
    ensures FindGym(gyms, id).value in Resolve(gyms, favorites)
  {
    if favorites[0] != id {
      ResolveKeepsKnown(gyms, favorites[1..], id);
    }
  }

  /** Resolving a concatenation resolves each part. */
  lemma {:induction false} ResolveAppend(gyms: seq<Gym>, xs: seq<string>, ys: seq<string>)
    ensures Resolve(gyms, xs + ys) == Resolve(gyms, xs) + Resolve(gyms, ys)
  {
    if xs == [] {
      assert xs + ys == ys;
    } else {
      assert (xs + ys)[0] == xs[0];
      assert (xs + ys)[1..] == xs[1..] + ys;
      ResolveAppend(gyms, xs[1..], ys);
    }
  }

  /** A favourite id that names no gym is dropped: removing it changes nothing. */
  lemma UnknownFavoriteDropped(gyms: seq<Gym>, xs: seq<string>, id: string, ys: seq<string>)
    requires FindGym(gyms, id).None?
    ensures Resolve(gyms, xs + [id] + ys) == Resolve(gyms, xs + ys)
  {
    ResolveAppend(gyms, xs + [id], ys);
    ResolveAppend(gyms, xs, [id]);
    ResolveAppend(gyms, xs, ys);
  }
}
