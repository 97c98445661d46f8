/**
 * The records the matching engine reads: facilities ("gyms"), user profiles and swipes.
 * Display-only attributes (names, photos, bios, birth dates, goals) are not part of them,
 * except a gym's name, which the search filter reads.
 */
module Entities {
  import opened Wrappers

  /**
   * A facility. Coordinates are `None` when they are not a number or are NaN, the
   * case in which the distance helper returns its fixed 10 km.
   */
  datatype Gym = Gym(
    id: string,
    chainId: string,
    name: string,
    regionCode: string,
    departmentCode: string,
    city: string,
    lat: Option<real>,
    lon: Option<real>)

  /**
   * A user profile. `level` is `None` when it is `null` or `undefined`; location codes are
   * `None` when `null`. `availabilityMask` is the base64 text of the packed weekly mask.
   */
  datatype User = User(
    id: string,
    level: Option<int>,
    favorites: seq<string>,
    availabilityMask: string,
    regionCode: Option<string>,
    departmentCode: Option<string>,
    city: Option<string>)

  /** The two answers a user can give a profile card. */
  datatype Decision = Like | Pass

  /** One swipe: who swiped on whom, and how. The creation time is not modelled. */
  datatype Swipe = Swipe(id: string, swiperId: string, targetId: string, decision: Decision)

  /** JavaScript truthiness of an optional string: present and not empty. */
  predicate Truthy(o: Option<string>) {
    o.Some? && o.value != ""
  }
}
