/**
 * Recommendation ranking (`getRecommendations`): every other user the current user has not
 * swiped on yet, scored against the current user, sorted by descending score with a stable
 * sort, and cut to `limit` entries.
 */
module Ranking {
  import opened Wrappers
  import opened Base64
  import opened Entities
  import opened Proximity
  import opened Scoring
  import opened Seqs

  /** One ranked entry: `{ user, score }`. */
  datatype Recommendation = Recommendation(user: User, score: real)

  /** The default `limit` of `getRecommendations`. */
  const DefaultLimit: int := 20

  /** `swipes.filter(s => s.swiperId === meId).map(s => s.targetId)`: whatever the decision. */
  function SeenTargets(swipes: seq<Swipe>, meId: string): (r: seq<string>)
    ensures forall t :: t in r <==> exists i :: 0 <= i < |swipes| && swipes[i].swiperId == meId && swipes[i].targetId == t
  {
    if swipes == [] then []
    else
      var rest := SeenTargets(swipes[1..], meId);
      assert forall i :: 1 <= i < |swipes| ==> swipes[i] == swipes[1..][i - 1];
      (if swipes[0].swiperId == meId then [swipes[0].targetId] else []) + rest
  }

  /** `users.filter(u => u.id !== meId && !seen.has(u.id))`. */
  function Eligible(users: seq<User>, meId: string, seen: seq<string>): (r: seq<User>)
    ensures |r| <= |users|
    ensures forall u :: u in r <==> u in users && u.id != meId && u.id !in seen
  {
    if users == [] then []
    else
      (if users[0].id != meId && users[0].id !in seen then [users[0]] else [])
      + Eligible(users[1..], meId, seen)
  }

  /** The callback `getRecommendations` maps over the pool: `u => matchScore(me, u)`. */
  function Scorer(gyms: seq<Gym>, km: Km, me: User): User -> Result<real, DecodeError> {
    u => MatchScore(gyms, km, me, u)
  }

  /**
   * `.map(u => ({ user: u, score: score(u) }))`: each user paired with its score, in order;
   * the first user whose score fails (a mask that does not decode) aborts the whole map with
   * that error.
   */
  function ScoreAll(score: User -> Result<real, DecodeError>, us: seq<User>): (r: Result<seq<Recommendation>, DecodeError>)
    ensures r.Ok? <==> forall i :: 0 <= i < |us| ==> score(us[i]).Ok?
    ensures r.Ok? ==> |r.value| == |us|
    ensures r.Ok? ==> forall i :: 0 <= i < |us| ==> r.value[i].user == us[i] && score(us[i]) == Ok(r.value[i].score)
    ensures r.Err? ==> exists i :: 0 <= i < |us| && score(us[i]) == Err(r.error) && forall j :: 0 <= j < i ==> score(us[j]).Ok?
  {
    if us == [] then Ok([])
    else
      var rest := ScoreAll(score, us[1..]);
      assert forall i :: 1 <= i < |us| ==> us[i] == us[1..][i - 1];
      match score(us[0])
      case Err(e) => Err(e)
      case Ok(s) =>
        match rest
        case Err(e) =>
          assert exists i :: 1 <= i < |us| && score(us[i]) == Err(e) && forall j :: 0 <= j < i ==> score(us[j]).Ok? by {
            var i :| 0 <= i < |us| - 1 && score(us[1..][i]) == Err(e) && forall j :: 0 <= j < i ==> score(us[1..][j]).Ok?;
            assert us[1..][i] == us[i + 1];
            forall j | 0 <= j < i + 1 ensures score(us[j]).Ok? {
              if j > 0 {
                assert us[j] == us[1..][j - 1];
              }
            }
          }
          Err(e)
        case Ok(tail) => Ok([Recommendation(us[0], s)] + tail)
  }

  /** Whether scores never increase along the sequence. */
  predicate NonIncreasing(rs: seq<Recommendation>) {
    forall i, j :: 0 <= i < j < |rs| ==> rs[i].score >= rs[j].score
  }

  /** Places `x` after every entry that scores at least as much, i.e. after its equals. */
  function Insert(t: seq<Recommendation>, x: Recommendation): (r: seq<Recommendation>)
    ensures |r| == |t| + 1
    ensures multiset(r) == multiset(t) + multiset{x}
  {
    if t == [] then [x]
    else if t[0].score < x.score then [x] + t
    else
      assert t == [t[0]] + t[1..];
      [t[0]] + Insert(t[1..], x)
  }

  /** `.sort((a, b) => b.score - a.score)`: a stable sort by descending score. */
  function SortByScore(rs: seq<Recommendation>): (r: seq<Recommendation>)
    ensures |r| == |rs|
  {
    if rs == [] then [] else Insert(SortByScore(rs[..|rs| - 1]), rs[|rs| - 1])
  }

  /** `.slice(0, limit)`: a negative limit counts from the end, a large one keeps everything. */
  function Take(rs: seq<Recommendation>, limit: int): (r: seq<Recommendation>)
    ensures limit >= 0 ==> |r| == if limit < |rs| then limit else |rs|
    ensures limit < 0 ==> |r| == if |rs| + limit > 0 then |rs| + limit else 0
    ensures r == rs[..|r|]
  {
    var end := if limit >= 0 then (if limit < |rs| then limit else |rs|)
               else (if |rs| + limit > 0 then |rs| + limit else 0);
    rs[..end]
  }

  /** `getRecommendations(limit)` for the current user `me`. */
  function Recommendations(gyms: seq<Gym>, km: Km, me: User, users: seq<User>, swipes: seq<Swipe>, limit: int)
    : Result<seq<Recommendation>, DecodeError>
  {
    var pool := Eligible(users, me.id, SeenTargets(swipes, me.id));
    match ScoreAll(Scorer(gyms, km, me), pool)
    case Err(e) => Err(e)
    case Ok(scored) => Ok(Take(SortByScore(scored), limit))
  }

  // ---------------------------------------------------------------------------------------
  // Sorting properties

  /** The entries with one given score, in order. */
  function WithScore(rs: seq<Recommendation>, v: real): (r: seq<Recommendation>)
    ensures forall x :: x in r ==> x in rs && x.score == v
  {
    if rs == [] then []
    else (if rs[0].score == v then [rs[0]] else []) + WithScore(rs[1..], v)
  }

  /** Nothing is kept when no entry has the score. */
  lemma {:induction false} WithScoreNone(rs: seq<Recommendation>, v: real)
    requires forall y :: y in rs ==> y.score != v
    ensures WithScore(rs, v) == []
  {
    if rs != [] {
      WithScoreNone(rs[1..], v);
    }
  }

  /** Filtering distributes over concatenation. */
  lemma {:induction false} WithScoreAppend(xs: seq<Recommendation>, ys: seq<Recommendation>, v: real)
    ensures WithScore(xs + ys, v) == WithScore(xs, v) + WithScore(ys, v)
  {
    if xs == [] {
      assert xs + ys == ys;
    } else {
      assert (xs + ys)[0] == xs[0];
      assert (xs + ys)[1..] == xs[1..] + ys;
      WithScoreAppend(xs[1..], ys, v);
    }
  }

  /** An entry that scores at least as much as everything in a sorted sequence can go in front of it. */
  lemma NonIncreasingCons(x: Recommendation, rs: seq<Recommendation>)
    requires NonIncreasing(rs)
    requires forall y :: y in rs ==> y.score <= x.score
    ensures NonIncreasing([x] + rs)
  {
    var r := [x] + rs;
    forall i, j | 0 <= i < j < |r| ensures r[i].score >= r[j].score {
      assert r[j] == rs[j - 1];
      if i > 0 {
        assert r[i] == rs[i - 1];
      }
    }
  }

  /** Inserting into a sorted sequence keeps it sorted. */
  lemma {:induction false} InsertSorted(t: seq<Recommendation>, x: Recommendation)
    requires NonIncreasing(t)
    ensures NonIncreasing(Insert(t, x))
  {
    if t == [] {
    } else if t[0].score < x.score {
      NonIncreasingTail(t);
      NonIncreasingCons(x, t);
    } else {
      NonIncreasingTail(t);
      InsertSorted(t[1..], x);
      var rest := Insert(t[1..], x);
      forall y | y in rest ensures y.score <= t[0].score {
        assert y in multiset(rest);
        if y != x {
          assert y in multiset(t[1..]);
          assert y in t[1..];
        }
      }
      NonIncreasingCons(t[0], rest);
    }
  }

  /** Filtering a sequence that starts with `x`. */
  lemma WithScoreCons(x: Recommendation, rs: seq<Recommendation>, v: real)
    ensures WithScore([x] + rs, v) == (if x.score == v then [x] else []) + WithScore(rs, v)
  {
    assert ([x] + rs)[0] == x;
    assert ([x] + rs)[1..] == rs;
  }

  /** The tail of a sorted sequence is sorted, and no entry of it scores above the head. */
  lemma NonIncreasingTail(t: seq<Recommendation>)
    requires NonIncreasing(t) && t != []
    ensures NonIncreasing(t[1..])
    ensures forall y :: y in t ==> y.score <= t[0].score
    ensures forall y :: y in t[1..] ==> y.score <= t[0].score
  {
    forall y | y in t ensures y.score <= t[0].score {
      var j :| 0 <= j < |t| && t[j] == y;
      if j > 0 {
        assert t[0].score >= t[j].score;
      }
    }
    forall y | y in t[1..] ensures y.score <= t[0].score {
      var j :| 0 <= j < |t| - 1 && t[1..][j] == y;
      assert t[j + 1] == y;
    }
  }

  /** Inserting `x` into a sorted sequence adds it after the entries of its own score. */
  lemma {:induction false} InsertStable(t: seq<Recommendation>, x: Recommendation, v: real)
    requires NonIncreasing(t)
    ensures WithScore(Insert(t, x), v) == WithScore(t, v) + (if x.score == v then [x] else [])
  {
    var single: seq<Recommendation> := if x.score == v then [x] else [];
    AppendNil(single);
    if t == [] {
      assert Insert(t, x) == [x] + [];
      WithScoreCons(x, [], v);
    } else {
      SplitFirst(t);
      WithScoreCons(t[0], t[1..], v);
      if t[0].score < x.score {
        assert Insert(t, x) == [x] + t;
        WithScoreCons(x, t, v);
        AppendNil(WithScore(t, v));
        if x.score == v {
          NonIncreasingTail(t);
          WithScoreNone(t, v);
        }
      } else {
        var head: seq<Recommendation> := if t[0].score == v then [t[0]] else [];
        assert Insert(t, x) == [t[0]] + Insert(t[1..], x);
        WithScoreCons(t[0], Insert(t[1..], x), v);
        NonIncreasingTail(t);
        InsertStable(t[1..], x, v);
        AppendAssoc(head, WithScore(t[1..], v), single);
      }
    }
  }

  /** The stable sort orders by non-increasing score and is a permutation of its input. */
  lemma {:induction false} SortByScoreSorted(rs: seq<Recommendation>)
    ensures NonIncreasing(SortByScore(rs))
    ensures multiset(SortByScore(rs)) == multiset(rs)
  {
    if rs != [] {
      var init, last := rs[..|rs| - 1], rs[|rs| - 1];
      var sortedInit := SortByScore(init);
      assert SortByScore(rs) == Insert(sortedInit, last);
      SortByScoreSorted(init);
      InsertSorted(sortedInit, last);
      SplitLast(rs);
      MultisetSnoc(init, last);
    }
  }

  /** Stability: the entries of each score appear in the sorted output in their input order. */
  lemma {:induction false} SortByScoreStable(rs: seq<Recommendation>, v: real)
    ensures WithScore(SortByScore(rs), v) == WithScore(rs, v)
  {
    if rs != [] {
      var init, last := rs[..|rs| - 1], rs[|rs| - 1];
      var single := if last.score == v then [last] else [];
      SortByScoreSorted(init);
      calc {
        WithScore(SortByScore(rs), v);
        WithScore(Insert(SortByScore(init), last), v);
        { InsertStable(SortByScore(init), last, v); }
        WithScore(SortByScore(init), v) + single;
        { SortByScoreStable(init, v); }
        WithScore(init, v) + single;
        { assert [last][1..] == []; }
        WithScore(init, v) + WithScore([last], v);
        { WithScoreAppend(init, [last], v); }
        WithScore(init + [last], v);
        { assert rs == init + [last]; }
        WithScore(rs, v);
      }
    }
  }

  /** Filtering a prefix gives a prefix of the filtered whole. */
  lemma {:induction false} WithScorePrefix(rs: seq<Recommendation>, k: nat, v: real)
    requires k <= |rs|
    ensures WithScore(rs[..k], v) <= WithScore(rs, v)
  {
    assert rs == rs[..k] + rs[k..];
    WithScoreAppend(rs[..k], rs[k..], v);
  }

  // ---------------------------------------------------------------------------------------
  // Properties of the recommendations

  /** Every scored entry pairs a user of the pool with that user's score. */
  lemma ScoredEntry(score: User -> Result<real, DecodeError>, pool: seq<User>, r: Recommendation)
    requires ScoreAll(score, pool).Ok?
    requires r in multiset(ScoreAll(score, pool).value)
    ensures r.user in pool && score(r.user) == Ok(r.score)
  {
    var scored := ScoreAll(score, pool).value;
    var i :| 0 <= i < |scored| && scored[i] == r;
    assert r.user == pool[i];
  }

  /** An entry is in the scored pool exactly when it pairs a user of the pool with that user's score. */
  lemma ScoredMembers(score: User -> Result<real, DecodeError>, pool: seq<User>, r: Recommendation)
    requires ScoreAll(score, pool).Ok?
    ensures r in multiset(SortByScore(ScoreAll(score, pool).value)) <==> r.user in pool && score(r.user) == Ok(r.score)
  {
    var scored := ScoreAll(score, pool).value;
    SortByScoreSorted(scored);
    if r.user in pool && score(r.user) == Ok(r.score) {
      var i :| 0 <= i < |pool| && pool[i] == r.user;
      assert scored[i] == r;
      assert r in scored;
    }
    if r in multiset(scored) {
      ScoredEntry(score, pool, r);
    }
  }

  /** An eligible user is neither the current user nor anyone the current user swiped on. */
  lemma EligibleUnseen(users: seq<User>, me: User, swipes: seq<Swipe>, u: User)
    requires u in Eligible(users, me.id, SeenTargets(swipes, me.id))
    ensures u in users && u.id != me.id
    ensures forall s :: s in swipes && s.swiperId == me.id ==> s.targetId != u.id
  {
    forall s | s in swipes && s.swiperId == me.id ensures s.targetId != u.id {
      var k :| 0 <= k < |swipes| && swipes[k] == s;
      assert s.targetId in SeenTargets(swipes, me.id);
    }
  }

  /** The pool keeps the order of the user list: filtering distributes over concatenation. */
  lemma {:induction false} EligibleAppend(xs: seq<User>, ys: seq<User>, meId: string, seen: seq<string>)
    ensures Eligible(xs + ys, meId, seen) == Eligible(xs, meId, seen) + Eligible(ys, meId, seen)
  {
    if xs == [] {
      AppendNil(ys);
      AppendNil(Eligible(ys, meId, seen));
    } else {
      AppendParts(xs, ys);
      EligibleAppend(xs[1..], ys, meId, seen);
      var head := if xs[0].id != meId && xs[0].id !in seen then [xs[0]] else [];
      AppendAssoc(head, Eligible(xs[1..], meId, seen), Eligible(ys, meId, seen));
    }
  }

  /** The successful result is the sorted scored pool cut to `limit`. */
  lemma RecommendationsValue(gyms: seq<Gym>, km: Km, me: User, users: seq<User>, swipes: seq<Swipe>, limit: int)
    requires ScoreAll(Scorer(gyms, km, me), Eligible(users, me.id, SeenTargets(swipes, me.id))).Ok?
    ensures Recommendations(gyms, km, me, users, swipes, limit)
         == Ok(Take(SortByScore(ScoreAll(Scorer(gyms, km, me), Eligible(users, me.id, SeenTargets(swipes, me.id))).value), limit))
  {
  }

  /** `getRecommendations` fails exactly when some eligible user's match score cannot be computed. */
  lemma RecommendationsFail(gyms: seq<Gym>, km: Km, me: User, users: seq<User>, swipes: seq<Swipe>,
                            limit: int)
    ensures var pool := Eligible(users, me.id, SeenTargets(swipes, me.id));
      Recommendations(gyms, km, me, users, swipes, limit).Ok?
      <==> forall u :: u in pool ==> MatchScore(gyms, km, me, u).Ok?
  {
    var pool := Eligible(users, me.id, SeenTargets(swipes, me.id));
    var score := Scorer(gyms, km, me);
    if ScoreAll(score, pool).Err? {
      var i :| 0 <= i < |pool| && score(pool[i]).Err?;
      assert pool[i] in pool;
    } else {
      forall u | u in pool ensures MatchScore(gyms, km, me, u).Ok? {
        var i :| 0 <= i < |pool| && pool[i] == u;
        assert score(pool[i]).Ok?;
      }
    }
  }

  /** Every entry of a sorted and cut scored pool is an entry of the pool. */
  lemma TakeSortedEntries(scored: seq<Recommendation>, limit: int, r: Recommendation)
    requires r in Take(SortByScore(scored), limit)
    ensures r in multiset(scored)
  {
    SortByScoreSorted(scored);
    assert r in SortByScore(scored);
  }

  /**
   * A successful call returns `min(limit, eligible)` entries for a non-negative limit; no
   * entry is the current user or anyone the current user swiped on, like or pass; and each
   * entry carries its user's match score.
   */
  lemma RecommendationsEntries(gyms: seq<Gym>, km: Km, me: User, users: seq<User>, swipes: seq<Swipe>,
                               limit: int)
    requires Recommendations(gyms, km, me, users, swipes, limit).Ok?
    ensures var pool := Eligible(users, me.id, SeenTargets(swipes, me.id));
      var out := Recommendations(gyms, km, me, users, swipes, limit).value;
      limit >= 0 ==> |out| == if limit < |pool| then limit else |pool|
    ensures forall r :: r in Recommendations(gyms, km, me, users, swipes, limit).value ==>
      && r.user in users
      && r.user.id != me.id
      && (forall s :: s in swipes && s.swiperId == me.id ==> s.targetId != r.user.id)
      && MatchScore(gyms, km, me, r.user) == Ok(r.score)
  {
    var pool := Eligible(users, me.id, SeenTargets(swipes, me.id));
    var score := Scorer(gyms, km, me);
    var scored := ScoreAll(score, pool).value;
    RecommendationsValue(gyms, km, me, users, swipes, limit);
    var out := Take(SortByScore(scored), limit);
    forall r | r in out
      ensures r.user in users && r.user.id != me.id
      ensures forall s :: s in swipes && s.swiperId == me.id ==> s.targetId != r.user.id
      ensures MatchScore(gyms, km, me, r.user) == Ok(r.score)
    {
      TakeSortedEntries(scored, limit, r);
      ScoredEntry(score, pool, r);
      EligibleUnseen(users, me, swipes, r.user);
    }
  }

  /**
   * Sorting and cutting gives non-increasing scores, and the entries of each score form a
   * prefix of those of the unsorted input, in input order.
   */
  lemma TakeSortedOrdered(scored: seq<Recommendation>, limit: int)
    ensures NonIncreasing(Take(SortByScore(scored), limit))
    ensures forall v: real :: WithScore(Take(SortByScore(scored), limit), v) <= WithScore(scored, v)
  {
    var sorted := SortByScore(scored);
    SortByScoreSorted(scored);
    var out := Take(sorted, limit);
    forall i, j | 0 <= i < j < |out| ensures out[i].score >= out[j].score {
      assert out[i] == sorted[i] && out[j] == sorted[j];
    }
    forall v: real ensures WithScore(out, v) <= WithScore(scored, v) {
      WithScorePrefix(sorted, |out|, v);
      SortByScoreStable(scored, v);
    }
  }

  /**
   * A successful call lists scores in non-increasing order, and entries of equal score keep
   * the order the users have in `users`.
   */
  lemma RecommendationsOrdered(gyms: seq<Gym>, km: Km, me: User, users: seq<User>, swipes: seq<Swipe>,
                               limit: int)
    requires Recommendations(gyms, km, me, users, swipes, limit).Ok?
    ensures NonIncreasing(Recommendations(gyms, km, me, users, swipes, limit).value)
    ensures var pool := Eligible(users, me.id, SeenTargets(swipes, me.id));
      forall v: real :: WithScore(Recommendations(gyms, km, me, users, swipes, limit).value, v)
                        <= WithScore(ScoreAll(Scorer(gyms, km, me), pool).value, v)
  {
    var pool := Eligible(users, me.id, SeenTargets(swipes, me.id));
    RecommendationsValue(gyms, km, me, users, swipes, limit);
    TakeSortedOrdered(ScoreAll(Scorer(gyms, km, me), pool).value, limit);
  }

  /** In a sorted sequence, whatever a prefix leaves out scores no more than any entry of it. */
  lemma SortedPrefixTop(sorted: seq<Recommendation>, k: nat, omitted: Recommendation)
    requires NonIncreasing(sorted) && k <= |sorted|
    requires multiset(sorted[..k])[omitted] < multiset(sorted)[omitted]
    ensures forall r :: r in sorted[..k] ==> r.score >= omitted.score
  {
    assert sorted == sorted[..k] + sorted[k..];
    assert multiset(sorted) == multiset(sorted[..k]) + multiset(sorted[k..]);
    assert omitted in multiset(sorted[k..]);
    var j :| k <= j < |sorted| && sorted[j] == omitted;
    forall r | r in sorted[..k] ensures r.score >= omitted.score {
      var i :| 0 <= i < k && sorted[..k][i] == r;
      assert sorted[i] == r;
    }
  }

  /** Whatever sorting and cutting leaves out scores no more than any entry kept. */
  lemma TakeSortedTop(scored: seq<Recommendation>, limit: int, omitted: Recommendation)
    requires multiset(Take(SortByScore(scored), limit))[omitted] < multiset(scored)[omitted]
    ensures forall r :: r in Take(SortByScore(scored), limit) ==> r.score >= omitted.score
  {
    var sorted := SortByScore(scored);
    SortByScoreSorted(scored);
    var out := Take(sorted, limit);
    SortedPrefixTop(sorted, |out|, omitted);
  }

  /**
   * The result is a top-`limit` list: an eligible entry (user and score) that the list leaves
   * out, or holds fewer times than the scored pool does, scores no more than any entry.
   */
  lemma RecommendationsTop(gyms: seq<Gym>, km: Km, me: User, users: seq<User>, swipes: seq<Swipe>,
                           limit: int, omitted: Recommendation)
    requires ScoreAll(Scorer(gyms, km, me), Eligible(users, me.id, SeenTargets(swipes, me.id))).Ok?
    requires var scored := ScoreAll(Scorer(gyms, km, me), Eligible(users, me.id, SeenTargets(swipes, me.id))).value;
      multiset(Recommendations(gyms, km, me, users, swipes, limit).value)[omitted] < multiset(scored)[omitted]
    ensures forall r :: r in Recommendations(gyms, km, me, users, swipes, limit).value ==> r.score >= omitted.score
  {
    RecommendationsValue(gyms, km, me, users, swipes, limit);
    TakeSortedTop(ScoreAll(Scorer(gyms, km, me), Eligible(users, me.id, SeenTargets(swipes, me.id))).value, limit, omitted);
  }
}
