# Gym Buddy matching engine, in Dafny

Gym Buddy is a single-page prototype that pairs people who train at fitness facilities
("gyms"). This project models the engine behind its pages, not the pages themselves:

- **Availability.** The weekly availability mask has 336 half-hour flags. It is packed eight
  to a byte and stored as base64 text (`bitsToBase64`, `base64ToBits`). The browser's
  `btoa`/`atob` are modelled from section 4 of RFC 4648 and the forgiving-base64 decode of
  the WHATWG Infra standard.
- **Schedule similarity.** The Jaccard index of two decoded masks (`jaccardFromMasks`).
- **Proximity.** The facility score (`gymScore`): the best rule-ladder score over all pairs
  of the two users' favourite facilities, with a fallback to the profiles' city and
  department.
- **Compatibility.** The level score and the weighted score `matchScore` (0.4 schedule,
  0.4 proximity, 0.2 level).
- **Recommendations.** `getRecommendations`: everyone not yet swiped on, scored, stably
  sorted by descending score, cut to a limit.
- **Session suggestions.** `suggestSessions`: the common free slots of two users over the
  next 14 days.
- **Facility filter.** The cascading facility filter `getFilteredGyms`, the list behind
  `getCitiesFor`.
- **Partner search.** The search page's filter, then scoring and sorting.
- **Application state.** A class over the state the handlers change:
  - recording a swipe, with the 25% chance of an instant match;
  - `ensureChatForMatch`;
  - opening a chat room;
  - sending a message;
  - counting a reaction.

Modules follow the program's parts:

| Module | Contents |
|---|---|
| `Wrappers` | `Option`, `Result` |
| `Seqs` | generic sequence facts |
| `Base64` | `btoa`, `atob` |
| `Availability` | mask codec, Jaccard index |
| `Entities` | facilities, users, swipes |
| `Text` | `String.prototype.trim` |
| `Proximity` | `gymScore` |
| `Scoring` | level score, match score |
| `Ranking` | recommendations |
| `Sessions` | session suggestions |
| `Filters` | facility filter, partner search |
| `Lifecycle` | matches, chats, messages and the `State` class |

Explicit loops in the source become methods with loop invariants, each proved equal to a
specification function, and the properties are proved about those functions. Code built from
array combinators (`filter`, `map`, `find`, `sort`, `slice`) is written as functions with
lemmas: `getFilteredGyms`, the favourite resolution of `gymScore`, the swipe filter and the
pipelines of `getRecommendations` and of the search.

Decoding a mask can fail. `atob` throws `InvalidCharacterError`, and the exception travels
through `jaccardFromMasks`, `matchScore`, `getRecommendations`, the search and
`suggestSessions`. Every one of these therefore returns a `Result`, and lemmas state exactly
when it fails.

## Model

| member | source | states |
|---|---|---|
| Base64.BtoaLength | gym-buddy-proto/app.js:412 | a `btoa` output always has 4 * ceil(n / 3) characters |
| Base64.OctetsOfSextets | gym-buddy-proto/app.js:412-415 | regrouping the 6-bit groups of any byte string into bytes gives the bytes back, short final groups included |
| Base64.StripWhitespaceOfBtoa | gym-buddy-proto/app.js:412-415 | `atob`'s whitespace-removal step leaves a `btoa` output unchanged |
| Base64.DecodeGroupsOfChars | gym-buddy-proto/app.js:415 | a string of alphabet characters of valid length decodes without error to the bytes its values join to |
| Base64.AtobBtoa | gym-buddy-proto/app.js:412-415 | `atob(btoa(b))` succeeds and returns exactly `b`, for every byte string |
| Availability.BitsToBase64 | gym-buddy-proto/app.js:409-413 | the in-place packing loop over the zeroed byte array yields the base64 text of the packed mask: flag i (truthy or not) becomes bit i % 8 of byte i / 8, over ceil(n / 8) bytes |
| Availability.Base64ToBits | gym-buddy-proto/app.js:414-423 | fails exactly where `atob` throws; otherwise returns exactly `length` flags, the unpacked decoded bytes |
| Availability.ReadBits | gym-buddy-proto/app.js:417-421 | the read loop pushes, for each i < length, bit i % 8 of byte i / 8, or 0 past the end of the data |
| Availability.DecodeBitsAt | gym-buddy-proto/app.js:414-423 | each decoded flag is the matching bit of the decoded bytes; a flag whose byte lies past the data reads as 0 |
| Availability.UnpackPack | gym-buddy-proto/app.js:409-423 | unpacking a packed mask gives back its flags, padded with zeros up to the requested length |
| Availability.DecodeEncode | gym-buddy-proto/app.js:409-423 | `base64ToBits(bitsToBase64(bits), bits.length)` returns `bits`, for every 0/1 mask of any length |
| Availability.WeekMaskRoundTrip | gym-buddy-proto/app.js:414 | a 336-flag weekly mask survives encoding and decoding with the default length |
| Availability.JaccardFromMasks | gym-buddy-proto/app.js:424-428 | the counting loop gives intersection over union of the two decoded masks, 0 for an empty union, or the decoding error |
| Availability.CountMasks | gym-buddy-proto/app.js:426 | the loop's two counters are the number of positions set in both masks and in at least one |
| Availability.JaccardSymmetricBounded | gym-buddy-proto/app.js:424-428 | the similarity does not depend on the order of the masks and lies in [0, 1] |
| Availability.JaccardZero | gym-buddy-proto/app.js:427 | the similarity is 0 exactly when the masks share no set flag, and in particular for two empty masks |
| Availability.JaccardSelf | gym-buddy-proto/app.js:424-428 | a mask with a set flag is fully similar (1) to itself |
| Availability.MaskSimilarityFacts | gym-buddy-proto/app.js:424-428 | `jaccardFromMasks` fails exactly when one of the masks does not decode; otherwise it is symmetric and lies in [0, 1] |
| Proximity.FindGym | gym-buddy-proto/app.js:443 | `gyms.find`: none exactly when no facility has the id; otherwise the first facility with that id |
| Proximity.Resolve | gym-buddy-proto/app.js:443-444 | the resolved favourites are known facilities whose ids are among the favourites, no more of them than favourites |
| Proximity.UnknownFavoriteDropped | gym-buddy-proto/app.js:443-444 | a favourite id that names no facility is dropped: removing it changes nothing |
| Proximity.ResolveAppend | gym-buddy-proto/app.js:443-444 | resolving keeps the favourites' order: it distributes over concatenation |
| Proximity.ResolveKeepsKnown | gym-buddy-proto/app.js:443-444 | every favourite id naming a facility contributes that facility |
| Proximity.DistanceScore | gym-buddy-proto/app.js:459-460 | the distance-based score is clamped to [0, cap] |
| Proximity.PairScore | gym-buddy-proto/app.js:448-460 | every pair of facilities scores within [0, 1] |
| Proximity.SameCityAndChainIgnoresDistance | gym-buddy-proto/app.js:454-455 | two different facilities of one chain in one city score 0.9, whatever the distance |
| Proximity.GymScore | gym-buddy-proto/app.js:441-470 | the nested loops with the final fallback compute the proximity score `GymScoreOf` |
| Proximity.BestPair | gym-buddy-proto/app.js:445-464 | the outer loop leaves `best` at the maximum pair score over both favourite lists, starting from 0 |
| Proximity.BestInRow | gym-buddy-proto/app.js:446-463 | the inner loop raises `best` to the maximum of its start value and the row's pair scores |
| Proximity.RowIsMax | gym-buddy-proto/app.js:446-463 | a row's best bounds every pair score in it, lies in [0, 1] and is 0 or attained by a pair |
| Proximity.GridIsMax | gym-buddy-proto/app.js:445-464 | the best over all pairs bounds every pair score, lies in [0, 1] and is 0 or attained by some pair |
| Proximity.GridSymmetric | gym-buddy-proto/app.js:445-464 | with a symmetric distance, the best pair score does not depend on which user comes first |
| Proximity.GymScoreCases | gym-buddy-proto/app.js:465-469 | the score lies in [0, 1] and equals the best pair score when that is not 0. Otherwise, with both cities present, it is 0.6 for the same city, 0.45 for the same non-empty department and else 0; with a city missing it is 0 |
| Proximity.GymScoreBoundsPairs | gym-buddy-proto/app.js:441-470 | the proximity score is at least the score of every resolved pair |
| Proximity.GymScoreSymmetric | gym-buddy-proto/app.js:441-470 | with a symmetric distance, `gymScore(a, b) == gymScore(b, a)` |
| Proximity.SharedFavoriteScoresOne | gym-buddy-proto/app.js:441-452 | two users sharing a favourite that names a known facility score exactly 1 |
| Scoring.CappedDiff | gym-buddy-proto/app.js:473-475 | the table index never exceeds 3 |
| Scoring.LevelScoreTable | gym-buddy-proto/app.js:472-476 | level differences 0, 1, 2 and 3 or more score 1.0, 0.66, 0.33 and 0.0; the score is symmetric and lies in [0, 1] |
| Scoring.LevelScoreMonotone | gym-buddy-proto/app.js:472-476 | a closer pair of levels never scores less than a more distant one |
| Scoring.MissingLevelIsOne | gym-buddy-proto/app.js:473 | a missing level behaves exactly as level 1 |
| Scoring.MatchScoreBounds | gym-buddy-proto/app.js:478-483 | `matchScore` succeeds exactly when both masks decode, and then lies in [0, 1] |
| Scoring.MatchScoreSymmetric | gym-buddy-proto/app.js:478-483 | with a symmetric distance, the score of a pair does not depend on its order |
| Scoring.PerfectMatch | gym-buddy-proto/app.js:478-483 | equal non-empty masks, a shared known favourite and equal levels score exactly 1 |
| Ranking.SeenTargets | gym-buddy-proto/app.js:487 | the seen set holds exactly the targets of the current user's own swipes, likes and passes alike |
| Ranking.Eligible | gym-buddy-proto/app.js:489 | the pool holds exactly the users other than the current one that are not seen |
| Ranking.EligibleAppend | gym-buddy-proto/app.js:489 | the pool keeps the order of the user list: filtering distributes over concatenation |
| Ranking.ScoreAll | gym-buddy-proto/app.js:490 | each user is paired with its own score, in order; the map fails exactly when some score fails, and it fails with the first such error |
| Ranking.Insert | gym-buddy-proto/app.js:491 | an insertion step adds exactly one entry and keeps the multiset of entries |
| Ranking.InsertSorted | gym-buddy-proto/app.js:491 | inserting into a score-sorted list keeps it sorted |
| Ranking.InsertStable | gym-buddy-proto/app.js:491 | an inserted entry goes after every entry of equal score |
| Ranking.SortByScoreSorted | gym-buddy-proto/app.js:491 | the sort orders by non-increasing score and is a permutation of its input |
| Ranking.SortByScoreStable | gym-buddy-proto/app.js:491 | the sort is stable: entries of each score keep their input order |
| Ranking.Take | gym-buddy-proto/app.js:492 | `.slice(0, limit)` is a prefix: `limit` entries or all of them, and a negative limit counts from the end |
| Ranking.RecommendationsFail | gym-buddy-proto/app.js:485-493 | `getRecommendations` fails exactly when some eligible user's match score cannot be computed |
| Ranking.RecommendationsEntries | gym-buddy-proto/app.js:485-493 | a successful call returns min(limit, pool) entries for a limit that is not negative. Every entry is a known user, never the current user or anyone it swiped on, carrying its own match score |
| Ranking.RecommendationsOrdered | gym-buddy-proto/app.js:485-493 | scores never increase along the result, and entries of equal score keep their order in the eligible pool, which keeps the order of the user list (`Ranking.EligibleAppend`) |
| Ranking.RecommendationsTop | gym-buddy-proto/app.js:485-493 | the result is a top-`limit` list: any scored eligible entry it leaves out scores no more than every entry kept |
| Sessions.Weekday | gym-buddy-proto/app.js:982-983 | the Monday-based weekday of each scanned day lies in 0 to 6 |
| Sessions.SuggestSessions | gym-buddy-proto/app.js:979-991 | fails exactly as decoding a mask does; otherwise returns the scan of the two decoded masks for the chosen gym |
| Sessions.ScanDays | gym-buddy-proto/app.js:981-989 | the day loop with its early exit yields exactly the specification scan |
| Sessions.ScanSlots | gym-buddy-proto/app.js:984-987 | the slot loop yields exactly that day's common slots |
| Sessions.ScanLengthLeast | gym-buddy-proto/app.js:981-989 | the scan covers the days up to the first one that brings the count to 5 or more, or all 14 |
| Sessions.UptoMembers | gym-buddy-proto/app.js:981-989 | the first k days contribute exactly the common slots of those days |
| Sessions.ScanValid | gym-buddy-proto/app.js:981-990 | every suggestion is an even slot from 16 to 38, within 14 days, free in both masks at index weekday * 48 + slot, for the chosen gym; the list is in day-then-slot order |
| Sessions.ScanComplete | gym-buddy-proto/app.js:981-990 | for some day count n, the result is exactly the common slots of the first n days. n is 14 or the first count reaching 5, and every earlier count stayed below 5 |
| Sessions.ScanBound | gym-buddy-proto/app.js:981-990 | at most 16 suggestions: fewer than 5 before the last day plus at most 12 on it |
| Sessions.ScanEmpty | gym-buddy-proto/app.js:981-990 | no suggestion exactly when the users share no tried slot in all 14 days |
| Sessions.SessionsValid | gym-buddy-proto/app.js:979-991 | a successful call lists only common free slots of the two decoded masks, in chronological order, at most 16 of them |
| Sessions.SessionsFail | gym-buddy-proto/app.js:979-980 | the call fails exactly when one of the two masks does not decode |
| Sessions.ChosenGymCases | gym-buddy-proto/app.js:986 | the gym is the first requested id, else the first user's first favourite, else undefined |
| Text.LeadingSpace | gym-buddy-proto/app.js:917 | counts exactly the white space characters at the start of a string |
| Text.TrailingSpace | gym-buddy-proto/app.js:917 | counts exactly the white space characters at the end of a string |
| Text.Trim | gym-buddy-proto/app.js:917 | `trim` keeps a contiguous part that neither starts nor ends with white space, and everything removed is white space |
| Text.TrimBlank | gym-buddy-proto/app.js:917 | the trimmed text is empty exactly when the input is all white space |
| Text.TrimIdempotent | gym-buddy-proto/app.js:917 | trimming twice changes nothing more |
| Lifecycle.FindIndex | gym-buddy-proto/app.js:754 | the search loop returns the first index that satisfies the predicate, or none when no element does |
| Lifecycle.EnsureChat | gym-buddy-proto/app.js:753-760 | both lists only grow, each by at most one, and the returned chat is in the chat list. A match that is added is active, from the user to `userId`, with the fresh match id and no messages; a chat that is added has the fresh chat id and is the one returned |
| Lifecycle.EnsureChatFinds | gym-buddy-proto/app.js:753-760 | afterwards a match joins the two users, and the returned chat is the first chat of the first such match. A match is added exactly when none existed: the active match from the user to `userId` with the fresh id. A chat is added exactly when that match had none: the chat with the fresh id, which is returned |
| Lifecycle.EnsureChatIdempotent | gym-buddy-proto/app.js:753-760 | a second call returns the same chat and changes nothing, whatever fresh ids it gets |
| Lifecycle.EnsureChatLinked | gym-buddy-proto/app.js:753-760 | if every chat named an existing match before the call, it still does afterwards |
| Lifecycle.SwipedEffect | gym-buddy-proto/app.js:672-676 | a pass, or a like without the instant match, changes no match or chat. An instant match appends exactly the new active match and at most one chat, for the first match between the two users |
| Lifecycle.SwipedNotRecommended | gym-buddy-proto/app.js:672-676 | once the user swipes on someone, like or pass, that person is never recommended to them again |
| Lifecycle.Room | gym-buddy-proto/app.js:882-886 | the room is the first match with the requested id, and it opens exactly when such a match exists and that first match's partner is a known user |
| Lifecycle.SendEffect | gym-buddy-proto/app.js:916-920 | a message is sent exactly when the room opens and the text is not all white space. It is the trimmed text, from the user, with the match id as chat id and no reactions. Only the room's match changes, and only by gaining that message at the end |
| Lifecycle.ReactEffect | gym-buddy-proto/app.js:924-932 | a reaction applies exactly when the room opens and has the message. It raises that message's counter for its key by one, counting a missing one as 0, and changes no other counter, message or match |
| Lifecycle.SendLinked | gym-buddy-proto/app.js:916-920 | sending keeps every chat record pointing at an existing match |
| Lifecycle.ReactLinked | gym-buddy-proto/app.js:924-932 | reacting keeps every chat record pointing at an existing match |
| Lifecycle.State.constructor | gym-buddy-proto/app.js:204 | a state holds exactly the loaded user, users, swipes, matches and chats, and starts with every chat linked to a match (the seed has no chats, and only `ensureChatForMatch` adds them) |
| Lifecycle.State.EnsureChatForMatch | gym-buddy-proto/app.js:753-760 | the handler changes the match and chat lists exactly as `EnsureChat` says and returns its chat, which names an existing match. It keeps the invariant that every chat names an existing match, and leaves the rest unchanged |
| Lifecycle.State.OnSwipe | gym-buddy-proto/app.js:672-676 | the swipe is appended to the swipes. Matches and chats change exactly as `Swiped` says, chats stay linked, and the rest is unchanged. The home-list like (app.js:634-635) uses the same path, and the modal and search likes (app.js:748, app.js:854) are the case without instant match |
| Lifecycle.State.SendMessage | gym-buddy-proto/app.js:916-920 | reports whether a message was sent; the matches change exactly as `Send` says, chats stay linked, and nothing else changes |
| Lifecycle.State.AddReaction | gym-buddy-proto/app.js:924-932 | reports whether a reaction applied; the matches change exactly as `React` says, chats stay linked, and nothing else changes |
| Lifecycle.State.OpenRoom | gym-buddy-proto/app.js:882-885 | the room's guard loops give the index of the first match with the id, provided that match's partner is a known user |
| Filters.FilteredGyms | gym-buddy-proto/app.js:164-171 | a facility is kept exactly when it passes every given criterion; an absent or empty criterion does not filter |
| Filters.FilteredGymsAppend | gym-buddy-proto/app.js:164-171 | the filter keeps the catalogue's order: it distributes over concatenation |
| Filters.FilteredGymsNone | gym-buddy-proto/app.js:164-171 | with no criterion every facility is kept, in order |
| Filters.FilteredGymsByCity | gym-buddy-proto/app.js:172-175 | narrowing by city acts on the list `getCitiesFor` draws its cities from |
| Filters.DaySlice | gym-buddy-proto/app.js:847 | the slice of one day holds at most 48 flags |
| Filters.HasDayWeek | gym-buddy-proto/app.js:845-848 | on a weekly mask, weekday d (0 to 6) has a free half hour exactly when one of its 48 positions is set; later days have none |
| Filters.Keep | gym-buddy-proto/app.js:832-850 | the filter callback fails only when a day is selected and the mask of a candidate that passed the other criteria does not decode. Otherwise it keeps exactly the selected users |
| Filters.FilterUsers | gym-buddy-proto/app.js:832-850 | fails exactly when some callback fails; otherwise keeps exactly the selected users |
| Filters.FilterUsersAppend | gym-buddy-proto/app.js:832-850 | the kept users keep the order of the user list: filtering distributes over concatenation, and the first failing callback decides the error |
| Filters.SearchFail | gym-buddy-proto/app.js:825-852 | the search succeeds exactly when every mask it needs decodes: that of each candidate still in the running when a day is selected, and those needed to score each kept user |
| Filters.SearchResults | gym-buddy-proto/app.js:825-852 | a successful search lists exactly the selected users, each with its match score, by non-increasing score; users of equal score keep their order in the kept list, which keeps the order of the user list (`Filters.FilterUsersAppend`) |

## Left out

- The distance itself. The haversine formula (trigonometry on floating point) is a
  parameter `km` of every proximity member. Only its guard is modelled: a missing
  coordinate gives 10 km.
- Floating point. Scores are exact reals, so IEEE rounding of `1 - dist / 10`,
  `0.4 * schedule + ...` and `inter / uni` is not modelled.
- The 25% draw (`Math.random() < 0.25`) is the parameter `instantMatch`. Mask generation
  (`generateRandomWeekMask`) is not modelled.
- Identifiers and times built from `Date.now()` are fresh-id parameters. The `createdAt`
  fields, the message type and the `start` date are not modelled.
- The clock in `suggestSessions` is the parameter `today`, the value of `getDay()` for
  today. Building the `start` date is not modelled; a suggestion keeps the day offset,
  hour and minute.
- Persistence (`saveState`, `localStorage`), the DOM, rendering, toasts, timers, modals and
  the swipe gestures are not modelled.
- `normalizeText` is the parameter `norm` of the search.
- Filters.FilteredGymsByCity: covers the facility list behind `getCitiesFor`, not the de-duplicated city
  names that `getCitiesFor` sorts with `localeCompare` (locale collation is outside the
  model).
- Ranking.SortByScore: a stable insertion sort by descending score stands for `Array.prototype.sort`
  with `(a, b) => b.score - a.score`. That comparator gives a stable descending order on
  exact reals, but the engine's own algorithm is not modelled.
- An `undefined` `messages` is modelled as an empty list; it only differs in what is saved.
- Level values that are not numbers (`NaN`) and the `NaN` from `parseInt` on an unparsable
  day value are not modelled. The level and day of the search are integers, and the "all"
  day is -1.
- Object identity. Matches, chats and messages are values, and a handler replaces the
  changed match in the list. The source mutates the shared object, which nothing else
  observes here.
- Lifecycle.State.OpenRoom: a match id that names no match crashes `openChatRoom` in the source; the model
  treats it as a room that does not open.
- The calendar export (ICS), sign-in, the profile editor, the planner and
  `proposeSession` are not part of the core modelled here.
- Strings are sequences of Dafny characters. UTF-16 surrogate pairs and the HTML escaping of
  rendered text are not modelled.
