/**
 * The social state the app keeps for the signed-in user: the swipes it has made, the matches
 * (each carrying its conversation), the chat records pointing at matches, and the handlers that
 * change them -- recording a swipe (with its chance of an instant match), `ensureChatForMatch`,
 * sending a message and counting a reaction.
 */
module Lifecycle {
  import opened Wrappers
  import opened Entities
  import opened Text
  import Proximity
  import Ranking

  /** A chat message; the creation time is not modelled and the type is always "text". */
  datatype Message = Message(id: string, chatId: string, senderId: string, text: string, reactions: map<string, nat>)

  /** A match between two users. Its conversation lives on the match itself. */
  datatype Match = Match(id: string, userA: string, userB: string, active: bool, messages: seq<Message>)

  /** A chat record naming the match whose conversation it opens. */
  datatype Chat = Chat(id: string, matchId: string)

  // ---------------------------------------------------------------------------------------
  // Searching, as `Array.prototype.find` does

  /** The first index from `i` on whose element satisfies `p`. */
  function FirstFrom<T>(xs: seq<T>, p: T -> bool, i: nat): (r: Option<nat>)
    requires i <= |xs|
    ensures r.Some? ==> i <= r.value < |xs| && p(xs[r.value])
    ensures r.Some? ==> forall j :: i <= j < r.value ==> !p(xs[j])
    ensures r.None? ==> forall j :: i <= j < |xs| ==> !p(xs[j])
    decreases |xs| - i
  {
    if i == |xs| then None else if p(xs[i]) then Some(i) else FirstFrom(xs, p, i + 1)
  }

  /** The index of the element `xs.find(p)` returns, if any. */
  function First<T>(xs: seq<T>, p: T -> bool): Option<nat> {
    FirstFrom(xs, p, 0)
  }

  /** Appending never changes an earlier hit; otherwise the new element is the hit if it qualifies. */
  lemma FirstAppend<T>(xs: seq<T>, p: T -> bool, x: T)
    ensures First(xs + [x], p) ==
      if First(xs, p).Some? then First(xs, p) else if p(x) then Some(|xs|) else None
  {
    var ys := xs + [x];
    var r := First(ys, p);
    if First(xs, p).Some? {
      var k := First(xs, p).value;
      assert ys[k] == xs[k];
      assert forall j :: 0 <= j < k ==> ys[j] == xs[j];
    } else {
      assert forall j :: 0 <= j < |xs| ==> ys[j] == xs[j];
      if p(x) {
        assert ys[|xs|] == x;
      }
    }
  }

  /** `xs.find(p)`, as a loop: the index of the first element satisfying `p`. */
  method FindIndex<T>(xs: seq<T>, p: T -> bool) returns (r: Option<nat>)
    ensures r.Some? ==> r.value < |xs| && p(xs[r.value]) && forall j :: 0 <= j < r.value ==> !p(xs[j])
    ensures r.None? ==> forall j :: 0 <= j < |xs| ==> !p(xs[j])
    ensures r == First(xs, p)
  {
    var i := 0;
    while i < |xs|
      invariant i <= |xs|
      invariant FirstFrom(xs, p, i) == First(xs, p)
      invariant forall j :: 0 <= j < i ==> !p(xs[j])
    {
      if p(xs[i]) {
        return Some(i);
      }
      i := i + 1;
    }
    return None;
  }

  // ---------------------------------------------------------------------------------------
  // ensureChatForMatch

  /** Whether `m` is a match between `x` and `y`, in either order. */
  predicate Between(m: Match, x: string, y: string) {
    (m.userA == x && m.userB == y) || (m.userB == x && m.userA == y)
  }

  /** The id of every match. */
  function MatchIds(matches: seq<Match>): set<string> {
    set m | m in matches :: m.id
  }

  /** Every chat record names an existing match. */
  predicate ChatsLinked(matches: seq<Match>, chats: seq<Chat>) {
    forall c :: c in chats ==> c.matchId in MatchIds(matches)
  }

  /**
   * `ensureChatForMatch(userId)` on the match and chat lists: the first match between the
   * user `me` and `userId`, or a new active one with id `matchId`; then the first chat of that
   * match, or a new one with id `chatId`. Gives the new lists and the chat.
   */
  function EnsureChat(matches: seq<Match>, chats: seq<Chat>, me: string, userId: string,
                      matchId: string, chatId: string): (r: (seq<Match>, seq<Chat>, Chat))
    ensures matches <= r.0 && |r.0| <= |matches| + 1
    ensures chats <= r.1 && |r.1| <= |chats| + 1
    ensures r.2 in r.1
    ensures |r.0| == |matches| + 1 ==> r.0[|matches|] == Match(matchId, me, userId, true, [])
    ensures |r.1| == |chats| + 1 ==> r.1[|chats|] == r.2 == Chat(chatId, r.2.matchId)
  {
    var (ms, m) :=
      match First(matches, (x: Match) => Between(x, me, userId))
      case Some(i) => (matches, matches[i])
      case None => var n := Match(matchId, me, userId, true, []); (matches + [n], n);
    match First(chats, (c: Chat) => c.matchId == m.id)
    case Some(j) => (ms, chats, chats[j])
    case None => var c := Chat(chatId, m.id); (ms, chats + [c], c)
  }

  /**
   * Afterwards there is a match between the two users, and the chat returned opens the first
   * of them. A match is added only when there was none: an active one from `me` to `userId`
   * with id `matchId` and no messages. A chat is added only when that match had none: one with
   * id `chatId`, which is the chat returned.
   */
  lemma EnsureChatFinds(matches: seq<Match>, chats: seq<Chat>, me: string, userId: string,
                        matchId: string, chatId: string)
    ensures var r := EnsureChat(matches, chats, me, userId, matchId, chatId);
      var hit := First(r.0, (x: Match) => Between(x, me, userId));
      && hit.Some?
      && r.2.matchId == r.0[hit.value].id
      && r.2 == r.1[First(r.1, (c: Chat) => c.matchId == r.2.matchId).value]
      && (r.0 == matches <==> First(matches, (x: Match) => Between(x, me, userId)).Some?)
      && (r.1 == chats <==> First(chats, (c: Chat) => c.matchId == r.2.matchId).Some?)
    ensures var r := EnsureChat(matches, chats, me, userId, matchId, chatId);
      && (First(matches, (x: Match) => Between(x, me, userId)).None? ==>
            r.0 == matches + [Match(matchId, me, userId, true, [])])
      && (First(chats, (c: Chat) => c.matchId == r.2.matchId).None? ==>
            r.1 == chats + [Chat(chatId, r.2.matchId)] && r.2 == Chat(chatId, r.2.matchId))
  {
    var p := (x: Match) => Between(x, me, userId);
    FirstAppend(matches, p, Match(matchId, me, userId, true, []));
    var r := EnsureChat(matches, chats, me, userId, matchId, chatId);
    var q := (c: Chat) => c.matchId == r.2.matchId;
    FirstAppend(chats, q, r.2);
  }

  /**
   * A second call for the same user finds what the first one found or created: it returns the
   * same chat and leaves both lists as they are, whatever fresh ids it is given.
   */
  lemma EnsureChatIdempotent(matches: seq<Match>, chats: seq<Chat>, me: string, userId: string,
                             matchId: string, chatId: string, matchId': string, chatId': string)
    ensures var r := EnsureChat(matches, chats, me, userId, matchId, chatId);
      EnsureChat(r.0, r.1, me, userId, matchId', chatId') == r
  {
    EnsureChatFinds(matches, chats, me, userId, matchId, chatId);
  }

  /** If every chat named an existing match before, it still does afterwards. */
  lemma EnsureChatLinked(matches: seq<Match>, chats: seq<Chat>, me: string, userId: string,
                         matchId: string, chatId: string)
    requires ChatsLinked(matches, chats)
    ensures var r := EnsureChat(matches, chats, me, userId, matchId, chatId);
      ChatsLinked(r.0, r.1)
  {
    EnsureChatFinds(matches, chats, me, userId, matchId, chatId);
    var r := EnsureChat(matches, chats, me, userId, matchId, chatId);
    var hit := First(r.0, (x: Match) => Between(x, me, userId)).value;
    assert r.0[hit] in r.0;
    forall c | c in r.1 ensures c.matchId in MatchIds(r.0) {
      if c in chats {
        var m :| m in matches && m.id == c.matchId;
        assert m in r.0;
      }
    }
  }

  // ---------------------------------------------------------------------------------------
  // Swipes

  /**
   * A swipe of `me` on `target`: the match and chat lists afterwards. A like with the instant
   * match (`instantMatch`, the 25% draw) appends an active match with id `matchId` and then
   * runs `ensureChatForMatch`, whose own fresh ids are `ensureMatchId` and `chatId`.
   */
  function Swiped(matches: seq<Match>, chats: seq<Chat>, me: string, target: string, decision: Decision,
                  instantMatch: bool, matchId: string, ensureMatchId: string, chatId: string)
    : (r: (seq<Match>, seq<Chat>))
  {
    if decision == Like && instantMatch then
      var e := EnsureChat(matches + [Match(matchId, me, target, true, [])], chats, me, target, ensureMatchId, chatId);
      (e.0, e.1)
    else (matches, chats)
  }

  /**
   * A pass, or a like without the instant match, changes neither list. An instant match
   * appends exactly the new match (`ensureChatForMatch` then finds a match between the two and
   * adds none) and at most one chat, for the first match between the two users.
   */
  lemma SwipedEffect(matches: seq<Match>, chats: seq<Chat>, me: string, target: string, decision: Decision,
                     instantMatch: bool, matchId: string, ensureMatchId: string, chatId: string)
    ensures var r := Swiped(matches, chats, me, target, decision, instantMatch, matchId, ensureMatchId, chatId);
      if decision == Like && instantMatch then
        && r.0 == matches + [Match(matchId, me, target, true, [])]
        && chats <= r.1 && |r.1| <= |chats| + 1
        && exists c :: c in r.1 && c.matchId == r.0[First(r.0, (x: Match) => Between(x, me, target)).value].id
      else r == (matches, chats)
  {
    if decision == Like && instantMatch {
      var n := Match(matchId, me, target, true, []);
      FirstAppend(matches, (x: Match) => Between(x, me, target), n);
      EnsureChatFinds(matches + [n], chats, me, target, ensureMatchId, chatId);
    }
  }

  /** Once `me` has swiped on a user, like or pass, that user is never recommended to `me` again. */
  lemma SwipedNotRecommended(gyms: seq<Gym>, km: Proximity.Km, me: User, users: seq<User>, swipes: seq<Swipe>,
                             limit: int, swipeId: string, target: string, decision: Decision)
    requires Ranking.Recommendations(gyms, km, me, users, swipes + [Swipe(swipeId, me.id, target, decision)], limit).Ok?
    ensures forall r :: r in Ranking.Recommendations(gyms, km, me, users, swipes + [Swipe(swipeId, me.id, target, decision)], limit).value ==>
      r.user.id != target
  {
    var swipes' := swipes + [Swipe(swipeId, me.id, target, decision)];
    Ranking.RecommendationsEntries(gyms, km, me, users, swipes', limit);
    assert swipes'[|swipes|] in swipes';
  }

  // ---------------------------------------------------------------------------------------
  // Messages and reactions

  /** The other user of a match, seen from `me`. */
  function Partner(m: Match, me: string): string {
    if m.userA == me then m.userB else m.userA
  }

  /**
   * The chat room of match `matchId` opens when a match has that id and its partner is a
   * known user; the index of that (first) match.
   */
  function Room(matches: seq<Match>, users: seq<User>, me: string, matchId: string): (r: Option<nat>)
    ensures r.Some? ==> r.value < |matches| && matches[r.value].id == matchId
    ensures r.Some? ==> forall j :: 0 <= j < r.value ==> matches[j].id != matchId
    ensures r.Some? <==>
      exists i :: 0 <= i < |matches| && matches[i].id == matchId
                  && (forall j :: 0 <= j < i ==> matches[j].id != matchId)
                  && exists u :: u in users && u.id == Partner(matches[i], me)
  {
    match First(matches, (m: Match) => m.id == matchId)
    case None => None
    case Some(i) =>
      if First(users, (u: User) => u.id == Partner(matches[i], me)).Some? then Some(i) else None
  }

  /** The number of `key` reactions: absent counts as 0. */
  function Count(reactions: map<string, nat>, key: string): nat {
    if key in reactions then reactions[key] else 0
  }

  /**
   * Sending `input` in the room of `matchId`: nothing when the room does not open or the trimmed
   * text is empty; otherwise the match's messages gain one text message from `me` with no
   * reactions.
   */
  function Send(matches: seq<Match>, users: seq<User>, me: string, matchId: string, input: string,
                msgId: string): Option<seq<Match>>
  {
    match Room(matches, users, me, matchId)
    case None => None
    case Some(i) =>
      if Trim(input) == [] then None
      else
        var m := matches[i];
        Some(matches[i := m.(messages := m.messages + [Message(msgId, m.id, me, Trim(input), map[])])])
  }

  /**
   * A message is sent exactly when the room opens and the text is not all white space. The
   * room's match then gains exactly that message, carrying the trimmed text, the match id as
   * chat id, `me` as sender and no reactions; every other match and every earlier message is
   * unchanged.
   */
  lemma SendEffect(matches: seq<Match>, users: seq<User>, me: string, matchId: string, input: string, msgId: string)
    ensures Send(matches, users, me, matchId, input, msgId).Some? <==>
      Room(matches, users, me, matchId).Some? && exists k :: 0 <= k < |input| && !IsSpace(input[k])
    ensures Send(matches, users, me, matchId, input, msgId).Some? ==>
      var i := Room(matches, users, me, matchId).value;
      var r := Send(matches, users, me, matchId, input, msgId).value;
      && |r| == |matches|
      && (forall j :: 0 <= j < |r| && j != i ==> r[j] == matches[j])
      && r[i].id == matches[i].id && r[i].userA == matches[i].userA && r[i].userB == matches[i].userB
      && r[i].active == matches[i].active
      && r[i].messages == matches[i].messages + [Message(msgId, matchId, me, Trim(input), map[])]
      && Trim(input) != [] && !IsSpace(Trim(input)[0]) && !IsSpace(Trim(input)[|Trim(input)| - 1])
  {
    TrimBlank(input);
  }

  /**
   * A reaction `key` on message `idx` of the room of `matchId`: nothing when the room does not
   * open or there is no message `idx`; otherwise that message's counter for `key` goes up by one.
   */
  function React(matches: seq<Match>, users: seq<User>, me: string, matchId: string, idx: int,
                 key: string): Option<seq<Match>>
  {
    match Room(matches, users, me, matchId)
    case None => None
    case Some(i) =>
      var m := matches[i];
      if 0 <= idx < |m.messages| then
        var msg := m.messages[idx];
        var msg' := msg.(reactions := msg.reactions[key := Count(msg.reactions, key) + 1]);
        Some(matches[i := m.(messages := m.messages[idx := msg'])])
      else None
  }

  /**
   * A reaction raises exactly one counter -- that of `key` on message `idx` of the room's match --
   * by exactly one; every other counter, every message's other fields, and every other
   * message and match stay as they were.
   */
  lemma ReactEffect(matches: seq<Match>, users: seq<User>, me: string, matchId: string, idx: int, key: string)
    ensures React(matches, users, me, matchId, idx, key).Some? <==>
      Room(matches, users, me, matchId).Some? && 0 <= idx < |matches[Room(matches, users, me, matchId).value].messages|
    ensures React(matches, users, me, matchId, idx, key).Some? ==>
      var i := Room(matches, users, me, matchId).value;
      var r := React(matches, users, me, matchId, idx, key).value;
      && |r| == |matches|
      && (forall j :: 0 <= j < |r| && j != i ==> r[j] == matches[j])
      && r[i] == matches[i].(messages := r[i].messages)
      && |r[i].messages| == |matches[i].messages|
      && (forall n :: 0 <= n < |r[i].messages| && n != idx ==> r[i].messages[n] == matches[i].messages[n])
      && r[i].messages[idx] == matches[i].messages[idx].(reactions := r[i].messages[idx].reactions)
      && Count(r[i].messages[idx].reactions, key) == Count(matches[i].messages[idx].reactions, key) + 1
      && (forall k :: k != key ==>
            Count(r[i].messages[idx].reactions, k) == Count(matches[i].messages[idx].reactions, k))
  {
  }

  /** Sending and reacting keep every match's id, so chat records keep naming existing matches. */
  lemma UpdateKeepsLinks(matches: seq<Match>, chats: seq<Chat>, i: nat, m: Match)
    requires i < |matches| && m.id == matches[i].id
    requires ChatsLinked(matches, chats)
    ensures ChatsLinked(matches[i := m], chats)
  {
    forall c | c in chats ensures c.matchId in MatchIds(matches[i := m]) {
      var x :| x in matches && x.id == c.matchId;
      var j :| 0 <= j < |matches| && matches[j] == x;
      if j == i {
        assert matches[i := m][i] == m;
      } else {
        assert matches[i := m][j] == x;
      }
    }
  }

  /** Sending a message keeps every chat record linked to a match. */
  lemma SendLinked(matches: seq<Match>, chats: seq<Chat>, users: seq<User>, me: string, matchId: string,
                   input: string, msgId: string)
    requires ChatsLinked(matches, chats)
    requires Send(matches, users, me, matchId, input, msgId).Some?
    ensures ChatsLinked(Send(matches, users, me, matchId, input, msgId).value, chats)
  {
    var i := Room(matches, users, me, matchId).value;
    var m := matches[i];
    UpdateKeepsLinks(matches, chats, i, m.(messages := m.messages + [Message(msgId, m.id, me, Trim(input), map[])]));
  }

  /** Reacting keeps every chat record linked to a match. */
  lemma ReactLinked(matches: seq<Match>, chats: seq<Chat>, users: seq<User>, me: string, matchId: string,
                    idx: int, key: string)
    requires ChatsLinked(matches, chats)
    requires React(matches, users, me, matchId, idx, key).Some?
    ensures ChatsLinked(React(matches, users, me, matchId, idx, key).value, chats)
  {
    var i := Room(matches, users, me, matchId).value;
    var r := React(matches, users, me, matchId, idx, key).value;
    UpdateKeepsLinks(matches, chats, i, r[i]);
    assert r == matches[i := r[i]];
  }

  // ---------------------------------------------------------------------------------------
  // The application state

  /** The part of the application state the handlers change, for the signed-in user `meId`. */
  class State {
    var meId: string
    var users: seq<User>
    var swipes: seq<Swipe>
    var matches: seq<Match>
    var chats: seq<Chat>

    /**
     * The state as loaded, for the signed-in user `meId`. The seed starts with no chats, and
     * only `ensureChatForMatch` adds one, for an existing match, while no match is ever
     * removed; so a loaded state has every chat linked, and the handlers keep it so.
     */
    constructor(meId: string, users: seq<User>, swipes: seq<Swipe>, matches: seq<Match>, chats: seq<Chat>)
      requires ChatsLinked(matches, chats)
      ensures Valid()
      ensures this.meId == meId && this.users == users && this.swipes == swipes
      ensures this.matches == matches && this.chats == chats
    {
      this.meId := meId;
      this.users := users;
      this.swipes := swipes;
      this.matches := matches;
      this.chats := chats;
    }

    /** Every chat record names an existing match. */
    predicate Valid()
      reads this
    {
      ChatsLinked(matches, chats)
    }

    /**
     * `ensureChatForMatch(userId)`: finds or creates the match with `userId`, then finds or
     * creates its chat, and returns the chat. `matchId` and `chatId` are the fresh ids.
     */
    method EnsureChatForMatch(userId: string, matchId: string, chatId: string) returns (chat: Chat)
      requires Valid()
      modifies this
      ensures Valid()
      ensures (matches, chats, chat) == EnsureChat(old(matches), old(chats), meId, userId, matchId, chatId)
      ensures chat in chats && chat.matchId in MatchIds(matches)
      ensures meId == old(meId) && users == old(users) && swipes == old(swipes)
    {
      var me := meId;
      EnsureChatLinked(matches, chats, me, userId, matchId, chatId);
      var found := FindIndex(matches, (x: Match) => Between(x, me, userId));
      var m;
      if found.Some? {
        m := matches[found.value];
      } else {
        m := Match(matchId, me, userId, true, []);
        matches := matches + [m];
      }
      var mid := m.id;
      var existing := FindIndex(chats, (c: Chat) => c.matchId == mid);
      if existing.Some? {
        chat := chats[existing.value];
      } else {
        chat := Chat(chatId, mid);
        chats := chats + [chat];
      }
    }

    /**
     * A swipe of the signed-in user on `targetId`: records it, and for a like with the instant
     * match (`instantMatch`) appends an active match and ensures its chat. `swipeId`, `matchId`,
     * `ensureMatchId` and `chatId` are the fresh ids the handler derives from the clock.
     */
    method OnSwipe(targetId: string, decision: Decision, instantMatch: bool,
                   swipeId: string, matchId: string, ensureMatchId: string, chatId: string)
      requires Valid()
      modifies this
      ensures Valid()
      ensures swipes == old(swipes) + [Swipe(swipeId, meId, targetId, decision)]
      ensures (matches, chats) ==
        Swiped(old(matches), old(chats), meId, targetId, decision, instantMatch, matchId, ensureMatchId, chatId)
      ensures meId == old(meId) && users == old(users)
    {
      swipes := swipes + [Swipe(swipeId, meId, targetId, decision)];
      if decision == Like && instantMatch {
        matches := matches + [Match(matchId, meId, targetId, true, [])];
        forall c | c in chats ensures c.matchId in MatchIds(matches) {
          var x :| x in old(matches) && x.id == c.matchId;
          assert x in matches;
        }
        var _ := EnsureChatForMatch(targetId, ensureMatchId, chatId);
      }
    }

    /**
     * The send button of the room of `matchId`: appends the trimmed `input` as a message of the
     * signed-in user when the room opens and the text is not blank. Reports whether it did.
     */
    method SendMessage(matchId: string, input: string, msgId: string) returns (sent: bool)
      requires Valid()
      modifies this
      ensures Valid()
      ensures sent == Send(old(matches), users, meId, matchId, input, msgId).Some?
      ensures matches == if sent then Send(old(matches), users, meId, matchId, input, msgId).value else old(matches)
      ensures meId == old(meId) && users == old(users) && swipes == old(swipes) && chats == old(chats)
    {
      var i := OpenRoom(matchId);
      var text := Trim(input);
      if i.None? || text == [] {
        return false;
      }
      SendLinked(matches, chats, users, meId, matchId, input, msgId);
      var m := matches[i.value];
      matches := matches[i.value := m.(messages := m.messages + [Message(msgId, m.id, meId, text, map[])])];
      return true;
    }

    /**
     * A reaction button: raises the `key` counter of message `idx` in the room of `matchId`
     * when the room opens and has that message. Reports whether it did.
     */
    method AddReaction(matchId: string, idx: int, key: string) returns (done: bool)
      requires Valid()
      modifies this
      ensures Valid()
      ensures done == React(old(matches), users, meId, matchId, idx, key).Some?
      ensures matches == if done then React(old(matches), users, meId, matchId, idx, key).value else old(matches)
      ensures meId == old(meId) && users == old(users) && swipes == old(swipes) && chats == old(chats)
    {
      var i := OpenRoom(matchId);
      if i.None? || !(0 <= idx < |matches[i.value].messages|) {
        return false;
      }
      ReactLinked(matches, chats, users, meId, matchId, idx, key);
      var m := matches[i.value];
      var msg := m.messages[idx];
      var count := if key in msg.reactions then msg.reactions[key] else 0;
      var msg' := msg.(reactions := msg.reactions[key := count + 1]);
      matches := matches[i.value := m.(messages := m.messages[idx := msg'])];
      return true;
    }

    /** `openChatRoom(matchId)`'s guard: the index of the match when its room opens. */
    method OpenRoom(matchId: string) returns (i: Option<nat>)
      ensures i == Room(matches, users, meId, matchId)
    {
      var found := FindIndex(matches, (m: Match) => m.id == matchId);
      if found.None? {
        return None;
      }
      var partnerId := Partner(matches[found.value], meId);
      var partner := FindIndex(users, (u: User) => u.id == partnerId);
      if partner.None? {
        return None;
      }
      return found;
    }
  }
}
