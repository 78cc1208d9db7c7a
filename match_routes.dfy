/** The affinity engine of backend/src/routes/match.ts: liking a user,
    creating a match when the like is mutual, listing matches and likes, and
    unmatching. */
module MatchRoutes {
  import opened Common
  import opened Paging
  import opened Store

  /** The Like and Match tables, the part of the store that `POST /like`
      and `DELETE /matches/:matchId` change. */
  datatype Affinity = Affinity(likes: seq<Like>, matches: seq<Match>)

  /** A match row as `match.create` returns it with its two users included. */
  datatype MatchWithUsers = MatchWithUsers(row: Match, user1: Option<UserSummary>, user2: Option<UserSummary>)

  /** The answer of `POST /like`. */
  datatype LikeAnswer = LikeAnswer(like: Like, newMatch: Option<MatchWithUsers>, isMatch: bool)

  /** The store filter `senderId = s AND receiverId = r`. */
  function SameLike(s: nat, r: nat): Like -> bool {
    (l: Like) => l.senderId == s && l.receiverId == r
  }

  /** True when the Like table holds a like from `s` to `r`. */
  predicate LikeExists(likes: seq<Like>, s: nat, r: nat) {
    exists i :: 0 <= i < |likes| && likes[i].senderId == s && likes[i].receiverId == r
  }

  lemma FirstLikeIffExists(likes: seq<Like>, s: nat, r: nat)
    ensures First(likes, SameLike(s, r)).Some? <==> LikeExists(likes, s, r)
  {
    if LikeExists(likes, s, r) {
      var i :| 0 <= i < |likes| && likes[i].senderId == s && likes[i].receiverId == r;
      assert SameLike(s, r)(likes[i]);
    }
  }

  /** `POST /like` from `sender` to `receiver` at time `now`: the answer and
      the Like and Match tables afterwards. */
  function LikeStep(users: seq<User>, a: Affinity, sender: nat, receiver: nat, now: int): (r: (Result<LikeAnswer>, Affinity))
    ensures sender == receiver ==> IsStatus(r.0, BAD_REQUEST) && r.1 == a
    ensures sender != receiver && receiver >= |users| ==> IsStatus(r.0, NOT_FOUND) && r.1 == a
    ensures sender != receiver && receiver < |users| && LikeExists(a.likes, sender, receiver) ==>
      IsStatus(r.0, BAD_REQUEST) && r.1 == a
    ensures sender != receiver && receiver < |users| && !LikeExists(a.likes, sender, receiver) ==>
      && r.0.Ok?
      && r.0.value.like == Like(|a.likes|, sender, receiver, now)
      && r.1.likes == a.likes + [r.0.value.like]
      && r.0.value.isMatch == r.0.value.newMatch.Some?
      && (r.0.value.newMatch.Some? <==> LikeExists(a.likes, receiver, sender))
      && (r.0.value.newMatch.Some? ==>
            && r.0.value.newMatch.value.row == Match(|a.matches|, sender, receiver, true, now)
            && r.0.value.newMatch.value.user1 == SummaryOf(users, sender)
            && r.0.value.newMatch.value.user2 == SummaryOf(users, receiver)
            && r.1.matches == a.matches + [r.0.value.newMatch.value.row])
      && (r.0.value.newMatch.None? ==> r.1.matches == a.matches)
  {
    FirstLikeIffExists(a.likes, sender, receiver);
    if sender == receiver then
      (Fail(Http(BAD_REQUEST, "Vous ne pouvez pas vous liker vous-même")), a)
    else if UserById(users, receiver).None? then
      (Fail(Http(NOT_FOUND, "Utilisateur non trouvé")), a)
    else if First(a.likes, SameLike(sender, receiver)).Some? then
      (Fail(Http(BAD_REQUEST, "Vous avez déjà liké cet utilisateur")), a)
    else
      var like := Like(|a.likes|, sender, receiver, now);
      var likes := a.likes + [like];
      FirstLikeIffExists(likes, receiver, sender);
      LikeExistsAppend(a.likes, like, receiver, sender);
      if First(likes, SameLike(receiver, sender)).Some? then
        var m := Match(|a.matches|, sender, receiver, true, now);
        var shown := MatchWithUsers(m, SummaryOf(users, sender), SummaryOf(users, receiver));
        (Ok(LikeAnswer(like, Some(shown), true)), Affinity(likes, a.matches + [m]))
      else
        (Ok(LikeAnswer(like, None, false)), Affinity(likes, a.matches))
  }

  /** True when match `m` is between `x` and `y`, in either order. */
  predicate Pairs(m: Match, x: nat, y: nat) {
    (m.user1Id == x && m.user2Id == y) || (m.user1Id == y && m.user2Id == x)
  }

  predicate MatchExists(matches: seq<Match>, x: nat, y: nat) {
    exists k :: 0 <= k < |matches| && Pairs(matches[k], x, y)
  }

  /** Nobody likes themself, and each ordered pair is liked at most once. */
  ghost predicate LikesSane(likes: seq<Like>) {
    && (forall i :: 0 <= i < |likes| ==> likes[i].senderId != likes[i].receiverId)
    && (forall i, j :: 0 <= i < j < |likes| ==>
          !(likes[i].senderId == likes[j].senderId && likes[i].receiverId == likes[j].receiverId))
  }

  /** Every match is backed by likes in both directions. */
  ghost predicate MatchesBacked(likes: seq<Like>, matches: seq<Match>) {
    forall k :: 0 <= k < |matches| ==>
      LikeExists(likes, matches[k].user1Id, matches[k].user2Id)
      && LikeExists(likes, matches[k].user2Id, matches[k].user1Id)
  }

  /** Every mutual pair of likes has a match. */
  ghost predicate MutualsMatched(likes: seq<Like>, matches: seq<Match>) {
    forall x, y :: LikeExists(likes, x, y) && LikeExists(likes, y, x) ==> MatchExists(matches, x, y)
  }

  /** No unordered pair has two matches. */
  ghost predicate PairsUnique(matches: seq<Match>) {
    forall k, l :: 0 <= k < l < |matches| ==> !Pairs(matches[l], matches[k].user1Id, matches[k].user2Id)
  }

  /** What `POST /like` keeps true of the Like and Match tables when requests
      run one after another. */
  ghost predicate AffinityInvariant(a: Affinity) {
    && LikesSane(a.likes)
    && MatchesBacked(a.likes, a.matches)
    && MutualsMatched(a.likes, a.matches)
    && PairsUnique(a.matches)
  }

  lemma EmptyAffinity()
    ensures AffinityInvariant(Affinity([], []))
  {
  }

  lemma LikeExistsAppend(likes: seq<Like>, l: Like, x: nat, y: nat)
    ensures LikeExists(likes + [l], x, y) <==> LikeExists(likes, x, y) || (l.senderId == x && l.receiverId == y)
  {
    if LikeExists(likes, x, y) {
      var i :| 0 <= i < |likes| && likes[i].senderId == x && likes[i].receiverId == y;
      assert (likes + [l])[i] == likes[i];
    }
    if l.senderId == x && l.receiverId == y {
      assert (likes + [l])[|likes|] == l;
    }
  }

  /** Appending a match whose pair has no match yet keeps every unordered
      pair at one match at most. */
  lemma NewMatchKeepsPairsUnique(matches: seq<Match>, m: Match)
    requires PairsUnique(matches)
    requires forall k :: 0 <= k < |matches| ==> !Pairs(m, matches[k].user1Id, matches[k].user2Id)
    ensures PairsUnique(matches + [m])
  {
    var b := matches + [m];
    forall k, l | 0 <= k < l < |b| ensures !Pairs(b[l], b[k].user1Id, b[k].user2Id) {
      assert b[k] == matches[k];
    }
  }

  /** A like that is neither to oneself nor a repeat keeps the likes sane. */
  lemma NewLikeKeepsLikesSane(likes: seq<Like>, like: Like)
    requires LikesSane(likes)
    requires like.senderId != like.receiverId && !LikeExists(likes, like.senderId, like.receiverId)
    ensures LikesSane(likes + [like])
  {
    var b := likes + [like];
    forall i, j | 0 <= i < j < |b|
      ensures !(b[i].senderId == b[j].senderId && b[i].receiverId == b[j].receiverId)
    {
      if j == |likes| {
        assert b[i] == likes[i];
      }
    }
  }

  /** After appending `like`, a like exists iff it existed or is `like`. */
  lemma AppendedLikes(likes: seq<Like>, like: Like)
    ensures forall x, y :: LikeExists(likes + [like], x, y) <==>
      LikeExists(likes, x, y) || (x == like.senderId && y == like.receiverId)
  {
    forall x, y ensures LikeExists(likes + [like], x, y) <==>
      LikeExists(likes, x, y) || (x == like.senderId && y == like.receiverId)
    {
      LikeExistsAppend(likes, like, x, y);
    }
  }

  /** The match of a like answering a reverse like is backed both ways. */
  lemma NewMatchBacked(likes: seq<Like>, matches: seq<Match>, like: Like, m: Match)
    requires MatchesBacked(likes, matches)
    requires LikeExists(likes, like.receiverId, like.senderId)
    requires m.user1Id == like.senderId && m.user2Id == like.receiverId
    ensures MatchesBacked(likes + [like], matches + [m])
  {
    var b, ms := likes + [like], matches + [m];
    AppendedLikes(likes, like);
    forall k | 0 <= k < |ms|
      ensures LikeExists(b, ms[k].user1Id, ms[k].user2Id) && LikeExists(b, ms[k].user2Id, ms[k].user1Id)
    {
      if k < |matches| {
        assert ms[k] == matches[k];
      }
    }
  }

  /** With the new match, every mutual pair still has a match. */
  lemma NewMatchMutuals(likes: seq<Like>, matches: seq<Match>, like: Like, m: Match)
    requires MutualsMatched(likes, matches)
    requires m.user1Id == like.senderId && m.user2Id == like.receiverId
    ensures MutualsMatched(likes + [like], matches + [m])
  {
    var b, ms := likes + [like], matches + [m];
    AppendedLikes(likes, like);
    assert Pairs(ms[|matches|], like.senderId, like.receiverId);
    forall x, y | LikeExists(b, x, y) && LikeExists(b, y, x) ensures MatchExists(ms, x, y) {
      if !Pairs(m, x, y) {
        var k :| 0 <= k < |matches| && Pairs(matches[k], x, y);
        assert ms[k] == matches[k];
      }
    }
  }

  /** Without a reverse like, the new like completes no mutual pair. */
  lemma OneSidedLikeMutuals(likes: seq<Like>, matches: seq<Match>, like: Like)
    requires MutualsMatched(likes, matches)
    requires like.senderId != like.receiverId && !LikeExists(likes, like.receiverId, like.senderId)
    ensures MutualsMatched(likes + [like], matches)
  {
    AppendedLikes(likes, like);
  }

  /** No match pairs two users when one of them never liked the other. */
  lemma NoMatchWithoutLike(likes: seq<Like>, matches: seq<Match>, m: Match)
    requires MatchesBacked(likes, matches)
    requires !LikeExists(likes, m.user1Id, m.user2Id)
    ensures forall k :: 0 <= k < |matches| ==> !Pairs(m, matches[k].user1Id, matches[k].user2Id)
  {
  }

  /** A like that is neither to oneself nor a repeat keeps the invariant when
      it is appended together with the match it creates, if any: one exactly
      when the reverse like exists. */
  lemma AcceptedLikeKeepsAffinity(a: Affinity, like: Like, newMatch: Option<Match>)
    requires AffinityInvariant(a)
    requires like.senderId != like.receiverId && !LikeExists(a.likes, like.senderId, like.receiverId)
    requires newMatch.Some? <==> LikeExists(a.likes, like.receiverId, like.senderId)
    requires newMatch.Some? ==> newMatch.value.user1Id == like.senderId && newMatch.value.user2Id == like.receiverId
    ensures AffinityInvariant(Affinity(a.likes + [like], if newMatch.Some? then a.matches + [newMatch.value] else a.matches))
  {
    NewLikeKeepsLikesSane(a.likes, like);
    if newMatch.Some? {
      NewMatchBacked(a.likes, a.matches, like, newMatch.value);
      NewMatchMutuals(a.likes, a.matches, like, newMatch.value);
      NoMatchWithoutLike(a.likes, a.matches, newMatch.value);
      NewMatchKeepsPairsUnique(a.matches, newMatch.value);
    } else {
      AppendedLikes(a.likes, like);
      OneSidedLikeMutuals(a.likes, a.matches, like);
    }
  }

  /** Sequential likes keep the affinity invariant. */
  lemma LikePreservesAffinity(users: seq<User>, a: Affinity, sender: nat, receiver: nat, now: int)
    requires AffinityInvariant(a)
    ensures AffinityInvariant(LikeStep(users, a, sender, receiver, now).1)
  {
    var (r, b) := LikeStep(users, a, sender, receiver, now);
    if r.Ok? {
      var created := if r.value.newMatch.Some? then Some(r.value.newMatch.value.row) else None;
      AcceptedLikeKeepsAffinity(a, r.value.like, created);
    }
  }

  /** Two matches at different positions never pair the same users. */
  lemma PairsUniqueAt(matches: seq<Match>, k: nat, l: nat)
    requires PairsUnique(matches) && k < |matches| && l < |matches|
    ensures k < l ==> !Pairs(matches[l], matches[k].user1Id, matches[k].user2Id)
  {
  }

  /** Under the invariant, a pair of mutual likes has exactly one match. */
  lemma MutualLikesHaveOneMatch(a: Affinity, x: nat, y: nat)
    requires AffinityInvariant(a)
    requires LikeExists(a.likes, x, y) && LikeExists(a.likes, y, x)
    ensures exists k :: 0 <= k < |a.matches| && Pairs(a.matches[k], x, y)
    ensures forall k, l ::
      (0 <= k < |a.matches| && 0 <= l < |a.matches| && Pairs(a.matches[k], x, y) && Pairs(a.matches[l], x, y)) ==> k == l
  {
    forall k, l | 0 <= k < |a.matches| && 0 <= l < |a.matches| && Pairs(a.matches[k], x, y) && Pairs(a.matches[l], x, y)
      ensures k == l
    {
      PairsUniqueAt(a.matches, k, l);
      PairsUniqueAt(a.matches, l, k);
    }
  }

  /** The end-to-end affinity scenario: A likes B (no match yet), then B
      likes A, which creates the match. */
  lemma TwoLikesMakeOneMatch(users: seq<User>, x: nat, y: nat, t1: int, t2: int)
    requires x != y && x < |users| && y < |users|
    ensures var (r1, a1) := LikeStep(users, Affinity([], []), x, y, t1);
            var (r2, a2) := LikeStep(users, a1, y, x, t2);
            && r1.Ok? && !r1.value.isMatch
            && r2.Ok? && r2.value.isMatch
            && |a2.matches| == 1 && Pairs(a2.matches[0], x, y)
  {
    var (r1, a1) := LikeStep(users, Affinity([], []), x, y, t1);
    assert a1.likes == [Like(0, x, y, t1)];
    assert !LikeExists(a1.likes, y, x);
    assert LikeExists(a1.likes, x, y) by { assert a1.likes[0].senderId == x; }
  }

  /** `DELETE /matches/:matchId` only ever flips one match to inactive, which
      keeps the invariant. */
  lemma DeactivatePreservesAffinity(a: Affinity, k: nat)
    requires AffinityInvariant(a)
    requires k < |a.matches|
    ensures AffinityInvariant(Affinity(a.likes, a.matches[k := a.matches[k].(isActive := false)]))
  {
    SamePairsSameAffinity(a, Affinity(a.likes, a.matches[k := a.matches[k].(isActive := false)]));
  }

  /** The invariant only looks at the likes and at who each match pairs. */
  lemma SamePairsSameAffinity(a: Affinity, b: Affinity)
    requires AffinityInvariant(a)
    requires b.likes == a.likes && |b.matches| == |a.matches|
    requires forall i :: 0 <= i < |a.matches| ==>
      b.matches[i].user1Id == a.matches[i].user1Id && b.matches[i].user2Id == a.matches[i].user2Id
    ensures AffinityInvariant(b)
  {
    forall x, y | LikeExists(b.likes, x, y) && LikeExists(b.likes, y, x)
      ensures MatchExists(b.matches, x, y)
    {
      var j :| 0 <= j < |a.matches| && Pairs(a.matches[j], x, y);
      assert Pairs(b.matches[j], x, y);
    }
  }

  /** The handler of `POST /like`, in the source's order of store calls. */
  method PostLike(db: Db, senderId: nat, receiverId: nat, now: int) returns (r: Result<LikeAnswer>)
    requires db.Valid()
    modifies db`likes, db`matches
    ensures db.Valid()
    ensures (r, Affinity(db.likes, db.matches)) == LikeStep(db.users, old(Affinity(db.likes, db.matches)), senderId, receiverId, now)
  {
    if senderId == receiverId {
      return Fail(Http(BAD_REQUEST, "Vous ne pouvez pas vous liker vous-même"));
    }
    var receiver := UserById(db.users, receiverId);
    if receiver.None? {
      return Fail(Http(NOT_FOUND, "Utilisateur non trouvé"));
    }
    var existingLike := First(db.likes, SameLike(senderId, receiverId));
    if existingLike.Some? {
      return Fail(Http(BAD_REQUEST, "Vous avez déjà liké cet utilisateur"));
    }
    var like := Like(|db.likes|, senderId, receiverId, now);
    db.likes := db.likes + [like];
    var mutualLike := First(db.likes, SameLike(receiverId, senderId));
    var newMatch: Option<MatchWithUsers> := None;
    if mutualLike.Some? {
      var m := Match(|db.matches|, senderId, receiverId, true, now);
      db.matches := db.matches + [m];
      newMatch := Some(MatchWithUsers(m, SummaryOf(db.users, senderId), SummaryOf(db.users, receiverId)));
    }
    r := Ok(LikeAnswer(like, newMatch, newMatch.Some?));
  }

  /** The answer of `DELETE /matches/:matchId`. */
  method DeleteMatch(db: Db, matchId: nat, userId: nat) returns (r: Result<bool>)
    requires db.Valid()
    modifies db`matches
    ensures db.Valid()
    ensures MatchFor(old(db.matches), matchId, userId).None? ==>
      IsStatus(r, NOT_FOUND) && db.matches == old(db.matches)
    ensures MatchFor(old(db.matches), matchId, userId).Some? ==>
      r == Ok(true) && db.matches == old(db.matches)[matchId := old(db.matches)[matchId].(isActive := false)]
  {
    var found := MatchFor(db.matches, matchId, userId);
    if found.None? {
      return Fail(Http(NOT_FOUND, "Match non trouvé"));
    }
    db.matches := db.matches[matchId := db.matches[matchId].(isActive := false)];
    r := Ok(true);
  }

  // ---------------------------------------------------------------------
  // Read-only queries

  /** The page and limit of a list query, with the route's defaults. */
  function WindowFor(page: Option<int>, limit: Option<int>, defaultLimit: int): Option<Window> {
    PageWindow(if page.Some? then page.value else 1, if limit.Some? then limit.value else defaultLimit)
  }

  /** The last message of a match as `GET /matches` reports it. Its content
      is what the Message table stores, that is the ciphertext. */
  datatype LastMessage = LastMessage(content: string, createdAt: int, isFromMe: bool)

  datatype MatchView = MatchView(
    id: nat,
    otherUserId: nat,
    otherUser: Option<UserSummary>,
    lastMessage: Option<LastMessage>,
    createdAt: int)

  /** The position of the newest message of match `matchId`, if it has any. */
  function NewestMessage(messages: seq<Message>, matchId: nat): (r: Option<nat>)
    ensures r.None? <==> forall i :: 0 <= i < |messages| ==> messages[i].matchId != matchId
    ensures r.Some? ==> r.value < |messages| && messages[r.value].matchId == matchId
    ensures r.Some? ==> forall j :: r.value < j < |messages| ==> messages[j].matchId != matchId
  {
    if messages == [] then None
    else if messages[|messages| - 1].matchId == matchId then Some(|messages| - 1)
    else NewestMessage(messages[..|messages| - 1], matchId)
  }

  /** How one active match of `u` is shown to `u`. */
  function ViewOf(users: seq<User>, messages: seq<Message>, u: nat, m: Match): (v: MatchView)
    ensures v.id == m.id && v.createdAt == m.createdAt
    ensures Participant(m, u) && m.user1Id != m.user2Id ==> v.otherUserId != u && Participant(m, v.otherUserId)
    ensures v.otherUser == SummaryOf(users, v.otherUserId)
    ensures v.lastMessage.Some? <==> exists i :: 0 <= i < |messages| && messages[i].matchId == m.id
    ensures v.lastMessage.Some? ==> exists i ::
      && 0 <= i < |messages| && messages[i].matchId == m.id
      && (forall j :: i < j < |messages| ==> messages[j].matchId != m.id)
      && v.lastMessage.value.content == messages[i].content
      && (v.lastMessage.value.isFromMe <==> messages[i].senderId == u)
  {
    var other := if m.user1Id == u then m.user2Id else m.user1Id;
    var last := match NewestMessage(messages, m.id)
      case Some(i) => Some(LastMessage(messages[i].content, messages[i].createdAt, messages[i].senderId == u))
      case None => None;
    MatchView(m.id, other, SummaryOf(users, other), last, m.createdAt)
  }

  /** The store filter `(user1Id = u OR user2Id = u) AND isActive`. */
  function ActiveWith(u: nat): Match -> bool {
    (m: Match) => Participant(m, u) && m.isActive
  }

  /** How `GET /matches` shows each match to `u`. */
  function ShownAs(users: seq<User>, messages: seq<Message>, u: nat): Match -> MatchView {
    (m: Match) => ViewOf(users, messages, u, m)
  }

  /** `v` shows one of the active matches of `u`. */
  predicate ActiveMatchView(users: seq<User>, matches: seq<Match>, messages: seq<Message>, u: nat, v: MatchView) {
    exists m :: m in matches && m.isActive && Participant(m, u) && v == ViewOf(users, messages, u, m)
  }

  /** `GET /matches`: the active matches of `u`, newest first, one page. */
  function ListMatches(users: seq<User>, matches: seq<Match>, messages: seq<Message>, u: nat,
                       page: Option<int>, limit: Option<int>): (r: Result<seq<MatchView>>)
    ensures r.Ok? <==> WindowFor(page, limit, 20).Some?
    ensures r.Ok? ==> |r.value| <= WindowFor(page, limit, 20).value.take
    ensures r.Ok? ==> forall k :: 0 <= k < |r.value| ==> ActiveMatchView(users, matches, messages, u, r.value[k])
    ensures r.Ok? ==> IsPage(r.value, Reverse(Filter(matches, ActiveWith(u))), WindowFor(page, limit, 20).value,
                             ShownAs(users, messages, u))
  {
    match WindowFor(page, limit, 20)
    case None => Fail(INTERNAL_ERROR)
    case Some(w) =>
      var mine := Filter(matches, ActiveWith(u));
      var rows := Slice(Reverse(mine), w);
      PageOfFilter(matches, ActiveWith(u), w);
      SliceFacts(Reverse(mine), w);
      var views := ShowSlice(Reverse(mine), w, ShownAs(users, messages, u));
      forall k | 0 <= k < |views| ensures ActiveMatchView(users, matches, messages, u, views[k]) {
        var m := rows[k];
        assert m in matches && m.isActive && Participant(m, u) && views[k] == ViewOf(users, messages, u, m);
      }
      Ok(views)
  }

  /** No active match of `u` is left out of `GET /matches`: with pages of
      any size, the i-th newest is on page `i / limit + 1`. */
  lemma EveryActiveMatchListed(users: seq<User>, matches: seq<Match>, messages: seq<Message>, u: nat,
                               m: Match, limit: nat)
    requires 0 < limit && m in matches && m.isActive && Participant(m, u)
    ensures exists p :: 1 <= p && var r := ListMatches(users, matches, messages, u, Some(p), Some(limit));
                        r.Ok? && ViewOf(users, messages, u, m) in r.value
  {
    var mine := Filter(matches, ActiveWith(u));
    var j :| 0 <= j < |matches| && matches[j] == m;
    assert ActiveWith(u)(matches[j]);
    ReverseMembership(mine, m);
    var i :| 0 <= i < |Reverse(mine)| && Reverse(mine)[i] == m;
    var p := i / limit + 1;
    PageOfItem(i, limit);
    assert WindowFor(Some(p), Some(limit), 20) == Some(Window(i / limit * limit, limit));
    var r := ListMatches(users, matches, messages, u, Some(p), Some(limit));
    ItemOnItsPage(r.value, Reverse(mine), limit, i, ShownAs(users, messages, u));
    assert r.value[i % limit] == ViewOf(users, messages, u, m);
  }

  /** A user as the like lists embed them, with their interests. */
  datatype UserCard = UserCard(id: nat, username: string, profileImage: Option<string>, interests: seq<Interest>)

  datatype LikeView = LikeView(id: nat, user: Option<UserCard>, createdAt: int)

  function CardOf(users: seq<User>, links: seq<UserInterest>, interests: seq<Interest>, id: nat): Option<UserCard> {
    match UserById(users, id)
    case Some(x) => Some(UserCard(x.id, x.username, x.profileImage, InterestsOf(links, interests, x.id)))
    case None => None
  }

  function ReceivedBy(u: nat): Like -> bool { (l: Like) => l.receiverId == u }

  function SentBy(u: nat): Like -> bool { (l: Like) => l.senderId == u }

  /** A received like, shown with its sender. */
  function FromView(users: seq<User>, links: seq<UserInterest>, interests: seq<Interest>, l: Like): LikeView {
    LikeView(l.id, CardOf(users, links, interests, l.senderId), l.createdAt)
  }

  /** A sent like, shown with its receiver. */
  function ToView(users: seq<User>, links: seq<UserInterest>, interests: seq<Interest>, l: Like): LikeView {
    LikeView(l.id, CardOf(users, links, interests, l.receiverId), l.createdAt)
  }

  /** How `GET /likes-received` shows each like: with its sender. */
  function SenderShown(users: seq<User>, links: seq<UserInterest>, interests: seq<Interest>): Like -> LikeView {
    (l: Like) => FromView(users, links, interests, l)
  }

  /** How `GET /likes-sent` shows each like: with its receiver. */
  function ReceiverShown(users: seq<User>, links: seq<UserInterest>, interests: seq<Interest>): Like -> LikeView {
    (l: Like) => ToView(users, links, interests, l)
  }

  /** `v` shows a like that `u` received. */
  predicate ReceivedLikeView(users: seq<User>, links: seq<UserInterest>, interests: seq<Interest>, likes: seq<Like>,
                             u: nat, v: LikeView) {
    exists l :: l in likes && l.receiverId == u && v == FromView(users, links, interests, l)
  }

  /** `v` shows a like that `u` sent. */
  predicate SentLikeView(users: seq<User>, links: seq<UserInterest>, interests: seq<Interest>, likes: seq<Like>,
                         u: nat, v: LikeView) {
    exists l :: l in likes && l.senderId == u && v == ToView(users, links, interests, l)
  }

  /** `GET /likes-received`: likes whose receiver is `u`, newest first, one
      page, each with its sender. */
  function LikesReceived(users: seq<User>, links: seq<UserInterest>, interests: seq<Interest>, likes: seq<Like>,
                         u: nat, page: Option<int>, limit: Option<int>): (r: Result<seq<LikeView>>)
    ensures r.Ok? <==> WindowFor(page, limit, 20).Some?
    ensures r.Ok? ==> |r.value| <= WindowFor(page, limit, 20).value.take
    ensures r.Ok? ==> forall k :: 0 <= k < |r.value| ==> ReceivedLikeView(users, links, interests, likes, u, r.value[k])
    ensures r.Ok? ==> IsPage(r.value, Reverse(Filter(likes, ReceivedBy(u))), WindowFor(page, limit, 20).value,
                             SenderShown(users, links, interests))
  {
    match WindowFor(page, limit, 20)
    case None => Fail(INTERNAL_ERROR)
    case Some(w) =>
      var mine := Filter(likes, ReceivedBy(u));
      var rows := Slice(Reverse(mine), w);
      PageOfFilter(likes, ReceivedBy(u), w);
      SliceFacts(Reverse(mine), w);
      var views := ShowSlice(Reverse(mine), w, SenderShown(users, links, interests));
      forall k | 0 <= k < |views| ensures ReceivedLikeView(users, links, interests, likes, u, views[k]) {
        var l := rows[k];
        assert l in likes && l.receiverId == u && views[k] == FromView(users, links, interests, l);
      }
      Ok(views)
  }

  /** `GET /likes-sent`: likes whose sender is `u`, newest first, one page,
      each with its receiver. */
  function LikesSent(users: seq<User>, links: seq<UserInterest>, interests: seq<Interest>, likes: seq<Like>,
                     u: nat, page: Option<int>, limit: Option<int>): (r: Result<seq<LikeView>>)
    ensures r.Ok? <==> WindowFor(page, limit, 20).Some?
    ensures r.Ok? ==> |r.value| <= WindowFor(page, limit, 20).value.take
    ensures r.Ok? ==> forall k :: 0 <= k < |r.value| ==> SentLikeView(users, links, interests, likes, u, r.value[k])
    ensures r.Ok? ==> IsPage(r.value, Reverse(Filter(likes, SentBy(u))), WindowFor(page, limit, 20).value,
                             ReceiverShown(users, links, interests))
  {
    match WindowFor(page, limit, 20)
    case None => Fail(INTERNAL_ERROR)
    case Some(w) =>
      var mine := Filter(likes, SentBy(u));
      var rows := Slice(Reverse(mine), w);
      PageOfFilter(likes, SentBy(u), w);
      SliceFacts(Reverse(mine), w);
      var views := ShowSlice(Reverse(mine), w, ReceiverShown(users, links, interests));
      forall k | 0 <= k < |views| ensures SentLikeView(users, links, interests, likes, u, views[k]) {
        var l := rows[k];
        assert l in likes && l.senderId == u && views[k] == ToView(users, links, interests, l);
      }
      Ok(views)
  }

  /** No like `u` received is left out of `GET /likes-received`. */
  lemma EveryReceivedLikeListed(users: seq<User>, links: seq<UserInterest>, interests: seq<Interest>, likes: seq<Like>,
                                u: nat, l: Like, limit: nat)
    requires 0 < limit && l in likes && l.receiverId == u
    ensures exists p :: 1 <= p && var r := LikesReceived(users, links, interests, likes, u, Some(p), Some(limit));
                        r.Ok? && FromView(users, links, interests, l) in r.value
  {
    var mine := Filter(likes, ReceivedBy(u));
    var j :| 0 <= j < |likes| && likes[j] == l;
    assert ReceivedBy(u)(likes[j]);
    ReverseMembership(mine, l);
    var i :| 0 <= i < |Reverse(mine)| && Reverse(mine)[i] == l;
    var p := i / limit + 1;
    PageOfItem(i, limit);
    assert WindowFor(Some(p), Some(limit), 20) == Some(Window(i / limit * limit, limit));
    var r := LikesReceived(users, links, interests, likes, u, Some(p), Some(limit));
    ItemOnItsPage(r.value, Reverse(mine), limit, i, SenderShown(users, links, interests));
    assert r.value[i % limit] == FromView(users, links, interests, l);
  }

  /** No like `u` sent is left out of `GET /likes-sent`. */
  lemma EverySentLikeListed(users: seq<User>, links: seq<UserInterest>, interests: seq<Interest>, likes: seq<Like>,
                            u: nat, l: Like, limit: nat)
    requires 0 < limit && l in likes && l.senderId == u
    ensures exists p :: 1 <= p && var r := LikesSent(users, links, interests, likes, u, Some(p), Some(limit));
                        r.Ok? && ToView(users, links, interests, l) in r.value
  {
    var mine := Filter(likes, SentBy(u));
    var j :| 0 <= j < |likes| && likes[j] == l;
    assert SentBy(u)(likes[j]);
    ReverseMembership(mine, l);
    var i :| 0 <= i < |Reverse(mine)| && Reverse(mine)[i] == l;
    var p := i / limit + 1;
    PageOfItem(i, limit);
    assert WindowFor(Some(p), Some(limit), 20) == Some(Window(i / limit * limit, limit));
    var r := LikesSent(users, links, interests, likes, u, Some(p), Some(limit));
    ItemOnItsPage(r.value, Reverse(mine), limit, i, ReceiverShown(users, links, interests));
    assert r.value[i % limit] == ToView(users, links, interests, l);
  }
}
