/** The profile routes of backend/src/routes/user.ts: updating the caller's
    username and interests, discovering profiles to like, and the caller's
    activity counters. The caller is the user the authentication middleware
    attached to the request, so it exists. */
module UserRoutes {
  import opened Common
  import opened Paging
  import opened Store
  import MatchRoutes
  import ChatRoutes

  const USERNAME_TAKEN := Http(BAD_REQUEST, "Nom d'utilisateur déjà utilisé")

  /** The answer of `PUT /profile`. */
  datatype ProfileView = ProfileView(id: nat, username: string, interests: seq<Interest>, profileImage: Option<string>)

  /** The store filter `username = name AND NOT id = caller`. */
  function OtherNamed(name: string, caller: nat): User -> bool {
    (u: User) => u.username == name && u.id != caller
  }

  /** Some user other than `caller` already has the username `name`. */
  predicate NameTaken(users: seq<User>, name: string, caller: nat) {
    exists i :: 0 <= i < |users| && users[i].username == name && users[i].id != caller
  }

  function NotOf(u: nat): UserInterest -> bool {
    (l: UserInterest) => l.userId != u
  }

  /** The caller's row with the new username when one was given; an empty
      username is ignored. */
  function Renamed(u: User, username: Option<string>): User {
    if Present(username) then u.(username := username.value) else u
  }

  /** The interest part of `PUT /profile`: delete the caller's links, then,
      when the list is not empty, upsert each name and link the caller to
      the rows. */
  method ReplaceInterests(db: Db, caller: nat, names: seq<string>)
    requires db.Valid() && caller < |db.users|
    modifies db`interests, db`userInterests
    ensures db.Valid()
    ensures old(db.interests) <= db.interests
    ensures forall k :: |old(db.interests)| <= k < |db.interests| ==> db.interests[k].name in names
    ensures InterestNamesOf(db.userInterests, db.interests, caller) == names
    ensures forall v :: v != caller ==> Filter(db.userInterests, OfUser(v)) == Filter(old(db.userInterests), OfUser(v))
    ensures InterestNamesUnique(old(db.interests)) ==> InterestNamesUnique(db.interests)
  {
    ghost var before := db.userInterests;
    var kept := Filter(db.userInterests, NotOf(caller));
    db.userInterests := kept;
    InterestsOfOthers(kept, db.interests, caller);
    forall v | v != caller ensures Filter(kept, OfUser(v)) == Filter(before, OfUser(v)) {
      FilterOfFilter(before, NotOf(caller), OfUser(v));
    }
    if |names| > 0 {
      var interestRecords := UpsertInterests(db, names);
      var added := LinksTo(caller, interestRecords);
      db.userInterests := kept + added;
      InterestsOfAppend(kept, added, db.interests, caller);
      InterestsOfOthers(kept, db.interests, caller);
      InterestsOfLinks(caller, interestRecords, db.interests);
      assert Names(interestRecords) == names;
      forall v | v != caller ensures Filter(db.userInterests, OfUser(v)) == Filter(before, OfUser(v)) {
        FilterAppend(kept, added, OfUser(v));
        FilterNone(added, OfUser(v));
      }
    }
  }

  /** `PUT /profile`: a taken username is refused before anything is
      written; a list of interests, even an empty one, replaces the caller's
      links by links to the upserted names. */
  method UpdateProfile(db: Db, caller: nat, username: Option<string>, interests: Option<seq<string>>)
    returns (r: Result<ProfileView>)
    requires db.Valid() && caller < |db.users|
    modifies db`users, db`interests, db`userInterests
    ensures db.Valid()
    ensures old(db.interests) <= db.interests
    ensures forall k :: |old(db.interests)| <= k < |db.interests| ==>
      interests.Some? && db.interests[k].name in interests.value
    ensures Present(username) && NameTaken(old(db.users), username.value, caller) ==>
      && r == Fail(USERNAME_TAKEN)
      && db.users == old(db.users) && db.interests == old(db.interests) && db.userInterests == old(db.userInterests)
    ensures !(Present(username) && NameTaken(old(db.users), username.value, caller)) ==>
      && db.users == old(db.users)[caller := Renamed(old(db.users)[caller], username)]
      && r == Ok(ProfileView(caller, db.users[caller].username, InterestsOf(db.userInterests, db.interests, caller),
                             db.users[caller].profileImage))
      && (interests.None? ==> db.interests == old(db.interests) && db.userInterests == old(db.userInterests))
      && (interests.Some? ==> InterestNamesOf(db.userInterests, db.interests, caller) == interests.value)
    ensures forall v :: v != caller ==> Filter(db.userInterests, OfUser(v)) == Filter(old(db.userInterests), OfUser(v))
    ensures UsernamesUnique(old(db.users)) ==> UsernamesUnique(db.users)
    ensures WalletsUnique(old(db.users)) ==> WalletsUnique(db.users)
    ensures InterestNamesUnique(old(db.interests)) ==> InterestNamesUnique(db.interests)
  {
    if Present(username) {
      var existingUser := First(db.users, OtherNamed(username.value, caller));
      if existingUser.Some? {
        return Fail(USERNAME_TAKEN);
      }
      assert !NameTaken(db.users, username.value, caller) by {
        forall i | 0 <= i < |db.users| ensures !(db.users[i].username == username.value && db.users[i].id != caller) {
          assert !OtherNamed(username.value, caller)(db.users[i]);
        }
      }
    }
    if interests.Some? {
      ReplaceInterests(db, caller, interests.value);
    }
    if Present(username) {
      db.users := db.users[caller := db.users[caller].(username := username.value)];
    }
    var user := db.users[caller];
    r := Ok(ProfileView(user.id, user.username, InterestsOf(db.userInterests, db.interests, caller), user.profileImage));
  }

  // ---------------------------------------------------------------------
  // Discovery

  /** The `interests` query parameter: absent, given once (a plain string),
      or given several times (an array). */
  datatype QueryList = Absent | Single(value: string) | Many(values: seq<string>)

  /** Only an array of names filters the profiles; a single value is not
      an array and is ignored. */
  function InterestFilter(q: QueryList): (f: Option<seq<string>>)
    ensures f.Some? <==> q.Many?
  {
    if q.Many? then Some(q.values) else None
  }

  /** A profile as `GET /discover` shows it. */
  datatype DiscoverCard = DiscoverCard(id: nat, username: string, profileImage: Option<string>,
                                       interests: seq<Interest>, isPremium: bool)

  /** The ids of the users `caller` has liked, in like order. */
  function LikedIds(likes: seq<Like>, caller: nat): (r: seq<nat>)
    ensures forall x :: x in r <==> MatchRoutes.LikeExists(likes, caller, x)
  {
    var sent := Filter(likes, MatchRoutes.SentBy(caller));
    var ids := seq(|sent|, k requires 0 <= k < |sent| => sent[k].receiverId);
    forall x | MatchRoutes.LikeExists(likes, caller, x) ensures x in ids {
      var i :| 0 <= i < |likes| && likes[i].senderId == caller && likes[i].receiverId == x;
      assert MatchRoutes.SentBy(caller)(likes[i]);
      var k :| 0 <= k < |sent| && sent[k] == likes[i];
      assert ids[k] == x;
    }
    forall x | x in ids ensures MatchRoutes.LikeExists(likes, caller, x) {
      var k :| 0 <= k < |ids| && ids[k] == x;
      assert sent[k] in likes && MatchRoutes.SentBy(caller)(sent[k]);
      var i :| 0 <= i < |likes| && likes[i] == sent[k];
    }
    ids
  }

  /** The user has at least one of the names among their interests, when
      there is a filter. */
  predicate SharesInterest(links: seq<UserInterest>, interests: seq<Interest>, id: nat, filter: Option<seq<string>>) {
    filter.Some? ==> exists i :: i in InterestsOf(links, interests, id) && i.name in filter.value
  }

  /** The `where` clause of `GET /discover`, with the liked ids computed
      first as the route does. */
  function Candidate(links: seq<UserInterest>, interests: seq<Interest>, liked: seq<nat>, caller: nat,
                     filter: Option<seq<string>>): User -> bool {
    (u: User) => u.id != caller && u.id !in liked && SharesInterest(links, interests, u.id, filter)
  }

  /** What a profile must be to be offered to `caller`: someone else, not
      already liked by `caller`, and sharing an interest with the filter. */
  predicate Eligible(links: seq<UserInterest>, interests: seq<Interest>, likes: seq<Like>, caller: nat,
                     filter: Option<seq<string>>, u: User) {
    u.id != caller && !MatchRoutes.LikeExists(likes, caller, u.id) && SharesInterest(links, interests, u.id, filter)
  }

  function UserId(u: User): int {
    u.id
  }

  /** Every profile `caller` may discover, newest first. */
  function Discoverable(users: seq<User>, links: seq<UserInterest>, interests: seq<Interest>, likes: seq<Like>,
                        caller: nat, filter: Option<seq<string>>): (r: seq<User>)
    ensures forall i :: 0 <= i < |r| ==> r[i] in users && Eligible(links, interests, likes, caller, filter, r[i])
    ensures forall i :: 0 <= i < |users| && Eligible(links, interests, likes, caller, filter, users[i]) ==> users[i] in r
    ensures UsersKeyed(users) ==> forall i, j :: 0 <= i < j < |r| ==> r[i].id > r[j].id
  {
    var liked := LikedIds(likes, caller);
    var pick := Candidate(links, interests, liked, caller, filter);
    var found := Filter(users, pick);
    assert forall i :: 0 <= i < |users| && Eligible(links, interests, likes, caller, filter, users[i]) ==>
      users[i] in found by {
      forall i | 0 <= i < |users| && Eligible(links, interests, likes, caller, filter, users[i])
        ensures users[i] in found
      {
        assert pick(users[i]);
      }
    }
    assert UsersKeyed(users) ==> Increasing(found, UserId) by {
      if UsersKeyed(users) {
        FilterIncreasing(users, pick, UserId);
      }
    }
    assert forall x :: x in Reverse(found) <==> x in found by {
      forall x ensures x in Reverse(found) <==> x in found {
        ReverseMembership(found, x);
      }
    }
    Reverse(found)
  }

  function CardFor(links: seq<UserInterest>, interests: seq<Interest>, u: User): DiscoverCard {
    DiscoverCard(u.id, u.username, u.profileImage, InterestsOf(links, interests, u.id), u.isPremium)
  }

  /** How `GET /discover` shows each profile. */
  function CardShown(links: seq<UserInterest>, interests: seq<Interest>): User -> DiscoverCard {
    (u: User) => CardFor(links, interests, u)
  }

  /** `card` shows a profile `caller` may discover. */
  predicate EligibleCard(users: seq<User>, links: seq<UserInterest>, interests: seq<Interest>, likes: seq<Like>,
                         caller: nat, filter: Option<seq<string>>, card: DiscoverCard) {
    exists u :: u in users && Eligible(links, interests, likes, caller, filter, u) && card == CardFor(links, interests, u)
  }

  /** `GET /discover`: one page of the discoverable profiles, 10 per page
      unless the query says otherwise; an invalid window is a 500. */
  function Discover(users: seq<User>, links: seq<UserInterest>, interests: seq<Interest>, likes: seq<Like>,
                    caller: nat, page: Option<int>, limit: Option<int>, q: QueryList): (r: Result<seq<DiscoverCard>>)
    ensures r.Ok? <==> MatchRoutes.WindowFor(page, limit, 10).Some?
    ensures r.Fail? ==> r == Fail(INTERNAL_ERROR)
    ensures r.Ok? ==> |r.value| <= MatchRoutes.WindowFor(page, limit, 10).value.take
    ensures r.Ok? ==> forall k :: 0 <= k < |r.value| ==>
      EligibleCard(users, links, interests, likes, caller, InterestFilter(q), r.value[k])
    ensures r.Ok? ==> IsPage(r.value, Discoverable(users, links, interests, likes, caller, InterestFilter(q)),
                             MatchRoutes.WindowFor(page, limit, 10).value, CardShown(links, interests))
  {
    match MatchRoutes.WindowFor(page, limit, 10)
    case None => Fail(INTERNAL_ERROR)
    case Some(w) =>
      var all := Discoverable(users, links, interests, likes, caller, InterestFilter(q));
      var rows := Slice(all, w);
      SliceFacts(all, w);
      var cards := ShowSlice(all, w, CardShown(links, interests));
      forall k | 0 <= k < |cards| ensures EligibleCard(users, links, interests, likes, caller, InterestFilter(q), cards[k]) {
        var u := rows[k];
        assert u in users && Eligible(links, interests, likes, caller, InterestFilter(q), u) && cards[k] == CardFor(links, interests, u);
      }
      Ok(cards)
  }

  /** The first page of discovery offers the newest eligible profiles. */
  lemma FirstPageIsNewest(users: seq<User>, links: seq<UserInterest>, interests: seq<Interest>, likes: seq<Like>,
                          caller: nat, limit: nat, q: QueryList)
    ensures var all := Discoverable(users, links, interests, likes, caller, InterestFilter(q));
            var r := Discover(users, links, interests, likes, caller, None, Some(limit), q);
            && r.Ok? && |r.value| == Min(limit, |all|)
            && forall k :: 0 <= k < |r.value| ==> r.value[k] == CardFor(links, interests, all[k])
  {
    FirstPageWindow(limit);
  }

  /** No profile `caller` may discover is left out of `GET /discover`: with
      pages of any size, each eligible user is shown on some page. */
  lemma EveryEligibleProfileListed(users: seq<User>, links: seq<UserInterest>, interests: seq<Interest>,
                                   likes: seq<Like>, caller: nat, q: QueryList, u: User, limit: nat)
    requires 0 < limit && u in users && Eligible(links, interests, likes, caller, InterestFilter(q), u)
    ensures exists p :: 1 <= p && var r := Discover(users, links, interests, likes, caller, Some(p), Some(limit), q);
                        r.Ok? && CardFor(links, interests, u) in r.value
  {
    var all := Discoverable(users, links, interests, likes, caller, InterestFilter(q));
    var j :| 0 <= j < |users| && users[j] == u;
    assert u in all;
    var i :| 0 <= i < |all| && all[i] == u;
    var p := i / limit + 1;
    PageOfItem(i, limit);
    assert MatchRoutes.WindowFor(Some(p), Some(limit), 10) == Some(Window(i / limit * limit, limit));
    var r := Discover(users, links, interests, likes, caller, Some(p), Some(limit), q);
    ItemOnItsPage(r.value, all, limit, i, CardShown(links, interests));
    assert r.value[i % limit] == CardFor(links, interests, u);
    assert r.value[i % limit] in r.value;
  }

  /** A single `interests` value does not narrow discovery at all. */
  lemma SingleInterestIgnored(users: seq<User>, links: seq<UserInterest>, interests: seq<Interest>, likes: seq<Like>,
                              caller: nat, page: Option<int>, limit: Option<int>, name: string)
    ensures Discover(users, links, interests, likes, caller, page, limit, Single(name))
         == Discover(users, links, interests, likes, caller, page, limit, Absent)
  {
  }

  // ---------------------------------------------------------------------
  // Counters

  datatype UserStats = UserStats(likesSent: nat, likesReceived: nat, matches: nat, messages: nat)

  function InvolvedIn(u: nat): Match -> bool {
    (m: Match) => Participant(m, u)
  }

  /** The positions of the likes `u` sent. */
  ghost function SentLikePositions(likes: seq<Like>, u: nat): set<nat> {
    set i | 0 <= i < |likes| && likes[i].senderId == u
  }

  /** The positions of the likes `u` received. */
  ghost function ReceivedLikePositions(likes: seq<Like>, u: nat): set<nat> {
    set i | 0 <= i < |likes| && likes[i].receiverId == u
  }

  /** The positions of the matches `u` is a member of, active or not. */
  ghost function MatchPositions(matches: seq<Match>, u: nat): set<nat> {
    set i | 0 <= i < |matches| && Participant(matches[i], u)
  }

  /** The two `like.count` queries of `GET /stats` count exactly the likes
      `u` sent and the likes `u` received. */
  lemma LikesCounted(likes: seq<Like>, u: nat)
    ensures Count(likes, MatchRoutes.SentBy(u)) == |SentLikePositions(likes, u)|
    ensures Count(likes, MatchRoutes.ReceivedBy(u)) == |ReceivedLikePositions(likes, u)|
  {
    CountIsPositions(likes, MatchRoutes.SentBy(u));
    assert Positions(likes, MatchRoutes.SentBy(u)) == SentLikePositions(likes, u);
    CountIsPositions(likes, MatchRoutes.ReceivedBy(u));
    assert Positions(likes, MatchRoutes.ReceivedBy(u)) == ReceivedLikePositions(likes, u);
  }

  /** The `match.count` query of `GET /stats` counts exactly the matches `u`
      is in, whether or not they are still active. */
  lemma MatchesCounted(matches: seq<Match>, u: nat)
    ensures Count(matches, InvolvedIn(u)) == |MatchPositions(matches, u)|
  {
    CountIsPositions(matches, InvolvedIn(u));
    assert Positions(matches, InvolvedIn(u)) == MatchPositions(matches, u);
  }

  /** `GET /stats` of the profile routes: likes sent and received, matches
      the caller was ever in (inactive ones included) and messages sent. */
  function Stats(likes: seq<Like>, matches: seq<Match>, messages: seq<Message>, u: nat): (r: UserStats)
    ensures r.likesSent == |SentLikePositions(likes, u)| && r.likesReceived == |ReceivedLikePositions(likes, u)|
    ensures r.matches == |MatchPositions(matches, u)|
    ensures r.likesSent + r.likesReceived <= 2 * |likes| && r.matches <= |matches| && r.messages <= |messages|
    ensures r.matches == 0 <==> forall i :: 0 <= i < |matches| ==> !Participant(matches[i], u)
    ensures r.messages == ChatRoutes.Stats(matches, messages, u).totalMessages
    ensures r.matches >= ChatRoutes.Stats(matches, messages, u).activeMatches
  {
    var involved := Filter(matches, InvolvedIn(u));
    assert forall i :: 0 <= i < |matches| && Participant(matches[i], u) ==> matches[i] in involved by {
      forall i | 0 <= i < |matches| && Participant(matches[i], u) ensures matches[i] in involved {
        assert InvolvedIn(u)(matches[i]);
      }
    }
    assert (forall i :: 0 <= i < |matches| ==> !Participant(matches[i], u)) ==> involved == [] by {
      if forall i :: 0 <= i < |matches| ==> !Participant(matches[i], u) {
        FilterNone(matches, InvolvedIn(u));
      }
    }
    FilterMonotone(matches, ChatRoutes.ActiveFor(u), InvolvedIn(u));
    LikesCounted(likes, u);
    MatchesCounted(matches, u);
    UserStats(Count(likes, MatchRoutes.SentBy(u)), Count(likes, MatchRoutes.ReceivedBy(u)),
              |involved|, Count(messages, ChatRoutes.SenderIs(u)))
  }

  /** A successful like adds one to the sender's likes sent and one to the
      receiver's likes received; a match it creates adds one to both users'
      match counts; nobody else's counters move. */
  lemma LikeMovesCounters(users: seq<User>, a: MatchRoutes.Affinity, messages: seq<Message>,
                          sender: nat, receiver: nat, now: int, v: nat)
    requires MatchRoutes.LikeStep(users, a, sender, receiver, now).0.Ok?
    ensures var (res, b) := MatchRoutes.LikeStep(users, a, sender, receiver, now);
            var before := Stats(a.likes, a.matches, messages, v);
            var after := Stats(b.likes, b.matches, messages, v);
            && after.likesSent == before.likesSent + (if v == sender then 1 else 0)
            && after.likesReceived == before.likesReceived + (if v == receiver then 1 else 0)
            && after.matches == before.matches + (if res.value.isMatch && (v == sender || v == receiver) then 1 else 0)
            && after.messages == before.messages
  {
    var (res, b) := MatchRoutes.LikeStep(users, a, sender, receiver, now);
    var like := res.value.like;
    FilterAppend(a.likes, [like], MatchRoutes.SentBy(v));
    FilterAppend(a.likes, [like], MatchRoutes.ReceivedBy(v));
    assert Filter([like], MatchRoutes.SentBy(v)) == if v == sender then [like] else [];
    assert Filter([like], MatchRoutes.ReceivedBy(v)) == if v == receiver then [like] else [];
    if res.value.isMatch {
      var m := res.value.newMatch.value.row;
      FilterAppend(a.matches, [m], InvolvedIn(v));
      assert Filter([m], InvolvedIn(v)) == if v == sender || v == receiver then [m] else [];
    }
  }
}
