/** The relational store the backend reads and writes: one table per entity,
    each table a sequence in insertion order. The store gives every new row
    the id equal to its position, so that looking a row up by id is
    indexing; "newest first" is the reverse of insertion order. */
module Store {
  import opened Common

  datatype User = User(
    id: nat,
    walletAddress: string,
    username: string,
    isPremium: bool,
    premiumUntil: Option<int>,
    profileImage: Option<string>,
    createdAt: int)

  datatype Interest = Interest(id: nat, name: string)

  /** The link table between users and interests. */
  datatype UserInterest = UserInterest(userId: nat, interestId: nat)

  datatype Like = Like(id: nat, senderId: nat, receiverId: nat, createdAt: int)

  datatype Match = Match(id: nat, user1Id: nat, user2Id: nat, isActive: bool, createdAt: int)

  datatype Message = Message(
    id: nat,
    matchId: nat,
    senderId: nat,
    content: string,
    messageType: string,
    isEncrypted: bool,
    createdAt: int)

  /** A payment record; `amount` is the SOL amount the client reported, kept
      as an opaque stored value. */
  datatype Payment = Payment(
    id: nat,
    userId: nat,
    amount: real,
    transactionHash: string,
    paymentType: string,
    status: string,
    confirmedAt: int,
    createdAt: int)

  datatype Badge = Badge(id: nat, name: string, description: string, rarity: string)

  datatype UserBadge = UserBadge(id: nat, userId: nat, badgeId: nat, earnedAt: int)

  datatype Referral = Referral(id: nat, referrerId: nat, referredId: nat, rewardAmount: real, createdAt: int)

  /** The public fields of a user that the routes embed in their answers. */
  datatype UserSummary = UserSummary(id: nat, username: string, profileImage: Option<string>)

  /** True when `u` is one of the two users of match `m`. */
  predicate Participant(m: Match, u: nat) {
    m.user1Id == u || m.user2Id == u
  }

  // Every table's ids are the rows' positions.
  predicate UsersKeyed(t: seq<User>) { forall i :: 0 <= i < |t| ==> t[i].id == i }
  predicate InterestsKeyed(t: seq<Interest>) { forall i :: 0 <= i < |t| ==> t[i].id == i }
  predicate LikesKeyed(t: seq<Like>) { forall i :: 0 <= i < |t| ==> t[i].id == i }
  predicate MatchesKeyed(t: seq<Match>) { forall i :: 0 <= i < |t| ==> t[i].id == i }
  predicate MessagesKeyed(t: seq<Message>) { forall i :: 0 <= i < |t| ==> t[i].id == i }
  predicate PaymentsKeyed(t: seq<Payment>) { forall i :: 0 <= i < |t| ==> t[i].id == i }
  predicate BadgesKeyed(t: seq<Badge>) { forall i :: 0 <= i < |t| ==> t[i].id == i }
  predicate ReferralsKeyed(t: seq<Referral>) { forall i :: 0 <= i < |t| ==> t[i].id == i }
  predicate UserBadgesKeyed(t: seq<UserBadge>) { forall i :: 0 <= i < |t| ==> t[i].id == i }

  /** Every interest link points at an existing user. */
  predicate LinksToUsers(links: seq<UserInterest>, users: seq<User>) {
    forall k :: 0 <= k < |links| ==> links[k].userId < |users|
  }

  /** No two users share a username. */
  predicate UsernamesUnique(users: seq<User>) {
    forall i, j :: 0 <= i < j < |users| ==> users[i].username != users[j].username
  }

  /** No two users share a wallet address. */
  predicate WalletsUnique(users: seq<User>) {
    forall i, j :: 0 <= i < j < |users| ==> users[i].walletAddress != users[j].walletAddress
  }

  /** No two rows of the Interest table share a name. */
  predicate InterestNamesUnique(t: seq<Interest>) {
    forall i, j :: 0 <= i < j < |t| ==> t[i].name != t[j].name
  }

  class Db {
    var users: seq<User>
    var interests: seq<Interest>
    var userInterests: seq<UserInterest>
    var likes: seq<Like>
    var matches: seq<Match>
    var messages: seq<Message>
    var payments: seq<Payment>
    var badges: seq<Badge>
    var userBadges: seq<UserBadge>
    var referrals: seq<Referral>

    ghost predicate Valid()
      reads this
    {
      && UsersKeyed(users)
      && InterestsKeyed(interests)
      && LikesKeyed(likes)
      && MatchesKeyed(matches)
      && MessagesKeyed(messages)
      && PaymentsKeyed(payments)
      && BadgesKeyed(badges)
      && ReferralsKeyed(referrals)
      && UserBadgesKeyed(userBadges)
      && LinksToUsers(userInterests, users)
    }

    /** `badge.create`: the new row takes the next id. */
    method CreateBadge(b: Badge)
      requires Valid() && b.id == |badges|
      modifies this`badges
      ensures Valid() && badges == old(badges) + [b]
    {
      badges := badges + [b];
    }

    /** `userBadge.create`: the new row takes the next id. */
    method CreateUserBadge(ub: UserBadge)
      requires Valid() && ub.id == |userBadges|
      modifies this`userBadges
      ensures Valid() && userBadges == old(userBadges) + [ub]
    {
      userBadges := userBadges + [ub];
    }

    constructor ()
      ensures Valid()
      ensures users == [] && interests == [] && userInterests == [] && likes == []
      ensures matches == [] && messages == [] && payments == []
      ensures badges == [] && userBadges == [] && referrals == []
    {
      users, interests, userInterests, likes, matches := [], [], [], [], [];
      messages, payments, badges, userBadges, referrals := [], [], [], [], [];
    }
  }

  /** `findUnique` by id. */
  function UserById(users: seq<User>, id: nat): (r: Option<User>)
    ensures r.Some? <==> id < |users|
    ensures r.Some? ==> r.value == users[id]
  {
    if id < |users| then Some(users[id]) else None
  }

  /** The summary of a user, when the user exists. */
  function SummaryOf(users: seq<User>, id: nat): Option<UserSummary> {
    match UserById(users, id)
    case Some(u) => Some(UserSummary(u.id, u.username, u.profileImage))
    case None => None
  }

  /** The match with id `matchId` when `u` is one of its users: the store
      query `id = matchId AND (user1Id = u OR user2Id = u)`. */
  function MatchFor(matches: seq<Match>, matchId: nat, u: nat): (r: Option<Match>)
    ensures r.Some? <==> matchId < |matches| && Participant(matches[matchId], u)
    ensures r.Some? ==> r.value == matches[matchId]
  {
    if matchId < |matches| && Participant(matches[matchId], u) then Some(matches[matchId]) else None
  }

  /** The interest rows linked to user `u`, in link order. */
  function InterestsOf(links: seq<UserInterest>, interests: seq<Interest>, u: nat): seq<Interest> {
    if links == [] then []
    else
      var rest := InterestsOf(links[1..], interests, u);
      if links[0].userId == u && links[0].interestId < |interests|
      then [interests[links[0].interestId]] + rest
      else rest
  }

  /** An award row of `u` whose badge row exists. */
  function AwardOfStored(badges: seq<Badge>, u: nat): UserBadge -> bool {
    (ub: UserBadge) => ub.userId == u && ub.badgeId < |badges|
  }

  /** The badge rows user `u` has earned, in award order: one per award row
      of `u` whose badge exists, none missing. */
  function BadgesOf(userBadges: seq<UserBadge>, badges: seq<Badge>, u: nat): (r: seq<Badge>)
    ensures |r| == |Filter(userBadges, AwardOfStored(badges, u))|
    ensures forall k :: 0 <= k < |r| ==> r[k] == badges[Filter(userBadges, AwardOfStored(badges, u))[k].badgeId]
  {
    if userBadges == [] then []
    else
      var rest := BadgesOf(userBadges[1..], badges, u);
      var stored := AwardOfStored(badges, u);
      assert Filter(userBadges, stored)
          == (if stored(userBadges[0]) then [userBadges[0]] else []) + Filter(userBadges[1..], stored);
      if userBadges[0].userId == u && userBadges[0].badgeId < |badges|
      then [badges[userBadges[0].badgeId]] + rest
      else rest
  }

  /** No badge `u` was awarded is missing from their profile. */
  lemma EveryAwardShown(userBadges: seq<UserBadge>, badges: seq<Badge>, u: nat, i: nat)
    requires i < |userBadges| && userBadges[i].userId == u && userBadges[i].badgeId < |badges|
    ensures badges[userBadges[i].badgeId] in BadgesOf(userBadges, badges, u)
  {
    var awards := Filter(userBadges, AwardOfStored(badges, u));
    assert AwardOfStored(badges, u)(userBadges[i]);
    var k :| 0 <= k < |awards| && awards[k] == userBadges[i];
    assert BadgesOf(userBadges, badges, u)[k] == badges[userBadges[i].badgeId];
  }

  /** The names of the interests linked to user `u`. */
  function InterestNamesOf(links: seq<UserInterest>, interests: seq<Interest>, u: nat): seq<string> {
    Names(InterestsOf(links, interests, u))
  }

  function Names(t: seq<Interest>): (r: seq<string>)
    ensures |r| == |t|
    ensures forall k :: 0 <= k < |t| ==> r[k] == t[k].name
  {
    seq(|t|, k requires 0 <= k < |t| => t[k].name)
  }

  /** The interest links of user `u`. */
  function OfUser(u: nat): UserInterest -> bool {
    (l: UserInterest) => l.userId == u
  }

  /** The links of a user to the given interest rows, one per row. */
  function LinksTo(u: nat, rows: seq<Interest>): (r: seq<UserInterest>)
    ensures |r| == |rows|
    ensures forall k :: 0 <= k < |rows| ==> r[k] == UserInterest(u, rows[k].id)
  {
    seq(|rows|, k requires 0 <= k < |rows| => UserInterest(u, rows[k].id))
  }

  /** Links of other users do not contribute to a user's interests. */
  lemma {:induction false} InterestsOfOthers(links: seq<UserInterest>, interests: seq<Interest>, u: nat)
    requires forall k :: 0 <= k < |links| ==> links[k].userId != u
    ensures InterestsOf(links, interests, u) == []
  {
    if links != [] {
      InterestsOfOthers(links[1..], interests, u);
    }
  }

  lemma {:induction false} InterestsOfAppend(a: seq<UserInterest>, b: seq<UserInterest>, interests: seq<Interest>, u: nat)
    ensures InterestsOf(a + b, interests, u) == InterestsOf(a, interests, u) + InterestsOf(b, interests, u)
  {
    if a == [] {
      assert a + b == b;
    } else {
      assert (a + b)[1..] == a[1..] + b;
      InterestsOfAppend(a[1..], b, interests, u);
    }
  }

  /** Linking a user to rows that sit at their own ids gives back exactly
      those rows as the user's interests. */
  lemma {:induction false} InterestsOfLinks(u: nat, rows: seq<Interest>, interests: seq<Interest>)
    requires forall k :: 0 <= k < |rows| ==> rows[k].id < |interests| && interests[rows[k].id] == rows[k]
    ensures InterestsOf(LinksTo(u, rows), interests, u) == rows
  {
    if rows != [] {
      assert LinksTo(u, rows)[1..] == LinksTo(u, rows[1..]);
      InterestsOfLinks(u, rows[1..], interests);
      assert rows == [rows[0]] + rows[1..];
    }
  }

  /** Upserts each name in turn, as the routes do for a list of interest
      names, and returns the row found or created for each name. */
  method UpsertInterests(db: Db, names: seq<string>) returns (rows: seq<Interest>)
    requires db.Valid()
    modifies db`interests
    ensures db.Valid()
    ensures old(db.interests) <= db.interests
    ensures InterestNamesUnique(old(db.interests)) ==> InterestNamesUnique(db.interests)
    ensures |rows| == |names|
    ensures forall k :: 0 <= k < |rows| ==>
      rows[k].name == names[k] && rows[k].id < |db.interests| && db.interests[rows[k].id] == rows[k]
    ensures forall k :: |old(db.interests)| <= k < |db.interests| ==> db.interests[k].name in names
  {
    rows := [];
    var i := 0;
    while i < |names|
      invariant 0 <= i <= |names|
      invariant db.Valid()
      invariant old(db.interests) <= db.interests
      invariant InterestNamesUnique(old(db.interests)) ==> InterestNamesUnique(db.interests)
      invariant |rows| == i
      invariant forall k :: 0 <= k < i ==>
        rows[k].name == names[k] && rows[k].id < |db.interests| && db.interests[rows[k].id] == rows[k]
      invariant forall k :: |old(db.interests)| <= k < |db.interests| ==> db.interests[k].name in names
    {
      var name := names[i];
      var found := First(db.interests, (r: Interest) => r.name == name);
      var row: Interest;
      if found.Some? {
        row := found.value;
      } else {
        row := Interest(|db.interests|, name);
        db.interests := db.interests + [row];
      }
      rows := rows + [row];
      i := i + 1;
    }
  }
}
