/** The gamification routes of backend/src/routes/gamification.ts: the
    caller's badges, awarding badges, referrals, the referral counters and
    the referrer leaderboard. */
module Gamification {
  import opened Common
  import opened Store

  // ---------------------------------------------------------------------
  // Badges of a user

  /** A badge a user has earned, as `GET /badges` shows it. */
  datatype EarnedBadge = EarnedBadge(id: nat, badge: Option<Badge>, earnedAt: int)

  function EarnedBy(u: nat): UserBadge -> bool {
    (ub: UserBadge) => ub.userId == u
  }

  function EarnedView(badges: seq<Badge>, ub: UserBadge): EarnedBadge {
    EarnedBadge(ub.id, if ub.badgeId < |badges| then Some(badges[ub.badgeId]) else None, ub.earnedAt)
  }

  function UserBadgeId(ub: UserBadge): int {
    ub.id
  }

  /** The caller's user-badge rows, most recent first. */
  function EarnedRows(userBadges: seq<UserBadge>, u: nat): (r: seq<UserBadge>)
    ensures |r| == Count(userBadges, EarnedBy(u))
    ensures forall k :: 0 <= k < |r| ==> r[k] in userBadges && r[k].userId == u
    ensures forall i :: 0 <= i < |userBadges| && userBadges[i].userId == u ==> userBadges[i] in r
    ensures UserBadgesKeyed(userBadges) ==> forall i, j :: 0 <= i < j < |r| ==> r[i].id > r[j].id
  {
    var mine := Filter(userBadges, EarnedBy(u));
    NewestFirst(userBadges, EarnedBy(u));
    assert forall i :: 0 <= i < |userBadges| && userBadges[i].userId == u ==> EarnedBy(u)(userBadges[i]);
    assert UserBadgesKeyed(userBadges) ==> forall i, j :: 0 <= i < j < |mine| ==> Reverse(mine)[i].id > Reverse(mine)[j].id by {
      if UserBadgesKeyed(userBadges) {
        FilterIncreasing(userBadges, EarnedBy(u), UserBadgeId);
        ReverseIncreasing(mine, UserBadgeId);
      }
    }
    Reverse(mine)
  }

  /** `GET /badges`: the badges the caller has earned, most recent first,
      one view per earned row. */
  function UserBadges(userBadges: seq<UserBadge>, badges: seq<Badge>, u: nat): (r: seq<EarnedBadge>)
    ensures |r| == Count(userBadges, EarnedBy(u))
    ensures forall k :: 0 <= k < |r| ==> r[k] == EarnedView(badges, EarnedRows(userBadges, u)[k])
    ensures UserBadgesKeyed(userBadges) ==> forall i, j :: 0 <= i < j < |r| ==> r[i].id > r[j].id
  {
    var rows := EarnedRows(userBadges, u);
    seq(|rows|, k requires 0 <= k < |rows| => EarnedView(badges, rows[k]))
  }

  /** Every badge the user has earned is on the list. */
  lemma EveryEarnedBadgeListed(userBadges: seq<UserBadge>, badges: seq<Badge>, u: nat, i: nat)
    requires i < |userBadges| && userBadges[i].userId == u
    ensures exists k :: (0 <= k < |UserBadges(userBadges, badges, u)|
                         && UserBadges(userBadges, badges, u)[k] == EarnedView(badges, userBadges[i]))
  {
    var rows := EarnedRows(userBadges, u);
    var k :| 0 <= k < |rows| && rows[k] == userBadges[i];
    assert UserBadges(userBadges, badges, u)[k] == EarnedView(badges, userBadges[i]);
  }

  // ---------------------------------------------------------------------
  // Awarding badges

  /** The name and description of a badge type. */
  datatype BadgeSpec = BadgeSpec(name: string, description: string)

  /** The known badge types; any other type awards nothing. */
  function BadgeFor(badgeType: string): (r: Option<BadgeSpec>)
    ensures r.Some? <==> badgeType in {"early_supporter", "referrer", "referred", "active_user"}
  {
    if badgeType == "early_supporter" then Some(BadgeSpec("Early Supporter", "Parmi les 2000 premiers utilisateurs"))
    else if badgeType == "referrer" then Some(BadgeSpec("Referrer", "A parrainé un ami"))
    else if badgeType == "referred" then Some(BadgeSpec("Referred", "A été parrainé par un ami"))
    else if badgeType == "active_user" then Some(BadgeSpec("Active User", "Utilisateur actif"))
    else None
  }

  /** The badge each known type awards. */
  lemma KnownBadgeTypes()
    ensures BadgeFor("early_supporter") == Some(BadgeSpec("Early Supporter", "Parmi les 2000 premiers utilisateurs"))
    ensures BadgeFor("referrer") == Some(BadgeSpec("Referrer", "A parrainé un ami"))
    ensures BadgeFor("referred") == Some(BadgeSpec("Referred", "A été parrainé par un ami"))
    ensures BadgeFor("active_user") == Some(BadgeSpec("Active User", "Utilisateur actif"))
  {
  }

  /** The rarity a badge is created with. */
  function Rarity(badgeType: string): (r: string)
    ensures r == "legendary" || r == "common"
    ensures r == "legendary" <==> badgeType == "early_supporter"
  {
    if badgeType == "early_supporter" then "legendary" else "common"
  }

  /** Distinct badge types award distinct badges. */
  lemma BadgeNamesDistinct(t1: string, t2: string)
    requires BadgeFor(t1).Some? && BadgeFor(t2).Some? && t1 != t2
    ensures BadgeFor(t1).value.name != BadgeFor(t2).value.name
  {
  }

  /** The Badge and UserBadge tables, the part of the store `awardBadges`
      writes. */
  datatype Trophies = Trophies(badges: seq<Badge>, userBadges: seq<UserBadge>)

  function NamedBadge(name: string): Badge -> bool {
    (b: Badge) => b.name == name
  }

  function HeldBy(u: nat, badgeId: nat): UserBadge -> bool {
    (ub: UserBadge) => ub.userId == u && ub.badgeId == badgeId
  }

  /** The badge upsert keyed by name: the existing row, or a new row with
      the next id. */
  function UpsertBadge(badges: seq<Badge>, spec: BadgeSpec, rarity: string): (r: (Badge, seq<Badge>))
    ensures r.0.name == spec.name
    ensures First(r.1, NamedBadge(spec.name)) == Some(r.0)
    ensures First(badges, NamedBadge(spec.name)).Some? ==> r.1 == badges
    ensures First(badges, NamedBadge(spec.name)).None? ==>
      r.0 == Badge(|badges|, spec.name, spec.description, rarity) && r.1 == badges + [r.0]
  {
    match First(badges, NamedBadge(spec.name))
    case Some(b) => (b, badges)
    case None =>
      var b := Badge(|badges|, spec.name, spec.description, rarity);
      FirstAppend(badges, [b], NamedBadge(spec.name));
      (b, badges + [b])
  }

  /** The user-badge upsert keyed by (user, badge): nothing when the user
      holds the badge, a new row otherwise. */
  function UpsertHeld(userBadges: seq<UserBadge>, u: nat, badgeId: nat, now: int): (r: seq<UserBadge>)
    ensures First(r, HeldBy(u, badgeId)).Some?
    ensures First(userBadges, HeldBy(u, badgeId)).Some? ==> r == userBadges
    ensures First(userBadges, HeldBy(u, badgeId)).None? ==> r == userBadges + [UserBadge(|userBadges|, u, badgeId, now)]
  {
    if First(userBadges, HeldBy(u, badgeId)).Some? then userBadges
    else
      var ub := UserBadge(|userBadges|, u, badgeId, now);
      FirstAppend(userBadges, [ub], HeldBy(u, badgeId));
      assert First([ub], HeldBy(u, badgeId)) == Some(ub);
      userBadges + [ub]
  }

  /** True when user `u` holds a badge named `name`. */
  predicate HasBadge(t: Trophies, u: nat, name: string) {
    exists k :: 0 <= k < |t.userBadges| && t.userBadges[k].userId == u
      && t.userBadges[k].badgeId < |t.badges| && t.badges[t.userBadges[k].badgeId].name == name
  }

  /** `awardBadges(u, badgeType)` on the two tables. */
  function AwardStep(t: Trophies, u: nat, badgeType: string, now: int): (r: Trophies)
    ensures BadgeFor(badgeType).None? ==> r == t
    ensures t.badges <= r.badges && |r.badges| <= |t.badges| + 1
    ensures t.userBadges <= r.userBadges && |r.userBadges| <= |t.userBadges| + 1
    ensures forall k :: |t.badges| <= k < |r.badges| ==>
      r.badges[k] == Badge(k, BadgeFor(badgeType).value.name, BadgeFor(badgeType).value.description, Rarity(badgeType))
    ensures forall k :: |t.userBadges| <= k < |r.userBadges| ==>
      r.userBadges[k].id == k && r.userBadges[k].userId == u && r.userBadges[k].earnedAt == now
    ensures BadgeFor(badgeType).Some? && BadgesKeyed(t.badges) ==>
      BadgesKeyed(r.badges) && HasBadge(r, u, BadgeFor(badgeType).value.name)
  {
    match BadgeFor(badgeType)
    case None => t
    case Some(spec) =>
      var (b, badges) := UpsertBadge(t.badges, spec, Rarity(badgeType));
      var userBadges := UpsertHeld(t.userBadges, u, b.id, now);
      UpsertsHoldBadge(t, u, spec, Rarity(badgeType), now);
      Trophies(badges, userBadges)
  }

  /** After both upserts, on a keyed badge table, the user holds the badge. */
  lemma UpsertsHoldBadge(t: Trophies, u: nat, spec: BadgeSpec, rarity: string, now: int)
    ensures var (b, badges) := UpsertBadge(t.badges, spec, rarity);
            BadgesKeyed(t.badges) ==>
              BadgesKeyed(badges) && HasBadge(Trophies(badges, UpsertHeld(t.userBadges, u, b.id, now)), u, spec.name)
  {
    var (b, badges) := UpsertBadge(t.badges, spec, rarity);
    var userBadges := UpsertHeld(t.userBadges, u, b.id, now);
    if BadgesKeyed(t.badges) {
      var ub :| ub in userBadges && HeldBy(u, b.id)(ub);
      var k :| 0 <= k < |userBadges| && userBadges[k] == ub;
      var i :| 0 <= i < |badges| && badges[i] == b;
      assert badges[b.id] == b;
    }
  }

  /** Awarding the same badge type to the same user again changes nothing. */
  lemma AwardIdempotent(t: Trophies, u: nat, badgeType: string, now: int, later: int)
    ensures AwardStep(AwardStep(t, u, badgeType, now), u, badgeType, later) == AwardStep(t, u, badgeType, now)
  {
    var t1 := AwardStep(t, u, badgeType, now);
    if BadgeFor(badgeType).Some? {
      var spec := BadgeFor(badgeType).value;
      var (b, badges) := UpsertBadge(t.badges, spec, Rarity(badgeType));
      assert t1.badges == badges;
      assert UpsertBadge(t1.badges, spec, Rarity(badgeType)) == (b, t1.badges);
    }
  }

  /** Awarding never takes a badge away. */
  lemma AwardKeepsBadges(t: Trophies, u: nat, name: string, v: nat, badgeType: string, now: int)
    requires HasBadge(t, u, name)
    ensures HasBadge(AwardStep(t, v, badgeType, now), u, name)
  {
    var r := AwardStep(t, v, badgeType, now);
    var k :| 0 <= k < |t.userBadges| && t.userBadges[k].userId == u
      && t.userBadges[k].badgeId < |t.badges| && t.badges[t.userBadges[k].badgeId].name == name;
    assert r.userBadges[k] == t.userBadges[k];
    assert r.badges[t.userBadges[k].badgeId] == t.badges[t.userBadges[k].badgeId];
  }

  /** One badge per name. */
  predicate BadgeNamesUnique(badges: seq<Badge>) {
    forall i, j :: 0 <= i < j < |badges| ==> badges[i].name != badges[j].name
  }

  /** One award per (user, badge). */
  predicate AwardsUnique(userBadges: seq<UserBadge>) {
    forall i, j :: 0 <= i < j < |userBadges| ==>
      !(userBadges[i].userId == userBadges[j].userId && userBadges[i].badgeId == userBadges[j].badgeId)
  }

  /** One badge per name and one award per (user, badge). */
  predicate TrophiesUnique(t: Trophies) {
    BadgeNamesUnique(t.badges) && AwardsUnique(t.userBadges)
  }

  /** The badge upsert keeps names unique. */
  lemma UpsertBadgeKeepsUnique(badges: seq<Badge>, spec: BadgeSpec, rarity: string)
    requires BadgeNamesUnique(badges)
    ensures BadgeNamesUnique(UpsertBadge(badges, spec, rarity).1)
  {
    if First(badges, NamedBadge(spec.name)).None? {
      var r := UpsertBadge(badges, spec, rarity).1;
      forall i, j | 0 <= i < j < |r| ensures r[i].name != r[j].name {
        if j == |badges| {
          assert !NamedBadge(spec.name)(badges[i]);
        }
      }
    }
  }

  /** The award upsert keeps awards unique. */
  lemma UpsertHeldKeepsUnique(userBadges: seq<UserBadge>, u: nat, badgeId: nat, now: int)
    requires AwardsUnique(userBadges)
    ensures AwardsUnique(UpsertHeld(userBadges, u, badgeId, now))
  {
    if First(userBadges, HeldBy(u, badgeId)).None? {
      var r := UpsertHeld(userBadges, u, badgeId, now);
      forall i, j | 0 <= i < j < |r|
        ensures !(r[i].userId == r[j].userId && r[i].badgeId == r[j].badgeId)
      {
        if j == |userBadges| {
          assert !HeldBy(u, badgeId)(userBadges[i]);
        }
      }
    }
  }

  /** Awarding keeps badge names and awards unique. */
  lemma AwardPreservesUnique(t: Trophies, u: nat, badgeType: string, now: int)
    requires TrophiesUnique(t)
    ensures TrophiesUnique(AwardStep(t, u, badgeType, now))
  {
    if BadgeFor(badgeType).Some? {
      var spec := BadgeFor(badgeType).value;
      var (b, badges) := UpsertBadge(t.badges, spec, Rarity(badgeType));
      UpsertBadgeKeepsUnique(t.badges, spec, Rarity(badgeType));
      UpsertHeldKeepsUnique(t.userBadges, u, b.id, now);
    }
  }

  /** `awardBadges` on the store. */
  method AwardBadges(db: Db, u: nat, badgeType: string, now: int)
    requires db.Valid()
    modifies db`badges, db`userBadges
    ensures db.Valid()
    ensures Trophies(db.badges, db.userBadges) == AwardStep(old(Trophies(db.badges, db.userBadges)), u, badgeType, now)
  {
    var spec := BadgeFor(badgeType);
    if spec.None? {
      return;
    }
    ghost var t := Trophies(db.badges, db.userBadges);
    var badge := First(db.badges, NamedBadge(spec.value.name));
    if badge.None? {
      var created := Badge(|db.badges|, spec.value.name, spec.value.description, Rarity(badgeType));
      db.CreateBadge(created);
      badge := Some(created);
    }
    assert (badge.value, db.badges) == UpsertBadge(t.badges, spec.value, Rarity(badgeType));
    var held := First(db.userBadges, HeldBy(u, badge.value.id));
    if held.None? {
      db.CreateUserBadge(UserBadge(|db.userBadges|, u, badge.value.id, now));
    }
    assert db.userBadges == UpsertHeld(t.userBadges, u, badge.value.id, now);
  }

  // ---------------------------------------------------------------------
  // Referrals

  const CODE_REQUIRED := Http(BAD_REQUEST, "Code de parrainage requis")
  const CODE_USED := Http(BAD_REQUEST, "Code de parrainage déjà utilisé")
  const REFERRED_UNKNOWN := Http(NOT_FOUND, "Utilisateur non trouvé")
  const SELF_REFERRAL := Http(BAD_REQUEST, "Vous ne pouvez pas vous parrainer vous-même")
  const REFERRAL_CREATED := "Parrainage créé avec succès"
  /** The reward of a referral, in SOL. */
  const REFERRAL_REWARD: real := 0.01

  /** The answer of a successful `POST /referral-code`. */
  datatype ReferralAnswer = ReferralAnswer(success: bool, referral: Referral, message: string)

  /** The store filter `referrerId = caller AND referred.username = code`. */
  function ReferralTo(users: seq<User>, caller: nat, code: string): Referral -> bool {
    (r: Referral) => r.referrerId == caller && r.referredId < |users| && users[r.referredId].username == code
  }

  /** `caller` has already referred the user named `code`. */
  predicate AlreadyReferred(users: seq<User>, referrals: seq<Referral>, caller: nat, code: string) {
    exists i :: 0 <= i < |referrals| && referrals[i].referrerId == caller
      && referrals[i].referredId < |users| && users[referrals[i].referredId].username == code
  }

  function NamedUser(name: string): User -> bool {
    (u: User) => u.username == name
  }

  predicate HasUsername(users: seq<User>, name: string) {
    exists i :: 0 <= i < |users| && users[i].username == name
  }

  /** The checks of `POST /referral-code`, in order: a code is given, it was
      not used by the caller before, it names a user, and that user is not
      the caller. */
  function ReferralTarget(users: seq<User>, referrals: seq<Referral>, caller: nat, code: Option<string>): (r: Result<User>)
    ensures !Present(code) ==> r == Fail(CODE_REQUIRED)
    ensures Present(code) && AlreadyReferred(users, referrals, caller, code.value) ==> r == Fail(CODE_USED)
    ensures Present(code) && !AlreadyReferred(users, referrals, caller, code.value) && !HasUsername(users, code.value) ==>
      r == Fail(REFERRED_UNKNOWN)
    ensures Present(code) && !AlreadyReferred(users, referrals, caller, code.value) && HasUsername(users, code.value) ==>
      r.Ok? || r == Fail(SELF_REFERRAL)
    ensures r == Fail(SELF_REFERRAL) ==> exists u :: u in users && u.username == code.value && u.id == caller
    ensures r.Ok? ==> Present(code) && r.value in users && r.value.username == code.value && r.value.id != caller
    ensures r.Ok? && UsernamesUnique(users) ==>
      forall i :: 0 <= i < |users| && users[i].username == code.value ==> r.value == users[i]
  {
    if !Present(code) then Fail(CODE_REQUIRED)
    else
      var name := code.value;
      var existing := First(referrals, ReferralTo(users, caller, name));
      assert AlreadyReferred(users, referrals, caller, name) ==> existing.Some? by {
        if AlreadyReferred(users, referrals, caller, name) {
          var i :| 0 <= i < |referrals| && referrals[i].referrerId == caller
            && referrals[i].referredId < |users| && users[referrals[i].referredId].username == name;
          assert ReferralTo(users, caller, name)(referrals[i]);
        }
      }
      if existing.Some? then Fail(CODE_USED)
      else
        var referred := First(users, NamedUser(name));
        assert HasUsername(users, name) ==> referred.Some? by {
          if HasUsername(users, name) {
            var i :| 0 <= i < |users| && users[i].username == name;
            assert NamedUser(name)(users[i]);
          }
        }
        match referred
        case None => Fail(REFERRED_UNKNOWN)
        case Some(u) =>
          if u.id == caller then Fail(SELF_REFERRAL) else Ok(u)
  }

  /** A user who gives their own username as the code is refused with the
      self-referral error, unless the code was already used. */
  lemma SelfReferralRefused(users: seq<User>, referrals: seq<Referral>, caller: nat)
    requires UsersKeyed(users) && UsernamesUnique(users) && caller < |users| && users[caller].username != ""
    requires !AlreadyReferred(users, referrals, caller, users[caller].username)
    ensures ReferralTarget(users, referrals, caller, Some(users[caller].username)) == Fail(SELF_REFERRAL)
  {
    var r := ReferralTarget(users, referrals, caller, Some(users[caller].username));
    assert HasUsername(users, users[caller].username);
  }

  /** The referral row the route persists. */
  function NewReferral(referrals: seq<Referral>, caller: nat, referred: User, now: int): Referral {
    Referral(|referrals|, caller, referred.id, REFERRAL_REWARD, now)
  }

  /** `POST /referral-code` as written: after the referral row is saved, the
      handler calls `this.awardBadges`, which is not defined on the value
      `this` holds in a module-level arrow function, so the call throws and
      the route answers the generic 500 with no badge awarded. */
  method ReferralCodeAsWritten(db: Db, caller: nat, code: Option<string>, now: int) returns (r: Result<ReferralAnswer>)
    requires db.Valid()
    modifies db`referrals
    ensures db.Valid()
    ensures var target := ReferralTarget(old(db.users), old(db.referrals), caller, code);
      && (target.Fail? ==> r == Fail(target.failure) && db.referrals == old(db.referrals))
      && (target.Ok? ==>
            && db.referrals == old(db.referrals) + [NewReferral(old(db.referrals), caller, target.value, now)]
            && r == Fail(INTERNAL_ERROR))
  {
    var target := ReferralTarget(db.users, db.referrals, caller, code);
    if target.Fail? {
      return Fail(target.failure);
    }
    var referral := NewReferral(db.referrals, caller, target.value, now);
    db.referrals := db.referrals + [referral];
    r := Fail(INTERNAL_ERROR);
  }

  /** `POST /referral-code` as evidently intended: save the referral, award
      the referrer and the referred badges, and report success. */
  method ReferralCode(db: Db, caller: nat, code: Option<string>, now: int) returns (r: Result<ReferralAnswer>)
    requires db.Valid()
    modifies db`referrals, db`badges, db`userBadges
    ensures db.Valid()
    ensures var target := ReferralTarget(old(db.users), old(db.referrals), caller, code);
      && (target.Fail? ==>
            && r == Fail(target.failure)
            && db.referrals == old(db.referrals) && db.badges == old(db.badges) && db.userBadges == old(db.userBadges))
      && (target.Ok? ==>
            var referral := NewReferral(old(db.referrals), caller, target.value, now);
            var t := Trophies(db.badges, db.userBadges);
            && db.referrals == old(db.referrals) + [referral]
            && t == AwardStep(AwardStep(old(Trophies(db.badges, db.userBadges)), caller, "referrer", now),
                              target.value.id, "referred", now)
            && HasBadge(t, caller, "Referrer") && HasBadge(t, target.value.id, "Referred")
            && r == Ok(ReferralAnswer(true, referral, REFERRAL_CREATED))
            && Stats(db.userBadges, db.referrals, caller).referralCount
                 == Stats(old(db.userBadges), old(db.referrals), caller).referralCount + 1
            && Stats(db.userBadges, db.referrals, caller).totalReferralReward
                 == Stats(old(db.userBadges), old(db.referrals), caller).totalReferralReward + REFERRAL_REWARD)
  {
    var target := ReferralTarget(db.users, db.referrals, caller, code);
    if target.Fail? {
      return Fail(target.failure);
    }
    var referral := NewReferral(db.referrals, caller, target.value, now);
    db.referrals := db.referrals + [referral];
    KnownBadgeTypes();
    AwardBadges(db, caller, "referrer", now);
    ghost var middle := Trophies(db.badges, db.userBadges);
    AwardBadges(db, target.value.id, "referred", now);
    AwardKeepsBadges(middle, caller, "Referrer", target.value.id, "referred", now);
    ReferralCountsOnce(old(db.userBadges), db.userBadges, old(db.referrals), caller, target.value, now, caller);
    r := Ok(ReferralAnswer(true, referral, REFERRAL_CREATED));
  }

  // ---------------------------------------------------------------------
  // Counters

  datatype GamificationStats = GamificationStats(badgeCount: nat, referralCount: nat, totalReferralReward: real)

  function ReferrerIs(u: nat): Referral -> bool {
    (r: Referral) => r.referrerId == u
  }

  /** The sum of the rewards of `rs`; 0 for none, as `_sum || 0` gives. */
  function SumRewards(rs: seq<Referral>): real {
    if rs == [] then 0.0 else rs[0].rewardAmount + SumRewards(rs[1..])
  }

  lemma {:induction false} SumOfEqualRewards(rs: seq<Referral>, reward: real)
    requires forall i :: 0 <= i < |rs| ==> rs[i].rewardAmount == reward
    ensures SumRewards(rs) == reward * |rs| as real
  {
    if rs != [] {
      SumOfEqualRewards(rs[1..], reward);
    }
  }

  lemma {:induction false} SumRewardsAppend(rs: seq<Referral>, x: Referral)
    ensures SumRewards(rs + [x]) == SumRewards(rs) + x.rewardAmount
  {
    if rs != [] {
      assert (rs + [x])[1..] == rs[1..] + [x];
      SumRewardsAppend(rs[1..], x);
    }
  }

  /** The positions of the award rows of `u`. */
  ghost function AwardPositions(userBadges: seq<UserBadge>, u: nat): set<nat> {
    set i | 0 <= i < |userBadges| && userBadges[i].userId == u
  }

  /** The positions of the referrals `u` made. */
  ghost function ReferralPositions(referrals: seq<Referral>, u: nat): set<nat> {
    set i | 0 <= i < |referrals| && referrals[i].referrerId == u
  }

  /** The `count` query on the award rows of `GET /stats` counts exactly the
      rows of `u`. */
  lemma AwardsCounted(userBadges: seq<UserBadge>, u: nat)
    ensures Count(userBadges, EarnedBy(u)) == |AwardPositions(userBadges, u)|
  {
    CountIsPositions(userBadges, EarnedBy(u));
    assert Positions(userBadges, EarnedBy(u)) == AwardPositions(userBadges, u);
  }

  /** The `count` query on the referral rows of `GET /stats` counts exactly
      the referrals `u` made, and is zero just when there are none. */
  lemma ReferralsCounted(referrals: seq<Referral>, u: nat)
    ensures var mine := Filter(referrals, ReferrerIs(u));
      && |mine| == |ReferralPositions(referrals, u)|
      && (|mine| == 0 <==> forall i :: 0 <= i < |referrals| ==> referrals[i].referrerId != u)
  {
    CountIsPositions(referrals, ReferrerIs(u));
    assert Positions(referrals, ReferrerIs(u)) == ReferralPositions(referrals, u);
    if ReferralPositions(referrals, u) != {} {
      var i :| i in ReferralPositions(referrals, u);
    }
  }

  /** When every referral carries the standard reward, the `_sum` query gives
      that reward once per referral. */
  lemma EqualRewardsSum(referrals: seq<Referral>, u: nat)
    requires forall i :: 0 <= i < |referrals| ==> referrals[i].rewardAmount == REFERRAL_REWARD
    ensures var mine := Filter(referrals, ReferrerIs(u));
      SumRewards(mine) == REFERRAL_REWARD * |mine| as real
  {
    var mine := Filter(referrals, ReferrerIs(u));
    forall k | 0 <= k < |mine| ensures mine[k].rewardAmount == REFERRAL_REWARD {
      var j :| 0 <= j < |referrals| && referrals[j] == mine[k];
    }
    SumOfEqualRewards(mine, REFERRAL_REWARD);
  }

  /** `GET /stats` of the gamification routes. */
  function Stats(userBadges: seq<UserBadge>, referrals: seq<Referral>, u: nat): (r: GamificationStats)
    ensures r.badgeCount == |AwardPositions(userBadges, u)| && r.badgeCount == |EarnedRows(userBadges, u)|
    ensures r.referralCount == |ReferralPositions(referrals, u)| && r.referralCount == ReferralCount(referrals, u)
    ensures r.badgeCount <= |userBadges| && r.referralCount <= |referrals|
    ensures r.referralCount == 0 <==> forall i :: 0 <= i < |referrals| ==> referrals[i].referrerId != u
    ensures r.referralCount == 0 ==> r.totalReferralReward == 0.0
    ensures (forall i :: 0 <= i < |referrals| ==> referrals[i].rewardAmount == REFERRAL_REWARD) ==>
      r.totalReferralReward == REFERRAL_REWARD * r.referralCount as real
  {
    var mine := Filter(referrals, ReferrerIs(u));
    AwardsCounted(userBadges, u);
    ReferralsCounted(referrals, u);
    if forall i :: 0 <= i < |referrals| ==> referrals[i].rewardAmount == REFERRAL_REWARD then
      EqualRewardsSum(referrals, u);
      GamificationStats(Count(userBadges, EarnedBy(u)), |mine|, SumRewards(mine))
    else
      GamificationStats(Count(userBadges, EarnedBy(u)), |mine|, SumRewards(mine))
  }

  /** Awarding a badge adds one to the badge count of the user awarded
      exactly when a new award row is written, and nothing to anyone
      else's; referral counters do not move. */
  lemma AwardCountsOnce(t: Trophies, referrals: seq<Referral>, u: nat, badgeType: string, now: int, v: nat)
    ensures var r := AwardStep(t, u, badgeType, now);
            var added := |r.userBadges| - |t.userBadges|;
            && 0 <= added <= 1
            && Stats(r.userBadges, referrals, v).badgeCount
                 == Stats(t.userBadges, referrals, v).badgeCount + (if v == u then added else 0)
            && Stats(r.userBadges, referrals, v).referralCount == Stats(t.userBadges, referrals, v).referralCount
  {
    var r := AwardStep(t, u, badgeType, now);
    var tail := r.userBadges[|t.userBadges|..];
    assert r.userBadges == t.userBadges + tail;
    FilterAppend(t.userBadges, tail, EarnedBy(v));
    if tail != [] {
      assert tail == [r.userBadges[|t.userBadges|]];
      assert Filter(tail, EarnedBy(v)) == if v == u then tail else [];
    }
  }

  /** A saved referral adds one to the referrer's referral count and the
      reward, 0.01, to their total, and nothing to anyone else's, whatever
      badges were awarded meanwhile. */
  lemma ReferralCountsOnce(userBadges: seq<UserBadge>, awarded: seq<UserBadge>, referrals: seq<Referral>,
                           caller: nat, referred: User, now: int, v: nat)
    ensures var after := referrals + [NewReferral(referrals, caller, referred, now)];
            && Stats(awarded, after, v).referralCount
                 == Stats(userBadges, referrals, v).referralCount + (if v == caller then 1 else 0)
            && Stats(awarded, after, v).totalReferralReward
                 == Stats(userBadges, referrals, v).totalReferralReward + (if v == caller then REFERRAL_REWARD else 0.0)
  {
    var row := NewReferral(referrals, caller, referred, now);
    FilterAppend(referrals, [row], ReferrerIs(v));
    assert Filter([row], ReferrerIs(v)) == if v == caller then [row] else [];
    if v == caller {
      SumRewardsAppend(Filter(referrals, ReferrerIs(v)), row);
    } else {
      assert Filter(referrals + [row], ReferrerIs(v)) == Filter(referrals, ReferrerIs(v));
    }
  }

  // ---------------------------------------------------------------------
  // Leaderboard

  /** A user with their number of referrals. */
  datatype Entry = Entry(user: User, count: nat)

  predicate SortedDesc(s: seq<Entry>) {
    forall i, j :: 0 <= i < j < |s| ==> s[i].count >= s[j].count
  }

  /** Insert `e` into a sequence sorted by count, descending, before the
      first entry with a smaller or equal count. */
  function InsertDesc(e: Entry, s: seq<Entry>): (r: seq<Entry>)
    requires SortedDesc(s)
    ensures SortedDesc(r)
    ensures multiset(r) == multiset(s) + multiset{e}
    ensures forall x :: x in r ==> x == e || x in s
  {
    if s == [] then [e]
    else if e.count >= s[0].count then [e] + s
    else
      var rest := InsertDesc(e, s[1..]);
      assert s == [s[0]] + s[1..];
      assert forall x :: x in rest ==> s[0].count >= x.count;
      [s[0]] + rest
  }

  /** The order `orderBy: { referrals: { _count: 'desc' } }` gives. */
  function SortDesc(s: seq<Entry>): (r: seq<Entry>)
    ensures SortedDesc(r)
    ensures multiset(r) == multiset(s)
  {
    if s == [] then []
    else
      assert s == [s[0]] + s[1..];
      InsertDesc(s[0], SortDesc(s[1..]))
  }

  function ReferralCount(referrals: seq<Referral>, u: nat): nat {
    Count(referrals, ReferrerIs(u))
  }

  function Entries(users: seq<User>, referrals: seq<Referral>): (r: seq<Entry>)
    ensures |r| == |users|
    ensures forall i :: 0 <= i < |users| ==> r[i] == Entry(users[i], ReferralCount(referrals, users[i].id))
  {
    seq(|users|, i requires 0 <= i < |users| => Entry(users[i], ReferralCount(referrals, users[i].id)))
  }

  /** One row of the leaderboard. */
  datatype RankedReferrer = RankedReferrer(rank: nat, id: nat, username: string, profileImage: Option<string>,
                                           referralCount: nat)

  function Ranked(top: seq<Entry>): (r: seq<RankedReferrer>)
    ensures |r| == |top|
    ensures forall k :: 0 <= k < |top| ==>
      r[k] == RankedReferrer(k + 1, top[k].user.id, top[k].user.username, top[k].user.profileImage, top[k].count)
  {
    seq(|top|, k requires 0 <= k < |top| =>
      RankedReferrer(k + 1, top[k].user.id, top[k].user.username, top[k].user.profileImage, top[k].count))
  }

  /** Every user, with their referral count, in leaderboard order. */
  function Ranking(users: seq<User>, referrals: seq<Referral>): (r: seq<Entry>)
    ensures SortedDesc(r)
    ensures multiset(r) == multiset(Entries(users, referrals))
    ensures |r| == |users|
  {
    var sorted := SortDesc(Entries(users, referrals));
    assert |multiset(sorted)| == |multiset(Entries(users, referrals))|;
    sorted
  }

  /** `e` shows a user with their true referral count. */
  predicate ShowsReferrer(users: seq<User>, referrals: seq<Referral>, e: RankedReferrer) {
    exists u :: u in users && e.id == u.id && e.username == u.username
      && e.profileImage == u.profileImage && e.referralCount == ReferralCount(referrals, u.id)
  }

  /** The referrer leaderboard: the `take` users with the most referrals,
      ranked from 1, 10 of them unless the query says otherwise. */
  function Leaderboard(users: seq<User>, referrals: seq<Referral>, limit: Option<nat>): (r: seq<RankedReferrer>)
    ensures var take := if limit.Some? then limit.value else 10;
      |r| == Min(take, |users|)
    ensures forall k :: 0 <= k < |r| ==> r[k].rank == k + 1
    ensures forall i, j :: 0 <= i < j < |r| ==> r[i].referralCount >= r[j].referralCount
    ensures forall k :: 0 <= k < |r| ==> ShowsReferrer(users, referrals, r[k])
    ensures forall k :: 0 <= k < |r| ==>
      r[k].id == Ranking(users, referrals)[k].user.id && r[k].referralCount == Ranking(users, referrals)[k].count
  {
    var take := if limit.Some? then limit.value else 10;
    var entries := Entries(users, referrals);
    var sorted := Ranking(users, referrals);
    var top := sorted[..Min(take, |sorted|)];
    var r := Ranked(top);
    forall k | 0 <= k < |r| ensures ShowsReferrer(users, referrals, r[k]) {
      assert sorted[k] in multiset(entries);
      var i :| 0 <= i < |entries| && entries[i] == sorted[k];
      var u := users[i];
      assert u in users && r[k].id == u.id && r[k].username == u.username
        && r[k].profileImage == u.profileImage && r[k].referralCount == ReferralCount(referrals, u.id);
    }
    r
  }

  /** Is user `u` on the board? */
  predicate Listed(r: seq<RankedReferrer>, u: User) {
    exists k :: 0 <= k < |r| && r[k].id == u.id
  }

  /** The board holds the top referrers: a user left off it has no more
      referrals than anyone on it. */
  lemma LeaderboardIsTop(users: seq<User>, referrals: seq<Referral>, limit: Option<nat>)
    ensures var r := Leaderboard(users, referrals, limit);
      forall i :: 0 <= i < |users| && !Listed(r, users[i]) ==>
        forall k :: 0 <= k < |r| ==> ReferralCount(referrals, users[i].id) <= r[k].referralCount
  {
    var r := Leaderboard(users, referrals, limit);
    var entries := Entries(users, referrals);
    var sorted := Ranking(users, referrals);
    forall i | 0 <= i < |users| && !Listed(r, users[i])
      ensures forall k :: 0 <= k < |r| ==> ReferralCount(referrals, users[i].id) <= r[k].referralCount
    {
      assert entries[i] in multiset(sorted);
      var j :| 0 <= j < |sorted| && sorted[j] == entries[i];
      assert j >= |r|;
      assert forall k :: 0 <= k < |r| ==> sorted[k].count >= sorted[j].count;
    }
  }

  /** Whether a handler's answer reaches the client. */
  datatype Reply<T> = Answered(result: Result<T>) | NoReply

  /** What a route handler's third parameter holds: Express passes the
      response object second and the `next` function third. */
  datatype Slot = ResponseObject | NextFunction

  /** Writing an answer through `slot`: the `next` function has neither
      `json` nor `status`, so the write throws, and so does the 500 the catch
      block then tries to send. This assumes Express 4, which drops the
      rejected promise of an async handler, and a build that skips type
      checking, since `res.json` on a `NextFunction` is a type error. Under
      Express 5 the rejection would reach the error handler, which answers
      500. Under those assumptions no answer is ever sent. */
  function WriteThrough<T>(slot: Slot, answer: Result<T>): (r: Reply<T>)
    ensures slot.ResponseObject? ==> r == Answered(answer)
    ensures slot.NextFunction? ==> r == NoReply
  {
    if slot.ResponseObject? then Answered(answer) else NoReply
  }

  /** The leaderboard handler, writing through whatever its parameter named
      `res` holds. */
  function LeaderboardHandler(res: Slot, users: seq<User>, referrals: seq<Referral>, limit: Option<nat>)
    : Reply<seq<RankedReferrer>>
  {
    WriteThrough(res, Ok(Leaderboard(users, referrals, limit)))
  }

  /** `GET /leaderboard/referrers` as written: its parameter list declares
      three parameters `req, AuthRequest, res`, so `res` is bound to `next`. */
  function LeaderboardAsWritten(users: seq<User>, referrals: seq<Referral>, limit: Option<nat>)
    : (r: Reply<seq<RankedReferrer>>)
    ensures r != LeaderboardRoute(users, referrals, limit)
  {
    LeaderboardHandler(NextFunction, users, referrals, limit)
  }

  /** No request to the leaderboard as written is ever answered. */
  lemma LeaderboardNeverAnswers(users: seq<User>, referrals: seq<Referral>, limit: Option<nat>)
    ensures LeaderboardAsWritten(users, referrals, limit) == NoReply
  {
  }

  /** `GET /leaderboard/referrers` as evidently intended, with `res` bound to
      the response: it answers the ranked leaderboard. */
  function LeaderboardRoute(users: seq<User>, referrals: seq<Referral>, limit: Option<nat>)
    : (r: Reply<seq<RankedReferrer>>)
    ensures r.Answered? && r.result.Ok?
    ensures r.result.value == Leaderboard(users, referrals, limit)
  {
    LeaderboardHandler(ResponseObject, users, referrals, limit)
  }
}
