/** The account routes of backend/src/routes/auth.ts: logging in with a
    wallet address, registering a profile, and reading one's own profile.
    Signing a session token is an oracle `sign`; the wallet signature sent
    with the requests is never checked. */
module AuthRoutes {
  import opened Common
  import opened Store
  import AuthMiddleware

  const CREDENTIALS_REQUIRED := Http(BAD_REQUEST, "Adresse wallet et signature requis")
  const NO_PROFILE := Http(NOT_FOUND, "Utilisateur non trouvé. Veuillez créer un profil.")
  const MISSING_FIELDS := Http(BAD_REQUEST, "Tous les champs sont requis")
  const ALREADY_EXISTS := Http(BAD_REQUEST, "Utilisateur déjà existant")
  const NOT_FOUND_USER := Http(NOT_FOUND, "Utilisateur non trouvé")

  /** The user as the login answer shows it. */
  datatype AccountView = AccountView(id: nat, walletAddress: string, username: string, isPremium: bool,
                                     profileImage: Option<string>)

  datatype Session = Session(token: string, user: AccountView)

  /** The answer of a registration (sent with status 201). */
  datatype Registration = Registration(token: string, user: AccountView, interests: seq<Interest>)

  function ViewOf(u: User): AccountView {
    AccountView(u.id, u.walletAddress, u.username, u.isPremium, u.profileImage)
  }

  /** The claims the server signs for a user. */
  function ClaimsOf(u: User): AuthMiddleware.Claims {
    AuthMiddleware.Claims(u.id, u.walletAddress)
  }

  function WalletIs(walletAddress: string): User -> bool {
    (u: User) => u.walletAddress == walletAddress
  }

  predicate HasWallet(users: seq<User>, walletAddress: string) {
    exists i :: 0 <= i < |users| && users[i].walletAddress == walletAddress
  }

  /** `POST /login`: find the user by wallet address and sign a token for
      them. */
  function Login(users: seq<User>, walletAddress: Option<string>, signature: Option<string>,
                 sign: AuthMiddleware.Claims -> string): (r: Result<Session>)
    ensures !(Present(walletAddress) && Present(signature)) ==> r == Fail(CREDENTIALS_REQUIRED)
    ensures Present(walletAddress) && Present(signature) ==>
      && (r.Ok? <==> HasWallet(users, walletAddress.value))
      && (r.Fail? ==> r == Fail(NO_PROFILE))
    ensures r.Ok? ==>
      exists u :: u in users && u.walletAddress == walletAddress.value
                  && r.value == Session(sign(ClaimsOf(u)), ViewOf(u))
    ensures r.Ok? && WalletsUnique(users) ==>
      forall i :: 0 <= i < |users| && users[i].walletAddress == walletAddress.value ==>
        r.value == Session(sign(ClaimsOf(users[i])), ViewOf(users[i]))
  {
    if !Present(walletAddress) || !Present(signature) then Fail(CREDENTIALS_REQUIRED)
    else
      var user := First(users, WalletIs(walletAddress.value));
      assert HasWallet(users, walletAddress.value) ==> user.Some? by {
        if HasWallet(users, walletAddress.value) {
          var i :| 0 <= i < |users| && users[i].walletAddress == walletAddress.value;
          assert WalletIs(walletAddress.value)(users[i]);
        }
      }
      match user
      case None => Fail(NO_PROFILE)
      case Some(u) => Ok(Session(sign(ClaimsOf(u)), ViewOf(u)))
  }

  /** Any non-empty signature logs in: its value plays no part. */
  lemma SignatureIgnored(users: seq<User>, walletAddress: Option<string>, s1: string, s2: string,
                         sign: AuthMiddleware.Claims -> string)
    requires s1 != "" && s2 != ""
    ensures Login(users, walletAddress, Some(s1), sign) == Login(users, walletAddress, Some(s2), sign)
  {
  }

  function Clashes(walletAddress: string, username: string): User -> bool {
    (u: User) => u.walletAddress == walletAddress || u.username == username
  }

  /** Some user already has the wallet address or the username. */
  predicate Taken(users: seq<User>, walletAddress: string, username: string) {
    exists i :: 0 <= i < |users| && (users[i].walletAddress == walletAddress || users[i].username == username)
  }

  /** The row `create` makes for a new user: not premium, no image. */
  function NewUser(id: nat, walletAddress: string, username: string, now: int): User {
    User(id, walletAddress, username, false, None, None, now)
  }

  /** `POST /register`: refuse missing fields and an existing wallet or
      username, then upsert the interests, create the user with links to
      them and sign a token. */
  method Register(db: Db, walletAddress: Option<string>, username: Option<string>, interests: Option<seq<string>>,
                  signature: Option<string>, sign: AuthMiddleware.Claims -> string, now: int)
    returns (r: Result<Registration>)
    requires db.Valid()
    modifies db`users, db`interests, db`userInterests
    ensures db.Valid()
    ensures !(Present(walletAddress) && Present(username) && interests.Some? && Present(signature)) ==>
      r == Fail(MISSING_FIELDS) && unchanged(db)
    ensures Present(walletAddress) && Present(username) && interests.Some? && Present(signature) ==>
      && (Taken(old(db.users), walletAddress.value, username.value) ==> r == Fail(ALREADY_EXISTS) && unchanged(db))
      && (!Taken(old(db.users), walletAddress.value, username.value) ==>
            var u := NewUser(|old(db.users)|, walletAddress.value, username.value, now);
            && db.users == old(db.users) + [u]
            && old(db.interests) <= db.interests
            && (forall k :: |old(db.interests)| <= k < |db.interests| ==> db.interests[k].name in interests.value)
            && old(db.userInterests) <= db.userInterests
            && InterestNamesOf(db.userInterests, db.interests, u.id) == interests.value
            && (forall v :: v != u.id ==> Filter(db.userInterests, OfUser(v)) == Filter(old(db.userInterests), OfUser(v)))
            && r == Ok(Registration(sign(ClaimsOf(u)), ViewOf(u), InterestsOf(db.userInterests, db.interests, u.id))))
    ensures UsernamesUnique(old(db.users)) ==> UsernamesUnique(db.users)
    ensures WalletsUnique(old(db.users)) ==> WalletsUnique(db.users)
    ensures InterestNamesUnique(old(db.interests)) ==> InterestNamesUnique(db.interests)
  {
    if !Present(walletAddress) || !Present(username) || interests.None? || !Present(signature) {
      return Fail(MISSING_FIELDS);
    }
    var existingUser := First(db.users, Clashes(walletAddress.value, username.value));
    if existingUser.Some? {
      return Fail(ALREADY_EXISTS);
    }
    assert !Taken(db.users, walletAddress.value, username.value) by {
      forall i | 0 <= i < |db.users|
        ensures !(db.users[i].walletAddress == walletAddress.value || db.users[i].username == username.value)
      {
        assert !Clashes(walletAddress.value, username.value)(db.users[i]);
      }
    }
    var interestRecords := UpsertInterests(db, interests.value);
    var user := NewUser(|db.users|, walletAddress.value, username.value, now);
    var links := LinksTo(user.id, interestRecords);
    NewUserInterests(db.users, db.userInterests, db.interests, user.id, interestRecords);
    assert Names(interestRecords) == interests.value;
    NewUserKeepsUnique(db.users, user);
    NewUserKeepsKeys(db.users, db.userInterests, user, interestRecords);
    OthersKeepLinks(db.userInterests, user.id, interestRecords);
    db.users := db.users + [user];
    db.userInterests := db.userInterests + links;
    r := Ok(Registration(sign(ClaimsOf(user)), ViewOf(user), InterestsOf(db.userInterests, db.interests, user.id)));
  }

  /** A user whose wallet and username are free keeps both unique. */
  lemma NewUserKeepsUnique(users: seq<User>, u: User)
    requires !Taken(users, u.walletAddress, u.username)
    ensures UsernamesUnique(users) ==> UsernamesUnique(users + [u])
    ensures WalletsUnique(users) ==> WalletsUnique(users + [u])
  {
    var all := users + [u];
    forall i, j | 0 <= i < j < |all|
      ensures UsernamesUnique(users) ==> all[i].username != all[j].username
      ensures WalletsUnique(users) ==> all[i].walletAddress != all[j].walletAddress
    {
      if j == |users| {
        assert all[i] == users[i] && all[j] == u;
      }
    }
  }

  /** The new user row takes the next id, and its interest links point at it. */
  lemma NewUserKeepsKeys(users: seq<User>, userInterests: seq<UserInterest>, u: User, rows: seq<Interest>)
    requires UsersKeyed(users) && LinksToUsers(userInterests, users) && u.id == |users|
    ensures UsersKeyed(users + [u])
    ensures LinksToUsers(userInterests + LinksTo(u.id, rows), users + [u])
  {
    var all := userInterests + LinksTo(u.id, rows);
    forall k | 0 <= k < |all| ensures all[k].userId < |users| + 1 {
      if k >= |userInterests| {
        assert all[k] == LinksTo(u.id, rows)[k - |userInterests|];
      }
    }
  }

  /** A new user's interests are exactly the rows their links point at: no
      earlier link can name an id that did not exist yet. */
  lemma NewUserInterests(users: seq<User>, userInterests: seq<UserInterest>, interests: seq<Interest>,
                         u: nat, rows: seq<Interest>)
    requires LinksToUsers(userInterests, users) && u == |users|
    requires forall k :: 0 <= k < |rows| ==> rows[k].id < |interests| && interests[rows[k].id] == rows[k]
    ensures InterestsOf(userInterests + LinksTo(u, rows), interests, u) == rows
  {
    InterestsOfOthers(userInterests, interests, u);
    InterestsOfAppend(userInterests, LinksTo(u, rows), interests, u);
    InterestsOfLinks(u, rows, interests);
  }

  /** Appending the new user's links leaves every other user's links as they
      were. */
  lemma OthersKeepLinks(userInterests: seq<UserInterest>, u: nat, rows: seq<Interest>)
    ensures forall v :: v != u ==>
      Filter(userInterests + LinksTo(u, rows), OfUser(v)) == Filter(userInterests, OfUser(v))
  {
    forall v | v != u ensures Filter(userInterests + LinksTo(u, rows), OfUser(v)) == Filter(userInterests, OfUser(v)) {
      FilterAppend(userInterests, LinksTo(u, rows), OfUser(v));
      FilterNone(LinksTo(u, rows), OfUser(v));
    }
  }

  /** A user who has just registered can log in with the same wallet and
      receives a token for the new account. */
  lemma RegisteredCanLogIn(users: seq<User>, u: User, signature: string, sign: AuthMiddleware.Claims -> string)
    requires WalletsUnique(users + [u])
    requires signature != "" && u.walletAddress != ""
    ensures Login(users + [u], Some(u.walletAddress), Some(signature), sign) == Ok(Session(sign(ClaimsOf(u)), ViewOf(u)))
  {
    var all := users + [u];
    assert all[|users|] == u;
  }

  /** The profile `GET /me` answers. */
  datatype Profile = Profile(id: nat, walletAddress: string, username: string, isPremium: bool,
                             premiumUntil: Option<int>, profileImage: Option<string>,
                             interests: seq<Interest>, badges: seq<Badge>, createdAt: int)

  function ProfileOf(u: User, links: seq<UserInterest>, interests: seq<Interest>,
                     userBadges: seq<UserBadge>, badges: seq<Badge>): Profile {
    Profile(u.id, u.walletAddress, u.username, u.isPremium, u.premiumUntil, u.profileImage,
            InterestsOf(links, interests, u.id), BadgesOf(userBadges, badges, u.id), u.createdAt)
  }

  /** The handler of `GET /me` given the user the request carries, None
      when no middleware attached one: reading its id then throws. */
  function MeHandler(reqUser: Option<nat>, users: seq<User>, links: seq<UserInterest>, interests: seq<Interest>,
                     userBadges: seq<UserBadge>, badges: seq<Badge>): (r: Result<Profile>)
    ensures reqUser.None? ==> r == Fail(INTERNAL_ERROR)
    ensures reqUser.Some? && reqUser.value >= |users| ==> r == Fail(NOT_FOUND_USER)
    ensures reqUser.Some? && reqUser.value < |users| ==>
      var u := users[reqUser.value];
      && r.Ok? && r.value.id == u.id && r.value.walletAddress == u.walletAddress && r.value.username == u.username
      && r.value.isPremium == u.isPremium && r.value.premiumUntil == u.premiumUntil
      && r.value.profileImage == u.profileImage && r.value.createdAt == u.createdAt
      && r.value.interests == InterestsOf(links, interests, u.id)
      && r.value.badges == BadgesOf(userBadges, badges, u.id)
  {
    if reqUser.None? then Fail(INTERNAL_ERROR)
    else
      match UserById(users, reqUser.value)
      case None => Fail(NOT_FOUND_USER)
      case Some(u) => Ok(ProfileOf(u, links, interests, userBadges, badges))
  }

  /** `GET /me` as the server mounts it: the account router is mounted
      without the authentication middleware, so no request reaching the
      handler carries a user. */
  function MeAsMounted(users: seq<User>, links: seq<UserInterest>, interests: seq<Interest>,
                       userBadges: seq<UserBadge>, badges: seq<Badge>): (r: Result<Profile>)
    ensures r.Fail?
  {
    MeHandler(None, users, links, interests, userBadges, badges)
  }

  /** Every call of `GET /me` as mounted answers the generic 500, whatever
      the store holds and whatever token the client sends. */
  lemma MeAsMountedAlwaysFails(users: seq<User>, links: seq<UserInterest>, interests: seq<Interest>,
                               userBadges: seq<UserBadge>, badges: seq<Badge>)
    ensures MeAsMounted(users, links, interests, userBadges, badges) == Fail(INTERNAL_ERROR)
  {
  }

  /** `GET /me` behind the authentication middleware, for the authenticated
      `caller`: their profile with interests and badges. */
  function Me(users: seq<User>, links: seq<UserInterest>, interests: seq<Interest>,
              userBadges: seq<UserBadge>, badges: seq<Badge>, caller: nat): (r: Result<Profile>)
    ensures r.Ok? <==> caller < |users|
    ensures r.Fail? ==> r == Fail(NOT_FOUND_USER)
    ensures r.Ok? ==>
      var u := users[caller];
      && r.value.walletAddress == u.walletAddress && r.value.username == u.username
      && r.value.isPremium == u.isPremium && r.value.premiumUntil == u.premiumUntil
      && r.value.profileImage == u.profileImage && r.value.createdAt == u.createdAt
    ensures UsersKeyed(users) && r.Ok? ==>
      && r.value.id == caller
      && r.value.interests == InterestsOf(links, interests, caller)
      && r.value.badges == BadgesOf(userBadges, badges, caller)
  {
    MeHandler(Some(caller), users, links, interests, userBadges, badges)
  }

  /** Right after registering, `GET /me` behind the middleware shows the
      new account with the interest names it registered with. */
  lemma RegisteredSeesProfile(users: seq<User>, links: seq<UserInterest>, interests: seq<Interest>,
                              userBadges: seq<UserBadge>, badges: seq<Badge>, id: nat, names: seq<string>)
    requires id < |users| && UsersKeyed(users)
    requires InterestNamesOf(links, interests, id) == names
    ensures var r := Me(users, links, interests, userBadges, badges, id);
            r.Ok? && r.value.id == id && Names(r.value.interests) == names
  {
  }
}
