/** The authentication middleware of backend/src/middleware/auth.ts: it takes
    the bearer token from the Authorization header, has it verified, loads
    the user, and clears a premium period that has ended before letting the
    request through. Token signing and verification are an oracle. */
module AuthMiddleware {
  import opened Common
  import opened Store

  /** The claims a session token carries. */
  datatype Claims = Claims(userId: nat, walletAddress: string)

  /** The user the middleware attaches to the request. */
  datatype AuthUser = AuthUser(id: nat, walletAddress: string, username: string, isPremium: bool, premiumUntil: Option<int>)

  const TOKEN_REQUIRED := Http(UNAUTHORIZED, "Token d'accès requis")
  const TOKEN_INVALID := Http(UNAUTHORIZED, "Token invalide")
  const USER_GONE := Http(UNAUTHORIZED, "Utilisateur non trouvé")

  const BEARER: string := "Bearer "

  /** True when `pat` occurs in `s` at position `j`. */
  predicate OccursAt(s: string, pat: string, j: nat) {
    j + |pat| <= |s| && s[j..j + |pat|] == pat
  }

  /** The first position at or after `i` where `pat` occurs in `s`. */
  function FindFrom(s: string, pat: string, i: nat): (r: Option<nat>)
    requires i <= |s|
    decreases |s| - i
    ensures r.Some? ==> i <= r.value && OccursAt(s, pat, r.value)
    ensures r.Some? ==> forall j :: i <= j < r.value ==> !OccursAt(s, pat, j)
    ensures r.None? ==> forall j :: i <= j ==> !OccursAt(s, pat, j)
  {
    if i + |pat| > |s| then None
    else if s[i..i + |pat|] == pat then Some(i)
    else FindFrom(s, pat, i + 1)
  }

  /** JavaScript's `String.prototype.replace` with a string pattern: only the
      first occurrence is replaced. */
  function ReplaceFirst(s: string, pat: string, rep: string): (r: string)
    ensures FindFrom(s, pat, 0).None? ==> r == s
    ensures FindFrom(s, pat, 0).Some? ==>
      var i := FindFrom(s, pat, 0).value;
      r == s[..i] + rep + s[i + |pat|..] && |r| == |s| - |pat| + |rep|
  {
    match FindFrom(s, pat, 0)
    case None => s
    case Some(i) => s[..i] + rep + s[i + |pat|..]
  }

  /** The token of an Authorization header: the header with its first
      "Bearer " removed, None when that leaves nothing. */
  function BearerToken(header: Option<string>): (t: Option<string>)
    ensures header.None? ==> t.None?
    ensures t.Some? ==> t.value != ""
  {
    if header.None? then None
    else
      var token := ReplaceFirst(header.value, BEARER, "");
      if token == "" then None else Some(token)
  }

  /** The header a client sends gives back the token it carries. */
  lemma BearerRoundTrip(token: string)
    requires token != ""
    ensures BearerToken(Some(BEARER + token)) == Some(token)
  {
    var h := BEARER + token;
    assert OccursAt(h, BEARER, 0);
    assert FindFrom(h, BEARER, 0) == Some(0);
    assert h[..0] + "" + h[|BEARER|..] == token;
  }

  /** A header without the scheme is taken whole as the token, and a header
      that is only the scheme carries no token. */
  lemma BareHeaders(header: string)
    requires header != ""
    requires forall j: nat :: !OccursAt(header, BEARER, j)
    ensures BearerToken(Some(header)) == Some(header)
    ensures BearerToken(Some(BEARER)) == None
  {
    assert OccursAt(BEARER, BEARER, 0);
  }

  /** A premium period has ended once `now` is past its end. */
  predicate Expired(u: User, now: int) {
    u.premiumUntil.Some? && now > u.premiumUntil.value
  }

  /** The row after the middleware's check: an ended period is cleared
      along with the premium flag. */
  function Reconcile(u: User, now: int): (r: User)
    ensures !Expired(r, now)
    ensures Expired(u, now) ==> !r.isPremium && r.premiumUntil.None?
    ensures !Expired(u, now) ==> r == u
    ensures r.id == u.id && r.walletAddress == u.walletAddress && r.username == u.username
    ensures r.profileImage == u.profileImage && r.createdAt == u.createdAt
  {
    if Expired(u, now) then u.(isPremium := false, premiumUntil := None) else u
  }

  /** Running the check twice changes nothing more, and running it later
      again keeps what the earlier run cleared. */
  lemma ReconcileIdempotent(u: User, now: int, later: int)
    requires now <= later
    ensures Reconcile(Reconcile(u, now), now) == Reconcile(u, now)
    ensures Reconcile(Reconcile(u, now), later) == Reconcile(u, later)
  {
  }

  /** After the check, a user flagged premium holds a period that has not
      ended. A flag set without any period is left as it is. */
  lemma ReconciledFlag(u: User, now: int)
    requires u.isPremium
    ensures Reconcile(u, now).isPremium ==> u.premiumUntil.None? || u.premiumUntil.value >= now
  {
  }

  /** `authMiddleware`: answer 401 or let the request through as the
      verified user, after clearing an ended premium period in the store.
      `verify` is the token verification under the server's secret. */
  method Authenticate(db: Db, header: Option<string>, verify: string -> Option<Claims>, now: int)
    returns (r: Result<AuthUser>)
    requires db.Valid()
    modifies db`users
    ensures db.Valid()
    ensures BearerToken(header).None? ==> r == Fail(TOKEN_REQUIRED) && db.users == old(db.users)
    ensures BearerToken(header).Some? && verify(BearerToken(header).value).None? ==>
      r == Fail(TOKEN_INVALID) && db.users == old(db.users)
    ensures BearerToken(header).Some? && verify(BearerToken(header).value).Some? ==>
      var id := verify(BearerToken(header).value).value.userId;
      && (id >= |old(db.users)| ==> r == Fail(USER_GONE) && db.users == old(db.users))
      && (id < |old(db.users)| ==>
            var u := old(db.users)[id];
            && db.users == old(db.users)[id := Reconcile(u, now)]
            && r == Ok(AuthUser(u.id, u.walletAddress, u.username, Reconcile(u, now).isPremium, u.premiumUntil)))
  {
    var token := BearerToken(header);
    if token.None? {
      return Fail(TOKEN_REQUIRED);
    }
    var decoded := verify(token.value);
    if decoded.None? {
      return Fail(TOKEN_INVALID);
    }
    var user := UserById(db.users, decoded.value.userId);
    if user.None? {
      return Fail(USER_GONE);
    }
    var u := user.value;
    var isPremium := u.isPremium;
    if Expired(u, now) {
      db.users := db.users[u.id := u.(isPremium := false, premiumUntil := None)];
      isPremium := false;
    }
    r := Ok(AuthUser(u.id, u.walletAddress, u.username, isPremium, u.premiumUntil));
  }
}
