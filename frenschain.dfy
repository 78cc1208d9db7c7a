/** The on-chain program of smart-contracts/programs/frenschain/src/lib.rs:
    a global configuration account, one profile account per wallet, paid
    subscriptions and match accounts. Instants are Unix seconds, amounts are
    lamports. A failed instruction leaves every account as it was. */
module Frenschain {
  import opened Common

  type Pubkey = nat
  type u32 = x: int | 0 <= x <= 0xFFFF_FFFF
  type u64 = x: int | 0 <= x <= 0xFFFF_FFFF_FFFF_FFFF
  type i64 = x: int | -0x8000_0000_0000_0000 <= x <= 0x7FFF_FFFF_FFFF_FFFF

  const I64_MAX: int := 0x7FFF_FFFF_FFFF_FFFF
  const U32_MAX: int := 0xFFFF_FFFF

  const EARLY_BIRD_LIMIT: u32 := 2000
  const REGULAR_LIMIT: u32 := 5000
  /** 0.1 SOL. */
  const EARLY_BIRD_PRICE: u64 := 100_000_000
  /** 0.2 SOL. */
  const REGULAR_PRICE: u64 := 200_000_000
  /** 0.05 SOL. */
  const MONTHLY_PRICE: u64 := 50_000_000

  const MONTH_S: int := 30 * 24 * 60 * 60
  const SIX_MONTHS_S: int := 6 * MONTH_S

  const MAX_USERNAME_BYTES: nat := 32
  const MAX_INTERESTS: nat := 5

  datatype Interest = Friends | Love | Sex | Crypto | Passion

  datatype SubscriptionType = EarlyBird | Regular

  /** The program's own error codes. */
  datatype ErrorCode = UsernameTooLong | TooManyInterests | AlreadyPremium | EarlyBirdLimitReached | RegularLimitReached

  /** Why an instruction fails: one of the program's codes, or a failure of
      the runtime (an account that already exists or does not, a transfer
      the payer cannot cover, an arithmetic overflow). */
  datatype ProgramError =
    | Custom(code: ErrorCode)
    | AccountInUse
    | AccountNotInitialized
    | InsufficientFunds
    | ArithmeticOverflow

  datatype Outcome = Success | Failure(error: ProgramError)

  datatype Config = Config(
    authority: Pubkey,
    totalUsers: u32,
    earlyBirdLimit: u32,
    regularLimit: u32,
    earlyBirdPrice: u64,
    regularPrice: u64,
    monthlyPrice: u64)

  datatype Profile = Profile(
    authority: Pubkey,
    username: string,
    interests: seq<Interest>,
    isPremium: bool,
    premiumUntil: i64,
    createdAt: i64)

  datatype MatchAccount = MatchAccount(user1: Pubkey, user2: Pubkey, createdAt: i64, isActive: bool)

  /** The number of bytes of the UTF-8 encoding of one character. */
  function Utf8Width(c: char): (n: nat)
    ensures 1 <= n <= 4
  {
    if c as int < 0x80 then 1 else if c as int < 0x800 then 2 else if c as int < 0x1_0000 then 3 else 4
  }

  /** The byte length of a string, which is what `String::len` measures. */
  function Utf8Len(s: string): (n: nat)
    ensures |s| <= n <= 4 * |s|
    ensures (forall i :: 0 <= i < |s| ==> s[i] as int < 0x80) ==> n == |s|
  {
    if s == [] then 0 else Utf8Width(s[0]) + Utf8Len(s[1..])
  }

  /** The checks of `create_profile`, in order. */
  function ProfileCheck(username: string, interests: seq<Interest>): (r: Option<ErrorCode>)
    ensures r == Some(UsernameTooLong) <==> Utf8Len(username) > MAX_USERNAME_BYTES
    ensures r == Some(TooManyInterests) <==> Utf8Len(username) <= MAX_USERNAME_BYTES && |interests| > MAX_INTERESTS
    ensures r.None? <==> Utf8Len(username) <= MAX_USERNAME_BYTES && |interests| <= MAX_INTERESTS
  {
    if Utf8Len(username) > MAX_USERNAME_BYTES then Some(UsernameTooLong)
    else if |interests| > MAX_INTERESTS then Some(TooManyInterests)
    else None
  }

  /** A name of more than 32 characters never fits, whatever its alphabet;
      a name of at most 8 characters always does. */
  lemma UsernameBounds(username: string)
    ensures |username| > MAX_USERNAME_BYTES ==> Utf8Len(username) > MAX_USERNAME_BYTES
    ensures |username| <= 8 ==> Utf8Len(username) <= MAX_USERNAME_BYTES
  {
  }

  datatype Quote = Price(lamports: u64) | Refused(code: ErrorCode)

  /** The price gate of `subscribe_initial`: each kind of initial
      subscription is sold while fewer users than its limit have a profile. */
  function InitialPrice(config: Config, kind: SubscriptionType): (q: Quote)
    ensures kind == EarlyBird ==> (q.Price? <==> config.totalUsers < config.earlyBirdLimit)
    ensures kind == Regular ==> (q.Price? <==> config.totalUsers < config.regularLimit)
    ensures q.Price? ==> q.lamports == (if kind == EarlyBird then config.earlyBirdPrice else config.regularPrice)
    ensures q.Refused? ==> q.code == (if kind == EarlyBird then EarlyBirdLimitReached else RegularLimitReached)
  {
    match kind
    case EarlyBird =>
      if config.totalUsers < config.earlyBirdLimit then Price(config.earlyBirdPrice) else Refused(EarlyBirdLimitReached)
    case Regular =>
      if config.totalUsers < config.regularLimit then Price(config.regularPrice) else Refused(RegularLimitReached)
  }

  /** The configuration `initialize` writes. */
  function InitialConfig(authority: Pubkey): Config {
    Config(authority, 0, EARLY_BIRD_LIMIT, REGULAR_LIMIT, EARLY_BIRD_PRICE, REGULAR_PRICE, MONTHLY_PRICE)
  }

  /** Under the configuration `initialize` writes, whoever may buy the early
      bird offer may buy the regular one too, at twice the price. */
  lemma EarlyBirdWithinRegular(authority: Pubkey, totalUsers: u32)
    ensures var c := InitialConfig(authority).(totalUsers := totalUsers);
            InitialPrice(c, EarlyBird).Price? ==>
              InitialPrice(c, Regular).Price? && InitialPrice(c, Regular).lamports == 2 * InitialPrice(c, EarlyBird).lamports
  {
  }

  /** The end of the premium period after a monthly payment at `now`: one
      month after `now` when the period has lapsed, else one month after its
      current end. Unbounded: the caller checks it fits an i64. */
  function RenewedUntil(premiumUntil: int, now: int): (r: int)
    ensures r >= now + MONTH_S && r >= premiumUntil + MONTH_S
    ensures r == now + MONTH_S || r == premiumUntil + MONTH_S
  {
    if premiumUntil < now then now + MONTH_S else premiumUntil + MONTH_S
  }

  /** The accounts of the program: the configuration, the profiles by owning
      wallet, the match accounts by their (user1, user2) seeds, the lamports
      of the wallets that sign, and the lamports paid into the configuration
      account. */
  class Program {
    var config: Option<Config>
    var profiles: map<Pubkey, Profile>
    var matches: map<(Pubkey, Pubkey), MatchAccount>
    var wallets: map<Pubkey, nat>
    var treasury: nat

    /** The user counter counts profiles, each profile belongs to the wallet
        it is stored under, and no profile exists before the configuration. */
    ghost predicate Valid()
      reads this
    {
      && (config.None? ==> profiles == map[])
      && (config.Some? ==> config.value.totalUsers == |profiles|)
      && (forall k :: k in profiles ==> profiles[k].authority == k)
      && (forall k :: k in matches ==> matches[k].user1 == k.0 && matches[k].user2 == k.1)
    }

    constructor (wallets: map<Pubkey, nat>)
      ensures Valid()
      ensures config.None? && profiles == map[] && matches == map[] && this.wallets == wallets && treasury == 0
    {
      config := None;
      profiles := map[];
      matches := map[];
      this.wallets := wallets;
      treasury := 0;
    }

    function Balance(key: Pubkey): nat
      reads this
    {
      if key in wallets then wallets[key] else 0
    }

    /** `initialize`: create the configuration account with the launch
        limits and prices. */
    method Initialize(authority: Pubkey) returns (r: Outcome)
      requires Valid()
      modifies this
      ensures Valid()
      ensures old(config).Some? ==> r == Failure(AccountInUse) && config == old(config)
      ensures old(config).None? ==> r == Success && config == Some(InitialConfig(authority))
      ensures profiles == old(profiles) && matches == old(matches)
      ensures wallets == old(wallets) && treasury == old(treasury)
    {
      if config.Some? {
        return Failure(AccountInUse);
      }
      config := Some(InitialConfig(authority));
      r := Success;
    }

    /** `create_profile`: create the profile of `authority` and count one
        more user. */
    method CreateProfile(authority: Pubkey, username: string, interests: seq<Interest>, now: i64) returns (r: Outcome)
      requires Valid()
      modifies this
      ensures Valid()
      ensures authority in old(profiles) ==> r == Failure(AccountInUse)
      ensures authority !in old(profiles) && old(config).None? ==> r == Failure(AccountNotInitialized)
      ensures authority !in old(profiles) && old(config).Some? && ProfileCheck(username, interests).Some? ==>
        r == Failure(Custom(ProfileCheck(username, interests).value))
      ensures r.Failure? ==> profiles == old(profiles) && config == old(config)
      ensures r.Success? <==>
        authority !in old(profiles) && old(config).Some? && ProfileCheck(username, interests).None?
        && old(config).value.totalUsers < U32_MAX
      ensures r.Success? ==>
        && profiles == old(profiles)[authority := Profile(authority, username, interests, false, 0, now)]
        && config == Some(old(config).value.(totalUsers := old(config).value.totalUsers + 1))
      ensures matches == old(matches) && wallets == old(wallets) && treasury == old(treasury)
    {
      if authority in profiles {
        return Failure(AccountInUse);
      }
      if config.None? {
        return Failure(AccountNotInitialized);
      }
      var check := ProfileCheck(username, interests);
      if check.Some? {
        return Failure(Custom(check.value));
      }
      var c := config.value;
      if c.totalUsers == U32_MAX {
        return Failure(ArithmeticOverflow);
      }
      profiles := profiles[authority := Profile(authority, username, interests, false, 0, now)];
      config := Some(c.(totalUsers := c.totalUsers + 1));
      r := Success;
    }

    /** `subscribe_initial`: a wallet that is not premium pays the price of
        the chosen offer into the configuration account and becomes premium
        for six months. */
    method SubscribeInitial(authority: Pubkey, kind: SubscriptionType, now: i64) returns (r: Outcome)
      requires Valid()
      modifies this
      ensures Valid()
      ensures authority !in old(profiles) || old(config).None? ==> r == Failure(AccountNotInitialized)
      ensures authority in old(profiles) && old(config).Some? && old(profiles)[authority].isPremium ==>
        r == Failure(Custom(AlreadyPremium))
      ensures authority in old(profiles) && old(config).Some? && !old(profiles)[authority].isPremium ==>
        var q := InitialPrice(old(config).value, kind);
        && (q.Refused? ==> r == Failure(Custom(q.code)))
        && (q.Price? && old(Balance(authority)) < q.lamports ==> r == Failure(InsufficientFunds))
        && (q.Price? && old(Balance(authority)) >= q.lamports && now + SIX_MONTHS_S > I64_MAX ==>
              r == Failure(ArithmeticOverflow))
        && (q.Price? && old(Balance(authority)) >= q.lamports && now + SIX_MONTHS_S <= I64_MAX ==>
              && r == Success
              && profiles == old(profiles)[authority := old(profiles)[authority].(isPremium := true, premiumUntil := now + SIX_MONTHS_S)]
              && wallets == old(wallets)[authority := old(Balance(authority)) - q.lamports]
              && treasury == old(treasury) + q.lamports)
      ensures r.Failure? ==> profiles == old(profiles) && wallets == old(wallets) && treasury == old(treasury)
      ensures config == old(config) && matches == old(matches)
    {
      if authority !in profiles || config.None? {
        return Failure(AccountNotInitialized);
      }
      var profile := profiles[authority];
      if profile.isPremium {
        return Failure(Custom(AlreadyPremium));
      }
      var quote := InitialPrice(config.value, kind);
      if quote.Refused? {
        return Failure(Custom(quote.code));
      }
      var balance := Balance(authority);
      if balance < quote.lamports {
        return Failure(InsufficientFunds);
      }
      if now + SIX_MONTHS_S > I64_MAX {
        return Failure(ArithmeticOverflow);
      }
      wallets := wallets[authority := balance - quote.lamports];
      treasury := treasury + quote.lamports;
      profiles := profiles[authority := profile.(isPremium := true, premiumUntil := now + SIX_MONTHS_S)];
      r := Success;
    }

    /** `subscribe_monthly`: the wallet pays the monthly price and its premium
        period is extended by one month. */
    method SubscribeMonthly(authority: Pubkey, now: i64) returns (r: Outcome)
      requires Valid()
      modifies this
      ensures Valid()
      ensures authority !in old(profiles) || old(config).None? ==> r == Failure(AccountNotInitialized)
      ensures authority in old(profiles) && old(config).Some? ==>
        var price := old(config).value.monthlyPrice;
        var until := RenewedUntil(old(profiles)[authority].premiumUntil, now);
        && (old(Balance(authority)) < price ==> r == Failure(InsufficientFunds))
        && (old(Balance(authority)) >= price && until > I64_MAX ==> r == Failure(ArithmeticOverflow))
        && (old(Balance(authority)) >= price && until <= I64_MAX ==>
              && r == Success
              && profiles == old(profiles)[authority := old(profiles)[authority].(isPremium := true, premiumUntil := until)]
              && wallets == old(wallets)[authority := old(Balance(authority)) - price]
              && treasury == old(treasury) + price)
      ensures r.Failure? ==> profiles == old(profiles) && wallets == old(wallets) && treasury == old(treasury)
      ensures config == old(config) && matches == old(matches)
    {
      if authority !in profiles || config.None? {
        return Failure(AccountNotInitialized);
      }
      var price := config.value.monthlyPrice;
      var balance := Balance(authority);
      if balance < price {
        return Failure(InsufficientFunds);
      }
      var profile := profiles[authority];
      var until := RenewedUntil(profile.premiumUntil, now);
      if until > I64_MAX {
        return Failure(ArithmeticOverflow);
      }
      wallets := wallets[authority := balance - price];
      treasury := treasury + price;
      profiles := profiles[authority := profile.(isPremium := true, premiumUntil := until)];
      r := Success;
    }

    /** `create_match`: open the match account seeded by (user1, user2). */
    method CreateMatch(user1: Pubkey, user2: Pubkey, now: i64) returns (r: Outcome)
      requires Valid()
      modifies this
      ensures Valid()
      ensures (user1, user2) in old(matches) ==> r == Failure(AccountInUse) && matches == old(matches)
      ensures (user1, user2) !in old(matches) ==>
        r == Success && matches == old(matches)[(user1, user2) := MatchAccount(user1, user2, now, true)]
      ensures config == old(config) && profiles == old(profiles)
      ensures wallets == old(wallets) && treasury == old(treasury)
    {
      if (user1, user2) in matches {
        return Failure(AccountInUse);
      }
      matches := matches[(user1, user2) := MatchAccount(user1, user2, now, true)];
      r := Success;
    }
  }

  /** Nothing in the program clears the premium flag, so a wallet that has
      subscribed once can never subscribe initially again, even after its
      period has ended. */
  method InitialSubscriptionIsOnce(p: Program, authority: Pubkey, kind: SubscriptionType, now: i64, later: i64)
    returns (first: Outcome, second: Outcome)
    requires p.Valid()
    modifies p
    ensures first.Success? ==> second == Failure(Custom(AlreadyPremium))
  {
    first := p.SubscribeInitial(authority, kind, now);
    second := p.SubscribeInitial(authority, kind, later);
  }

  /** The match accounts of a pair are seeded in the order the pair is
      given, so the same two wallets can open two match accounts. */
  method TwoMatchAccountsForOnePair(p: Program, a: Pubkey, b: Pubkey, now: i64)
    returns (first: Outcome, second: Outcome)
    requires p.Valid()
    requires a != b && (a, b) !in p.matches && (b, a) !in p.matches
    modifies p
    ensures first.Success? && second.Success?
    ensures (a, b) in p.matches && (b, a) in p.matches
  {
    first := p.CreateMatch(a, b, now);
    second := p.CreateMatch(b, a, now);
  }
}
