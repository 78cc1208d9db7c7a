/** The subscription bookkeeping of backend/src/services/paymentService.ts:
    recording a verified payment, extending the premium period, the payment
    history, and the subscription status. Instants are milliseconds since
    the epoch. */
module PaymentService {
  import opened Common
  import opened Store

  const DAY_MS: int := 86_400_000
  /** One month of subscription: 30 days. */
  const MONTH_MS: int := 30 * DAY_MS
  /** The initial subscription: 6 months of 30 days. */
  const SIX_MONTHS_MS: int := 6 * MONTH_MS

  const INVALID_TRANSACTION := Thrown("Transaction invalide ou non confirmée")
  const UNKNOWN_USER := Thrown("Utilisateur non trouvé")

  /** The premium time left at `now`, 0 once it has run out or was never
      granted. */
  function RemainingMs(premiumUntil: Option<int>, now: int): (r: nat)
    ensures r > 0 <==> premiumUntil.Some? && premiumUntil.value > now
  {
    if premiumUntil.Some? && premiumUntil.value > now then premiumUntil.value - now else 0
  }

  /** The end of the premium period after a payment of type `paymentType`
      made at `now` by a user whose period ends at `current`. */
  function NewPremiumUntil(paymentType: string, current: Option<int>, now: int): (r: int)
    ensures r > now
    ensures paymentType == "initial" ==> r == now + SIX_MONTHS_MS
    ensures paymentType != "initial" ==> r - now == RemainingMs(current, now) + MONTH_MS
  {
    if paymentType == "initial" then now + SIX_MONTHS_MS
    else if current.Some? && current.value > now then current.value + MONTH_MS
    else now + MONTH_MS
  }

  /** A monthly payment never loses paid time: it ends 30 days after the
      later of now and the current end. */
  lemma MonthlyStacks(current: int, now: int)
    ensures NewPremiumUntil("monthly", Some(current), now) >= current + MONTH_MS
    ensures NewPremiumUntil("monthly", Some(current), now) >= now + MONTH_MS
  {
  }

  /** An initial payment restarts the period from now, whatever was left:
      a user with more than six months left ends up with less. */
  lemma InitialRestartsPeriod(current: int, now: int)
    requires current > now + SIX_MONTHS_MS
    ensures NewPremiumUntil("initial", Some(current), now) < current
  {
  }

  /** The Payment and User tables, the part of the store `processPayment`
      writes. */
  datatype Ledger = Ledger(users: seq<User>, payments: seq<Payment>)

  /** `processPayment`: check the transaction with the chain, record the
      payment, then look the user up and extend their premium period.
      `verified` is the chain's answer for `transactionHash`. */
  function PaymentStep(l: Ledger, verified: bool, userId: nat, transactionHash: string, amount: real,
                       paymentType: string, now: int): (r: (Result<Payment>, Ledger))
    ensures !verified ==> r.0 == Fail(INVALID_TRANSACTION) && r.1 == l
    ensures verified ==>
      r.1.payments == l.payments + [Payment(|l.payments|, userId, amount, transactionHash, paymentType, "confirmed", now, now)]
    ensures verified && userId >= |l.users| ==> r.0 == Fail(UNKNOWN_USER) && r.1.users == l.users
    ensures verified && userId < |l.users| ==>
      && r.0 == Ok(r.1.payments[|l.payments|])
      && |r.1.users| == |l.users|
      && (forall v :: 0 <= v < |l.users| && v != userId ==> r.1.users[v] == l.users[v])
      && r.1.users[userId] == l.users[userId].(isPremium := true,
           premiumUntil := Some(NewPremiumUntil(paymentType, l.users[userId].premiumUntil, now)))
  {
    if !verified then (Fail(INVALID_TRANSACTION), l)
    else
      var payment := Payment(|l.payments|, userId, amount, transactionHash, paymentType, "confirmed", now, now);
      var payments := l.payments + [payment];
      match UserById(l.users, userId)
      case None => (Fail(UNKNOWN_USER), Ledger(l.users, payments))
      case Some(u) =>
        var until := NewPremiumUntil(paymentType, u.premiumUntil, now);
        (Ok(payment), Ledger(l.users[userId := u.(isPremium := true, premiumUntil := Some(until))], payments))
  }

  /** The handler of `processPayment`, in the source's order of store calls. */
  method ProcessPayment(db: Db, verifyTransaction: string -> bool, userId: nat, transactionHash: string,
                        amount: real, paymentType: string, now: int) returns (r: Result<Payment>)
    requires db.Valid()
    modifies db`users, db`payments
    ensures db.Valid()
    ensures (r, Ledger(db.users, db.payments))
         == PaymentStep(old(Ledger(db.users, db.payments)), verifyTransaction(transactionHash), userId,
                        transactionHash, amount, paymentType, now)
  {
    var isValidTransaction := verifyTransaction(transactionHash);
    if !isValidTransaction {
      return Fail(INVALID_TRANSACTION);
    }
    var payment := Payment(|db.payments|, userId, amount, transactionHash, paymentType, "confirmed", now, now);
    db.payments := db.payments + [payment];
    var user := UserById(db.users, userId);
    if user.None? {
      return Fail(UNKNOWN_USER);
    }
    var premiumUntil := NewPremiumUntil(paymentType, user.value.premiumUntil, now);
    db.users := db.users[userId := user.value.(isPremium := true, premiumUntil := Some(premiumUntil))];
    r := Ok(payment);
  }

  function ByUser(userId: nat): Payment -> bool {
    (p: Payment) => p.userId == userId
  }

  function PaymentId(p: Payment): int {
    p.id
  }

  /** `getPaymentHistory`: every payment of the user, newest first. */
  function PaymentHistory(payments: seq<Payment>, userId: nat): (r: seq<Payment>)
    ensures forall i :: 0 <= i < |r| ==> r[i] in payments && r[i].userId == userId
    ensures forall i :: 0 <= i < |payments| && payments[i].userId == userId ==> payments[i] in r
    ensures PaymentsKeyed(payments) ==> forall i, j :: 0 <= i < j < |r| ==> r[i].id > r[j].id
  {
    var mine := Filter(payments, ByUser(userId));
    assert PaymentsKeyed(payments) ==> Increasing(mine, PaymentId) by {
      if PaymentsKeyed(payments) {
        FilterIncreasing(payments, ByUser(userId), PaymentId);
      }
    }
    assert forall i :: 0 <= i < |payments| && payments[i].userId == userId ==> payments[i] in mine by {
      forall i | 0 <= i < |payments| && payments[i].userId == userId ensures payments[i] in mine {
        assert ByUser(userId)(payments[i]);
      }
    }
    assert forall x :: x in Reverse(mine) <==> x in mine by {
      forall x ensures x in Reverse(mine) <==> x in mine {
        ReverseMembership(mine, x);
      }
    }
    Reverse(mine)
  }

  datatype SubscriptionStatus = SubscriptionStatus(isPremium: bool, premiumUntil: Option<int>, daysRemaining: int)

  /** The number of days from `now` to `until`, rounded up; negative once
      `until` has passed by a whole day or more. */
  function DaysRemaining(until: int, now: int): (d: int)
    ensures DAY_MS * (d - 1) < until - now <= DAY_MS * d
  {
    -((now - until) / DAY_MS)
  }

  /** `checkSubscriptionStatus`: premium means the flag is set and the
      period has not ended. */
  function CheckSubscriptionStatus(users: seq<User>, userId: nat, now: int): (r: Result<SubscriptionStatus>)
    ensures userId >= |users| ==> r == Fail(UNKNOWN_USER)
    ensures userId < |users| ==> r.Ok?
    ensures r.Ok? ==>
      var u := users[userId];
      && (r.value.isPremium <==> u.isPremium && RemainingMs(u.premiumUntil, now) > 0)
      && r.value.premiumUntil == u.premiumUntil
      && (u.premiumUntil.None? ==> r.value.daysRemaining == 0)
      && (u.premiumUntil.Some? ==> (r.value.daysRemaining > 0 <==> u.premiumUntil.value > now))
      && (u.premiumUntil.Some? ==> r.value.daysRemaining == DaysRemaining(u.premiumUntil.value, now))
  {
    match UserById(users, userId)
    case None => Fail(UNKNOWN_USER)
    case Some(u) =>
      var isActive := u.isPremium && u.premiumUntil.Some? && u.premiumUntil.value > now;
      var days := if u.premiumUntil.Some? then DaysRemaining(u.premiumUntil.value, now) else 0;
      Ok(SubscriptionStatus(isActive, u.premiumUntil, days))
  }

  /** Right after a successful payment the payer is premium, with at least
      30 days left (180 for an initial payment). */
  lemma PaymentGrantsPremium(l: Ledger, userId: nat, transactionHash: string, amount: real, paymentType: string, now: int)
    requires userId < |l.users|
    ensures var (r, l2) := PaymentStep(l, true, userId, transactionHash, amount, paymentType, now);
            var s := CheckSubscriptionStatus(l2.users, userId, now);
            && r.Ok? && s.Ok? && s.value.isPremium
            && s.value.daysRemaining >= 30
            && (paymentType == "initial" ==> s.value.daysRemaining == 180)
  {
    var (r, l2) := PaymentStep(l, true, userId, transactionHash, amount, paymentType, now);
    var until := l2.users[userId].premiumUntil.value;
    var d := DaysRemaining(until, now);
    assert until - now >= MONTH_MS;
    assert DAY_MS * d >= DAY_MS * 30;
    if paymentType == "initial" {
      assert until - now == DAY_MS * 180;
      assert DAY_MS * (d - 1) < DAY_MS * 180 <= DAY_MS * d;
    }
  }
}
