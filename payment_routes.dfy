/** The HTTP routes of backend/src/routes/payment.ts: validating a payment
    request before handing it to the payment service, the history and status
    routes, and the published price list. */
module PaymentRoutes {
  import opened Common
  import opened Store
  import opened PaymentService

  /** The body of `POST /process`; an absent field is None. */
  datatype PaymentRequest = PaymentRequest(transactionHash: Option<string>, amount: Option<real>, paymentType: Option<string>)

  /** A request that passed validation. */
  datatype CheckedPayment = CheckedPayment(transactionHash: string, amount: real, paymentType: string)

  const MISSING_FIELDS := Http(BAD_REQUEST, "Tous les champs sont requis")
  const BAD_PAYMENT_TYPE := Http(BAD_REQUEST, "Type de paiement invalide")

  /** The truthiness of the amount: absent and zero are both falsy. */
  predicate AmountPresent(amount: Option<real>) {
    amount.Some? && amount.value != 0.0
  }

  /** The two checks of `POST /process`, in order. */
  function ValidatePayment(req: PaymentRequest): (r: Result<CheckedPayment>)
    ensures !(Present(req.transactionHash) && AmountPresent(req.amount) && Present(req.paymentType)) ==>
      r == Fail(MISSING_FIELDS)
    ensures (Present(req.transactionHash) && AmountPresent(req.amount) && Present(req.paymentType) &&
             req.paymentType.value != "initial" && req.paymentType.value != "monthly") ==> r == Fail(BAD_PAYMENT_TYPE)
    ensures r.Ok? <==> (Present(req.transactionHash) && AmountPresent(req.amount) &&
                        (req.paymentType == Some("initial") || req.paymentType == Some("monthly")))
    ensures r.Ok? ==> r.value == CheckedPayment(req.transactionHash.value, req.amount.value, req.paymentType.value)
  {
    if !Present(req.transactionHash) || !AmountPresent(req.amount) || !Present(req.paymentType) then Fail(MISSING_FIELDS)
    else if req.paymentType.value !in ["initial", "monthly"] then Fail(BAD_PAYMENT_TYPE)
    else Ok(CheckedPayment(req.transactionHash.value, req.amount.value, req.paymentType.value))
  }

  /** The catch block of `POST /process`: the service's error message, or
      the generic one when the message is empty. */
  function AsServerError(f: Failure): (r: Failure)
    ensures r.Http? && r.code == SERVER_ERROR
    ensures f.message != "" ==> r.message == f.message
    ensures f.message == "" ==> r == INTERNAL_ERROR
  {
    Http(SERVER_ERROR, if f.message != "" then f.message else INTERNAL_ERROR.message)
  }

  /** `POST /process` for the authenticated `caller`. */
  method ProcessRoute(db: Db, verifyTransaction: string -> bool, caller: nat, req: PaymentRequest, now: int)
    returns (r: Result<Payment>)
    requires db.Valid()
    modifies db`users, db`payments
    ensures db.Valid()
    ensures ValidatePayment(req).Fail? ==>
      r == Fail(ValidatePayment(req).failure) && db.users == old(db.users) && db.payments == old(db.payments)
    ensures ValidatePayment(req).Ok? ==>
      var c := ValidatePayment(req).value;
      var (res, l) := PaymentStep(old(Ledger(db.users, db.payments)), verifyTransaction(c.transactionHash),
                                  caller, c.transactionHash, c.amount, c.paymentType, now);
      && Ledger(db.users, db.payments) == l
      && r == (if res.Ok? then res else Fail(AsServerError(res.failure)))
  {
    var checked := ValidatePayment(req);
    if checked.Fail? {
      return Fail(checked.failure);
    }
    var c := checked.value;
    var payment := ProcessPayment(db, verifyTransaction, caller, c.transactionHash, c.amount, c.paymentType, now);
    if payment.Fail? {
      return Fail(AsServerError(payment.failure));
    }
    r := payment;
  }

  /** `GET /history`: the caller's payments, newest first. */
  function HistoryRoute(payments: seq<Payment>, caller: nat): (r: Result<seq<Payment>>)
    ensures r.Ok? && forall i :: 0 <= i < |r.value| ==> r.value[i].userId == caller
    ensures r == Ok(PaymentHistory(payments, caller))
  {
    Ok(PaymentHistory(payments, caller))
  }

  /** `GET /subscription-status`: a thrown error becomes the generic 500. */
  function StatusRoute(users: seq<User>, caller: nat, now: int): (r: Result<SubscriptionStatus>)
    ensures caller < |users| ==> r == CheckSubscriptionStatus(users, caller, now)
    ensures caller >= |users| ==> r == Fail(INTERNAL_ERROR)
  {
    var status := CheckSubscriptionStatus(users, caller, now);
    if status.Ok? then status else Fail(INTERNAL_ERROR)
  }

  /** One offer of the published price list; the price is in SOL. */
  datatype Offer = Offer(price: real, currency: string, description: string, duration: string, features: seq<string>)

  datatype PriceList = PriceList(earlyBird: Offer, regular: Offer, monthly: Offer)

  const FEATURES: seq<string> := ["Accès premium complet", "Chat illimité", "Profils étendus", "Badges exclusifs"]

  /** `GET /pricing`: three offers in SOL with the same features, the two
      initial ones for six months and the monthly renewal cheapest. */
  function Pricing(): (r: PriceList)
    ensures r.earlyBird.currency == r.regular.currency == r.monthly.currency == "SOL"
    ensures r.earlyBird.features == r.regular.features == r.monthly.features == FEATURES
    ensures r.earlyBird.duration == r.regular.duration == "6 mois" && r.monthly.duration == "1 mois"
    ensures 0.0 < r.monthly.price < r.earlyBird.price < r.regular.price
  {
    PriceList(
      Offer(0.1, "SOL", "Abonnement initial (2000 premiers utilisateurs)", "6 mois", FEATURES),
      Offer(0.2, "SOL", "Abonnement initial (3000 utilisateurs suivants)", "6 mois", FEATURES),
      Offer(0.05, "SOL", "Abonnement mensuel récurrent", "1 mois", FEATURES))
  }
}
