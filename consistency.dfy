/** What the backend and the on-chain program must agree on: the published
    prices against the lamports the program charges, and the premium periods
    the backend grants against those the program grants. The backend counts
    milliseconds, the program seconds. */
module Consistency {
  import opened Common
  import PaymentService
  import PaymentRoutes
  import Frenschain

  const LAMPORTS_PER_SOL: int := 1_000_000_000
  const MS_PER_S: int := 1000

  /** The published SOL prices are the lamports the program charges. */
  lemma PricesMatchProgram()
    ensures var p := PaymentRoutes.Pricing();
            && p.earlyBird.price * LAMPORTS_PER_SOL as real == Frenschain.EARLY_BIRD_PRICE as real
            && p.regular.price * LAMPORTS_PER_SOL as real == Frenschain.REGULAR_PRICE as real
            && p.monthly.price * LAMPORTS_PER_SOL as real == Frenschain.MONTHLY_PRICE as real
  {
  }

  /** An initial payment grants the same period on both sides. */
  lemma InitialPeriodAgrees(current: Option<int>, now: int)
    ensures PaymentService.NewPremiumUntil("initial", current, now * MS_PER_S)
         == (now + Frenschain.SIX_MONTHS_S) * MS_PER_S
  {
  }

  /** A monthly payment extends the period the same way on both sides,
      including the instant where the period ends exactly now. */
  lemma MonthlyRenewalAgrees(premiumUntil: int, now: int)
    ensures PaymentService.NewPremiumUntil("monthly", Some(premiumUntil * MS_PER_S), now * MS_PER_S)
         == Frenschain.RenewedUntil(premiumUntil, now) * MS_PER_S
  {
  }
}
