/** What holds of a vault's books at all times: they balance, and its lines are in order. */
module VaultSoundness {
  import opened Arithmetic
  import opened VaultInvariants
  import opened VaultLedger
  import opened VaultQueues
  import opened Wrappers

  /** Order is promised for the first 2^64 requests, which is where queue ids start to repeat. */
  ghost predicate Sound(l: Ledger)
  {
    Balanced(l) && (|l.requests| <= QUEUE_MODULUS ==> Ordered(l))
  }

  lemma CreatedSound(config: Config, decimals: U8)
    ensures Sound(Created(config, decimals))
  {
    CreatedOrdered(config, decimals);
  }

  /** Every instruction keeps the books sound. */
  lemma StepSound(l: Ledger, a: Action, next: Ledger)
    requires Sound(l) && Step(l, a) == Ok(next)
    ensures Sound(next)
  {
    hide Balanced, Ordered, Step, Arrived, Processed;
    StepBalanced(l, a);
    StepAddsAtMostOne(l, a);
    if |next.requests| <= QUEUE_MODULUS {
      ArrivedAtMostAll(l.requests, DepositRequest);
      ArrivedAtMostAll(l.requests, RedeemRequest);
      StepOrdered(l, a);
    }
  }
}
