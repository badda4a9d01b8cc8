/** Balances that stay above zero when only the event writer debits them. */
module PaymentRuns {
  import opened Ledger
  import opened Payments

  /** No fees are taken on admission. */
  predicate OnlyWriterDebits(cfg: Config) {
    cfg.admissionCost == 0 && cfg.namePrice == 0
  }

  predicate InCredit(b: Books, p: string, least: nat) {
    p in b.accounts ==> b.accounts[p].balance >= least
  }

  predicate AllInCredit(b: Books) {
    forall p :: p in b.accounts ==> InCredit(b, p, 0)
  }

  /** An event that was let through can still be paid for. */
  predicate Solvent(cfg: Config, w: World) {
    AllInCredit(w.books)
    && (w.writer.Cleared? ==>
          w.writer.pubkey in w.books.accounts && InCredit(w.books, w.writer.pubkey, cfg.costPerEvent))
  }

  /** Any write but a charge leaves no balance lower, when admissions are free. */
  lemma OthersDoNotDebit(b: Books, o: Write, p: string, least: nat)
    requires InCredit(b, p, least) && p in b.accounts
    requires !o.ChargeFor? && (o.AdmitFor? ==> o.cost == 0)
    ensures p in Written(b, o).accounts && InCredit(Written(b, o), p, least)
  {
  }

  lemma WriteSolvent(b: Books, o: Write)
    requires AllInCredit(b) && (o.AdmitFor? ==> o.cost == 0)
    requires o.ChargeFor? ==> InCredit(b, o.pubkey, o.cost)
    ensures AllInCredit(Written(b, o))
  {
  }

  lemma StepSolvent(cfg: Config, w: World, a: Action)
    requires OnlyWriterDebits(cfg) && Solvent(cfg, w)
    ensures Solvent(cfg, Next(cfg, w, a))
  {
    var o, w' := WriteOf(cfg, w, a), Next(cfg, w, a);
    WriteSolvent(w.books, o);
    if w'.writer.Cleared? {
      OthersDoNotDebit(w.books, o, w'.writer.pubkey, cfg.costPerEvent);
    }
  }

  /** If the writer is the only debtor, no balance ever goes below zero. */
  lemma {:induction false} RunSolvent(cfg: Config, actions: seq<Action>)
    requires OnlyWriterDebits(cfg)
    ensures Solvent(cfg, Run(cfg, actions))
  {
    if actions != [] {
      RunSolvent(cfg, actions[..|actions| - 1]);
      StepSolvent(cfg, Run(cfg, actions[..|actions| - 1]), actions[|actions| - 1]);
    }
  }
}
