/**
 The payment loop as straight-line code over the repository object (src/payment/mod.rs), and its
 agreement with the step machine: a message handled without interruption has the same effect.
 */
module PaymentLoop {
  import opened Wrappers
  import opened Ledger
  import opened Payments

  // ---- the effect of one message -------------------------------------------------------------

  /** `get_invoice_info`: an account row, and a new invoice unless one is outstanding. */
  function InvoiceInfo(b: Books, p: string, reply: Reply, now: nat): Books {
    var b1 := CreateAccount(b, p);
    if HasAccount(b, p) && GetUnpaidInvoice(b1, p).Some? then b1
    else if reply.NewInvoice? then CreateInvoiceRecord(b1, p, reply.hash, reply.amount, reply.status, now)
    else b1
  }

  function Handled(cfg: Config, b: Books, msg: Message, answer: Status, reply: Reply, now: nat): Books {
    match msg
    case NewAccount(p) => InvoiceInfo(b, p, reply, now)
    case CheckAccount(p) =>
      var found := GetUnpaidInvoice(b, p);
      if found.None? then InvoiceInfo(b, p, reply, now)
      else if reply.Failure? then b
      else
        var b1 := UpdateInvoice(b, found.value, answer);
        if answer == Paid then AdmitAccount(b1, p, cfg.admissionCost) else b1
    case InvoicePaid(h) =>
      if reply.Failure? then b
      else
        var b1 := UpdateInvoice(b, h, answer);
        if answer == Paid && h in b.invoices
        then AdmitAccount(UpdateInvoice(b1, h, Paid), b.invoices[h].pubkey, cfg.admissionCost) else b1
  }

  method HandleInvoiceInfo(repo: AccountRepo, p: string, reply: Reply, now: nat)
    requires Linked(repo.View())
    modifies repo
    ensures Linked(repo.View()) && repo.View() == InvoiceInfo(old(repo.View()), p, reply, now)
  {
    var created := repo.Create(p);
    if !created {
      if GetUnpaidInvoice(repo.View(), p).Some? {
        return;
      }
    }
    if reply.NewInvoice? {
      var _ := repo.RecordInvoice(p, reply.hash, reply.amount, reply.status, now);
    }
  }

  /** One turn of `run_internal`; `answer` is what the processor says of the invoice asked about. */
  method Handle(cfg: Config, repo: AccountRepo, msg: Message, answer: Status, reply: Reply, now: nat)
    requires Linked(repo.View())
    modifies repo
    ensures Linked(repo.View()) && repo.View() == Handled(cfg, old(repo.View()), msg, answer, reply, now)
  {
    match msg {
      case NewAccount(p) => HandleInvoiceInfo(repo, p, reply, now);
      case CheckAccount(p) =>
        var found := GetUnpaidInvoice(repo.View(), p);
        if found.Some? {
          if !reply.Failure? {
            var _ := repo.Update(found.value, answer);
            if answer == Paid {
              repo.Admit(p, cfg.admissionCost);
            }
          }
        } else {
          HandleInvoiceInfo(repo, p, reply, now);
        }
      case InvoicePaid(h) =>
        if !reply.Failure? {
          var known := repo.Update(h, answer);
          if known.Some? && answer == Paid {
            var owner := repo.Update(h, Paid);
            repo.Admit(owner.value, cfg.admissionCost);
          }
        }
    }
  }

  // ---- the same, step by step ------------------------------------------------------------------

  /** How many steps are left at most. */
  function Rank(loop: Loop): nat {
    match loop
    case Idle => 0
    case SaveInvoice(_, _, _, _) => 1
    case Admit(_) => 1
    case AskInvoice(_) => 2
    case CheckSave(_, _, _) => 2
    case PaidAgain(_) => 2
    case FindUnpaid(_) => 3
    case CheckAsk(_, _) => 3
    case PaidSave(_, _) => 3
    case Create(_) => 4
    case PaidAsk(_) => 4
    case CheckFind(_) => 5
  }

  lemma StepRanks(cfg: Config, w: World, reply: Reply, now: nat)
    requires !w.loop.Idle?
    ensures Rank(Next(cfg, w, LoopStep(reply, now)).loop) < Rank(w.loop)
  {
  }

  /** The handling of a message always comes to an end. */
  function Finish(cfg: Config, w: World, reply: Reply, now: nat): World
    decreases Rank(w.loop)
  {
    if w.loop.Idle? then w
    else
      StepRanks(cfg, w, reply, now);
      Finish(cfg, Next(cfg, w, LoopStep(reply, now)), reply, now)
  }

  /** What remains to be done to the books from each point. */
  function Rest(cfg: Config, w: World, reply: Reply, now: nat): Books {
    var b := w.books;
    match w.loop
    case Idle => b
    case SaveInvoice(p, h, amount, status) => CreateInvoiceRecord(b, p, h, amount, status, now)
    case Admit(p) => AdmitAccount(b, p, cfg.admissionCost)
    case AskInvoice(p) =>
      if reply.NewInvoice? then CreateInvoiceRecord(b, p, reply.hash, reply.amount, reply.status, now) else b
    case FindUnpaid(p) =>
      if GetUnpaidInvoice(b, p).Some? || !reply.NewInvoice? then b
      else CreateInvoiceRecord(b, p, reply.hash, reply.amount, reply.status, now)
    case Create(p) => InvoiceInfo(b, p, reply, now)
    case CheckSave(p, h, status) =>
      var b1 := UpdateInvoice(b, h, status);
      if status == Paid then AdmitAccount(b1, p, cfg.admissionCost) else b1
    case CheckAsk(p, h) =>
      if reply.Failure? then b
      else if StatusAt(w, h) == Paid then AdmitAccount(UpdateInvoice(b, h, Paid), p, cfg.admissionCost)
      else UpdateInvoice(b, h, StatusAt(w, h))
    case CheckFind(p) =>
      var found := GetUnpaidInvoice(b, p);
      Handled(cfg, b, CheckAccount(p), if found.Some? then StatusAt(w, found.value) else Unpaid, reply, now)
    case PaidAgain(h) =>
      if h in b.invoices then AdmitAccount(UpdateInvoice(b, h, Paid), b.invoices[h].pubkey, cfg.admissionCost) else b
    case PaidSave(h, status) =>
      var b1 := UpdateInvoice(b, h, status);
      if status == Paid && h in b.invoices
      then AdmitAccount(UpdateInvoice(b1, h, Paid), b.invoices[h].pubkey, cfg.admissionCost) else b1
    case PaidAsk(h) => Handled(cfg, b, InvoicePaid(h), StatusAt(w, h), reply, now)
  }

  lemma RestStepPaid(cfg: Config, w: World, reply: Reply, now: nat)
    requires w.loop.PaidAsk? || w.loop.PaidSave? || w.loop.PaidAgain? || w.loop.Admit?
    ensures Rest(cfg, w, reply, now) == Rest(cfg, Next(cfg, w, LoopStep(reply, now)), reply, now)
  {
  }

  lemma RestStepCheck(cfg: Config, w: World, reply: Reply, now: nat)
    requires w.loop.CheckFind? || w.loop.CheckAsk? || w.loop.CheckSave?
    ensures Rest(cfg, w, reply, now) == Rest(cfg, Next(cfg, w, LoopStep(reply, now)), reply, now)
  {
  }

  lemma RestStep(cfg: Config, w: World, reply: Reply, now: nat)
    requires !w.loop.Idle?
    ensures Rest(cfg, w, reply, now) == Rest(cfg, Next(cfg, w, LoopStep(reply, now)), reply, now)
  {
    if w.loop.PaidAsk? || w.loop.PaidSave? || w.loop.PaidAgain? || w.loop.Admit? {
      RestStepPaid(cfg, w, reply, now);
    } else if w.loop.CheckFind? || w.loop.CheckAsk? || w.loop.CheckSave? {
      RestStepCheck(cfg, w, reply, now);
    }
  }

  lemma {:induction false} FinishDoes(cfg: Config, w: World, reply: Reply, now: nat)
    ensures Finish(cfg, w, reply, now).loop == Idle
    ensures Finish(cfg, w, reply, now).books == Rest(cfg, w, reply, now)
    decreases Rank(w.loop)
  {
    if !w.loop.Idle? {
      StepRanks(cfg, w, reply, now);
      RestStep(cfg, w, reply, now);
      FinishDoes(cfg, Next(cfg, w, LoopStep(reply, now)), reply, now);
    }
  }

  /** The hash a message makes the loop ask about. */
  function AskedAbout(b: Books, msg: Message): Option<string> {
    match msg
    case NewAccount(_) => None
    case CheckAccount(p) => GetUnpaidInvoice(b, p)
    case InvoicePaid(h) => Some(h)
  }

  /** A message handled without interruption does to the books what the straight-line code does. */
  lemma HandledInOnePiece(cfg: Config, w: World, msg: Message, reply: Reply, now: nat)
    requires w.loop.Idle?
    ensures
      var asked := AskedAbout(w.books, msg);
      var answer := if asked.Some? then StatusAt(w, asked.value) else Unpaid;
      var w' := Finish(cfg, Next(cfg, w, Receive(msg)), reply, now);
      w'.loop == Idle && w'.books == Handled(cfg, w.books, msg, answer, reply, now)
  {
    FinishDoes(cfg, Next(cfg, w, Receive(msg)), reply, now);
  }
}
