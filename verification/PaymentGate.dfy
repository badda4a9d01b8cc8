/**
 The payment gate of a registration (`paid_gate` and `new_invoice` in src/name_authority/mod.rs) as
 straight-line code over the repository object, and its agreement with the step machine.
 */
module PaymentGate {
  import opened Wrappers
  import opened Ledger
  import opened Payments
  import C = Claims

  // ---- the gate as code -------------------------------------------------------------------

  /** What a request leaves in the books, and whether it may go on to claim its name. */
  datatype Verdict = Verdict(books: Books, passes: bool)

  function Ordered(b: Books, p: string, reply: Reply, now: nat): Books {
    if reply.NewInvoice? then CreateInvoiceRecord(b, p, reply.hash, reply.amount, reply.status, now) else b
  }

  /** `answer` is what the processor says of the invoice asked about, `reply` whether it answers at all. */
  function Gated(price: nat, b: Books, p: string, answer: Status, reply: Reply, now: nat): Verdict {
    var r := GetAccountBalance(b, p);
    if r.Balance? && r.admitted then Verdict(b, true)
    else
      var found := GetUnpaidInvoice(b, p);
      if found.None? then Verdict(Ordered(CreateAccount(b, p), p, reply, now), false)
      else if reply.Failure? then Verdict(b, false)
      else
        match answer
        case Paid => Verdict(AdmitAccount(UpdateInvoice(b, found.value, Paid), p, price), true)
        case Unpaid => Verdict(b, false)
        case Expired => Verdict(Ordered(UpdateInvoice(b, found.value, Expired), p, reply, now), false)
  }

  method NewInvoice(repo: AccountRepo, p: string, reply: Reply, now: nat)
    requires Linked(repo.View())
    modifies repo
    ensures Linked(repo.View()) && repo.View() == Ordered(old(repo.View()), p, reply, now)
  {
    if reply.NewInvoice? {
      var _ := repo.RecordInvoice(p, reply.hash, reply.amount, reply.status, now);
    }
  }

  method PaidGate(price: nat, repo: AccountRepo, p: string, answer: Status, reply: Reply, now: nat)
    returns (passes: bool)
    requires Linked(repo.View())
    modifies repo
    ensures Linked(repo.View()) && Verdict(repo.View(), passes) == Gated(price, old(repo.View()), p, answer, reply, now)
  {
    var r := GetAccountBalance(repo.View(), p);
    if r.Balance? {
      if r.admitted {
        return true;
      }
    }
    var found := GetUnpaidInvoice(repo.View(), p);
    if found.Some? {
      if reply.Failure? {
        return false;
      }
      match answer {
        case Paid =>
          var owner := repo.Update(found.value, Paid);
          if owner.None? {
            return false;
          }
          repo.Admit(p, price);
          return true;
        case Unpaid => return false;
        case Expired =>
          var _ := repo.Update(found.value, Expired);
          NewInvoice(repo, p, reply, now);
          return false;
      }
    }
    var _ := repo.Create(p);
    NewInvoice(repo, p, reply, now);
    return false;
  }

  // ---- what it comes to -----------------------------------------------------------------------

  /** An admitted account that is not in debt passes at once, and nothing changes. */
  lemma AdmittedPasses(price: nat, b: Books, p: string, answer: Status, reply: Reply, now: nat)
    requires p in b.accounts && b.accounts[p].admitted && b.accounts[p].balance >= 0
    ensures Gated(price, b, p, answer, reply, now) == Verdict(b, true)
  {
  }

  /** Otherwise, a newest unpaid invoice of the key that is reported paid lets it pass: credited, admitted, charged. */
  lemma PaidPasses(price: nat, b: Books, p: string, reply: Reply, now: nat, h: string)
    requires Linked(b) && p in b.accounts && !b.accounts[p].admitted && GetUnpaidInvoice(b, p) == Some(h)
    requires !reply.Failure?
    ensures
      var v := Gated(price, b, p, Paid, reply, now);
      v.passes && v.books.accounts
        == b.accounts[p := Account(true, b.accounts[p].balance + b.invoices[h].amount - price)]
      && v.books.invoices == b.invoices[h := b.invoices[h].(status := Paid)]
  {
  }

  /** One that is reported unpaid, or not reported at all, does not, and nothing changes. */
  lemma UnpaidWaits(price: nat, b: Books, p: string, answer: Status, reply: Reply, now: nat)
    requires p in b.accounts ==> !b.accounts[p].admitted
    requires GetUnpaidInvoice(b, p).Some? && (reply.Failure? || answer == Unpaid)
    ensures Gated(price, b, p, answer, reply, now) == Verdict(b, false)
  {
  }

  /** Whoever else passes was admitted before. */
  lemma PassesExactly(price: nat, b: Books, p: string, answer: Status, reply: Reply, now: nat)
    ensures Gated(price, b, p, answer, reply, now).passes <==>
      (p in b.accounts && b.accounts[p].admitted && b.accounts[p].balance >= 0)
      || (GetUnpaidInvoice(b, p).Some? && !reply.Failure? && answer == Paid)
  {
  }

  /** Without an invoice to ask about, the key gets an account and the processor's invoice, and is asked to pay. */
  lemma FirstContact(price: nat, b: Books, p: string, answer: Status, h: string, amount: nat, status: Status, now: nat)
    requires (p in b.accounts ==> !b.accounts[p].admitted) && GetUnpaidInvoice(b, p).None? && h !in b.invoices
    ensures
      var v := Gated(price, b, p, answer, Reply.NewInvoice(h, amount, status), now);
      !v.passes && v.books.invoices == b.invoices[h := Invoice(p, amount, status, now)]
      && v.books.accounts == if p in b.accounts then b.accounts else b.accounts[p := Account(false, 0)]
  {
  }

  // ---- the same, step by step --------------------------------------------------------------------

  function Rank(g: Gate): nat {
    match g
    case Passed(_, _) => 0
    case Recording(_, _, _, _, _) => 1
    case Admitting(_, _) => 1
    case Ordering(_, _) => 2
    case Saving(_, _, _) => 2
    case Opening(_, _) => 3
    case Expiring(_, _, _) => 3
    case Asking(_, _, _) => 4
    case Finding(_, _) => 5
    case Reading(_, _) => 6
  }

  function GateNext(cfg: Config, w: World, id: nat, reply: Reply, now: nat): World {
    Next(cfg, w, GateStep(id, reply, now))
  }

  lemma StepRanks(cfg: Config, w: World, id: nat, reply: Reply, now: nat)
    requires id in w.gates && !w.gates[id].Passed?
    ensures
      var w' := GateNext(cfg, w, id, reply, now);
      id in w'.gates ==> Rank(w'.gates[id]) < Rank(w.gates[id])
  {
  }

  /** The request's steps one after the other, until it has passed or been answered. */
  function Finish(cfg: Config, w: World, id: nat, reply: Reply, now: nat): World
    decreases if id in w.gates then Rank(w.gates[id]) + 1 else 0
  {
    if id !in w.gates || w.gates[id].Passed? then w
    else
      StepRanks(cfg, w, id, reply, now);
      Finish(cfg, GateNext(cfg, w, id, reply, now), id, reply, now)
  }

  /** What remains to be done from each point. */
  function Rest(cfg: Config, w: World, g: Gate, reply: Reply, now: nat): Verdict {
    var b := w.books;
    match g
    case Passed(_, _) => Verdict(b, true)
    case Recording(_, p, h, amount, status) => Verdict(CreateInvoiceRecord(b, p, h, amount, status, now), false)
    case Ordering(_, p) => Verdict(Ordered(b, p, reply, now), false)
    case Opening(_, p) => Verdict(Ordered(CreateAccount(b, p), p, reply, now), false)
    case Expiring(_, p, h) => Verdict(Ordered(UpdateInvoice(b, h, Expired), p, reply, now), false)
    case Admitting(_, p) => Verdict(AdmitAccount(b, p, cfg.namePrice), true)
    case Saving(_, p, h) =>
      if h in b.invoices then Verdict(AdmitAccount(UpdateInvoice(b, h, Paid), p, cfg.namePrice), true)
      else Verdict(b, false)
    case Asking(_, p, h) => Asked(cfg, w, p, h, reply, now)
    case Finding(_, p) =>
      var found := GetUnpaidInvoice(b, p);
      if found.Some? then Asked(cfg, w, p, found.value, reply, now)
      else Verdict(Ordered(CreateAccount(b, p), p, reply, now), false)
    case Reading(_, p) =>
      var found := GetUnpaidInvoice(b, p);
      Gated(cfg.namePrice, b, p, if found.Some? then StatusAt(w, found.value) else Unpaid, reply, now)
  }

  function Asked(cfg: Config, w: World, p: string, h: string, reply: Reply, now: nat): Verdict {
    var b := w.books;
    if reply.Failure? then Verdict(b, false)
    else
      match StatusAt(w, h)
      case Paid =>
        if h in b.invoices then Verdict(AdmitAccount(UpdateInvoice(b, h, Paid), p, cfg.namePrice), true)
        else Verdict(b, false)
      case Unpaid => Verdict(b, false)
      case Expired => Verdict(Ordered(UpdateInvoice(b, h, Expired), p, reply, now), false)
  }

  /** Where a world stands with a request: its verdict, or what remains of it. */
  function Outlook(cfg: Config, w: World, id: nat, reply: Reply, now: nat): Verdict {
    if id in w.gates then Rest(cfg, w, w.gates[id], reply, now) else Verdict(w.books, false)
  }

  lemma OutlookStays(cfg: Config, w: World, id: nat, reply: Reply, now: nat)
    requires id in w.gates && !w.gates[id].Passed?
    ensures Outlook(cfg, GateNext(cfg, w, id, reply, now), id, reply, now) == Outlook(cfg, w, id, reply, now)
  {
  }

  lemma {:induction false} FinishDoes(cfg: Config, w: World, id: nat, reply: Reply, now: nat)
    ensures
      var w', v := Finish(cfg, w, id, reply, now), Outlook(cfg, w, id, reply, now);
      w'.books == v.books && (PassedGate(w', id) <==> v.passes) && (!v.passes ==> id !in w'.gates)
    decreases if id in w.gates then Rank(w.gates[id]) + 1 else 0
  {
    if id in w.gates && !w.gates[id].Passed? {
      StepRanks(cfg, w, id, reply, now);
      OutlookStays(cfg, w, id, reply, now);
      FinishDoes(cfg, GateNext(cfg, w, id, reply, now), id, reply, now);
    }
  }

  /** The hash the gate asks about, if any. */
  function AskedAbout(b: Books, p: string): Option<string> {
    GetUnpaidInvoice(b, p)
  }

  /** A request handled at the gate without interruption gets the books and the verdict of the straight-line code. */
  lemma GateInOnePiece(cfg: Config, w: World, id: nat, name: string, p: string, reply: Reply, now: nat)
    requires id !in w.gates
    ensures
      var asked := AskedAbout(w.books, p);
      var answer := if asked.Some? then StatusAt(w, asked.value) else Unpaid;
      var w' := Finish(cfg, Next(cfg, w, OpenGate(id, name, p)), id, reply, now);
      var v := Gated(cfg.namePrice, w.books, p, answer, reply, now);
      w'.books == v.books && (PassedGate(w', id) <==> v.passes) && (!v.passes ==> id !in w'.gates)
  {
    var start := Next(cfg, w, OpenGate(id, name, p));
    FinishDoes(cfg, start, id, reply, now);
  }

  /** Through the step machine: an admitted account is let through, and the books stay as they are. */
  lemma AdmittedGoesThrough(cfg: Config, w: World, id: nat, name: string, p: string, reply: Reply, now: nat)
    requires id !in w.gates && p in w.books.accounts
    requires w.books.accounts[p].admitted && w.books.accounts[p].balance >= 0
    ensures
      var w' := Finish(cfg, Next(cfg, w, OpenGate(id, name, p)), id, reply, now);
      w'.books == w.books && PassedGate(w', id)
  {
    GateInOnePiece(cfg, w, id, name, p, reply, now);
  }

  /** The writer lets an author write exactly when the account is admitted, not in debt and can pay for the event. */
  lemma MayWriteExactly(cfg: Config, b: Books, p: string)
    ensures MayWrite(cfg, b, p) <==>
      p in b.accounts && b.accounts[p].admitted && b.accounts[p].balance >= 0
      && b.accounts[p].balance >= cfg.costPerEvent
  {
  }

  /** The writer's turn costs the author its price exactly when the event was let through and written. */
  lemma WriterPaysExactly(cfg: Config, w: World, wrote: bool)
    ensures
      var w' := Next(cfg, w, WriterEnds(wrote));
      var p := if w.writer.Cleared? then w.writer.pubkey else "";
      w'.books.invoices == w.books.invoices && w'.writer == Waiting
      && w'.books.accounts ==
           if w.writer.Cleared? && wrote && p in w.books.accounts
           then w.books.accounts[p := Account(w.books.accounts[p].admitted,
                                              w.books.accounts[p].balance - cfg.costPerEvent)]
           else w.books.accounts
  {
  }

  /** A claim is inserted exactly for a request that passed, and that request is then done with. */
  lemma ClaimTakesPass(cfg: Config, w: World, id: nat, now: nat)
    ensures
      var w' := Next(cfg, w, Claim(id, now));
      if PassedGate(w, id)
      then w'.claims == C.Inserted(w.claims, w.gates[id].name, w.gates[id].pubkey, now) && w'.gates == w.gates - {id}
      else w'.claims == w.claims && w'.gates == w.gates
  {
  }
}
