/** How often an invoice is credited: once, unless the payment loop undoes a credit, and then again. */
module PaymentCredits {
  import opened Ledger
  import opened Payments

  // ---- credits ----------------------------------------------------------------------------

  function CreditCount(log: seq<Entry>, h: string): nat {
    if log == [] then 0
    else
      var last := log[|log| - 1];
      CreditCount(log[..|log| - 1], h) + if last.Credit? && last.hash == h then 1 else 0
  }

  lemma CreditCountConcat(log: seq<Entry>, more: seq<Entry>, h: string)
    requires |more| <= 1
    ensures CreditCount(log + more, h)
         == CreditCount(log, h) + if more != [] && more[0].Credit? && more[0].hash == h then 1 else 0
  {
    if more == [] {
      assert log + more == log;
    } else {
      assert (log + more)[..|log|] == log;
    }
  }

  /** The loop holds the answer that this invoice is unpaid, and is about to write it down. */
  predicate HoldsUnpaid(loop: Loop, h: string) {
    (loop.CheckSave? || loop.PaidSave?) && loop.hash == h && loop.status == Unpaid
  }

  /** The step writes the answer over another status of an invoice that was credited. */
  predicate Undoes(w: World, a: Action, h: string) {
    a.LoopStep? && HoldsUnpaid(w.loop, h) && CreditCount(w.log, h) > 0
    && h in w.books.invoices && w.books.invoices[h].status != Unpaid
  }

  predicate UndoesAt(cfg: Config, actions: seq<Action>, i: nat, h: string)
    requires i < |actions|
  {
    Undoes(Run(cfg, actions[..i]), actions[i], h)
  }

  /** From this point of the run on, no step undoes a credit. */
  predicate NotUndone(cfg: Config, actions: seq<Action>, from: nat, h: string) {
    forall i :: from <= i < |actions| ==> !UndoesAt(cfg, actions, i, h)
  }

  lemma UndoesFront(cfg: Config, actions: seq<Action>, n: nat, i: nat, h: string)
    requires i < n <= |actions|
    ensures UndoesAt(cfg, actions[..n], i, h) <==> UndoesAt(cfg, actions, i, h)
  {
    assert actions[..n][..i] == actions[..i];
  }

  // ---- without an undoing step there is one credit at most ----------------------------------

  /** At most one credit, and a credited invoice is on file and not unpaid. */
  predicate Single(b: Books, log: seq<Entry>, h: string) {
    CreditCount(log, h) <= 1
    && (CreditCount(log, h) == 1 ==> h in b.invoices && b.invoices[h].status != Unpaid)
  }

  lemma QuietWrite(b: Books, log: seq<Entry>, o: Write, h: string)
    requires !o.InvoiceStatus?
    ensures CreditCount(log + Entries(b, o), h) == CreditCount(log, h)
  {
    CreditCountConcat(log, Entries(b, o), h);
  }

  lemma StatusCounts(b: Books, log: seq<Entry>, g: string, status: Status, h: string)
    ensures CreditCount(log + Entries(b, InvoiceStatus(g, status)), h)
         == CreditCount(log, h) + if g == h && Credits(b, h, status) then 1 else 0
  {
    CreditCountConcat(log, Entries(b, InvoiceStatus(g, status)), h);
  }

  lemma StatusAfter(b: Books, g: string, status: Status, h: string)
    ensures h in UpdateInvoice(b, g, status).invoices <==> h in b.invoices
    ensures h in b.invoices ==>
      UpdateInvoice(b, g, status).invoices[h].status == if g == h then status else b.invoices[h].status
  {
  }

  lemma StatusSingle(b: Books, log: seq<Entry>, g: string, status: Status, h: string)
    requires Single(b, log, h)
    requires g == h && status == Unpaid ==> CreditCount(log, h) == 0
    ensures Single(UpdateInvoice(b, g, status), log + Entries(b, InvoiceStatus(g, status)), h)
  {
    StatusCounts(b, log, g, status, h);
    StatusAfter(b, g, status, h);
  }

  lemma WriteSingle(b: Books, log: seq<Entry>, o: Write, h: string)
    requires Single(b, log, h)
    requires o == InvoiceStatus(h, Unpaid) ==> CreditCount(log, h) == 0
    ensures Single(Written(b, o), log + Entries(b, o), h)
  {
    if o.InvoiceStatus? {
      StatusSingle(b, log, o.hash, o.status, h);
    } else {
      QuietWrite(b, log, o, h);
    }
  }

  lemma StepSingle(cfg: Config, w: World, a: Action, h: string)
    requires Single(w.books, w.log, h) && !Undoes(w, a, h)
    ensures Single(Next(cfg, w, a).books, Next(cfg, w, a).log, h)
  {
    WriteSingle(w.books, w.log, WriteOf(cfg, w, a), h);
  }

  /** Whatever the gates, the messages and the processor do: no undoing step, no second credit. */
  lemma {:induction false} SingleUnlessUndone(cfg: Config, actions: seq<Action>, h: string)
    requires NotUndone(cfg, actions, 0, h)
    ensures Single(Run(cfg, actions).books, Run(cfg, actions).log, h)
  {
    if actions != [] {
      var n := |actions| - 1;
      forall i | 0 <= i < n ensures !UndoesAt(cfg, actions[..n], i, h) {
        UndoesFront(cfg, actions, n, i, h);
      }
      SingleUnlessUndone(cfg, actions[..n], h);
      assert !UndoesAt(cfg, actions, n, h);
      StepSingle(cfg, Run(cfg, actions[..n]), actions[n], h);
    }
  }

  // ---- after an undoing step a second credit is open ------------------------------------------

  /** An undoing step leaves a loop at rest and a credited invoice on file as unpaid. */
  lemma UndoneIsUnpaid(cfg: Config, w: World, a: Action, h: string)
    requires Undoes(w, a, h)
    ensures
      var w' := Next(cfg, w, a);
      h in w'.books.invoices && w'.books.invoices[h].status == Unpaid && w'.loop == Idle
      && CreditCount(w'.log, h) == CreditCount(w.log, h)
  {
    CreditCountConcat(w.log, Entries(w.books, InvoiceStatus(h, Unpaid)), h);
  }

  predicate OnFile(w: World, h: string, status: Status) {
    h in w.books.invoices && w.books.invoices[h].status == status && StatusAt(w, h) == Paid
  }

  const STEP := LoopStep(Answer, 0)

  lemma Turn(cfg: Config, run: seq<Action>, a: Action)
    ensures Run(cfg, run + [a]) == Next(cfg, Run(cfg, run), a)
  {
    assert (run + [a])[..|run|] == run;
  }

  lemma ProcessorReports(cfg: Config, run: seq<Action>, h: string)
    requires h in Run(cfg, run).books.invoices && Run(cfg, run).books.invoices[h].status == Unpaid
    ensures
      var w := Run(cfg, run + [ProcessorSets(h, Paid)]);
      OnFile(w, h, Unpaid) && w.loop == Run(cfg, run).loop && w.log == Run(cfg, run).log
  {
    Turn(cfg, run, ProcessorSets(h, Paid));
  }

  lemma WebhookArrives(cfg: Config, run: seq<Action>, h: string)
    requires OnFile(Run(cfg, run), h, Unpaid) && Run(cfg, run).loop == Idle
    ensures
      var w := Run(cfg, run + [Receive(InvoicePaid(h))]);
      OnFile(w, h, Unpaid) && w.loop == PaidAsk(h) && w.log == Run(cfg, run).log
  {
    Turn(cfg, run, Receive(InvoicePaid(h)));
  }

  lemma LoopAsks(cfg: Config, run: seq<Action>, h: string)
    requires OnFile(Run(cfg, run), h, Unpaid) && Run(cfg, run).loop == PaidAsk(h)
    ensures
      var w := Run(cfg, run + [STEP]);
      OnFile(w, h, Unpaid) && w.loop == PaidSave(h, Paid) && w.log == Run(cfg, run).log
  {
    Turn(cfg, run, STEP);
  }

  lemma AnswerCredits(cfg: Config, w: World, h: string)
    requires OnFile(w, h, Unpaid) && w.loop == PaidSave(h, Paid)
    ensures CreditCount(Next(cfg, w, STEP).log, h) == CreditCount(w.log, h) + 1
  {
    StatusCounts(w.books, w.log, h, Paid, h);
  }

  lemma LoopCredits(cfg: Config, run: seq<Action>, h: string)
    requires OnFile(Run(cfg, run), h, Unpaid) && Run(cfg, run).loop == PaidSave(h, Paid)
    ensures CreditCount(Run(cfg, run + [STEP]).log, h) == CreditCount(Run(cfg, run).log, h) + 1
  {
    Turn(cfg, run, STEP);
    AnswerCredits(cfg, Run(cfg, run), h);
  }

  /** One more step that undoes nothing. */
  lemma NotUndonePush(cfg: Config, run: seq<Action>, a: Action, from: nat, h: string)
    requires from <= |run| && NotUndone(cfg, run, from, h) && !Undoes(Run(cfg, run), a, h)
    ensures NotUndone(cfg, run + [a], from, h)
  {
    var more := run + [a];
    assert more[..|run|] == run;
    forall i | from <= i < |more| ensures !UndoesAt(cfg, more, i, h) {
      if i < |run| { UndoesFront(cfg, more, |run|, i, h); }
    }
  }

  lemma WebhookIsIn(cfg: Config, run: seq<Action>, h: string)
    requires
      var w := Run(cfg, run);
      h in w.books.invoices && w.books.invoices[h].status == Unpaid && w.loop == Idle
    ensures
      var run2 := run + [ProcessorSets(h, Paid)] + [Receive(InvoicePaid(h))];
      var w := Run(cfg, run2);
      OnFile(w, h, Unpaid) && w.loop == PaidAsk(h) && w.log == Run(cfg, run).log && NotUndone(cfg, run2, |run|, h)
  {
    var run1 := run + [ProcessorSets(h, Paid)];
    ProcessorReports(cfg, run, h);
    NotUndonePush(cfg, run, ProcessorSets(h, Paid), |run|, h);
    WebhookArrives(cfg, run1, h);
    NotUndonePush(cfg, run1, Receive(InvoicePaid(h)), |run|, h);
  }

  lemma AnswerIsWritten(cfg: Config, run: seq<Action>, from: nat, h: string)
    requires OnFile(Run(cfg, run), h, Unpaid) && Run(cfg, run).loop == PaidAsk(h)
    requires from <= |run| && NotUndone(cfg, run, from, h)
    ensures
      var run2 := run + [STEP] + [STEP];
      CreditCount(Run(cfg, run2).log, h) == CreditCount(Run(cfg, run).log, h) + 1 && NotUndone(cfg, run2, from, h)
  {
    LoopAsks(cfg, run, h);
    NotUndonePush(cfg, run, STEP, from, h);
    LoopCredits(cfg, run + [STEP], h);
    NotUndonePush(cfg, run + [STEP], STEP, from, h);
  }

  /** Four steps credit an unpaid invoice: a report that it is paid, the webhook, the question and the write. */
  lemma UnpaidIsCredited(cfg: Config, run: seq<Action>, h: string) returns (more: seq<Action>)
    requires
      var w := Run(cfg, run);
      h in w.books.invoices && w.books.invoices[h].status == Unpaid && w.loop == Idle
    ensures more == [ProcessorSets(h, Paid), Receive(InvoicePaid(h)), STEP, STEP]
    ensures CreditCount(Run(cfg, run + more).log, h) == CreditCount(Run(cfg, run).log, h) + 1
    ensures NotUndone(cfg, run + more, |run|, h)
  {
    WebhookIsIn(cfg, run, h);
    var run2 := run + [ProcessorSets(h, Paid)] + [Receive(InvoicePaid(h))];
    AnswerIsWritten(cfg, run2, |run|, h);
    more := [ProcessorSets(h, Paid), Receive(InvoicePaid(h)), STEP, STEP];
    FourSteps(run, h, more);
  }

  lemma FourSteps(run: seq<Action>, h: string, more: seq<Action>)
    requires more == [ProcessorSets(h, Paid), Receive(InvoicePaid(h)), STEP, STEP]
    ensures run + [ProcessorSets(h, Paid)] + [Receive(InvoicePaid(h))] + [STEP] + [STEP] == run + more
  {
  }

  /** However the run goes on without undoing a credit, the invoice is credited once at most. */
  ghost predicate StaysSingle(cfg: Config, run: seq<Action>, h: string) {
    forall more :: NotUndone(cfg, run + more, |run|, h) ==> CreditCount(Run(cfg, run + more).log, h) <= 1
  }

  lemma UndoneIsCreditedAgain(cfg: Config, actions: seq<Action>, i: nat, h: string)
    requires i < |actions| && UndoesAt(cfg, actions, i, h)
    ensures !StaysSingle(cfg, actions[..i + 1], h)
  {
    var front, run := actions[..i], actions[..i + 1];
    assert run == front + [actions[i]];
    Turn(cfg, front, actions[i]);
    UndoneIsUnpaid(cfg, Run(cfg, front), actions[i], h);
    var more := UnpaidIsCredited(cfg, run, h);
    assert CreditCount(Run(cfg, run + more).log, h) > 1;
  }

  lemma NotUndoneStaysSingle(cfg: Config, actions: seq<Action>, n: nat, h: string)
    requires NotUndone(cfg, actions, 0, h) && n <= |actions|
    ensures StaysSingle(cfg, actions[..n], h)
  {
    var run := actions[..n];
    forall more | NotUndone(cfg, run + more, n, h) ensures CreditCount(Run(cfg, run + more).log, h) <= 1 {
      forall i | 0 <= i < |run + more| ensures !UndoesAt(cfg, run + more, i, h) {
        if i < n {
          assert (run + more)[..n] == run;
          UndoesFront(cfg, run + more, n, i, h);
          UndoesFront(cfg, actions, n, i, h);
        }
      }
      SingleUnlessUndone(cfg, run + more, h);
    }
  }

  /** A second credit is open, at some point of a run, exactly if some step has undone the first. */
  lemma CreditedOnceIff(cfg: Config, actions: seq<Action>, h: string)
    ensures NotUndone(cfg, actions, 0, h) <==> forall n :: 0 <= n <= |actions| ==> StaysSingle(cfg, actions[..n], h)
  {
    if NotUndone(cfg, actions, 0, h) {
      forall n | 0 <= n <= |actions| ensures StaysSingle(cfg, actions[..n], h) {
        NotUndoneStaysSingle(cfg, actions, n, h);
      }
    } else {
      var i :| 0 <= i < |actions| && UndoesAt(cfg, actions, i, h);
      UndoneIsCreditedAgain(cfg, actions, i, h);
    }
  }

  // ---- the loop alone -----------------------------------------------------------------------

  /** The processor does not take back a payment. */
  predicate StaysPaid(w: World, a: Action) {
    a.ProcessorSets? && StatusAt(w, a.hash) == Paid ==> a.status == Paid
  }

  predicate Faithful(cfg: Config, actions: seq<Action>) {
    forall i :: 0 <= i < |actions| ==> StaysPaid(Run(cfg, actions[..i]), actions[i])
  }

  lemma FaithfulFront(cfg: Config, actions: seq<Action>, n: nat)
    requires Faithful(cfg, actions) && n <= |actions|
    ensures Faithful(cfg, actions[..n])
  {
    var front := actions[..n];
    forall i | 0 <= i < n ensures StaysPaid(Run(cfg, front[..i]), front[i]) {
      assert front[..i] == actions[..i] && StaysPaid(Run(cfg, actions[..i]), actions[i]);
    }
  }

  /** Without registrations at the payment gate, the payment loop is the only one to write invoices. */
  predicate LoopAlone(actions: seq<Action>) {
    forall i :: 0 <= i < |actions| ==> !actions[i].OpenGate?
  }

  /** At most one credit, and a credited invoice is on file as paid and paid for the processor. */
  predicate OnceOnFile(b: Books, log: seq<Entry>, status: Status, h: string) {
    CreditCount(log, h) <= 1
    && (CreditCount(log, h) == 1 ==> h in b.invoices && b.invoices[h].status == Paid && status == Paid)
  }

  /** A status for this invoice may be written: paid only if it is, anything else only before a credit. */
  predicate MayWriteStatus(log: seq<Entry>, now: Status, h: string, status: Status) {
    if status == Paid then now == Paid else CreditCount(log, h) == 0
  }

  predicate LoopAgrees(loop: Loop, log: seq<Entry>, now: Status, h: string) {
    match loop
    case CheckSave(_, g, status) => g == h ==> MayWriteStatus(log, now, h, status)
    case PaidSave(g, status) => g == h ==> MayWriteStatus(log, now, h, status)
    case PaidAgain(g) => g == h ==> now == Paid
    case _ => true
  }

  predicate OnceFor(w: World, h: string) {
    OnceOnFile(w.books, w.log, StatusAt(w, h), h) && LoopAgrees(w.loop, w.log, StatusAt(w, h), h)
  }

  lemma StatusOnce(b: Books, log: seq<Entry>, now: Status, g: string, status: Status, h: string)
    requires OnceOnFile(b, log, now, h) && (g == h ==> MayWriteStatus(log, now, h, status))
    ensures OnceOnFile(UpdateInvoice(b, g, status), log + Entries(b, InvoiceStatus(g, status)), now, h)
  {
    StatusCounts(b, log, g, status, h);
    StatusAfter(b, g, status, h);
  }

  lemma WriteOnce(b: Books, log: seq<Entry>, status: Status, o: Write, h: string)
    requires OnceOnFile(b, log, status, h)
    requires o.InvoiceStatus? && o.hash == h ==> MayWriteStatus(log, status, h, o.status)
    ensures OnceOnFile(Written(b, o), log + Entries(b, o), status, h)
  {
    if o.InvoiceStatus? {
      StatusOnce(b, log, status, o.hash, o.status, h);
    } else {
      QuietWrite(b, log, o, h);
    }
  }

  /** The loop leaves with an answer that agrees. */
  lemma LoopToAgrees(w: World, reply: Reply, h: string)
    requires OnceFor(w, h)
    ensures LoopAgrees(LoopTo(w, reply), w.log, StatusAt(w, h), h)
  {
  }

  /** It never holds an answer right after a write. */
  lemma LogKeepsAgreement(cfg: Config, w: World, reply: Reply, now: nat, log: seq<Entry>, status: Status, h: string)
    requires LoopAgrees(LoopTo(w, reply), w.log, status, h)
    requires log == w.log + Entries(w.books, LoopWrite(cfg, w, now))
    ensures LoopAgrees(LoopTo(w, reply), log, status, h)
  {
    if w.loop.CheckAsk? || w.loop.PaidAsk? { assert log == w.log; }
  }

  /** A step of the loop writes only what it may. */
  lemma LoopWritesOnce(cfg: Config, w: World, now: nat, h: string)
    requires OnceFor(w, h)
    ensures
      var o := LoopWrite(cfg, w, now);
      OnceOnFile(Written(w.books, o), w.log + Entries(w.books, o), StatusAt(w, h), h)
  {
    WriteOnce(w.books, w.log, StatusAt(w, h), LoopWrite(cfg, w, now), h);
  }

  lemma LoopStepOnce(cfg: Config, w: World, reply: Reply, now: nat, h: string)
    requires OnceFor(w, h)
    ensures OnceFor(Next(cfg, w, LoopStep(reply, now)), h)
  {
    var w' := Next(cfg, w, LoopStep(reply, now));
    LoopWritesOnce(cfg, w, now, h);
    LoopToAgrees(w, reply, h);
    LogKeepsAgreement(cfg, w, reply, now, w'.log, StatusAt(w, h), h);
    assert StatusAt(w', h) == StatusAt(w, h);
  }

  lemma OtherStepOnce(cfg: Config, w: World, a: Action, h: string)
    requires OnceFor(w, h) && w.gates == map[] && !a.OpenGate? && !a.LoopStep? && StaysPaid(w, a)
    ensures OnceFor(Next(cfg, w, a), h)
  {
    var o := WriteOf(cfg, w, a);
    WriteOnce(w.books, w.log, StatusAt(w, h), o, h);
    QuietWrite(w.books, w.log, o, h);
  }

  lemma StepOnce(cfg: Config, w: World, a: Action, h: string)
    requires OnceFor(w, h) && w.gates == map[] && !a.OpenGate? && StaysPaid(w, a)
    ensures OnceFor(Next(cfg, w, a), h) && GatesAfter(w, a) == map[]
  {
    if a.LoopStep? {
      LoopStepOnce(cfg, w, a.reply, a.now, h);
    } else {
      OtherStepOnce(cfg, w, a, h);
    }
  }

  lemma {:induction false} LoopAloneOnce(cfg: Config, actions: seq<Action>, h: string)
    requires Faithful(cfg, actions) && LoopAlone(actions)
    ensures OnceFor(Run(cfg, actions), h) && Run(cfg, actions).gates == map[]
  {
    if actions != [] {
      var n := |actions| - 1;
      FaithfulFront(cfg, actions, n);
      LoopAloneOnce(cfg, actions[..n], h);
      assert StaysPaid(Run(cfg, actions[..n]), actions[n]);
      StepOnce(cfg, Run(cfg, actions[..n]), actions[n], h);
    }
  }

  /** The loop alone never undoes a credit, with a processor that never leaves paid; so no invoice is credited twice. */
  lemma CreditedOnce(cfg: Config, actions: seq<Action>, h: string)
    requires Faithful(cfg, actions) && LoopAlone(actions)
    ensures NotUndone(cfg, actions, 0, h) && CreditCount(Run(cfg, actions).log, h) <= 1
  {
    forall i | 0 <= i < |actions| ensures !UndoesAt(cfg, actions, i, h) {
      FaithfulFront(cfg, actions, i);
      LoopAloneOnce(cfg, actions[..i], h);
    }
    SingleUnlessUndone(cfg, actions, h);
  }
}
