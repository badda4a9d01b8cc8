/** The payment loop beside a registration's payment gate: how one payment comes to be credited twice. */
module PaymentRace {
  import opened Wrappers
  import opened Ledger
  import opened Payments
  import opened PaymentCredits

  lemma GateCredits(cfg: Config, w: World, id: nat, n: string, p: string, h: string)
    requires OnFile(w, h, Unpaid) && id in w.gates && w.gates[id] == Saving(n, p, h)
    ensures
      var w' := Next(cfg, w, GateStep(id, Answer, 0));
      OnFile(w', h, Paid) && w'.loop == w.loop && CreditCount(w'.log, h) == CreditCount(w.log, h) + 1
  {
  }

  lemma StaleAnswerUndoes(cfg: Config, w: World, p: string, h: string)
    requires OnFile(w, h, Paid) && w.loop == CheckSave(p, h, Unpaid)
    ensures
      var w' := Next(cfg, w, LoopStep(Answer, 0));
      OnFile(w', h, Unpaid) && w'.loop == Idle && CreditCount(w'.log, h) == CreditCount(w.log, h)
  {
    CreditCountConcat(w.log, Entries(w.books, InvoiceStatus(h, Unpaid)), h);
  }

  lemma WebhookAsks(cfg: Config, w: World, h: string)
    requires OnFile(w, h, Unpaid) && w.loop == Idle
    ensures
      var w' := Next(cfg, Next(cfg, w, Receive(InvoicePaid(h))), LoopStep(Answer, 0));
      OnFile(w', h, Unpaid) && w'.loop == PaidSave(h, Paid) && w'.log == w.log
  {
  }

  /** With a gate beside it, the loop can write back a stale answer, and the invoice is credited again. */
  lemma CreditedTwice(cfg: Config, w: World, id: nat, n: string, p: string, h: string)
    requires OnFile(w, h, Unpaid) && w.loop == CheckSave(p, h, Unpaid)
    requires id in w.gates && w.gates[id] == Saving(n, p, h)
    ensures
      var w1 := Next(cfg, w, GateStep(id, Answer, 0));
      var w2 := Next(cfg, w1, LoopStep(Answer, 0));
      var w3 := Next(cfg, Next(cfg, w2, Receive(InvoicePaid(h))), LoopStep(Answer, 0));
      CreditCount(Next(cfg, w3, LoopStep(Answer, 0)).log, h) == CreditCount(w.log, h) + 2
  {
    var w1 := Next(cfg, w, GateStep(id, Answer, 0));
    GateCredits(cfg, w, id, n, p, h);
    var w2 := Next(cfg, w1, LoopStep(Answer, 0));
    StaleAnswerUndoes(cfg, w1, p, h);
    WebhookAsks(cfg, w2, h);
    AnswerCredits(cfg, Next(cfg, Next(cfg, w2, Receive(InvoicePaid(h))), LoopStep(Answer, 0)), h);
  }

  // ---- the race happens -------------------------------------------------------------------------

  /** The end of some run in which the processor reports payments and nothing else. */
  ghost predicate Reached(cfg: Config, w: World) {
    exists run :: OnlyPays(run) && Run(cfg, run) == w
  }

  predicate OnlyPays(run: seq<Action>) {
    forall i :: 0 <= i < |run| && run[i].ProcessorSets? ==> run[i].status == Paid
  }

  lemma OnlyPaysIsFaithful(cfg: Config, run: seq<Action>)
    requires OnlyPays(run)
    ensures Faithful(cfg, run)
  {
  }

  lemma Advance(cfg: Config, w: World, a: Action, w': World)
    requires Reached(cfg, w) && (a.ProcessorSets? ==> a.status == Paid) && Next(cfg, w, a) == w'
    ensures Reached(cfg, w')
  {
    var run :| OnlyPays(run) && Run(cfg, run) == w;
    assert (run + [a])[..|run|] == run;
    assert OnlyPays(run + [a]) && Run(cfg, run + [a]) == w';
  }

  /** A wallet with an account that is not admitted, an invoice, and a name it wants. */
  datatype Wallet = Wallet(pubkey: string, hash: string, amount: nat, name: string)

  const GATE := GateStep(0, Answer, 0)

  function Account1(x: Wallet): map<string, Account> {
    map[x.pubkey := Account(false, 0)]
  }

  /** The invoice is on file as unpaid. */
  function Scene(x: Wallet, paid: bool, asked: bool, loop: Loop, gates: map<nat, Gate>): World {
    World(Books(Account1(x), map[x.hash := Invoice(x.pubkey, x.amount, Unpaid, 0)]), [],
          if paid then map[x.hash := Paid] else map[], if asked then {x.hash} else {}, loop, gates, Waiting, map[])
  }

  function LoopScene(x: Wallet, loop: Loop): World {
    Scene(x, false, false, loop, map[])
  }

  /** The loop holds an answer that has gone stale. */
  function GateScene(x: Wallet, asked: bool, g: Gate): World {
    Scene(x, true, asked, CheckSave(x.pubkey, x.hash, Unpaid), map[0 := g])
  }

  lemma InvoiceFound(x: Wallet, b: Books)
    requires b.invoices == map[x.hash := Invoice(x.pubkey, x.amount, Unpaid, 0)]
    ensures GetUnpaidInvoice(b, x.pubkey) == Some(x.hash)
  {
    UnpaidInvoiceFound(b, x.pubkey);
    assert x.hash in UnpaidOf(b, x.pubkey);
  }

  lemma AccountOpened(cfg: Config, x: Wallet)
    ensures Reached(cfg, START.(books := Books(Account1(x), map[]), loop := AskInvoice(x.pubkey)))
  {
    assert OnlyPays([]) && Run(cfg, []) == START;
    var w := START.(loop := Create(x.pubkey));
    Advance(cfg, START, Receive(NewAccount(x.pubkey)), w);
    Advance(cfg, w, STEP, w.(books := Books(Account1(x), map[]), loop := AskInvoice(x.pubkey)));
  }

  lemma InvoiceOpened(cfg: Config, x: Wallet)
    ensures Reached(cfg, LoopScene(x, Idle))
  {
    AccountOpened(cfg, x);
    var w := START.(books := Books(Account1(x), map[]), loop := AskInvoice(x.pubkey));
    var w' := w.(loop := SaveInvoice(x.pubkey, x.hash, x.amount, Unpaid));
    Advance(cfg, w, LoopStep(NewInvoice(x.hash, x.amount, Unpaid), 0), w');
    Advance(cfg, w', STEP, LoopScene(x, Idle));
  }

  lemma LoopFinds(cfg: Config, x: Wallet)
    ensures Next(cfg, LoopScene(x, CheckFind(x.pubkey)), STEP) == LoopScene(x, CheckAsk(x.pubkey, x.hash))
  {
    InvoiceFound(x, LoopScene(x, CheckFind(x.pubkey)).books);
  }

  /** The loop is sent to look into the invoice and asks the processor. */
  lemma LoopAsked(cfg: Config, x: Wallet)
    ensures Reached(cfg, LoopScene(x, CheckAsk(x.pubkey, x.hash)))
  {
    InvoiceOpened(cfg, x);
    Advance(cfg, LoopScene(x, Idle), Receive(CheckAccount(x.pubkey)), LoopScene(x, CheckFind(x.pubkey)));
    LoopFinds(cfg, x);
    Advance(cfg, LoopScene(x, CheckFind(x.pubkey)), STEP, LoopScene(x, CheckAsk(x.pubkey, x.hash)));
  }

  lemma LoopHears(cfg: Config, x: Wallet)
    ensures Next(cfg, LoopScene(x, CheckAsk(x.pubkey, x.hash)), STEP)
         == LoopScene(x, CheckSave(x.pubkey, x.hash, Unpaid))
  {
  }

  lemma AnswerIsHeld(cfg: Config, x: Wallet)
    ensures Reached(cfg, LoopScene(x, CheckSave(x.pubkey, x.hash, Unpaid)))
  {
    LoopAsked(cfg, x);
    LoopHears(cfg, x);
    Advance(
      cfg, LoopScene(x, CheckAsk(x.pubkey, x.hash)), STEP, LoopScene(x, CheckSave(x.pubkey, x.hash, Unpaid)));
  }

  /** The payment comes in before the loop has written the answer down. */
  lemma AnswerGoesStale(cfg: Config, x: Wallet)
    ensures Reached(cfg, Scene(x, true, false, CheckSave(x.pubkey, x.hash, Unpaid), map[]))
  {
    AnswerIsHeld(cfg, x);
    var loop := CheckSave(x.pubkey, x.hash, Unpaid);
    Advance(cfg, LoopScene(x, loop), ProcessorSets(x.hash, Paid), Scene(x, true, false, loop, map[]));
  }

  lemma GateReads(cfg: Config, x: Wallet)
    ensures Next(cfg, Scene(x, true, false, CheckSave(x.pubkey, x.hash, Unpaid), map[]), OpenGate(0, x.name, x.pubkey))
         == GateScene(x, false, Reading(x.name, x.pubkey))
    ensures Next(cfg, GateScene(x, false, Reading(x.name, x.pubkey)), GATE)
         == GateScene(x, false, Finding(x.name, x.pubkey))
  {
  }

  lemma GateOpened(cfg: Config, x: Wallet)
    ensures Reached(cfg, GateScene(x, false, Finding(x.name, x.pubkey)))
  {
    AnswerGoesStale(cfg, x);
    var w := Scene(x, true, false, CheckSave(x.pubkey, x.hash, Unpaid), map[]);
    GateReads(cfg, x);
    Advance(cfg, w, OpenGate(0, x.name, x.pubkey), GateScene(x, false, Reading(x.name, x.pubkey)));
    Advance(cfg, GateScene(x, false, Reading(x.name, x.pubkey)), GATE, GateScene(x, false, Finding(x.name, x.pubkey)));
  }

  lemma GateFinds(cfg: Config, x: Wallet)
    ensures Next(cfg, GateScene(x, false, Finding(x.name, x.pubkey)), GATE)
         == GateScene(x, false, Asking(x.name, x.pubkey, x.hash))
  {
    InvoiceFound(x, GateScene(x, false, Finding(x.name, x.pubkey)).books);
  }

  lemma GateAsked(cfg: Config, x: Wallet)
    ensures Reached(cfg, GateScene(x, false, Asking(x.name, x.pubkey, x.hash)))
  {
    GateOpened(cfg, x);
    GateFinds(cfg, x);
    Advance(cfg, GateScene(x, false, Finding(x.name, x.pubkey)), GATE,
            GateScene(x, false, Asking(x.name, x.pubkey, x.hash)));
  }

  lemma GateHears(cfg: Config, x: Wallet)
    ensures Next(cfg, GateScene(x, false, Asking(x.name, x.pubkey, x.hash)), GATE)
         == GateScene(x, true, Saving(x.name, x.pubkey, x.hash))
  {
  }

  /** Meanwhile the gate of a registration learns of the payment. */
  lemma GateLearns(cfg: Config, x: Wallet)
    ensures Reached(cfg, GateScene(x, true, Saving(x.name, x.pubkey, x.hash)))
  {
    GateAsked(cfg, x);
    GateHears(cfg, x);
    Advance(cfg, GateScene(x, false, Asking(x.name, x.pubkey, x.hash)), GATE,
            GateScene(x, true, Saving(x.name, x.pubkey, x.hash)));
  }

  lemma AdvanceFive(cfg: Config, w: World, a: Action, b: Action, c: Action, d: Action, e: Action) returns (w': World)
    requires Reached(cfg, w)
    requires !a.ProcessorSets? && !b.ProcessorSets? && !c.ProcessorSets? && !d.ProcessorSets? && !e.ProcessorSets?
    ensures w' == Next(cfg, Next(cfg, Next(cfg, Next(cfg, Next(cfg, w, a), b), c), d), e) && Reached(cfg, w')
  {
    w' := AdvanceOne(cfg, w, a);
    w' := AdvanceOne(cfg, w', b);
    w' := AdvanceOne(cfg, w', c);
    w' := AdvanceOne(cfg, w', d);
    w' := AdvanceOne(cfg, w', e);
  }

  lemma AdvanceOne(cfg: Config, w: World, a: Action) returns (w': World)
    requires Reached(cfg, w) && !a.ProcessorSets?
    ensures w' == Next(cfg, w, a) && Reached(cfg, w')
  {
    w' := Next(cfg, w, a);
    Advance(cfg, w, a, w');
  }

  /** Even if no payment is ever taken back, some run from the start credits an invoice twice. */
  lemma DoubleCreditIsReached(cfg: Config, x: Wallet)
    ensures exists run :: Faithful(cfg, run) && CreditCount(Run(cfg, run).log, x.hash) == 2
  {
    GateLearns(cfg, x);
    var w := GateScene(x, true, Saving(x.name, x.pubkey, x.hash));
    CreditedTwice(cfg, w, 0, x.name, x.pubkey, x.hash);
    w := AdvanceFive(cfg, w, GATE, STEP, Receive(InvoicePaid(x.hash)), STEP, STEP);
    var run :| OnlyPays(run) && Run(cfg, run) == w;
    OnlyPaysIsFaithful(cfg, run);
  }
}
