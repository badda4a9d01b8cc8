/**
 Payments as a machine of interleaved steps: the payment loop (src/payment/mod.rs), the payment
 gates of name registrations (src/name_authority/mod.rs) and the event writer's charges
 (src/db.rs). Every database or processor call is one step. The processor is an oracle whose
 answers are part of the run.
 */
module Payments {
  import opened Wrappers
  import opened Ledger
  import C = Claims

  datatype Config = Config(admissionCost: nat, namePrice: nat, costPerEvent: nat)

  // ---- state ----------------------------------------------------------------------------

  datatype Message = NewAccount(pubkey: string) | CheckAccount(pubkey: string) | InvoicePaid(hash: string)

  /** Where the payment loop stands in the handling of a message. */
  datatype Loop =
    | Idle
    | Create(pubkey: string)
    | FindUnpaid(pubkey: string)
    | AskInvoice(pubkey: string)
    | SaveInvoice(pubkey: string, hash: string, amount: nat, status: Status)
    | CheckFind(pubkey: string)
    | CheckAsk(pubkey: string, hash: string)
    | CheckSave(pubkey: string, hash: string, status: Status)
    | PaidAsk(hash: string)
    | PaidSave(hash: string, status: Status)
    | PaidAgain(hash: string)
    | Admit(pubkey: string)

  /** Where the payment gate of one registration stands. */
  datatype Gate =
    | Reading(name: string, pubkey: string)
    | Finding(name: string, pubkey: string)
    | Asking(name: string, pubkey: string, hash: string)
    | Saving(name: string, pubkey: string, hash: string)
    | Admitting(name: string, pubkey: string)
    | Expiring(name: string, pubkey: string, hash: string)
    | Opening(name: string, pubkey: string)
    | Ordering(name: string, pubkey: string)
    | Recording(name: string, pubkey: string, hash: string, amount: nat, status: Status)
    | Passed(name: string, pubkey: string)

  datatype Writer = Waiting | Cleared(pubkey: string)

  /** What happened to balances, in order. */
  datatype Entry =
    | Credit(hash: string, pubkey: string, amount: nat)
    | Fee(pubkey: string, amount: nat)
    | Charge(pubkey: string, amount: nat)

  datatype World = World(
    books: Books, log: seq<Entry>, processor: map<string, Status>, reported: set<string>,
    loop: Loop, gates: map<nat, Gate>, writer: Writer, claims: C.Table)

  /** The processor's answer to a step that asks it something; a new invoice may come with any status. */
  datatype Reply = Answer | Failure | NewInvoice(hash: string, amount: nat, status: Status)

  datatype Action =
    | ProcessorSets(hash: string, status: Status)
    | Receive(msg: Message)
    | LoopStep(reply: Reply, now: nat)
    | OpenGate(id: nat, name: string, pubkey: string)
    | GateStep(id: nat, reply: Reply, now: nat)
    | Claim(id: nat, now: nat)
    | WriterReads(pubkey: string)
    | WriterEnds(wrote: bool)

  const START := World(Books(map[], map[]), [], map[], {}, Idle, map[], Waiting, map[])

  // ---- database writes ----------------------------------------------------------------------

  /** The one write a step may make. */
  datatype Write =
    | Nothing
    | NewAccountRow(pubkey: string)
    | NewInvoiceRow(pubkey: string, hash: string, amount: nat, status: Status, now: nat)
    | InvoiceStatus(hash: string, status: Status)
    | AdmitFor(pubkey: string, cost: nat)
    | ChargeFor(pubkey: string, cost: nat)

  function Written(b: Books, o: Write): Books {
    match o
    case Nothing => b
    case NewAccountRow(p) => CreateAccount(b, p)
    case NewInvoiceRow(p, h, amount, status, now) => CreateInvoiceRecord(b, p, h, amount, status, now)
    case InvoiceStatus(h, status) => UpdateInvoice(b, h, status)
    case AdmitFor(p, cost) => AdmitAccount(b, p, cost)
    case ChargeFor(p, cost) => AddBalance(b, p, Signed(false, cost))
  }

  /** What it does to balances. */
  function Entries(b: Books, o: Write): seq<Entry> {
    match o
    case InvoiceStatus(h, status) =>
      if Credits(b, h, status) then [Credit(h, b.invoices[h].pubkey, b.invoices[h].amount)] else []
    case AdmitFor(p, cost) => if HasAccount(b, p) then [Fee(p, cost)] else []
    case ChargeFor(p, cost) => if HasAccount(b, p) then [Charge(p, cost)] else []
    case _ => []
  }

  // ---- the payment loop ---------------------------------------------------------------------

  function StatusAt(w: World, hash: string): Status {
    if hash in w.processor then w.processor[hash] else Unpaid
  }

  function LoopWrite(cfg: Config, w: World, now: nat): Write {
    match w.loop
    case Create(p) => NewAccountRow(p)
    case SaveInvoice(p, h, amount, status) => NewInvoiceRow(p, h, amount, status, now)
    case CheckSave(p, h, status) => InvoiceStatus(h, status)
    case PaidSave(h, status) => InvoiceStatus(h, status)
    case PaidAgain(h) => InvoiceStatus(h, Paid)
    case Admit(p) => AdmitFor(p, cfg.admissionCost)
    case _ => Nothing
  }

  /** Where the loop goes next; a failed call ends the handling of the message. */
  function LoopTo(w: World, reply: Reply): Loop {
    match w.loop
    case Create(p) => if HasAccount(w.books, p) then FindUnpaid(p) else AskInvoice(p)
    case FindUnpaid(p) => if GetUnpaidInvoice(w.books, p).Some? then Idle else AskInvoice(p)
    case AskInvoice(p) => if reply.NewInvoice? then SaveInvoice(p, reply.hash, reply.amount, reply.status) else Idle
    case CheckFind(p) =>
      var found := GetUnpaidInvoice(w.books, p);
      if found.Some? then CheckAsk(p, found.value) else Create(p)
    case CheckAsk(p, h) => if reply.Failure? then Idle else CheckSave(p, h, StatusAt(w, h))
    case CheckSave(p, h, status) => if status == Paid then Admit(p) else Idle
    case PaidAsk(h) => if reply.Failure? then Idle else PaidSave(h, StatusAt(w, h))
    case PaidSave(h, status) => if status == Paid && h in w.books.invoices then PaidAgain(h) else Idle
    case PaidAgain(h) => if h in w.books.invoices then Admit(w.books.invoices[h].pubkey) else Idle
    case _ => Idle
  }

  /** The processor is asked about an invoice. */
  function LoopAsks(w: World, reply: Reply): set<string> {
    if (w.loop.CheckAsk? || w.loop.PaidAsk?) && !reply.Failure? then {w.loop.hash} else {}
  }

  function LoopStart(loop: Loop, msg: Message): Loop {
    if !loop.Idle? then loop
    else
      match msg
      case NewAccount(p) => Create(p)
      case CheckAccount(p) => CheckFind(p)
      case InvoicePaid(h) => PaidAsk(h)
  }

  // ---- the gates ------------------------------------------------------------------------------

  function GateWrite(cfg: Config, g: Gate, now: nat): Write {
    match g
    case Saving(n, p, h) => InvoiceStatus(h, Paid)
    case Admitting(n, p) => AdmitFor(p, cfg.namePrice)
    case Expiring(n, p, h) => InvoiceStatus(h, Expired)
    case Opening(n, p) => NewAccountRow(p)
    case Recording(n, p, h, amount, status) => NewInvoiceRow(p, h, amount, status, now)
    case _ => Nothing
  }

  /** Where the gate goes next; none when the request has been answered. */
  function GateTo(w: World, g: Gate, reply: Reply): Option<Gate> {
    match g
    case Reading(n, p) =>
      var r := GetAccountBalance(w.books, p);
      Some(if r.Balance? && r.admitted then Passed(n, p) else Finding(n, p))
    case Finding(n, p) =>
      var found := GetUnpaidInvoice(w.books, p);
      Some(if found.Some? then Asking(n, p, found.value) else Opening(n, p))
    case Asking(n, p, h) =>
      if reply.Failure? || StatusAt(w, h) == Unpaid then None
      else Some(if StatusAt(w, h) == Paid then Saving(n, p, h) else Expiring(n, p, h))
    case Saving(n, p, h) => if h in w.books.invoices then Some(Admitting(n, p)) else None
    case Admitting(n, p) => Some(Passed(n, p))
    case Expiring(n, p, h) => Some(Ordering(n, p))
    case Opening(n, p) => Some(Ordering(n, p))
    case Ordering(n, p) =>
      if reply.NewInvoice? then Some(Recording(n, p, reply.hash, reply.amount, reply.status)) else None
    case Recording(_, _, _, _, _) => None
    case Passed(n, p) => Some(g)
  }

  function GateAsks(g: Gate, reply: Reply): set<string> {
    if g.Asking? && !reply.Failure? then {g.hash} else {}
  }

  function SetGate(gates: map<nat, Gate>, id: nat, g: Option<Gate>): map<nat, Gate> {
    if g.Some? then gates[id := g.value] else gates - {id}
  }

  // ---- one step -------------------------------------------------------------------------------

  predicate MayWrite(cfg: Config, b: Books, pubkey: string) {
    var r := GetAccountBalance(b, pubkey);
    r.Balance? && r.admitted && r.amount >= cfg.costPerEvent
  }

  function WriteOf(cfg: Config, w: World, a: Action): Write {
    match a
    case LoopStep(reply, now) => LoopWrite(cfg, w, now)
    case GateStep(id, reply, now) => if id in w.gates then GateWrite(cfg, w.gates[id], now) else Nothing
    case WriterEnds(wrote) =>
      if w.writer.Cleared? && wrote && cfg.costPerEvent > 0
      then ChargeFor(w.writer.pubkey, cfg.costPerEvent) else Nothing
    case _ => Nothing
  }

  function AsksOf(w: World, a: Action): set<string> {
    match a
    case LoopStep(reply, now) => LoopAsks(w, reply)
    case GateStep(id, reply, now) => if id in w.gates then GateAsks(w.gates[id], reply) else {}
    case _ => {}
  }

  function LoopAfter(w: World, a: Action): Loop {
    match a
    case Receive(msg) => LoopStart(w.loop, msg)
    case LoopStep(reply, now) => LoopTo(w, reply)
    case _ => w.loop
  }

  function GatesAfter(w: World, a: Action): map<nat, Gate> {
    match a
    case OpenGate(id, name, pubkey) => if id in w.gates then w.gates else w.gates[id := Reading(name, pubkey)]
    case GateStep(id, reply, now) =>
      if id in w.gates then SetGate(w.gates, id, GateTo(w, w.gates[id], reply)) else w.gates
    case Claim(id, now) => if PassedGate(w, id) then w.gates - {id} else w.gates
    case _ => w.gates
  }

  predicate PassedGate(w: World, id: nat) {
    id in w.gates && w.gates[id].Passed?
  }

  function ClaimsAfter(w: World, a: Action): C.Table {
    if a.Claim? && PassedGate(w, a.id)
    then C.Inserted(w.claims, w.gates[a.id].name, w.gates[a.id].pubkey, a.now) else w.claims
  }

  function WriterAfter(cfg: Config, w: World, a: Action): Writer {
    match a
    case WriterReads(pubkey) =>
      if w.writer.Waiting? && MayWrite(cfg, w.books, pubkey) then Cleared(pubkey) else w.writer
    case WriterEnds(wrote) => Waiting
    case _ => w.writer
  }

  function Next(cfg: Config, w: World, a: Action): World {
    var o := WriteOf(cfg, w, a);
    World(Written(w.books, o),
          w.log + Entries(w.books, o),
          if a.ProcessorSets? then w.processor[a.hash := a.status] else w.processor,
          w.reported + (set h | h in AsksOf(w, a) && StatusAt(w, h) == Paid),
          LoopAfter(w, a), GatesAfter(w, a), WriterAfter(cfg, w, a), ClaimsAfter(w, a))
  }

  function Run(cfg: Config, actions: seq<Action>): World {
    if actions == [] then START
    else Next(cfg, Run(cfg, actions[..|actions| - 1]), actions[|actions| - 1])
  }

  // ---- ledger conservation ----------------------------------------------------------------------

  function Effect(e: Entry, pubkey: string): int {
    match e
    case Credit(_, p, amount) => if p == pubkey then amount else 0
    case Fee(p, amount) => if p == pubkey then -(amount as int) else 0
    case Charge(p, amount) => if p == pubkey then -(amount as int) else 0
  }

  function Total(log: seq<Entry>, pubkey: string): int {
    if log == [] then 0 else Total(log[..|log| - 1], pubkey) + Effect(log[|log| - 1], pubkey)
  }

  function BalanceOf(b: Books, p: string): int {
    if p in b.accounts then b.accounts[p].balance else 0
  }

  /** The account holds exactly what was logged for it; without an account, nothing was. */
  predicate BalancedFor(b: Books, log: seq<Entry>, p: string) {
    Total(log, p) == BalanceOf(b, p)
  }

  ghost predicate Balanced(b: Books, log: seq<Entry>) {
    Linked(b) && forall p :: BalancedFor(b, log, p)
  }

  lemma TotalPush(log: seq<Entry>, e: Entry, pubkey: string)
    ensures Total(log + [e], pubkey) == Total(log, pubkey) + Effect(e, pubkey)
  {
  }

  /** What the entries of one write come to. */
  function Change(more: seq<Entry>, pubkey: string): int
    requires |more| <= 1
  {
    if more == [] then 0 else Effect(more[0], pubkey)
  }

  lemma {:induction false} TotalConcat(log: seq<Entry>, more: seq<Entry>, pubkey: string)
    requires |more| <= 1
    ensures Total(log + more, pubkey) == Total(log, pubkey) + Change(more, pubkey)
  {
    if more == [] {
      assert log + more == log;
    } else {
      assert log + more == log + [more[0]];
      TotalPush(log, more[0], pubkey);
    }
  }

  lemma StatusChanges(b: Books, h: string, status: Status, p: string)
    requires Linked(b)
    ensures BalanceOf(UpdateInvoice(b, h, status), p)
         == BalanceOf(b, p) + Change(Entries(b, InvoiceStatus(h, status)), p)
  {
  }

  lemma FeeChanges(b: Books, o: Write, p: string)
    requires o.AdmitFor? || o.ChargeFor?
    ensures BalanceOf(Written(b, o), p) == BalanceOf(b, p) + Change(Entries(b, o), p)
  {
  }

  lemma RowChanges(b: Books, o: Write, p: string)
    requires !o.InvoiceStatus? && !o.AdmitFor? && !o.ChargeFor?
    ensures BalanceOf(Written(b, o), p) == BalanceOf(b, p) && Entries(b, o) == []
  {
  }

  /** Any one write changes a balance by what it enters in the log. */
  lemma WriteChanges(b: Books, o: Write, p: string)
    requires Linked(b)
    ensures BalanceOf(Written(b, o), p) == BalanceOf(b, p) + Change(Entries(b, o), p)
  {
    if o.InvoiceStatus? {
      StatusChanges(b, o.hash, o.status, p);
    } else if o.AdmitFor? || o.ChargeFor? {
      FeeChanges(b, o, p);
    } else {
      RowChanges(b, o, p);
    }
  }

  /** Any one write keeps the account and the log in step. */
  lemma WriteBalanced(b: Books, log: seq<Entry>, o: Write, p: string)
    requires Linked(b) && BalancedFor(b, log, p)
    ensures BalancedFor(Written(b, o), log + Entries(b, o), p)
  {
    TotalConcat(log, Entries(b, o), p);
    WriteChanges(b, o, p);
  }

  lemma WriteLinked(b: Books, o: Write)
    requires Linked(b)
    ensures Linked(Written(b, o))
  {
  }

  /** Ledger conservation: whatever the interleaving, balances are credits minus fees minus charges. */
  lemma {:induction false} RunBalanced(cfg: Config, actions: seq<Action>)
    ensures Balanced(Run(cfg, actions).books, Run(cfg, actions).log)
  {
    if actions != [] {
      var w, a := Run(cfg, actions[..|actions| - 1]), actions[|actions| - 1];
      RunBalanced(cfg, actions[..|actions| - 1]);
      var o := WriteOf(cfg, w, a);
      WriteLinked(w.books, o);
      forall p ensures BalancedFor(Written(w.books, o), w.log + Entries(w.books, o), p) {
        assert BalancedFor(w.books, w.log, p);
        WriteBalanced(w.books, w.log, o, p);
      }
    }
  }

  predicate TurnsPaid(before: Books, after: Books, h: string) {
    h in before.invoices && h in after.invoices
    && before.invoices[h].status == Unpaid && after.invoices[h].status == Paid
  }

  lemma WriteCredits(b: Books, o: Write, h: string)
    ensures TurnsPaid(b, Written(b, o), h) <==>
      h in b.invoices && Entries(b, o) == [Credit(h, b.invoices[h].pubkey, b.invoices[h].amount)]
  {
  }

  /** An entry of credit is logged exactly when an invoice on file goes from unpaid to paid. */
  lemma CreditsAreTransitions(cfg: Config, w: World, a: Action, h: string)
    ensures
      var w' := Next(cfg, w, a);
      TurnsPaid(w.books, w'.books, h) <==>
        h in w.books.invoices
        && w'.log == w.log + [Credit(h, w.books.invoices[h].pubkey, w.books.invoices[h].amount)]
  {
    var o := WriteOf(cfg, w, a);
    WriteCredits(w.books, o, h);
    if h in w.books.invoices {
      var mine := [Credit(h, w.books.invoices[h].pubkey, w.books.invoices[h].amount)];
      assert (w.log + Entries(w.books, o))[|w.log|..] == Entries(w.books, o);
      assert (w.log + mine)[|w.log|..] == mine;
    }
  }

  // ---- admission soundness --------------------------------------------------------------------

  /** Some invoice made out to this public key was reported paid by the processor. */
  predicate HasPaid(b: Books, reported: set<string>, p: string) {
    exists h :: h in b.invoices && OwnInvoice(b, p, h) && h in reported
  }

  predicate IsAdmitted(b: Books, p: string) {
    p in b.accounts && b.accounts[p].admitted
  }

  predicate OwnInvoice(b: Books, p: string, h: string) {
    h in b.invoices && b.invoices[h].pubkey == p
  }

  predicate LoopSound(b: Books, reported: set<string>, loop: Loop) {
    match loop
    case CheckAsk(p, h) => OwnInvoice(b, p, h)
    case CheckSave(p, h, status) => OwnInvoice(b, p, h) && (status == Paid ==> h in reported)
    case PaidSave(h, status) => status == Paid ==> h in reported
    case PaidAgain(h) => h in reported
    case Admit(p) => HasPaid(b, reported, p)
    case _ => true
  }

  predicate GateSound(b: Books, reported: set<string>, g: Gate) {
    match g
    case Asking(_, p, h) => OwnInvoice(b, p, h)
    case Saving(_, p, h) => OwnInvoice(b, p, h) && h in reported
    case Admitting(_, p) => HasPaid(b, reported, p)
    case Passed(_, p) => IsAdmitted(b, p)
    case _ => true
  }

  predicate GatesSound(w: World) {
    forall id :: id in w.gates ==> GateSound(w.books, w.reported, w.gates[id])
  }

  predicate AdmittedSound(b: Books, reported: set<string>) {
    forall p :: p in b.accounts && IsAdmitted(b, p) ==> HasPaid(b, reported, p)
  }

  predicate ClaimsSound(b: Books, claims: C.Table) {
    forall n :: n in claims ==> IsAdmitted(b, claims[n].pubkey)
  }

  predicate Sound(w: World) {
    Linked(w.books) && LoopSound(w.books, w.reported, w.loop) && GatesSound(w)
    && AdmittedSound(w.books, w.reported) && ClaimsSound(w.books, w.claims)
  }

  /** Invoices keep their owners and admissions stand. */
  predicate Grows(b: Books, b': Books) {
    (forall h :: h in b.invoices ==> OwnInvoice(b', b.invoices[h].pubkey, h))
    && (forall p :: p in b.accounts && IsAdmitted(b, p) ==> IsAdmitted(b', p))
  }

  lemma WriteGrows(b: Books, o: Write)
    ensures Grows(b, Written(b, o))
  {
  }

  lemma GrowsKeepsPaid(b: Books, b': Books, reported: set<string>, reported': set<string>, p: string)
    requires Grows(b, b') && reported <= reported' && HasPaid(b, reported, p)
    ensures HasPaid(b', reported', p)
  {
  }

  lemma GrowsKeepsGate(b: Books, b': Books, reported: set<string>, reported': set<string>, g: Gate)
    requires Grows(b, b') && reported <= reported' && GateSound(b, reported, g)
    ensures GateSound(b', reported', g)
  {
  }

  lemma GrowsKeepsLoop(b: Books, b': Books, reported: set<string>, reported': set<string>, loop: Loop)
    requires Grows(b, b') && reported <= reported' && LoopSound(b, reported, loop)
    ensures LoopSound(b', reported', loop)
  {
  }

  /** Where the loop goes is sound for the books it read and the answers it got. */
  lemma LoopToSound(w: World, reply: Reply, reported: set<string>)
    requires LoopSound(w.books, w.reported, w.loop) && w.reported <= reported
    requires forall h :: h in LoopAsks(w, reply) && StatusAt(w, h) == Paid ==> h in reported
    ensures LoopSound(w.books, reported, LoopTo(w, reply))
  {
  }

  lemma StepLoopSound(cfg: Config, w: World, a: Action)
    requires LoopSound(w.books, w.reported, w.loop)
    ensures
      var w' := Next(cfg, w, a);
      LoopSound(w'.books, w'.reported, w'.loop)
  {
    var w' := Next(cfg, w, a);
    WriteGrows(w.books, WriteOf(cfg, w, a));
    if a.LoopStep? {
      LoopToSound(w, a.reply, w'.reported);
    }
    GrowsKeepsLoop(w.books, w'.books, if a.LoopStep? then w'.reported else w.reported, w'.reported, w'.loop);
  }

  /** Where a gate goes is sound too; passing after an admission needs that admission's write. */
  lemma GateToSound(cfg: Config, w: World, g: Gate, reply: Reply, now: nat, reported: set<string>)
    requires Linked(w.books) && GateSound(w.books, w.reported, g) && w.reported <= reported
    requires forall h :: h in GateAsks(g, reply) && StatusAt(w, h) == Paid ==> h in reported
    requires GateTo(w, g, reply).Some?
    ensures GateSound(Written(w.books, GateWrite(cfg, g, now)), reported, GateTo(w, g, reply).value)
  {
  }

  lemma StepGatesSound(cfg: Config, w: World, a: Action)
    requires Linked(w.books) && GatesSound(w)
    ensures GatesSound(Next(cfg, w, a))
  {
    var w' := Next(cfg, w, a);
    WriteGrows(w.books, WriteOf(cfg, w, a));
    forall id | id in w'.gates ensures GateSound(w'.books, w'.reported, w'.gates[id]) {
      if a.GateStep? && a.id == id {
        GateToSound(cfg, w, w.gates[id], a.reply, a.now, w'.reported);
      } else if id in w.gates {
        GrowsKeepsGate(w.books, w'.books, w.reported, w'.reported, w.gates[id]);
      }
    }
  }

  /** The only write that admits is an admission. */
  lemma AdmissionWrites(b: Books, o: Write, p: string)
    requires IsAdmitted(Written(b, o), p) && !IsAdmitted(b, p)
    ensures o.AdmitFor? && o.pubkey == p
  {
  }

  lemma AdmissionsArePaid(cfg: Config, w: World, a: Action)
    requires LoopSound(w.books, w.reported, w.loop) && GatesSound(w) && WriteOf(cfg, w, a).AdmitFor?
    ensures HasPaid(w.books, w.reported, WriteOf(cfg, w, a).pubkey)
  {
  }

  lemma StepAdmittedSound(cfg: Config, w: World, a: Action)
    requires Sound(w)
    ensures
      var w' := Next(cfg, w, a);
      AdmittedSound(w'.books, w'.reported)
  {
    var o, w' := WriteOf(cfg, w, a), Next(cfg, w, a);
    WriteGrows(w.books, o);
    forall p | p in w'.books.accounts && IsAdmitted(w'.books, p) ensures HasPaid(w'.books, w'.reported, p) {
      if !IsAdmitted(w.books, p) {
        AdmissionWrites(w.books, o, p);
        AdmissionsArePaid(cfg, w, a);
      }
      assert HasPaid(w.books, w.reported, p);
      GrowsKeepsPaid(w.books, w'.books, w.reported, w'.reported, p);
    }
  }

  lemma StepClaimsSound(cfg: Config, w: World, a: Action)
    requires GatesSound(w) && ClaimsSound(w.books, w.claims)
    ensures ClaimsSound(Next(cfg, w, a).books, Next(cfg, w, a).claims)
  {
    var b', claims := Written(w.books, WriteOf(cfg, w, a)), ClaimsAfter(w, a);
    WriteGrows(w.books, WriteOf(cfg, w, a));
    forall n | n in claims ensures IsAdmitted(b', claims[n].pubkey) {
      if n in w.claims && claims[n] == w.claims[n] {
        assert IsAdmitted(w.books, w.claims[n].pubkey);
      } else {
        assert GateSound(w.books, w.reported, w.gates[a.id]);
      }
    }
  }

  lemma StepSound(cfg: Config, w: World, a: Action)
    requires Sound(w)
    ensures Sound(Next(cfg, w, a))
  {
    WriteLinked(w.books, WriteOf(cfg, w, a));
    StepLoopSound(cfg, w, a);
    StepGatesSound(cfg, w, a);
    StepAdmittedSound(cfg, w, a);
    StepClaimsSound(cfg, w, a);
  }

  /**
   Admission soundness: whatever messages arrive and however the steps interleave, an admitted
   account has an invoice of its own that was reported paid, and every claimed name an admitted owner.
   */
  lemma {:induction false} RunSound(cfg: Config, actions: seq<Action>)
    ensures Sound(Run(cfg, actions))
  {
    if actions != [] {
      RunSound(cfg, actions[..|actions| - 1]);
      StepSound(cfg, Run(cfg, actions[..|actions| - 1]), actions[|actions| - 1]);
    }
  }

  /** What was reported paid, the processor had been told to be paid. */
  lemma {:induction false} ReportedWasSet(cfg: Config, actions: seq<Action>, h: string)
    ensures StatusAt(Run(cfg, actions), h) == Paid ==> ProcessorSets(h, Paid) in actions
    ensures h in Run(cfg, actions).reported ==> ProcessorSets(h, Paid) in actions
  {
    if actions != [] {
      var front, a := actions[..|actions| - 1], actions[|actions| - 1];
      ReportedWasSet(cfg, front, h);
      assert actions == front + [a];
    }
  }

  /** In every run, behind an admitted account stands an invoice made out to it that was paid. */
  lemma AdmissionWasPaid(cfg: Config, actions: seq<Action>, p: string)
    requires p in Run(cfg, actions).books.accounts && Run(cfg, actions).books.accounts[p].admitted
    ensures exists h ::
      h in Run(cfg, actions).books.invoices && Run(cfg, actions).books.invoices[h].pubkey == p
      && ProcessorSets(h, Paid) in actions
  {
    var w := Run(cfg, actions);
    RunSound(cfg, actions);
    assert IsAdmitted(w.books, p) && HasPaid(w.books, w.reported, p);
    var h :| h in w.books.invoices && OwnInvoice(w.books, p, h) && h in w.reported;
    ReportedWasSet(cfg, actions, h);
  }

  /** ... and behind every claim such an account. */
  lemma ClaimWasPaid(cfg: Config, actions: seq<Action>, name: string)
    requires name in Run(cfg, actions).claims
    ensures
      var w := Run(cfg, actions);
      w.claims[name].pubkey in w.books.accounts && w.books.accounts[w.claims[name].pubkey].admitted
  {
    RunSound(cfg, actions);
  }
}
