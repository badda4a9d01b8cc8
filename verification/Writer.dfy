/**
 The database writer's loop (src/db.rs): checks, write, broadcast, charge. NIP-05 verification
 and the external admission service enter as one decision; writing and broadcasting are one step.
 */
module Writer {
  import opened Wrappers
  import opened Events
  import opened Ledger
  import opened Store
  import opened StoreInvariants
  import opened StoreEdges

  datatype Settings = Settings(
    kindBlacklist: Option<seq<nat>>, kindAllowlist: Option<seq<nat>>, payToRelay: bool, costPerEvent: nat,
    whitelist: Option<seq<string>>)

  datatype Notice = Blocked | Error | Duplicate | Saved

  datatype State = State(db: Db, books: Books, broadcast: seq<Event>)

  datatype Result = Result(state: State, notice: Notice)

  // ---- the checks -----------------------------------------------------------------------------

  predicate KindBlocked(s: Settings, e: Event) {
    (s.kindBlacklist.Some? && e.kind in s.kindBlacklist.value)
    || (s.kindAllowlist.Some? && e.kind !in s.kindAllowlist.value)
  }

  predicate Listed(s: Settings, e: Event) {
    s.whitelist.Some? && e.pubkey in s.whitelist.value
  }

  /** Authors off the list pay for what they post. */
  predicate Pays(s: Settings, e: Event) {
    s.payToRelay && !Listed(s, e)
  }

  /** The reason to turn the event away before the write, if any. */
  function Refusal(s: Settings, b: Books, e: Event, permitted: bool): Option<Notice> {
    if KindBlocked(s, e) then Some(Blocked)
    else if !s.payToRelay && s.whitelist.Some? && !Listed(s, e) then Some(Blocked)
    else
      var r := GetAccountBalance(b, e.pubkey);
      if Pays(s, e) && !r.Balance? then Some(Error)
      else if Pays(s, e) && (!r.admitted || r.amount < s.costPerEvent) then Some(Blocked)
      else if !permitted then Some(Blocked)
      else None
  }

  /** The event goes out to subscribers. */
  predicate Broadcasts(s: Settings, st: State, e: Event, permitted: bool) {
    Refusal(s, st.books, e, permitted).None?
    && (IsEphemeral(e) || Persist(st.db, e).outcome == Wrote(1))
  }

  function Processed(s: Settings, st: State, e: Event, permitted: bool): Result {
    var refusal := Refusal(s, st.books, e, permitted);
    if refusal.Some? then Result(st, refusal.value)
    else
      var db := if IsEphemeral(e) then st.db else Persist(st.db, e).db;
      if Broadcasts(s, st, e, permitted) then
        Result(State(db,
                     if Pays(s, e) && s.costPerEvent > 0
                     then AddBalance(st.books, e.pubkey, Signed(false, s.costPerEvent)) else st.books,
                     st.broadcast + [e]),
               Saved)
      else Result(st.(db := db), if Persist(st.db, e).outcome.Failed? then Error else Duplicate)
  }

  lemma RowsAreZeroOrOne(db: Db, e: Event)
    ensures Persist(db, e).outcome.Wrote? ==> Persist(db, e).outcome.rows <= 1
  {
  }

  class EventWriter {
    const settings: Settings
    const store: SqliteRepo
    const accounts: AccountRepo
    var broadcast: seq<Event>

    constructor (settings: Settings, store: SqliteRepo, accounts: AccountRepo)
      ensures this.settings == settings && this.store == store && this.accounts == accounts && broadcast == []
    {
      this.settings, this.store, this.accounts, broadcast := settings, store, accounts, [];
    }

    function View(): State
      reads this, store, accounts
    {
      State(store.Tables(), accounts.View(), broadcast)
    }

    /** One turn of the loop. */
    method Process(e: Event, permitted: bool) returns (notice: Notice)
      requires Linked(accounts.View())
      modifies this, store, accounts
      ensures Linked(accounts.View())
      ensures Result(View(), notice) == Processed(settings, old(View()), e, permitted)
    {
      var s := settings;
      var eventWrite := false;
      if KindBlocked(s, e) {
        return Blocked;
      }
      var userBalance: Option<nat> := None;
      if !s.payToRelay {
        if s.whitelist.Some? && e.pubkey !in s.whitelist.value {
          return Blocked;
        }
      } else if s.whitelist.None? || e.pubkey !in s.whitelist.value {
        var r := GetAccountBalance(accounts.View(), e.pubkey);
        if !r.Balance? {
          return Error;
        }
        if !r.admitted {
          return Blocked;
        }
        if r.amount < s.costPerEvent {
          return Blocked;
        }
        userBalance := Some(r.amount);
      }
      if !permitted {
        return Blocked;
      }
      RowsAreZeroOrOne(store.Tables(), e);
      if IsEphemeral(e) {
        broadcast := broadcast + [e];
        eventWrite, notice := true, Saved;
      } else {
        var outcome := store.PersistEvent(e);
        match outcome {
          case Wrote(n) =>
            if n == 0 {
              notice := Duplicate;
            } else {
              broadcast := broadcast + [e];
              eventWrite, notice := true, Saved;
            }
          case Failed => notice := Error;
        }
      }
      if eventWrite {
        if s.payToRelay && s.costPerEvent > 0 {
          if userBalance.Some? {
            accounts.UpdateBalance(e.pubkey, false, s.costPerEvent);
          }
        }
      }
    }
  }

  // ---- runs -------------------------------------------------------------------------------------

  /** A submission, or something else that touches the tables in between. */
  datatype Step =
    | Submit(e: Event, permitted: bool)
    | OtherWrite(e: Event)
    | ExpireAt(now: nat)
    | Deposit(pubkey: string, amount: nat)
    | Open(pubkey: string)
    | AdmitFree(pubkey: string)

  function Next(s: Settings, st: State, step: Step): State {
    match step
    case Submit(e, permitted) => Processed(s, st, e, permitted).state
    case OtherWrite(e) => st.(db := Persist(st.db, e).db)
    case ExpireAt(now) => st.(db := Expire(st.db, now))
    case Deposit(p, amount) => st.(books := AddBalance(st.books, p, amount))
    case Open(p) => st.(books := CreateAccount(st.books, p))
    case AdmitFree(p) => st.(books := AdmitAccount(st.books, p, 0))
  }

  function Run(s: Settings, steps: seq<Step>): State {
    if steps == [] then State(EMPTY, Books(map[], map[]), [])
    else Next(s, Run(s, steps[..|steps| - 1]), steps[|steps| - 1])
  }

  lemma {:induction false} RunMirrors(s: Settings, steps: seq<Step>)
    ensures Mirror(Run(s, steps).db)
  {
    if steps == [] {
    } else {
      var st := Run(s, steps[..|steps| - 1]);
      RunMirrors(s, steps[..|steps| - 1]);
      match steps[|steps| - 1]
      case Submit(e, permitted) => PersistMirror(st.db, e);
      case OtherWrite(e) => PersistMirror(st.db, e);
      case ExpireAt(now) => DeleteMirror(st.db, Store.Expired(st.db, now));
      case _ =>
    }
  }

  /**
   Writer-loop agreement: in every run, an event that is broadcast and not ephemeral is at that
   moment stored and visible, unless it repeats its own `d` value, and then it is not.
   */
  lemma BroadcastIsLive(s: Settings, steps: seq<Step>, e: Event, permitted: bool)
    requires !IsEphemeral(e) && Broadcasts(s, Run(s, steps), e, permitted)
    ensures Live(Next(s, Run(s, steps), Submit(e, permitted)).db, e) <==> !RepeatsParam(e)
  {
    RunMirrors(s, steps);
    WrittenIsLive(Run(s, steps).db, e);
  }

  /** Refused, duplicate, superseded, deleted or failed: nothing is sent, nobody is charged, nothing becomes visible. */
  lemma SilentOtherwise(s: Settings, steps: seq<Step>, e: Event, permitted: bool)
    requires !Broadcasts(s, Run(s, steps), e, permitted)
    ensures
      var st, st' := Run(s, steps), Next(s, Run(s, steps), Submit(e, permitted));
      st'.broadcast == st.broadcast && st'.books == st.books && (Live(st'.db, e) ==> Live(st.db, e))
  {
    var st := Run(s, steps);
    RunMirrors(s, steps);
    if Refusal(s, st.books, e, permitted).None? {
      UnwrittenIsNotNews(st.db, e);
    }
  }

  /** A charge falls exactly on the broadcast events of authors who pay, and is what one event costs. */
  lemma ChargedExactly(s: Settings, st: State, e: Event, permitted: bool)
    ensures
      var st' := Next(s, st, Submit(e, permitted));
      var charged := Broadcasts(s, st, e, permitted) && Pays(s, e) && s.costPerEvent > 0;
      st'.books.invoices == st.books.invoices && st'.books.accounts.Keys == st.books.accounts.Keys
      && (charged ==> e.pubkey in st.books.accounts)
      && (forall p :: p in st.books.accounts ==>
            st'.books.accounts[p].admitted == st.books.accounts[p].admitted
            && st'.books.accounts[p].balance
               == st.books.accounts[p].balance - (if charged && p == e.pubkey then s.costPerEvent else 0))
  {
  }

  predicate NoDebts(b: Books) {
    forall p :: p in b.accounts ==> b.accounts[p].balance >= 0
  }

  /** With the writer as the only debtor, its charges never take a balance below zero. */
  lemma {:induction false} RunNoDebts(s: Settings, steps: seq<Step>)
    ensures NoDebts(Run(s, steps).books)
  {
    if steps != [] {
      var st, step := Run(s, steps[..|steps| - 1]), steps[|steps| - 1];
      RunNoDebts(s, steps[..|steps| - 1]);
      if step.Submit? {
        ChargedExactly(s, st, step.e, step.permitted);
      }
    }
  }
}
