/** The event writer's turn in plain terms (src/db.rs:149-448): who is let through, and what each author is told. */
module WriterRules {
  import opened Events
  import opened Ledger
  import opened Store
  import opened Writer

  predicate KindIsOpen(s: Settings, kind: nat) {
    (s.kindBlacklist.Some? ==> kind !in s.kindBlacklist.value)
    && (s.kindAllowlist.Some? ==> kind in s.kindAllowlist.value)
  }

  predicate OnWhitelist(s: Settings, e: Event) {
    s.whitelist.Some? && e.pubkey in s.whitelist.value
  }

  /** Its balance can be read: there is an account, and it is not in debt. */
  predicate InGoodOrder(b: Books, pubkey: string) {
    pubkey in b.accounts && b.accounts[pubkey].balance >= 0
  }

  predicate CanPay(s: Settings, b: Books, pubkey: string) {
    pubkey in b.accounts && b.accounts[pubkey].admitted && b.accounts[pubkey].balance >= 0
    && b.accounts[pubkey].balance >= s.costPerEvent
  }

  /** Listed, or free for all, or admitted and able to pay. */
  predicate AuthorIsWelcome(s: Settings, b: Books, e: Event) {
    OnWhitelist(s, e) || (!s.payToRelay && s.whitelist.None?) || (s.payToRelay && CanPay(s, b, e.pubkey))
  }

  /** It reaches the write, or need not be written. */
  predicate LetThrough(s: Settings, st: State, e: Event, permitted: bool) {
    KindIsOpen(s, e.kind) && AuthorIsWelcome(s, st.books, e) && permitted
  }

  predicate IsSent(s: Settings, st: State, e: Event, permitted: bool) {
    LetThrough(s, st, e, permitted)
    && ((20000 <= e.kind && e.kind <= 29999) || Persist(st.db, e).outcome == Wrote(1))
  }

  /** The event goes out exactly when it is let through and is ephemeral or was written. */
  lemma SentExactly(s: Settings, st: State, e: Event, permitted: bool)
    ensures Processed(s, st, e, permitted).state.broadcast
         == st.broadcast + if IsSent(s, st, e, permitted) then [e] else []
  {
    assert st.broadcast + [] == st.broadcast;
  }

  /** What the author is told, case by case. */
  lemma ToldExactly(s: Settings, st: State, e: Event, permitted: bool)
    ensures
      var notice := Processed(s, st, e, permitted).notice;
      if !KindIsOpen(s, e.kind) then notice == Blocked
      else if !OnWhitelist(s, e) && !s.payToRelay && s.whitelist.Some? then notice == Blocked
      else if !OnWhitelist(s, e) && s.payToRelay && !InGoodOrder(st.books, e.pubkey) then notice == Error
      else if !OnWhitelist(s, e) && s.payToRelay && !CanPay(s, st.books, e.pubkey) then notice == Blocked
      else if !permitted then notice == Blocked
      else if 20000 <= e.kind && e.kind <= 29999 then notice == Saved
      else
        match Persist(st.db, e).outcome
        case Failed => notice == Error
        case Wrote(n) => notice == if n == 1 then Saved else Duplicate
  {
    RowsAreZeroOrOne(st.db, e);
  }

  /** The tables change only by the write of an event that is let through and is not ephemeral. */
  lemma WrittenExactly(s: Settings, st: State, e: Event, permitted: bool)
    ensures Processed(s, st, e, permitted).state.db
         == if LetThrough(s, st, e, permitted) && !(20000 <= e.kind && e.kind <= 29999) then Persist(st.db, e).db
            else st.db
  {
  }

  /** The account is charged the cost exactly for an event that is sent and whose author is not listed. */
  lemma PaidExactly(s: Settings, st: State, e: Event, permitted: bool)
    ensures
      var books := Processed(s, st, e, permitted).state.books;
      if IsSent(s, st, e, permitted) && s.payToRelay && !OnWhitelist(s, e) then
        e.pubkey in st.books.accounts
        && books.accounts == st.books.accounts[e.pubkey :=
             Account(true, st.books.accounts[e.pubkey].balance - s.costPerEvent)]
        && books.invoices == st.books.invoices
      else books == st.books
  {
  }
}
