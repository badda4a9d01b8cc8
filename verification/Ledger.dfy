/** Accounts and invoices in the relay database (src/repo/sqlite.rs). Balances are signed. */
module Ledger {
  import opened Wrappers
  import Strings

  datatype Status = Unpaid | Paid | Expired

  datatype Account = Account(admitted: bool, balance: int)

  datatype Invoice = Invoice(pubkey: string, amount: nat, status: Status, createdAt: nat)

  datatype Books = Books(accounts: map<string, Account>, invoices: map<string, Invoice>)

  /** The balance column is read as an unsigned number; a negative one is an error. */
  datatype BalanceReading = NoAccount | Unreadable | Balance(admitted: bool, amount: nat)

  predicate HasAccount(b: Books, pubkey: string) {
    pubkey in b.accounts
  }

  function SetAccount(b: Books, pubkey: string, a: Account): Books {
    b.(accounts := b.accounts[pubkey := a])
  }

  /** INSERT OR IGNORE */
  function CreateAccount(b: Books, pubkey: string): Books {
    if pubkey in b.accounts then b else SetAccount(b, pubkey, Account(false, 0))
  }

  /** UPDATE account SET balance = balance + amount; no row, no effect. */
  function AddBalance(b: Books, pubkey: string, amount: int): Books {
    if pubkey in b.accounts
    then SetAccount(b, pubkey, b.accounts[pubkey].(balance := b.accounts[pubkey].balance + amount))
    else b
  }

  function Signed(positive: bool, amount: nat): int {
    if positive then amount as int else -(amount as int)
  }

  function AdmitAccount(b: Books, pubkey: string, cost: nat): Books {
    if pubkey in b.accounts
    then SetAccount(b, pubkey, Account(true, b.accounts[pubkey].balance - cost))
    else b
  }

  function GetAccountBalance(b: Books, pubkey: string): BalanceReading {
    if pubkey !in b.accounts then NoAccount
    else if b.accounts[pubkey].balance < 0 then Unreadable
    else Balance(b.accounts[pubkey].admitted, b.accounts[pubkey].balance)
  }

  /** Refused for a hash already on file or an account that does not exist. */
  function CreateInvoiceRecord(b: Books, pubkey: string, hash: string, amount: nat, status: Status, now: nat): Books {
    if hash in b.invoices || pubkey !in b.accounts then b
    else b.(invoices := b.invoices[hash := Invoice(pubkey, amount, status, now)])
  }

  /** This update moves the invoice from unpaid to paid, and so credits its account. */
  predicate Credits(b: Books, hash: string, status: Status) {
    hash in b.invoices && b.invoices[hash].status == Unpaid && status == Paid
  }

  function SetStatus(b: Books, hash: string, status: Status): Books {
    if hash in b.invoices then b.(invoices := b.invoices[hash := b.invoices[hash].(status := status)]) else b
  }

  function UpdateInvoice(b: Books, hash: string, status: Status): Books {
    if Credits(b, hash, status)
    then AddBalance(SetStatus(b, hash, status), b.invoices[hash].pubkey, b.invoices[hash].amount)
    else SetStatus(b, hash, status)
  }

  function UnpaidOf(b: Books, pubkey: string): set<string> {
    set h | h in b.invoices && b.invoices[h].pubkey == pubkey && b.invoices[h].status == Unpaid
  }

  /** ORDER BY created_at DESC LIMIT 1; equal times in order of hash. */
  function LatestOf(b: Books, hashes: set<string>): set<string>
    requires forall h :: h in hashes ==> h in b.invoices
  {
    set h | h in hashes && forall g :: g in hashes ==> b.invoices[g].createdAt <= b.invoices[h].createdAt
  }

  function GetUnpaidInvoice(b: Books, pubkey: string): (r: Option<string>)
    ensures r.Some? ==> r.value in b.invoices && b.invoices[r.value].pubkey == pubkey
    ensures r.Some? ==> b.invoices[r.value].status == Unpaid
  {
    var latest := LatestOf(b, UnpaidOf(b, pubkey));
    if latest == {} then None else Some(Strings.Least(latest))
  }

  lemma {:induction false} LatestExists(b: Books, hashes: set<string>)
    requires hashes != {} && forall h :: h in hashes ==> h in b.invoices
    ensures LatestOf(b, hashes) != {}
  {
    var x :| x in hashes;
    var rest := hashes - {x};
    if rest == {} {
      assert hashes == {x};
      assert x in LatestOf(b, hashes);
    } else {
      LatestExists(b, rest);
      var m :| m in LatestOf(b, rest);
      if b.invoices[x].createdAt >= b.invoices[m].createdAt {
        assert x in LatestOf(b, hashes);
      } else {
        assert m in LatestOf(b, hashes);
      }
    }
  }

  /** The query finds an invoice exactly when the account has an unpaid one, and then a newest. */
  lemma UnpaidInvoiceFound(b: Books, pubkey: string)
    ensures GetUnpaidInvoice(b, pubkey).None? <==>
      forall h :: h in b.invoices && b.invoices[h].status == Unpaid ==> b.invoices[h].pubkey != pubkey
    ensures GetUnpaidInvoice(b, pubkey).Some? ==>
      forall h :: h in b.invoices && b.invoices[h].status == Unpaid && b.invoices[h].pubkey == pubkey ==>
        b.invoices[h].createdAt <= b.invoices[GetUnpaidInvoice(b, pubkey).value].createdAt
  {
    assert forall h :: h in UnpaidOf(b, pubkey) <==>
      h in b.invoices && b.invoices[h].status == Unpaid && b.invoices[h].pubkey == pubkey;
    if UnpaidOf(b, pubkey) != {} {
      LatestExists(b, UnpaidOf(b, pubkey));
    }
  }

  /** Every invoice belongs to an account; the foreign key keeps it so. */
  predicate Linked(b: Books) {
    forall h :: h in b.invoices ==> b.invoices[h].pubkey in b.accounts
  }

  // ---- the repository object ------------------------------------------------------------------

  class AccountRepo {
    var accounts: map<string, Account>
    var invoices: map<string, Invoice>

    function View(): Books
      reads this
    {
      Books(accounts, invoices)
    }

    constructor ()
      ensures View() == Books(map[], map[]) && Linked(View())
    {
      accounts, invoices := map[], map[];
    }

    method Create(pubkey: string) returns (created: bool)
      requires Linked(View())
      modifies this
      ensures Linked(View()) && View() == CreateAccount(old(View()), pubkey)
      ensures created <==> !HasAccount(old(View()), pubkey)
    {
      if pubkey in accounts {
        return false;
      }
      accounts := accounts[pubkey := Account(false, 0)];
      return true;
    }

    method Admit(pubkey: string, cost: nat)
      requires Linked(View())
      modifies this
      ensures Linked(View()) && View() == AdmitAccount(old(View()), pubkey, cost)
    {
      if pubkey in accounts {
        accounts := accounts[pubkey := Account(true, accounts[pubkey].balance - cost)];
      }
    }

    method UpdateBalance(pubkey: string, positive: bool, amount: nat)
      requires Linked(View())
      modifies this
      ensures Linked(View()) && View() == AddBalance(old(View()), pubkey, Signed(positive, amount))
    {
      if pubkey in accounts {
        var a := accounts[pubkey];
        if positive {
          accounts := accounts[pubkey := a.(balance := a.balance + amount)];
        } else {
          accounts := accounts[pubkey := a.(balance := a.balance - amount)];
        }
      }
    }

    method RecordInvoice(pubkey: string, hash: string, amount: nat, status: Status, now: nat) returns (ok: bool)
      requires Linked(View())
      modifies this
      ensures Linked(View()) && View() == CreateInvoiceRecord(old(View()), pubkey, hash, amount, status, now)
      ensures ok <==> hash !in old(invoices) && pubkey in old(accounts)
    {
      if hash in invoices || pubkey !in accounts {
        return false;
      }
      invoices := invoices[hash := Invoice(pubkey, amount, status, now)];
      return true;
    }

    method Update(hash: string, status: Status) returns (owner: Option<string>)
      requires Linked(View())
      modifies this
      ensures Linked(View()) && View() == UpdateInvoice(old(View()), hash, status)
      ensures owner == if hash in old(invoices) then Some(old(invoices)[hash].pubkey) else None
    {
      if hash !in invoices {
        return None;
      }
      var before := invoices[hash];
      invoices := invoices[hash := before.(status := status)];
      if before.status == Unpaid && status == Paid {
        var a := accounts[before.pubkey];
        accounts := accounts[before.pubkey := a.(balance := a.balance + before.amount)];
      }
      return Some(before.pubkey);
    }
  }
}
