/**
 The two SQL tables refine a one-map store. Abstractly the store maps each kept event to its
 hidden flag, and a write is a single step on that map.
 */
module Refinement {
  import opened Wrappers
  import opened Hex
  import opened Events
  import opened Store
  import opened StoreInvariants
  import opened Slots

  type Shelf = map<Event, bool>

  // ---- the abstract step --------------------------------------------------------

  /** A deletion names this event's hash, in either case of hex. */
  predicate Deletes(k: Event, x: Event) {
    k.kind == DELETION && Hideable(x.kind) && Decode(k.pubkey) == Decode(x.pubkey)
    && Decode(x.id).Some? && Decode(x.id).value in DeletionTargets(k)
  }

  /** A deletion names this event's id character for character. */
  predicate DeletesByText(k: Event, x: Event) {
    k.kind == DELETION && Hideable(x.kind) && Decode(k.pubkey) == Decode(x.pubkey) && HasTag(k.tags, "e", x.id)
  }

  /** A stored `y` would turn the arriving `x` away. */
  predicate Blocks(y: Event, x: Event) {
    SlotOf(y) == LookupSlot(x) && LookupSlot(x) != NoSlot && y.createdAt >= x.createdAt
  }

  predicate OvertakenOn(shelf: Shelf, e: Event) {
    exists x :: x in shelf && Blocks(x, e)
  }

  predicate DeletedOn(shelf: Shelf, e: Event) {
    exists k :: k in shelf && DeletesByText(k, e)
  }

  /** One arrival. */
  function Step(shelf: Shelf, e: Event): Shelf {
    if e in shelf || OvertakenOn(shelf, e) then shelf else Accept(shelf, e)
  }

  /** Rivals go, deletions take effect, the newcomer comes in. */
  function Accept(shelf: Shelf, e: Event): Shelf {
    (map x | x in shelf && !SameSlot(x, e) :: shelf[x] || Deletes(e, x))[e := DeletedOn(shelf, e)]
  }

  // ---- the view of the tables -----------------------------------------------------

  function Contents(db: Db): set<Event> {
    set r | r in db.events :: db.events[r].content
  }

  predicate IsHidden(db: Db, x: Event) {
    exists r :: r in db.events && db.events[r].content == x && db.events[r].hidden
  }

  function View(db: Db): Shelf {
    map x | x in Contents(db) :: IsHidden(db, x)
  }

  /** Each event has one row, whose flag the view shows. */
  lemma ViewRow(db: Db, r: nat)
    requires RowsFaithful(db) && r in db.events
    ensures db.events[r].content in View(db) && View(db)[db.events[r].content] == db.events[r].hidden
  {
  }

  /** What the relay checks before it writes: an id of 64 lower-case digits and a hex key. */
  predicate Checked(e: Event) {
    IsKey(e.id) && Decode(e.pubkey).Some?
  }

  /** The numbers fit their columns. */
  predicate Storable(e: Event) {
    Bindable(e) && (Expiration(e).Some? ==> Expiration(e).value < I64_LIMIT)
  }

  /** Assumed of a submission here, beyond what the relay checks: numbers in range, at most one `d` tag. */
  predicate WellFormed(e: Event) {
    Checked(e) && Tidy(e) && Storable(e)
  }

  /** Equal ids mean equal events. */
  predicate NoClash(shelf: Shelf, e: Event) {
    forall x :: x in shelf && x.id == e.id ==> x == e
  }

  predicate WellFormedShelf(shelf: Shelf) {
    forall x :: x in shelf ==> WellFormed(x)
  }

  lemma ViewOvertaken(db: Db, e: Event)
    requires RowsFaithful(db)
    ensures Overtaken(db, e) <==> OvertakenOn(View(db), e)
  {
    if r :| r in db.events && SlotOf(db.events[r].content) == LookupSlot(e) && LookupSlot(e) != NoSlot &&
            db.events[r].createdAt >= e.createdAt
    {
      assert RowFaithful(db.events[r]) && db.events[r].content in View(db);
      assert Blocks(db.events[r].content, e);
    }
    if x :| x in View(db) && Blocks(x, e) {
      var r :| r in db.events && db.events[r].content == x;
      assert RowFaithful(db.events[r]);
    }
  }

  lemma ViewDuplicate(db: Db, e: Event)
    requires RowsFaithful(db) && Checked(e) && NoClash(View(db), e)
    requires forall x :: x in View(db) ==> Checked(x)
    ensures IsDuplicate(db, Decode(e.id).value) <==> e in View(db)
  {
    if r :| r in db.events && db.events[r].hash == Decode(e.id).value {
      var x := db.events[r].content;
      assert RowFaithful(db.events[r]) && x in View(db);
      DecodeInjective(x.id, e.id);
    }
    if e in View(db) {
      var r :| r in db.events && db.events[r].content == e;
      assert RowFaithful(db.events[r]);
    }
  }

  /** The query for an earlier deletion finds exactly the shelved deletions naming the text. */
  lemma ViewDeleted(db: Db, e: Event)
    requires Mirror(db) && Decode(e.pubkey).Some? && Hideable(e.kind)
    ensures AlreadyDeleted(db, e) <==> DeletedOn(View(db), e)
  {
    if t :| t in db.tags && db.tags[t].name == "e" && db.tags[t].kind == DELETION && db.tags[t].value == e.id &&
            db.tags[t].eventId in db.events && SameAuthor(db.events[db.tags[t].eventId], e.pubkey)
    {
      TagRowMeaning(db, t);
      var row := db.events[db.tags[t].eventId];
      assert RowFaithful(row) && TagFaithful(db, db.tags[t]) && row.content in View(db);
      assert DeletesByText(row.content, e);
    }
    if k :| k in View(db) && DeletesByText(k, e) {
      var r :| r in db.events && db.events[r].content == k;
      assert RowFaithful(db.events[r]);
      MirroredMeaning(db, r, "e", e.id);
      var t :| t in RowsFor(db.tags, r, "e", e.id);
      assert TagFaithful(db, db.tags[t]);
    }
  }

  // ---- the rows after a write -------------------------------------------------------

  /** The rows of a write that goes through: rivals out, newcomer in, hidden flags updated. */
  ghost predicate Wrote1(db: Db, e: Event, after: Db) {
    var id := NextRowId(db.events);
    after.events.Keys == (set r | r in db.events && !SameSlot(db.events[r].content, e)) + {id}
    && (forall r :: r in after.events && r != id ==>
          after.events[r].content == db.events[r].content
          && after.events[r].hidden == (db.events[r].hidden || Deletes(e, db.events[r].content)))
    && after.events[id].content == e && after.events[id].hidden == DeletedOn(View(db), e)
  }

  lemma HidMeaning(row: EventRow, e: Event)
    requires RowFaithful(row) && e.kind == DELETION
    ensures Hid(row, e).content == row.content
    ensures Hid(row, e).hidden == (row.hidden || Deletes(e, row.content))
  {
  }

  /** The event rows once the sweep is done. */
  ghost predicate SweptOf(db: Db, e: Event, swept: Db) {
    var id := NextRowId(db.events);
    swept.events.Keys == (set r | r in db.events && !SameSlot(db.events[r].content, e)) + {id}
    && (forall r :: r in swept.events && r != id ==> swept.events[r] == db.events[r])
    && swept.events[id].content == e && swept.events[id].kind == e.kind && !swept.events[id].hidden
  }

  lemma SweptRows(db: Db, e: Event, hash: Blob, author: Blob)
    requires Swept(Inserted(db, e, hash, author), e)
          == Delete(Inserted(db, e, hash, author), Rivals(Inserted(db, e, hash, author), NextRowId(db.events)))
    ensures SweptOf(db, e, Swept(Inserted(db, e, hash, author), e))
  {
  }

  /** Deletions are never swept away by another kind of event, so hiding sees all of them. */
  lemma SweptDeletions(db: Db, e: Event, swept: Db, k: Event)
    requires SweptOf(db, e, swept) && Hideable(e.kind) && k.kind == DELETION
    ensures k in Contents(swept) <==> k in Contents(db)
  {
  }

  lemma SweptDeleted(db: Db, e: Event, swept: Db)
    requires SweptOf(db, e, swept) && Hideable(e.kind)
    ensures DeletedOn(View(swept), e) <==> DeletedOn(View(db), e)
  {
    forall k | DeletesByText(k, e) ensures k in View(swept) <==> k in View(db) {
      SweptDeletions(db, e, swept, k);
    }
  }

  lemma HiddenRows(db: Db, e: Event, swept: Db)
    requires RowsFaithful(db) && SweptOf(db, e, swept)
    requires Hideable(e.kind) ==> (AlreadyDeleted(swept, e) <==> DeletedOn(View(db), e))
    ensures Wrote1(db, e, Hidden(swept, e, NextRowId(db.events)).db)
  {
    var id := NextRowId(db.events);
    var after := Hidden(swept, e, id).db;
    HiddenSameButHidden(swept, e, id);
    assert !Hideable(e.kind) ==> !DeletedOn(View(db), e);
    forall r | r in after.events && r != id
      ensures after.events[r].hidden == (db.events[r].hidden || Deletes(e, db.events[r].content))
    {
      assert RowFaithful(db.events[r]);
      if e.kind == DELETION { HidMeaning(db.events[r], e); }
    }
  }

  lemma WriteRows(db: Db, e: Event, hash: Blob, author: Blob)
    requires Sound(db) && WellFormed(e) && !Shadowed(db, e)
    requires Decode(e.id) == Some(hash) && Decode(e.pubkey) == Some(author) && !IsDuplicate(db, hash)
    ensures Wrote1(db, e, Hidden(Swept(Inserted(db, e, hash, author), e), e, NextRowId(db.events)).db)
  {
    PersistSweeps(db, e, hash, author);
    var swept := Swept(Inserted(db, e, hash, author), e);
    SweptRows(db, e, hash, author);
    if Hideable(e.kind) {
      ViewDeleted(swept, e);
      SweptDeleted(db, e, swept);
    }
    HiddenRows(db, e, swept);
  }

  lemma WroteMembers(db: Db, e: Event, after: Db, x: Event)
    requires Wrote1(db, e, after)
    ensures x in Contents(after) <==> x == e || (x in Contents(db) && !SameSlot(x, e))
  {
  }

  lemma WroteFlags(db: Db, e: Event, after: Db, r: nat)
    requires RowsFaithful(db) && RowsFaithful(after) && Wrote1(db, e, after) && e !in Contents(db)
    requires r in after.events
    ensures
      var x := after.events[r].content;
      IsHidden(after, x) == if x == e then DeletedOn(View(db), e) else IsHidden(db, x) || Deletes(e, x)
  {
    ViewRow(after, r);
    if r != NextRowId(db.events) {
      ViewRow(db, r);
      assert after.events[r].content in Contents(db);
    }
  }

  lemma WroteFlagAt(db: Db, e: Event, after: Db, x: Event)
    requires RowsFaithful(db) && RowsFaithful(after) && Wrote1(db, e, after) && e !in Contents(db)
    requires x in View(after) && x in Accept(View(db), e)
    ensures View(after)[x] == Accept(View(db), e)[x]
  {
    var r :| r in after.events && after.events[r].content == x;
    WroteFlags(db, e, after, r);
  }

  lemma WroteKeys(db: Db, e: Event, after: Db)
    requires Wrote1(db, e, after)
    ensures View(after).Keys == Accept(View(db), e).Keys
  {
    forall x ensures x in Contents(after) <==> x == e || (x in Contents(db) && !SameSlot(x, e)) {
      WroteMembers(db, e, after, x);
    }
  }

  lemma WroteView(db: Db, e: Event, after: Db)
    requires RowsFaithful(db) && RowsFaithful(after) && Wrote1(db, e, after)
    requires e !in Contents(db)
    ensures View(after) == Accept(View(db), e)
  {
    var v, s := View(after), Accept(View(db), e);
    WroteKeys(db, e, after);
    forall x | x in v.Keys ensures v[x] == s[x] {
      WroteFlagAt(db, e, after, x);
    }
    SameShelf(v, s);
  }

  lemma SameShelf(a: Shelf, b: Shelf)
    requires a.Keys == b.Keys && forall x :: x in a.Keys ==> a[x] == b[x]
    ensures a == b
  {
  }

  /** Refinement: seen as a map, one SQL transaction is one abstract step. */
  lemma PersistRefines(db: Db, e: Event)
    requires Sound(db) && WellFormedShelf(View(db)) && WellFormed(e) && NoClash(View(db), e)
    ensures Sound(Persist(db, e).db) && View(Persist(db, e).db) == Step(View(db), e)
  {
    PersistSound(db, e);
    ShadowMeaning(db, e);
    ViewOvertaken(db, e);
    ViewDuplicate(db, e);
    var hash, author := Decode(e.id).value, Decode(e.pubkey).value;
    if !Shadowed(db, e) && !IsDuplicate(db, hash) {
      WriteRows(db, e, hash, author);
      WroteView(db, e, Persist(db, e).db);
    }
  }
}
