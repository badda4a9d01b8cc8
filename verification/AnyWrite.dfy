/** One write transaction, for any submission that passed the relay's checks: what moves in the view of the tables. */
module AnyWrite {
  import opened Wrappers
  import opened Hex
  import opened Events
  import opened Store
  import opened StoreInvariants
  import opened Slots
  import opened Refinement
  import opened StoreEdges
  import opened Occupancy

  /** A submission that goes through: what is inserted, and what is left after the sweep. */
  predicate Accepted(db: Db, e: Event, hash: Blob, author: Blob) {
    Decode(e.id) == Some(hash) && Decode(e.pubkey) == Some(author) && !IsDuplicate(db, hash) && !Shadowed(db, e)
  }

  lemma NewcomerLeads(db: Db, e: Event, hash: Blob, author: Blob)
    requires Mirror(db) && Accepted(db, e, hash, author)
    ensures Mirror(Inserted(db, e, hash, author))
    ensures Leads(Inserted(db, e, hash, author), e, NextRowId(db.events))
  {
    InsertedMirror(db, e, hash, author);
    ShadowedIsBarred(db, e);
    var db1, id := Inserted(db, e, hash, author), NextRowId(db.events);
    forall q | q in db1.events && q != id && Sits(db1.events[q].content, LookupSlot(e))
      ensures db1.events[q].content.createdAt < e.createdAt
    {
      ViewRow(db, q);
      assert !Bars(db.events[q].content, e);
    }
  }

  /** Row `r` goes out in the sweep. */
  predicate GoesOut(db: Db, e: Event, hash: Blob, author: Blob, r: nat) {
    r !in Swept(Inserted(db, e, hash, author), e).events
  }

  lemma ReplaceableGoesOut(db: Db, e: Event, hash: Blob, author: Blob, r: nat)
    requires Mirror(db) && Accepted(db, e, hash, author) && IsReplaceable(e) && r in db.events
    ensures GoesOut(db, e, hash, author, r) <==> Ousts(e, db.events[r].content)
  {
    var db1, id := Inserted(db, e, hash, author), NextRowId(db.events);
    NewcomerLeads(db, e, hash, author);
    ReplaceableShadowMeaning(db, e);
    NewcomerIsNewest(db, e, hash, author);
    SweepReplaceable(db1, id);
    assert GoesOut(db, e, hash, author, r) <==> r in Rivals(db1, id);
    RivalIsOusted(db.events[r].content, e);
    if SameSlot(db.events[r].content, e) { assert r in Rivals(db1, id); }
  }

  lemma RivalIsOusted(x: Event, e: Event)
    requires IsReplaceable(e)
    ensures SameSlot(x, e) <==> Sits(x, LookupSlot(e))
    ensures Owns(e)
  {
  }

  lemma ParamGoesOut(db: Db, e: Event, hash: Blob, author: Blob, r: nat)
    requires IsParamReplaceable(e) && r in db.events
    ensures GoesOut(db, e, hash, author, r) <==> r in Older(Inserted(db, e, hash, author), e)
  {
  }

  lemma NothingGoesOut(db: Db, e: Event, hash: Blob, author: Blob, r: nat)
    requires !IsReplaceable(e) && !IsParamReplaceable(e) && r in db.events
    ensures !GoesOut(db, e, hash, author, r) && LookupSlot(e) == NoSlot
  {
  }

  lemma OnlyOustedGoOut(db: Db, e: Event, hash: Blob, author: Blob, r: nat)
    requires Mirror(db) && Accepted(db, e, hash, author) && r in db.events
    requires GoesOut(db, e, hash, author, r)
    ensures Ousts(e, db.events[r].content) || Squeezed(View(db), e, db.events[r].content)
  {
    var db1, id := Inserted(db, e, hash, author), NextRowId(db.events);
    if IsReplaceable(e) {
      ReplaceableGoesOut(db, e, hash, author, r);
    } else if IsParamReplaceable(e) {
      NewcomerLeads(db, e, hash, author);
      ParamGoesOut(db, e, hash, author, r);
      RemovedIsOusted(db1, e, id, r);
      if SqueezedIn(db1, e, id, db.events[r].content) {
        var q :| q in db1.events && q != id && Squeezes(e, db1.events[q].content, db.events[r].content);
        ViewRow(db, q);
      }
    } else {
      NothingGoesOut(db, e, hash, author, r);
    }
  }

  lemma OustedGoOut(db: Db, e: Event, hash: Blob, author: Blob, r: nat)
    requires Mirror(db) && Accepted(db, e, hash, author) && r in db.events && Ousts(e, db.events[r].content)
    ensures GoesOut(db, e, hash, author, r)
  {
    if IsReplaceable(e) {
      ReplaceableGoesOut(db, e, hash, author, r);
    } else {
      NewcomerLeads(db, e, hash, author);
      ParamGoesOut(db, e, hash, author, r);
      OustedIsRemoved(Inserted(db, e, hash, author), e, NextRowId(db.events), r);
    }
  }

  lemma SqueezedGoOut(db: Db, e: Event, hash: Blob, author: Blob, q: nat, r: nat)
    requires Mirror(db) && Accepted(db, e, hash, author) && q in db.events && r in db.events
    requires Squeezes(e, db.events[q].content, db.events[r].content)
    requires db.events[r].content.createdAt < db.events[q].content.createdAt || RowsBefore(db, q, r)
    ensures GoesOut(db, e, hash, author, r)
  {
    var db1, id := Inserted(db, e, hash, author), NextRowId(db.events);
    NewcomerLeads(db, e, hash, author);
    ParamGoesOut(db, e, hash, author, r);
    InsertTagsKeeps(db.tags, id, e, |e.tags|);
    SqueezedIsRemoved(db1, e, q, r);
  }

  // ---- the tables after the write -----------------------------------------------------

  function SweptAfter(db: Db, e: Event, hash: Blob, author: Blob): Db {
    Swept(Inserted(db, e, hash, author), e)
  }

  function WrittenDb(db: Db, e: Event, hash: Blob, author: Blob): Db {
    Hidden(SweptAfter(db, e, hash, author), e, NextRowId(db.events)).db
  }

  lemma SweptRow(db: Db, e: Event, hash: Blob, author: Blob, r: nat)
    requires r in SweptAfter(db, e, hash, author).events
    ensures SweptAfter(db, e, hash, author).events[r] == Inserted(db, e, hash, author).events[r]
    ensures r == NextRowId(db.events) || r in db.events
  {
    SweptKeepsRows(Inserted(db, e, hash, author), e, r);
  }

  lemma DeletionsStayIn(db: Db, e: Event, hash: Blob, author: Blob, k: Event)
    requires Mirror(db) && Accepted(db, e, hash, author) && Hideable(e.kind) && k.kind == DELETION
    ensures k in Contents(SweptAfter(db, e, hash, author)) <==> k in Contents(db)
  {
    var swept := SweptAfter(db, e, hash, author);
    if k in Contents(swept) {
      var r :| r in swept.events && swept.events[r].content == k;
      SweptRow(db, e, hash, author, r);
    }
    if k in Contents(db) {
      var r :| r in db.events && db.events[r].content == k;
      if GoesOut(db, e, hash, author, r) {
        OnlyOustedGoOut(db, e, hash, author, r);
      }
      SweptRow(db, e, hash, author, r);
    }
  }

  lemma DeletionsAreSeen(db: Db, e: Event, hash: Blob, author: Blob)
    requires Mirror(db) && Accepted(db, e, hash, author) && Hideable(e.kind)
    ensures AlreadyDeleted(SweptAfter(db, e, hash, author), e) <==> DeletedOn(View(db), e)
  {
    var swept := SweptAfter(db, e, hash, author);
    InsertedMirror(db, e, hash, author);
    SweptMirror(Inserted(db, e, hash, author), e);
    ViewDeleted(swept, e);
    forall k | DeletesByText(k, e) ensures k in View(swept) <==> k in View(db) {
      DeletionsStayIn(db, e, hash, author, k);
    }
  }

  lemma OldRowAfter(db: Db, e: Event, hash: Blob, author: Blob, r: nat)
    requires Mirror(db) && Accepted(db, e, hash, author) && r in db.events && !GoesOut(db, e, hash, author, r)
    ensures
      var after := WrittenDb(db, e, hash, author);
      r in after.events && after.events[r].content == db.events[r].content
      && after.events[r].hidden == (db.events[r].hidden || Deletes(e, db.events[r].content))
  {
    SweptRow(db, e, hash, author, r);
    HiddenSameButHidden(SweptAfter(db, e, hash, author), e, NextRowId(db.events));
    assert RowFaithful(db.events[r]);
    if e.kind == DELETION { HidMeaning(db.events[r], e); }
  }

  lemma NewRowAfter(db: Db, e: Event, hash: Blob, author: Blob)
    requires Mirror(db) && Accepted(db, e, hash, author)
    ensures
      var after, id := WrittenDb(db, e, hash, author), NextRowId(db.events);
      (id in after.events <==> !RepeatsParam(e))
      && (id in after.events ==> after.events[id].content == e && after.events[id].hidden == DeletedOn(View(db), e))
  {
    var swept, id := SweptAfter(db, e, hash, author), NextRowId(db.events);
    NewcomerSurvives(db, e, hash, author);
    HiddenSameButHidden(swept, e, id);
    if id in swept.events {
      SweptRow(db, e, hash, author, id);
      if Hideable(e.kind) {
        DeletionsAreSeen(db, e, hash, author);
      } else {
        assert !DeletedOn(View(db), e);
      }
    }
  }

  lemma RowsAfter(db: Db, e: Event, hash: Blob, author: Blob, r: nat)
    requires r in WrittenDb(db, e, hash, author).events
    ensures r == NextRowId(db.events) || (r in db.events && !GoesOut(db, e, hash, author, r))
  {
    HiddenSameButHidden(SweptAfter(db, e, hash, author), e, NextRowId(db.events));
    SweptRow(db, e, hash, author, r);
  }

  // ---- the same, seen on the view ----------------------------------------------------------

  /** An event's row, if it has one. */
  lemma RowOf(db: Db, x: Event) returns (r: nat)
    requires RowsFaithful(db) && x in View(db)
    ensures r in db.events && db.events[r].content == x && View(db)[x] == db.events[r].hidden
  {
    r :| r in db.events && db.events[r].content == x;
    ViewRow(db, r);
  }

  lemma ViewAfterNew(db: Db, e: Event, hash: Blob, author: Blob)
    requires Mirror(db) && Accepted(db, e, hash, author) && Mirror(WrittenDb(db, e, hash, author))
    requires e !in View(db)
    ensures
      var v' := View(WrittenDb(db, e, hash, author));
      (e in v' <==> !RepeatsParam(e)) && (e in v' ==> v'[e] == DeletedOn(View(db), e))
  {
    var after, id := WrittenDb(db, e, hash, author), NextRowId(db.events);
    NewRowAfter(db, e, hash, author);
    if id in after.events {
      ViewRow(after, id);
    }
    if e in View(after) {
      var r := RowOf(after, e);
      RowsAfter(db, e, hash, author, r);
      if r != id {
        OldRowAfter(db, e, hash, author, r);
        ViewRow(db, r);
      }
    }
  }

  lemma ViewAfterOld(db: Db, e: Event, hash: Blob, author: Blob, x: Event)
    requires Mirror(db) && Accepted(db, e, hash, author) && Mirror(WrittenDb(db, e, hash, author))
    requires x in View(WrittenDb(db, e, hash, author)) && x != e
    ensures x in View(db) && View(WrittenDb(db, e, hash, author))[x] == (View(db)[x] || Deletes(e, x))
  {
    var after := WrittenDb(db, e, hash, author);
    var r := RowOf(after, x);
    RowsAfter(db, e, hash, author, r);
    NewRowAfter(db, e, hash, author);
    OldRowAfter(db, e, hash, author, r);
    ViewRow(db, r);
  }

  lemma ViewGone(db: Db, e: Event, hash: Blob, author: Blob, x: Event) returns (r: nat)
    requires Mirror(db) && Accepted(db, e, hash, author) && Mirror(WrittenDb(db, e, hash, author))
    requires x in View(db) && e !in View(db)
    ensures r in db.events && db.events[r].content == x
    ensures x !in View(WrittenDb(db, e, hash, author)) <==> GoesOut(db, e, hash, author, r)
  {
    var after := WrittenDb(db, e, hash, author);
    r := RowOf(db, x);
    if !GoesOut(db, e, hash, author, r) {
      OldRowAfter(db, e, hash, author, r);
      ViewRow(after, r);
    }
    if x in View(after) {
      var q := RowOf(after, x);
      RowsAfter(db, e, hash, author, q);
      NewRowAfter(db, e, hash, author);
      OldRowAfter(db, e, hash, author, q);
      assert RowFaithful(db.events[q]) && RowFaithful(db.events[r]);
    }
  }

  lemma ViewMoves(db: Db, e: Event, hash: Blob, author: Blob)
    requires Mirror(db) && Accepted(db, e, hash, author) && Mirror(WrittenDb(db, e, hash, author))
    requires e !in View(db) && Enters(View(db), e)
    ensures Moves(View(db), e, View(WrittenDb(db, e, hash, author)))
  {
    var v, v' := View(db), View(WrittenDb(db, e, hash, author));
    ViewAfterNew(db, e, hash, author);
    forall x | x in v' && x != e ensures x in v && v'[x] == (v[x] || Deletes(e, x)) {
      ViewAfterOld(db, e, hash, author, x);
    }
    forall x | x in v ensures x !in v' ==> Ousts(e, x) || Squeezed(v, e, x) {
      var r := ViewGone(db, e, hash, author, x);
      if x !in v' { OnlyOustedGoOut(db, e, hash, author, r); }
    }
    forall x | x in v && Ousts(e, x) ensures x !in v' {
      var r := ViewGone(db, e, hash, author, x);
      OustedGoOut(db, e, hash, author, r);
    }
    forall x, z | x in v && z in v && Squeezes(e, z, x) && x.createdAt < z.createdAt ensures x !in v' {
      var r := ViewGone(db, e, hash, author, x);
      var q := ViewGone(db, e, hash, author, z);
      SqueezedGoOut(db, e, hash, author, q, r);
    }
  }

  lemma PersistDecides(db: Db, e: Event)
    requires Mirror(db) && Checked(e) && NoClash(View(db), e) && forall x :: x in View(db) ==> Checked(x)
    ensures
      var hash, author := Decode(e.id).value, Decode(e.pubkey).value;
      if Enters(View(db), e) then Accepted(db, e, hash, author) && Persist(db, e).db == WrittenDb(db, e, hash, author)
      else Persist(db, e).db == db
  {
    ShadowedIsBarred(db, e);
    ViewDuplicate(db, e);
  }

  /** Refinement, for any submission that passed the checks: one SQL transaction is one such step. */
  lemma PersistMoves(db: Db, e: Event)
    requires Mirror(db) && Checked(e) && NoClash(View(db), e) && forall x :: x in View(db) ==> Checked(x)
    ensures Moves(View(db), e, View(Persist(db, e).db))
  {
    PersistDecides(db, e);
    if Enters(View(db), e) {
      PersistMirror(db, e);
      ViewMoves(db, e, Decode(e.id).value, Decode(e.pubkey).value);
    }
  }

  // ---- equal times: the later row goes out -------------------------------------------------

  lemma {:induction false} NewTagsAreLast(tags: map<nat, TagRow>, id: nat, e: Event, k: nat, t: nat, u: nat)
    requires k <= |e.tags| && t in tags && u in InsertTags(tags, id, e, k) && u !in tags
    ensures t < u
  {
    InsertTagsKeeps(tags, id, e, k - 1);
    if u in InsertTags(tags, id, e, k - 1) {
      NewTagsAreLast(tags, id, e, k - 1, t, u);
    }
  }

  lemma NewRowsAreLast(db: Db, x: Event, hash: Blob, author: Blob, q: nat)
    requires Mirror(db) && Accepted(db, x, hash, author) && q != NextRowId(db.events)
    ensures RowsBefore(WrittenDb(db, x, hash, author), q, NextRowId(db.events))
  {
    var id, after := NextRowId(db.events), WrittenDb(db, x, hash, author);
    HiddenSameButHidden(SweptAfter(db, x, hash, author), x, id);
    InsertTagsKeeps(db.tags, id, x, |x.tags|);
    OldTagsAreOthers(db);
    forall t, u | t in after.tags && u in after.tags && after.tags[t].eventId == q && after.tags[u].eventId == id
      ensures t < u
    {
      NewTagsAreLast(db.tags, id, x, |x.tags|, t, u);
    }
  }

  /** Of two events the newcomer would squeeze, of equal time, the one that came later goes. */
  lemma LaterGoesOut(db: Db, x: Event, z: Event, y: Event)
    requires Mirror(db) && Checked(x) && NoClash(View(db), x) && forall w :: w in View(db) ==> Checked(w)
    requires z in View(db) && Enters(View(db), x) && x in View(Persist(db, x).db) && z in View(Persist(db, x).db)
    requires
      var v1 := View(Persist(db, x).db);
      Checked(y) && NoClash(v1, y) && (forall w :: w in v1 ==> Checked(w)) && Enters(v1, y)
    requires Squeezes(y, z, x)
    ensures x !in View(Persist(Persist(db, x).db, y).db)
  {
    var hash, author, id := Decode(x.id).value, Decode(x.pubkey).value, NextRowId(db.events);
    PersistDecides(db, x);
    PersistMirror(db, x);
    var db1 := Persist(db, x).db;
    PersistDecides(db1, y);
    PersistMirror(db1, y);
    var r := ViewGone(db1, y, Decode(y.id).value, Decode(y.pubkey).value, x);
    var q := RowOf(db1, z);
    NewcomersRow(db, x, hash, author, r);
    NewRowsAreLast(db, x, hash, author, q);
    SqueezedGoOut(db1, y, Decode(y.id).value, Decode(y.pubkey).value, q, r);
  }

  lemma NewcomersRow(db: Db, x: Event, hash: Blob, author: Blob, r: nat)
    requires Mirror(db) && Accepted(db, x, hash, author) && x !in View(db)
    requires r in WrittenDb(db, x, hash, author).events && WrittenDb(db, x, hash, author).events[r].content == x
    ensures r == NextRowId(db.events)
  {
    RowsAfter(db, x, hash, author, r);
    if r != NextRowId(db.events) {
      OldRowAfter(db, x, hash, author, r);
      ViewRow(db, r);
    }
  }
}
