/**
 One row per slot, in every run of writes and expiries, whatever `d` tags the events carry: an event's
 own slot, the one it looks up and holds, is held by no other stored event.
 */
module AnySlots {
  import opened Hex
  import opened Events
  import opened Store
  import opened StoreInvariants
  import opened Slots
  import opened Refinement
  import opened Convergence
  import opened StoreEdges
  import opened Occupancy
  import opened AnyWrite
  import opened AnyOrder

  // ---- uniqueness -----------------------------------------------------------------

  /** The holder of a slot sits in it. */
  lemma HolderSits(x: Event, e: Event)
    requires SameSlot(x, e)
    ensures Owns(e) && Sits(x, LookupSlot(e)) && SlotOf(e) == LookupSlot(e)
  {
  }

  /** A newcomer removes whatever holds its slot. */
  lemma RivalGoesOut(db: Db, e: Event, hash: Blob, author: Blob, r: nat)
    requires Mirror(db) && Accepted(db, e, hash, author) && r in db.events && SameSlot(db.events[r].content, e)
    ensures GoesOut(db, e, hash, author, r)
  {
    HolderSits(db.events[r].content, e);
    NewcomerLeads(db, e, hash, author);
    assert Inserted(db, e, hash, author).events[r] == db.events[r];
    OustedGoOut(db, e, hash, author, r);
  }

  lemma RowAfter(db: Db, e: Event, hash: Blob, author: Blob, r: nat)
    requires Mirror(db) && Accepted(db, e, hash, author) && r in WrittenDb(db, e, hash, author).events
    ensures
      var x := WrittenDb(db, e, hash, author).events[r].content;
      if r == NextRowId(db.events) then x == e
      else r in db.events && x == db.events[r].content && !SameSlot(x, e)
  {
    RowsAfter(db, e, hash, author, r);
    NewRowAfter(db, e, hash, author);
    if r != NextRowId(db.events) {
      OldRowAfter(db, e, hash, author, r);
      if SameSlot(db.events[r].content, e) { RivalGoesOut(db, e, hash, author, r); }
    }
  }

  lemma PersistKeepsSlots(db: Db, e: Event)
    requires Mirror(db) && SlotsUnique(db)
    ensures SlotsUnique(Persist(db, e).db)
  {
    PersistShape(db, e);
    if Persist(db, e).db != db {
      var hash, author := Decode(e.id).value, Decode(e.pubkey).value;
      var after := Persist(db, e).db;
      assert after == WrittenDb(db, e, hash, author);
      forall r, q | r in after.events && q in after.events
        && SameSlot(after.events[r].content, after.events[q].content)
        ensures r == q
      {
        RowAfter(db, e, hash, author, r);
        RowAfter(db, e, hash, author, q);
      }
    }
  }

  /** Slot uniqueness: in every run whatsoever, no two rows hold one slot. */
  lemma {:induction false} RunKeepsSlots(ops: seq<Op>)
    ensures SlotsUnique(Run(EMPTY, ops))
  {
    if ops != [] {
      var front, op := ops[..|ops| - 1], ops[|ops| - 1];
      RunKeepsSlots(front);
      RunMirror(front);
      match op
      case PersistOp(e) => PersistKeepsSlots(Run(EMPTY, front), e);
      case ExpireOp(now) =>
    }
  }

  /** So there is at most one row per author and replaceable kind. */
  lemma OneReplaceableRow(ops: seq<Op>, r: nat, q: nat)
    requires r in Run(EMPTY, ops).events && q in Run(EMPTY, ops).events
    requires
      var x, y := Run(EMPTY, ops).events[r].content, Run(EMPTY, ops).events[q].content;
      IsReplaceable(x) && Decode(x.pubkey) == Decode(y.pubkey) && x.kind == y.kind
    ensures r == q
  {
    RunKeepsSlots(ops);
    assert SameSlot(Run(EMPTY, ops).events[r].content, Run(EMPTY, ops).events[q].content);
  }

  /** Of two stored events that sit in one slot, at most one looks that slot up. */
  lemma OneOwner(ops: seq<Op>, r: nat, q: nat, slot: Slot)
    requires r in Run(EMPTY, ops).events && q in Run(EMPTY, ops).events && r != q
    requires
      var x, y := Run(EMPTY, ops).events[r].content, Run(EMPTY, ops).events[q].content;
      Sits(x, slot) && Sits(y, slot)
    ensures
      LookupSlot(Run(EMPTY, ops).events[r].content) != slot || LookupSlot(Run(EMPTY, ops).events[q].content) != slot
  {
    RunKeepsSlots(ops);
    var x, y := Run(EMPTY, ops).events[r].content, Run(EMPTY, ops).events[q].content;
    if LookupSlot(x) == slot == LookupSlot(y) {
      assert SameSlot(x, y);
    }
  }

  /** With one valued `d` tag, the row of an (author, kind, d) is the only one that sits there with one `d` tag. */
  lemma OneTidyRow(ops: seq<Op>, r: nat, q: nat, slot: Slot)
    requires r in Run(EMPTY, ops).events && q in Run(EMPTY, ops).events
    requires
      var x, y := Run(EMPTY, ops).events[r].content, Run(EMPTY, ops).events[q].content;
      Sits(x, slot) && Sits(y, slot) && Tidy(x) && Tidy(y)
    ensures r == q
  {
    var x, y := Run(EMPTY, ops).events[r].content, Run(EMPTY, ops).events[q].content;
    TidySitsAtHome(x, slot);
    TidySitsAtHome(y, slot);
    if r != q { OneOwner(ops, r, q, slot); }
  }

  lemma TidySitsAtHome(x: Event, slot: Slot)
    requires Sits(x, slot) && Tidy(x)
    ensures LookupSlot(x) == slot && SlotOf(x) == slot && Owns(x) && !RepeatsParam(x) && !SitsTwice(x, slot)
  {
    if IsParamReplaceable(x) { TidyDTag(x, slot.d); }
  }

  // ---- the newest of a slot -----------------------------------------------------------

  /** All submitted events that sit in the slot have one `d` tag. */
  predicate TidyIn(evs: seq<Event>, slot: Slot) {
    forall x :: x in evs && Sits(x, slot) ==> Tidy(x)
  }

  /** The slot is held by an event at least as new. */
  predicate HeldSince(v: Shelf, slot: Slot, stamp: nat) {
    exists x :: x in v && Sits(x, slot) && x.createdAt >= stamp
  }

  predicate OneSitter(v: Shelf, slot: Slot) {
    forall x, y :: x in v && y in v && Sits(x, slot) && Sits(y, slot) ==> x == y
  }

  lemma OneSitterStored(evs: seq<Event>, slot: Slot)
    requires Submitted(evs) && TidyIn(evs, slot)
    ensures OneSitter(V(evs), slot)
  {
    AllWithin(evs);
    var db := StoreOf(evs);
    forall x, y | x in V(evs) && y in V(evs) && Sits(x, slot) && Sits(y, slot) ensures x == y {
      var r := RowOf(db, x);
      var q := RowOf(db, y);
      OneTidyRow(Persists(evs), r, q, slot);
    }
  }

  /** A move leaves the slot held at least as new, and a newcomer that sits there holds it or finds it held. */
  lemma MoveHolds(v: Shelf, e: Event, v': Shelf, slot: Slot, stamp: nat)
    requires Moves(v, e, v') && OneSitter(v, slot)
    requires forall x :: (x in v || x == e) && Sits(x, slot) ==> Tidy(x)
    requires HeldSince(v, slot, stamp) || (Sits(e, slot) && Storable(e) && e.createdAt >= stamp)
    ensures HeldSince(v', slot, stamp)
  {
    if Sits(e, slot) { TidySitsAtHome(e, slot); }
    if HeldSince(v, slot, stamp) {
      var x :| x in v && Sits(x, slot) && x.createdAt >= stamp;
      TidySitsAtHome(x, slot);
      if x !in v' { HolderIsOusted(v, e, v', slot, x); }
    }
  }

  lemma HolderIsOusted(v: Shelf, e: Event, v': Shelf, slot: Slot, x: Event)
    requires Moves(v, e, v') && OneSitter(v, slot) && x in v && x !in v' && Sits(x, slot) && Tidy(x)
    requires Sits(e, slot) ==> Tidy(e)
    ensures e in v' && Sits(e, slot) && e.createdAt > x.createdAt
  {
    TidySitsAtHome(x, slot);
    TidySitsAtHome(x, LookupSlot(e));
    if Owns(e) { TidySitsAtHome(e, slot); }
  }

  lemma {:induction false} SlotIsHeld(evs: seq<Event>, slot: Slot, y: Event)
    requires Submitted(evs) && TidyIn(evs, slot) && y in evs && Sits(y, slot) && Storable(y)
    ensures HeldSince(V(evs), slot, y.createdAt)
  {
    var front, e := evs[..|evs| - 1], evs[|evs| - 1];
    assert evs == front + [e];
    SubmittedFront(evs, |front|);
    RunMoves(front, e);
    OneSitterStored(front, slot);
    if y in front { SlotIsHeld(front, slot, y); }
    MoveHolds(V(front), e, V(evs), slot, y.createdAt);
  }

  /**
   Without expiry, a slot to which only events with one `d` tag were submitted holds one event, as new as any of them,
   whatever else the run brought.
   */
  lemma NewestIsHeld(evs: seq<Event>, slot: Slot, y: Event)
    requires Submitted(evs) && TidyIn(evs, slot) && y in evs && Sits(y, slot) && Storable(y)
    ensures exists x :: x in V(evs) && Sits(x, slot)
    ensures forall x :: x in V(evs) && Sits(x, slot) ==> x in evs && x.createdAt >= y.createdAt
  {
    SlotIsHeld(evs, slot, y);
    OneSitterStored(evs, slot);
    AllWithin(evs);
    var z :| z in V(evs) && Sits(z, slot) && z.createdAt >= y.createdAt;
    assert forall x :: x in V(evs) && Sits(x, slot) ==> x == z;
  }
}
