/** Gift wraps (kind 1059) outlive everything the store does later. */
module GiftWraps {
  import opened Wrappers
  import opened Hex
  import opened Events
  import opened Store
  import opened StoreInvariants
  import opened StoreEdges
  import opened Admission

  /** A gift wrap without an expiry time. */
  predicate Lasting(row: EventRow) {
    row.kind == GIFT_WRAP && row.expiresAt == None
  }

  lemma SweepSparesWraps(db: Db, e: Event, r: nat)
    requires r in db.events && Lasting(db.events[r])
    ensures r in Swept(db, e).events && Swept(db, e).events[r] == db.events[r]
  {
  }

  lemma HidingSparesWraps(db: Db, e: Event, id: nat, r: nat)
    requires r in db.events && Lasting(db.events[r]) && r != id
    ensures r in Hidden(db, e, id).db.events && Hidden(db, e, id).db.events[r] == db.events[r]
  {
  }

  /** No write and no expiry sweep touches the row, whatever the event or the clock. */
  lemma StepSparesWraps(db: Db, op: Op, r: nat)
    requires r in db.events && Lasting(db.events[r])
    ensures r in Apply(db, op).events && Apply(db, op).events[r] == db.events[r]
  {
    match op
    case ExpireOp(now) =>
    case PersistOp(e) =>
      PersistShape(db, e);
      if Persist(db, e).db != db {
        var db1, id := Inserted(db, e, Decode(e.id).value, Decode(e.pubkey).value), NextRowId(db.events);
        SweepSparesWraps(db1, e, r);
        HidingSparesWraps(Swept(db1, e), e, id, r);
      }
  }

  lemma {:induction false} RunSparesWraps(db: Db, ops: seq<Op>, r: nat)
    requires r in db.events && Lasting(db.events[r])
    ensures r in Run(db, ops).events && Run(db, ops).events[r] == db.events[r]
  {
    if ops != [] {
      RunSparesWraps(db, ops[..|ops| - 1], r);
      StepSparesWraps(Run(db, ops[..|ops| - 1]), ops[|ops| - 1], r);
    }
  }

  predicate WrapsVisible(db: Db) {
    forall r :: r in db.events && db.events[r].kind == GIFT_WRAP ==> !db.events[r].hidden
  }

  lemma HidingKeepsWrapsVisible(db: Db, e: Event, id: nat)
    requires WrapsVisible(db) && (id in db.events ==> db.events[id].kind == e.kind)
    ensures WrapsVisible(Hidden(db, e, id).db)
  {
  }

  lemma PersistKeepsWrapsVisible(db: Db, e: Event)
    requires WrapsVisible(db)
    ensures WrapsVisible(Persist(db, e).db)
  {
    PersistShape(db, e);
    if Persist(db, e).db != db {
      var db1, id := Inserted(db, e, Decode(e.id).value, Decode(e.pubkey).value), NextRowId(db.events);
      var swept := Swept(db1, e);
      forall r | r in swept.events ensures swept.events[r] == db1.events[r] {
        SweptKeepsRows(db1, e, r);
      }
      HidingKeepsWrapsVisible(swept, e, id);
    }
  }

  /** In every run, deletions arriving before or after included, no gift wrap is ever hidden. */
  lemma {:induction false} RunWrapsVisible(ops: seq<Op>)
    ensures WrapsVisible(Run(EMPTY, ops))
  {
    if ops == [] {
    } else {
      var db := Run(EMPTY, ops[..|ops| - 1]);
      RunWrapsVisible(ops[..|ops| - 1]);
      match ops[|ops| - 1]
      case PersistOp(e) => PersistKeepsWrapsVisible(db, e);
      case ExpireOp(now) =>
    }
  }

  predicate VisibleWrap(db: Db, e: Event, r: nat) {
    r in db.events && db.events[r].content == e && Lasting(db.events[r]) && !db.events[r].hidden
  }

  lemma VisibleForever(db: Db, e: Event, r: nat, ops: seq<Op>)
    requires VisibleWrap(db, e, r)
    ensures Live(Run(db, ops), e)
  {
    RunSparesWraps(db, ops, r);
  }

  /** A gift wrap that is new gets a row, and no earlier deletion hides it. */
  lemma NewWrapIsStored(db: Db, e: Event, hash: Blob, author: Blob)
    requires e.kind == GIFT_WRAP && e.createdAt < I64_LIMIT && Expiration(e) == None
    requires Decode(e.id) == Some(hash) && Decode(e.pubkey) == Some(author) && !IsDuplicate(db, hash)
    ensures VisibleWrap(Persist(db, e).db, e, NextRowId(db.events))
  {
    assert Inserted(db, e, hash, author).events[NextRowId(db.events)] == NewRow(e, hash, author);
  }

  /** An admitted gift wrap is stored at once, even when a deletion for it came first. */
  lemma WrapIsStored(db: Db, e: Event)
    requires Mirror(db) && WrapsVisible(db) && e.kind == GIFT_WRAP && SingleRecipient(e) && e.createdAt < I64_LIMIT
    requires Decode(e.id).Some? && Decode(e.pubkey).Some?
    requires IdIsOwn(db, e)
    ensures exists r :: VisibleWrap(Persist(db, e).db, e, r)
  {
    NoExpiry(e);
    var hash := Decode(e.id).value;
    if IsDuplicate(db, hash) {
      var r :| r in db.events && db.events[r].hash == hash;
      assert RowFaithful(db.events[r]) && Lasting(db.events[r]);
      StepSparesWraps(db, PersistOp(e), r);
      assert VisibleWrap(Persist(db, e).db, e, r);
    } else {
      NewWrapIsStored(db, e, hash, Decode(e.pubkey).value);
    }
  }

  lemma NoExpiry(e: Event)
    requires SingleRecipient(e)
    ensures Expiration(e) == None
  {
    assert FirstValue(e.tags[1..], "expiration") == None;
  }

  lemma WrapStored(before: seq<Op>, e: Event)
    requires e.kind == GIFT_WRAP && SingleRecipient(e) && e.createdAt < I64_LIMIT
    requires Decode(e.id).Some? && Decode(e.pubkey).Some? && IdIsOwn(Run(EMPTY, before), e)
    ensures exists r :: VisibleWrap(Run(EMPTY, before + [PersistOp(e)]), e, r)
  {
    var db := Run(EMPTY, before);
    RunMirror(before);
    RunWrapsVisible(before);
    WrapIsStored(db, e);
    RunConcat(EMPTY, before, [PersistOp(e)]);
    RunOne(db, PersistOp(e));
  }

  /**
   Durability: whatever came before and whatever comes after, an admitted gift wrap that was
   submitted is stored and visible.
   */
  lemma GiftWrapDurable(before: seq<Op>, e: Event, after: seq<Op>, s: Settings, writer: Option<string>)
    requires e.kind == GIFT_WRAP && Allows(Pipeline(s), e, writer) && e.createdAt < I64_LIMIT
    requires Decode(e.id).Some? && Decode(e.pubkey).Some? && IdIsOwn(Run(EMPTY, before), e)
    ensures Live(Run(EMPTY, before + [PersistOp(e)] + after), e)
  {
    AdmissionExact(s, e, writer);
    WrapStored(before, e);
    var db := Run(EMPTY, before + [PersistOp(e)]);
    var r :| VisibleWrap(db, e, r);
    VisibleForever(db, e, r, after);
    RunConcat(EMPTY, before + [PersistOp(e)], after);
  }
}
