/**
 What the store keeps of each kind, by number. Nothing here is said through the relay's own tests for kinds
 (`is_replaceable` and the others in src/event.rs): the kinds are listed.
 */
module KindRules {
  import opened Wrappers
  import opened Hex
  import opened Events
  import opened Store
  import opened StoreInvariants
  import opened Slots
  import opened Refinement
  import opened StoreEdges
  import opened Occupancy
  import opened AnyWrite
  import opened AnySlots
  import opened AnyOrder
  import opened ExpiryRules

  // ---- three groups of kinds ---------------------------------------------------------

  /** Profiles, contact lists, channel metadata and the range set aside for such. */
  predicate OnePerAuthor(kind: nat) {
    kind == 0 || kind == 3 || kind == 41 || (10000 <= kind && kind <= 19999)
  }

  predicate OnePerValue(kind: nat) {
    30000 <= kind && kind <= 39999
  }

  predicate SameAuthorAndKind(x: Event, y: Event) {
    Decode(x.pubkey) == Decode(y.pubkey) && x.kind == y.kind
  }

  /** Its one `d` tag has this value. */
  predicate OneD(x: Event, v: string) {
    exists i :: 0 <= i < |x.tags| && |x.tags[i]| > 1 && x.tags[i][0] == "d" && x.tags[i][1] == v && OnlyD(x, i)
  }

  predicate OnlyD(x: Event, i: nat) {
    forall j :: 0 <= j < |x.tags| && j != i ==> x.tags[j] == [] || x.tags[j][0] != "d"
  }

  /** Its numbers are below 2^63. */
  ghost predicate Fits(e: Event) {
    e.createdAt < 9223372036854775808 && e.kind < 9223372036854775808
    && forall t: nat :: ExpiresAt(e, t) ==> t < 9223372036854775808
  }

  lemma FitsMeans(e: Event)
    ensures Fits(e) <==> Storable(e)
  {
    if Expiration(e).Some? { ExpirationMeans(e, Expiration(e).value); }
    forall t: nat | ExpiresAt(e, t) ensures Expiration(e) == Some(t) { ExpirationMeans(e, t); }
  }

  // ---- one row -------------------------------------------------------------------------

  /** In every run, one row per author and kind. */
  lemma OneRowPerAuthor(ops: seq<Op>, r: nat, q: nat)
    requires r in Run(EMPTY, ops).events && q in Run(EMPTY, ops).events
    requires
      var x, y := Run(EMPTY, ops).events[r].content, Run(EMPTY, ops).events[q].content;
      OnePerAuthor(x.kind) && SameAuthorAndKind(x, y)
    ensures r == q
  {
    OneReplaceableRow(ops, r, q);
  }

  lemma OneDSits(x: Event, v: string)
    requires OnePerValue(x.kind) && OneD(x, v)
    ensures Tidy(x) && Sits(x, Param(Decode(x.pubkey), x.kind, v))
    ensures LookupSlot(x) == Param(Decode(x.pubkey), x.kind, v)
  {
    var i :| 0 <= i < |x.tags| && |x.tags[i]| > 1 && x.tags[i][0] == "d" && x.tags[i][1] == v && OnlyD(x, i);
    assert HasTag(x.tags, "d", v);
    FirstValueAt(x.tags, "d", i);
  }

  /** In every run, one row per author, kind and value of the single `d` tag. */
  lemma OneRowPerValue(ops: seq<Op>, r: nat, q: nat, v: string)
    requires r in Run(EMPTY, ops).events && q in Run(EMPTY, ops).events
    requires
      var x, y := Run(EMPTY, ops).events[r].content, Run(EMPTY, ops).events[q].content;
      OnePerValue(x.kind) && SameAuthorAndKind(x, y) && OneD(x, v) && OneD(y, v)
    ensures r == q
  {
    var x, y := Run(EMPTY, ops).events[r].content, Run(EMPTY, ops).events[q].content;
    OneDSits(x, v);
    OneDSits(y, v);
    OneTidyRow(ops, r, q, Param(Decode(x.pubkey), x.kind, v));
  }

  // ---- the newest -------------------------------------------------------------------------

  /** Without expiry, that row is as new as anything submitted by the author with the kind. */
  lemma NewestPerAuthor(evs: seq<Event>, y: Event)
    requires Submitted(evs) && y in evs && OnePerAuthor(y.kind) && Fits(y)
    ensures exists x :: x in V(evs) && SameAuthorAndKind(x, y)
    ensures forall x :: x in V(evs) && SameAuthorAndKind(x, y) ==> x in evs && x.createdAt >= y.createdAt
  {
    var slot := Replaceable(Decode(y.pubkey), y.kind);
    FitsMeans(y);
    assert forall x :: Sits(x, slot) <==> SameAuthorAndKind(x, y);
    NewestIsHeld(evs, slot, y);
  }

  /** Every event of this author and kind that states the value has no other `d` tag. */
  predicate OneDEach(evs: seq<Event>, y: Event, v: string) {
    forall x :: x in evs && SameAuthorAndKind(x, y) && HasTag(x.tags, "d", v) ==> OneD(x, v)
  }

  /** The same, for each value of the single `d` tag. */
  lemma NewestPerValue(evs: seq<Event>, y: Event, v: string)
    requires Submitted(evs) && y in evs && OnePerValue(y.kind) && Fits(y) && OneD(y, v) && OneDEach(evs, y, v)
    ensures exists x :: x in V(evs) && SameAuthorAndKind(x, y) && OneD(x, v)
    ensures forall x :: x in V(evs) && SameAuthorAndKind(x, y) && OneD(x, v) ==> x in evs && x.createdAt >= y.createdAt
  {
    var slot := Param(Decode(y.pubkey), y.kind, v);
    FitsMeans(y);
    OneDSits(y, v);
    forall x | x in evs && Sits(x, slot) ensures Tidy(x) && OneD(x, v) { OneDSits(x, v); }
    NewestIsHeld(evs, slot, y);
    forall x | x in V(evs) && SameAuthorAndKind(x, y) && OneD(x, v) ensures Sits(x, slot) { OneDSits(x, v); }
  }

  // ---- everything else stays -------------------------------------------------------------------

  predicate KeptForGood(kind: nat) {
    !OnePerAuthor(kind) && !OnePerValue(kind)
  }

  lemma OthersStay(db: Db, e: Event, r: nat)
    requires Mirror(db) && r in db.events && KeptForGood(db.events[r].content.kind)
    ensures r in Persist(db, e).db.events && Persist(db, e).db.events[r].content == db.events[r].content
  {
    PersistShape(db, e);
    if Persist(db, e).db != db {
      var hash, author := Decode(e.id).value, Decode(e.pubkey).value;
      if GoesOut(db, e, hash, author, r) { OnlyOustedGoOut(db, e, hash, author, r); }
      OldRowAfter(db, e, hash, author, r);
    }
  }

  /** No sweep in these steps comes when the event has expired. */
  ghost predicate NeverExpires(e: Event, ops: seq<Op>) {
    forall i :: 0 <= i < |ops| && ops[i].ExpireOp? ==> UnexpiredAt(e, ops[i].now)
  }

  lemma {:induction false} StoredRowStays(before: seq<Op>, ops: seq<Op>, r: nat)
    requires r in Run(EMPTY, before).events && KeptForGood(Run(EMPTY, before).events[r].content.kind)
    requires NeverExpires(Run(EMPTY, before).events[r].content, ops)
    ensures r in Run(EMPTY, before + ops).events
    ensures Run(EMPTY, before + ops).events[r].content == Run(EMPTY, before).events[r].content
    decreases |ops|
  {
    if ops == [] {
      assert before + ops == before;
    } else {
      var front, op := ops[..|ops| - 1], ops[|ops| - 1];
      assert before + ops == (before + front) + [op];
      StoredRowStays(before, front, r);
      RunMirror(before + front);
      match op
      case PersistOp(e) =>
        RunConcat(EMPTY, before + front, [op]);
        RunOne(Run(EMPTY, before + front), op);
        OthersStay(Run(EMPTY, before + front), e, r);
      case ExpireOp(now) =>
        assert UnexpiredAt(Run(EMPTY, before).events[r].content, now);
        SweepExactly(before + front, now, r);
    }
  }

  lemma StoredAtOnce(db: Db, e: Event) returns (r: nat)
    requires Mirror(db) && KeptForGood(e.kind) && Checked(e) && Fits(e) && IdIsOwn(db, e)
    ensures r in Persist(db, e).db.events && Persist(db, e).db.events[r].content == e
  {
    var hash, author := Decode(e.id).value, Decode(e.pubkey).value;
    FitsMeans(e);
    ShadowedIsBarred(db, e);
    if IsDuplicate(db, hash) {
      r :| r in db.events && db.events[r].hash == hash;
    } else {
      r := NextRowId(db.events);
      NewRowAfter(db, e, hash, author);
    }
  }

  /** Any other event, once submitted, stays stored until it expires, whatever comes before and after it. */
  lemma AllElseStays(before: seq<Op>, e: Event, after: seq<Op>)
    requires KeptForGood(e.kind) && Checked(e) && Fits(e) && IdIsOwn(Run(EMPTY, before), e) && NeverExpires(e, after)
    ensures
      var db := Run(EMPTY, before + [PersistOp(e)] + after);
      exists r :: r in db.events && db.events[r].content == e
  {
    RunMirror(before);
    RunConcat(EMPTY, before, [PersistOp(e)]);
    RunOne(Run(EMPTY, before), PersistOp(e));
    var r := StoredAtOnce(Run(EMPTY, before), e);
    StoredRowStays(before + [PersistOp(e)], after, r);
  }

  /** An event with a number that does not fit is never written: the write fails, or a rival turns it away. */
  lemma UnfitIsRefused(db: Db, e: Event)
    requires !Fits(e)
    ensures Persist(db, e).db == db && Persist(db, e).outcome != Wrote(1)
  {
    FitsMeans(e);
  }

  /** The write ends in a database error for a number out of range, unless a rival was found first. */
  lemma FailsExactly(db: Db, e: Event)
    ensures Persist(db, e).outcome.Failed? <==>
      e.createdAt >= 9223372036854775808 || e.kind >= 9223372036854775808
      || (!Shadowed(db, e) && exists t: nat :: ExpiresAt(e, t) && t >= 9223372036854775808)
  {
    if Expiration(e).Some? { ExpirationMeans(e, Expiration(e).value); }
    forall t: nat | ExpiresAt(e, t) ensures Expiration(e) == Some(t) { ExpirationMeans(e, t); }
  }
}
