/**
 Replaceable slots. An event of a replaceable kind competes with its author's other events of
 that kind; one of a parameterized kind competes with those that also share its `d` value.
 */
module Slots {
  import opened Wrappers
  import opened Hex
  import opened Events
  import opened Store
  import opened StoreInvariants

  datatype Slot =
    | NoSlot
    | Replaceable(author: Option<Blob>, kind: nat)
    | Param(author: Option<Blob>, kind: nat, d: string)

  /** A parameterized event whose `d` value stands in a tag, and so in the tag table. */
  predicate Explicit(e: Event) {
    IsParamReplaceable(e) && HasTag(e.tags, "d", DistinctParam(e).value)
  }

  /** The slot in which an event can be found and replaced. */
  function SlotOf(e: Event): Slot {
    if IsReplaceable(e) then Replaceable(Decode(e.pubkey), e.kind)
    else if Explicit(e) then Param(Decode(e.pubkey), e.kind, DistinctParam(e).value)
    else NoSlot
  }

  /** The slot consulted before an event is written; an implicit `d` is looked up as the empty string. */
  function LookupSlot(e: Event): Slot {
    if IsReplaceable(e) then Replaceable(Decode(e.pubkey), e.kind)
    else if IsParamReplaceable(e) then Param(Decode(e.pubkey), e.kind, DistinctParam(e).value)
    else NoSlot
  }

  predicate SameSlot(x: Event, y: Event) {
    SlotOf(x) == SlotOf(y) && SlotOf(x) != NoSlot
  }

  /** At most one `d` tag on an event of a parameterized kind. */
  predicate Tidy(e: Event) {
    IsParamReplaceable(e) ==> AtMostOneTag(e.tags, "d")
  }

  predicate TidyDb(db: Db) {
    forall r :: r in db.events ==> Tidy(db.events[r].content)
  }

  predicate SlotsUnique(db: Db) {
    forall r, q :: r in db.events && q in db.events && SameSlot(db.events[r].content, db.events[q].content) ==> r == q
  }

  // ---- the shadow check -------------------------------------------------------

  /** A tidy event has the tag (d, value) exactly when it is the explicit holder of that value. */
  lemma TidyDTag(e: Event, d: string)
    requires IsParamReplaceable(e) && Tidy(e)
    ensures HasTag(e.tags, "d", d) <==> Explicit(e) && DistinctParam(e) == Some(d)
    ensures CountTag(e.tags, "d", d) <= 1
  {
    FirstValueUnique(e.tags, "d", d);
    CountTagAtMostOne(e.tags, "d", d);
  }

  /** The join behind a parameterized slot holds the tag rows of the events in that slot. */
  lemma SlotRowsMeaning(db: Db, pubkey: string, kind: nat, d: string, t: nat)
    requires Mirror(db) && TidyDb(db) && IsParamKind(kind)
    requires t in SlotRows(db, pubkey, kind, d)
    ensures SlotOf(db.events[db.tags[t].eventId].content) == Param(Decode(pubkey), kind, d)
    ensures db.tags[t].createdAt == db.events[db.tags[t].eventId].createdAt
    ensures t in RowsFor(db.tags, db.tags[t].eventId, "d", d)
  {
    TagRowMeaning(db, t);
    var row := db.events[db.tags[t].eventId];
    assert RowFaithful(row) && TagFaithful(db, db.tags[t]) && Tidy(row.content);
    TidyDTag(row.content, d);
  }

  /** ... of all of them. */
  lemma SlotRowsComplete(db: Db, pubkey: string, kind: nat, d: string, r: nat)
    requires Mirror(db) && r in db.events
    requires SlotOf(db.events[r].content) == Param(Decode(pubkey), kind, d)
    ensures exists t :: t in SlotRows(db, pubkey, kind, d) && db.tags[t].eventId == r
  {
    assert RowFaithful(db.events[r]);
    MirroredMeaning(db, r, "d", d);
    var t :| t in RowsFor(db.tags, r, "d", d);
    assert t in SlotRows(db, pubkey, kind, d);
  }

  /** A rival at least as new is stored in the slot that a newcomer looks up. */
  predicate Overtaken(db: Db, e: Event) {
    exists r :: r in db.events && SlotOf(db.events[r].content) == LookupSlot(e)
      && LookupSlot(e) != NoSlot && db.events[r].createdAt >= e.createdAt
  }

  lemma ReplaceableShadowMeaning(db: Db, e: Event)
    requires Mirror(db) && IsReplaceable(e)
    ensures ReplaceableShadow(db, e) <==> Overtaken(db, e)
  {
  }

  lemma ParamShadowMeaning(db: Db, e: Event)
    requires Mirror(db) && TidyDb(db) && IsParamReplaceable(e)
    ensures ParamShadow(db, e, DistinctParam(e).value) <==> Overtaken(db, e)
  {
    var d := DistinctParam(e).value;
    if t :| t in SlotRows(db, e.pubkey, e.kind, d) && db.events[db.tags[t].eventId].createdAt >= e.createdAt {
      SlotRowsMeaning(db, e.pubkey, e.kind, d, t);
      var r := db.tags[t].eventId;
      assert SlotOf(db.events[r].content) == LookupSlot(e);
    }
    if r :| r in db.events && SlotOf(db.events[r].content) == LookupSlot(e) && db.events[r].createdAt >= e.createdAt {
      SlotRowsComplete(db, e.pubkey, e.kind, d, r);
    }
  }

  /** The two shadow queries ask one question. */
  lemma ShadowMeaning(db: Db, e: Event)
    requires Mirror(db) && TidyDb(db)
    ensures Shadowed(db, e) <==> Overtaken(db, e)
  {
    if IsReplaceable(e) {
      ReplaceableShadowMeaning(db, e);
    } else if IsParamReplaceable(e) {
      ParamShadowMeaning(db, e);
    }
  }

  // ---- the sweep --------------------------------------------------------------

  /** The other rows in the slot of row `id`. */
  function Rivals(db: Db, id: nat): set<nat>
    requires id in db.events
  {
    set r | r in db.events && r != id && SameSlot(db.events[r].content, db.events[id].content)
  }

  predicate NewestOfSlot(db: Db, id: nat)
    requires id in db.events
  {
    forall r :: r in Rivals(db, id) ==> db.events[r].createdAt < db.events[id].createdAt
  }

  lemma NewestKnown(stamps: map<nat, nat>, k: nat)
    requires k in stamps && forall j :: j in stamps && j != k ==> stamps[j] < stamps[k]
    ensures Newest(stamps) == k
  {
  }

  predicate InReplaceable(row: EventRow, pubkey: string, kind: nat) {
    SameAuthor(row, pubkey) && row.kind == kind
  }

  lemma OlderReplaceableKnown(db: Db, pubkey: string, kind: nat, id: nat)
    requires id in db.events && InReplaceable(db.events[id], pubkey, kind)
    requires forall r :: r in db.events && r != id && InReplaceable(db.events[r], pubkey, kind) ==>
      db.events[r].createdAt < db.events[id].createdAt
    ensures OlderReplaceable(db, pubkey, kind)
         == set r | r in db.events && r != id && InReplaceable(db.events[r], pubkey, kind)
  {
    var slot := map r | r in db.events && SameAuthor(db.events[r], pubkey) && db.events[r].kind == kind
      :: db.events[r].createdAt;
    NewestKnown(slot, id);
  }

  lemma InReplaceableMeaning(row: EventRow, e: Event)
    requires RowFaithful(row) && IsReplaceable(e)
    ensures InReplaceable(row, e.pubkey, e.kind) <==> SameSlot(row.content, e)
  {
  }

  lemma SweepReplaceable(db: Db, id: nat)
    requires Mirror(db) && id in db.events && NewestOfSlot(db, id)
    requires IsReplaceable(db.events[id].content)
    ensures OlderReplaceable(db, db.events[id].content.pubkey, db.events[id].content.kind) == Rivals(db, id)
  {
    var e := db.events[id].content;
    assert forall r :: r in db.events ==> RowFaithful(db.events[r]);
    forall r | r in db.events
      ensures InReplaceable(db.events[r], e.pubkey, e.kind) <==> SameSlot(db.events[r].content, e)
    {
      InReplaceableMeaning(db.events[r], e);
    }
    assert SameSlot(e, e);
    OlderReplaceableKnown(db, e.pubkey, e.kind, id);
  }

  lemma OneTagRowEach(db: Db, r: nat, d: string, t: nat, u: nat)
    requires Mirror(db) && r in db.events && IsParamReplaceable(db.events[r].content) && Tidy(db.events[r].content)
    requires t in RowsFor(db.tags, r, "d", d) && u in RowsFor(db.tags, r, "d", d)
    ensures t == u
  {
    assert Mirrored(db, r);
    TidyDTag(db.events[r].content, d);
    var rest := RowsFor(db.tags, r, "d", d) - {t};
    assert RowsFor(db.tags, r, "d", d) == rest + {t};
  }

  lemma OneJoinRowEach(db: Db, pubkey: string, kind: nat, d: string, t: nat, u: nat)
    requires Mirror(db) && TidyDb(db) && IsParamKind(kind)
    requires t in SlotRows(db, pubkey, kind, d) && u in SlotRows(db, pubkey, kind, d)
    requires db.tags[t].eventId == db.tags[u].eventId
    ensures t == u
  {
    SlotRowsMeaning(db, pubkey, kind, d, t);
    SlotRowsMeaning(db, pubkey, kind, d, u);
    OneTagRowEach(db, db.tags[t].eventId, d, t, u);
  }

  lemma OlderParamKnown(db: Db, pubkey: string, kind: nat, d: string, t0: nat)
    requires t0 in SlotRows(db, pubkey, kind, d)
    requires forall t :: t in SlotRows(db, pubkey, kind, d) && t != t0 ==> db.tags[t].createdAt < db.tags[t0].createdAt
    ensures OlderParam(db, pubkey, kind, d)
         == set t | t in SlotRows(db, pubkey, kind, d) && t != t0 :: db.tags[t].eventId
  {
    var slot := map t | t in SlotRows(db, pubkey, kind, d) :: db.tags[t].createdAt;
    NewestKnown(slot, t0);
  }

  lemma SweepExplicit(db: Db, id: nat)
    requires Mirror(db) && TidyDb(db) && id in db.events && NewestOfSlot(db, id)
    requires Explicit(db.events[id].content)
    ensures
      var e := db.events[id].content;
      OlderParam(db, e.pubkey, e.kind, DistinctParam(e).value) == Rivals(db, id)
  {
    var e := db.events[id].content;
    var d := DistinctParam(e).value;
    SlotRowsComplete(db, e.pubkey, e.kind, d, id);
    var join := SlotRows(db, e.pubkey, e.kind, d);
    var t0 :| t0 in join && db.tags[t0].eventId == id;
    SlotRowsMeaning(db, e.pubkey, e.kind, d, t0);
    forall t | t in join && t != t0
      ensures db.tags[t].createdAt < db.tags[t0].createdAt && db.tags[t].eventId in Rivals(db, id)
    {
      SlotRowsMeaning(db, e.pubkey, e.kind, d, t);
      if db.tags[t].eventId == id {
        OneJoinRowEach(db, e.pubkey, e.kind, d, t, t0);
      }
    }
    OlderParamKnown(db, e.pubkey, e.kind, d, t0);
    forall r | r in Rivals(db, id) ensures r in OlderParam(db, e.pubkey, e.kind, d) {
      SlotRowsComplete(db, e.pubkey, e.kind, d, r);
    }
  }

  /** An event with an implicit `d` sweeps nothing away as long as the slot "" is clean. */
  lemma SweepImplicit(db: Db, id: nat)
    requires Mirror(db) && TidyDb(db) && SlotsUnique(db) && id in db.events
    requires IsParamReplaceable(db.events[id].content) && !Explicit(db.events[id].content)
    ensures
      var e := db.events[id].content;
      OlderParam(db, e.pubkey, e.kind, DistinctParam(e).value) == {}
  {
    var e := db.events[id].content;
    var d := DistinctParam(e).value;
    var join := SlotRows(db, e.pubkey, e.kind, d);
    forall t, u | t in join && u in join ensures t == u {
      SlotRowsMeaning(db, e.pubkey, e.kind, d, t);
      SlotRowsMeaning(db, e.pubkey, e.kind, d, u);
      OneJoinRowEach(db, e.pubkey, e.kind, d, t, u);
    }
    if t0 :| t0 in join {
      OlderParamKnown(db, e.pubkey, e.kind, d, t0);
    }
  }

  /** After a write, exactly the newcomer's rivals are gone. */
  lemma SweepExact(db: Db, id: nat)
    requires Mirror(db) && TidyDb(db) && id in db.events && NewestOfSlot(db, id)
    requires SlotOf(db.events[id].content) == NoSlot ==> SlotsUnique(db)
    ensures Swept(db, db.events[id].content) == Delete(db, Rivals(db, id))
  {
    var e := db.events[id].content;
    if IsReplaceable(e) {
      SweepReplaceable(db, id);
    } else if IsParamReplaceable(e) {
      if Explicit(e) {
        SweepExplicit(db, id);
      } else {
        SweepImplicit(db, id);
        assert Rivals(db, id) == {};
      }
    } else {
      assert Rivals(db, id) == {};
      assert Delete(db, {}) == db;
    }
  }

  // ---- slot uniqueness over runs ------------------------------------------------

  ghost predicate Sound(db: Db) {
    Mirror(db) && TidyDb(db) && SlotsUnique(db)
  }

  lemma NewcomerIsNewest(db: Db, e: Event, hash: Blob, author: Blob)
    requires !Overtaken(db, e)
    ensures NewestOfSlot(Inserted(db, e, hash, author), NextRowId(db.events))
  {
  }

  lemma SweptUnique(db: Db, id: nat)
    requires id in db.events
    requires SlotsUnique(Delete(db, {id}))
    ensures SlotsUnique(Delete(db, Rivals(db, id)))
  {
    var db0, db' := Delete(db, {id}), Delete(db, Rivals(db, id));
    forall r, q | r in db'.events && q in db'.events && SameSlot(db'.events[r].content, db'.events[q].content)
      ensures r == q
    {
      if r != id && q != id {
        assert r in db0.events && q in db0.events;
      }
    }
  }

  lemma HidingUnique(db: Db, db': Db)
    requires SlotsUnique(db) && TidyDb(db) && SameButHidden(db, db')
    ensures SlotsUnique(db') && TidyDb(db')
  {
  }

  lemma InsertedUnique(db: Db, e: Event, hash: Blob, author: Blob)
    requires SlotsUnique(db) && TidyDb(db) && Tidy(e)
    ensures
      var db1, id := Inserted(db, e, hash, author), NextRowId(db.events);
      TidyDb(db1) && (SlotOf(e) == NoSlot ==> SlotsUnique(db1)) && SlotsUnique(Delete(db1, {id}))
  {
  }

  lemma InsertedNewest(db: Db, e: Event, hash: Blob, author: Blob)
    requires Mirror(db) && TidyDb(db) && !Shadowed(db, e)
    ensures NewestOfSlot(Inserted(db, e, hash, author), NextRowId(db.events))
  {
    ShadowMeaning(db, e);
    NewcomerIsNewest(db, e, hash, author);
  }

  lemma SweptSound(db: Db, id: nat)
    requires Mirror(db) && TidyDb(db) && id in db.events && NewestOfSlot(db, id)
    requires SlotOf(db.events[id].content) == NoSlot ==> SlotsUnique(db)
    requires SlotsUnique(Delete(db, {id}))
    ensures Swept(db, db.events[id].content) == Delete(db, Rivals(db, id))
    ensures Sound(Delete(db, Rivals(db, id)))
  {
    SweepExact(db, id);
    SweptUnique(db, id);
    DeleteMirror(db, Rivals(db, id));
    assert TidyDb(Delete(db, Rivals(db, id)));
  }

  /** A write that goes through: the newcomer is in, its rivals are out. */
  lemma PersistSweeps(db: Db, e: Event, hash: Blob, author: Blob)
    requires Sound(db) && Tidy(e) && !Shadowed(db, e)
    requires Decode(e.id) == Some(hash) && Decode(e.pubkey) == Some(author) && !IsDuplicate(db, hash)
    ensures
      var db1, id := Inserted(db, e, hash, author), NextRowId(db.events);
      Swept(db1, e) == Delete(db1, Rivals(db1, id)) && Sound(Swept(db1, e))
  {
    InsertedUnique(db, e, hash, author);
    InsertedNewest(db, e, hash, author);
    InsertedMirror(db, e, hash, author);
    SweptSound(Inserted(db, e, hash, author), NextRowId(db.events));
  }

  lemma PersistSound(db: Db, e: Event)
    requires Sound(db) && Tidy(e)
    ensures Sound(Persist(db, e).db)
  {
    PersistShape(db, e);
    if Persist(db, e).db != db {
      var hash, author := Decode(e.id).value, Decode(e.pubkey).value;
      PersistSweeps(db, e, hash, author);
      var swept := Swept(Inserted(db, e, hash, author), e);
      HiddenSameButHidden(swept, e, NextRowId(db.events));
      HidingMirror(swept, Persist(db, e).db);
      HidingUnique(swept, Persist(db, e).db);
    }
  }

  /** `sub` holds some of the rows of `db`, as far as their events go. */
  predicate SubRows(sub: Db, db: Db) {
    forall r :: r in sub.events ==> r in db.events && sub.events[r].content == db.events[r].content
  }

  lemma SweptSubRows(db: Db, e: Event)
    ensures SubRows(Swept(db, e), db)
  {
  }
}
