/**
 What every run of the store keeps: the tag table mirrors the stored events, rows copy their
 event's fields, hashes are unique, and a replaceable slot holds at most one row.
 */
module StoreInvariants {
  import opened Wrappers
  import opened Hex
  import opened Events
  import opened Store

  /** The columns of an event row repeat what the stored event says. */
  predicate RowFaithful(row: EventRow) {
    Decode(row.content.id) == Some(row.hash) && Decode(row.content.pubkey) == Some(row.author)
    && row.createdAt == row.content.createdAt && row.kind == row.content.kind
    && row.expiresAt == Expiration(row.content)
  }

  /** A tag row belongs to a stored event and copies its kind and creation time. */
  predicate TagFaithful(db: Db, tag: TagRow) {
    |tag.name| == 1 && tag.eventId in db.events
    && tag.kind == db.events[tag.eventId].kind && tag.createdAt == db.events[tag.eventId].createdAt
  }

  function RowsFor(tags: map<nat, TagRow>, id: nat, name: string, value: string): set<nat> {
    set t | t in tags && tags[t].eventId == id && tags[t].name == name && tags[t].value == value
  }

  /** Every searchable tag of a stored event has its row, as often as the event repeats it. */
  ghost predicate Mirrored(db: Db, id: nat)
    requires id in db.events
  {
    forall n, v :: |n| == 1 ==> |RowsFor(db.tags, id, n, v)| == CountTag(db.events[id].content.tags, n, v)
  }

  /** Rows repeat their events, and no hash occurs twice. */
  predicate RowsFaithful(db: Db) {
    (forall r :: r in db.events ==> RowFaithful(db.events[r]))
    && (forall r, q :: r in db.events && q in db.events && db.events[r].hash == db.events[q].hash ==> r == q)
  }

  predicate TagsFaithful(db: Db) {
    forall t :: t in db.tags ==> TagFaithful(db, db.tags[t])
  }

  ghost predicate Mirror(db: Db) {
    RowsFaithful(db) && TagsFaithful(db) && forall r :: r in db.events ==> Mirrored(db, r)
  }

  // ---- inserting ------------------------------------------------------------

  lemma {:induction false} InsertTagsKeeps(tags: map<nat, TagRow>, id: nat, e: Event, k: nat)
    requires k <= |e.tags|
    ensures forall t :: t in tags ==> t in InsertTags(tags, id, e, k) && InsertTags(tags, id, e, k)[t] == tags[t]
    ensures forall t :: t in InsertTags(tags, id, e, k) && t !in tags ==>
      var row := InsertTags(tags, id, e, k)[t];
      row.eventId == id && |row.name| == 1 && row.kind == e.kind && row.createdAt == e.createdAt
  {
    if k > 0 {
      InsertTagsKeeps(tags, id, e, k - 1);
    }
  }

  lemma AddRowCounts(tags: map<nat, TagRow>, newId: nat, row: TagRow, n: string, v: string)
    requires newId !in tags
    ensures |RowsFor(tags[newId := row], row.eventId, n, v)|
         == |RowsFor(tags, row.eventId, n, v)| + if row.name == n && row.value == v then 1 else 0
  {
    var before, after := RowsFor(tags, row.eventId, n, v), RowsFor(tags[newId := row], row.eventId, n, v);
    assert after == if row.name == n && row.value == v then before + {newId} else before;
  }

  lemma {:induction false} InsertTagsCounts(tags: map<nat, TagRow>, id: nat, e: Event, k: nat, n: string, v: string)
    requires k <= |e.tags| && |n| == 1
    requires forall t :: t in tags ==> tags[t].eventId != id
    ensures |RowsFor(InsertTags(tags, id, e, k), id, n, v)| == CountTag(e.tags[..k], n, v)
  {
    if k == 0 {
      assert RowsFor(tags, id, n, v) == {};
    } else {
      InsertTagsCounts(tags, id, e, k - 1, n, v);
      var before, tag := InsertTags(tags, id, e, k - 1), e.tags[k - 1];
      assert e.tags[..k][..k - 1] == e.tags[..k - 1];
      if Searchable(tag) {
        AddRowCounts(before, NextRowId(before), TagRow(id, tag[0], tag[1], e.kind, e.createdAt), n, v);
      }
    }
  }

  /** Tag rows already there belong to other events, even when a row id is used again. */
  lemma OldTagsAreOthers(db: Db)
    requires Mirror(db)
    ensures forall t :: t in db.tags ==> db.tags[t].eventId != NextRowId(db.events)
  {
  }

  lemma InsertedCounts(db: Db, e: Event, hash: Blob, author: Blob, r: nat)
    requires Mirror(db) && r in Inserted(db, e, hash, author).events
    ensures Mirrored(Inserted(db, e, hash, author), r)
  {
    var id, db' := NextRowId(db.events), Inserted(db, e, hash, author);
    OldTagsAreOthers(db);
    forall n, v | |n| == 1
      ensures |RowsFor(db'.tags, r, n, v)| == CountTag(db'.events[r].content.tags, n, v)
    {
      if r == id {
        InsertTagsCounts(db.tags, id, e, |e.tags|, n, v);
        assert e.tags[..|e.tags|] == e.tags;
      } else {
        InsertTagsKeeps(db.tags, id, e, |e.tags|);
        assert Mirrored(db, r);
        assert RowsFor(db'.tags, r, n, v) == RowsFor(db.tags, r, n, v);
      }
    }
  }

  lemma InsertedTagFaithful(db: Db, e: Event, hash: Blob, author: Blob, t: nat)
    requires Mirror(db) && t in Inserted(db, e, hash, author).tags
    ensures TagFaithful(Inserted(db, e, hash, author), Inserted(db, e, hash, author).tags[t])
  {
    InsertTagsKeeps(db.tags, NextRowId(db.events), e, |e.tags|);
    if t in db.tags {
      assert TagFaithful(db, db.tags[t]);
    }
  }

  lemma InsertedMirror(db: Db, e: Event, hash: Blob, author: Blob)
    requires Mirror(db)
    requires Decode(e.id) == Some(hash) && Decode(e.pubkey) == Some(author) && !IsDuplicate(db, hash)
    ensures Mirror(Inserted(db, e, hash, author))
  {
    var db' := Inserted(db, e, hash, author);
    forall r | r in db'.events ensures Mirrored(db', r) {
      InsertedCounts(db, e, hash, author, r);
    }
    forall t | t in db'.tags ensures TagFaithful(db', db'.tags[t]) {
      InsertedTagFaithful(db, e, hash, author, t);
    }
  }

  // ---- deleting and hiding ----------------------------------------------------

  lemma DeleteCounts(db: Db, ids: set<nat>, r: nat)
    requires r in db.events && r !in ids && Mirrored(db, r)
    ensures Mirrored(Delete(db, ids), r)
  {
    var db' := Delete(db, ids);
    forall n, v | |n| == 1
      ensures |RowsFor(db'.tags, r, n, v)| == CountTag(db'.events[r].content.tags, n, v)
    {
      assert RowsFor(db'.tags, r, n, v) == RowsFor(db.tags, r, n, v);
    }
  }

  lemma DeleteMirror(db: Db, ids: set<nat>)
    requires Mirror(db)
    ensures Mirror(Delete(db, ids))
  {
    var db' := Delete(db, ids);
    forall r | r in db'.events ensures Mirrored(db', r) {
      assert Mirrored(db, r);
      DeleteCounts(db, ids, r);
    }
  }

  /** The two tables differ in hidden flags alone. */
  predicate SameButHidden(db: Db, db': Db) {
    db'.tags == db.tags && db'.events.Keys == db.events.Keys
    && forall r :: r in db.events ==> db'.events[r] == db.events[r].(hidden := db'.events[r].hidden)
  }

  lemma HidingCounts(db: Db, db': Db, r: nat)
    requires SameButHidden(db, db') && r in db.events && Mirrored(db, r)
    ensures Mirrored(db', r)
  {
  }

  lemma HidingMirror(db: Db, db': Db)
    requires Mirror(db) && SameButHidden(db, db')
    ensures Mirror(db')
  {
    forall r | r in db'.events ensures Mirrored(db', r) {
      assert Mirrored(db, r);
      HidingCounts(db, db', r);
    }
  }

  lemma SweptMirror(db: Db, e: Event)
    requires Mirror(db)
    ensures Mirror(Swept(db, e))
  {
    var db1 := if IsReplaceable(e) then Delete(db, OlderReplaceable(db, e.pubkey, e.kind)) else db;
    if IsReplaceable(e) {
      DeleteMirror(db, OlderReplaceable(db, e.pubkey, e.kind));
    }
    if DistinctParam(e).Some? {
      DeleteMirror(db1, OlderParam(db1, e.pubkey, e.kind, DistinctParam(e).value));
    }
  }

  lemma HiddenSameButHidden(db: Db, e: Event, id: nat)
    ensures SameButHidden(db, Hidden(db, e, id).db)
  {
  }

  /** The shape of a write: either nothing changes, or insert, sweep and hide all happen. */
  lemma PersistShape(db: Db, e: Event)
    ensures Persist(db, e).db == db
      || (Decode(e.id).Some? && Decode(e.pubkey).Some? && !IsDuplicate(db, Decode(e.id).value)
          && !Shadowed(db, e)
          && Persist(db, e) == Hidden(Swept(Inserted(db, e, Decode(e.id).value, Decode(e.pubkey).value), e), e,
                                      NextRowId(db.events)))
  {
  }

  lemma PersistMirror(db: Db, e: Event)
    requires Mirror(db)
    ensures Mirror(Persist(db, e).db)
  {
    PersistShape(db, e);
    if Persist(db, e).db != db {
      var hash, author := Decode(e.id).value, Decode(e.pubkey).value;
      var db1 := Inserted(db, e, hash, author);
      InsertedMirror(db, e, hash, author);
      SweptMirror(db1, e);
      HiddenSameButHidden(Swept(db1, e), e, NextRowId(db.events));
      HidingMirror(Swept(db1, e), Persist(db, e).db);
    }
  }

  /** Tag-table mirror, over every run of persists and expiries. */
  lemma {:induction false} RunMirror(ops: seq<Op>)
    ensures Mirror(Run(EMPTY, ops))
  {
    if ops == [] {
    } else {
      var front, op := ops[..|ops| - 1], ops[|ops| - 1];
      RunMirror(front);
      match op
      case PersistOp(e) => PersistMirror(Run(EMPTY, front), e);
      case ExpireOp(now) => DeleteMirror(Run(EMPTY, front), Expired(Run(EMPTY, front), now));
    }
  }

  /** A tag row for a name and value exists exactly when `build_index` files that value under that name. */
  lemma TagRowsMatchIndex(ops: seq<Op>, r: nat, c: char, v: string)
    requires r in Run(EMPTY, ops).events
    ensures
      var db := Run(EMPTY, ops);
      var idx := IndexOf(db.events[r].content.tags);
      (exists t :: t in db.tags && db.tags[t].eventId == r && db.tags[t].name == [c] && db.tags[t].value == v)
      <==> (c in idx && v in idx[c])
  {
    var db := Run(EMPTY, ops);
    RunMirror(ops);
    MirroredMeaning(db, r, [c], v);
    IndexOfMeaning(db.events[r].content.tags, c);
    assert (exists t :: t in RowsFor(db.tags, r, [c], v)) <==>
      (exists t :: t in db.tags && db.tags[t].eventId == r && db.tags[t].name == [c] && db.tags[t].value == v)
    by {
      if t :| t in db.tags && db.tags[t].eventId == r && db.tags[t].name == [c] && db.tags[t].value == v {
        assert t in RowsFor(db.tags, r, [c], v);
      }
      if t :| t in RowsFor(db.tags, r, [c], v) {
        assert t in db.tags && db.tags[t].eventId == r && db.tags[t].name == [c] && db.tags[t].value == v;
      }
    }
  }

  lemma MirroredMeaning(db: Db, r: nat, n: string, v: string)
    requires Mirror(db) && r in db.events && |n| == 1
    ensures (exists t :: t in RowsFor(db.tags, r, n, v)) <==> HasTag(db.events[r].content.tags, n, v)
  {
    var rows := RowsFor(db.tags, r, n, v);
    assert Mirrored(db, r);
    CountTagPositive(db.events[r].content.tags, n, v);
    if rows != {} {
      var t :| t in rows;
    }
  }

  /** The event of a tag row carries that tag. */
  lemma TagRowMeaning(db: Db, t: nat)
    requires Mirror(db) && t in db.tags
    ensures db.tags[t].eventId in db.events
    ensures HasTag(db.events[db.tags[t].eventId].content.tags, db.tags[t].name, db.tags[t].value)
  {
    var tag := db.tags[t];
    assert TagFaithful(db, tag);
    assert t in RowsFor(db.tags, tag.eventId, tag.name, tag.value);
    MirroredMeaning(db, tag.eventId, tag.name, tag.value);
  }
}
