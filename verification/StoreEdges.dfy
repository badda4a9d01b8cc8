/**
 The edges of the store: when a write that reports success left its event in the table,
 and the smallest submissions on which arrival order shows.
 */
module StoreEdges {
  import opened Wrappers
  import opened Hex
  import opened Events
  import opened Store
  import opened StoreInvariants
  import opened Slots
  import opened Refinement
  import opened Convergence

  /** The event is stored and queries may show it. */
  predicate Live(db: Db, e: Event) {
    exists r :: r in db.events && db.events[r].content == e && !db.events[r].hidden
  }

  /** Equal ids mean equal events, as far as the table goes. */
  predicate IdIsOwn(db: Db, e: Event) {
    forall r :: r in db.events && Some(db.events[r].hash) == Decode(e.id) ==> db.events[r].content == e
  }

  /** Its `d` value stands in two or more tags. */
  predicate RepeatsParam(e: Event) {
    IsParamReplaceable(e) && CountTag(e.tags, "d", DistinctParam(e).value) >= 2
  }

  // ---- what the sweep does to the newcomer ------------------------------------------

  /** Rows of the join that belong to other events are older than the newcomer's. */
  lemma JoinRowAge(db: Db, e: Event, hash: Blob, author: Blob, t: nat)
    requires Mirror(db) && IsParamReplaceable(e) && !ParamShadow(db, e, DistinctParam(e).value)
    requires t in SlotRows(Inserted(db, e, hash, author), e.pubkey, e.kind, DistinctParam(e).value)
    ensures
      var db1, id := Inserted(db, e, hash, author), NextRowId(db.events);
      if db1.tags[t].eventId == id then db1.tags[t].createdAt == e.createdAt
      else db1.tags[t].createdAt < e.createdAt
  {
    var db1, id, d := Inserted(db, e, hash, author), NextRowId(db.events), DistinctParam(e).value;
    InsertTagsKeeps(db.tags, id, e, |e.tags|);
    OldTagsAreOthers(db);
    if t in db.tags {
      assert TagFaithful(db, db.tags[t]);
      assert t in SlotRows(db, e.pubkey, e.kind, d);
    }
  }

  /** The newcomer's own rows in the join: one for each time it states its `d` value. */
  lemma OwnJoinRows(db: Db, e: Event, hash: Blob, author: Blob)
    requires Mirror(db) && IsParamReplaceable(e) && Decode(e.pubkey) == Some(author)
    ensures
      var db1, id, d := Inserted(db, e, hash, author), NextRowId(db.events), DistinctParam(e).value;
      RowsFor(db1.tags, id, "d", d) <= SlotRows(db1, e.pubkey, e.kind, d)
      && |RowsFor(db1.tags, id, "d", d)| == CountTag(e.tags, "d", d)
  {
    var id := NextRowId(db.events);
    InsertedCounts(db, e, hash, author, id);
  }

  lemma TwoMembers(s: set<nat>, t: nat) returns (u: nat)
    requires |s| >= 2
    ensures u in s && u != t
  {
    var rest := s - {t};
    assert s <= rest + {t};
    SubsetSize(s, rest + {t});
    u :| u in rest;
  }

  lemma SameMember(s: set<nat>, t: nat, u: nat)
    requires |s| <= 1 && t in s && u in s
    ensures t == u
  {
    var rest := s - {t};
    assert s == rest + {t};
  }

  lemma ParamSweepOfSelf(db: Db, e: Event, hash: Blob, author: Blob)
    requires Mirror(db) && IsParamReplaceable(e) && !ParamShadow(db, e, DistinctParam(e).value)
    requires Decode(e.pubkey) == Some(author)
    ensures
      var db1, id, d := Inserted(db, e, hash, author), NextRowId(db.events), DistinctParam(e).value;
      id in OlderParam(db1, e.pubkey, e.kind, d) <==> CountTag(e.tags, "d", d) >= 2
  {
    var db1, id, d := Inserted(db, e, hash, author), NextRowId(db.events), DistinctParam(e).value;
    var join, own := SlotRows(db1, e.pubkey, e.kind, d), RowsFor(db1.tags, id, "d", d);
    var slot := map t | t in join :: db1.tags[t].createdAt;
    OwnJoinRows(db, e, hash, author);
    forall t | t in join
      ensures if db1.tags[t].eventId == id then slot[t] == e.createdAt else slot[t] < e.createdAt
    {
      JoinRowAge(db, e, hash, author, t);
    }
    if CountTag(e.tags, "d", d) >= 2 {
      var t0 := TwoMembers(own, 0);
      assert t0 in slot;
      var t1 := TwoMembers(own, Newest(slot));
      assert t1 in slot.Keys - {Newest(slot)} && db1.tags[t1].eventId == id;
    } else if id in OlderParam(db1, e.pubkey, e.kind, d) {
      var t :| t in slot.Keys - {Newest(slot)} && db1.tags[t].eventId == id;
      assert t in own;
      var t0 := Newest(slot);
      assert slot[t] <= slot[t0];
      SameMember(own, t, t0);
    }
  }

  /** The newcomer survives its own sweep exactly when it does not repeat its `d` value. */
  lemma NewcomerSurvives(db: Db, e: Event, hash: Blob, author: Blob)
    requires Mirror(db) && !Shadowed(db, e)
    requires Decode(e.id) == Some(hash) && Decode(e.pubkey) == Some(author) && !IsDuplicate(db, hash)
    ensures NextRowId(db.events) in Swept(Inserted(db, e, hash, author), e).events <==> !RepeatsParam(e)
  {
    if IsReplaceable(e) {
      SweptRivalsOnly(db, e, hash, author);
    } else if IsParamReplaceable(e) {
      ParamSweepOfSelf(db, e, hash, author);
    }
  }

  lemma SweptRivalsOnly(db: Db, e: Event, hash: Blob, author: Blob)
    requires Mirror(db) && !Shadowed(db, e) && IsReplaceable(e)
    requires Decode(e.id) == Some(hash) && Decode(e.pubkey) == Some(author) && !IsDuplicate(db, hash)
    ensures NextRowId(db.events) in Swept(Inserted(db, e, hash, author), e).events
  {
    ReplaceableShadowMeaning(db, e);
    NewcomerIsNewest(db, e, hash, author);
    InsertedMirror(db, e, hash, author);
    SweepReplaceable(Inserted(db, e, hash, author), NextRowId(db.events));
  }

  /** A success report means the event is live, except for one that repeats its own `d` value. */
  lemma WrittenIsLive(db: Db, e: Event)
    requires Mirror(db) && Persist(db, e).outcome == Wrote(1)
    ensures Live(Persist(db, e).db, e) <==> !RepeatsParam(e)
  {
    var hash, author, id := Decode(e.id).value, Decode(e.pubkey).value, NextRowId(db.events);
    NewcomerSurvives(db, e, hash, author);
    var swept, after := Swept(Inserted(db, e, hash, author), e), Persist(db, e).db;
    SweptSubRows(Inserted(db, e, hash, author), e);
    HiddenSameButHidden(swept, e, id);
    NotThereBefore(db, e, hash);
    if id in swept.events {
      SweptKeepsRows(Inserted(db, e, hash, author), e, id);
      assert swept.events[id] == NewRow(e, hash, author);
      assert !after.events[id].hidden;
    }
    if Live(after, e) {
      var r :| r in after.events && after.events[r].content == e;
      assert r == id;
    }
  }

  lemma SweptKeepsRows(db: Db, e: Event, r: nat)
    requires r in Swept(db, e).events
    ensures r in db.events && Swept(db, e).events[r] == db.events[r]
  {
  }

  lemma NotThereBefore(db: Db, e: Event, hash: Blob)
    requires Mirror(db) && Decode(e.id) == Some(hash) && !IsDuplicate(db, hash)
    ensures forall r :: r in db.events ==> db.events[r].content != e
  {
  }

  /** Any other report leaves every event as live as it was, the submitted one included. */
  lemma UnwrittenIsNotNews(db: Db, e: Event)
    requires Mirror(db) && Persist(db, e).outcome != Wrote(1)
    ensures Live(Persist(db, e).db, e) ==> Live(db, e)
  {
    PersistShape(db, e);
    if Persist(db, e).db != db {
      var hash, author, id := Decode(e.id).value, Decode(e.pubkey).value, NextRowId(db.events);
      var swept, after := Swept(Inserted(db, e, hash, author), e), Persist(db, e).db;
      SweptSubRows(Inserted(db, e, hash, author), e);
      HiddenSameButHidden(swept, e, id);
      NotThereBefore(db, e, hash);
      assert after == HideRow(swept, id);
      assert forall r :: r in after.events && after.events[r].content == e ==> r == id;
    }
  }

  // ---- submissions on which the order shows -----------------------------------------

  function Digits(c: char): (s: string)
    ensures |s| == 64 && forall i :: 0 <= i < 64 ==> s[i] == c
  {
    seq(64, _ => c)
  }

  function Sample(c: char, kind: nat, createdAt: nat, tags: seq<Tag>): Event {
    Event(Digits(c), Digits('0'), createdAt, kind, tags, "", "")
  }

  lemma SampleWellFormed(c: char, kind: nat, createdAt: nat, tags: seq<Tag>)
    requires IsLowerDigit(c) && kind < 40000 && createdAt < 100
    requires tags == [] || (|tags| == 1 && tags[0] != [] && tags[0][0] != "expiration")
    ensures WellFormed(Sample(c, kind, createdAt, tags))
  {
    var e := Sample(c, kind, createdAt, tags);
    assert IsKey(e.id) && IsHex(e.pubkey);
    assert FirstValue(tags, "expiration") == None by {
      if tags != [] { assert FirstValue(tags[1..], "expiration") == None; }
    }
  }

  lemma PairSubmissible(x: Event, y: Event)
    requires WellFormed(x) && WellFormed(y) && x.id != y.id
    ensures Submissible([x, y])
  {
  }

  /** Any two events of which one would turn the other away without outdating it. */
  lemma PairBlocks(x: Event, y: Event)
    requires WellFormed(x) && WellFormed(y) && x.id != y.id && Blocks(y, x) && !Outdates(y, x)
    ensures Submissible([x, y]) && !OrderIndependent([x, y])
  {
    PairSubmissible(x, y);
    if OrderIndependent([x, y]) {
      assert Top(EventSet([x, y]), x);
      ShadowMatters([x, y], x, y);
    }
  }

  /** Any event and any deletion that names its hash but not its text. */
  lemma PairCase(x: Event, k: Event)
    requires WellFormed(x) && WellFormed(k) && x.id != k.id && Deletes(k, x) && !DeletesByText(k, x)
    ensures Submissible([x, k]) && !OrderIndependent([x, k])
  {
    PairSubmissible(x, k);
    PairNamed(x, k);
    if OrderIndependent([x, k]) {
      CaseMatters([x, k]);
    }
  }

  lemma PairNamed(x: Event, k: Event)
    requires Deletes(k, x) && !DeletesByText(k, x)
    ensures !NamedInLowerCase(EventSet([x, k]))
  {
    var s := EventSet([x, k]);
    assert k.kind == DELETION && !DeletesByText(x, x);
    assert x in s && k in s && forall y :: y in s ==> y == x || y == k;
    assert Top(s, x) && DeletedIn(s, x) && !TextDeletedIn(s, x);
  }

  /** Two profiles with the same creation time: whichever comes first stays. */
  lemma TieExample()
    ensures
      var x, y := Sample('a', 0, 1, []), Sample('b', 0, 1, []);
      Submissible([x, y]) && !OrderIndependent([x, y])
  {
    var x, y := Sample('a', 0, 1, []), Sample('b', 0, 1, []);
    assert x.id[0] != y.id[0];
    SampleWellFormed('a', 0, 1, []);
    SampleWellFormed('b', 0, 1, []);
    PairBlocks(x, y);
  }

  /** An absent `d` and an explicit empty one: the first is turned away only if it comes second. */
  lemma ImplicitExample()
    ensures
      var x, y := Sample('a', 30000, 1, []), Sample('b', 30000, 2, [["d", ""]]);
      Submissible([x, y]) && !OrderIndependent([x, y])
  {
    var d: Tag := ["d", ""];
    var x, y := Sample('a', 30000, 1, []), Sample('b', 30000, 2, [d]);
    assert x.id[0] != y.id[0];
    SampleWellFormed('a', 30000, 1, []);
    SampleWellFormed('b', 30000, 2, [d]);
    assert y.tags[0][0] == "d" && HasTag(y.tags, "d", "");
    PairBlocks(x, y);
  }

  /** A deletion that names a note in capitals hides it only if it comes second. */
  lemma CapitalsExample()
    ensures
      var x, k := Sample('a', 1, 1, []), Sample('b', 5, 2, [["e", Digits('A')]]);
      Submissible([x, k]) && !OrderIndependent([x, k])
  {
    var tag: Tag := ["e", Digits('A')];
    var x, k := Sample('a', 1, 1, []), Sample('b', 5, 2, [tag]);
    assert x.id[0] != k.id[0];
    SampleWellFormed('a', 1, 1, []);
    SampleWellFormed('b', 5, 2, [tag]);
    CapitalsDelete(x, k);
    PairCase(x, k);
  }

  lemma CapitalsDelete(x: Event, k: Event)
    requires x == Sample('a', 1, 1, []) && k == Sample('b', 5, 2, [["e", Digits('A')]])
    ensures Deletes(k, x) && !DeletesByText(k, x)
  {
    assert Digits('A')[0] != x.id[0];
    assert k.tags[0][0] == "e" && HasTag(k.tags, "e", Digits('A'));
    TagValuesByNameMember(k.tags, "e", Digits('A'));
    assert ToLower(Digits('A')) == Digits('a');
    DecodeEqual(Digits('A'), x.id);
    LowerIsFixed(x.id);
  }

  /** The first event of all is always reported as stored. */
  lemma FirstIsReported(e: Event)
    requires IsKey(e.id) && Decode(e.pubkey).Some? && Bindable(e) && Expiration(e) == None && e.kind != DELETION
    ensures Persist(EMPTY, e).outcome == Wrote(1)
  {
    var db1 := Inserted(EMPTY, e, Decode(e.id).value, Decode(e.pubkey).value);
    InsertTagsKeeps(EMPTY.tags, NextRowId(EMPTY.events), e, |e.tags|);
    assert forall t :: t in Swept(db1, e).tags ==> Swept(db1, e).tags[t].kind == e.kind;
  }

  /** An event that states its `d` value twice is reported as stored, and is not there. */
  lemma RepeatExample()
    ensures
      var e := Sample('a', 30000, 1, [["d", "x"], ["d", "x"]]);
      Persist(EMPTY, e).outcome == Wrote(1) && !Live(Persist(EMPTY, e).db, e)
  {
    var d: Tag := ["d", "x"];
    var e := Sample('a', 30000, 1, [d, d]);
    RepeatCounts(e, d);
    FirstIsReported(e);
    WrittenIsLive(EMPTY, e);
  }

  lemma RepeatCounts(e: Event, d: Tag)
    requires e.kind == 30000 && e.tags == [d, d] && d == ["d", "x"]
    ensures RepeatsParam(e) && Expiration(e) == None
  {
    assert d[0][0] == 'd' && "expiration"[0] == 'e';
    assert FirstValue([d], "expiration") == None;
  }
}
