/**
 What a write does to the stored events, whatever `d` tags they carry. An event of a parameterized
 kind sits in a slot for every `d` value it states, but looks up and sweeps only the first.
 */
module Occupancy {
  import opened Wrappers
  import opened Hex
  import opened Events
  import opened Store
  import opened StoreInvariants
  import opened Slots
  import opened Refinement
  import opened StoreEdges

  // ---- who meets whom -------------------------------------------------------------

  predicate Sits(x: Event, slot: Slot) {
    match slot
    case NoSlot => false
    case Replaceable(author, kind) => IsReplaceable(x) && Decode(x.pubkey) == author && x.kind == kind
    case Param(author, kind, d) =>
      IsParamReplaceable(x) && Decode(x.pubkey) == author && x.kind == kind && HasTag(x.tags, "d", d)
  }

  predicate SitsTwice(x: Event, slot: Slot) {
    Sits(x, slot) && slot.Param? && CountTag(x.tags, "d", slot.d) >= 2
  }

  /** It sits in the slot it looks up. */
  predicate Owns(e: Event) {
    Sits(e, LookupSlot(e))
  }

  /** A stored `y` turns the arriving `x` away. */
  predicate Bars(y: Event, x: Event) {
    Sits(y, LookupSlot(x)) && y.createdAt >= x.createdAt
  }

  /** An arriving `y` that is let in removes a stored `x`. */
  predicate Ousts(y: Event, x: Event) {
    Sits(x, LookupSlot(y)) && x.createdAt < y.createdAt && (Owns(y) || SitsTwice(x, LookupSlot(y)))
  }

  /** An arriving `y` that is not in its own slot spares only the newest there; `z` is newer than `x`, or as new. */
  predicate Squeezes(y: Event, z: Event, x: Event) {
    !Owns(y) && x != z && Sits(x, LookupSlot(y)) && Sits(z, LookupSlot(y))
    && x.createdAt <= z.createdAt < y.createdAt
  }

  predicate Barred(v: Shelf, e: Event) {
    exists y :: y in v && Bars(y, e)
  }

  predicate Squeezed(v: Shelf, e: Event, x: Event) {
    exists z :: z in v && Squeezes(e, z, x)
  }

  /** A write can leave it in the table. */
  predicate Stays(e: Event) {
    Storable(e) && !RepeatsParam(e)
  }

  predicate Enters(v: Shelf, e: Event) {
    e !in v && !Barred(v, e) && Storable(e)
  }

  /** One write, seen on the stored events and their hidden flags. */
  predicate Moves(v: Shelf, e: Event, v': Shelf) {
    if !Enters(v, e) then v' == v
    else
      (e in v' <==> !RepeatsParam(e)) && (e in v' ==> v'[e] == DeletedOn(v, e))
      && (forall x :: x in v' && x != e ==> x in v && v'[x] == (v[x] || Deletes(e, x)))
      && (forall x :: x in v && x !in v' ==> Ousts(e, x) || Squeezed(v, e, x))
      && (forall x :: x in v && Ousts(e, x) ==> x !in v')
      && (forall x, z :: x in v && z in v && Squeezes(e, z, x) && x.createdAt < z.createdAt ==> x !in v')
  }

  // ---- the join behind a slot ---------------------------------------------------------

  lemma JoinMeaning(db: Db, e: Event, t: nat)
    requires Mirror(db) && IsParamReplaceable(e)
    requires t in SlotRows(db, e.pubkey, e.kind, DistinctParam(e).value)
    ensures
      var r, d := db.tags[t].eventId, DistinctParam(e).value;
      r in db.events && Sits(db.events[r].content, LookupSlot(e)) && t in RowsFor(db.tags, r, "d", d)
      && db.tags[t].createdAt == db.events[r].content.createdAt == db.events[r].createdAt
  {
    TagRowMeaning(db, t);
    assert RowFaithful(db.events[db.tags[t].eventId]) && TagFaithful(db, db.tags[t]);
  }

  lemma JoinRows(db: Db, e: Event, r: nat)
    requires Mirror(db) && IsParamReplaceable(e) && r in db.events && Sits(db.events[r].content, LookupSlot(e))
    ensures
      var d := DistinctParam(e).value;
      var own := RowsFor(db.tags, r, "d", d);
      own <= SlotRows(db, e.pubkey, e.kind, d) && own != {}
      && |own| == CountTag(db.events[r].content.tags, "d", d)
  {
    assert RowFaithful(db.events[r]) && Mirrored(db, r);
    MirroredMeaning(db, r, "d", DistinctParam(e).value);
  }

  lemma ParamShadowBars(db: Db, e: Event)
    requires Mirror(db) && IsParamReplaceable(e)
    ensures ParamShadow(db, e, DistinctParam(e).value) <==> Barred(View(db), e)
  {
    var d := DistinctParam(e).value;
    if t :| t in SlotRows(db, e.pubkey, e.kind, d) && db.events[db.tags[t].eventId].createdAt >= e.createdAt {
      JoinMeaning(db, e, t);
      ViewRow(db, db.tags[t].eventId);
      assert Bars(db.events[db.tags[t].eventId].content, e);
    }
    if y :| y in View(db) && Bars(y, e) {
      var r :| r in db.events && db.events[r].content == y;
      JoinRows(db, e, r);
      var t :| t in RowsFor(db.tags, r, "d", d);
      JoinMeaning(db, e, t);
    }
  }

  lemma ReplaceableShadowBars(db: Db, e: Event)
    requires Mirror(db) && IsReplaceable(e)
    ensures ReplaceableShadow(db, e) <==> Barred(View(db), e)
  {
    if r :| r in db.events && SameAuthor(db.events[r], e.pubkey) && db.events[r].kind == e.kind &&
            db.events[r].createdAt >= e.createdAt
    {
      assert RowFaithful(db.events[r]);
      ViewRow(db, r);
      assert Bars(db.events[r].content, e);
    }
    if y :| y in View(db) && Bars(y, e) {
      var r :| r in db.events && db.events[r].content == y;
      assert RowFaithful(db.events[r]);
    }
  }

  lemma ShadowedIsBarred(db: Db, e: Event)
    requires Mirror(db)
    ensures Shadowed(db, e) <==> Barred(View(db), e)
  {
    if IsReplaceable(e) {
      ReplaceableShadowBars(db, e);
    } else if IsParamReplaceable(e) {
      ParamShadowBars(db, e);
    }
  }

  // ---- the sweep behind a parameterized slot ---------------------------------------------

  function Join(db: Db, e: Event): set<nat>
    requires IsParamReplaceable(e)
  {
    SlotRows(db, e.pubkey, e.kind, DistinctParam(e).value)
  }

  function Older(db: Db, e: Event): set<nat>
    requires IsParamReplaceable(e)
  {
    OlderParam(db, e.pubkey, e.kind, DistinctParam(e).value)
  }

  predicate StandsAfter(db: Db, t: nat, n: nat)
    requires t in db.tags && n in db.tags
  {
    db.tags[t].createdAt < db.tags[n].createdAt || (db.tags[t].createdAt == db.tags[n].createdAt && n <= t)
  }

  /** The joined row that the sweep spares. */
  predicate IsSpared(db: Db, e: Event, n: nat)
    requires IsParamReplaceable(e)
  {
    n in Join(db, e)
    && forall t :: t in Join(db, e) ==> StandsAfter(db, t, n)
  }

  lemma SparedExists(db: Db, e: Event) returns (n: nat)
    requires IsParamReplaceable(e) && Join(db, e) != {}
    ensures IsSpared(db, e, n)
    ensures forall r :: r in Older(db, e) <==> exists t :: t in Join(db, e) && t != n && db.tags[t].eventId == r
  {
    var slot := map t | t in SlotRows(db, e.pubkey, e.kind, DistinctParam(e).value) :: db.tags[t].createdAt;
    assert slot.Keys == Join(db, e);
    n := Newest(slot);
  }

  /** All others in the newcomer's slot are older than it. */
  predicate Leads(db: Db, e: Event, id: nat) {
    id in db.events && db.events[id].content == e
    && forall q :: q in db.events && q != id && Sits(db.events[q].content, LookupSlot(e)) ==>
      db.events[q].content.createdAt < e.createdAt
  }

  predicate SqueezedIn(db: Db, e: Event, id: nat, x: Event) {
    exists q :: q in db.events && q != id && Squeezes(e, db.events[q].content, x)
  }

  lemma BothRowsOfOne(db: Db, e: Event, t: nat, n: nat)
    requires Mirror(db) && IsParamReplaceable(e) && t in Join(db, e) && n in Join(db, e) && t != n
    requires db.tags[t].eventId == db.tags[n].eventId
    ensures db.tags[t].eventId in db.events && SitsTwice(db.events[db.tags[t].eventId].content, LookupSlot(e))
  {
    JoinMeaning(db, e, t);
    JoinMeaning(db, e, n);
    JoinRows(db, e, db.tags[t].eventId);
    TwoRows(RowsFor(db.tags, db.tags[t].eventId, "d", DistinctParam(e).value), t, n);
  }

  lemma RowsOfTwo(db: Db, e: Event, t: nat, n: nat)
    requires Mirror(db) && IsParamReplaceable(e) && t in Join(db, e) && IsSpared(db, e, n)
    requires db.tags[t].eventId != db.tags[n].eventId
    ensures
      var r, q := db.tags[t].eventId, db.tags[n].eventId;
      r in db.events && q in db.events
      && Sits(db.events[r].content, LookupSlot(e)) && Sits(db.events[q].content, LookupSlot(e))
      && db.events[r].content != db.events[q].content
      && db.events[r].content.createdAt <= db.events[q].content.createdAt
  {
    JoinMeaning(db, e, t);
    JoinMeaning(db, e, n);
    assert RowFaithful(db.events[db.tags[t].eventId]) && RowFaithful(db.events[db.tags[n].eventId]);
  }

  lemma RemovedIsOusted(db: Db, e: Event, id: nat, r: nat)
    requires Mirror(db) && IsParamReplaceable(e) && Leads(db, e, id) && r != id && r in Older(db, e)
    ensures
      r in db.events
      && (Ousts(e, db.events[r].content) || SqueezedIn(db, e, id, db.events[r].content))
  {
    var n := SparedExists(db, e);
    var t :| t in Join(db, e) && t != n && db.tags[t].eventId == r;
    var q := db.tags[n].eventId;
    if q == r {
      BothRowsOfOne(db, e, t, n);
    } else {
      RowsOfTwo(db, e, t, n);
      assert q == id ==> Owns(e);
      assert Owns(e) || Squeezes(e, db.events[q].content, db.events[r].content);
    }
  }

  lemma TwoRows(s: set<nat>, t: nat, u: nat)
    requires t in s && u in s && t != u
    ensures |s| >= 2
  {
    SubsetSize({t, u}, s);
  }

  lemma OustedIsRemoved(db: Db, e: Event, id: nat, r: nat)
    requires Mirror(db) && IsParamReplaceable(e) && Leads(db, e, id) && r != id && r in db.events
    requires Ousts(e, db.events[r].content)
    ensures r in Older(db, e)
  {
    JoinRows(db, e, r);
    var own := RowsFor(db.tags, r, "d", DistinctParam(e).value);
    var t :| t in own;
    var n := SparedExists(db, e);
    JoinMeaning(db, e, t);
    if Owns(e) {
      JoinRows(db, e, id);
      var u :| u in RowsFor(db.tags, id, "d", DistinctParam(e).value);
      JoinMeaning(db, e, u);
      assert t != n;
    } else {
      var u := TwoMembers(own, n);
      JoinMeaning(db, e, u);
    }
  }

  /** The tag rows of `q` stand before those of `r`. */
  predicate RowsBefore(db: Db, q: nat, r: nat) {
    forall t, u :: t in db.tags && u in db.tags && db.tags[t].eventId == q && db.tags[u].eventId == r ==> t < u
  }

  lemma SqueezedIsRemoved(db: Db, e: Event, q: nat, r: nat)
    requires Mirror(db) && IsParamReplaceable(e) && q in db.events && r in db.events
    requires Squeezes(e, db.events[q].content, db.events[r].content)
    requires db.events[r].content.createdAt < db.events[q].content.createdAt || RowsBefore(db, q, r)
    ensures r in Older(db, e)
  {
    JoinRows(db, e, q);
    JoinRows(db, e, r);
    var t :| t in RowsFor(db.tags, q, "d", DistinctParam(e).value);
    var u :| u in RowsFor(db.tags, r, "d", DistinctParam(e).value);
    JoinMeaning(db, e, t);
    JoinMeaning(db, e, u);
    var n := SparedExists(db, e);
    assert u != n;
  }
}
