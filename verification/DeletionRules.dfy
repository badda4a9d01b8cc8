/** Who is hidden by whom (src/repo/sqlite.rs:201-252), with the kinds and the tags spelled out. */
module DeletionRules {
  import opened Hex
  import opened Events
  import opened Store
  import opened StoreInvariants
  import opened Refinement
  import opened Convergence
  import opened AnyOrder
  import opened AnyOrderNeeds
  import opened KindRules

  /** A deletion by the same author with an `e` tag that spells the id in hex, in either case. */
  ghost predicate NamesHash(k: Event, x: Event) {
    k.kind == 5 && Decode(k.pubkey) == Decode(x.pubkey)
    && exists v :: HasTag(k.tags, "e", v) && |v| == 64 && IsHex(v) && Decode(v) == Decode(x.id)
  }

  /** ... or repeats it character for character. */
  predicate NamesText(k: Event, x: Event) {
    k.kind == 5 && Decode(k.pubkey) == Decode(x.pubkey) && HasTag(k.tags, "e", x.id)
  }

  lemma DeletesMeans(k: Event, x: Event)
    requires Checked(x)
    ensures Deletes(k, x) <==> NamesHash(k, x) && x.kind != 5 && x.kind != 1059
    ensures DeletesByText(k, x) <==> NamesText(k, x) && x.kind != 5 && x.kind != 1059
  {
    if Deletes(k, x) {
      var v :| v in TagValuesByName(k.tags, "e") && IsHex(v) && |v| == 64 && Decode(v).value == Decode(x.id).value;
      TagValuesByNameMember(k.tags, "e", v);
    }
    if NamesHash(k, x) {
      var v :| HasTag(k.tags, "e", v) && |v| == 64 && IsHex(v) && Decode(v) == Decode(x.id);
      TagValuesByNameMember(k.tags, "e", v);
    }
  }

  // ---- what is never hidden ------------------------------------------------------------

  /** No deletion and no gift wrap is hidden. */
  predicate SpecialVisible(db: Db) {
    forall r :: r in db.events && (db.events[r].kind == 5 || db.events[r].kind == 1059) ==> !db.events[r].hidden
  }

  lemma HidingKeepsSpecial(db: Db, e: Event, id: nat)
    requires SpecialVisible(db) && (id in db.events ==> db.events[id].kind == e.kind)
    ensures SpecialVisible(Hidden(db, e, id).db)
  {
  }

  lemma PersistKeepsSpecial(db: Db, e: Event)
    requires SpecialVisible(db)
    ensures SpecialVisible(Persist(db, e).db)
  {
    PersistShape(db, e);
    if Persist(db, e).db != db {
      var db1 := Inserted(db, e, Decode(e.id).value, Decode(e.pubkey).value);
      assert SpecialVisible(Swept(db1, e));
      HidingKeepsSpecial(Swept(db1, e), e, NextRowId(db.events));
    }
  }

  lemma {:induction false} RunKeepsSpecial(ops: seq<Op>)
    ensures SpecialVisible(Run(EMPTY, ops))
  {
    if ops != [] {
      var front, op := ops[..|ops| - 1], ops[|ops| - 1];
      RunKeepsSpecial(front);
      match op
      case PersistOp(e) => PersistKeepsSpecial(Run(EMPTY, front), e);
      case ExpireOp(now) =>
    }
  }

  // ---- what is hidden ---------------------------------------------------------------------

  /** Only an event that is neither a deletion nor a gift wrap, and that its author has named, is hidden. */
  lemma HiddenIsNamed(evs: seq<Event>, x: Event)
    requires Submitted(evs) && x in V(evs) && V(evs)[x]
    ensures x.kind != 5 && x.kind != 1059 && exists k :: k in evs && NamesHash(k, x)
  {
    AllWithin(evs);
    FlagIsNamed(EventSet(evs), evs, x);
    var i :| 0 <= i < |evs| && evs[i] == x;
    var k :| k in EventSet(evs) && Storable(k) && Deletes(k, x);
    DeletesMeans(k, x);
  }

  lemma KeptIsUnbeaten(s: set<Event>, x: Event)
    requires x in s && KeptForGood(x.kind) && Fits(x)
    ensures Unbeaten(s, x)
  {
    FitsMeans(x);
  }

  /** A deletion that repeats the id hides the event, whichever of the two comes first. */
  lemma NamedIsHidden(evs: seq<Event>, x: Event, k: Event)
    requires Submitted(evs) && x in evs && k in evs && Fits(x) && Fits(k) && NamesText(k, x)
    requires KeptForGood(x.kind) && x.kind != 5 && x.kind != 1059
    ensures x in V(evs) && V(evs)[x]
  {
    var s := EventSet(evs);
    var i :| 0 <= i < |evs| && evs[i] == x;
    KeptIsUnbeaten(s, x);
    FitsMeans(k);
    DeletesMeans(k, x);
    TextNamesHash(k, x);
    NamedIsFlagged(s, evs, x, k);
  }

  /** A deletion that spells it in any case does so when it comes after. */
  lemma NamedLaterIsHidden(evs: seq<Event>, more: seq<Event>, x: Event, k: Event)
    requires Submitted(evs + more) && x in evs && k in more && k !in evs && Fits(x) && Fits(k) && NamesHash(k, x)
    requires KeptForGood(x.kind) && x.kind != 5 && x.kind != 1059
    ensures x in V(evs + more) && V(evs + more)[x]
  {
    var s := EventSet(evs + more);
    assert x in evs + more;
    var i :| 0 <= i < |evs + more| && (evs + more)[i] == x;
    KeptIsUnbeaten(s, x);
    FitsMeans(k);
    DeletesMeans(k, x);
    HashFlags(s, evs, more, x, k);
  }
}
