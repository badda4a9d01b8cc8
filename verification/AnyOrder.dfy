/**
 Does the order of arrival matter? For any submissions that passed the relay's checks, whatever `d`
 tags they carry and whatever their numbers: exactly when it does not.
 */
module AnyOrder {
  import opened Events
  import opened Store
  import opened StoreInvariants
  import opened Refinement
  import opened Convergence
  import opened Occupancy
  import opened AnyWrite

  // ---- runs -----------------------------------------------------------------------

  /** Events that passed the checks, of which equal ids mean equal events. */
  predicate Submitted(evs: seq<Event>) {
    (forall i :: 0 <= i < |evs| ==> Checked(evs[i]))
    && (forall i, j :: 0 <= i < |evs| && 0 <= j < |evs| && evs[i].id == evs[j].id ==> evs[i] == evs[j])
  }

  function V(evs: seq<Event>): Shelf {
    View(StoreOf(evs))
  }

  /** What is stored came in and stays. */
  predicate Within(v: Shelf, evs: seq<Event>) {
    forall x :: x in v ==> x in evs && Stays(x)
  }

  lemma SubmittedFront(evs: seq<Event>, n: nat)
    requires Submitted(evs) && n <= |evs|
    ensures Submitted(evs[..n])
  {
  }

  lemma StoreNext(evs: seq<Event>, e: Event)
    ensures StoreOf(evs + [e]) == Persist(StoreOf(evs), e).db
  {
    var ops := Persists(evs + [e]);
    assert ops[..|evs|] == Persists(evs) && ops[|evs|] == PersistOp(e);
  }

  lemma NoClashIn(evs: seq<Event>, e: Event)
    requires Submitted(evs + [e]) && Within(V(evs), evs)
    ensures Checked(e) && NoClash(V(evs), e) && forall x :: x in V(evs) ==> Checked(x)
  {
    var all := evs + [e];
    assert all[|evs|] == e;
    forall x | x in V(evs) ensures Checked(x) && (x.id == e.id ==> x == e) {
      var i :| 0 <= i < |evs| && evs[i] == x;
      assert all[i] == x;
    }
  }

  lemma MoveWithin(evs: seq<Event>, e: Event)
    requires Within(V(evs), evs) && Moves(V(evs), e, V(evs + [e]))
    ensures Within(V(evs + [e]), evs + [e])
  {
  }

  lemma {:induction false} AllWithin(evs: seq<Event>)
    requires Submitted(evs)
    ensures Mirror(StoreOf(evs)) && Within(V(evs), evs)
  {
    if evs == [] {
      assert Persists(evs) == [];
    } else {
      var front, e := evs[..|evs| - 1], evs[|evs| - 1];
      assert evs == front + [e];
      SubmittedFront(evs, |front|);
      AllWithin(front);
      NextMoves(front, e);
      MoveWithin(front, e);
    }
  }

  lemma NextMoves(evs: seq<Event>, e: Event)
    requires Submitted(evs + [e]) && Mirror(StoreOf(evs)) && Within(V(evs), evs)
    ensures Mirror(StoreOf(evs + [e])) && Moves(V(evs), e, V(evs + [e]))
  {
    StoreNext(evs, e);
    NoClashIn(evs, e);
    PersistMoves(StoreOf(evs), e);
    PersistMirror(StoreOf(evs), e);
  }

  /** Every run goes by such moves. */
  lemma RunMoves(evs: seq<Event>, e: Event)
    requires Submitted(evs + [e])
    ensures Within(V(evs), evs) && Moves(V(evs), e, V(evs + [e]))
  {
    assert (evs + [e])[..|evs|] == evs;
    SubmittedFront(evs + [e], |evs|);
    AllWithin(evs);
    NextMoves(evs, e);
  }

  // ---- the condition ------------------------------------------------------------------

  /** Nothing submitted can turn it away or remove it. */
  ghost predicate Unbeaten(s: set<Event>, x: Event) {
    x in s && Stays(x)
    && (forall y :: y in s && y != x && Stays(y) ==> !Bars(y, x))
    && (forall y :: y in s && Storable(y) ==> !Ousts(y, x))
    && (forall y, z :: y in s && z in s && Storable(y) && Stays(z) ==> !Squeezes(y, z, x))
  }

  /** One unbeaten event that both turns `x` away and removes it. */
  ghost predicate BeatenBy(s: set<Event>, f: Event, x: Event) {
    Unbeaten(s, f) && Bars(f, x) && Ousts(f, x)
  }

  /** One that turns `x` away, one that removes it, and `x` cannot come between them. */
  ghost predicate BeatenByTwo(s: set<Event>, u: Event, z: Event, x: Event) {
    Unbeaten(s, u) && Unbeaten(s, z) && Bars(u, x) && Ousts(z, x) && Squeezes(u, z, x)
  }

  /** Wherever it arrives, unbeaten events turn it away or remove it. */
  ghost predicate Beaten(s: set<Event>, x: Event) {
    (exists f :: BeatenBy(s, f, x)) || (exists u, z :: BeatenByTwo(s, u, z, x))
  }

  predicate HashNamed(s: set<Event>, x: Event) {
    exists k :: k in s && Storable(k) && Deletes(k, x)
  }

  predicate TextNamed(s: set<Event>, x: Event) {
    exists k :: k in s && Storable(k) && DeletesByText(k, x)
  }

  ghost predicate Settled(s: set<Event>) {
    forall x :: x in s && Stays(x) ==> Unbeaten(s, x) || Beaten(s, x)
  }

  ghost predicate NamedAlike(s: set<Event>) {
    forall x :: Unbeaten(s, x) && HashNamed(s, x) ==> TextNamed(s, x)
  }

  // ---- sufficiency -----------------------------------------------------------------------

  /** One move, among submissions of the set. */
  predicate MoveIn(s: set<Event>, v: Shelf, e: Event, v': Shelf) {
    Moves(v, e, v') && e in s && forall x :: x in v ==> x in s && Stays(x)
  }

  lemma UnbeatenEnters(s: set<Event>, v: Shelf, e: Event, v': Shelf)
    requires MoveIn(s, v, e, v') && Unbeaten(s, e)
    ensures e in v'
  {
  }

  lemma UnbeatenRemains(s: set<Event>, v: Shelf, e: Event, v': Shelf, x: Event)
    requires MoveIn(s, v, e, v') && Unbeaten(s, x) && x in v
    ensures x in v'
  {
  }

  lemma RunMoveIn(s: set<Event>, evs: seq<Event>, e: Event)
    requires Submitted(evs + [e]) && EventSet(evs + [e]) <= s
    ensures MoveIn(s, V(evs), e, V(evs + [e]))
  {
    RunMoves(evs, e);
    assert (evs + [e])[|evs|] == e;
    forall x | x in V(evs) ensures x in s && Stays(x) {
      var i :| 0 <= i < |evs| && evs[i] == x;
      assert (evs + [e])[i] == x;
      assert x in EventSet(evs + [e]);
    }
    assert e in EventSet(evs + [e]);
  }

  /** The last move of a run. */
  lemma LastMove(s: set<Event>, evs: seq<Event>) returns (front: seq<Event>, e: Event)
    requires evs != [] && Submitted(evs) && EventSet(evs) <= s
    ensures evs == front + [e] && |front| == |evs| - 1 && Submitted(front) && EventSet(front) <= s
    ensures MoveIn(s, V(front), e, V(evs)) && forall x :: x in V(front) ==> x in front
    ensures forall x :: x in evs ==> x in front || x == e
  {
    front, e := evs[..|evs| - 1], evs[|evs| - 1];
    SubmittedFront(evs, |front|);
    RunMoveIn(s, front, e);
    AllWithin(front);
    forall x | x in EventSet(front) ensures x in s { assert x in EventSet(evs); }
  }

  lemma {:induction false} UnbeatenIsStored(s: set<Event>, evs: seq<Event>, x: Event)
    requires Submitted(evs) && EventSet(evs) <= s && x in evs && Unbeaten(s, x)
    ensures x in V(evs)
    decreases |evs|
  {
    var front, e := LastMove(s, evs);
    if x in front {
      UnbeatenIsStored(s, front, x);
      UnbeatenRemains(s, V(front), e, V(evs), x);
    } else {
      UnbeatenEnters(s, V(front), e, V(evs));
    }
  }

  lemma MoveBeats(s: set<Event>, v: Shelf, e: Event, v': Shelf, f: Event, x: Event)
    requires MoveIn(s, v, e, v') && BeatenBy(s, f, x)
    requires f in v ==> x !in v
    requires f in v || e == f
    ensures x !in v'
  {
    if f in v {
      UnbeatenRemains(s, v, e, v', f);
    } else {
      UnbeatenEnters(s, v, e, v');
    }
  }

  lemma {:induction false} BeatenIsOut(s: set<Event>, evs: seq<Event>, f: Event, x: Event)
    requires Submitted(evs) && EventSet(evs) <= s && f in evs && BeatenBy(s, f, x)
    ensures x !in V(evs)
    decreases |evs|
  {
    var front, e := LastMove(s, evs);
    if f in front {
      UnbeatenIsStored(s, front, f);
      BeatenIsOut(s, front, f, x);
    }
    MoveBeats(s, V(front), e, V(evs), f, x);
  }

  lemma MoveBeatsByTwo(s: set<Event>, v: Shelf, e: Event, v': Shelf, u: Event, z: Event, x: Event)
    requires MoveIn(s, v, e, v') && BeatenByTwo(s, u, z, x)
    requires u in v && z in v ==> x !in v
    requires (u in v || e == u) && (z in v || e == z)
    ensures x !in v'
  {
    if e in v {
    } else {
      if e == u || e == z { UnbeatenEnters(s, v, e, v'); }
    }
  }

  lemma {:induction false} BeatenByTwoIsOut(s: set<Event>, evs: seq<Event>, u: Event, z: Event, x: Event)
    requires Submitted(evs) && EventSet(evs) <= s && u in evs && z in evs && BeatenByTwo(s, u, z, x)
    ensures x !in V(evs)
    decreases |evs|
  {
    var front, e := LastMove(s, evs);
    if u in front { UnbeatenIsStored(s, front, u); }
    if z in front { UnbeatenIsStored(s, front, z); }
    if u in front && z in front { BeatenByTwoIsOut(s, front, u, z, x); }
    MoveBeatsByTwo(s, V(front), e, V(evs), u, z, x);
  }

  /** In a settled set, exactly the unbeaten events are stored. */
  lemma StoredIsUnbeaten(evs: seq<Event>, x: Event)
    requires Submitted(evs) && Settled(EventSet(evs))
    ensures x in V(evs) <==> Unbeaten(EventSet(evs), x)
  {
    var s := EventSet(evs);
    AllWithin(evs);
    if Unbeaten(s, x) {
      UnbeatenIsStored(s, evs, x);
    } else if x in V(evs) {
      assert x in s && Beaten(s, x);
      if f :| BeatenBy(s, f, x) {
        BeatenIsOut(s, evs, f, x);
      } else {
        var u, z :| BeatenByTwo(s, u, z, x);
        BeatenByTwoIsOut(s, evs, u, z, x);
      }
    }
  }

  // ---- hidden flags ---------------------------------------------------------------------

  lemma DeletionIsUnbeaten(s: set<Event>, k: Event)
    requires k in s && k.kind == DELETION && Storable(k)
    ensures Unbeaten(s, k)
  {
  }

  lemma MoveFlags(v: Shelf, e: Event, v': Shelf, x: Event)
    requires Moves(v, e, v') && x in v' && v'[x]
    ensures (x in v && v[x]) || (x == e && DeletedOn(v, e)) || (Storable(e) && Deletes(e, x))
  {
  }

  lemma DeletedOnIsNamed(s: set<Event>, v: Shelf, x: Event)
    requires Checked(x) && DeletedOn(v, x) && forall k :: k in v ==> k in s && Stays(k)
    ensures HashNamed(s, x)
  {
    var k :| k in v && DeletesByText(k, x);
    TextNamesHash(k, x);
  }

  /** A flag is set only by a deletion that names the hash. */
  lemma {:induction false} FlagIsNamed(s: set<Event>, evs: seq<Event>, x: Event)
    requires Submitted(evs) && EventSet(evs) <= s && x in V(evs) && V(evs)[x]
    ensures HashNamed(s, x)
    decreases |evs|
  {
    if evs == [] {
      AllWithin(evs);
    } else {
      var front, e := LastMove(s, evs);
      MoveFlags(V(front), e, V(evs), x);
      if x in V(front) && V(front)[x] {
        FlagIsNamed(s, front, x);
      } else if x == e && DeletedOn(V(front), e) {
        assert evs[|evs| - 1] == e;
        DeletedOnIsNamed(s, V(front), e);
      }
    }
  }

  lemma MoveNames(v: Shelf, e: Event, v': Shelf, x: Event, k: Event)
    requires Moves(v, e, v') && x in v' && DeletesByText(k, x) && Deletes(k, x)
    requires x in v && k in v ==> v[x]
    requires (x in v || x == e) && (k in v || (k == e && Enters(v, k)))
    ensures v'[x]
  {
    if x !in v {
      assert k in v && DeletedOn(v, x);
    }
  }

  /** An unbeaten event that a deletion names by text is hidden, whichever comes first. */
  lemma {:induction false} NamedIsFlagged(s: set<Event>, evs: seq<Event>, x: Event, k: Event)
    requires Submitted(evs) && EventSet(evs) <= s && Unbeaten(s, x) && x in evs
    requires k in evs && Storable(k) && DeletesByText(k, x) && Deletes(k, x)
    ensures x in V(evs) && V(evs)[x]
    decreases |evs|
  {
    var front, e := LastMove(s, evs);
    UnbeatenIsStored(s, evs, x);
    assert k in EventSet(evs);
    DeletionIsUnbeaten(s, k);
    if k in front { UnbeatenIsStored(s, front, k); }
    if x in front { UnbeatenIsStored(s, front, x); }
    if x in front && k in front { NamedIsFlagged(s, front, x, k); }
    if k !in front { DeletionEnters(V(front), k); }
    MoveNames(V(front), e, V(evs), x, k);
  }

  lemma DeletionEnters(v: Shelf, k: Event)
    requires k !in v && k.kind == DELETION && Storable(k)
    ensures Enters(v, k)
  {
  }

  /** The unbeaten events, hidden when a deletion by the author names them. */
  ghost function Rest(s: set<Event>): Shelf {
    map x | x in s && Unbeaten(s, x) :: HashNamed(s, x)
  }

  /** The closed form, for any submissions: the tables hold a function of the set of submitted events. */
  lemma AnyClosedForm(evs: seq<Event>)
    requires Submitted(evs) && Settled(EventSet(evs)) && NamedAlike(EventSet(evs))
    ensures V(evs) == Rest(EventSet(evs))
  {
    var s := EventSet(evs);
    var v, w := V(evs), Rest(s);
    forall x ensures x in v.Keys <==> x in w.Keys {
      StoredIsUnbeaten(evs, x);
    }
    forall x | x in v.Keys ensures v[x] == w[x] {
      StoredIsUnbeaten(evs, x);
      if v[x] { FlagIsNamed(s, evs, x); }
      if HashNamed(s, x) {
        var k :| k in s && Storable(k) && DeletesByText(k, x);
        var i :| 0 <= i < |evs| && evs[i] == x;
        TextNamesHash(k, x);
        NamedIsFlagged(s, evs, x, k);
      }
    }
    SameShelf(v, w);
  }
}
