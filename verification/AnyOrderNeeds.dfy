/** Nothing less than the condition of `AnyOrder` will do: if every order leaves the same store, the set meets it. */
module AnyOrderNeeds {
  import opened Wrappers
  import opened Events
  import opened Slots
  import opened Refinement
  import opened Convergence
  import opened Occupancy
  import opened AnyWrite
  import opened AnyOrder

  // ---- runs made up from others ---------------------------------------------------------

  lemma SameSubmitted(evs: seq<Event>, other: seq<Event>)
    requires Submitted(evs) && EventSet(other) <= EventSet(evs)
    ensures Submitted(other)
  {
    forall i | 0 <= i < |other| ensures exists j :: 0 <= j < |evs| && evs[j] == other[i] {
      assert other[i] in EventSet(other);
    }
  }

  lemma FrontSubmitted(evs: seq<Event>, more: seq<Event>)
    requires Submitted(evs + more)
    ensures Submitted(evs) && (more != [] ==> Submitted(evs + more[..|more| - 1]))
  {
    assert (evs + more)[..|evs|] == evs;
    SubmittedFront(evs + more, |evs|);
    if more != [] {
      assert (evs + more)[..|evs + more| - 1] == evs + more[..|more| - 1];
      SubmittedFront(evs + more, |evs + more| - 1);
    }
  }

  /** The last of `more` arrives. */
  lemma LastOfMore(evs: seq<Event>, more: seq<Event>) returns (front: seq<Event>, e: Event)
    requires Submitted(evs + more) && more != []
    ensures more == front + [e] && |front| == |more| - 1 && Submitted(evs + front)
    ensures Within(V(evs + front), evs + front) && Moves(V(evs + front), e, V(evs + more))
  {
    front, e := more[..|more| - 1], more[|more| - 1];
    FrontSubmitted(evs, more);
    assert evs + more == evs + front + [e];
    RunMoves(evs + front, e);
  }

  lemma {:induction false} NeverBack(evs: seq<Event>, more: seq<Event>, x: Event)
    requires Submitted(evs + more) && x !in V(evs) && x !in more
    ensures x !in V(evs + more)
    decreases |more|
  {
    if more == [] {
      assert evs + more == evs;
    } else {
      var front, e := LastOfMore(evs, more);
      NeverBack(evs, front, x);
    }
  }

  /** Submissions that are already stored, or turned away, change nothing. */
  lemma {:induction false} Unmoved(evs: seq<Event>, more: seq<Event>)
    requires Submitted(evs + more)
    requires forall e :: e in more ==> e in V(evs) || Barred(V(evs), e)
    ensures V(evs + more) == V(evs)
    decreases |more|
  {
    if more == [] {
      assert evs + more == evs;
    } else {
      var front, e := LastOfMore(evs, more);
      Unmoved(evs, front);
    }
  }

  /** Nothing in `more` removes `x`. */
  predicate Spares(evs: seq<Event>, more: seq<Event>, x: Event) {
    (forall e :: e in more ==> !Ousts(e, x))
    && forall e, z :: e in more && z in evs + more && Stays(z) ==> !Squeezes(e, z, x)
  }

  lemma {:induction false} RemainsThrough(evs: seq<Event>, more: seq<Event>, x: Event)
    requires Submitted(evs + more) && x in V(evs) && Spares(evs, more, x)
    ensures x in V(evs + more)
    decreases |more|
  {
    if more == [] {
      assert evs + more == evs;
    } else {
      var front, e := LastOfMore(evs, more);
      SparesFront(evs, more, front, e, x);
      RemainsThrough(evs, front, x);
      SparedInMove(evs + front, V(evs + front), e, V(evs + more), x);
    }
  }

  lemma SparesFront(evs: seq<Event>, more: seq<Event>, front: seq<Event>, e: Event, x: Event)
    requires more == front + [e] && Spares(evs, more, x)
    ensures Spares(evs, front, x) && !Ousts(e, x)
    ensures forall z :: z in evs + front && Stays(z) ==> !Squeezes(e, z, x)
  {
    assert e in more && forall z :: z in evs + front ==> z in evs + more;
    assert forall d :: d in front ==> d in more;
  }

  lemma SparedInMove(evs: seq<Event>, v: Shelf, e: Event, v': Shelf, x: Event)
    requires Moves(v, e, v') && Within(v, evs) && x in v
    requires !Ousts(e, x) && forall z :: z in evs && Stays(z) ==> !Squeezes(e, z, x)
    ensures x in v'
  {
  }

  // ---- the smallest runs that lose an event ------------------------------------------------

  lemma First1(x: Event)
    requires Submitted([x])
    ensures forall y :: y in V([x]) <==> y == x && Stays(x)
  {
    assert [] + [x] == [x];
    RunMoves([], x);
    assert forall y :: y !in V([]);
  }

  lemma Then(evs: seq<Event>, e: Event, all: seq<Event>)
    requires Submitted(all) && all == evs + [e]
    ensures Within(V(evs), evs) && Moves(V(evs), e, V(all))
  {
    RunMoves(evs, e);
  }

  lemma BarredSecond(y: Event, x: Event)
    requires Submitted([y, x]) && y != x && Stays(y) && Bars(y, x)
    ensures x !in V([y, x])
  {
    SubmittedFront([y, x], 1);
    assert [y, x][..1] == [y];
    First1(y);
    Then([y], x, [y, x]);
    assert Barred(V([y]), x);
  }

  lemma OustedFirst(x: Event, y: Event)
    requires Submitted([x, y]) && Storable(y) && Ousts(y, x)
    ensures x !in V([x, y])
  {
    SubmittedFront([x, y], 1);
    assert [x, y][..1] == [x];
    First1(x);
    Then([x], y, [x, y]);
    assert !Barred(V([x]), y);
  }

  lemma BothStay(v: Shelf, z: Event, x: Event, v': Shelf, y: Event)
    requires (forall w :: w in v <==> w == z) && Moves(v, x, v')
    requires Stays(z) && Stays(x) && Squeezes(y, z, x) && !Bars(z, x)
    ensures Enters(v, x) && x in v' && z in v' && forall w :: w in v' ==> w == x || w == z
  {
    assert !Ousts(x, z) && !Squeezed(v, x, z);
  }

  lemma ThirdEnters(v: Shelf, z: Event, x: Event, y: Event)
    requires (forall w :: w in v ==> w == x || w == z) && Storable(y) && Squeezes(y, z, x)
    ensures Enters(v, y)
  {
  }

  lemma SqueezedNext(evs: seq<Event>, x: Event, y: Event, z: Event)
    requires Submitted(evs + [x]) && Submitted(evs + [x] + [y])
    requires z in V(evs) && Enters(V(evs), x) && x in V(evs + [x]) && z in V(evs + [x])
    requires Enters(V(evs + [x]), y) && Squeezes(y, z, x)
    ensures x !in V(evs + [x] + [y])
  {
    assert (evs + [x])[..|evs|] == evs;
    SubmittedFront(evs + [x], |evs|);
    AllWithin(evs);
    AllWithin(evs + [x]);
    NoClashIn(evs, x);
    NoClashIn(evs + [x], y);
    StoreNext(evs, x);
    StoreNext(evs + [x], y);
    LaterGoesOut(StoreOf(evs), x, z, y);
  }

  lemma SqueezedBetween(z: Event, x: Event, y: Event)
    requires Submitted([z, x, y]) && Stays(z) && Stays(x) && Storable(y) && Squeezes(y, z, x) && !Bars(z, x)
    ensures x !in V([z, x, y])
  {
    SubmittedFront([z, x, y], 2);
    SubmittedFront([z, x, y], 1);
    assert [z, x, y][..2] == [z] + [x] && [z, x, y][..1] == [z] && [z] + [x] + [y] == [z, x, y];
    First1(z);
    Then([z], x, [z] + [x]);
    BothStay(V([z]), z, x, V([z] + [x]), y);
    ThirdEnters(V([z] + [x]), z, x, y);
    SqueezedNext([z], x, y, z);
  }

  // ---- what every order stores is unbeaten ----------------------------------------------------

  lemma SameStore(evs: seq<Event>, other: seq<Event>)
    requires OrderIndependent(evs) && EventSet(other) == EventSet(evs)
    ensures V(other) == V(evs)
  {
  }

  /** A run that starts by losing `x` and never submits it again. */
  lemma LostInSomeOrder(evs: seq<Event>, start: seq<Event>, x: Event)
    requires Submitted(evs) && OrderIndependent(evs)
    requires x in start && (forall e :: e in start ==> e in evs) && x !in V(start)
    ensures x !in V(evs)
  {
    var rest := Without(evs, x);
    var other := start + rest;
    forall e ensures e in EventSet(other) <==> e in EventSet(evs) {
      WithoutMember(evs, x, e);
      assert e in other <==> e in start || e in rest;
    }
    assert EventSet(other) == EventSet(evs);
    SameSubmitted(evs, other);
    WithoutMember(evs, x, x);
    NeverBack(start, rest, x);
    SameStore(evs, other);
  }

  lemma PartSubmitted(evs: seq<Event>, start: seq<Event>)
    requires Submitted(evs) && forall e :: e in start ==> e in evs
    ensures Submitted(start)
  {
    assert EventSet(start) <= EventSet(evs);
    SameSubmitted(evs, start);
  }

  lemma BarredIsLost(evs: seq<Event>, y: Event, x: Event)
    requires Submitted(evs) && OrderIndependent(evs) && x in evs && y in evs && y != x && Stays(y) && Bars(y, x)
    ensures x !in V(evs)
  {
    PartSubmitted(evs, [y, x]);
    BarredSecond(y, x);
    LostInSomeOrder(evs, [y, x], x);
  }

  lemma OustedIsLost(evs: seq<Event>, y: Event, x: Event)
    requires Submitted(evs) && OrderIndependent(evs) && x in evs && y in evs && Storable(y) && Ousts(y, x)
    ensures x !in V(evs)
  {
    PartSubmitted(evs, [x, y]);
    OustedFirst(x, y);
    LostInSomeOrder(evs, [x, y], x);
  }

  lemma SqueezedIsLost(evs: seq<Event>, y: Event, z: Event, x: Event)
    requires Submitted(evs) && OrderIndependent(evs) && x in evs && y in evs && z in evs
    requires Storable(y) && Stays(z) && Stays(x) && Squeezes(y, z, x)
    ensures x !in V(evs)
  {
    if Bars(z, x) {
      BarredIsLost(evs, z, x);
    } else {
      PartSubmitted(evs, [z, x, y]);
      SqueezedBetween(z, x, y);
      LostInSomeOrder(evs, [z, x, y], x);
    }
  }

  lemma StoredMustBeUnbeaten(evs: seq<Event>, x: Event)
    requires Submitted(evs) && OrderIndependent(evs)
    ensures x in V(evs) <==> Unbeaten(EventSet(evs), x)
  {
    var s := EventSet(evs);
    AllWithin(evs);
    if x in V(evs) {
      forall y | y in s && y != x && Stays(y) ensures !Bars(y, x) {
        if Bars(y, x) { BarredIsLost(evs, y, x); }
      }
      forall y | y in s && Storable(y) ensures !Ousts(y, x) {
        if Ousts(y, x) { OustedIsLost(evs, y, x); }
      }
      forall y, z | y in s && z in s && Storable(y) && Stays(z) ensures !Squeezes(y, z, x) {
        if Squeezes(y, z, x) { SqueezedIsLost(evs, y, z, x); }
      }
    }
    if Unbeaten(s, x) {
      UnbeatenIsStored(s, evs, x);
    }
  }

  /** Any event that could stay and is not stored is turned away by a stored one. */
  lemma LostMustBeBarred(evs: seq<Event>, y: Event)
    requires Submitted(evs) && OrderIndependent(evs) && y in evs && Stays(y) && y !in V(evs)
    ensures Barred(V(evs), y)
  {
    var other := evs + [y];
    forall e ensures e in EventSet(other) <==> e in EventSet(evs) {
      assert e in other <==> e in evs || e == y;
    }
    assert EventSet(other) == EventSet(evs);
    SameSubmitted(evs, other);
    RunMoves(evs, y);
    SameStore(evs, other);
  }

  // ---- an order that would store an event which is not beaten ------------------------------------

  function Those(evs: seq<Event>, a: set<Event>): seq<Event> {
    if evs == [] then [] else (if evs[0] in a then [evs[0]] else []) + Those(evs[1..], a)
  }

  lemma {:induction false} ThoseMember(evs: seq<Event>, a: set<Event>, x: Event)
    ensures x in Those(evs, a) <==> x in evs && x in a
  {
    if evs != [] {
      ThoseMember(evs[1..], a, x);
      assert x in evs <==> x == evs[0] || x in evs[1..];
    }
  }

  lemma {:induction false} FirstValueStands(tags: seq<Tag>, name: string)
    requires FirstValue(tags, name).Some? && FirstValue(tags, name).value != ""
    ensures HasTag(tags, name, FirstValue(tags, name).value)
  {
    if tags[0] != [] && tags[0][0] == name {
    } else {
      FirstValueStands(tags[1..], name);
      var i :| 0 <= i < |tags[1..]| && |tags[1..][i]| > 1 && tags[1..][i][0] == name
        && tags[1..][i][1] == FirstValue(tags, name).value;
      assert tags[i + 1] == tags[1..][i];
    }
  }

  lemma StrangerIsEmpty(e: Event)
    requires IsParamReplaceable(e) && !Owns(e)
    ensures DistinctParam(e) == Some("")
  {
    if FirstValue(e.tags, "d").Some? && FirstValue(e.tags, "d").value != "" {
      FirstValueStands(e.tags, "d");
    }
  }

  /** Two events that do not sit in their own slots do not sit in each other's. */
  lemma StrangersApart(u: Event, z: Event)
    requires !Owns(u) && !Owns(z)
    ensures !Sits(z, LookupSlot(u))
  {
    if Sits(z, LookupSlot(u)) {
      StrangerIsEmpty(u);
      StrangerIsEmpty(z);
    }
  }

  // The order: first what leaves nothing, then the unbeaten events that would remove `x`, or that are
  // strangers to their own slot and let it in, then `x`, then the strangers that would turn it away, then
  // the other unbeaten events, and last all else.

  ghost function Idle(s: set<Event>): set<Event> {
    set e | e in s && !Stays(e)
  }

  ghost function Earlier(s: set<Event>, x: Event): set<Event> {
    set e | e in s && Unbeaten(s, e) && (Ousts(e, x) || (!Owns(e) && !Bars(e, x)))
  }

  ghost function Strangers(s: set<Event>, x: Event): set<Event> {
    set e | e in s && Unbeaten(s, e) && !Ousts(e, x) && !Owns(e) && Bars(e, x)
  }

  ghost function Owners(s: set<Event>, x: Event): set<Event> {
    set e | e in s && Unbeaten(s, e) && !Ousts(e, x) && Owns(e)
  }

  ghost function Others(s: set<Event>, x: Event): set<Event> {
    set e | e in s && Stays(e) && e != x
  }

  /** `x` could stay, and is neither unbeaten nor beaten. */
  ghost predicate Loose(s: set<Event>, x: Event) {
    x in s && Stays(x) && !Unbeaten(s, x) && !Beaten(s, x)
  }

  ghost function Before(evs: seq<Event>, x: Event): seq<Event> {
    Those(evs, Idle(EventSet(evs))) + Those(evs, Earlier(EventSet(evs), x))
  }

  lemma LooseEnters(evs: seq<Event>, x: Event)
    requires Submitted(evs) && Loose(EventSet(evs), x)
    ensures x in V(Before(evs, x) + [x]) && Submitted(Before(evs, x) + [x])
  {
    var s, run := EventSet(evs), Before(evs, x);
    forall e | e in run + [x] ensures e in evs { BeforeMember(evs, x, e); }
    PartSubmitted(evs, run + [x]);
    RunMoves(run, x);
    forall y | y in V(run) ensures !Bars(y, x) && y != x {
      BeforeMember(evs, x, y);
      assert y in Earlier(s, x) && !BeatenBy(s, y, x);
    }
  }

  lemma BeforeMember(evs: seq<Event>, x: Event, e: Event)
    ensures e in Before(evs, x) <==> e in Idle(EventSet(evs)) || e in Earlier(EventSet(evs), x)
  {
    ThoseMember(evs, Idle(EventSet(evs)), e);
    ThoseMember(evs, Earlier(EventSet(evs), x), e);
  }

  /** A stranger that turns `x` away does not squeeze it out either, as long as only earlier events are there. */
  lemma StrangerSpares(s: set<Event>, x: Event, e: Event, z: Event)
    requires Loose(s, x) && e in Strangers(s, x) && Stays(z)
    requires z in Idle(s) || z in Earlier(s, x) || z == x || z in Strangers(s, x)
    ensures !Squeezes(e, z, x)
  {
    if !Owns(z) {
      StrangersApart(e, z);
    } else {
      assert !BeatenByTwo(s, e, z, x);
    }
  }

  ghost function Middle(evs: seq<Event>, x: Event): seq<Event> {
    Before(evs, x) + [x] + Those(evs, Strangers(EventSet(evs), x))
  }

  lemma MiddleMember(evs: seq<Event>, x: Event, e: Event)
    ensures e in Middle(evs, x)
      <==> e in Idle(EventSet(evs)) || e in Earlier(EventSet(evs), x) || e == x || e in Strangers(EventSet(evs), x)
  {
    BeforeMember(evs, x, e);
    ThoseMember(evs, Strangers(EventSet(evs), x), e);
  }

  lemma LooseInMiddle(evs: seq<Event>, x: Event)
    requires Submitted(evs) && Loose(EventSet(evs), x)
    ensures x in V(Middle(evs, x)) && Submitted(Middle(evs, x))
  {
    var s, run, more := EventSet(evs), Before(evs, x) + [x], Those(evs, Strangers(EventSet(evs), x));
    LooseEnters(evs, x);
    forall e | e in Middle(evs, x) ensures e in evs { MiddleMember(evs, x, e); }
    PartSubmitted(evs, Middle(evs, x));
    forall e | e in more ensures !Ousts(e, x) { ThoseMember(evs, Strangers(s, x), e); }
    forall e, z | e in more && z in run + more && Stays(z) ensures !Squeezes(e, z, x) {
      ThoseMember(evs, Strangers(s, x), e);
      MiddleMember(evs, x, z);
      StrangerSpares(s, x, e, z);
    }
    RemainsThrough(run, more, x);
  }

  ghost function Full(evs: seq<Event>, x: Event): seq<Event> {
    Middle(evs, x) + Those(evs, Owners(EventSet(evs), x))
  }

  lemma FullMember(evs: seq<Event>, x: Event, e: Event)
    ensures e in Full(evs, x) <==> e in Middle(evs, x) || e in Owners(EventSet(evs), x)
    ensures Unbeaten(EventSet(evs), e) ==> e in Full(evs, x)
  {
    MiddleMember(evs, x, e);
    ThoseMember(evs, Owners(EventSet(evs), x), e);
  }

  lemma LooseInFull(evs: seq<Event>, x: Event)
    requires Submitted(evs) && Loose(EventSet(evs), x)
    ensures x in V(Full(evs, x)) && Submitted(Full(evs, x)) && forall e :: e in Full(evs, x) ==> e in evs
  {
    var s, run, more := EventSet(evs), Middle(evs, x), Those(evs, Owners(EventSet(evs), x));
    LooseInMiddle(evs, x);
    forall e | e in Full(evs, x) ensures e in evs {
      FullMember(evs, x, e);
      MiddleMember(evs, x, e);
    }
    PartSubmitted(evs, Full(evs, x));
    forall e | e in more ensures !Ousts(e, x) && Owns(e) { ThoseMember(evs, Owners(s, x), e); }
    RemainsThrough(run, more, x);
  }

  /** By then every unbeaten event is stored, and all others that could stay are turned away. */
  lemma OthersAreTurnedAway(evs: seq<Event>, x: Event, e: Event)
    requires Submitted(evs) && OrderIndependent(evs) && Loose(EventSet(evs), x) && e in evs && Stays(e)
    ensures e in V(Full(evs, x)) || Barred(V(Full(evs, x)), e)
  {
    var s, run := EventSet(evs), Full(evs, x);
    LooseInFull(evs, x);
    if Unbeaten(s, e) {
      UnbeatenIsInFull(evs, x, e);
    } else {
      StoredMustBeUnbeaten(evs, e);
      LostMustBeBarred(evs, e);
      var u :| u in V(evs) && Bars(u, e);
      StoredMustBeUnbeaten(evs, u);
      UnbeatenIsInFull(evs, x, u);
    }
  }

  lemma UnbeatenIsInFull(evs: seq<Event>, x: Event, u: Event)
    requires Submitted(evs) && Loose(EventSet(evs), x) && Unbeaten(EventSet(evs), u)
    ensures u in V(Full(evs, x))
  {
    var s, run := EventSet(evs), Full(evs, x);
    LooseInFull(evs, x);
    FullMember(evs, x, u);
    assert EventSet(run) <= s;
    UnbeatenIsStored(s, run, u);
  }

  lemma NoneIsLoose(evs: seq<Event>, x: Event)
    requires Submitted(evs) && OrderIndependent(evs)
    ensures !Loose(EventSet(evs), x)
  {
    var s := EventSet(evs);
    if Loose(s, x) {
      var run, more := Full(evs, x), Those(evs, Others(s, x));
      LooseInFull(evs, x);
      CoversAll(evs, x);
      SameSubmitted(evs, run + more);
      forall e | e in more ensures e in V(run) || Barred(V(run), e) {
        ThoseMember(evs, Others(s, x), e);
        OthersAreTurnedAway(evs, x, e);
      }
      Unmoved(run, more);
      SameStore(evs, run + more);
      StoredMustBeUnbeaten(evs, x);
    }
  }

  lemma CoversAll(evs: seq<Event>, x: Event)
    requires Submitted(evs) && Loose(EventSet(evs), x)
    ensures EventSet(Full(evs, x) + Those(evs, Others(EventSet(evs), x))) == EventSet(evs)
  {
    var s := EventSet(evs);
    var all := Full(evs, x) + Those(evs, Others(s, x));
    LooseInFull(evs, x);
    forall e ensures e in EventSet(all) <==> e in s {
      ThoseMember(evs, Others(s, x), e);
      FullMember(evs, x, e);
      MiddleMember(evs, x, e);
      assert e in all <==> e in Full(evs, x) || e in Those(evs, Others(s, x));
    }
  }

  // ---- flags -------------------------------------------------------------------------------

  lemma MoveKeepsFlag(v: Shelf, e: Event, v': Shelf, x: Event)
    requires Moves(v, e, v') && x in v && x in v'
    requires v[x] || (Enters(v, e) && x != e && Deletes(e, x))
    ensures v'[x]
  {
  }

  lemma FrontInSet(s: set<Event>, evs: seq<Event>, more: seq<Event>, front: seq<Event>, e: Event)
    requires EventSet(evs + more) <= s && more == front + [e]
    ensures EventSet(evs + front) <= s
  {
    forall y | y in evs + front ensures y in s {
      assert y in EventSet(evs + more);
    }
  }

  lemma StaysStored(s: set<Event>, evs: seq<Event>, more: seq<Event>, x: Event)
    requires Submitted(evs + more) && EventSet(evs + more) <= s && x in evs && Unbeaten(s, x)
    ensures x in V(evs + more)
  {
    UnbeatenIsStored(s, evs + more, x);
  }

  /** Once `x` is there, a deletion that names its hash hides it. */
  lemma {:induction false} HashFlags(s: set<Event>, evs: seq<Event>, more: seq<Event>, x: Event, k: Event)
    requires Submitted(evs + more) && EventSet(evs + more) <= s && x in evs && Unbeaten(s, x)
    requires k in more && k !in evs && Storable(k) && Deletes(k, x)
    ensures x in V(evs + more) && V(evs + more)[x]
    decreases |more|
  {
    var front, e := LastOfMore(evs, more);
    FrontInSet(s, evs, more, front, e);
    StaysStored(s, evs, more, x);
    StaysStored(s, evs, front, x);
    if k in front {
      HashFlags(s, evs, front, x, k);
    } else {
      assert k == e && k !in evs + front;
    }
    MoveHashFlags(V(evs + front), e, V(evs + more), x, k, evs + front);
  }

  lemma MoveHashFlags(v: Shelf, e: Event, v': Shelf, x: Event, k: Event, evs: seq<Event>)
    requires Moves(v, e, v') && x in v && x in v' && Within(v, evs)
    requires v[x] || (k == e && k !in evs)
    requires Storable(k) && Deletes(k, x)
    ensures v'[x]
  {
    if !v[x] { DeletionEnters(v, k); }
    MoveKeepsFlag(v, e, v', x);
  }

  /** Arriving last, an unbeaten event is hidden only by deletions that name its text. */
  lemma LastFlag(evs: seq<Event>, x: Event)
    requires Submitted(evs + [x]) && x !in evs && x in V(evs + [x]) && V(evs + [x])[x]
    ensures TextNamed(EventSet(evs), x)
  {
    RunMoves(evs, x);
    assert DeletedOn(V(evs), x);
    var k :| k in V(evs) && DeletesByText(k, x);
    assert k in EventSet(evs);
  }

  lemma FirstIsFlagged(evs: seq<Event>, x: Event)
    requires Submitted([x] + evs) && Unbeaten(EventSet(evs), x) && EventSet([x] + evs) == EventSet(evs)
    requires HashNamed(EventSet(evs), x)
    ensures x in V([x] + evs) && V([x] + evs)[x]
  {
    var k :| k in EventSet(evs) && Storable(k) && Deletes(k, x);
    HashFlags(EventSet(evs), [x], evs, x, k);
  }

  lemma FlaggedFirst(evs: seq<Event>, x: Event)
    requires Submitted(evs) && OrderIndependent(evs) && Unbeaten(EventSet(evs), x) && HashNamed(EventSet(evs), x)
    ensures x in V(evs) && V(evs)[x]
  {
    FirstAgain(evs, x);
    SameSubmitted(evs, [x] + evs);
    FirstIsFlagged(evs, x);
    SameStore(evs, [x] + evs);
  }

  lemma AlikeIsNeeded(evs: seq<Event>, x: Event)
    requires Submitted(evs) && OrderIndependent(evs) && Unbeaten(EventSet(evs), x) && HashNamed(EventSet(evs), x)
    ensures TextNamed(EventSet(evs), x)
  {
    var rest := Without(evs, x);
    FlaggedFirst(evs, x);
    LastOfAll(evs, x);
    WithoutMember(evs, x, x);
    SameSubmitted(evs, rest + [x]);
    SameStore(evs, rest + [x]);
    LastFlag(rest, x);
    var l :| l in EventSet(rest) && Storable(l) && DeletesByText(l, x);
    WithoutMember(evs, x, l);
  }

  /** Convergence for any submissions: the order of arrival is immaterial if and only if the set meets the condition. */
  lemma AnyOrderIff(evs: seq<Event>)
    requires Submitted(evs)
    ensures OrderIndependent(evs) <==> Settled(EventSet(evs)) && NamedAlike(EventSet(evs))
  {
    var s := EventSet(evs);
    if OrderIndependent(evs) {
      forall x | x in s && Stays(x) ensures Unbeaten(s, x) || Beaten(s, x) {
        NoneIsLoose(evs, x);
      }
      forall x | Unbeaten(s, x) && HashNamed(s, x) ensures TextNamed(s, x) {
        AlikeIsNeeded(evs, x);
      }
    }
    if Settled(s) && NamedAlike(s) {
      AnyClosedForm(evs);
      forall other: seq<Event> | EventSet(other) == s ensures View(StoreOf(other)) == View(StoreOf(evs)) {
        SameSubmitted(evs, other);
        AnyClosedForm(other);
      }
    }
  }

  /** For well-formed submissions the two conditions say the same. */
  lemma SameAsOrderFree(evs: seq<Event>)
    requires Submissible(evs)
    ensures OrderFree(EventSet(evs)) <==> Settled(EventSet(evs)) && NamedAlike(EventSet(evs))
  {
    OrderIndependentIff(evs);
    AnyOrderIff(evs);
  }
}
