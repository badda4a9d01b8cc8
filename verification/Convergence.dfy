/**
 Does the store depend only on which events were submitted, and not on their order?
 First the exact outcome of every arrival sequence, then the exact condition under which
 the order cannot matter, then inputs for which it does.
 */
module Convergence {
  import opened Hex
  import opened Events
  import opened Store
  import opened Slots
  import opened Refinement

  // ---- arrival sequences --------------------------------------------------------

  function Persists(evs: seq<Event>): seq<Op> {
    seq(|evs|, i requires 0 <= i < |evs| => PersistOp(evs[i]))
  }

  /** The tables after these events arrived, in this order, at an empty relay. */
  function StoreOf(evs: seq<Event>): Db {
    Run(EMPTY, Persists(evs))
  }

  function Shelve(evs: seq<Event>): Shelf {
    if evs == [] then map[] else Step(Shelve(evs[..|evs| - 1]), evs[|evs| - 1])
  }

  /** Well-formed events, of which equal ids mean equal events. */
  predicate Submissible(evs: seq<Event>) {
    (forall i :: 0 <= i < |evs| ==> WellFormed(evs[i]))
    && (forall i, j :: 0 <= i < |evs| && 0 <= j < |evs| && evs[i].id == evs[j].id ==> evs[i] == evs[j])
  }

  lemma {:induction false} ShelveFrom(evs: seq<Event>)
    ensures forall x :: x in Shelve(evs) ==> x in evs
  {
    if evs != [] {
      ShelveFrom(evs[..|evs| - 1]);
    }
  }

  lemma SubmissibleFront(evs: seq<Event>)
    requires evs != [] && Submissible(evs)
    ensures Submissible(evs[..|evs| - 1])
  {
  }

  /** The tables, seen as a map, follow the abstract steps. */
  lemma {:induction false} StoreRefines(evs: seq<Event>)
    requires Submissible(evs)
    ensures Sound(StoreOf(evs)) && View(StoreOf(evs)) == Shelve(evs)
  {
    if evs == [] {
    } else {
      var front, e := evs[..|evs| - 1], evs[|evs| - 1];
      SubmissibleFront(evs);
      StoreRefines(front);
      ShelveFrom(front);
      var ops := Persists(evs);
      assert ops[..|ops| - 1] == Persists(front);
      assert NoClash(Shelve(front), e) by {
        forall x | x in Shelve(front) && x.id == e.id ensures x == e {
          var i :| 0 <= i < |front| && front[i] == x;
          assert evs[i] == x;
        }
      }
      PersistRefines(StoreOf(front), e);
    }
  }

  // ---- the exact outcome ----------------------------------------------------------

  /** The position at which an event first arrives. */
  function First(evs: seq<Event>, x: Event): (i: nat)
    requires x in evs
    ensures i < |evs| && evs[i] == x
    ensures forall j :: 0 <= j < i ==> evs[j] != x
  {
    var front := evs[..|evs| - 1];
    if x in front then First(front, x) else |evs| - 1
  }

  /** `y` is a newer event for the slot `x` sits in. */
  predicate Outdates(y: Event, x: Event) {
    SameSlot(y, x) && y.createdAt > x.createdAt
  }

  /** Nothing earlier turned it away, nothing later outdated it. */
  predicate Kept(evs: seq<Event>, x: Event) {
    x in evs
    && (forall j :: 0 <= j < First(evs, x) ==> !Blocks(evs[j], x))
    && (forall j :: First(evs, x) < j < |evs| ==> !Outdates(evs[j], x))
  }

  /** An earlier deletion names its text, or a later deletion, on its own first arrival, names its hash. */
  predicate Struck(evs: seq<Event>, x: Event)
    requires x in evs
  {
    exists j :: 0 <= j < |evs| && StruckBy(evs, x, j)
  }

  predicate StruckBy(evs: seq<Event>, x: Event, j: nat)
    requires x in evs && j < |evs|
  {
    First(evs, evs[j]) == j
    && ((j < First(evs, x) && DeletesByText(evs[j], x)) || (j > First(evs, x) && Deletes(evs[j], x)))
  }

  /** Every submitted event of a slot has a kept event at least as new. */
  ghost predicate Covers(shelf: Shelf, y: Event) {
    exists x :: x in shelf && SameSlot(x, y) && x.createdAt >= y.createdAt
  }

  lemma {:induction false} ShelveCovers(evs: seq<Event>, y: Event)
    requires y in evs && SlotOf(y) != NoSlot
    ensures Covers(Shelve(evs), y)
  {
    var front, e := evs[..|evs| - 1], evs[|evs| - 1];
    var before, after := Shelve(front), Shelve(evs);
    if y in front {
      ShelveCovers(front, y);
      var x :| x in before && SameSlot(x, y) && x.createdAt >= y.createdAt;
      if x !in after {
        assert SameSlot(e, y) && e in after;
        assert !Blocks(x, e);
      }
    } else if e in after {
      assert SameSlot(e, y);
    } else {
      var x :| x in before && Blocks(x, e);
      assert SameSlot(x, y);
    }
  }

  lemma FirstSnoc(evs: seq<Event>, x: Event)
    requires evs != [] && x in evs[..|evs| - 1]
    ensures x in evs && First(evs, x) == First(evs[..|evs| - 1], x)
  {
  }

  lemma KeptFirstHalf(evs: seq<Event>, x: Event)
    requires evs != [] && x in evs[..|evs| - 1]
    ensures Kept(evs, x) <==> Kept(evs[..|evs| - 1], x) && !Outdates(evs[|evs| - 1], x)
  {
  }

  lemma KeptUnique(evs: seq<Event>, x: Event, y: Event)
    requires Kept(evs, x) && Kept(evs, y) && SameSlot(x, y)
    ensures x == y
  {
  }

  /** Some submitted event would turn this one away exactly when some kept one would. */
  lemma BlockedByKept(evs: seq<Event>, e: Event)
    ensures OvertakenOn(Shelve(evs), e) <==> exists j :: 0 <= j < |evs| && Blocks(evs[j], e)
  {
    if OvertakenOn(Shelve(evs), e) {
      ShelveFrom(evs);
      var x :| x in Shelve(evs) && Blocks(x, e);
      var j :| 0 <= j < |evs| && evs[j] == x;
      assert Blocks(evs[j], e);
    }
    if j :| 0 <= j < |evs| && Blocks(evs[j], e) {
      ShelveCovers(evs, evs[j]);
      var x :| x in Shelve(evs) && SameSlot(x, evs[j]) && x.createdAt >= evs[j].createdAt;
      assert Blocks(x, e);
    }
  }

  lemma LookupAgrees(x: Event)
    ensures SlotOf(x) != NoSlot ==> LookupSlot(x) == SlotOf(x)
  {
  }

  /** An event that arrived before and is not kept would be turned away now. */
  lemma LostIsBlocked(evs: seq<Event>, e: Event)
    requires e in evs && !Kept(evs, e)
    ensures exists j :: 0 <= j < |evs| && Blocks(evs[j], e)
  {
  }

  ghost predicate ShelfExact(evs: seq<Event>) {
    forall x :: x in Shelve(evs) <==> Kept(evs, x)
  }

  /** The newer of two rivals is accepted while the older is on the shelf. */
  lemma RivalGives(evs: seq<Event>, e: Event, x: Event)
    requires forall y :: y in Shelve(evs) ==> Kept(evs, y)
    requires x in Shelve(evs) && Outdates(e, x)
    ensures e !in Shelve(evs) && !OvertakenOn(Shelve(evs), e)
  {
    LookupAgrees(e);
    if e in Shelve(evs) {
      KeptUnique(evs, e, x);
    }
    if y :| y in Shelve(evs) && Blocks(y, e) {
      KeptUnique(evs, x, y);
    }
  }

  lemma KeptStepOld(evs: seq<Event>, x: Event)
    requires evs != [] && x in evs[..|evs| - 1] && x != evs[|evs| - 1]
    requires ShelfExact(evs[..|evs| - 1])
    ensures x in Shelve(evs) <==> Kept(evs, x)
  {
    var front, e := evs[..|evs| - 1], evs[|evs| - 1];
    KeptFirstHalf(evs, x);
    LookupAgrees(e);
    if x in Shelve(front) && Outdates(e, x) {
      RivalGives(front, e, x);
    } else if x in Shelve(front) && SameSlot(x, e) {
      assert Blocks(x, e);
    }
  }

  lemma KeptStepNew(evs: seq<Event>)
    requires evs != []
    requires ShelfExact(evs[..|evs| - 1])
    ensures evs[|evs| - 1] in Shelve(evs) <==> Kept(evs, evs[|evs| - 1])
  {
    var n := |evs| - 1;
    var front, e := evs[..n], evs[n];
    BlockedByKept(front, e);
    if e in front {
      KeptFirstHalf(evs, e);
      if !Kept(front, e) { LostIsBlocked(front, e); }
    } else {
      KeptFirstTime(evs);
      ShelveFrom(front);
    }
  }

  /** On its first arrival an event is kept exactly when nothing before it turns it away. */
  lemma KeptFirstTime(evs: seq<Event>)
    requires evs != [] && evs[|evs| - 1] !in evs[..|evs| - 1]
    ensures
      var front, e := evs[..|evs| - 1], evs[|evs| - 1];
      Kept(evs, e) <==> !exists j :: 0 <= j < |front| && Blocks(front[j], e)
  {
    var n := |evs| - 1;
    assert First(evs, evs[n]) == n;
    assert forall j :: 0 <= j < n ==> evs[j] == evs[..n][j];
  }

  /** What is on the shelf after any sequence of arrivals. */
  lemma {:induction false} ShelveKept(evs: seq<Event>)
    ensures ShelfExact(evs)
  {
    if evs != [] {
      var front, e := evs[..|evs| - 1], evs[|evs| - 1];
      ShelveKept(front);
      forall x ensures x in Shelve(evs) <==> Kept(evs, x) {
        if x == e {
          KeptStepNew(evs);
        } else if x in front {
          KeptStepOld(evs, x);
        } else {
          ShelveFrom(evs);
        }
      }
    }
  }

  // ---- hidden flags ---------------------------------------------------------------

  /** Deletions are never replaced: every submitted one is on the shelf. */
  lemma DeletionsStay(evs: seq<Event>, k: Event)
    requires k.kind == DELETION
    ensures k in Shelve(evs) <==> k in evs
  {
  }

  lemma DeletedByShelf(evs: seq<Event>, e: Event)
    ensures DeletedOn(Shelve(evs), e) <==> exists j :: 0 <= j < |evs| && DeletesByText(evs[j], e)
  {
    if k :| k in Shelve(evs) && DeletesByText(k, e) {
      DeletionsStay(evs, k);
      var j :| 0 <= j < |evs| && evs[j] == k;
    }
    if j :| 0 <= j < |evs| && DeletesByText(evs[j], e) {
      DeletionsStay(evs, evs[j]);
    }
  }

  lemma StruckByFront(evs: seq<Event>, x: Event, j: nat)
    requires evs != [] && x in evs[..|evs| - 1] && j < |evs| - 1
    ensures x in evs && (StruckBy(evs, x, j) <==> StruckBy(evs[..|evs| - 1], x, j))
  {
  }

  lemma StruckFirstHalf(evs: seq<Event>, x: Event)
    requires evs != [] && x in evs[..|evs| - 1]
    ensures
      var front, e := evs[..|evs| - 1], evs[|evs| - 1];
      x in evs && (Struck(evs, x) <==> Struck(front, x) || (e !in front && Deletes(e, x)))
  {
    var n := |evs| - 1;
    var front, e := evs[..n], evs[n];
    FirstSnoc(evs, x);
    assert StruckBy(evs, x, n) <==> e !in front && Deletes(e, x);
    forall j | 0 <= j < n ensures StruckBy(evs, x, j) <==> StruckBy(front, x, j) {
      StruckByFront(evs, x, j);
    }
  }

  lemma StruckNew(evs: seq<Event>)
    requires evs != [] && evs[|evs| - 1] !in evs[..|evs| - 1]
    ensures
      var front, e := evs[..|evs| - 1], evs[|evs| - 1];
      Struck(evs, e) <==> exists j :: 0 <= j < |front| && DeletesByText(front[j], e)
  {
    var n := |evs| - 1;
    var front, e := evs[..n], evs[n];
    assert First(evs, e) == n;
    if j :| 0 <= j < |front| && DeletesByText(front[j], e) {
      var i := First(front, front[j]);
      FirstSnoc(evs, front[j]);
      assert evs[i] == front[j] && StruckBy(evs, e, i);
    }
    if Struck(evs, e) {
      var j :| 0 <= j < |evs| && StruckBy(evs, e, j);
      assert front[j] == evs[j];
    }
  }

  /** Which kept events are hidden after any sequence of arrivals. */
  lemma {:induction false} ShelveStruck(evs: seq<Event>, x: Event)
    requires x in Shelve(evs)
    ensures x in evs && Shelve(evs)[x] == Struck(evs, x)
  {
    var front, e := evs[..|evs| - 1], evs[|evs| - 1];
    var shelf := Shelve(front);
    ShelveFrom(evs);
    if x in shelf {
      ShelveFrom(front);
      ShelveStruck(front, x);
      StruckFirstHalf(evs, x);
      if Deletes(e, x) {
        DeletionsStay(front, e);
      }
    } else {
      assert x == e;
      if e in front {
        ShelveKept(front);
        LostIsBlocked(front, e);
        BlockedByKept(front, e);
      }
      StruckNew(evs);
      DeletedByShelf(front, e);
    }
  }

  // ---- the closed form, and exactly when it holds in every order ---------------------

  function EventSet(evs: seq<Event>): set<Event> {
    set x | x in evs
  }

  /** Nothing submitted is newer in its slot; events without a slot are always top. */
  predicate Top(s: set<Event>, x: Event) {
    x in s && forall y :: y in s ==> !Outdates(y, x)
  }

  predicate DeletedIn(s: set<Event>, x: Event) {
    exists k :: k in s && Deletes(k, x)
  }

  predicate TextDeletedIn(s: set<Event>, x: Event) {
    exists k :: k in s && DeletesByText(k, x)
  }

  /** The newest creation time of a slot belongs to one event. */
  predicate NoTopTies(s: set<Event>) {
    forall x, y :: x in s && y in s && Top(s, x) && Top(s, y) && SameSlot(x, y) ==> x == y
  }

  /** No event with an implicit `d` meets an explicit empty `d` at least as new. */
  predicate NoImplicitShadow(s: set<Event>) {
    forall x, y :: x in s && y in s && SlotOf(x) == NoSlot ==> !Blocks(y, x)
  }

  /** A surviving event whose hash is named by a deletion is also named in lower case. */
  predicate NamedInLowerCase(s: set<Event>) {
    forall x :: x in s && Top(s, x) && DeletedIn(s, x) ==> TextDeletedIn(s, x)
  }

  predicate OrderFree(s: set<Event>) {
    NoTopTies(s) && NoImplicitShadow(s) && NamedInLowerCase(s)
  }

  /** All regular events and the newest of each slot, hidden when a deletion by the author names them. */
  function Ideal(s: set<Event>): Shelf {
    map x | x in s && Top(s, x) :: DeletedIn(s, x)
  }

  lemma KeptIsTop(evs: seq<Event>, x: Event)
    requires NoTopTies(EventSet(evs)) && NoImplicitShadow(EventSet(evs))
    ensures Kept(evs, x) <==> Top(EventSet(evs), x)
  {
    var s := EventSet(evs);
    if Kept(evs, x) {
      forall y | y in s ensures !Outdates(y, x) {
        LookupAgrees(x);
        var j :| 0 <= j < |evs| && evs[j] == y;
        if j < First(evs, x) { assert !Blocks(evs[j], x); }
      }
    }
    if Top(s, x) {
      forall j | 0 <= j < First(evs, x) ensures !Blocks(evs[j], x) {
        if Blocks(evs[j], x) && SlotOf(x) != NoSlot {
          TieIsTop(s, x, evs[j]);
        }
      }
      forall j | First(evs, x) < j < |evs| ensures !Outdates(evs[j], x) {
        assert evs[j] in s;
      }
    }
  }

  /** A submitted event that blocks a top event of the same slot is a top event itself. */
  lemma TieIsTop(s: set<Event>, x: Event, y: Event)
    requires Top(s, x) && y in s && SlotOf(x) != NoSlot && Blocks(y, x)
    ensures Top(s, y) && SameSlot(x, y) && x.createdAt == y.createdAt
  {
  }

  /** An id is 64 hex digits, so a deletion that names the text also names the hash. */
  lemma TextNamesHash(k: Event, x: Event)
    requires IsKey(x.id) && DeletesByText(k, x)
    ensures Deletes(k, x)
  {
    TagValuesByNameMember(k.tags, "e", x.id);
    LowerIsFixed(x.id);
  }

  lemma StruckIsDeleted(evs: seq<Event>, x: Event)
    requires Submissible(evs) && x in evs && Top(EventSet(evs), x)
    requires NamedInLowerCase(EventSet(evs))
    ensures Struck(evs, x) <==> DeletedIn(EventSet(evs), x)
  {
    var s := EventSet(evs);
    var i := First(evs, x);
    assert WellFormed(evs[i]);
    if Struck(evs, x) {
      var j :| 0 <= j < |evs| && StruckBy(evs, x, j);
      if DeletesByText(evs[j], x) { TextNamesHash(evs[j], x); }
      assert evs[j] in s;
    }
    if DeletedIn(s, x) {
      var k :| k in s && DeletesByText(k, x);
      TextNamesHash(k, x);
      var j := First(evs, k);
      assert StruckBy(evs, x, j);
    }
  }

  /** The closed form: the tables hold a function of the set of submitted events. */
  lemma ClosedForm(evs: seq<Event>)
    requires Submissible(evs) && OrderFree(EventSet(evs))
    ensures View(StoreOf(evs)) == Ideal(EventSet(evs))
  {
    StoreRefines(evs);
    ShelveKept(evs);
    var v, w := Shelve(evs), Ideal(EventSet(evs));
    forall x ensures x in v.Keys <==> x in w.Keys {
      KeptIsTop(evs, x);
    }
    forall x | x in v.Keys ensures v[x] == w[x] {
      ShelveStruck(evs, x);
      StruckIsDeleted(evs, x);
    }
    SameShelf(v, w);
  }

  // ---- necessity --------------------------------------------------------------------

  /** Every arrival order of the same events, repeats allowed, leaves the same store. */
  ghost predicate OrderIndependent(evs: seq<Event>) {
    forall other: seq<Event> :: EventSet(other) == EventSet(evs) ==> View(StoreOf(other)) == View(StoreOf(evs))
  }

  lemma SubmissibleSame(evs: seq<Event>, other: seq<Event>)
    requires Submissible(evs) && EventSet(other) == EventSet(evs)
    ensures Submissible(other)
  {
    forall i | 0 <= i < |other| ensures exists j :: 0 <= j < |evs| && evs[j] == other[i] {
      assert other[i] in EventSet(other);
    }
  }

  /** Submitting `x` once more, first of all. */
  lemma FirstAgain(evs: seq<Event>, x: Event)
    requires x in evs
    ensures EventSet([x] + evs) == EventSet(evs) && First([x] + evs, x) == 0
  {
    assert ([x] + evs)[0] == x;
  }

  lemma TopFirstIsKept(evs: seq<Event>, x: Event)
    requires x in evs && Top(EventSet(evs), x)
    ensures Kept([x] + evs, x)
  {
    FirstAgain(evs, x);
    var other := [x] + evs;
    forall j | 0 < j < |other| ensures !Outdates(other[j], x) {
      assert other[j] == evs[j - 1] && evs[j - 1] in EventSet(evs);
    }
  }

  lemma BlockedFirstIsLost(evs: seq<Event>, x: Event, y: Event)
    requires x in evs && y in evs && x != y && Blocks(y, x)
    ensures !Kept([y] + evs, x)
  {
    var other := [y] + evs;
    assert other[0] == y && x in other && First(other, x) != 0;
  }

  lemma KeptEverywhere(evs: seq<Event>, other: seq<Event>, x: Event)
    requires Submissible(evs) && OrderIndependent(evs) && EventSet(other) == EventSet(evs)
    ensures Kept(evs, x) <==> Kept(other, x)
    ensures Kept(evs, x) ==> x in evs && x in other && (Struck(evs, x) <==> Struck(other, x))
  {
    SubmissibleSame(evs, other);
    StoreRefines(evs);
    StoreRefines(other);
    ShelveKept(evs);
    ShelveKept(other);
    if Kept(evs, x) {
      assert x in Shelve(other);
      ShelveStruck(evs, x);
      ShelveStruck(other, x);
    }
  }

  lemma TiesMatter(evs: seq<Event>)
    requires Submissible(evs) && OrderIndependent(evs)
    ensures NoTopTies(EventSet(evs))
  {
    var s := EventSet(evs);
    forall x, y | Top(s, x) && Top(s, y) && SameSlot(x, y) ensures x == y {
      LookupAgrees(x);
      assert Blocks(y, x) by { assert !Outdates(x, y); }
      if x != y {
        ShadowMatters(evs, x, y);
      }
    }
  }

  /** `x` first is kept, its blocker first loses it. */
  lemma ShadowMatters(evs: seq<Event>, x: Event, y: Event)
    requires Submissible(evs) && OrderIndependent(evs)
    requires x in evs && y in evs && x != y && Top(EventSet(evs), x)
    ensures !Blocks(y, x)
  {
    TopFirstIsKept(evs, x);
    FirstAgain(evs, x);
    FirstAgain(evs, y);
    KeptEverywhere(evs, [x] + evs, x);
    KeptEverywhere(evs, [y] + evs, x);
    if Blocks(y, x) {
      BlockedFirstIsLost(evs, x, y);
    }
  }

  lemma ImplicitMatters(evs: seq<Event>)
    requires Submissible(evs) && OrderIndependent(evs)
    ensures NoImplicitShadow(EventSet(evs))
  {
    var s := EventSet(evs);
    forall x, y | x in s && y in s && SlotOf(x) == NoSlot ensures !Blocks(y, x) {
      if x != y {
        ShadowMatters(evs, x, y);
      }
    }
  }

  function Without(evs: seq<Event>, x: Event): seq<Event> {
    if evs == [] then [] else (if evs[0] == x then [] else [evs[0]]) + Without(evs[1..], x)
  }

  lemma {:induction false} WithoutMember(evs: seq<Event>, x: Event, y: Event)
    ensures y in Without(evs, x) <==> y in evs && y != x
  {
    if evs != [] {
      WithoutMember(evs[1..], x, y);
      assert y in evs <==> y == evs[0] || y in evs[1..];
    }
  }

  /** Submitting `x` last of all. */
  lemma LastOfAll(evs: seq<Event>, x: Event)
    requires x in evs
    ensures
      var other := Without(evs, x) + [x];
      EventSet(other) == EventSet(evs) && First(other, x) == |other| - 1
  {
    var rest := Without(evs, x);
    forall y ensures y in rest <==> y in evs && y != x {
      WithoutMember(evs, x, y);
    }
    var other := rest + [x];
    forall y ensures y in other <==> y in evs {
      assert y in other <==> y in rest || y == x;
    }
    assert other[..|other| - 1] == rest;
  }

  /** Arriving last, an event is hidden only by deletions that name its text. */
  lemma LastStruck(evs: seq<Event>, x: Event)
    requires x in evs && Struck(Without(evs, x) + [x], x)
    ensures TextDeletedIn(EventSet(evs), x)
  {
    LastOfAll(evs, x);
    var other := Without(evs, x) + [x];
    var j :| 0 <= j < |other| && StruckBy(other, x, j);
    assert other[j] in EventSet(other);
  }

  /** Arriving first, an event is hidden by every deletion that names its hash. */
  lemma FirstStruck(evs: seq<Event>, x: Event)
    requires x in evs && DeletedIn(EventSet(evs), x)
    ensures Struck([x] + evs, x)
  {
    FirstAgain(evs, x);
    var other := [x] + evs;
    var k :| k in EventSet(evs) && Deletes(k, x);
    assert k in EventSet(other);
    assert StruckBy(other, x, First(other, k));
  }

  lemma CaseMatters(evs: seq<Event>)
    requires Submissible(evs) && OrderIndependent(evs)
    ensures NamedInLowerCase(EventSet(evs))
  {
    var s := EventSet(evs);
    TiesMatter(evs);
    ImplicitMatters(evs);
    forall x | Top(s, x) && DeletedIn(s, x) ensures TextDeletedIn(s, x) {
      KeptIsTop(evs, x);
      FirstAgain(evs, x);
      LastOfAll(evs, x);
      KeptEverywhere(evs, [x] + evs, x);
      KeptEverywhere(evs, Without(evs, x) + [x], x);
      FirstStruck(evs, x);
      LastStruck(evs, x);
    }
  }

  /** Convergence, exactly: the order of arrival is immaterial if and only if the set is order-free. */
  lemma OrderIndependentIff(evs: seq<Event>)
    requires Submissible(evs)
    ensures OrderIndependent(evs) <==> OrderFree(EventSet(evs))
  {
    if OrderIndependent(evs) {
      TiesMatter(evs);
      ImplicitMatters(evs);
      CaseMatters(evs);
    }
    if OrderFree(EventSet(evs)) {
      ClosedForm(evs);
      forall other: seq<Event> | EventSet(other) == EventSet(evs)
        ensures View(StoreOf(other)) == View(StoreOf(evs))
      {
        SubmissibleSame(evs, other);
        ClosedForm(other);
      }
    }
  }
}
