/**
 Releases (`unregister` in src/name_authority/mod.rs): the owner is looked up under one lock and the
 row updated under another. Whose claim does the update end?
 */
module Releases {
  import opened Wrappers
  import opened Claims

  /** A name stops being active only by a release that was started when the requester owned the name. */
  lemma OnlyReleaseDeactivates(cfg: Config, s: State, a: Action, name: string)
    requires Active(s.claims, name) && !Active(Next(cfg, s, a).claims, name)
    ensures a.Release? && a.id in s.inFlight && s.inFlight[a.id].Owned? && s.inFlight[a.id].name == name
  {
  }

  /** Back to back, the two halves of a release act for the owner and nobody else. */
  lemma ReleaseInOnePiece(cfg: Config, s: State, id: nat, name: string, auth: string, now: nat)
    requires id !in s.inFlight
    ensures
      var s' := Next(cfg, Next(cfg, s, Unregister(id, name, auth)), Release(id, now));
      s'.claims == (if Lookup(s.claims, name) == Some(auth) then Released(s.claims, name, now) else s.claims)
  {
  }

  // ---- whose claim a pending release ends -----------------------------------------------------

  /** Request `id` of the key `auth` looked the name up as its own at step `i` and is pending ever since. */
  predicate Asked(cfg: Config, actions: seq<Action>, i: nat, id: nat, name: string, auth: string) {
    i < |actions| && actions[i] == Unregister(id, name, auth)
    && id !in Run(cfg, actions[..i]).inFlight && Lookup(Run(cfg, actions[..i]).claims, name) == Some(auth)
    && PendingSince(cfg, actions, i + 1, id)
  }

  predicate PendingSince(cfg: Config, actions: seq<Action>, from: nat, id: nat) {
    forall m :: from <= m <= |actions| ==> id in Run(cfg, actions[..m]).inFlight
  }

  predicate ActiveSince(cfg: Config, actions: seq<Action>, from: nat, name: string) {
    forall m :: from <= m <= |actions| ==> Active(Run(cfg, actions[..m]).claims, name)
  }

  /** Every pending release comes from such a look-up. */
  lemma {:induction false} PendingWasAsked(cfg: Config, actions: seq<Action>, id: nat, name: string, auth: string)
    requires id in Run(cfg, actions).inFlight && Run(cfg, actions).inFlight[id] == Owned(name, auth)
    ensures exists i: nat :: Asked(cfg, actions, i, id, name, auth)
  {
    var n := |actions| - 1;
    var front, s := actions[..n], Run(cfg, actions[..n]);
    assert actions[..|actions|] == actions;
    if id in s.inFlight {
      PendingStep(cfg, s, actions[n], id, name, auth);
      PendingWasAsked(cfg, front, id, name, auth);
      var i: nat :| Asked(cfg, front, i, id, name, auth);
      assert front[..i] == actions[..i];
      forall m | i + 1 <= m <= |actions| ensures id in Run(cfg, actions[..m]).inFlight {
        if m <= n { assert front[..m] == actions[..m]; }
      }
      assert Asked(cfg, actions, i, id, name, auth);
    } else {
      assert PendingSince(cfg, actions, n + 1, id);
      assert Asked(cfg, actions, n, id, name, auth);
    }
  }

  lemma PendingStep(cfg: Config, s: State, a: Action, id: nat, name: string, auth: string)
    requires id in s.inFlight && id in Next(cfg, s, a).inFlight && Next(cfg, s, a).inFlight[id] == Owned(name, auth)
    ensures s.inFlight[id] == Owned(name, auth)
  {
  }

  lemma StillPending(cfg: Config, s: State, a: Action, id: nat, name: string, auth: string)
    requires id in s.inFlight && s.inFlight[id] == Owned(name, auth) && id in Next(cfg, s, a).inFlight
    ensures Next(cfg, s, a).inFlight[id] == Owned(name, auth)
  {
  }

  /** This insert goes through, for a key other than `auth`. */
  predicate GoesElsewhere(s: State, a: Action, name: string, auth: string) {
    a.Insert? && a.id in s.inFlight && s.inFlight[a.id].Paid? && s.inFlight[a.id].name == name
    && s.inFlight[a.id].pubkey != auth && InsertReport(s.claims, name, s.inFlight[a.id].pubkey) == Registered
  }

  predicate GoesElsewhereAt(cfg: Config, actions: seq<Action>, k: nat, name: string, auth: string)
    requires k < |actions|
  {
    GoesElsewhere(Run(cfg, actions[..k]), actions[k], name, auth)
  }

  /** The name went to another key at step `k` and nothing has ended that claim. */
  predicate WentElsewhere(cfg: Config, actions: seq<Action>, k: nat, name: string, auth: string)
    requires k < |actions|
  {
    GoesElsewhereAt(cfg, actions, k, name, auth) && ActiveSince(cfg, actions, k + 1, name)
  }

  predicate HeldByAnother(s: State, name: string, auth: string) {
    Active(s.claims, name) && s.claims[name].pubkey != auth
  }

  lemma AskedFront(cfg: Config, actions: seq<Action>, n: nat, i: nat, id: nat, name: string, auth: string)
    requires Asked(cfg, actions, i, id, name, auth) && i < n <= |actions|
    ensures Asked(cfg, actions[..n], i, id, name, auth)
  {
    var front := actions[..n];
    assert front[..i] == actions[..i];
    forall m | i + 1 <= m <= n ensures id in Run(cfg, front[..m]).inFlight {
      assert front[..m] == actions[..m];
    }
  }

  lemma WentElsewherePush(cfg: Config, actions: seq<Action>, k: nat, name: string, auth: string)
    requires k < |actions| - 1 && WentElsewhere(cfg, actions[..|actions| - 1], k, name, auth)
    requires Active(Run(cfg, actions).claims, name)
    ensures WentElsewhere(cfg, actions, k, name, auth)
  {
    var front := actions[..|actions| - 1];
    assert actions[..|actions|] == actions && front[..k] == actions[..k];
    forall m | k + 1 <= m <= |actions| ensures Active(Run(cfg, actions[..m]).claims, name) {
      if m <= |front| { assert front[..m] == actions[..m]; }
    }
  }

  /** A name changes hands only by an insert, while it is free. */
  lemma StepGoesElsewhere(cfg: Config, s: State, a: Action, name: string, auth: string)
    requires HeldByAnother(Next(cfg, s, a), name, auth)
    ensures HeldByAnother(s, name, auth) || GoesElsewhere(s, a, name, auth)
  {
  }

  lemma {:induction false} AnotherCameBy(
      cfg: Config, actions: seq<Action>, i: nat, id: nat, name: string, auth: string) returns (k: nat)
    requires Asked(cfg, actions, i, id, name, auth) && HeldByAnother(Run(cfg, actions), name, auth)
    ensures i < k < |actions| && WentElsewhere(cfg, actions, k, name, auth)
  {
    var n := |actions| - 1;
    assert actions[..|actions|] == actions;
    StepGoesElsewhere(cfg, Run(cfg, actions[..n]), actions[n], name, auth);
    if HeldByAnother(Run(cfg, actions[..n]), name, auth) {
      AskedFront(cfg, actions, n, i, id, name, auth);
      k := AnotherCameBy(cfg, actions[..n], i, id, name, auth);
      WentElsewherePush(cfg, actions, k, name, auth);
    } else {
      k := n;
    }
  }

  lemma WentElsewhereHolds(cfg: Config, actions: seq<Action>, k: nat, name: string, auth: string)
    requires k < |actions| && WentElsewhere(cfg, actions, k, name, auth)
    ensures HeldByAnother(Run(cfg, actions), name, auth)
  {
    assert actions[..k + 1][..k] == actions[..k] && actions[..|actions|] == actions;
    StepPassesOn(cfg, Run(cfg, actions[..k]), actions[k], name, auth);
    OwnerIsStable(cfg, actions, k + 1, name);
  }

  /** Going through with the release now ends a claim of another key. */
  predicate EndsAnothers(cfg: Config, s: State, id: nat, now: nat, auth: string) {
    exists n :: n in s.claims && HeldByAnother(s, n, auth) && !Active(Next(cfg, s, Release(id, now)).claims, n)
  }

  /** A release ends whatever claim there is on its name by now, and nothing else. */
  lemma EndsAnothersMeaning(cfg: Config, s: State, id: nat, now: nat, name: string, auth: string)
    requires id in s.inFlight && s.inFlight[id] == Owned(name, auth)
    ensures EndsAnothers(cfg, s, id, now, auth) <==> HeldByAnother(s, name, auth)
  {
    if HeldByAnother(s, name, auth) {
      assert !Active(Next(cfg, s, Release(id, now)).claims, name);
    }
  }

  lemma {:induction false} AskedIsPending(
      cfg: Config, actions: seq<Action>, i: nat, id: nat, name: string, auth: string)
    requires Asked(cfg, actions, i, id, name, auth)
    ensures id in Run(cfg, actions).inFlight && Run(cfg, actions).inFlight[id] == Owned(name, auth)
  {
    var n := |actions| - 1;
    assert actions[..|actions|] == actions;
    if i < n {
      AskedFront(cfg, actions, n, i, id, name, auth);
      AskedIsPending(cfg, actions[..n], i, id, name, auth);
      StillPending(cfg, Run(cfg, actions[..n]), actions[n], id, name, auth);
    }
  }

  /**
   Exactly when the update ends another key's claim: the name went to another key after the
   look-up, and is active ever since.
   */
  lemma ReleaseEndsAnothersIff(
      cfg: Config, actions: seq<Action>, i: nat, id: nat, name: string, auth: string, now: nat)
    requires Asked(cfg, actions, i, id, name, auth)
    ensures EndsAnothers(cfg, Run(cfg, actions), id, now, auth)
      <==> exists k :: i < k < |actions| && WentElsewhere(cfg, actions, k, name, auth)
  {
    AskedIsPending(cfg, actions, i, id, name, auth);
    EndsAnothersMeaning(cfg, Run(cfg, actions), id, now, name, auth);
    if HeldByAnother(Run(cfg, actions), name, auth) {
      var k := AnotherCameBy(cfg, actions, i, id, name, auth);
    }
    if k :| i < k < |actions| && WentElsewhere(cfg, actions, k, name, auth) {
      WentElsewhereHolds(cfg, actions, k, name, auth);
    }
  }

  /** The update after `n` steps would not end another key's claim. */
  predicate HarmlessAt(cfg: Config, actions: seq<Action>, n: nat, id: nat, now: nat, auth: string)
    requires n <= |actions|
  {
    !EndsAnothers(cfg, Run(cfg, actions[..n]), id, now, auth)
  }

  lemma PassedOnIsHarmful(
      cfg: Config, actions: seq<Action>, i: nat, id: nat, name: string, auth: string, now: nat, k: nat)
    requires Asked(cfg, actions, i, id, name, auth) && i < k < |actions|
    requires GoesElsewhereAt(cfg, actions, k, name, auth)
    ensures !HarmlessAt(cfg, actions, k + 1, id, now, auth)
  {
    var run := actions[..k + 1];
    AskedFront(cfg, actions, k + 1, i, id, name, auth);
    AskedIsPending(cfg, run, i, id, name, auth);
    EndsAnothersMeaning(cfg, Run(cfg, run), id, now, name, auth);
    assert run[..k] == actions[..k];
    StepPassesOn(cfg, Run(cfg, actions[..k]), actions[k], name, auth);
  }

  lemma StepPassesOn(cfg: Config, s: State, a: Action, name: string, auth: string)
    requires GoesElsewhere(s, a, name, auth)
    ensures HeldByAnother(Next(cfg, s, a), name, auth)
  {
  }

  lemma KeptIsHarmless(
      cfg: Config, actions: seq<Action>, i: nat, id: nat, name: string, auth: string, now: nat, m: nat)
    requires Asked(cfg, actions, i, id, name, auth) && i < m <= |actions|
    requires forall k :: i < k < |actions| ==> !GoesElsewhereAt(cfg, actions, k, name, auth)
    ensures HarmlessAt(cfg, actions, m, id, now, auth)
  {
    var run := actions[..m];
    AskedFront(cfg, actions, m, i, id, name, auth);
    AskedIsPending(cfg, run, i, id, name, auth);
    EndsAnothersMeaning(cfg, Run(cfg, run), id, now, name, auth);
    if HeldByAnother(Run(cfg, run), name, auth) {
      var k := AnotherCameBy(cfg, run, i, id, name, auth);
      assert run[..k] == actions[..k];
      assert GoesElsewhereAt(cfg, actions, k, name, auth);
    }
  }

  /** The update is harmless at every point up to now exactly if the name never went to another key. */
  lemma ReleaseIsOwnIff(
      cfg: Config, actions: seq<Action>, i: nat, id: nat, name: string, auth: string, now: nat)
    requires Asked(cfg, actions, i, id, name, auth)
    ensures (forall m :: i < m <= |actions| ==> HarmlessAt(cfg, actions, m, id, now, auth))
      <==> (forall k :: i < k < |actions| ==> !GoesElsewhereAt(cfg, actions, k, name, auth))
  {
    if k :| i < k < |actions| && GoesElsewhereAt(cfg, actions, k, name, auth) {
      PassedOnIsHarmful(cfg, actions, i, id, name, auth, now, k);
    } else {
      forall m | i < m <= |actions| ensures HarmlessAt(cfg, actions, m, id, now, auth) {
        KeptIsHarmless(cfg, actions, i, id, name, auth, now, m);
      }
    }
  }

  predicate OwnUnlessPassedOn(cfg: Config, actions: seq<Action>, i: nat, name: string, auth: string) {
    Lookup(Run(cfg, actions).claims, name) == Some(auth)
    <==> !exists k :: i < k < |actions| && WentElsewhere(cfg, actions, k, name, auth)
  }

  /** Every end of a claim in every run: the holder asked for it, unless the name came to it after the look-up. */
  lemma ClaimEnds(cfg: Config, actions: seq<Action>, name: string)
    requires actions != []
    requires Active(Run(cfg, actions[..|actions| - 1]).claims, name) && !Active(Run(cfg, actions).claims, name)
    ensures
      var front, last := actions[..|actions| - 1], actions[|actions| - 1];
      last.Release?
      && exists i: nat, auth ::
           Asked(cfg, front, i, last.id, name, auth) && OwnUnlessPassedOn(cfg, front, i, name, auth)
  {
    var front, last := actions[..|actions| - 1], actions[|actions| - 1];
    var s := Run(cfg, front);
    OnlyReleaseDeactivates(cfg, s, last, name);
    var auth := s.inFlight[last.id].pubkey;
    PendingWasAsked(cfg, front, last.id, name, auth);
    var i: nat :| Asked(cfg, front, i, last.id, name, auth);
    EndsAnothersMeaning(cfg, s, last.id, 0, name, auth);
    ReleaseEndsAnothersIff(cfg, front, i, last.id, name, auth, 0);
  }

  // ---- releases in one piece ------------------------------------------------------------------

  /** No request gets between the two halves of a release. */
  predicate Undivided(actions: seq<Action>) {
    (actions != [] ==> !actions[0].Release?)
    && forall i :: 0 < i < |actions| ==> Adjoin(actions[i - 1], actions[i])
  }

  predicate Adjoin(a: Action, b: Action) {
    if a.Unregister? then b.Release? && b.id == a.id else !b.Release?
  }

  predicate NoneOwned(s: State) {
    forall id :: id in s.inFlight ==> !s.inFlight[id].Owned?
  }

  lemma UndividedFront(actions: seq<Action>)
    requires actions != [] && Undivided(actions)
    ensures Undivided(actions[..|actions| - 1])
  {
  }

  /** Between requests no release is half done. */
  lemma {:induction false} NothingHalfDone(cfg: Config, actions: seq<Action>)
    requires Undivided(actions) && (actions != [] ==> !actions[|actions| - 1].Unregister?)
    ensures NoneOwned(Run(cfg, actions))
  {
    if actions != [] {
      var n := |actions| - 1;
      var front := actions[..n];
      UndividedFront(actions);
      if n > 0 { assert Adjoin(actions[n - 1], actions[n]); }
      if actions[n].Release? {
        UndividedFront(front);
        if n > 1 { assert Adjoin(actions[n - 2], actions[n - 1]); }
        NothingHalfDone(cfg, front[..n - 1]);
        assert front[n - 1] == actions[n - 1];
      } else {
        NothingHalfDone(cfg, front);
      }
    }
  }

  /** Before the last step of an undivided run that ends with a release, the look-up is the only thing pending. */
  lemma LookUpJustBefore(cfg: Config, actions: seq<Action>)
    requires Undivided(actions) && actions != [] && actions[|actions| - 1].Release?
    ensures
      var n := |actions| - 1;
      n > 0 && actions[n - 1].Unregister? && NoneOwned(Run(cfg, actions[..n - 1]))
      && Run(cfg, actions[..n]) == Next(cfg, Run(cfg, actions[..n - 1]), actions[n - 1])
  {
    var n := |actions| - 1;
    var front := actions[..n];
    assert Adjoin(actions[n - 1], actions[n]);
    UndividedFront(actions);
    UndividedFront(front);
    if n > 1 { assert Adjoin(actions[n - 2], actions[n - 1]); }
    assert front[..n - 1] == actions[..n - 1] && front[n - 1] == actions[n - 1];
    NothingHalfDone(cfg, front[..n - 1]);
  }

  lemma FreshLookUp(cfg: Config, s: State, a: Action, id: nat, name: string)
    requires a.Unregister? && NoneOwned(s) && id in Next(cfg, s, a).inFlight
    requires Next(cfg, s, a).inFlight[id].Owned? && Next(cfg, s, a).inFlight[id].name == name
    ensures a.name == name && Lookup(Next(cfg, s, a).claims, name) == Some(a.auth)
  {
  }

  /** In runs that do not divide releases, a claim ends only at the request of the key that holds it. */
  lemma OwnerReleases(cfg: Config, actions: seq<Action>, name: string)
    requires Undivided(actions) && actions != []
    requires Active(Run(cfg, actions[..|actions| - 1]).claims, name) && !Active(Run(cfg, actions).claims, name)
    ensures
      var n := |actions| - 1;
      n > 0 && actions[n - 1].Unregister? && actions[n - 1].name == name
      && Lookup(Run(cfg, actions[..n]).claims, name) == Some(actions[n - 1].auth)
  {
    var n := |actions| - 1;
    OnlyReleaseDeactivates(cfg, Run(cfg, actions[..n]), actions[n], name);
    LookUpJustBefore(cfg, actions);
    FreshLookUp(cfg, Run(cfg, actions[..n - 1]), actions[n - 1], actions[n].id, name);
  }

  /** The steps of a registration that nothing disturbs. */
  function Registration(id: nat, name: string, pubkey: string, now: nat): seq<Action> {
    [Register(id, name, pubkey, pubkey), CheckName(id), CheckPubkey(id), Gate(id, true), Insert(id, now)]
  }

  function Steps(cfg: Config, s: State, actions: seq<Action>): State
    decreases actions
  {
    if actions == [] then s else Steps(cfg, Next(cfg, s, actions[0]), actions[1..])
  }

  lemma RegistrationSucceeds(cfg: Config, s: State, id: nat, name: string, pubkey: string, now: nat)
    requires id !in s.inFlight && Acceptable(cfg, name, pubkey)
    requires Lookup(s.claims, name) == None && NameOf(s.claims, pubkey) == None
    ensures Steps(cfg, s, Registration(id, name, pubkey, now))
         == s.(claims := s.claims[name := Claim(pubkey, now, None)])
  {
    var xs := Registration(id, name, pubkey, now);
    var s1 := Put(s, id, Validated(name, pubkey));
    var s2 := Put(s1, id, NameWasFree(name, pubkey));
    var s3 := Put(s2, id, AtGate(name, pubkey));
    var s4 := Put(s3, id, Paid(name, pubkey));
    var s5 := Drop(s4.(claims := Inserted(s.claims, name, pubkey, now)), id);
    calc {
      Steps(cfg, s, xs);
      Steps(cfg, s1, xs[1..]);
      { assert xs[1..][0] == CheckName(id) && xs[1..][1..] == xs[2..]; }
      Steps(cfg, s2, xs[2..]);
      { assert xs[2..][0] == CheckPubkey(id) && xs[2..][1..] == xs[3..]; }
      Steps(cfg, s3, xs[3..]);
      { assert xs[3..][0] == Gate(id, true) && xs[3..][1..] == xs[4..]; }
      Steps(cfg, s4, xs[4..]);
      { assert xs[4..][0] == Insert(id, now) && xs[4..][1..] == []; }
      Steps(cfg, s5, []);
      s5;
    }
    assert s5.inFlight == s.inFlight;
  }

  /** With its halves apart, a release ends a claim that meanwhile went to someone else. */
  lemma ReleaseInTwoPieces(cfg: Config, s: State, name: string, p: string, q: string, late: nat, id: nat)
    requires late != id && id !in s.inFlight
    requires late in s.inFlight && s.inFlight[late] == Owned(name, p)
    requires Lookup(s.claims, name) == None && NameOf(s.claims, q) == None && Acceptable(cfg, name, q)
    ensures
      var s' := Steps(cfg, s, Registration(id, name, q, 1));
      Lookup(s'.claims, name) == Some(q) && Lookup(Next(cfg, s', Release(late, 2)).claims, name) == None
  {
    RegistrationSucceeds(cfg, s, id, name, q, 1);
  }

  // ---- a late release from the empty table on ----------------------------------------------------

  lemma {:induction false} RunSteps(cfg: Config, run: seq<Action>, more: seq<Action>)
    ensures Run(cfg, run + more) == Steps(cfg, Run(cfg, run), more)
    decreases more
  {
    if more == [] {
      assert run + more == run;
    } else {
      assert (run + [more[0]])[..|run|] == run;
      assert run + [more[0]] + more[1..] == run + more;
      RunSteps(cfg, run + [more[0]], more[1..]);
    }
  }

  /** Two requests of the holder look the name up, and one of them goes through. */
  function Twice(name: string, p: string): seq<Action> {
    [Unregister(1, name, p), Unregister(2, name, p), Release(2, 1)]
  }

  lemma TwiceLeavesOne(cfg: Config, s: State, name: string, p: string)
    requires s.inFlight == map[] && Lookup(s.claims, name) == Some(p)
    ensures Steps(cfg, s, Twice(name, p)) == State(Released(s.claims, name, 1), map[1 := Owned(name, p)])
  {
    var xs := Twice(name, p);
    var s1 := Put(s, 1, Owned(name, p));
    var s2 := Put(s1, 2, Owned(name, p));
    calc {
      Steps(cfg, s, xs);
      Steps(cfg, s1, xs[1..]);
      { assert xs[1..][0] == xs[1] && xs[1..][1..] == xs[2..]; }
      Steps(cfg, s2, xs[2..]);
      { assert xs[2..][0] == xs[2] && xs[2..][1..] == []; }
      Next(cfg, s2, xs[2]);
    }
  }

  function LateRun(name: string, p: string, q: string): seq<Action> {
    Registration(0, name, p, 0) + Twice(name, p) + Registration(0, name, q, 1)
  }

  /** Any two keys and any name both could claim: a run in which a release of the first ends the claim of the second. */
  lemma LateReleaseIsReached(cfg: Config, name: string, p: string, q: string)
    requires Acceptable(cfg, name, p) && Acceptable(cfg, name, q) && p != q
    ensures
      var s := Run(cfg, LateRun(name, p, q));
      1 in s.inFlight && s.inFlight[1] == Owned(name, p) && Lookup(s.claims, name) == Some(q)
      && EndsAnothers(cfg, s, 1, 2, p)
  {
    var first, second := Registration(0, name, p, 0), Registration(0, name, q, 1);
    var s0 := State(map[], map[]);
    RunSteps(cfg, [], first);
    assert [] + first == first;
    RegistrationSucceeds(cfg, s0, 0, name, p, 0);
    RunSteps(cfg, first, Twice(name, p));
    TwiceLeavesOne(cfg, Run(cfg, first), name, p);
    RunSteps(cfg, first + Twice(name, p), second);
    var s2 := Run(cfg, first + Twice(name, p));
    assert NamesOf(s2.claims, q) == {};
    RegistrationSucceeds(cfg, s2, 0, name, q, 1);
    EndsAnothersMeaning(cfg, Run(cfg, LateRun(name, p, q)), 1, 2, name, p);
  }
}
