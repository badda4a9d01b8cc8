/**
 What lies behind every claim (`register` in src/name_authority/mod.rs): a request authenticated by the
 key it names, the two look-ups, the payment gate and the insert, in this order.
 */
module ClaimHistory {
  import opened Wrappers
  import opened Claims

  // ---- the stages of a request ---------------------------------------------------------

  ghost predicate Asked(actions: seq<Action>, id: nat, name: string, p: string) {
    Register(id, name, p, p) in actions
  }

  /** Step `i` found the name free, for a request made before. */
  ghost predicate FoundFreeAt(cfg: Config, actions: seq<Action>, i: int, id: nat, name: string, p: string) {
    0 <= i < |actions| && actions[i] == CheckName(id) && Lookup(Run(cfg, actions[..i]).claims, name) == None
    && Asked(actions[..i], id, name, p)
  }

  ghost predicate FoundFree(cfg: Config, actions: seq<Action>, id: nat, name: string, p: string) {
    exists i :: FoundFreeAt(cfg, actions, i, id, name, p)
  }

  /** Step `i` found the key without a name. */
  ghost predicate FoundNamelessAt(cfg: Config, actions: seq<Action>, i: int, id: nat, name: string, p: string) {
    0 <= i < |actions| && actions[i] == CheckPubkey(id) && NameOf(Run(cfg, actions[..i]).claims, p) == None
    && FoundFree(cfg, actions[..i], id, name, p)
  }

  ghost predicate FoundNameless(cfg: Config, actions: seq<Action>, id: nat, name: string, p: string) {
    exists i :: FoundNamelessAt(cfg, actions, i, id, name, p)
  }

  /** Step `i` let the request through the payment gate. */
  ghost predicate LetThroughAt(cfg: Config, actions: seq<Action>, i: int, id: nat, name: string, p: string) {
    0 <= i < |actions| && actions[i] == Gate(id, true) && FoundNameless(cfg, actions[..i], id, name, p)
  }

  ghost predicate LetThrough(cfg: Config, actions: seq<Action>, id: nat, name: string, p: string) {
    exists i :: LetThroughAt(cfg, actions, i, id, name, p)
  }

  /** Step `i` inserted the claim, at time `now`. */
  ghost predicate InsertedAt(cfg: Config, actions: seq<Action>, i: int, id: nat, name: string, p: string, now: nat) {
    0 <= i < |actions| && actions[i] == Insert(id, now) && LetThrough(cfg, actions[..i], id, name, p)
  }

  /** What has happened to a request in a given phase. */
  ghost predicate Behind(cfg: Config, actions: seq<Action>, id: nat, phase: Phase) {
    match phase
    case Validated(name, p) => Asked(actions, id, name, p)
    case NameWasFree(name, p) => FoundFree(cfg, actions, id, name, p)
    case AtGate(name, p) => FoundNameless(cfg, actions, id, name, p)
    case Paid(name, p) => LetThrough(cfg, actions, id, name, p)
    case Owned(_, _) => true
  }

  ghost predicate AllBehind(cfg: Config, actions: seq<Action>) {
    forall id :: id in Run(cfg, actions).inFlight ==> Behind(cfg, actions, id, Run(cfg, actions).inFlight[id])
  }

  // ---- what has happened stays so --------------------------------------------------------

  lemma StaysBehind(cfg: Config, actions: seq<Action>, a: Action, id: nat, phase: Phase)
    requires Behind(cfg, actions, id, phase)
    ensures Behind(cfg, actions + [a], id, phase)
  {
    var all := actions + [a];
    assert forall i :: 0 <= i <= |actions| ==> all[..i] == actions[..i];
    match phase
    case Validated(name, p) =>
    case NameWasFree(name, p) =>
      var i :| FoundFreeAt(cfg, actions, i, id, name, p);
      assert FoundFreeAt(cfg, all, i, id, name, p);
    case AtGate(name, p) =>
      var i :| FoundNamelessAt(cfg, actions, i, id, name, p);
      assert FoundNamelessAt(cfg, all, i, id, name, p);
    case Paid(name, p) =>
      var i :| LetThroughAt(cfg, actions, i, id, name, p);
      assert LetThroughAt(cfg, all, i, id, name, p);
    case Owned(_, _) =>
  }

  /** A request that the step moves on has the step behind it. */
  lemma StepIsBehind(cfg: Config, actions: seq<Action>, a: Action, id: nat)
    requires AllBehind(cfg, actions)
    requires
      var s := Run(cfg, actions);
      id in Next(cfg, s, a).inFlight && (id !in s.inFlight || Next(cfg, s, a).inFlight[id] != s.inFlight[id])
    ensures Behind(cfg, actions + [a], id, Next(cfg, Run(cfg, actions), a).inFlight[id])
  {
    var all, n := actions + [a], |actions|;
    var phase := Next(cfg, Run(cfg, actions), a).inFlight[id];
    assert all[..n] == actions && all[n] == a;
    match phase
    case Validated(name, p) =>
    case NameWasFree(name, p) => assert FoundFreeAt(cfg, all, n, id, name, p);
    case AtGate(name, p) => assert FoundNamelessAt(cfg, all, n, id, name, p);
    case Paid(name, p) => assert LetThroughAt(cfg, all, n, id, name, p);
    case Owned(_, _) =>
  }

  lemma RunPush(cfg: Config, actions: seq<Action>, a: Action)
    ensures Run(cfg, actions + [a]) == Next(cfg, Run(cfg, actions), a)
  {
    assert (actions + [a])[..|actions|] == actions;
  }

  lemma {:induction false} RunIsBehind(cfg: Config, actions: seq<Action>)
    ensures AllBehind(cfg, actions)
  {
    if actions != [] {
      var front, a := actions[..|actions| - 1], actions[|actions| - 1];
      assert actions == front + [a];
      RunIsBehind(cfg, front);
      RunPush(cfg, front, a);
      var s, s' := Run(cfg, front), Run(cfg, actions);
      forall id | id in s'.inFlight ensures Behind(cfg, actions, id, s'.inFlight[id]) {
        if id in s.inFlight && s'.inFlight[id] == s.inFlight[id] {
          StaysBehind(cfg, front, a, id, s.inFlight[id]);
        } else {
          StepIsBehind(cfg, front, a, id);
        }
      }
    }
  }

  // ---- every claim was earned ----------------------------------------------------------------

  lemma ClaimSteps(cfg: Config, s: State, a: Action, name: string)
    requires name in Next(cfg, s, a).claims
    requires name !in s.claims || Next(cfg, s, a).claims[name].pubkey != s.claims[name].pubkey
      || Next(cfg, s, a).claims[name].createdAt != s.claims[name].createdAt
    ensures a.Insert? && a.id in s.inFlight && s.inFlight[a.id] == Paid(name, Next(cfg, s, a).claims[name].pubkey)
    ensures Next(cfg, s, a).claims[name].createdAt == a.now
  {
  }

  /**
   Behind every row of the table stands one request, made with the authentication of the key that owns
   the claim: it found the name free, then the key without a name, was let through the payment gate,
   and was inserted when the row says.
   */
  lemma {:induction false} ClaimWasEarned(cfg: Config, actions: seq<Action>, name: string) returns (id: nat, i: int)
    requires name in Run(cfg, actions).claims
    ensures
      var c := Run(cfg, actions).claims[name];
      InsertedAt(cfg, actions, i, id, name, c.pubkey, c.createdAt)
  {
    var front, a := actions[..|actions| - 1], actions[|actions| - 1];
    assert actions == front + [a];
    RunPush(cfg, front, a);
    var s, c := Run(cfg, front), Run(cfg, actions).claims[name];
    if name in s.claims && s.claims[name].pubkey == c.pubkey && s.claims[name].createdAt == c.createdAt {
      id, i := ClaimWasEarned(cfg, front, name);
      assert actions[..i] == front[..i];
    } else {
      ClaimSteps(cfg, s, a, name);
      RunIsBehind(cfg, front);
      id, i := a.id, |front|;
      assert Behind(cfg, front, id, s.inFlight[id]);
    }
  }

  // ---- every release was asked for --------------------------------------------------------------

  /** Step `i` releases the name at time `t`, for a request that had found itself to own it. */
  ghost predicate ReleasedBy(cfg: Config, actions: seq<Action>, i: int, id: nat, name: string, t: nat) {
    0 <= i < |actions| && actions[i] == Release(id, t) && Active(Run(cfg, actions[..i]).claims, name)
    && var flight := Run(cfg, actions[..i]).inFlight;
       id in flight && flight[id].Owned? && flight[id].name == name
  }

  lemma ReleaseSteps(cfg: Config, s: State, a: Action, name: string)
    requires name in Next(cfg, s, a).claims && Next(cfg, s, a).claims[name].releasedAt.Some?
    requires name !in s.claims || Next(cfg, s, a).claims[name].releasedAt != s.claims[name].releasedAt
    ensures a.Release? && a.id in s.inFlight && s.inFlight[a.id].Owned? && s.inFlight[a.id].name == name
    ensures Active(s.claims, name) && Next(cfg, s, a).claims[name].releasedAt == Some(a.now)
  {
  }

  /** A released row was released when it says, by a request that had looked the name up as its own. */
  lemma {:induction false} ReleaseWasAsked(cfg: Config, actions: seq<Action>, name: string) returns (id: nat, i: int)
    requires name in Run(cfg, actions).claims && Run(cfg, actions).claims[name].releasedAt.Some?
    ensures ReleasedBy(cfg, actions, i, id, name, Run(cfg, actions).claims[name].releasedAt.value)
  {
    var front, a := actions[..|actions| - 1], actions[|actions| - 1];
    assert actions == front + [a];
    RunPush(cfg, front, a);
    var s, c := Run(cfg, front), Run(cfg, actions).claims[name];
    if name in s.claims && s.claims[name].releasedAt == c.releasedAt {
      id, i := ReleaseWasAsked(cfg, front, name);
      assert actions[..i] == front[..i];
    } else {
      ReleaseSteps(cfg, s, a, name);
      id, i := a.id, |front|;
    }
  }
}
