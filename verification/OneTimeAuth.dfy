/**
 One-time use of NIP-98 authorisation events: the age test of src/name_authority/nip98.rs and
 the seen-set of src/name_authority/mod.rs. Time is in nanoseconds; the monotonic clock and the
 wall clock advance together, and the wall clock is read in whole seconds.
 */
module OneTimeAuth {

  const SECOND := 1_000_000_000

  /** Settings and the offset from the monotonic to the wall clock. */
  datatype Config = Config(maxAge: int, offset: nat)

  function UnixTime(cfg: Config, t: nat): int {
    (t + cfg.offset) / SECOND
  }

  /** Of the nanoseconds, the whole thousand millions. */
  lemma WholeSeconds(cfg: Config, t: nat)
    ensures 0 <= t + cfg.offset - 1_000_000_000 * UnixTime(cfg, t) < 1_000_000_000
  {
  }

  /** An authorisation event presented at some instant. */
  datatype Attempt = Attempt(id: string, createdAt: int, at: nat)

  function Age(cfg: Config, a: Attempt): int {
    UnixTime(cfg, a.at) - a.createdAt
  }

  predicate Timely(cfg: Config, a: Attempt) {
    -5 <= Age(cfg, a) <= cfg.maxAge
  }

  type Seen = map<string, nat>

  /** How long an id is remembered: the maximum age, if positive, and five seconds. */
  function Window(cfg: Config): nat {
    ((if cfg.maxAge > 0 then cfg.maxAge else 0) + 5) * SECOND
  }

  function Pruned(cfg: Config, seen: Seen, now: nat): Seen {
    map id | id in seen && now - seen[id] < Window(cfg) :: seen[id]
  }

  predicate Fresh(cfg: Config, seen: Seen, a: Attempt) {
    a.id !in Pruned(cfg, seen, a.at)
  }

  predicate Accepted(cfg: Config, seen: Seen, a: Attempt) {
    Timely(cfg, a) && Fresh(cfg, seen, a)
  }

  /** The age test comes first; only a timely event reaches the seen-set. */
  function After(cfg: Config, seen: Seen, a: Attempt): Seen {
    if !Timely(cfg, a) then seen
    else
      var pruned := Pruned(cfg, seen, a.at);
      if a.id in pruned then pruned else pruned[a.id := a.at]
  }

  class SeenSet {
    var seen: Seen

    constructor ()
      ensures seen == map[]
    {
      seen := map[];
    }

    /** `auth_event_fresh` */
    method AuthEventFresh(cfg: Config, id: string, now: nat) returns (fresh_: bool)
      modifies this
      ensures fresh_ == (id !in Pruned(cfg, old(seen), now))
      ensures seen == Pruned(cfg, old(seen), now)[id := if fresh_ then now else old(seen)[id]]
    {
      var window := Window(cfg);
      seen := map k | k in seen && now - seen[k] < window :: seen[k];
      if id in seen {
        return false;
      }
      seen := seen[id := now];
      return true;
    }
  }

  function Run(cfg: Config, attempts: seq<Attempt>): Seen {
    if attempts == [] then map[]
    else After(cfg, Run(cfg, attempts[..|attempts| - 1]), attempts[|attempts| - 1])
  }

  predicate AcceptedAt(cfg: Config, attempts: seq<Attempt>, i: nat)
    requires i < |attempts|
  {
    Accepted(cfg, Run(cfg, attempts[..i]), attempts[i])
  }

  predicate InOrder(attempts: seq<Attempt>) {
    forall i, j :: 0 <= i <= j < |attempts| ==> attempts[i].at <= attempts[j].at
  }

  /** The id fixes the event, so also its creation time. */
  predicate IdsFixEvents(attempts: seq<Attempt>) {
    forall i, j :: 0 <= i < |attempts| && 0 <= j < |attempts| && attempts[i].id == attempts[j].id ==>
      attempts[i].createdAt == attempts[j].createdAt
  }

  /** An accepted id stays in the set until the window has passed. */
  lemma {:induction false} Remembered(cfg: Config, attempts: seq<Attempt>, i: nat, now: nat)
    requires InOrder(attempts) && i < |attempts| && AcceptedAt(cfg, attempts, i)
    requires forall j :: 0 <= j < |attempts| ==> attempts[j].at <= now
    requires now - attempts[i].at < Window(cfg)
    ensures
      var seen := Run(cfg, attempts);
      attempts[i].id in seen && seen[attempts[i].id] >= attempts[i].at
  {
    var n := |attempts| - 1;
    var front, a := attempts[..n], attempts[n];
    if i < n {
      assert front[..i] == attempts[..i] && front[i] == attempts[i];
      Remembered(cfg, front, i, now);
    }
  }

  /** The clock arithmetic: a whole window later, the age has grown by at least as many seconds. */
  lemma SecondsPass(t: nat, u: nat, k: nat)
    requires u - t >= k * SECOND
    ensures u / SECOND - t / SECOND >= k
  {
  }

  /**
   One-time auth: an id is accepted twice only if it was first used exactly five seconds before
   its time and then again at exactly the maximum age.
   */
  lemma AcceptedTwice(cfg: Config, attempts: seq<Attempt>, i: nat, j: nat)
    requires InOrder(attempts) && IdsFixEvents(attempts) && i < j < |attempts| && attempts[i].id == attempts[j].id
    requires AcceptedAt(cfg, attempts, i) && AcceptedAt(cfg, attempts, j)
    ensures Age(cfg, attempts[i]) == -5 && Age(cfg, attempts[j]) == cfg.maxAge && cfg.maxAge >= 0
  {
    var front := attempts[..j];
    assert front[..i] == attempts[..i] && front[i] == attempts[i];
    if attempts[j].at - attempts[i].at < Window(cfg) {
      Remembered(cfg, front, i, attempts[j].at);
    } else {
      var k := (if cfg.maxAge > 0 then cfg.maxAge else 0) + 5;
      SecondsPass(attempts[i].at + cfg.offset, attempts[j].at + cfg.offset, k);
    }
  }

  /** So a first use at age -4 or more is the only one. */
  lemma NeverAgain(cfg: Config, attempts: seq<Attempt>, i: nat, j: nat)
    requires InOrder(attempts) && IdsFixEvents(attempts) && i < j < |attempts| && attempts[i].id == attempts[j].id
    requires AcceptedAt(cfg, attempts, i) && Age(cfg, attempts[i]) >= -4
    ensures !AcceptedAt(cfg, attempts, j)
  {
    if AcceptedAt(cfg, attempts, j) {
      AcceptedTwice(cfg, attempts, i, j);
    }
  }

  /** The one remaining gap is real: post-dated by five seconds, then again a window later. */
  lemma GapExists(cfg: Config, id: string, t: nat)
    requires cfg.maxAge >= 0
    ensures
      var c := UnixTime(cfg, t) + 5;
      var attempts := [Attempt(id, c, t), Attempt(id, c, t + Window(cfg))];
      AcceptedAt(cfg, attempts, 0) && AcceptedAt(cfg, attempts, 1)
  {
  }

  /** However the run goes on, no later attempt with the id of its last one is accepted. */
  ghost predicate UsedUp(cfg: Config, attempts: seq<Attempt>)
    requires attempts != []
  {
    forall more, j :: Again(cfg, attempts, more, j) ==> !AcceptedAt(cfg, attempts + more, j)
  }

  /** In a continuation of the run, attempt `j` presents the last id once more. */
  predicate Again(cfg: Config, attempts: seq<Attempt>, more: seq<Attempt>, j: nat)
    requires attempts != []
  {
    InOrder(attempts + more) && IdsFixEvents(attempts + more) && |attempts| <= j < |attempts + more|
    && (attempts + more)[j].id == attempts[|attempts| - 1].id
  }

  lemma SecondUse(cfg: Config, attempts: seq<Attempt>) returns (more: seq<Attempt>)
    requires attempts != [] && InOrder(attempts) && IdsFixEvents(attempts)
    requires AcceptedAt(cfg, attempts, |attempts| - 1)
    requires Age(cfg, attempts[|attempts| - 1]) == -5 && cfg.maxAge >= 0
    ensures Again(cfg, attempts, more, |attempts|) && AcceptedAt(cfg, attempts + more, |attempts|)
  {
    var a := attempts[|attempts| - 1];
    var b := a.(at := a.at + Window(cfg));
    more := [b];
    var all := attempts + more;
    assert all[..|attempts|] == attempts && attempts[..|attempts| - 1] + [a] == attempts;
    assert UnixTime(cfg, b.at) == UnixTime(cfg, a.at) + cfg.maxAge + 5;
  }

  /**
   One-time auth, exactly: after an accepted attempt that ends any run, a later attempt with its id
   can be accepted if and only if this one was post-dated by five seconds and ages may be zero.
   */
  lemma UsedUpIff(cfg: Config, attempts: seq<Attempt>)
    requires attempts != [] && InOrder(attempts) && IdsFixEvents(attempts)
    requires AcceptedAt(cfg, attempts, |attempts| - 1)
    ensures !UsedUp(cfg, attempts) <==> Age(cfg, attempts[|attempts| - 1]) == -5 && cfg.maxAge >= 0
  {
    var i := |attempts| - 1;
    if Age(cfg, attempts[i]) == -5 && cfg.maxAge >= 0 {
      var more := SecondUse(cfg, attempts);
      assert AcceptedAt(cfg, attempts + more, |attempts|);
    }
    forall more, j | Again(cfg, attempts, more, j) && AcceptedAt(cfg, attempts + more, j)
      ensures Age(cfg, attempts[i]) == -5 && cfg.maxAge >= 0
    {
      var all := attempts + more;
      assert all[..i] == attempts[..i] && all[i] == attempts[i];
      AcceptedTwice(cfg, all, i, j);
    }
  }
}
