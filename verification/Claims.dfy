/**
 The name claims of the name authority (src/name_authority/mod.rs, table `name_claims`).

 A registration runs its checks, waits on the payment gate and then inserts; a release looks up
 the owner and then updates. Each database access is one step, and any number of requests may
 be in flight between their steps.
 */
module Claims {
  import opened Wrappers
  import opened Names
  import Strings

  datatype Claim = Claim(pubkey: string, createdAt: nat, releasedAt: Option<nat>)

  type Table = map<string, Claim>

  /** `builtin` is the fixed list `ReservedNames.RESERVED`; nothing here depends on what it holds. */
  datatype Config = Config(nameMin: nat, nameMax: nat, builtin: seq<string>, extraReserved: seq<string>)

  // ---- the statements -----------------------------------------------------------------

  predicate Active(t: Table, name: string) {
    name in t && t[name].releasedAt.None?
  }

  function Lookup(t: Table, name: string): Option<string> {
    if Active(t, name) then Some(t[name].pubkey) else None
  }

  function NamesOf(t: Table, pubkey: string): set<string> {
    set n | n in t && Active(t, n) && t[n].pubkey == pubkey
  }

  function NameOf(t: Table, pubkey: string): Option<string> {
    var names := NamesOf(t, pubkey);
    if names == {} then None else Some(Strings.Least(names))
  }

  /** What the guarded insert reports. */
  datatype InsertResult = Registered | NameTaken | PubkeyHasName

  /**
   INSERT ... ON CONFLICT(name) DO UPDATE ... WHERE released_at IS NOT NULL, under the unique index
   on the public keys of unreleased rows.
   */
  function InsertReport(t: Table, name: string, pubkey: string): InsertResult {
    if Active(t, name) then NameTaken
    else if NamesOf(t, pubkey) != {} then PubkeyHasName
    else Registered
  }

  function Inserted(t: Table, name: string, pubkey: string, now: nat): Table {
    if InsertReport(t, name, pubkey) == Registered then t[name := Claim(pubkey, now, None)] else t
  }

  /** UPDATE name_claims SET released_at = now WHERE name = ? AND released_at IS NULL */
  function Released(t: Table, name: string, now: nat): Table {
    if Active(t, name) then t[name := t[name].(releasedAt := Some(now))] else t
  }

  // ---- the store object -------------------------------------------------------------------

  class ClaimStore {
    var claims: Table

    constructor ()
      ensures claims == map[]
    {
      claims := map[];
    }

    method Insert(name: string, pubkey: string, now: nat) returns (report: InsertResult)
      modifies this
      ensures report == InsertReport(old(claims), name, pubkey)
      ensures claims == Inserted(old(claims), name, pubkey, now)
      ensures report != Registered ==> claims == old(claims)
      ensures UniqueOwners(old(claims)) ==> UniqueOwners(claims)
    {
      if name in claims && claims[name].releasedAt.None? {
        return NameTaken;
      }
      if NamesOf(claims, pubkey) != {} {
        return PubkeyHasName;
      }
      if UniqueOwners(claims) {
        InsertKeepsUnique(claims, name, pubkey, now);
      }
      claims := claims[name := Claim(pubkey, now, None)];
      return Registered;
    }

    /** The first half of `unregister`, under its own lock. */
    method Owner(name: string) returns (owner: Option<string>)
      ensures owner == Lookup(claims, name)
    {
      if name in claims && claims[name].releasedAt.None? {
        return Some(claims[name].pubkey);
      }
      return None;
    }

    /** The second half: whoever holds the name by now loses it. */
    method Release(name: string, now: nat)
      modifies this
      ensures claims == Released(old(claims), name, now)
      ensures Lookup(claims, name) == None
    {
      if name in claims && claims[name].releasedAt.None? {
        claims := claims[name := claims[name].(releasedAt := Some(now))];
      }
    }

    /** `unregister` with nothing between its halves. */
    method Unregister(name: string, auth: string, now: nat) returns (done: bool)
      modifies this
      ensures done <==> Lookup(old(claims), name) == Some(auth)
      ensures claims == if done then Released(old(claims), name, now) else old(claims)
      ensures done ==> Lookup(claims, name) == None
    {
      var owner := Owner(name);
      done := owner == Some(auth);
      if done {
        Release(name, now);
      }
    }
  }

  // ---- uniqueness ---------------------------------------------------------------------------

  /** At most one active name per public key. */
  predicate UniqueOwners(t: Table) {
    forall n, m :: n in t && m in t && Active(t, n) && Active(t, m) && t[n].pubkey == t[m].pubkey ==> n == m
  }

  lemma InsertKeepsUnique(t: Table, name: string, pubkey: string, now: nat)
    requires UniqueOwners(t)
    ensures UniqueOwners(Inserted(t, name, pubkey, now))
  {
    var t' := Inserted(t, name, pubkey, now);
    if t' != t {
      forall n, m | n in t' && m in t' && Active(t', n) && Active(t', m) && t'[n].pubkey == t'[m].pubkey
        ensures n == m
      {
        assert n != name ==> n in t && Active(t, n) && n !in NamesOf(t, pubkey);
        assert m != name ==> m in t && Active(t, m) && m !in NamesOf(t, pubkey);
      }
    }
  }

  /** Resolution and reverse resolution are inverse to each other on active claims. */
  lemma LookupNameOfInverse(t: Table, name: string, pubkey: string)
    requires UniqueOwners(t)
    ensures Lookup(t, name) == Some(pubkey) <==> NameOf(t, pubkey) == Some(name)
  {
    var names := NamesOf(t, pubkey);
    if Lookup(t, name) == Some(pubkey) {
      assert name in names;
      assert Strings.Least(names) in names;
    }
  }

  // ---- requests in flight ---------------------------------------------------------------------

  /** How far a request has come. */
  datatype Phase =
    | Validated(name: string, pubkey: string)
    | NameWasFree(name: string, pubkey: string)
    | AtGate(name: string, pubkey: string)
    | Paid(name: string, pubkey: string)
    | Owned(name: string, pubkey: string)

  datatype State = State(claims: Table, inFlight: map<nat, Phase>)

  datatype Action =
    | Register(id: nat, name: string, pubkey: string, auth: string)
    | CheckName(id: nat)
    | CheckPubkey(id: nat)
    | Gate(id: nat, pass: bool)
    | Insert(id: nat, now: nat)
    | Unregister(id: nat, name: string, auth: string)
    | Release(id: nat, now: nat)

  /** Well-formed, authenticated as itself, and not a reserved name. */
  predicate Acceptable(cfg: Config, name: string, pubkey: string) {
    ValidPubkeyHex(pubkey) && ValidName(name, cfg.nameMin, cfg.nameMax)
    && !IsReserved(name, cfg.builtin, cfg.extraReserved)
  }

  function Put(s: State, id: nat, p: Phase): State {
    s.(inFlight := s.inFlight[id := p])
  }

  function Drop(s: State, id: nat): State {
    s.(inFlight := s.inFlight - {id})
  }

  /** One step of one request; a step that does not fit the request's phase does nothing. */
  function Next(cfg: Config, s: State, a: Action): State {
    match a
    case Register(id, name, pubkey, auth) =>
      if id !in s.inFlight && pubkey == auth && Acceptable(cfg, name, pubkey)
      then Put(s, id, Validated(name, pubkey)) else s
    case Unregister(id, name, auth) =>
      if id !in s.inFlight && Lookup(s.claims, name) == Some(auth) then Put(s, id, Owned(name, auth)) else s
    case _ =>
      if a.id !in s.inFlight then s
      else
        match (a, s.inFlight[a.id])
        case (CheckName(id), Validated(name, pubkey)) =>
          if Lookup(s.claims, name) == None then Put(s, id, NameWasFree(name, pubkey)) else Drop(s, id)
        case (CheckPubkey(id), NameWasFree(name, pubkey)) =>
          if NameOf(s.claims, pubkey) == None then Put(s, id, AtGate(name, pubkey)) else Drop(s, id)
        case (Gate(id, pass), AtGate(name, pubkey)) =>
          if pass then Put(s, id, Paid(name, pubkey)) else Drop(s, id)
        case (Insert(id, now), Paid(name, pubkey)) =>
          Drop(s.(claims := Inserted(s.claims, name, pubkey, now)), id)
        case (Release(id, now), Owned(name, _)) =>
          Drop(s.(claims := Released(s.claims, name, now)), id)
        case _ => s
  }

  function Run(cfg: Config, actions: seq<Action>): State {
    if actions == [] then State(map[], map[])
    else Next(cfg, Run(cfg, actions[..|actions| - 1]), actions[|actions| - 1])
  }

  // ---- safety -----------------------------------------------------------------------------------

  predicate TableAcceptable(cfg: Config, t: Table) {
    forall n :: n in t ==> Acceptable(cfg, n, t[n].pubkey)
  }

  predicate FlightAcceptable(cfg: Config, flight: map<nat, Phase>) {
    forall id :: id in flight && !flight[id].Owned? ==> Acceptable(cfg, flight[id].name, flight[id].pubkey)
  }

  ghost predicate Safe(cfg: Config, s: State) {
    UniqueOwners(s.claims) && TableAcceptable(cfg, s.claims) && FlightAcceptable(cfg, s.inFlight)
  }

  lemma StepKeepsUnique(cfg: Config, s: State, a: Action)
    requires UniqueOwners(s.claims)
    ensures UniqueOwners(Next(cfg, s, a).claims)
  {
    if a.Insert? && a.id in s.inFlight && s.inFlight[a.id].Paid? {
      InsertKeepsUnique(s.claims, s.inFlight[a.id].name, s.inFlight[a.id].pubkey, a.now);
    }
  }

  lemma StepKeepsTable(cfg: Config, s: State, a: Action)
    requires TableAcceptable(cfg, s.claims) && FlightAcceptable(cfg, s.inFlight)
    ensures TableAcceptable(cfg, Next(cfg, s, a).claims)
  {
  }

  lemma StepKeepsFlight(cfg: Config, s: State, a: Action)
    requires FlightAcceptable(cfg, s.inFlight)
    ensures FlightAcceptable(cfg, Next(cfg, s, a).inFlight)
  {
  }

  lemma StepIsSafe(cfg: Config, s: State, a: Action)
    requires Safe(cfg, s)
    ensures Safe(cfg, Next(cfg, s, a))
  {
    StepKeepsUnique(cfg, s, a);
    StepKeepsTable(cfg, s, a);
    StepKeepsFlight(cfg, s, a);
  }

  /** Claims safety: whatever the interleaving, owners are unique and every claimed name is acceptable. */
  lemma {:induction false} RunIsSafe(cfg: Config, actions: seq<Action>)
    ensures Safe(cfg, Run(cfg, actions))
  {
    if actions != [] {
      RunIsSafe(cfg, actions[..|actions| - 1]);
      StepIsSafe(cfg, Run(cfg, actions[..|actions| - 1]), actions[|actions| - 1]);
    }
  }

  /** What an active name and its owner look like in every run, character by character. */
  lemma ActiveNamesLook(cfg: Config, actions: seq<Action>, name: string)
    requires Active(Run(cfg, actions).claims, name)
    ensures cfg.nameMin <= |name| <= cfg.nameMax && name != ""
    ensures forall i :: 0 <= i < |name| ==>
      ('a' <= name[i] <= 'z' || '0' <= name[i] <= '9')
      || (0 < i < |name| - 1 && (name[i] == '.' || name[i] == '_' || name[i] == '-'))
    ensures name !in cfg.builtin && name !in cfg.extraReserved
    ensures
      var key := Run(cfg, actions).claims[name].pubkey;
      |key| == 64 && forall i :: 0 <= i < 64 ==> '0' <= key[i] <= '9' || 'a' <= key[i] <= 'f'
  {
    RunIsSafe(cfg, actions);
  }

  /** In every reachable table the two directions of resolution agree. */
  lemma RunResolves(cfg: Config, actions: seq<Action>, name: string, pubkey: string)
    ensures
      var t := Run(cfg, actions).claims;
      (Lookup(t, name) == Some(pubkey) <==> NameOf(t, pubkey) == Some(name))
      && (Active(t, name) ==> Acceptable(cfg, name, t[name].pubkey))
  {
    RunIsSafe(cfg, actions);
    LookupNameOfInverse(Run(cfg, actions).claims, name, pubkey);
  }

  lemma StepKeepsOwner(cfg: Config, s: State, a: Action, name: string)
    requires Active(s.claims, name) && Active(Next(cfg, s, a).claims, name)
    ensures Lookup(Next(cfg, s, a).claims, name) == Lookup(s.claims, name)
  {
  }

  /** A name that stays active through a stretch of the run keeps its owner all along. */
  lemma {:induction false} OwnerIsStable(cfg: Config, actions: seq<Action>, from: nat, name: string)
    requires from <= |actions|
    requires forall i :: from <= i <= |actions| ==> Active(Run(cfg, actions[..i]).claims, name)
    ensures Lookup(Run(cfg, actions).claims, name) == Lookup(Run(cfg, actions[..from]).claims, name)
  {
    assert actions[..|actions|] == actions;
    if from < |actions| {
      var front := actions[..|actions| - 1];
      ActiveBefore(cfg, actions, front, from, name);
      OwnerIsStable(cfg, front, from, name);
      assert front[..from] == actions[..from];
      LastKeepsOwner(cfg, actions, name);
    }
  }

  lemma LastKeepsOwner(cfg: Config, actions: seq<Action>, name: string)
    requires actions != [] && Active(Run(cfg, actions).claims, name)
    requires Active(Run(cfg, actions[..|actions| - 1]).claims, name)
    ensures Lookup(Run(cfg, actions).claims, name) == Lookup(Run(cfg, actions[..|actions| - 1]).claims, name)
  {
    StepKeepsOwner(cfg, Run(cfg, actions[..|actions| - 1]), actions[|actions| - 1], name);
  }

  lemma ActiveBefore(cfg: Config, actions: seq<Action>, front: seq<Action>, from: nat, name: string)
    requires from < |actions| && front == actions[..|actions| - 1]
    requires forall i :: from <= i <= |actions| ==> Active(Run(cfg, actions[..i]).claims, name)
    ensures forall i :: from <= i <= |front| ==> Active(Run(cfg, front[..i]).claims, name)
    ensures Active(Run(cfg, front).claims, name)
  {
    forall i | from <= i <= |front| ensures Active(Run(cfg, front[..i]).claims, name) {
      assert front[..i] == actions[..i];
    }
    assert front[..|front|] == front;
  }

  /** An insert that is refused leaves the table alone. */
  lemma RefusedInsert(cfg: Config, s: State, id: nat, now: nat)
    requires id in s.inFlight && s.inFlight[id].Paid?
    requires InsertReport(s.claims, s.inFlight[id].name, s.inFlight[id].pubkey) != Registered
    ensures Next(cfg, s, Insert(id, now)) == Drop(s, id)
  {
  }

  /** The insert goes through exactly when both checks would pass again. */
  lemma InsertDecides(t: Table, name: string, pubkey: string)
    ensures InsertReport(t, name, pubkey) == Registered <==> Lookup(t, name) == None && NameOf(t, pubkey) == None
  {
  }
}
