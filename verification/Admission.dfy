/** Write-side admission policies (src/admission.rs) and the recipient read gate (src/server.rs). */
module Admission {
  import opened Wrappers
  import opened Hex
  import opened Events
  import Text

  datatype Decision = Allow | Deny(reason: string, authRequired: bool)

  datatype Policy =
    | KindWhitelist(kinds: seq<nat>)
    | GiftWrapRetention
    | RestrictedKindAuthors(authors: seq<string>)
    | RequireAuth
    | PubkeyWhitelist(pubkeys: seq<string>)

  const DEFAULT_ALLOWED_KINDS: seq<nat> :=
    [0, 1, 3, 5, 7, 13, 14, 16, 17, 1059, 1111, 10000, 10002, 10050, 24133, 24140, 27235, 30000,
     30003, 30023, 30078, 30402, 30405, 30406, 31990]

  const LOCKED_KINDS: seq<nat> := [1, 30023]

  /** The settings the pipeline reads; note authors are taken as parsed lower-case keys. */
  datatype Settings = Settings(
    kindAllowlist: Option<seq<nat>>, publicNoteAuthors: seq<string>, nip42Auth: bool, requireAuthToWrite: bool,
    payToRelay: bool, pubkeyWhitelist: Option<seq<string>>)

  function CheckGiftWrap(e: Event): Decision {
    if e.kind != GIFT_WRAP then Allow
    else if exists i :: 0 <= i < |e.tags| && IsNamed(e.tags[i], "expiration") then
      Deny("expiration not allowed on gift wraps", false)
    else
      var recipients := TagValuesByName(e.tags, "p");
      if !(|recipients| == 1 && IsKey(recipients[0])) then Deny("gift wrap missing recipient", false)
      else if |e.tags| != 1 then Deny("gift wrap has extraneous tags", false)
      else Allow
  }

  function CheckPolicy(p: Policy, e: Event, authed: Option<string>): Decision {
    match p
    case KindWhitelist(kinds) =>
      if e.kind in kinds then Allow
      else Deny("event kind " + Text.ToDecimal(e.kind) + " not accepted by this relay", false)
    case GiftWrapRetention => CheckGiftWrap(e)
    case RestrictedKindAuthors(authors) =>
      if e.kind !in LOCKED_KINDS || Text.ToAsciiLower(e.pubkey) in authors then Allow
      else Deny("this relay accepts public notes only from authorized authors", false)
    case RequireAuth =>
      if authed.Some? then Allow else Deny("authentication required to publish events", true)
    case PubkeyWhitelist(pubkeys) =>
      if e.pubkey in pubkeys then Allow else Deny("pubkey is not allowed to publish to this relay", false)
  }

  /** The verdict of the first policy that denies. */
  function Verdict(policies: seq<Policy>, e: Event, authed: Option<string>): Decision {
    if policies == [] then Allow
    else
      var d := CheckPolicy(policies[0], e, authed);
      if d != Allow then d else Verdict(policies[1..], e, authed)
  }

  predicate Allows(policies: seq<Policy>, e: Event, authed: Option<string>) {
    Verdict(policies, e, authed) == Allow
  }

  method Check(policies: seq<Policy>, e: Event, authed: Option<string>) returns (d: Decision)
    ensures d == Verdict(policies, e, authed)
  {
    for i := 0 to |policies|
      invariant Verdict(policies, e, authed) == Verdict(policies[i..], e, authed)
    {
      d := CheckPolicy(policies[i], e, authed);
      if d != Allow {
        return;
      }
      assert policies[i..][1..] == policies[i + 1..];
    }
    d := Allow;
  }

  function Pipeline(s: Settings): seq<Policy> {
    var allowed := if s.kindAllowlist.Some? then s.kindAllowlist.value else DEFAULT_ALLOWED_KINDS;
    [KindWhitelist(allowed)] + [GiftWrapRetention] + [RestrictedKindAuthors(s.publicNoteAuthors)]
    + (if s.nip42Auth && s.requireAuthToWrite then [RequireAuth] else [])
    + (if !s.payToRelay && s.pubkeyWhitelist.Some? then [PubkeyWhitelist(s.pubkeyWhitelist.value)] else [])
  }

  method FromSettings(s: Settings) returns (policies: seq<Policy>)
    ensures policies == Pipeline(s)
  {
    policies := [];
    var allowed := if s.kindAllowlist.Some? then s.kindAllowlist.value else DEFAULT_ALLOWED_KINDS;
    policies := policies + [KindWhitelist(allowed)];
    policies := policies + [GiftWrapRetention];
    policies := policies + [RestrictedKindAuthors(s.publicNoteAuthors)];
    if s.nip42Auth && s.requireAuthToWrite {
      policies := policies + [RequireAuth];
    }
    if !s.payToRelay {
      if s.pubkeyWhitelist.Some? {
        policies := policies + [PubkeyWhitelist(s.pubkeyWhitelist.value)];
      }
    }
  }

  // ---- what gets in ---------------------------------------------------------------

  /** One tag: `p` and a lower-case key, whatever follows them. */
  predicate SingleRecipient(e: Event) {
    |e.tags| == 1 && |e.tags[0]| >= 2 && e.tags[0][0] == "p" && IsKey(e.tags[0][1])
  }

  lemma GiftWrapShape(e: Event)
    requires e.kind == GIFT_WRAP
    ensures CheckGiftWrap(e) == Allow <==> SingleRecipient(e)
  {
    var recipients := TagValuesByName(e.tags, "p");
    if |e.tags| == 1 {
      assert e.tags[1..] == [] && TagValuesByName(e.tags[1..], "p") == [];
    }
  }

  predicate KindIsOpen(s: Settings, kind: nat) {
    if s.kindAllowlist.Some? then kind in s.kindAllowlist.value
    else kind in [0, 1, 3, 5, 7, 13, 14, 16, 17, 1059, 1111, 10000, 10002, 10050, 24133, 24140, 27235,
                  30000, 30003, 30023, 30078, 30402, 30405, 30406, 31990]
  }

  /** The conditions an event must meet, without regard to the order of the policies. */
  predicate Admissible(s: Settings, e: Event, authed: Option<string>) {
    KindIsOpen(s, e.kind)
    && (e.kind == 1059 ==> SingleRecipient(e))
    && ((e.kind == 1 || e.kind == 30023) ==> Text.ToAsciiLower(e.pubkey) in s.publicNoteAuthors)
    && (s.nip42Auth && s.requireAuthToWrite ==> authed.Some?)
    && (!s.payToRelay && s.pubkeyWhitelist.Some? ==> e.pubkey in s.pubkeyWhitelist.value)
  }

  /** A pipeline lets an event through exactly when both halves do. */
  lemma {:induction false} AllowsConcat(a: seq<Policy>, b: seq<Policy>, e: Event, authed: Option<string>)
    ensures Allows(a + b, e, authed) <==> Allows(a, e, authed) && Allows(b, e, authed)
  {
    if a == [] {
      assert a + b == b;
    } else {
      assert (a + b)[1..] == a[1..] + b;
      AllowsConcat(a[1..], b, e, authed);
    }
  }

  lemma AllowsOne(p: Policy, e: Event, authed: Option<string>)
    ensures Allows([p], e, authed) <==> CheckPolicy(p, e, authed) == Allow
  {
    assert [p][1..] == [];
    assert Verdict([p][1..], e, authed) == Allow;
  }

  /** What each policy asks for. */
  predicate Satisfies(p: Policy, e: Event, authed: Option<string>) {
    match p
    case KindWhitelist(kinds) => e.kind in kinds
    case GiftWrapRetention => e.kind == GIFT_WRAP ==> SingleRecipient(e)
    case RestrictedKindAuthors(authors) => e.kind == 1 || e.kind == 30023 ==> Text.ToAsciiLower(e.pubkey) in authors
    case RequireAuth => authed.Some?
    case PubkeyWhitelist(pubkeys) => e.pubkey in pubkeys
  }

  lemma PolicyExact(p: Policy, e: Event, authed: Option<string>)
    ensures Allows([p], e, authed) <==> Satisfies(p, e, authed)
  {
    AllowsOne(p, e, authed);
    if p.GiftWrapRetention? && e.kind == GIFT_WRAP {
      GiftWrapShape(e);
    }
  }

  lemma OptionalPolicy(installed: bool, p: Policy, e: Event, authed: Option<string>)
    ensures Allows(if installed then [p] else [], e, authed) <==> (installed ==> Satisfies(p, e, authed))
  {
    PolicyExact(p, e, authed);
  }

  /** Admission, exactly. */
  lemma AdmissionExact(s: Settings, e: Event, authed: Option<string>)
    ensures Allows(Pipeline(s), e, authed) <==> Admissible(s, e, authed)
  {
    var k := KindWhitelist(if s.kindAllowlist.Some? then s.kindAllowlist.value else DEFAULT_ALLOWED_KINDS);
    var n := RestrictedKindAuthors(s.publicNoteAuthors);
    var asks := s.nip42Auth && s.requireAuthToWrite;
    var lists := !s.payToRelay && s.pubkeyWhitelist.Some?;
    var w := if lists then PubkeyWhitelist(s.pubkeyWhitelist.value) else RequireAuth;
    var auth, listed := if asks then [RequireAuth] else [], if lists then [w] else [];
    AllowsConcat([k] + [GiftWrapRetention] + [n] + auth, listed, e, authed);
    AllowsConcat([k] + [GiftWrapRetention] + [n], auth, e, authed);
    AllowsConcat([k] + [GiftWrapRetention], [n], e, authed);
    AllowsConcat([k], [GiftWrapRetention], e, authed);
    PolicyExact(k, e, authed);
    PolicyExact(GiftWrapRetention, e, authed);
    PolicyExact(n, e, authed);
    OptionalPolicy(asks, RequireAuth, e, authed);
    OptionalPolicy(lists, w, e, authed);
    assert Pipeline(s) == [k] + [GiftWrapRetention] + [n] + auth + listed;
  }

  /** The three policies that are always there. */
  function Standing(s: Settings): seq<Policy> {
    var allowed := if s.kindAllowlist.Some? then s.kindAllowlist.value else DEFAULT_ALLOWED_KINDS;
    [KindWhitelist(allowed)] + [GiftWrapRetention] + [RestrictedKindAuthors(s.publicNoteAuthors)]
  }

  function WithoutAuth(s: Settings): Settings {
    s.(nip42Auth := false, payToRelay := true)
  }

  lemma StandingOnly(s: Settings, e: Event, authed: Option<string>)
    ensures Allows(Standing(s), e, authed) <==> Admissible(WithoutAuth(s), e, authed)
  {
    assert Pipeline(WithoutAuth(s)) == Standing(s);
    AdmissionExact(WithoutAuth(s), e, authed);
  }

  lemma AsksBetween(head: seq<Policy>, asks: bool, tail: seq<Policy>, e: Event, authed: Option<string>)
    requires forall i :: 0 <= i < |head| ==> !head[i].RequireAuth?
    requires forall i :: 0 <= i < |tail| ==> !tail[i].RequireAuth?
    ensures
      var d := Verdict(head + ((if asks then [RequireAuth] else []) + tail), e, authed);
      d.Deny? && d.authRequired <==> asks && authed == None && Allows(head, e, authed)
  {
    var rest := (if asks then [RequireAuth] else []) + tail;
    VerdictConcat(head, rest, e, authed);
    NeverAsks(head, e, authed);
    NeverAsks(tail, e, authed);
    if asks {
      assert rest[0] == RequireAuth && rest[1..] == tail;
    } else {
      assert rest == tail;
    }
  }

  /** A denial asks for authentication when it is missing, has to be there, and nothing before it is wrong. */
  lemma AuthIsAskedFor(s: Settings, e: Event, authed: Option<string>)
    ensures
      var d := Verdict(Pipeline(s), e, authed);
      d.Deny? && d.authRequired <==>
        s.nip42Auth && s.requireAuthToWrite && authed == None && Admissible(WithoutAuth(s), e, authed)
  {
    var listed :=
      if !s.payToRelay && s.pubkeyWhitelist.Some? then [PubkeyWhitelist(s.pubkeyWhitelist.value)] else [];
    var asks := s.nip42Auth && s.requireAuthToWrite;
    assert Pipeline(s) == Standing(s) + ((if asks then [RequireAuth] else []) + listed);
    AsksBetween(Standing(s), asks, listed, e, authed);
    StandingOnly(s, e, authed);
  }

  lemma VerdictCons(p: Policy, rest: seq<Policy>, e: Event, authed: Option<string>)
    ensures Verdict([p] + rest, e, authed)
         == if CheckPolicy(p, e, authed) == Allow then Verdict(rest, e, authed) else CheckPolicy(p, e, authed)
  {
    assert ([p] + rest)[1..] == rest;
  }

  /** Which denial it is: that of the first of these conditions that does not hold. */
  lemma DeniedExactly(s: Settings, e: Event, authed: Option<string>)
    ensures Verdict(Pipeline(s), e, authed) ==
      if !KindIsOpen(s, e.kind) then Deny("event kind " + Text.ToDecimal(e.kind) + " not accepted by this relay", false)
      else if e.kind == 1059 && !SingleRecipient(e) then CheckGiftWrap(e)
      else if (e.kind == 1 || e.kind == 30023) && Text.ToAsciiLower(e.pubkey) !in s.publicNoteAuthors then
        Deny("this relay accepts public notes only from authorized authors", false)
      else if s.nip42Auth && s.requireAuthToWrite && authed == None then
        Deny("authentication required to publish events", true)
      else if !s.payToRelay && s.pubkeyWhitelist.Some? && e.pubkey !in s.pubkeyWhitelist.value then
        Deny("pubkey is not allowed to publish to this relay", false)
      else Allow
  {
    var auth := if s.nip42Auth && s.requireAuthToWrite then [RequireAuth] else [];
    var listed :=
      if !s.payToRelay && s.pubkeyWhitelist.Some? then [PubkeyWhitelist(s.pubkeyWhitelist.value)] else [];
    var allowed := AllowedKinds(s, e.kind);
    PipelineParts(s, allowed, auth, listed);
    StandingVerdicts(allowed, s.publicNoteAuthors, auth + listed, e, authed);
    OptionalVerdicts(s, auth, listed, e, authed);
  }

  lemma PipelineParts(s: Settings, allowed: seq<nat>, auth: seq<Policy>, listed: seq<Policy>)
    requires allowed == if s.kindAllowlist.Some? then s.kindAllowlist.value else DEFAULT_ALLOWED_KINDS
    requires auth == if s.nip42Auth && s.requireAuthToWrite then [RequireAuth] else []
    requires listed ==
      if !s.payToRelay && s.pubkeyWhitelist.Some? then [PubkeyWhitelist(s.pubkeyWhitelist.value)] else []
    ensures Pipeline(s) == [KindWhitelist(allowed)]
      + ([GiftWrapRetention] + ([RestrictedKindAuthors(s.publicNoteAuthors)] + (auth + listed)))
  {
  }

  lemma AllowedKinds(s: Settings, kind: nat) returns (allowed: seq<nat>)
    ensures allowed == if s.kindAllowlist.Some? then s.kindAllowlist.value else DEFAULT_ALLOWED_KINDS
    ensures KindIsOpen(s, kind) <==> kind in allowed
  {
    allowed := if s.kindAllowlist.Some? then s.kindAllowlist.value else DEFAULT_ALLOWED_KINDS;
  }

  lemma StandingVerdicts(
    kinds: seq<nat>, authors: seq<string>, rest: seq<Policy>, e: Event, authed: Option<string>)
    ensures Verdict(
        [KindWhitelist(kinds)] + ([GiftWrapRetention] + ([RestrictedKindAuthors(authors)] + rest)), e, authed) ==
      if e.kind !in kinds then Deny("event kind " + Text.ToDecimal(e.kind) + " not accepted by this relay", false)
      else if e.kind == 1059 && !SingleRecipient(e) then CheckGiftWrap(e)
      else if (e.kind == 1 || e.kind == 30023) && Text.ToAsciiLower(e.pubkey) !in authors then
        Deny("this relay accepts public notes only from authorized authors", false)
      else Verdict(rest, e, authed)
  {
    var notes := [RestrictedKindAuthors(authors)] + rest;
    VerdictCons(KindWhitelist(kinds), [GiftWrapRetention] + notes, e, authed);
    VerdictCons(GiftWrapRetention, notes, e, authed);
    VerdictCons(RestrictedKindAuthors(authors), rest, e, authed);
    if e.kind == 1059 { GiftWrapShape(e); }
  }

  lemma OptionalVerdicts(
    s: Settings, auth: seq<Policy>, listed: seq<Policy>, e: Event, authed: Option<string>)
    requires auth == if s.nip42Auth && s.requireAuthToWrite then [RequireAuth] else []
    requires listed ==
      if !s.payToRelay && s.pubkeyWhitelist.Some? then [PubkeyWhitelist(s.pubkeyWhitelist.value)] else []
    ensures Verdict(auth + listed, e, authed) ==
      if auth != [] && authed == None then Deny("authentication required to publish events", true)
      else if listed != [] && e.pubkey !in s.pubkeyWhitelist.value then
        Deny("pubkey is not allowed to publish to this relay", false)
      else Allow
  {
    if auth != [] {
      VerdictCons(RequireAuth, listed, e, authed);
    } else {
      assert auth + listed == listed;
    }
    if listed != [] {
      VerdictCons(listed[0], [], e, authed);
      assert listed == [listed[0]] + [];
    }
  }

  /** Why a gift wrap is turned away. */
  lemma WrapDenials(e: Event)
    requires e.kind == 1059 && !SingleRecipient(e)
    ensures
      var lasting := forall i :: 0 <= i < |e.tags| ==> e.tags[i] == [] || e.tags[i][0] != "expiration";
      var named := TagValuesByName(e.tags, "p");
      CheckGiftWrap(e) ==
        if !lasting then Deny("expiration not allowed on gift wraps", false)
        else if |named| == 1 && |named[0]| == 64 && IsLowerHex(named[0])
        then Deny("gift wrap has extraneous tags", false)
        else Deny("gift wrap missing recipient", false)
  {
    GiftWrapShape(e);
  }

  lemma {:induction false} VerdictConcat(a: seq<Policy>, b: seq<Policy>, e: Event, authed: Option<string>)
    ensures Verdict(a + b, e, authed) == if Allows(a, e, authed) then Verdict(b, e, authed) else Verdict(a, e, authed)
  {
    if a == [] {
      assert a + b == b;
    } else {
      assert (a + b)[1..] == a[1..] + b;
      VerdictConcat(a[1..], b, e, authed);
    }
  }

  lemma OneNeverAsks(p: Policy, e: Event, authed: Option<string>)
    requires !p.RequireAuth?
    ensures CheckPolicy(p, e, authed).Deny? ==> !CheckPolicy(p, e, authed).authRequired
  {
  }

  lemma {:induction false} NeverAsks(a: seq<Policy>, e: Event, authed: Option<string>)
    requires forall i :: 0 <= i < |a| ==> !a[i].RequireAuth?
    ensures Verdict(a, e, authed).Deny? ==> !Verdict(a, e, authed).authRequired
  {
    if a != [] {
      NeverAsks(a[1..], e, authed);
      OneNeverAsks(a[0], e, authed);
    }
  }

  // ---- who may read it --------------------------------------------------------------

  /** `allowed_to_send`; a stored text that does not parse is never sent while the gate is on. */
  predicate AllowedToSend(parsed: Option<Event>, authed: Option<string>, gate: bool) {
    if !gate then true
    else match parsed
      case None => false
      case Some(e) =>
        if e.kind == 4 || e.kind == 44 || e.kind == GIFT_WRAP then
          var recipients := TagValuesByName(e.tags, "p");
          authed.Some? && recipients != [] && (recipients[0] == authed.value || e.pubkey == authed.value)
        else true
  }

  /** With the gate on, an admitted gift wrap goes to its one recipient and its author, and to nobody else. */
  lemma GiftWrapReaders(s: Settings, e: Event, writer: Option<string>, reader: Option<string>)
    requires e.kind == GIFT_WRAP && Allows(Pipeline(s), e, writer)
    ensures SingleRecipient(e)
    ensures AllowedToSend(Some(e), reader, true) <==> reader == Some(e.tags[0][1]) || reader == Some(e.pubkey)
  {
    AdmissionExact(s, e, writer);
    assert TagValuesByName(e.tags[1..], "p") == [];
    assert TagValuesByName(e.tags, "p") == [e.tags[0][1]];
  }

  /** The position of the first `p` tag with a value. */
  predicate FirstRecipient(e: Event, i: int) {
    0 <= i < |e.tags| && |e.tags[i]| >= 2 && e.tags[i][0] == "p"
    && forall j :: 0 <= j < i ==> !(|e.tags[j]| >= 2 && e.tags[j][0] == "p")
  }

  lemma {:induction false} FirstRecipientIsFirst(tags: seq<Tag>, i: nat)
    requires i < |tags| && |tags[i]| >= 2 && tags[i][0] == "p"
    requires forall j :: 0 <= j < i ==> !(|tags[j]| >= 2 && tags[j][0] == "p")
    ensures TagValuesByName(tags, "p") != [] && TagValuesByName(tags, "p")[0] == tags[i][1]
  {
    if i > 0 {
      FirstRecipientIsFirst(tags[1..], i - 1);
    }
  }

  lemma {:induction false} SomeRecipient(tags: seq<Tag>) returns (i: nat)
    requires TagValuesByName(tags, "p") != []
    ensures i < |tags| && |tags[i]| >= 2 && tags[i][0] == "p"
    ensures forall j :: 0 <= j < i ==> !(|tags[j]| >= 2 && tags[j][0] == "p")
  {
    if |tags[0]| >= 2 && tags[0][0] == "p" {
      i := 0;
    } else {
      var k := SomeRecipient(tags[1..]);
      i := k + 1;
      forall j | 0 <= j < i ensures !(|tags[j]| >= 2 && tags[j][0] == "p") {
        if j > 0 { assert tags[j] == tags[1..][j - 1]; }
      }
    }
  }

  /** The reader is named in the first `p` tag, or there is one and the reader is the author. */
  predicate ReadableBy(e: Event, i: int, reader: string) {
    FirstRecipient(e, i) && (e.tags[i][1] == reader || e.pubkey == reader)
  }

  /**
   Who is sent what, for every stored text: without the gate everything goes out; with it, nothing that
   does not parse, and events of kind 4, 44 and 1059 only to the key in the first `p` tag or the author.
   */
  lemma SentExactly(parsed: Option<Event>, authed: Option<string>, gate: bool)
    ensures AllowedToSend(parsed, authed, gate) <==>
      !gate
      || (parsed.Some? && parsed.value.kind != 4 && parsed.value.kind != 44 && parsed.value.kind != 1059)
      || (parsed.Some? && authed.Some? && exists i :: ReadableBy(parsed.value, i, authed.value))
  {
    if parsed.Some? {
      var e := parsed.value;
      if TagValuesByName(e.tags, "p") != [] {
        var i := SomeRecipient(e.tags);
        assert FirstRecipient(e, i);
        if authed.Some? && (e.tags[i][1] == authed.value || e.pubkey == authed.value) {
          assert ReadableBy(e, i, authed.value);
        }
      }
      forall i | FirstRecipient(e, i)
        ensures TagValuesByName(e.tags, "p") != [] && TagValuesByName(e.tags, "p")[0] == e.tags[i][1]
      {
        FirstRecipientIsFirst(e.tags, i);
      }
    }
  }
}
