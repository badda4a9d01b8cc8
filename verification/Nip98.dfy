/**
 Verification of a NIP-98 authorisation event (src/name_authority/nip98.rs), once its text is
 decoded. Signature validity and the digest of the request body are inputs.
 */
module Nip98 {
  import opened Wrappers
  import opened Events
  import Text

  const HTTP_AUTH_KIND := 27235

  datatype Failure =
    | BadSignature | WrongKind | Untimely | UrlMismatch | MethodMismatch | PayloadMismatch | PayloadMissing

  datatype Verdict = Verified(pubkey: string, id: string) | Refused(reason: Failure)

  datatype Request = Request(method_: string, url: string, bodyIsEmpty: bool, digest: string, maxAge: int, now: int)

  function TrimSlashes(s: string): string {
    if s != [] && s[|s| - 1] == '/' then TrimSlashes(s[..|s| - 1]) else s
  }

  predicate SameIgnoringCase(a: string, b: string) {
    |a| == |b| && forall i :: 0 <= i < |a| ==> Text.AsciiLower(a[i]) == Text.AsciiLower(b[i])
  }

  // ---- the scan over the tags -----------------------------------------------------------

  datatype Scan = Scan(urlOk: bool, methodOk: bool, payload: Option<string>)

  function ScanTag(s: Scan, tag: Tag, req: Request): Scan {
    if tag == [] then s
    else if tag[0] == "u" then
      if |tag| > 1 then s.(urlOk := TrimSlashes(tag[1]) == TrimSlashes(req.url)) else s
    else if tag[0] == "method" then
      if |tag| > 1 then s.(methodOk := SameIgnoringCase(tag[1], req.method_)) else s
    else if tag[0] == "payload" then s.(payload := if |tag| > 1 then Some(tag[1]) else None)
    else s
  }

  function ScanTags(tags: seq<Tag>, req: Request): Scan {
    if tags == [] then Scan(false, false, None)
    else ScanTag(ScanTags(tags[..|tags| - 1], req), tags[|tags| - 1], req)
  }

  /** What the scan leaves: the last tag of each name that says something decides. */
  function LastValue(tags: seq<Tag>, name: string): Option<string> {
    if tags == [] then None
    else
      var last := tags[|tags| - 1];
      if |last| > 1 && last[0] == name then Some(last[1]) else LastValue(tags[..|tags| - 1], name)
  }

  /** A later `payload` tag without a value withdraws an earlier one. */
  function LastPayload(tags: seq<Tag>): Option<string> {
    if tags == [] then None
    else
      var last := tags[|tags| - 1];
      if IsNamed(last, "payload") then (if |last| > 1 then Some(last[1]) else None)
      else LastPayload(tags[..|tags| - 1])
  }

  lemma {:induction false} ScanMeaning(tags: seq<Tag>, req: Request)
    ensures
      var s, u, m := ScanTags(tags, req), LastValue(tags, "u"), LastValue(tags, "method");
      (s.urlOk <==> u.Some? && TrimSlashes(u.value) == TrimSlashes(req.url))
      && (s.methodOk <==> m.Some? && SameIgnoringCase(m.value, req.method_))
      && s.payload == LastPayload(tags)
  {
    if tags != [] {
      ScanMeaning(tags[..|tags| - 1], req);
      var n := "method";
      assert |n| != |"u"| && |"payload"| != |n| && |"payload"| != |"u"|;
    }
  }

  // ---- texts that count as the same ------------------------------------------------------

  /** The comparison is equality in lower case. */
  lemma SameIsEqualLower(a: string, b: string)
    ensures SameIgnoringCase(a, b) <==> Text.ToAsciiLower(a) == Text.ToAsciiLower(b)
  {
    var x, y := Text.ToAsciiLower(a), Text.ToAsciiLower(b);
    if x == y {
      forall i | 0 <= i < |a| ensures Text.AsciiLower(a[i]) == Text.AsciiLower(b[i]) {
        assert x[i] == y[i];
      }
    }
  }

  function Slashes(n: nat): string {
    seq(n, _ => '/')
  }

  /** Nothing but slashes at the end tells the two apart. */
  ghost predicate SameButSlashes(a: string, b: string) {
    exists t, k: nat, l: nat :: a == t + Slashes(k) && b == t + Slashes(l)
  }

  lemma {:induction false} TrimCuts(s: string) returns (k: nat)
    ensures s == TrimSlashes(s) + Slashes(k)
  {
    k := 0;
    if s != [] && s[|s| - 1] == '/' {
      k := TrimCuts(s[..|s| - 1]);
      assert s == TrimSlashes(s) + Slashes(k) + ['/'];
      assert Slashes(k + 1) == Slashes(k) + ['/'];
      k := k + 1;
    }
  }

  lemma {:induction false} TrimIgnores(t: string, k: nat)
    ensures TrimSlashes(t + Slashes(k)) == TrimSlashes(t)
  {
    var s := t + Slashes(k);
    if k == 0 {
      assert s == t;
    } else {
      assert s[..|s| - 1] == t + Slashes(k - 1);
      TrimIgnores(t, k - 1);
    }
  }

  lemma TrimmedAlikeIff(a: string, b: string)
    ensures TrimSlashes(a) == TrimSlashes(b) <==> SameButSlashes(a, b)
  {
    if TrimSlashes(a) == TrimSlashes(b) {
      var k := TrimCuts(a);
      var l := TrimCuts(b);
    }
    if t, k: nat, l: nat :| a == t + Slashes(k) && b == t + Slashes(l) {
      TrimIgnores(t, k);
      TrimIgnores(t, l);
    }
  }

  // ---- the verdict ------------------------------------------------------------------------

  function Verify(e: Event, signed: bool, req: Request): Verdict {
    var age := req.now - e.createdAt;
    var s := ScanTags(e.tags, req);
    if !signed then Refused(BadSignature)
    else if e.kind != HTTP_AUTH_KIND then Refused(WrongKind)
    else if age > req.maxAge || age < -5 then Refused(Untimely)
    else if !s.urlOk then Refused(UrlMismatch)
    else if !s.methodOk then Refused(MethodMismatch)
    else if s.payload.Some? then
      if SameIgnoringCase(s.payload.value, req.digest) then Verified(e.pubkey, e.id) else Refused(PayloadMismatch)
    else if !req.bodyIsEmpty then Refused(PayloadMissing)
    else Verified(e.pubkey, e.id)
  }

  method VerifyNip98(e: Event, signed: bool, req: Request) returns (v: Verdict)
    ensures v == Verify(e, signed, req)
  {
    if !signed {
      return Refused(BadSignature);
    }
    if e.kind != HTTP_AUTH_KIND {
      return Refused(WrongKind);
    }
    var age := req.now - e.createdAt;
    if age > req.maxAge || age < -5 {
      return Refused(Untimely);
    }
    var urlOk, methodOk := false, false;
    var payload: Option<string> := None;
    for i := 0 to |e.tags|
      invariant Scan(urlOk, methodOk, payload) == ScanTags(e.tags[..i], req)
    {
      assert e.tags[..i + 1][..i] == e.tags[..i];
      var tag := e.tags[i];
      if tag != [] {
        if tag[0] == "u" {
          if |tag| > 1 {
            urlOk := TrimSlashes(tag[1]) == TrimSlashes(req.url);
          }
        } else if tag[0] == "method" {
          if |tag| > 1 {
            methodOk := SameIgnoringCase(tag[1], req.method_);
          }
        } else if tag[0] == "payload" {
          payload := if |tag| > 1 then Some(tag[1]) else None;
        }
      }
    }
    assert e.tags[..|e.tags|] == e.tags;
    if !urlOk {
      return Refused(UrlMismatch);
    }
    if !methodOk {
      return Refused(MethodMismatch);
    }
    if payload.Some? {
      if !SameIgnoringCase(payload.value, req.digest) {
        return Refused(PayloadMismatch);
      }
    } else if !req.bodyIsEmpty {
      return Refused(PayloadMissing);
    }
    return Verified(e.pubkey, e.id);
  }

  /** A request is authenticated exactly when a signed, timely event names its URL, method and body. */
  lemma VerifiedExactly(e: Event, signed: bool, req: Request)
    ensures
      var u, m, p := LastValue(e.tags, "u"), LastValue(e.tags, "method"), LastPayload(e.tags);
      Verify(e, signed, req).Verified? <==>
        signed && e.kind == 27235 && -5 <= req.now - e.createdAt <= req.maxAge
        && u.Some? && SameButSlashes(u.value, req.url)
        && m.Some? && Text.ToAsciiLower(m.value) == Text.ToAsciiLower(req.method_)
        && (if p.Some? then Text.ToAsciiLower(p.value) == Text.ToAsciiLower(req.digest) else req.bodyIsEmpty)
    ensures Verify(e, signed, req).Verified? ==> Verify(e, signed, req) == Verified(e.pubkey, e.id)
  {
    ScanMeaning(e.tags, req);
    var u, m, p := LastValue(e.tags, "u"), LastValue(e.tags, "method"), LastPayload(e.tags);
    if u.Some? { TrimmedAlikeIff(u.value, req.url); }
    if m.Some? { SameIsEqualLower(m.value, req.method_); }
    if p.Some? { SameIsEqualLower(p.value, req.digest); }
  }

  /** The reason given is the first test that fails. */
  lemma RefusedExactly(e: Event, signed: bool, req: Request)
    ensures
      var u, m, p := LastValue(e.tags, "u"), LastValue(e.tags, "method"), LastPayload(e.tags);
      var timely := signed && e.kind == 27235 && -5 <= req.now - e.createdAt <= req.maxAge;
      var there := timely && u.Some? && SameButSlashes(u.value, req.url);
      var named := there && m.Some? && Text.ToAsciiLower(m.value) == Text.ToAsciiLower(req.method_);
      var v := Verify(e, signed, req);
      (v == Refused(BadSignature) <==> !signed)
      && (v == Refused(WrongKind) <==> signed && e.kind != 27235)
      && (v == Refused(Untimely) <==> signed && e.kind == 27235 && !timely)
      && (v == Refused(UrlMismatch) <==> timely && !there)
      && (v == Refused(MethodMismatch) <==> there && !named)
      && (v == Refused(PayloadMismatch) <==>
           named && p.Some? && Text.ToAsciiLower(p.value) != Text.ToAsciiLower(req.digest))
      && (v == Refused(PayloadMissing) <==> named && p.None? && !req.bodyIsEmpty)
  {
    ScanMeaning(e.tags, req);
    var u, m, p := LastValue(e.tags, "u"), LastValue(e.tags, "method"), LastPayload(e.tags);
    if u.Some? { TrimmedAlikeIff(u.value, req.url); }
    if m.Some? { SameIsEqualLower(m.value, req.method_); }
    if p.Some? { SameIsEqualLower(p.value, req.digest); }
  }
}
