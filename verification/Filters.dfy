/** Subscription filters and the in-memory matcher (src/subscription.rs). */
module Filters {
  import opened Wrappers
  import opened Events

  datatype TagOperand = And(values: set<string>) | Or(values: set<string>)

  datatype ReqFilter = ReqFilter(
    ids: Option<seq<string>>, kinds: Option<seq<nat>>, since: Option<nat>, until: Option<nat>,
    authors: Option<seq<string>>, limit: Option<nat>, tags: Option<map<char, TagOperand>>, forceNoMatch: bool)

  predicate PrefixMatch(prefixes: seq<string>, target: string) {
    exists i :: 0 <= i < |prefixes| && prefixes[i] <= target
  }

  predicate TermsMatch(terms: Option<seq<string>>, target: string) {
    terms.None? || PrefixMatch(terms.value, target)
  }

  predicate DelegatedAuthorsMatch(f: ReqFilter, e: LiveEvent) {
    e.delegatedBy.Some? && TermsMatch(f.authors, e.delegatedBy.value)
  }

  /** Compares a filter's values for a tag name with the event's index, by counting common values. */
  predicate GenericTagValIntersect(e: LiveEvent, name: char, check: TagOperand) {
    e.tagIdx.Some? && name in e.tagIdx.value
    && var common := e.tagIdx.value[name] * check.values;
       match check
       case And(v) => |common| == |v|
       case Or(v) => |common| > 0
  }

  predicate TagMatch(f: ReqFilter, e: LiveEvent) {
    f.tags.Some? ==> forall c :: c in f.tags.value ==> GenericTagValIntersect(e, c, f.tags.value[c])
  }

  predicate KindMatch(f: ReqFilter, kind: nat) {
    f.kinds.None? || kind in f.kinds.value
  }

  predicate InterestedInEvent(f: ReqFilter, e: LiveEvent) {
    TermsMatch(f.ids, e.event.id)
    && (f.since.Some? ==> e.event.createdAt >= f.since.value)
    && (f.until.Some? ==> e.event.createdAt <= f.until.value)
    && KindMatch(f, e.event.kind)
    && (TermsMatch(f.authors, e.event.pubkey) || DelegatedAuthorsMatch(f, e))
    && TagMatch(f, e)
    && !f.forceNoMatch
  }

  /** An event as the relay holds it right after `build_index`. */
  function Indexed(e: Event, delegatedBy: Option<string>): LiveEvent {
    LiveEvent(e, delegatedBy, if e.tags == [] then None else Some(IndexOf(e.tags)))
  }

  // ---- counting common values is set comparison -------------------------------------

  lemma IntersectCount(a: set<string>, b: set<string>)
    ensures |a * b| == |b| <==> b <= a
    ensures |a * b| > 0 <==> exists v :: v in a && v in b
  {
    assert b == (a * b) + (b - a);
    assert (a * b) !! (b - a);
    if |a * b| == |b| {
      assert |b - a| == 0;
    }
    if b <= a {
      assert a * b == b;
    }
    if |a * b| > 0 {
      var v :| v in a * b;
    }
    if v :| v in a && v in b {
      assert v in a * b;
    }
  }

  /** On an indexed event, an operand asks for all, or some, of its values among the tags. */
  lemma IntersectMeaning(e: Event, delegatedBy: Option<string>, name: char, check: TagOperand)
    requires check.values != {}
    ensures GenericTagValIntersect(Indexed(e, delegatedBy), name, check) <==>
      match check
      case And(vs) => forall v :: v in vs ==> HasTag(e.tags, [name], v)
      case Or(vs) => exists v :: v in vs && HasTag(e.tags, [name], v)
  {
    IndexOfMeaning(e.tags, name);
    var w :| w in check.values;
    if e.tags != [] && name in IndexOf(e.tags) {
      var held := IndexOf(e.tags)[name];
      IntersectCount(held, check.values);
      assert forall v :: v in held <==> HasTag(e.tags, [name], v);
    }
  }
}
