/**
 What a compiled query selects. The rows are exactly those whose event the in-memory matcher
 accepts for the canonical form of the filter, and for filters already in that form the two
 engines agree.
 */
module QueryMeaning {
  import opened Wrappers
  import opened Hex
  import opened Events
  import opened Filters
  import opened Store
  import opened StoreInvariants
  import opened Query
  import opened QueryHoles
  import Strings

  // ---- SQL truth --------------------------------------------------------------------

  datatype Tri = True | False | Null

  function Truth(b: bool): Tri {
    if b then True else False
  }

  function Or3(a: Tri, b: Tri): Tri {
    if a == True || b == True then True else if a == False && b == False then False else Null
  }

  function And3(a: Tri, b: Tri): Tri {
    if a == False || b == False then False else if a == True && b == True then True else Null
  }

  function AnyOf3(ts: seq<Tri>): Tri {
    if ts == [] then False else Or3(ts[0], AnyOf3(ts[1..]))
  }

  lemma {:induction false} AnyOf3True(ts: seq<Tri>)
    ensures AnyOf3(ts) == True <==> exists i :: 0 <= i < |ts| && ts[i] == True
  {
    if ts != [] {
      AnyOf3True(ts[1..]);
      if i :| 0 <= i < |ts| && ts[i] == True {
        if i > 0 { assert ts[1..][i - 1] == True; }
      }
    }
  }

  // ---- meaning of clauses -------------------------------------------------------------

  /** `column = ?`; a term that is not hex was bound as NULL and equals nothing. */
  function Equals(column: Blob, p: Param): Tri {
    match p
    case BlobParam(b) => if b == None then Null else Truth(b == Some(column))
    case _ => False
  }

  predicate SameText(column: string, p: Param) {
    p == TextParam(column)
  }

  predicate Within(w: Narrowing, kind: nat, createdAt: nat) {
    (w.kinds.Some? ==> kind in w.kinds.value)
    && (w.since.Some? ==> createdAt >= w.since.value)
    && (w.until.Some? ==> createdAt <= w.until.value)
  }

  /** `e.id IN (SELECT t.event_id FROM tag t WHERE ...)` for the name and one of the values. */
  predicate TagFound(db: Db, r: nat, args: seq<Param>, w: Narrowing)
    requires |args| >= 1
  {
    exists t :: t in db.tags && db.tags[t].eventId == r && TagRowMatches(db.tags[t], args, w)
  }

  predicate TagRowMatches(tag: TagRow, args: seq<Param>, w: Narrowing)
    requires |args| >= 1
  {
    SameText(tag.name, args[0]) && (exists i :: 1 <= i < |args| && SameText(tag.value, args[i]))
    && Within(w, tag.kind, tag.createdAt)
  }

  function EvalClause(c: Clause, args: seq<Param>, db: Db, r: nat): Tri
    requires |args| == Arity(c) && r in db.events
  {
    var row := db.events[r];
    match c
    case AuthorIs(n) => AnyOf3(seq(n, i requires 0 <= i < n => Equals(row.author, args[i])))
    case HashIs(n) => AnyOf3(seq(n, i requires 0 <= i < n => Equals(row.hash, args[i])))
    case Never => False
    case KindIn(kinds) => Truth(row.kind in kinds)
    case TagValueIn(_, w) => Truth(TagFound(db, r, args, w))
    case TagValueIs(w) => Truth(TagFound(db, r, args, w))
    case CreatedFrom(since) => Truth(row.createdAt >= since)
    case CreatedTo(until) => Truth(row.createdAt <= until)
    case Unexpired =>
      if row.expiresAt.None? then True
      else Truth(args[0].IntParam? && row.expiresAt.value > args[0].number)
  }

  function TotalArity(cs: seq<Clause>): nat {
    if cs == [] then 0 else Arity(cs[0]) + TotalArity(cs[1..])
  }

  /** The conjunction of the clauses, each taking its parameters from the front of the list. */
  function EvalClauses(cs: seq<Clause>, params: seq<Param>, db: Db, r: nat): Tri
    requires |params| == TotalArity(cs) && r in db.events
  {
    if cs == [] then True
    else
      var n := Arity(cs[0]);
      And3(EvalClause(cs[0], params[..n], db, r), EvalClauses(cs[1..], params[n..], db, r))
  }

  function Clauses(bs: seq<Bound>): seq<Clause> {
    seq(|bs|, i requires 0 <= i < |bs| => bs[i].clause)
  }

  lemma {:induction false} ParamsFit(bs: seq<Bound>)
    requires AllFit(bs)
    ensures |Params(bs)| == TotalArity(Clauses(bs))
  {
    if bs != [] {
      assert Fits(bs[0]);
      assert Clauses(bs)[1..] == Clauses(bs[1..]);
      ParamsFit(bs[1..]);
    }
  }

  /** Every clause is true of the row with its own parameters. */
  predicate Holds(bs: seq<Bound>, db: Db, r: nat)
    requires AllFit(bs) && r in db.events
  {
    forall i :: 0 <= i < |bs| ==> HoldsOne(bs[i], db, r)
  }

  predicate HoldsOne(b: Bound, db: Db, r: nat)
    requires r in db.events
  {
    Fits(b) && EvalClause(b.clause, b.args, db, r) == True
  }

  /** Binding the flat list from left to right gives every clause its own parameters. */
  lemma {:induction false} BindsLeftToRight(bs: seq<Bound>, db: Db, r: nat)
    requires AllFit(bs) && r in db.events && |Params(bs)| == TotalArity(Clauses(bs))
    ensures EvalClauses(Clauses(bs), Params(bs), db, r) == True <==> Holds(bs, db, r)
  {
    if bs != [] {
      var b, rest := bs[0], bs[1..];
      assert Fits(b);
      assert Clauses(bs)[1..] == Clauses(rest);
      ParamsFit(rest);
      BindsLeftToRight(rest, db, r);
      assert Params(bs)[..Arity(b.clause)] == b.args;
      assert Params(bs)[Arity(b.clause)..] == Params(rest);
      assert Holds(bs, db, r) <==> HoldsOne(b, db, r) && Holds(rest, db, r) by {
        if HoldsOne(b, db, r) && Holds(rest, db, r) {
          forall i | 0 <= i < |bs| ensures HoldsOne(bs[i], db, r) {
            if i > 0 { assert bs[i] == rest[i - 1]; }
          }
        }
        if Holds(bs, db, r) {
          forall i | 0 <= i < |rest| ensures HoldsOne(rest[i], db, r) {
            assert rest[i] == bs[i + 1];
          }
        }
      }
    }
  }

  /** The row is in the result of the query generated for this filter at this time. */
  predicate Selected(f: ReqFilter, now: nat, db: Db, r: nat)
    requires r in db.events
  {
    CompileFits(f, now);
    ParamsFit(Compile(f, now));
    !f.forceNoMatch
    && And3(Truth(!db.events[r].hidden),
            EvalClauses(Clauses(Compile(f, now)), Params(Compile(f, now)), db, r)) == True
  }

  // ---- the canonical filter -------------------------------------------------------------

  /** The terms an equality search can match: full-length hex, in lower case. */
  function CanonicalTerms(terms: seq<string>): seq<string> {
    if terms == [] then []
    else
      (if IsHex(terms[0]) && |terms[0]| == 64 then [ToLower(terms[0])] else []) + CanonicalTerms(terms[1..])
  }

  function Canonical(f: ReqFilter): ReqFilter {
    f.(ids := if f.ids.Some? then Some(CanonicalTerms(f.ids.value)) else None,
       authors := if f.authors.Some? then Some(CanonicalTerms(f.authors.value)) else None,
       tags := if f.tags.Some?
               then Some(map c | c in f.tags.value && f.tags.value[c].values != {} :: f.tags.value[c]) else None)
  }

  lemma {:induction false} CanonicalMatch(terms: seq<string>, x: string)
    requires IsKey(x)
    ensures PrefixMatch(CanonicalTerms(terms), x) <==> exists i :: 0 <= i < |terms| && Decode(terms[i]) == Decode(x)
  {
    LowerIsFixed(x);
    if terms != [] {
      var p, rest := terms[0], terms[1..];
      var own := if IsHex(p) && |p| == 64 then [ToLower(p)] else [];
      CanonicalMatch(rest, x);
      assert Decode(p) == Decode(x) <==> own != [] && own[0] <= x by {
        if IsHex(p) && |p| == 64 { DecodeEqual(p, x); }
      }
      var all := own + CanonicalTerms(rest);
      assert PrefixMatch(all, x) <==> (own != [] && own[0] <= x) || PrefixMatch(CanonicalTerms(rest), x) by {
        if i :| 0 <= i < |all| && all[i] <= x {
          if i >= |own| { assert CanonicalTerms(rest)[i - |own|] == all[i]; }
        }
        if i :| 0 <= i < |CanonicalTerms(rest)| && CanonicalTerms(rest)[i] <= x {
          assert all[i + |own|] == CanonicalTerms(rest)[i];
        }
        if own != [] && own[0] <= x { assert all[0] == own[0]; }
      }
      if i :| 0 <= i < |terms| && Decode(terms[i]) == Decode(x) {
        if i > 0 { assert rest[i - 1] == terms[i]; }
      }
    }
  }

  // ---- part by part -----------------------------------------------------------------------

  lemma HoldsConcat(a: seq<Bound>, b: seq<Bound>, db: Db, r: nat)
    requires AllFit(a) && AllFit(b) && r in db.events
    ensures AllFit(a + b) && (Holds(a + b, db, r) <==> Holds(a, db, r) && Holds(b, db, r))
  {
    AllFitConcat(a, b);
    if Holds(a + b, db, r) {
      forall i | 0 <= i < |a| ensures HoldsOne(a[i], db, r) { assert (a + b)[i] == a[i]; }
      forall i | 0 <= i < |b| ensures HoldsOne(b[i], db, r) { assert (a + b)[|a| + i] == b[i]; }
    }
  }

  lemma HoldsSingle(b: Bound, db: Db, r: nat)
    requires Fits(b) && r in db.events
    ensures AllFit([b]) && (Holds([b], db, r) <==> EvalClause(b.clause, b.args, db, r) == True)
  {
    assert [b][0] == b;
    assert Holds([b], db, r) <==> HoldsOne([b][0], db, r);
  }

  lemma EqualsAny(column: Blob, terms: seq<string>)
    ensures AnyOf3(seq(|terms|, i requires 0 <= i < |terms| => Equals(column, Blobs(terms)[i]))) == True
      <==> exists i :: 0 <= i < |terms| && Decode(terms[i]) == Some(column)
  {
    var ts := seq(|terms|, i requires 0 <= i < |terms| => Equals(column, Blobs(terms)[i]));
    AnyOf3True(ts);
    assert forall i :: 0 <= i < |terms| ==> (ts[i] == True <==> Decode(terms[i]) == Some(column));
  }

  lemma AuthorPartMeaning(f: ReqFilter, db: Db, r: nat)
    requires r in db.events && RowFaithful(db.events[r]) && IsKey(db.events[r].content.pubkey)
    ensures AllFit(AuthorPart(f))
    ensures Holds(AuthorPart(f), db, r) <==> TermsMatch(Canonical(f).authors, db.events[r].content.pubkey)
  {
    if f.authors.Some? {
      var v := f.authors.value;
      CanonicalMatch(v, db.events[r].content.pubkey);
      EqualsAny(db.events[r].author, v);
      HoldsSingle(AuthorPart(f)[0], db, r);
    }
  }

  lemma IdPartMeaning(f: ReqFilter, db: Db, r: nat)
    requires r in db.events && RowFaithful(db.events[r]) && IsKey(db.events[r].content.id)
    ensures AllFit(IdPart(f))
    ensures Holds(IdPart(f), db, r) <==> TermsMatch(Canonical(f).ids, db.events[r].content.id)
  {
    if f.ids.Some? {
      var v := f.ids.value;
      CanonicalMatch(v, db.events[r].content.id);
      EqualsAny(db.events[r].hash, v);
      HoldsSingle(IdPart(f)[0], db, r);
    }
  }

  lemma KindPartMeaning(f: ReqFilter, db: Db, r: nat)
    requires r in db.events && RowFaithful(db.events[r])
    ensures AllFit(KindPart(f))
    ensures Holds(KindPart(f), db, r) <==> KindMatch(f, db.events[r].content.kind)
  {
    if f.kinds.Some? {
      HoldsSingle(KindPart(f)[0], db, r);
    }
  }

  lemma TimePartMeaning(f: ReqFilter, db: Db, r: nat)
    requires r in db.events && RowFaithful(db.events[r])
    ensures AllFit(TimePart(f))
    ensures Holds(TimePart(f), db, r) <==>
      (f.since.Some? ==> db.events[r].content.createdAt >= f.since.value)
      && (f.until.Some? ==> db.events[r].content.createdAt <= f.until.value)
  {
    var since := if f.since.Some? then [Bound(CreatedFrom(f.since.value), [])] else [];
    var until := if f.until.Some? then [Bound(CreatedTo(f.until.value), [])] else [];
    if f.since.Some? { HoldsSingle(since[0], db, r); }
    if f.until.Some? { HoldsSingle(until[0], db, r); }
    HoldsConcat(since, until, db, r);
  }

  lemma TagRowMatchesMeaning(tag: TagRow, name: string, values: seq<string>, w: Narrowing)
    ensures TagRowMatches(tag, [TextParam(name)] + Texts(values), w) <==>
      tag.name == name && tag.value in values && Within(w, tag.kind, tag.createdAt)
  {
    var args := [TextParam(name)] + Texts(values);
    if i :| 1 <= i < |args| && SameText(tag.value, args[i]) {
      assert values[i - 1] == tag.value;
    }
    if i :| 0 <= i < |values| && values[i] == tag.value {
      assert SameText(tag.value, args[i + 1]);
    }
  }

  /** A tag subquery asks whether the event itself has the tag, within the narrowing. */
  lemma TagFoundMeaning(db: Db, r: nat, name: string, values: seq<string>, w: Narrowing)
    requires Mirror(db) && r in db.events && |name| == 1
    ensures
      var e := db.events[r].content;
      TagFound(db, r, [TextParam(name)] + Texts(values), w) <==>
        Within(w, e.kind, e.createdAt) && exists v :: v in values && HasTag(e.tags, name, v)
  {
    var e, args := db.events[r].content, [TextParam(name)] + Texts(values);
    assert RowFaithful(db.events[r]);
    if t :| t in db.tags && db.tags[t].eventId == r && TagRowMatches(db.tags[t], args, w) {
      TagRowMatchesMeaning(db.tags[t], name, values, w);
      TagRowMeaning(db, t);
      assert TagFaithful(db, db.tags[t]);
    }
    if v :| v in values && HasTag(e.tags, name, v) {
      MirroredMeaning(db, r, name, v);
      var t :| t in RowsFor(db.tags, r, name, v);
      assert TagFaithful(db, db.tags[t]);
      TagRowMatchesMeaning(db.tags[t], name, values, w);
    }
  }

  lemma OneValueMeaning(name: string, value: string, w: Narrowing, db: Db, r: nat)
    requires Mirror(db) && r in db.events && |name| == 1
    ensures
      var e := db.events[r].content;
      HoldsOne(Bound(TagValueIs(w), [TextParam(name), TextParam(value)]), db, r) <==>
        Within(w, e.kind, e.createdAt) && HasTag(e.tags, name, value)
  {
    TagFoundMeaning(db, r, name, [value], w);
    assert [TextParam(name)] + Texts([value]) == [TextParam(name), TextParam(value)];
    assert value in [value];
  }

  lemma EachValueMeaning(name: string, values: seq<string>, w: Narrowing, db: Db, r: nat)
    requires Mirror(db) && r in db.events && |name| == 1
    ensures AllFit(EachValue(name, values, w))
    ensures
      var e := db.events[r].content;
      Holds(EachValue(name, values, w), db, r) <==>
        forall v :: v in values ==> Within(w, e.kind, e.createdAt) && HasTag(e.tags, name, v)
  {
    var e, bs := db.events[r].content, EachValue(name, values, w);
    forall v ensures HoldsOne(Bound(TagValueIs(w), [TextParam(name), TextParam(v)]), db, r) <==>
      Within(w, e.kind, e.createdAt) && HasTag(e.tags, name, v)
    {
      OneValueMeaning(name, v, w, db, r);
    }
    assert forall i :: 0 <= i < |values| ==> bs[i] == Bound(TagValueIs(w), [TextParam(name), TextParam(values[i])]);
    if Holds(bs, db, r) {
      forall v | v in values ensures Within(w, e.kind, e.createdAt) && HasTag(e.tags, name, v) {
        var i :| 0 <= i < |values| && values[i] == v;
        assert HoldsOne(bs[i], db, r);
      }
    } else {
      var i :| 0 <= i < |bs| && !HoldsOne(bs[i], db, r);
      assert values[i] in values;
    }
  }

  /** An operand, compiled: satisfied when empty, otherwise as the matcher reads it, within the narrowing. */
  lemma OperandMeaning(c: char, op: TagOperand, w: Narrowing, db: Db, r: nat)
    requires Mirror(db) && r in db.events
    ensures AllFit(OperandPart([c], op, w))
    ensures
      var e := db.events[r].content;
      Holds(OperandPart([c], op, w), db, r) <==>
        op.values == {} || (Within(w, e.kind, e.createdAt) && GenericTagValIntersect(Indexed(e, None), c, op))
  {
    OperandFits([c], op, w);
    if op.values != {} {
      var e, values := db.events[r].content, Strings.Sorted(op.values);
      IntersectMeaning(e, None, c, op);
      match op
      case Or(vs) =>
        TagFoundMeaning(db, r, [c], values, w);
        HoldsSingle(OperandPart([c], op, w)[0], db, r);
      case And(vs) =>
        EachValueMeaning([c], values, w, db, r);
        var v :| v in vs;
        assert v in values;
    }
  }

  predicate OperandHolds(name: string, op: TagOperand, w: Narrowing, db: Db, r: nat)
    requires r in db.events
  {
    AllFit(OperandPart(name, op, w)) && Holds(OperandPart(name, op, w), db, r)
  }

  predicate PartsHold(names: seq<string>, tags: map<char, TagOperand>, w: Narrowing, db: Db, r: nat)
    requires NamesIn(names, tags) && r in db.events
  {
    AllFit(NamedParts(names, tags, w)) && Holds(NamedParts(names, tags, w), db, r)
  }

  lemma PartsHoldSnoc(names: seq<string>, tags: map<char, TagOperand>, w: Narrowing, db: Db, r: nat)
    requires names != [] && NamesIn(names, tags) && r in db.events
    ensures
      var k := |names| - 1;
      PartsHold(names, tags, w, db, r) <==>
        PartsHold(names[..k], tags, w, db, r) && OperandHolds(names[k], tags[names[k][0]], w, db, r)
  {
    var k := |names| - 1;
    NamedPartsFit(names[..k], tags, w);
    OperandFits(names[k], tags[names[k][0]], w);
    HoldsConcat(NamedParts(names[..k], tags, w), OperandPart(names[k], tags[names[k][0]], w), db, r);
  }

  /** The parts of all names hold when each name is among the good ones. */
  lemma {:induction false} NamedPartsMeaning(
    names: seq<string>, tags: map<char, TagOperand>, w: Narrowing, db: Db, r: nat, good: set<string>)
    requires NamesIn(names, tags) && r in db.events
    requires forall i :: 0 <= i < |names| ==> NameIsGood(names[i], tags, w, db, r, good)
    ensures PartsHold(names, tags, w, db, r) <==> AllIn(names, good)
  {
    if names != [] {
      var k := |names| - 1;
      var front := names[..k];
      assert forall i :: 0 <= i < k ==> front[i] == names[i];
      NamedPartsMeaning(front, tags, w, db, r, good);
      PartsHoldSnoc(names, tags, w, db, r);
      NameIsGoodMeans(names[k], tags, w, db, r, good);
      AllInSnoc(names, good);
    } else {
      assert NamedParts(names, tags, w) == [];
    }
  }

  predicate AllIn(names: seq<string>, good: set<string>) {
    forall i :: 0 <= i < |names| ==> names[i] in good
  }

  lemma AllInSnoc(names: seq<string>, good: set<string>)
    requires names != []
    ensures AllIn(names, good) <==> AllIn(names[..|names| - 1], good) && names[|names| - 1] in good
  {
  }

  /** `good` tells the truth about this name. */
  predicate NameIsGood(name: string, tags: map<char, TagOperand>, w: Narrowing, db: Db, r: nat, good: set<string>)
    requires r in db.events
  {
    |name| == 1 && name[0] in tags && (name in good <==> OperandHolds(name, tags[name[0]], w, db, r))
  }

  lemma NameIsGoodMeans(name: string, tags: map<char, TagOperand>, w: Narrowing, db: Db, r: nat, good: set<string>)
    requires r in db.events && NameIsGood(name, tags, w, db, r, good)
    ensures name in good <==> OperandHolds(name, tags[name[0]], w, db, r)
  {
  }

  lemma TagPartMeaning(f: ReqFilter, db: Db, r: nat)
    requires Mirror(db) && r in db.events
    requires Within(NarrowingOf(f), db.events[r].content.kind, db.events[r].content.createdAt)
    ensures AllFit(TagPart(f))
    ensures Holds(TagPart(f), db, r) <==> TagMatch(Canonical(f), Indexed(db.events[r].content, None))
  {
    if f.tags.Some? {
      var tags, names, w := f.tags.value, SortedNames(f.tags.value), NarrowingOf(f);
      var e := Indexed(db.events[r].content, None);
      var good := set n | n in names && (tags[n[0]].values == {} || GenericTagValIntersect(e, n[0], tags[n[0]]));
      forall i | 0 <= i < |names| ensures NameIsGood(names[i], tags, w, db, r, good) {
        var c := names[i][0];
        assert names[i] == [c];
        OperandMeaning(c, tags[c], w, db, r);
      }
      NamedPartsFit(names, tags, w);
      NamedPartsMeaning(names, tags, w, db, r, good);
      GoodNames(f, e, good);
    }
  }

  lemma GoodNames(f: ReqFilter, e: LiveEvent, good: set<string>)
    requires f.tags.Some?
    requires
      var tags := f.tags.value;
      good == set n | n in SortedNames(tags) && (tags[n[0]].values == {} || GenericTagValIntersect(e, n[0], tags[n[0]]))
    ensures
      var names := SortedNames(f.tags.value);
      AllIn(names, good) <==> TagMatch(Canonical(f), e)
  {
    var tags, names := f.tags.value, SortedNames(f.tags.value);
    NamesCover(tags, names);
    if AllIn(names, good) {
      forall c | c in Canonical(f).tags.value ensures GenericTagValIntersect(e, c, tags[c]) {
        var i :| 0 <= i < |names| && names[i] == [c];
        assert names[i] in good;
      }
    }
    if TagMatch(Canonical(f), e) {
      forall i | 0 <= i < |names| ensures names[i] in good {
        var c := names[i][0];
        if tags[c].values != {} { assert c in Canonical(f).tags.value; }
      }
    }
  }

  lemma NamesCover(tags: map<char, TagOperand>, names: seq<string>)
    requires names == SortedNames(tags)
    ensures forall c :: c in tags ==> exists i :: 0 <= i < |names| && names[i] == [c]
  {
  }

  // ---- the theorem --------------------------------------------------------------------------

  predicate Visible(row: EventRow, now: nat) {
    !row.hidden && (row.expiresAt.Some? ==> row.expiresAt.value > now)
  }

  /** The conditions hold together exactly when each part does. */
  lemma CompileSplits(f: ReqFilter, now: nat, db: Db, r: nat)
    requires r in db.events && !f.forceNoMatch
    requires AllFit(AuthorPart(f)) && AllFit(KindPart(f)) && AllFit(IdPart(f)) && AllFit(TagPart(f))
    requires AllFit(TimePart(f)) && AllFit([Bound(Unexpired, [IntParam(now)])]) && AllFit(Compile(f, now))
    ensures Holds(Compile(f, now), db, r) <==>
      Holds(AuthorPart(f), db, r) && Holds(KindPart(f), db, r) && Holds(IdPart(f), db, r)
      && Holds(TagPart(f), db, r) && Holds(TimePart(f), db, r) && Holds([Bound(Unexpired, [IntParam(now)])], db, r)
  {
    HoldsConcat(AuthorPart(f), KindPart(f), db, r);
    HoldsConcat(AuthorPart(f) + KindPart(f), IdPart(f), db, r);
    HoldsConcat(AuthorPart(f) + KindPart(f) + IdPart(f), TagPart(f), db, r);
    HoldsConcat(AuthorPart(f) + KindPart(f) + IdPart(f) + TagPart(f), TimePart(f), db, r);
    HoldsConcat(AuthorPart(f) + KindPart(f) + IdPart(f) + TagPart(f) + TimePart(f),
                [Bound(Unexpired, [IntParam(now)])], db, r);
  }

  /** The matcher on a canonical filter, test by test. */
  predicate MatchedByParts(f: ReqFilter, e: Event) {
    TermsMatch(Canonical(f).authors, e.pubkey) && KindMatch(f, e.kind) && TermsMatch(Canonical(f).ids, e.id)
    && TagMatch(Canonical(f), Indexed(e, None))
    && (f.since.Some? ==> e.createdAt >= f.since.value) && (f.until.Some? ==> e.createdAt <= f.until.value)
  }

  lemma CanonicalByParts(f: ReqFilter, e: Event)
    requires !f.forceNoMatch
    ensures InterestedInEvent(Canonical(f), Indexed(e, None)) <==> MatchedByParts(f, e)
  {
  }

  lemma LastPartMeaning(now: nat, db: Db, r: nat)
    requires r in db.events
    ensures AllFit([Bound(Unexpired, [IntParam(now)])])
    ensures Holds([Bound(Unexpired, [IntParam(now)])], db, r)
      <==> (db.events[r].expiresAt.Some? ==> db.events[r].expiresAt.value > now)
  {
    HoldsSingle(Bound(Unexpired, [IntParam(now)]), db, r);
  }

  lemma PartsHoldTogether(f: ReqFilter, db: Db, r: nat)
    requires Mirror(db) && r in db.events
    requires IsKey(db.events[r].content.id) && IsKey(db.events[r].content.pubkey)
    ensures AllFit(AuthorPart(f)) && AllFit(KindPart(f)) && AllFit(IdPart(f))
    ensures AllFit(TagPart(f)) && AllFit(TimePart(f))
    ensures
      Holds(AuthorPart(f), db, r) && Holds(KindPart(f), db, r) && Holds(IdPart(f), db, r) && Holds(TagPart(f), db, r)
      && Holds(TimePart(f), db, r)
      <==> MatchedByParts(f, db.events[r].content)
  {
    var e := db.events[r].content;
    assert RowFaithful(db.events[r]);
    AuthorPartMeaning(f, db, r);
    KindPartMeaning(f, db, r);
    IdPartMeaning(f, db, r);
    TimePartMeaning(f, db, r);
    TagPartFits(f);
    if Within(NarrowingOf(f), e.kind, e.createdAt) {
      TagPartMeaning(f, db, r);
    }
  }

  lemma CompileHolds(f: ReqFilter, now: nat, db: Db, r: nat)
    requires Mirror(db) && r in db.events && !f.forceNoMatch && AllFit(Compile(f, now))
    requires IsKey(db.events[r].content.id) && IsKey(db.events[r].content.pubkey)
    ensures Holds(Compile(f, now), db, r) <==>
      (db.events[r].expiresAt.Some? ==> db.events[r].expiresAt.value > now)
      && InterestedInEvent(Canonical(f), Indexed(db.events[r].content, None))
  {
    PartsHoldTogether(f, db, r);
    LastPartMeaning(now, db, r);
    CompileSplits(f, now, db, r);
    CanonicalByParts(f, db.events[r].content);
  }

  /** For every filter, the query selects the visible rows the canonical filter matches in memory. */
  lemma QueryMeansCanonical(f: ReqFilter, now: nat, db: Db, r: nat)
    requires Mirror(db) && r in db.events
    requires IsKey(db.events[r].content.id) && IsKey(db.events[r].content.pubkey)
    ensures Selected(f, now, db, r) <==>
      Visible(db.events[r], now) && InterestedInEvent(Canonical(f), Indexed(db.events[r].content, None))
  {
    if !f.forceNoMatch {
      CompileFits(f, now);
      ParamsFit(Compile(f, now));
      BindsLeftToRight(Compile(f, now), db, r);
      CompileHolds(f, now, db, r);
    }
  }

  // ---- when the filter already is canonical ---------------------------------------------------

  /** Neither a proper lower-case prefix nor a full key in capitals. */
  predicate ExactTerm(p: string) {
    !(IsLowerHex(p) && |p| < 64) && !(IsHex(p) && |p| == 64 && !IsLowerHex(p))
  }

  /** Prefix search and equality search agree on a term, for every key, exactly for these terms. */
  lemma ExactTermIff(p: string)
    ensures ExactTerm(p) <==> forall x :: IsKey(x) ==> (p <= x <==> Decode(p) == Decode(x))
  {
    if ExactTerm(p) {
      forall x | IsKey(x) ensures p <= x <==> Decode(p) == Decode(x) {
        ExactTermAgrees(p, x);
      }
    } else {
      var x := TermWitness(p);
      assert !(p <= x <==> Decode(p) == Decode(x));
    }
  }

  lemma ExactTermAgrees(p: string, x: string)
    requires ExactTerm(p) && IsKey(x)
    ensures p <= x <==> Decode(p) == Decode(x)
  {
    if p <= x {
      assert forall i :: 0 <= i < |p| ==> p[i] == x[i];
      assert IsLowerHex(p);
      assert |p| == 64 && p == x;
    }
    if Decode(p) == Decode(x) {
      assert IsHex(x) && |p| == 64 && IsHex(p);
      DecodeInjective(p, x);
    }
  }

  lemma TermWitness(p: string) returns (x: string)
    requires !ExactTerm(p)
    ensures IsKey(x) && !(p <= x <==> Decode(p) == Decode(x))
  {
    if IsLowerHex(p) && |p| < 64 {
      x := p + seq(64 - |p|, _ => '0');
      assert p <= x && IsKey(x) && IsHex(x);
    } else {
      x := ToLower(p);
      LowerIsFixed(x);
      DecodeEqual(p, x);
      assert x[..|p|] == x;
    }
  }

  predicate ExactTerms(terms: Option<seq<string>>) {
    terms.Some? ==> forall i :: 0 <= i < |terms.value| ==> ExactTerm(terms.value[i])
  }

  /** Full-length lower-case terms (or hopeless ones), and no empty tag operand. */
  predicate ExactFilter(f: ReqFilter) {
    ExactTerms(f.ids) && ExactTerms(f.authors)
    && (f.tags.Some? ==> forall c :: c in f.tags.value ==> f.tags.value[c].values != {})
  }

  lemma ExactTermsAgree(terms: seq<string>, x: string)
    requires ExactTerms(Some(terms)) && IsKey(x)
    ensures PrefixMatch(CanonicalTerms(terms), x) <==> PrefixMatch(terms, x)
  {
    CanonicalMatch(terms, x);
    forall i | 0 <= i < |terms| ensures terms[i] <= x <==> Decode(terms[i]) == Decode(x) {
      ExactTermAgrees(terms[i], x);
    }
  }

  lemma CanonicalAgrees(f: ReqFilter, e: Event)
    requires ExactFilter(f) && IsKey(e.id) && IsKey(e.pubkey)
    ensures InterestedInEvent(Canonical(f), Indexed(e, None)) <==> InterestedInEvent(f, Indexed(e, None))
  {
    if f.ids.Some? { ExactTermsAgree(f.ids.value, e.id); }
    if f.authors.Some? { ExactTermsAgree(f.authors.value, e.pubkey); }
    if f.tags.Some? { assert Canonical(f).tags.value == f.tags.value; }
  }

  /**
   Compilation preserves meaning: in every reachable store, the query and the matcher agree on
   every visible row, for exact filters and events that are not delegated (or no author asked for).
   */
  lemma QueryAgreesWithMatcher(ops: seq<Op>, f: ReqFilter, now: nat, r: nat, delegatedBy: Option<string>)
    requires r in Run(EMPTY, ops).events && ExactFilter(f)
    requires
      var e := Run(EMPTY, ops).events[r].content;
      IsKey(e.id) && IsKey(e.pubkey)
    requires delegatedBy == None || f.authors == None
    ensures
      var row := Run(EMPTY, ops).events[r];
      Selected(f, now, Run(EMPTY, ops), r) <==>
        Visible(row, now) && InterestedInEvent(f, Indexed(row.content, delegatedBy))
  {
    var db := Run(EMPTY, ops);
    RunMirror(ops);
    QueryMeansCanonical(f, now, db, r);
    CanonicalAgrees(f, db.events[r].content);
    IgnoresDelegation(f, db.events[r].content, delegatedBy);
  }

  lemma IgnoresDelegation(f: ReqFilter, e: Event, delegatedBy: Option<string>)
    requires delegatedBy == None || f.authors == None
    ensures InterestedInEvent(f, Indexed(e, delegatedBy)) <==> InterestedInEvent(f, Indexed(e, None))
  {
  }

  /** The one other difference: a match through the delegator alone is not found in the tables. */
  lemma DelegatedIsMissed(db: Db, f: ReqFilter, now: nat, r: nat)
    requires Mirror(db) && r in db.events && ExactFilter(f)
    requires IsKey(db.events[r].content.id) && IsKey(db.events[r].content.pubkey)
    requires !TermsMatch(f.authors, db.events[r].content.pubkey)
    ensures !Selected(f, now, db, r)
  {
    QueryMeansCanonical(f, now, db, r);
    CanonicalAgrees(f, db.events[r].content);
  }

  lemma DelegatedIsMatched(f: ReqFilter, e: Event, delegator: string)
    requires InterestedInEvent(f.(authors := None), Indexed(e, None)) && TermsMatch(f.authors, delegator)
    ensures InterestedInEvent(f, Indexed(e, Some(delegator)))
  {
  }

  /**
   The whole difference for exact filters: query and matcher disagree about a visible row if and only
   if its event was delegated, the filter asks for the delegator and not for the author, and the
   event meets the rest of the filter.
   */
  lemma DelegationIsTheDifference(ops: seq<Op>, f: ReqFilter, now: nat, r: nat, delegatedBy: Option<string>)
    requires r in Run(EMPTY, ops).events && ExactFilter(f)
    requires
      var row := Run(EMPTY, ops).events[r];
      IsKey(row.content.id) && IsKey(row.content.pubkey) && Visible(row, now)
    ensures
      var e := Run(EMPTY, ops).events[r].content;
      !(Selected(f, now, Run(EMPTY, ops), r) <==> InterestedInEvent(f, Indexed(e, delegatedBy)))
      <==> DelegatorAlone(f, e, delegatedBy)
  {
    RunMirror(ops);
    DifferenceIn(Run(EMPTY, ops), f, now, r, delegatedBy);
  }

  /** The event meets the rest of the filter, its delegator is asked for and its author is not. */
  predicate DelegatorAlone(f: ReqFilter, e: Event, delegatedBy: Option<string>) {
    delegatedBy.Some? && !TermsMatch(f.authors, e.pubkey) && TermsMatch(f.authors, delegatedBy.value)
    && InterestedInEvent(f.(authors := None), Indexed(e, None))
  }

  lemma DifferenceIn(db: Db, f: ReqFilter, now: nat, r: nat, delegatedBy: Option<string>)
    requires Mirror(db) && r in db.events && ExactFilter(f)
    requires
      var row := db.events[r];
      IsKey(row.content.id) && IsKey(row.content.pubkey) && Visible(row, now)
    ensures
      var e := db.events[r].content;
      !(Selected(f, now, db, r) <==> InterestedInEvent(f, Indexed(e, delegatedBy)))
      <==> DelegatorAlone(f, e, delegatedBy)
  {
    QueryMeansCanonical(f, now, db, r);
    CanonicalAgrees(f, db.events[r].content);
    MatchesApart(f, db.events[r].content, delegatedBy);
  }

  lemma MatchesApart(f: ReqFilter, e: Event, delegatedBy: Option<string>)
    ensures !(InterestedInEvent(f, Indexed(e, None)) <==> InterestedInEvent(f, Indexed(e, delegatedBy)))
      <==> DelegatorAlone(f, e, delegatedBy)
  {
    AuthorsApart(f, e, None);
    AuthorsApart(f, e, delegatedBy);
  }

  /** The matcher's author test stands apart from its other tests. */
  lemma AuthorsApart(f: ReqFilter, e: Event, delegatedBy: Option<string>)
    ensures InterestedInEvent(f, Indexed(e, delegatedBy))
      <==> InterestedInEvent(f.(authors := None), Indexed(e, None))
           && (TermsMatch(f.authors, e.pubkey) || (delegatedBy.Some? && TermsMatch(f.authors, delegatedBy.value)))
  {
  }
}
