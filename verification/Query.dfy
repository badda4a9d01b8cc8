/**
 The filter-to-SQL compiler (`query_from_filter` in src/repo/sqlite.rs).

 A query is a list of clauses with positional `?` holes and a flat list of parameters.
 `QueryTokens` and `Render` give the SQL text, `EvalClause` and `EvalClauses` its meaning
 over the two tables, with SQL's three truth values.
 */
module Query {
  import opened Wrappers
  import opened Hex
  import opened Filters
  import Text
  import Strings

  // ---- clauses ----------------------------------------------------------------

  /** The extra conditions repeated inside a tag subquery. */
  datatype Narrowing = Narrowing(kinds: Option<seq<nat>>, since: Option<nat>, until: Option<nat>)

  datatype Clause =
    | AuthorIs(n: nat)
    | HashIs(n: nat)
    | Never
    | KindIn(kinds: seq<nat>)
    | TagValueIn(n: nat, narrow: Narrowing)
    | TagValueIs(narrow: Narrowing)
    | CreatedFrom(since: nat)
    | CreatedTo(until: nat)
    | Unexpired

  datatype Param = BlobParam(blob: Option<Blob>) | TextParam(text: string) | IntParam(number: nat)

  /** A clause with the parameters meant for its holes. */
  datatype Bound = Bound(clause: Clause, args: seq<Param>)

  function Arity(c: Clause): nat {
    match c
    case AuthorIs(n) => n
    case HashIs(n) => n
    case TagValueIn(n, _) => 1 + n
    case TagValueIs(_) => 2
    case Unexpired => 1
    case _ => 0
  }

  // ---- text -------------------------------------------------------------------

  /** The fixed pieces of SQL the generator writes. */
  datatype Fragment =
    | Frame(frame: Frame) | Hint(hint: Hint) | Glue(glue: Glue) | Test(test: Test) | TagTest(tag: TagTest)

  datatype Frame = SelectEvent | SelectNothing | WhereVisible | OrderNewest | OrderOldest
  datatype Hint = ByHash | ByKindCreated | ByAuthor | ByAuthorKind | ByAuthorCreated
  datatype Glue = AndAlso | OrElse | Open | Close | Comma | Space | TagQueryEnd
  datatype Test = AuthorEq | HashEq | Falsity | KindAmong | CreatedGe | CreatedLe | ExpiresAfter
  datatype TagTest = TagQuery | NameEq | AndValueIn | AndValueEq | AndKindAmong | AndCreatedGe | AndCreatedLe

  datatype Token = Sql(fragment: Fragment) | Number(n: nat) | Hole

  type Tokens = seq<Token>

  function FrameText(f: Frame): string {
    match f
    case SelectEvent => "SELECT e.content FROM event e "
    case SelectNothing => "SELECT e.content FROM event e WHERE 1=0"
    case WhereVisible => " WHERE hidden!=TRUE"
    case OrderNewest => " ORDER BY e.created_at DESC LIMIT "
    case OrderOldest => " ORDER BY e.created_at ASC"
  }

  function IndexName(h: Hint): string {
    match h
    case ByHash => "event_hash_index"
    case ByKindCreated => "kind_created_at_index"
    case ByAuthor => "author_index"
    case ByAuthorKind => "author_kind_index"
    case ByAuthorCreated => "author_created_at_index"
  }

  function HintText(h: Hint): string {
    "INDEXED BY " + IndexName(h)
  }

  function GlueText(g: Glue): string {
    match g
    case AndAlso => " AND "
    case OrElse => " OR "
    case Open => "("
    case Close => ")"
    case Comma => ", "
    case Space => " "
    case TagQueryEnd => "))"
  }

  function TestText(t: Test): string {
    match t
    case AuthorEq => "author="
    case HashEq => "event_hash="
    case Falsity => "false"
    case KindAmong => "kind IN ("
    case CreatedGe => "created_at >= "
    case CreatedLe => "created_at <= "
    case ExpiresAfter => "(expires_at IS NULL OR expires_at > "
  }

  function TagTestText(t: TagTest): string {
    match t
    case TagQuery => "e.id IN (SELECT t.event_id FROM tag t WHERE ("
    case NameEq => "name="
    case AndValueIn => " AND value IN ("
    case AndValueEq => " AND value="
    case AndKindAmong => "AND kind IN ("
    case AndCreatedGe => "AND created_at >= "
    case AndCreatedLe => "AND created_at <= "
  }

  function FragmentText(f: Fragment): string {
    match f
    case Frame(x) => FrameText(x)
    case Hint(x) => HintText(x)
    case Glue(x) => GlueText(x)
    case Test(x) => TestText(x)
    case TagTest(x) => TagTestText(x)
  }

  /** Short forms for the tokens that occur most. */
  const AND := Sql(Glue(AndAlso))
  const OR := Sql(Glue(OrElse))
  const OPEN := Sql(Glue(Open))
  const CLOSE := Sql(Glue(Close))
  const COMMA := Sql(Glue(Comma))
  const SPACE := Sql(Glue(Space))

  function TokenText(t: Token): string {
    match t
    case Sql(f) => FragmentText(f)
    case Number(n) => Text.ToDecimal(n)
    case Hole => "?"
  }

  /** The SQL text itself. */
  function Render(ts: Tokens): string {
    if ts == [] then "" else TokenText(ts[0]) + Render(ts[1..])
  }

  function Times<T>(s: T, n: nat): seq<T> {
    seq(n, _ => s)
  }

  function Repeat(s: Tokens, n: nat): (r: Tokens)
    ensures |r| == n * |s|
  {
    if n == 0 then [] else s + Repeat(s, n - 1)
  }

  /** `repeat_vars`: a hole and a comma n times over, without the last comma. */
  function RepeatVars(n: nat): Tokens {
    if n == 0 then [] else var s := Repeat([Hole, COMMA], n); s[..|s| - 1]
  }

  function KindList(kinds: seq<nat>): Tokens {
    Text.Join(seq(|kinds|, i requires 0 <= i < |kinds| => [Number(kinds[i])]), [COMMA])
  }

  function NarrowingTokens(w: Narrowing): seq<Tokens> {
    (if w.kinds.Some? then [[Sql(TagTest(AndKindAmong))] + KindList(w.kinds.value) + [CLOSE]] else [])
    + (if w.since.Some? then [[Sql(TagTest(AndCreatedGe)), Number(w.since.value)]] else [])
    + (if w.until.Some? then [[Sql(TagTest(AndCreatedLe)), Number(w.until.value)]] else [])
  }

  function TagSubquery(first: Tokens, w: Narrowing): Tokens {
    [Sql(TagTest(TagQuery))] + Text.Join([first] + NarrowingTokens(w), [SPACE]) + [Sql(Glue(TagQueryEnd))]
  }

  /** `name=? AND value IN (?, ?, ...)` */
  function NameAndValues(n: nat): Tokens {
    [Sql(TagTest(NameEq)), Hole, Sql(TagTest(AndValueIn))] + RepeatVars(n) + [CLOSE]
  }

  const NAME_AND_VALUE: Tokens := [Sql(TagTest(NameEq)), Hole, Sql(TagTest(AndValueEq)), Hole]

  /** `(column=? OR column=? ...)` */
  function AnyOf(column: Test, n: nat): Tokens {
    [OPEN] + Text.Join(Times([Sql(Test(column)), Hole], n), [OR]) + [CLOSE]
  }

  function ClauseTokens(c: Clause): Tokens {
    match c
    case AuthorIs(n) => AnyOf(AuthorEq, n)
    case HashIs(n) => AnyOf(HashEq, n)
    case Never => [Sql(Test(Falsity))]
    case KindIn(kinds) => [Sql(Test(KindAmong))] + KindList(kinds) + [CLOSE]
    case TagValueIn(n, w) => TagSubquery(NameAndValues(n), w)
    case TagValueIs(w) => TagSubquery(NAME_AND_VALUE, w)
    case CreatedFrom(since) => [Sql(Test(CreatedGe)), Number(since)]
    case CreatedTo(until) => [Sql(Test(CreatedLe)), Number(until)]
    case Unexpired => [Sql(Test(ExpiresAfter)), Hole, CLOSE]
  }

  function Components(bs: seq<Bound>): seq<Tokens> {
    seq(|bs|, i requires 0 <= i < |bs| => ClauseTokens(bs[i].clause))
  }

  /** The index hint of `override_index`. */
  function IndexHint(f: ReqFilter): Tokens {
    if f.ids.Some? then [Sql(Hint(ByHash))]
    else if f.kinds.Some? && |f.kinds.value| > 1 && f.since.None? && f.until.None? && f.tags.None? && f.authors.None?
    then [Sql(Hint(ByKindCreated))]
    else if f.authors.Some? then
      if f.since.None? && f.until.None? && f.limit.None? then
        if f.kinds.None? then [Sql(Hint(ByAuthor))] else [Sql(Hint(ByAuthorKind))]
      else [Sql(Hint(ByAuthorCreated))]
    else []
  }

  function Ordering(f: ReqFilter): Tokens {
    if f.limit.Some? then [Sql(Frame(OrderNewest)), Number(f.limit.value)] else [Sql(Frame(OrderOldest))]
  }

  function QueryTokens(f: ReqFilter, bs: seq<Bound>): Tokens {
    if f.forceNoMatch then [Sql(Frame(SelectNothing))]
    else
      [Sql(Frame(SelectEvent))] + IndexHint(f) + [Sql(Frame(WhereVisible))] + [AND]
      + Text.Join(Components(bs), [AND]) + Ordering(f)
  }

  function Params(bs: seq<Bound>): seq<Param> {
    if bs == [] then [] else bs[0].args + Params(bs[1..])
  }

  // ---- compilation ----------------------------------------------------------------

  function Blobs(terms: seq<string>): seq<Param> {
    seq(|terms|, i requires 0 <= i < |terms| => BlobParam(Decode(terms[i])))
  }

  function Texts(values: seq<string>): seq<Param> {
    seq(|values|, i requires 0 <= i < |values| => TextParam(values[i]))
  }

  function AuthorPart(f: ReqFilter): seq<Bound> {
    match f.authors
    case None => []
    case Some(v) => if v == [] then [Bound(Never, [])] else [Bound(AuthorIs(|v|), Blobs(v))]
  }

  function KindPart(f: ReqFilter): seq<Bound> {
    match f.kinds
    case None => []
    case Some(ks) => [Bound(KindIn(ks), [])]
  }

  function IdPart(f: ReqFilter): seq<Bound> {
    match f.ids
    case None => []
    case Some(v) => if v == [] then [Bound(Never, [])] else [Bound(HashIs(|v|), Blobs(v))]
  }

  function NarrowingOf(f: ReqFilter): Narrowing {
    Narrowing(f.kinds, f.since, f.until)
  }

  function EachValue(name: string, values: seq<string>, w: Narrowing): seq<Bound> {
    seq(|values|, i requires 0 <= i < |values| => Bound(TagValueIs(w), [TextParam(name), TextParam(values[i])]))
  }

  function OperandPart(name: string, op: TagOperand, w: Narrowing): seq<Bound> {
    if op.values == {} then []
    else
      var values := Strings.Sorted(op.values);
      match op
      case Or(_) => [Bound(TagValueIn(|values|, w), [TextParam(name)] + Texts(values))]
      case And(_) => EachValue(name, values, w)
  }

  predicate NamesIn(names: seq<string>, tags: map<char, TagOperand>) {
    forall i :: 0 <= i < |names| ==> |names[i]| == 1 && names[i][0] in tags
  }

  /** Tag names in order, as one-character strings. */
  function SortedNames(tags: map<char, TagOperand>): (names: seq<string>)
    ensures forall n :: n in names <==> |n| == 1 && n[0] in tags
    ensures NamesIn(names, tags)
  {
    var names := set c | c in tags :: [c];
    assert forall n :: n in names <==> |n| == 1 && n[0] in tags by {
      forall n: string ensures n in names <==> |n| == 1 && n[0] in tags {
        if |n| == 1 && n[0] in tags { assert n == [n[0]]; }
      }
    }
    Strings.Sorted(names)
  }

  function NamedParts(names: seq<string>, tags: map<char, TagOperand>, w: Narrowing): seq<Bound>
    requires NamesIn(names, tags)
  {
    if names == [] then []
    else
      var k := |names| - 1;
      NamedParts(names[..k], tags, w) + OperandPart(names[k], tags[names[k][0]], w)
  }

  function TagPart(f: ReqFilter): seq<Bound> {
    match f.tags
    case None => []
    case Some(tags) => NamedParts(SortedNames(tags), tags, NarrowingOf(f))
  }

  function TimePart(f: ReqFilter): seq<Bound> {
    (if f.since.Some? then [Bound(CreatedFrom(f.since.value), [])] else [])
    + (if f.until.Some? then [Bound(CreatedTo(f.until.value), [])] else [])
  }

  function Compile(f: ReqFilter, now: nat): seq<Bound> {
    if f.forceNoMatch then []
    else
      AuthorPart(f) + KindPart(f) + IdPart(f) + TagPart(f) + TimePart(f) + [Bound(Unexpired, [IntParam(now)])]
  }

  // ---- the generator's loops --------------------------------------------------------

  lemma {:induction false} ParamsConcat(a: seq<Bound>, b: seq<Bound>)
    ensures Params(a + b) == Params(a) + Params(b)
  {
    if a == [] {
      assert a + b == b;
    } else {
      assert (a + b)[1..] == a[1..] + b;
      ParamsConcat(a[1..], b);
    }
  }

  /** This text and these parameters are what the bound clauses amount to. */
  predicate Renders(clauses: seq<Tokens>, params: seq<Param>, bs: seq<Bound>) {
    clauses == Components(bs) && params == Params(bs)
  }

  lemma RendersConcat(cs: seq<Tokens>, ps: seq<Param>, a: seq<Bound>, ds: seq<Tokens>, qs: seq<Param>, b: seq<Bound>)
    requires Renders(cs, ps, a) && Renders(ds, qs, b)
    ensures Renders(cs + ds, ps + qs, a + b)
  {
    ParamsConcat(a, b);
  }

  lemma RendersOne(b: Bound)
    ensures Renders([ClauseTokens(b.clause)], b.args, [b])
  {
  }

  /** One equality per term, and the decoded term as its parameter. */
  method SearchTerms(column: Test, terms: seq<string>) returns (searches: seq<Tokens>, params: seq<Param>)
    ensures searches == Times([Sql(Test(column)), Hole], |terms|)
    ensures params == Blobs(terms)
  {
    searches, params := [], [];
    for i := 0 to |terms|
      invariant searches == Times([Sql(Test(column)), Hole], i)
      invariant params == Blobs(terms[..i])
    {
      searches := searches + [[Sql(Test(column)), Hole]];
      params := params + [BlobParam(Decode(terms[i]))];
    }
    assert terms[..|terms|] == terms;
  }

  method EachValueClauses(name: string, values: seq<string>, w: Narrowing)
    returns (clauses: seq<Tokens>, params: seq<Param>)
    ensures Renders(clauses, params, EachValue(name, values, w))
  {
    clauses, params := [], [];
    for i := 0 to |values|
      invariant Renders(clauses, params, EachValue(name, values[..i], w))
    {
      ghost var one := Bound(TagValueIs(w), [TextParam(name), TextParam(values[i])]);
      assert EachValue(name, values[..i + 1], w) == EachValue(name, values[..i], w) + [one];
      RendersOne(one);
      RendersConcat(clauses, params, EachValue(name, values[..i], w), [ClauseTokens(one.clause)], one.args, [one]);
      clauses := clauses + [TagSubquery(NAME_AND_VALUE, w)];
      params := params + [TextParam(name), TextParam(values[i])];
    }
    assert values[..|values|] == values;
  }

  method TagClauses(name: string, op: TagOperand, w: Narrowing) returns (clauses: seq<Tokens>, params: seq<Param>)
    ensures Renders(clauses, params, OperandPart(name, op, w))
  {
    clauses, params := [], [];
    if op.values == {} {
      return;
    }
    var values := Strings.Sorted(op.values);
    match op {
      case Or(_) =>
        clauses := [TagSubquery(NameAndValues(|values|), w)];
        params := [TextParam(name)] + Texts(values);
        RendersOne(Bound(TagValueIn(|values|, w), params));
      case And(_) =>
        clauses, params := EachValueClauses(name, values, w);
    }
  }

  method NamedClauses(names: seq<string>, tags: map<char, TagOperand>, w: Narrowing)
    returns (clauses: seq<Tokens>, params: seq<Param>)
    requires NamesIn(names, tags)
    ensures Renders(clauses, params, NamedParts(names, tags, w))
  {
    clauses, params := [], [];
    for i := 0 to |names|
      invariant Renders(clauses, params, NamedParts(names[..i], tags, w))
    {
      var cs, ps := TagClauses(names[i], tags[names[i][0]], w);
      RendersConcat(
        clauses, params, NamedParts(names[..i], tags, w), cs, ps, OperandPart(names[i], tags[names[i][0]], w));
      NamedPartsNext(names, tags, w, i);
      clauses, params := clauses + cs, params + ps;
    }
    assert names[..|names|] == names;
  }

  lemma NamedPartsNext(names: seq<string>, tags: map<char, TagOperand>, w: Narrowing, i: nat)
    requires i < |names| && NamesIn(names, tags)
    ensures NamedParts(names[..i + 1], tags, w)
         == NamedParts(names[..i], tags, w) + OperandPart(names[i], tags[names[i][0]], w)
  {
    assert names[..i + 1][..i] == names[..i];
  }

  /** The clause for a list of terms, false when the list is empty. */
  method TermClauses(column: Test, terms: seq<string>) returns (clauses: seq<Tokens>, params: seq<Param>)
    ensures clauses == [if terms == [] then [Sql(Test(Falsity))] else AnyOf(column, |terms|)]
    ensures params == Blobs(terms)
  {
    var searches;
    searches, params := SearchTerms(column, terms);
    if terms == [] {
      clauses := [[Sql(Test(Falsity))]];
    } else {
      clauses := [[OPEN] + Text.Join(searches, [OR]) + [CLOSE]];
    }
  }

  method AuthorClauses(f: ReqFilter) returns (clauses: seq<Tokens>, params: seq<Param>)
    ensures Renders(clauses, params, AuthorPart(f))
  {
    clauses, params := [], [];
    if f.authors.Some? {
      clauses, params := TermClauses(AuthorEq, f.authors.value);
      RendersOne(AuthorPart(f)[0]);
    }
  }

  method IdClauses(f: ReqFilter) returns (clauses: seq<Tokens>, params: seq<Param>)
    ensures Renders(clauses, params, IdPart(f))
  {
    clauses, params := [], [];
    if f.ids.Some? {
      clauses, params := TermClauses(HashEq, f.ids.value);
      RendersOne(IdPart(f)[0]);
    }
  }

  method KindClauses(f: ReqFilter) returns (clauses: seq<Tokens>)
    ensures Renders(clauses, [], KindPart(f))
  {
    clauses := [];
    if f.kinds.Some? {
      clauses := [[Sql(Test(KindAmong))] + KindList(f.kinds.value) + [CLOSE]];
      RendersOne(KindPart(f)[0]);
    }
  }

  method TimeClauses(f: ReqFilter) returns (clauses: seq<Tokens>)
    ensures Renders(clauses, [], TimePart(f))
  {
    clauses := [];
    ghost var bs := [];
    if f.since.Some? {
      var since := Bound(CreatedFrom(f.since.value), []);
      RendersOne(since);
      clauses, bs := [[Sql(Test(CreatedGe)), Number(f.since.value)]], [since];
    }
    if f.until.Some? {
      var until := Bound(CreatedTo(f.until.value), []);
      RendersOne(until);
      RendersConcat(clauses, [], bs, [ClauseTokens(until.clause)], [], [until]);
      clauses, bs := clauses + [[Sql(Test(CreatedLe)), Number(f.until.value)]], bs + [until];
    }
    assert bs == TimePart(f);
  }

  method TagPartClauses(f: ReqFilter) returns (clauses: seq<Tokens>, params: seq<Param>)
    ensures Renders(clauses, params, TagPart(f))
  {
    clauses, params := [], [];
    if f.tags.Some? {
      clauses, params := NamedClauses(SortedNames(f.tags.value), f.tags.value, NarrowingOf(f));
    }
  }

  method ExpiryClauses(now: nat) returns (clauses: seq<Tokens>, params: seq<Param>)
    ensures Renders(clauses, params, [Bound(Unexpired, [IntParam(now)])])
  {
    RendersOne(Bound(Unexpired, [IntParam(now)]));
    clauses, params := [[Sql(Test(ExpiresAfter)), Hole, CLOSE]], [IntParam(now)];
  }

  /** The conditions of the query and their parameters, in the order they are generated. */
  method FilterComponents(f: ReqFilter, now: nat) returns (clauses: seq<Tokens>, params: seq<Param>)
    requires !f.forceNoMatch
    ensures Renders(clauses, params, Compile(f, now))
  {
    clauses, params := AuthorClauses(f);
    ghost var bs := AuthorPart(f);
    var kinds := KindClauses(f);
    RendersConcat(clauses, params, bs, kinds, [], KindPart(f));
    clauses, params, bs := clauses + kinds, params + [], bs + KindPart(f);
    var cs, ps := IdClauses(f);
    RendersConcat(clauses, params, bs, cs, ps, IdPart(f));
    clauses, params, bs := clauses + cs, params + ps, bs + IdPart(f);
    cs, ps := TagPartClauses(f);
    RendersConcat(clauses, params, bs, cs, ps, TagPart(f));
    clauses, params, bs := clauses + cs, params + ps, bs + TagPart(f);
    var times := TimeClauses(f);
    RendersConcat(clauses, params, bs, times, [], TimePart(f));
    clauses, params, bs := clauses + times, params + [], bs + TimePart(f);
    cs, ps := ExpiryClauses(now);
    RendersConcat(clauses, params, bs, cs, ps, [Bound(Unexpired, [IntParam(now)])]);
    clauses, params := clauses + cs, params + ps;
  }

  method QueryFromFilter(f: ReqFilter, now: nat) returns (query: Tokens, params: seq<Param>)
    ensures query == QueryTokens(f, Compile(f, now))
    ensures params == Params(Compile(f, now))
  {
    if f.forceNoMatch {
      return [Sql(Frame(SelectNothing))], [];
    }
    query := [Sql(Frame(SelectEvent))] + IndexHint(f);
    var components;
    components, params := FilterComponents(f, now);
    query := query + [Sql(Frame(WhereVisible))];
    query := query + [AND];
    query := query + Text.Join(components, [AND]);
    query := query + Ordering(f);
  }
}
