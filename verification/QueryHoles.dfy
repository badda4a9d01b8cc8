/** The text of a query holds one `?` for every parameter. */
module QueryHoles {
  import opened Filters
  import opened Query
  import Text

  // ---- holes among tokens -----------------------------------------------------------

  function Holes(ts: Tokens): nat {
    if ts == [] then 0 else (if ts[0] == Hole then 1 else 0) + Holes(ts[1..])
  }

  lemma {:induction false} HolesConcat(a: Tokens, b: Tokens)
    ensures Holes(a + b) == Holes(a) + Holes(b)
  {
    if a == [] {
      assert a + b == b;
    } else {
      assert (a + b)[1..] == a[1..] + b;
      HolesConcat(a[1..], b);
    }
  }

  /** Anything put between two hole-free ends keeps its holes. */
  lemma HolesBetween(a: Tokens, b: Tokens, c: Tokens)
    requires Holes(a) == 0 && Holes(c) == 0
    ensures Holes(a + b + c) == Holes(b)
  {
    HolesConcat(a, b);
    HolesConcat(a + b, c);
  }

  lemma HolesOne(t: Token)
    ensures Holes([t]) == if t == Hole then 1 else 0
  {
    assert Holes([t][1..]) == 0;
  }

  lemma HolesTwo(t: Token, u: Token)
    ensures Holes([t, u]) == Holes([t]) + Holes([u])
  {
    HolesConcat([t], [u]);
    assert [t] + [u] == [t, u];
  }

  function SumHoles(parts: seq<Tokens>): nat {
    if parts == [] then 0 else Holes(parts[0]) + SumHoles(parts[1..])
  }

  lemma {:induction false} HolesJoin(parts: seq<Tokens>, sep: Tokens)
    requires Holes(sep) == 0
    ensures Holes(Text.Join(parts, sep)) == SumHoles(parts)
  {
    if |parts| == 1 {
      assert SumHoles(parts[1..]) == 0;
    } else if |parts| > 1 {
      HolesJoin(parts[1..], sep);
      HolesConcat(parts[0], sep);
      HolesConcat(parts[0] + sep, Text.Join(parts[1..], sep));
    }
  }

  lemma {:induction false} SumHolesTimes(ts: Tokens, n: nat)
    ensures SumHoles(Times(ts, n)) == n * Holes(ts)
  {
    if n > 0 {
      assert Times(ts, n)[1..] == Times(ts, n - 1);
      SumHolesTimes(ts, n - 1);
    }
  }

  lemma {:induction false} SumHolesNone(parts: seq<Tokens>)
    requires forall i :: 0 <= i < |parts| ==> Holes(parts[i]) == 0
    ensures SumHoles(parts) == 0
  {
    if parts != [] {
      SumHolesNone(parts[1..]);
    }
  }

  lemma {:induction false} RepeatHoles(n: nat)
    ensures Holes(Repeat([Hole, COMMA], n)) == n
    ensures n > 0 ==> Repeat([Hole, COMMA], n)[2 * n - 1] == COMMA
  {
    if n > 0 {
      RepeatHoles(n - 1);
      HolesConcat([Hole, COMMA], Repeat([Hole, COMMA], n - 1));
      HolesTwo(Hole, COMMA);
      HolesOne(Hole);
      HolesOne(COMMA);
    }
  }

  /** `repeat_vars` makes as many holes as asked. */
  lemma RepeatVarsHoles(n: nat)
    ensures Holes(RepeatVars(n)) == n
  {
    if n > 0 {
      var s := Repeat([Hole, COMMA], n);
      RepeatHoles(n);
      assert s == s[..|s| - 1] + [COMMA];
      HolesConcat(s[..|s| - 1], [COMMA]);
      HolesOne(COMMA);
    }
  }

  lemma KindListHoles(kinds: seq<nat>)
    ensures Holes(KindList(kinds)) == 0
  {
    var parts := seq(|kinds|, i requires 0 <= i < |kinds| => [Number(kinds[i])]);
    forall i | 0 <= i < |parts| ensures Holes(parts[i]) == 0 {
      HolesOne(Number(kinds[i]));
    }
    SumHolesNone(parts);
    HolesOne(COMMA);
    HolesJoin(parts, [COMMA]);
  }

  lemma ListHoles(first: Fragment, kinds: seq<nat>)
    ensures Holes([Sql(first)] + KindList(kinds) + [CLOSE]) == 0
  {
    KindListHoles(kinds);
    HolesOne(Sql(first));
    HolesOne(CLOSE);
    HolesBetween([Sql(first)], KindList(kinds), [CLOSE]);
  }

  lemma NumberHoles(first: Fragment, n: nat)
    ensures Holes([Sql(first), Number(n)]) == 0
  {
    HolesTwo(Sql(first), Number(n));
    HolesOne(Sql(first));
    HolesOne(Number(n));
  }

  lemma NarrowingHoles(w: Narrowing)
    ensures SumHoles(NarrowingTokens(w)) == 0
  {
    if w.kinds.Some? { ListHoles(TagTest(AndKindAmong), w.kinds.value); }
    if w.since.Some? { NumberHoles(TagTest(AndCreatedGe), w.since.value); }
    if w.until.Some? { NumberHoles(TagTest(AndCreatedLe), w.until.value); }
    SumHolesNone(NarrowingTokens(w));
  }

  lemma SubqueryHoles(first: Tokens, w: Narrowing)
    ensures Holes(TagSubquery(first, w)) == Holes(first)
  {
    var parts := [first] + NarrowingTokens(w);
    NarrowingHoles(w);
    assert parts[1..] == NarrowingTokens(w);
    HolesOne(SPACE);
    HolesJoin(parts, [SPACE]);
    HolesOne(Sql(TagTest(TagQuery)));
    HolesOne(Sql(Glue(TagQueryEnd)));
    HolesBetween([Sql(TagTest(TagQuery))], Text.Join(parts, [SPACE]), [Sql(Glue(TagQueryEnd))]);
  }

  lemma AnyOfHoles(column: Test, n: nat)
    ensures Holes(AnyOf(column, n)) == n
  {
    var terms := Times([Sql(Test(column)), Hole], n);
    SumHolesTimes([Sql(Test(column)), Hole], n);
    HolesTwo(Sql(Test(column)), Hole);
    HolesOne(Sql(Test(column)));
    HolesOne(Hole);
    HolesOne(OR);
    HolesJoin(terms, [OR]);
    HolesOne(OPEN);
    HolesOne(CLOSE);
    HolesBetween([OPEN], Text.Join(terms, [OR]), [CLOSE]);
  }

  lemma NameHoles(n: nat)
    ensures Holes(NameAndValues(n)) == 1 + n
    ensures Holes(NAME_AND_VALUE) == 2
  {
    var name, among, equal := Sql(TagTest(NameEq)), Sql(TagTest(AndValueIn)), Sql(TagTest(AndValueEq));
    RepeatVarsHoles(n);
    HolesOne(name);
    HolesOne(Hole);
    HolesOne(among);
    HolesOne(equal);
    HolesOne(CLOSE);
    HolesTwo(name, Hole);
    HolesTwo(equal, Hole);
    HolesConcat([name, Hole], [among]);
    assert [name, Hole] + [among] == [name, Hole, among];
    HolesConcat([name, Hole, among], RepeatVars(n));
    HolesConcat([name, Hole, among] + RepeatVars(n), [CLOSE]);
    HolesConcat([name, Hole], [equal, Hole]);
    assert [name, Hole] + [equal, Hole] == NAME_AND_VALUE;
  }

  lemma UnexpiredHoles()
    ensures Holes(ClauseTokens(Unexpired)) == 1
  {
    var test := Sql(Test(ExpiresAfter));
    HolesOne(test);
    HolesOne(Hole);
    HolesOne(CLOSE);
    HolesBetween([test], [Hole], [CLOSE]);
    assert [test] + [Hole] + [CLOSE] == ClauseTokens(Unexpired);
  }

  /** Each clause has as many holes as it takes parameters. */
  lemma ClauseHoles(c: Clause)
    ensures Holes(ClauseTokens(c)) == Arity(c)
  {
    match c
    case AuthorIs(n) => AnyOfHoles(AuthorEq, n);
    case HashIs(n) => AnyOfHoles(HashEq, n);
    case Never => HolesOne(Sql(Test(Falsity)));
    case KindIn(kinds) => ListHoles(Test(KindAmong), kinds);
    case TagValueIn(n, w) =>
      NameHoles(n);
      SubqueryHoles(NameAndValues(n), w);
    case TagValueIs(w) =>
      NameHoles(0);
      SubqueryHoles(NAME_AND_VALUE, w);
    case CreatedFrom(t) => NumberHoles(Test(CreatedGe), t);
    case CreatedTo(t) => NumberHoles(Test(CreatedLe), t);
    case Unexpired => UnexpiredHoles();
  }

  // ---- every compiled clause has its parameters ---------------------------------------

  predicate Fits(b: Bound) {
    |b.args| == Arity(b.clause)
  }

  predicate AllFit(bs: seq<Bound>) {
    forall i :: 0 <= i < |bs| ==> Fits(bs[i])
  }

  lemma AllFitConcat(a: seq<Bound>, b: seq<Bound>)
    requires AllFit(a) && AllFit(b)
    ensures AllFit(a + b)
  {
  }

  lemma OperandFits(name: string, op: TagOperand, w: Narrowing)
    ensures AllFit(OperandPart(name, op, w))
  {
  }

  lemma {:induction false} NamedPartsFit(names: seq<string>, tags: map<char, TagOperand>, w: Narrowing)
    requires NamesIn(names, tags)
    ensures AllFit(NamedParts(names, tags, w))
  {
    if names != [] {
      var k := |names| - 1;
      NamedPartsFit(names[..k], tags, w);
      OperandFits(names[k], tags[names[k][0]], w);
      AllFitConcat(NamedParts(names[..k], tags, w), OperandPart(names[k], tags[names[k][0]], w));
    }
  }

  lemma TagPartFits(f: ReqFilter)
    ensures AllFit(TagPart(f))
  {
    if f.tags.Some? {
      NamedPartsFit(SortedNames(f.tags.value), f.tags.value, NarrowingOf(f));
    }
  }

  lemma HeadFits(f: ReqFilter)
    ensures AllFit(AuthorPart(f) + KindPart(f) + IdPart(f))
  {
    AllFitConcat(AuthorPart(f), KindPart(f));
    AllFitConcat(AuthorPart(f) + KindPart(f), IdPart(f));
  }

  lemma TimePartFits(f: ReqFilter)
    ensures AllFit(TimePart(f))
  {
  }

  lemma BodyFits(f: ReqFilter)
    ensures AllFit(AuthorPart(f) + KindPart(f) + IdPart(f) + TagPart(f) + TimePart(f))
  {
    HeadFits(f);
    TagPartFits(f);
    TimePartFits(f);
    AllFitConcat(AuthorPart(f) + KindPart(f) + IdPart(f), TagPart(f));
    AllFitConcat(AuthorPart(f) + KindPart(f) + IdPart(f) + TagPart(f), TimePart(f));
  }

  lemma LastFits(now: nat)
    ensures AllFit([Bound(Unexpired, [IntParam(now)])])
  {
  }

  lemma CompileFits(f: ReqFilter, now: nat)
    ensures AllFit(Compile(f, now))
  {
    BodyFits(f);
    LastFits(now);
    AllFitConcat(
      AuthorPart(f) + KindPart(f) + IdPart(f) + TagPart(f) + TimePart(f), [Bound(Unexpired, [IntParam(now)])]);
  }

  lemma {:induction false} ComponentHoles(bs: seq<Bound>)
    requires AllFit(bs)
    ensures SumHoles(Components(bs)) == |Params(bs)|
  {
    if bs != [] {
      assert Components(bs)[1..] == Components(bs[1..]);
      ComponentHoles(bs[1..]);
      ClauseHoles(bs[0].clause);
      assert Fits(bs[0]);
    }
  }

  lemma FrameHoles(f: ReqFilter)
    ensures Holes([Sql(Frame(SelectEvent))] + IndexHint(f) + [Sql(Frame(WhereVisible))] + [AND]) == 0
    ensures Holes(Ordering(f)) == 0
  {
    var select, where := Sql(Frame(SelectEvent)), Sql(Frame(WhereVisible));
    HolesOne(select);
    HolesOne(where);
    HolesOne(AND);
    if IndexHint(f) != [] { HolesOne(IndexHint(f)[0]); }
    HolesBetween([select], IndexHint(f), [where]);
    HolesConcat([select] + IndexHint(f) + [where], [AND]);
    if f.limit.Some? {
      NumberHoles(Frame(OrderNewest), f.limit.value);
    } else {
      HolesOne(Sql(Frame(OrderOldest)));
    }
  }

  lemma QueryHolesMatch(f: ReqFilter, now: nat)
    ensures Holes(QueryTokens(f, Compile(f, now))) == |Params(Compile(f, now))|
  {
    if f.forceNoMatch {
      HolesOne(Sql(Frame(SelectNothing)));
    } else {
      var bs := Compile(f, now);
      CompileFits(f, now);
      ComponentHoles(bs);
      HolesOne(AND);
      HolesJoin(Components(bs), [AND]);
      FrameHoles(f);
      HolesBetween([Sql(Frame(SelectEvent))] + IndexHint(f) + [Sql(Frame(WhereVisible))] + [AND],
                   Text.Join(Components(bs), [AND]), Ordering(f));
    }
  }

  // ---- holes in the text ----------------------------------------------------------------

  /** The number of `?` in a text. */
  function Marks(s: string): nat {
    multiset(s)['?']
  }

  lemma NothingMarks()
    ensures '?' !in FrameText(SelectNothing)
  {
    assert FrameText(SelectNothing) == "SELECT e.content FROM event e " + "WHERE 1=0";
    assert '?' !in "WHERE 1=0";
  }

  lemma NewestMarks()
    ensures '?' !in FrameText(OrderNewest)
  {
  }

  lemma FrameMarks(x: Frame)
    ensures '?' !in FrameText(x)
  {
    match x
    case SelectNothing => NothingMarks();
    case OrderNewest => NewestMarks();
    case _ =>
  }

  lemma IndexMarks(x: Hint) ensures '?' !in IndexName(x) {}

  lemma HintMarks(x: Hint)
    ensures '?' !in HintText(x)
  {
    IndexMarks(x);
    assert '?' !in "INDEXED BY ";
  }

  lemma GlueMarks(x: Glue) ensures '?' !in GlueText(x) {}

  lemma TestMarks(x: Test) ensures '?' !in TestText(x) {}

  lemma TagTestMarks(x: TagTest)
    ensures '?' !in TagTestText(x)
  {
    match x
    case TagQuery =>
      assert '?' !in "e.id IN (SELECT t.event_id";
      assert '?' !in " FROM tag t WHERE (";
    case _ =>
  }

  lemma FragmentMarks(f: Fragment)
    ensures '?' !in FragmentText(f)
  {
    match f
    case Frame(x) => FrameMarks(x);
    case Hint(x) => HintMarks(x);
    case Glue(x) => GlueMarks(x);
    case Test(x) => TestMarks(x);
    case TagTest(x) => TagTestMarks(x);
  }

  lemma TokenMarks(t: Token)
    ensures Marks(TokenText(t)) == if t == Hole then 1 else 0
  {
    match t
    case Sql(f) => FragmentMarks(f);
    case Number(n) =>
      var s := Text.ToDecimal(n);
      assert forall i :: 0 <= i < |s| ==> Text.IsDecimal(s[i]);
      assert '?' !in s;
    case Hole =>
  }

  lemma {:induction false} RenderMarks(ts: Tokens)
    ensures Marks(Render(ts)) == Holes(ts)
  {
    if ts != [] {
      RenderMarks(ts[1..]);
      TokenMarks(ts[0]);
      assert ts == [ts[0]] + ts[1..];
    }
  }

  /** Placeholder alignment: as many `?` in the text as parameters, for every filter. */
  lemma PlaceholdersMatch(f: ReqFilter, now: nat)
    ensures Marks(Render(QueryTokens(f, Compile(f, now)))) == |Params(Compile(f, now))|
  {
    QueryHolesMatch(f, now);
    RenderMarks(QueryTokens(f, Compile(f, now)));
  }
}
