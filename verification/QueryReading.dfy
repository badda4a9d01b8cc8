/**
 Reading a generated query back: from its text the reader of `SqlReading` gets the clauses, the order and
 the index from which the query was written.
 */
module QueryReading {
  import opened Wrappers
  import opened Filters
  import opened Query
  import opened SqlText
  import opened SqlReading
  import opened QueryLexing
  import Text

  // ---- single tokens ---------------------------------------------------------------

  /** What follows does not start with a word. */
  predicate Apart(ts: Tokens) {
    ts == [] || !StartsWithWord(ts[0])
  }

  lemma LookNumber(look: Scan, n: nat, ts: Tokens)
    requires TokenByToken(look) && Apart(ts)
    ensures look([Number(n)] + ts) == [Num(n)] + look(ts)
  {
    assert Goes(look, Number(n), ts);
    assert TokenUnits(Number(n)) == [Num(n)];
  }

  lemma LookHole(look: Scan, ts: Tokens)
    requires TokenByToken(look)
    ensures look([Hole] + ts) == [Mark] + look(ts)
  {
    assert Goes(look, Hole, ts);
    assert TokenUnits(Hole) == [Mark];
  }

  lemma LookComma(look: Scan, ts: Tokens)
    requires TokenByToken(look)
    ensures look([COMMA] + ts) == [Separator] + look(ts)
  {
    assert Goes(look, COMMA, ts);
    assert TokenUnits(COMMA) == [Separator];
  }

  lemma LookOpen(look: Scan, ts: Tokens)
    requires TokenByToken(look)
    ensures look([OPEN] + ts) == [Left] + look(ts)
  {
    assert Goes(look, OPEN, ts);
    assert TokenUnits(OPEN) == [Left];
  }

  lemma LookClose(look: Scan, ts: Tokens)
    requires TokenByToken(look)
    ensures look([CLOSE] + ts) == [Right] + look(ts)
  {
    assert Goes(look, CLOSE, ts);
    assert TokenUnits(CLOSE) == [Right];
  }

  lemma LookOr(look: Scan, ts: Tokens)
    requires TokenByToken(look)
    ensures look([OR] + ts) == [Word("OR")] + look(ts)
  {
    assert Goes(look, OR, ts);
    assert TokenUnits(OR) == [Word("OR")];
  }

  lemma LookAnd(look: Scan, ts: Tokens)
    requires TokenByToken(look)
    ensures look([AND] + ts) == [Word("AND")] + look(ts)
  {
    assert Goes(look, AND, ts);
    assert TokenUnits(AND) == [Word("AND")];
  }

  lemma LookSpace(look: Scan, ts: Tokens)
    requires TokenByToken(look)
    ensures look([SPACE] + ts) == look(ts)
  {
    assert Goes(look, SPACE, ts);
    assert TokenUnits(SPACE) == [];
  }

  const END := Sql(Glue(TagQueryEnd))

  lemma LookEnd(look: Scan, ts: Tokens)
    requires TokenByToken(look)
    ensures look([END] + ts) == [Right, Right] + look(ts)
  {
    assert Goes(look, END, ts);
    assert TokenUnits(END) == [Right, Right];
  }

  // ---- lists -----------------------------------------------------------------------

  lemma MoreNumbers(n: nat, us: seq<Unit>, more: Reading<seq<nat>>)
    requires ReadNumbers(us) == Some(more)
    ensures ReadNumbers([Num(n)] + ([Separator] + us)) == Some(Reading([n] + more.value, more.rest))
  {
    assert ([Num(n)] + ([Separator] + us))[2..] == us;
  }

  lemma LastNumber(n: nat, us: seq<Unit>)
    ensures ReadNumbers([Num(n)] + ([Right] + us)) == Some(Reading([n], us))
    ensures ReadNumbers([Right] + us) == Some(Reading([], us))
  {
    assert ([Num(n)] + ([Right] + us))[2..] == us && ([Right] + us)[1..] == us;
  }

  lemma KindListNext(kinds: seq<nat>)
    requires |kinds| >= 2
    ensures KindList(kinds) == [Number(kinds[0]), COMMA] + KindList(kinds[1..])
  {
    var tail := kinds[1..];
    var parts := seq(|kinds|, i requires 0 <= i < |kinds| => [Number(kinds[i])]);
    assert parts[1..] == seq(|tail|, i requires 0 <= i < |tail| => [Number(tail[i])]);
  }

  lemma {:induction false} ReadsNumbers(look: Scan, kinds: seq<nat>, rest: Tokens)
    requires TokenByToken(look)
    ensures ReadNumbers(look(KindList(kinds) + [CLOSE] + rest)) == Some(Reading(kinds, look(rest)))
  {
    var ts := KindList(kinds) + [CLOSE] + rest;
    LookClose(look, rest);
    if |kinds| == 0 {
      LastNumber(0, look(rest));
      assert ts == [CLOSE] + rest;
    } else if |kinds| == 1 {
      LookNumber(look, kinds[0], [CLOSE] + rest);
      LastNumber(kinds[0], look(rest));
      assert ts == [Number(kinds[0])] + ([CLOSE] + rest) && kinds == [kinds[0]];
    } else {
      KindListNext(kinds);
      ReadsNumbers(look, kinds[1..], rest);
      var more := KindList(kinds[1..]) + [CLOSE] + rest;
      LookComma(look, more);
      LookNumber(look, kinds[0], [COMMA] + more);
      MoreNumbers(kinds[0], look(more), Reading(kinds[1..], look(rest)));
      assert ts == [Number(kinds[0])] + ([COMMA] + more) && [kinds[0]] + kinds[1..] == kinds;
    }
  }

  lemma MoreMarks(us: seq<Unit>, more: Reading<nat>)
    requires ReadMarks(us) == Some(more)
    ensures ReadMarks([Mark] + ([Separator] + us)) == Some(Reading(1 + more.value, more.rest))
  {
    assert ([Mark] + ([Separator] + us))[2..] == us;
  }

  lemma LastMark(us: seq<Unit>)
    ensures ReadMarks([Mark] + ([Right] + us)) == Some(Reading(1, us))
    ensures ReadMarks([Right] + us) == Some(Reading(0, us))
  {
    assert ([Mark] + ([Right] + us))[2..] == us && ([Right] + us)[1..] == us;
  }

  lemma OneVar()
    ensures RepeatVars(1) == [Hole]
  {
    assert Repeat([Hole, COMMA], 0) == [];
    assert Repeat([Hole, COMMA], 1) == [Hole, COMMA];
  }

  lemma RepeatVarsNext(n: nat)
    requires n >= 2
    ensures RepeatVars(n) == [Hole, COMMA] + RepeatVars(n - 1)
  {
    var s, t := Repeat([Hole, COMMA], n), Repeat([Hole, COMMA], n - 1);
    assert s == [Hole, COMMA] + t;
  }

  lemma FewMarks(look: Scan, vars: Tokens, rest: Tokens)
    requires TokenByToken(look) && (vars == [] || vars == [Hole])
    ensures ReadMarks(look(vars + [CLOSE] + rest)) == Some(Reading(|vars|, look(rest)))
  {
    LookClose(look, rest);
    LookHole(look, [CLOSE] + rest);
    LastMark(look(rest));
    assert vars + [CLOSE] + rest == if vars == [] then [CLOSE] + rest else [Hole] + ([CLOSE] + rest);
  }

  lemma NextMark(look: Scan, vars: Tokens, tail: Tokens, n: nat, rest: Tokens)
    requires TokenByToken(look) && vars == [Hole, COMMA] + tail
    requires ReadMarks(look(tail + [CLOSE] + rest)) == Some(Reading(n, look(rest)))
    ensures ReadMarks(look(vars + [CLOSE] + rest)) == Some(Reading(1 + n, look(rest)))
  {
    var more := tail + [CLOSE] + rest;
    LookComma(look, more);
    LookHole(look, [COMMA] + more);
    MoreMarks(look(more), Reading(n, look(rest)));
    assert vars + [CLOSE] + rest == [Hole] + ([COMMA] + more);
  }

  lemma {:induction false} ReadsMarks(look: Scan, n: nat, rest: Tokens)
    requires TokenByToken(look)
    ensures ReadMarks(look(RepeatVars(n) + [CLOSE] + rest)) == Some(Reading(n, look(rest)))
  {
    if n == 0 {
      FewMarks(look, [], rest);
    } else if n == 1 {
      OneVar();
      FewMarks(look, [Hole], rest);
    } else {
      RepeatVarsNext(n);
      ReadsMarks(look, n - 1, rest);
      NextMark(look, RepeatVars(n), RepeatVars(n - 1), n - 1, rest);
    }
  }

  // ---- equalities ---------------------------------------------------------------------

  function ColumnName(column: Test): string
    requires column == AuthorEq || column == HashEq
  {
    if column == AuthorEq then "author" else "event_hash"
  }

  lemma LookEquality(look: Scan, column: Test, ts: Tokens)
    requires TokenByToken(look) && (column == AuthorEq || column == HashEq)
    ensures look([Sql(Test(column)), Hole] + ts) == [Word(ColumnName(column)), Equal, Mark] + look(ts)
  {
    LookHole(look, ts);
    assert Goes(look, Sql(Test(column)), [Hole] + ts);
    assert [Sql(Test(column)), Hole] + ts == [Sql(Test(column))] + ([Hole] + ts);
    assert TokenUnits(Sql(Test(column))) == [Word(ColumnName(column)), Equal];
  }

  lemma LastEquality(column: string, us: seq<Unit>)
    ensures ReadEqualities(column, [Word(column), Equal, Mark] + ([Right] + us)) == Some(Reading(1, us))
  {
    assert ([Word(column), Equal, Mark] + ([Right] + us))[4..] == us;
  }

  lemma MoreEqualities(column: string, us: seq<Unit>, more: Reading<nat>)
    requires ReadEqualities(column, us) == Some(more)
    ensures ReadEqualities(column, [Word(column), Equal, Mark] + ([Word("OR")] + us))
         == Some(Reading(1 + more.value, more.rest))
  {
    assert ([Word(column), Equal, Mark] + ([Word("OR")] + us))[4..] == us;
  }

  lemma EqualitiesNext(one: Tokens, n: nat)
    requires n >= 2
    ensures Text.Join(Times(one, n), [OR]) == one + [OR] + Text.Join(Times(one, n - 1), [OR])
  {
    assert Times(one, n)[1..] == Times(one, n - 1);
  }

  lemma OneEquality(look: Scan, column: Test, rest: Tokens)
    requires TokenByToken(look) && (column == AuthorEq || column == HashEq)
    ensures ReadEqualities(ColumnName(column), look([Sql(Test(column)), Hole] + [CLOSE] + rest))
         == Some(Reading(1, look(rest)))
  {
    var one := [Sql(Test(column)), Hole];
    LookClose(look, rest);
    LookEquality(look, column, [CLOSE] + rest);
    LastEquality(ColumnName(column), look(rest));
    assert one + [CLOSE] + rest == one + ([CLOSE] + rest);
  }

  lemma NextEquality(look: Scan, column: Test, list: Tokens, n: nat, rest: Tokens)
    requires TokenByToken(look) && (column == AuthorEq || column == HashEq)
    requires ReadEqualities(ColumnName(column), look(list + [CLOSE] + rest)) == Some(Reading(n, look(rest)))
    ensures ReadEqualities(ColumnName(column), look([Sql(Test(column)), Hole] + [OR] + list + [CLOSE] + rest))
         == Some(Reading(1 + n, look(rest)))
  {
    var one, more := [Sql(Test(column)), Hole], list + [CLOSE] + rest;
    LookOr(look, more);
    LookEquality(look, column, [OR] + more);
    MoreEqualities(ColumnName(column), look(more), Reading(n, look(rest)));
    assert one + [OR] + list + [CLOSE] + rest == one + ([OR] + more);
  }

  lemma {:induction false} ReadsEqualities(look: Scan, column: Test, n: nat, rest: Tokens)
    requires TokenByToken(look) && n > 0 && (column == AuthorEq || column == HashEq)
    ensures ReadEqualities(ColumnName(column),
                           look(Text.Join(Times([Sql(Test(column)), Hole], n), [OR]) + [CLOSE] + rest))
         == Some(Reading(n, look(rest)))
  {
    var one := [Sql(Test(column)), Hole];
    if n == 1 {
      OneEquality(look, column, rest);
      assert Text.Join(Times(one, 1), [OR]) == one;
    } else {
      EqualitiesNext(one, n);
      ReadsEqualities(look, column, n - 1, rest);
      NextEquality(look, column, Text.Join(Times(one, n - 1), [OR]), n - 1, rest);
    }
  }

  // ---- conditions inside a tag subquery -----------------------------------------------------

  function UntilTokens(w: Narrowing): Tokens {
    if w.until.Some? then [SPACE, Sql(TagTest(AndCreatedLe)), Number(w.until.value)] else []
  }

  function SinceTokens(w: Narrowing): Tokens {
    if w.since.Some? then [SPACE, Sql(TagTest(AndCreatedGe)), Number(w.since.value)] else []
  }

  function KindsTokens(w: Narrowing): Tokens {
    if w.kinds.Some? then [SPACE, Sql(TagTest(AndKindAmong))] + KindList(w.kinds.value) + [CLOSE] else []
  }

  /** A bound inside a subquery, with the sign it is written with. */
  lemma LookAndBound(look: Scan, t: TagTest, sign: Unit, n: nat, ts: Tokens)
    requires TokenByToken(look) && ((t == AndCreatedGe && sign == AtLeast) || (t == AndCreatedLe && sign == AtMost))
    requires Apart(ts)
    ensures look([SPACE, Sql(TagTest(t)), Number(n)] + ts)
         == [Word("AND")] + ([Word("created_at"), sign, Num(n)] + look(ts))
  {
    var number := [Number(n)] + ts;
    LookNumber(look, n, ts);
    assert Goes(look, Sql(TagTest(t)), number);
    LookSpace(look, [Sql(TagTest(t))] + number);
    assert [SPACE, Sql(TagTest(t)), Number(n)] + ts == [SPACE] + ([Sql(TagTest(t))] + number);
    assert TokenUnits(Sql(TagTest(t))) == [Word("AND"), Word("created_at"), sign];
  }

  lemma LookAndKinds(look: Scan, kinds: seq<nat>, tail: Tokens)
    requires TokenByToken(look)
    ensures look([SPACE, Sql(TagTest(AndKindAmong))] + KindList(kinds) + [CLOSE] + tail)
         == [Word("AND")] + ([Word("kind"), Word("IN"), Left] + look(KindList(kinds) + [CLOSE] + tail))
  {
    var t := Sql(TagTest(AndKindAmong));
    var list := KindList(kinds) + [CLOSE] + tail;
    assert Goes(look, t, list);
    LookSpace(look, [t] + list);
    assert [SPACE, t] + KindList(kinds) + [CLOSE] + tail == [SPACE] + ([t] + list);
    assert TokenUnits(t) == [Word("AND"), Word("kind"), Word("IN"), Left];
  }

  lemma BoundIsRead(sign: Unit, n: nat, us: seq<Unit>)
    requires sign == AtLeast || sign == AtMost
    ensures ReadBound([Word("created_at"), sign, Num(n)] + us)
         == Some(Reading(if sign == AtLeast then CreatedFrom(n) else CreatedTo(n), us))
    ensures ReadKinds([Word("created_at"), sign, Num(n)] + us) == None
  {
    assert ([Word("created_at"), sign, Num(n)] + us)[3..] == us;
    assert Word("created_at") != Word("kind");
  }

  lemma ReadsEnd(look: Scan, w: Narrowing, rest: Tokens)
    requires TokenByToken(look)
    ensures ReadEnd(w, look([END] + rest)) == Some(Reading(w, look(rest)))
    ensures |look([END] + rest)| >= 1 && look([END] + rest)[0] == Right
  {
    LookEnd(look, rest);
    assert ([Right, Right] + look(rest))[2..] == look(rest);
  }

  lemma ReadsUntil(look: Scan, w: Narrowing, rest: Tokens)
    requires TokenByToken(look)
    ensures ReadUntil(w.kinds, w.since, look(UntilTokens(w) + ([END] + rest))) == Some(Reading(w, look(rest)))
  {
    ReadsEnd(look, w, rest);
    if w.until.Some? {
      LookAndBound(look, AndCreatedLe, AtMost, w.until.value, [END] + rest);
      BoundIsRead(AtMost, w.until.value, look([END] + rest));
    } else {
      assert UntilTokens(w) + ([END] + rest) == [END] + rest;
    }
  }

  /** No lower bound and no list of kinds follows. */
  lemma NoSinceAhead(look: Scan, w: Narrowing, rest: Tokens)
    requires TokenByToken(look)
    ensures
      var us := look(UntilTokens(w) + ([END] + rest));
      |us| >= 1 && (us[0] == Word("AND") ==>
        ReadKinds(us[1..]) == None && ReadBound(us[1..]).Some? && !ReadBound(us[1..]).value.value.CreatedFrom?)
  {
    ReadsEnd(look, w, rest);
    if w.until.Some? {
      LookAndBound(look, AndCreatedLe, AtMost, w.until.value, [END] + rest);
      BoundIsRead(AtMost, w.until.value, look([END] + rest));
    } else {
      assert UntilTokens(w) + ([END] + rest) == [END] + rest;
    }
  }

  lemma ReadsSince(look: Scan, w: Narrowing, rest: Tokens)
    requires TokenByToken(look)
    ensures
      var us := look(SinceTokens(w) + (UntilTokens(w) + ([END] + rest)));
      ReadSince(w.kinds, us) == Some(Reading(w, look(rest)))
      && |us| >= 1 && (us[0] == Word("AND") ==> ReadKinds(us[1..]) == None)
  {
    var tail := UntilTokens(w) + ([END] + rest);
    ReadsUntil(look, w, rest);
    NoSinceAhead(look, w, rest);
    if w.since.Some? {
      LookAndBound(look, AndCreatedGe, AtLeast, w.since.value, tail);
      BoundIsRead(AtLeast, w.since.value, look(tail));
    } else {
      assert SinceTokens(w) + tail == tail;
    }
  }

  lemma ReadsNarrowing(look: Scan, w: Narrowing, rest: Tokens)
    requires TokenByToken(look)
    ensures ReadNarrowing(look(KindsTokens(w) + (SinceTokens(w) + (UntilTokens(w) + ([END] + rest)))))
         == Some(Reading(w, look(rest)))
  {
    var tail := SinceTokens(w) + (UntilTokens(w) + ([END] + rest));
    ReadsSince(look, w, rest);
    if w.kinds.Some? {
      var list := look(KindList(w.kinds.value) + [CLOSE] + tail);
      LookAndKinds(look, w.kinds.value, tail);
      ReadsNumbers(look, w.kinds.value, tail);
      assert ([Word("kind"), Word("IN"), Left] + list)[3..] == list;
      assert KindsTokens(w) + tail == [SPACE, Sql(TagTest(AndKindAmong))] + KindList(w.kinds.value) + [CLOSE] + tail;
    } else {
      assert KindsTokens(w) + tail == tail;
    }
  }

  // ---- the subquery ---------------------------------------------------------------------------

  /** A piece that may be absent, with the space before it. */
  function After(one: seq<Tokens>): Tokens
    requires |one| <= 1
  {
    if one == [] then [] else [SPACE] + one[0]
  }

  lemma Spaced(w: Narrowing, k: seq<Tokens>, s: seq<Tokens>, u: seq<Tokens>)
    requires k == if w.kinds.Some? then [[Sql(TagTest(AndKindAmong))] + KindList(w.kinds.value) + [CLOSE]] else []
    requires s == if w.since.Some? then [[Sql(TagTest(AndCreatedGe)), Number(w.since.value)]] else []
    requires u == if w.until.Some? then [[Sql(TagTest(AndCreatedLe)), Number(w.until.value)]] else []
    ensures After(k) == KindsTokens(w) && After(s) == SinceTokens(w) && After(u) == UntilTokens(w)
  {
  }

  lemma JoinNext(first: Tokens, one: seq<Tokens>, others: seq<Tokens>)
    requires |one| <= 1
    ensures Text.Join([first] + (one + others), [SPACE]) == Text.Join([first + After(one)] + others, [SPACE])
  {
    if one == [] {
      assert one + others == others && first + [] == first;
    } else {
      assert ([first] + (one + others))[1..] == one + others && (one + others)[1..] == others;
      assert ([first + After(one)] + others)[1..] == others;
      assert first + [SPACE] + one[0] == first + After(one);
    }
  }

  lemma JoinThree(first: Tokens, k: seq<Tokens>, s: seq<Tokens>, u: seq<Tokens>)
    requires |k| <= 1 && |s| <= 1 && |u| <= 1
    ensures Text.Join([first] + (k + s + u), [SPACE]) == first + After(k) + After(s) + After(u)
  {
    assert k + s + u == k + (s + u) && u + [] == u;
    JoinNext(first, k, s + u);
    JoinNext(first + After(k), s, u);
    JoinNext(first + After(k) + After(s), u, []);
  }

  lemma Regrouped(head: Token, first: Tokens, k: Tokens, s: Tokens, u: Tokens, rest: Tokens)
    ensures [head] + (first + k + s + u) + [END] + rest == [head] + (first + (k + (s + (u + ([END] + rest)))))
  {
  }

  /** The subquery, written without the joins. */
  lemma SubqueryFlat(first: Tokens, w: Narrowing)
    ensures TagSubquery(first, w)
         == [Sql(TagTest(TagQuery))] + (first + KindsTokens(w) + SinceTokens(w) + UntilTokens(w)) + [END]
  {
    var k := if w.kinds.Some? then [[Sql(TagTest(AndKindAmong))] + KindList(w.kinds.value) + [CLOSE]] else [];
    var s := if w.since.Some? then [[Sql(TagTest(AndCreatedGe)), Number(w.since.value)]] else [];
    var u := if w.until.Some? then [[Sql(TagTest(AndCreatedLe)), Number(w.until.value)]] else [];
    assert NarrowingTokens(w) == k + s + u;
    JoinThree(first, k, s, u);
    Spaced(w, k, s, u);
  }

  lemma ReadsAfterFirst(look: Scan, first: Tokens, w: Narrowing, rest: Tokens) returns (tail: Tokens)
    requires TokenByToken(look)
    ensures TagSubquery(first, w) + rest == [Sql(TagTest(TagQuery))] + (first + tail)
    ensures ReadNarrowing(look(tail)) == Some(Reading(w, look(rest)))
  {
    var k, s, u := KindsTokens(w), SinceTokens(w), UntilTokens(w);
    SubqueryFlat(first, w);
    ReadsNarrowing(look, w, rest);
    tail := k + (s + (u + ([END] + rest)));
    Regrouped(Sql(TagTest(TagQuery)), first, k, s, u, rest);
  }

  lemma TagQueryIsRead(us: seq<Unit>)
    ensures ReadClause(AMONG_TAGS + FROM_TAG + us) == ReadTagQuery(us)
  {
    var all := AMONG_TAGS + FROM_TAG + us;
    assert all[10..] == us && all[..10] == AMONG_TAGS + FROM_TAG;
    assert all[0] == Word("e.id");
  }

  lemma LookTagQuery(look: Scan, ts: Tokens)
    requires TokenByToken(look)
    ensures look([Sql(TagTest(TagQuery))] + ts) == AMONG_TAGS + FROM_TAG + look(ts)
  {
    assert Goes(look, Sql(TagTest(TagQuery)), ts);
    assert TokenUnits(Sql(TagTest(TagQuery))) == AMONG_TAGS + FROM_TAG;
  }

  /** `name=? AND value`, whatever follows the column. */
  lemma LookName(look: Scan, ts: Tokens)
    requires TokenByToken(look)
    ensures look([Sql(TagTest(NameEq)), Hole] + ts) == [Word("name"), Equal, Mark] + look(ts)
  {
    LookHole(look, ts);
    assert Goes(look, Sql(TagTest(NameEq)), [Hole] + ts);
    assert [Sql(TagTest(NameEq)), Hole] + ts == [Sql(TagTest(NameEq))] + ([Hole] + ts);
    assert TokenUnits(Sql(TagTest(NameEq))) == [Word("name"), Equal];
  }

  lemma LookAndValue(look: Scan, ts: Tokens)
    requires TokenByToken(look)
    ensures look([Sql(TagTest(AndValueIn))] + ts) == [Word("AND"), Word("value"), Word("IN"), Left] + look(ts)
    ensures look([Sql(TagTest(AndValueEq))] + ([Hole] + ts)) == [Word("AND"), Word("value"), Equal, Mark] + look(ts)
  {
    LookHole(look, ts);
    assert Goes(look, Sql(TagTest(AndValueIn)), ts);
    assert Goes(look, Sql(TagTest(AndValueEq)), [Hole] + ts);
    assert TokenUnits(Sql(TagTest(AndValueIn))) == [Word("AND"), Word("value"), Word("IN"), Left];
    assert TokenUnits(Sql(TagTest(AndValueEq))) == [Word("AND"), Word("value"), Equal];
  }

  lemma Sevens(us: seq<Unit>)
    ensures [Word("name"), Equal, Mark] + ([Word("AND"), Word("value"), Equal, Mark] + us)
         == [Word("name"), Equal, Mark, Word("AND"), Word("value"), Equal, Mark] + us
    ensures [Word("name"), Equal, Mark] + ([Word("AND"), Word("value"), Word("IN"), Left] + us)
         == [Word("name"), Equal, Mark, Word("AND"), Word("value"), Word("IN"), Left] + us
  {
  }

  lemma ValueIsRead(us: seq<Unit>, w: Reading<Narrowing>)
    requires ReadNarrowing(us) == Some(w)
    ensures ReadTagQuery([Word("name"), Equal, Mark] + ([Word("AND"), Word("value"), Equal, Mark] + us))
         == Some(Reading(TagValueIs(w.value), w.rest))
  {
    Sevens(us);
    assert ([Word("name"), Equal, Mark, Word("AND"), Word("value"), Equal, Mark] + us)[7..] == us;
  }

  lemma ValuesAreRead(us: seq<Unit>, n: Reading<nat>, w: Reading<Narrowing>)
    requires ReadMarks(us) == Some(n) && ReadNarrowing(n.rest) == Some(w)
    ensures ReadTagQuery([Word("name"), Equal, Mark] + ([Word("AND"), Word("value"), Word("IN"), Left] + us))
         == Some(Reading(TagValueIn(n.value, w.value), w.rest))
  {
    Sevens(us);
    assert ([Word("name"), Equal, Mark, Word("AND"), Word("value"), Word("IN"), Left] + us)[7..] == us;
  }

  lemma ReadsTagValueIs(look: Scan, w: Narrowing, rest: Tokens)
    requires TokenByToken(look)
    ensures ReadClause(look(TagSubquery(NAME_AND_VALUE, w) + rest)) == Some(Reading(TagValueIs(w), look(rest)))
  {
    var tail := ReadsAfterFirst(look, NAME_AND_VALUE, w, rest);
    var value := [Sql(TagTest(AndValueEq))] + ([Hole] + tail);
    LookAndValue(look, tail);
    LookName(look, value);
    ValueIsRead(look(tail), Reading(w, look(rest)));
    NameAndValueThen(tail);
    LookTagQuery(look, NAME_AND_VALUE + tail);
    TagQueryIsRead(look(NAME_AND_VALUE + tail));
  }

  lemma ReadsTagValueIn(look: Scan, n: nat, w: Narrowing, rest: Tokens)
    requires TokenByToken(look)
    ensures ReadClause(look(TagSubquery(NameAndValues(n), w) + rest)) == Some(Reading(TagValueIn(n, w), look(rest)))
  {
    var tail := ReadsAfterFirst(look, NameAndValues(n), w, rest);
    var values := RepeatVars(n) + [CLOSE] + tail;
    ReadsMarks(look, n, tail);
    LookAndValue(look, values);
    LookName(look, [Sql(TagTest(AndValueIn))] + values);
    ValuesAreRead(look(values), Reading(n, look(tail)), Reading(w, look(rest)));
    NameAndValuesThen(n, tail);
    LookTagQuery(look, NameAndValues(n) + tail);
    TagQueryIsRead(look(NameAndValues(n) + tail));
  }

  lemma NameAndValueThen(tail: Tokens)
    ensures NAME_AND_VALUE + tail == [Sql(TagTest(NameEq)), Hole] + ([Sql(TagTest(AndValueEq))] + ([Hole] + tail))
  {
  }

  lemma NameAndValuesThen(n: nat, tail: Tokens)
    ensures NameAndValues(n) + tail
         == [Sql(TagTest(NameEq)), Hole] + ([Sql(TagTest(AndValueIn))] + (RepeatVars(n) + [CLOSE] + tail))
  {
  }

  // ---- the other conditions ----------------------------------------------------------------------

  lemma AnyOfIsRead(column: Test, us: seq<Unit>, n: Reading<nat>)
    requires column == AuthorEq || column == HashEq
    requires ReadEqualities(ColumnName(column), us) == Some(n)
    ensures ReadClause([Left] + us)
         == Some(Reading(if column == AuthorEq then AuthorIs(n.value) else HashIs(n.value), n.rest))
  {
    assert ([Left] + us)[1..] == us && us[0] == Word(ColumnName(column));
    assert "author" != "event_hash" && "author" != "expires_at" && "event_hash" != "expires_at";
    assert ([Left] + us)[1] != Word("expires_at");
  }

  lemma ReadsAnyOf(look: Scan, column: Test, n: nat, rest: Tokens)
    requires TokenByToken(look) && n > 0 && (column == AuthorEq || column == HashEq)
    ensures ReadClause(look(AnyOf(column, n) + rest))
         == Some(Reading(if column == AuthorEq then AuthorIs(n) else HashIs(n), look(rest)))
  {
    var list := Text.Join(Times([Sql(Test(column)), Hole], n), [OR]) + [CLOSE] + rest;
    ReadsEqualities(look, column, n, rest);
    LookOpen(look, list);
    AnyOfIsRead(column, look(list), Reading(n, look(rest)));
    assert AnyOf(column, n) + rest == [OPEN] + list;
  }

  lemma ReadsKindIn(look: Scan, kinds: seq<nat>, rest: Tokens)
    requires TokenByToken(look)
    ensures ReadClause(look([Sql(Test(KindAmong))] + KindList(kinds) + [CLOSE] + rest))
         == Some(Reading(KindIn(kinds), look(rest)))
  {
    var list := KindList(kinds) + [CLOSE] + rest;
    ReadsNumbers(look, kinds, rest);
    assert Goes(look, Sql(Test(KindAmong)), list);
    assert TokenUnits(Sql(Test(KindAmong))) == [Word("kind"), Word("IN"), Left];
    KindsAreRead(look(list));
    assert [Sql(Test(KindAmong))] + KindList(kinds) + [CLOSE] + rest == [Sql(Test(KindAmong))] + list;
  }

  lemma KindsAreRead(us: seq<Unit>)
    requires ReadNumbers(us).Some?
    ensures ReadClause([Word("kind"), Word("IN"), Left] + us)
         == Some(Reading(KindIn(ReadNumbers(us).value.value), ReadNumbers(us).value.rest))
  {
    assert ([Word("kind"), Word("IN"), Left] + us)[3..] == us;
    assert "kind" != "false";
  }

  lemma ReadsBound(look: Scan, t: Test, sign: Unit, n: nat, rest: Tokens)
    requires TokenByToken(look) && ((t == CreatedGe && sign == AtLeast) || (t == CreatedLe && sign == AtMost))
    requires Apart(rest)
    ensures ReadClause(look([Sql(Test(t)), Number(n)] + rest))
         == Some(Reading(if t == CreatedGe then CreatedFrom(n) else CreatedTo(n), look(rest)))
  {
    var us := [Word("created_at"), sign, Num(n)] + look(rest);
    LookNumber(look, n, rest);
    assert Goes(look, Sql(Test(t)), [Number(n)] + rest);
    assert [Sql(Test(t)), Number(n)] + rest == [Sql(Test(t))] + ([Number(n)] + rest);
    assert TokenUnits(Sql(Test(t))) == [Word("created_at"), sign];
    assert look([Sql(Test(t)), Number(n)] + rest) == us;
    BoundIsRead(sign, n, look(rest));
    BoundFirst(us);
  }

  lemma BoundFirst(us: seq<Unit>)
    requires us != [] && us[0] == Word("created_at")
    ensures ReadClause(us) == ReadBound(us)
  {
    assert "created_at" != "false" && "created_at" != "kind";
  }

  lemma ReadsNever(look: Scan, rest: Tokens)
    requires TokenByToken(look) && Apart(rest)
    ensures ReadClause(look([Sql(Test(Falsity))] + rest)) == Some(Reading(Never, look(rest)))
  {
    assert Goes(look, Sql(Test(Falsity)), rest);
    assert TokenUnits(Sql(Test(Falsity))) == [Word("false")];
    assert ([Word("false")] + look(rest))[1..] == look(rest);
  }

  lemma ReadsUnexpired(look: Scan, rest: Tokens)
    requires TokenByToken(look)
    ensures ReadClause(look(ClauseTokens(Unexpired) + rest)) == Some(Reading(Unexpired, look(rest)))
  {
    var tail := [Hole] + ([CLOSE] + rest);
    LookClose(look, rest);
    LookHole(look, [CLOSE] + rest);
    assert Goes(look, Sql(Test(ExpiresAfter)), tail);
    assert ClauseTokens(Unexpired) + rest == [Sql(Test(ExpiresAfter))] + tail;
    assert TokenUnits(Sql(Test(ExpiresAfter))) + ([Mark] + ([Right] + look(rest))) == UNEXPIRED + look(rest);
    assert (UNEXPIRED + look(rest))[9..] == look(rest);
  }

  /** A list of terms is never written empty. */
  predicate Readable(c: Clause) {
    (c.AuthorIs? || c.HashIs?) ==> c.n > 0
  }

  /** The text of a clause, before anything but a word, reads back as that clause. */
  lemma ReadsClause(look: Scan, c: Clause, rest: Tokens)
    requires TokenByToken(look) && Readable(c) && Apart(rest)
    ensures ReadClause(look(ClauseTokens(c) + rest)) == Some(Reading(c, look(rest)))
  {
    match c
    case AuthorIs(n) => ReadsAnyOf(look, AuthorEq, n, rest);
    case HashIs(n) => ReadsAnyOf(look, HashEq, n, rest);
    case Never => ReadsNever(look, rest);
    case KindIn(kinds) => ReadsKindIn(look, kinds, rest);
    case TagValueIn(n, w) => ReadsTagValueIn(look, n, w, rest);
    case TagValueIs(w) => ReadsTagValueIs(look, w, rest);
    case CreatedFrom(since) => ReadsBound(look, CreatedGe, AtLeast, since, rest);
    case CreatedTo(until) => ReadsBound(look, CreatedLe, AtMost, until, rest);
    case Unexpired => ReadsUnexpired(look, rest);
  }

  // ---- a whole query ------------------------------------------------------------------------

  function OrderOf(f: ReqFilter): Order {
    if f.limit.Some? then Newest(f.limit.value) else Oldest
  }

  function IndexNamed(f: ReqFilter): Option<string> {
    if IndexHint(f) == [] then None else Some(IndexName(IndexHint(f)[0].fragment.hint))
  }

  function WrittenClauses(cs: seq<Clause>): seq<Tokens> {
    seq(|cs|, i requires 0 <= i < |cs| => ClauseTokens(cs[i]))
  }

  lemma LookNewest(look: Scan, limit: nat)
    requires TokenByToken(look)
    ensures look([Sql(Frame(OrderNewest)), Number(limit)])
         == BY_TIME + [Word("DESC"), Word("LIMIT")] + [Num(limit)]
  {
    assert Goes(look, Sql(Frame(OrderNewest)), [Number(limit)]);
    LookNumber(look, limit, []);
    assert [Sql(Frame(OrderNewest)), Number(limit)] == [Sql(Frame(OrderNewest))] + [Number(limit)];
    assert [Number(limit)] + [] == [Number(limit)];
    assert TokenUnits(Sql(Frame(OrderNewest))) == BY_TIME + [Word("DESC"), Word("LIMIT")];
  }

  lemma LookOldest(look: Scan)
    requires TokenByToken(look)
    ensures look([Sql(Frame(OrderOldest))]) == BY_TIME + [Word("ASC")]
  {
    assert Goes(look, Sql(Frame(OrderOldest)), []);
    assert [Sql(Frame(OrderOldest))] + [] == [Sql(Frame(OrderOldest))];
    assert TokenUnits(Sql(Frame(OrderOldest))) == BY_TIME + [Word("ASC")];
  }

  lemma ReadsOrder(look: Scan, f: ReqFilter)
    requires TokenByToken(look)
    ensures ReadOrder(look(Ordering(f))) == Some(OrderOf(f))
    ensures look(Ordering(f)) != [] && look(Ordering(f))[0] != Word("AND") && Apart(Ordering(f))
  {
    assert "ORDER" != "AND";
    if f.limit.Some? {
      LookNewest(look, f.limit.value);
    } else {
      LookOldest(look);
    }
  }

  lemma ReadsLast(look: Scan, index: Option<string>, c: Clause, f: ReqFilter)
    requires TokenByToken(look) && Readable(c)
    ensures ReadClauses(index, look(ClauseTokens(c) + Ordering(f))) == Some(Rows(index, [c], OrderOf(f)))
  {
    ReadsOrder(look, f);
    ReadsClause(look, c, Ordering(f));
  }

  lemma ReadsMore(look: Scan, index: Option<string>, c: Clause, tail: Tokens, others: seq<Clause>, order: Order)
    requires TokenByToken(look) && Readable(c) && ReadClauses(index, look(tail)) == Some(Rows(index, others, order))
    ensures ReadClauses(index, look(ClauseTokens(c) + ([AND] + tail))) == Some(Rows(index, [c] + others, order))
  {
    LookAnd(look, tail);
    ReadsClause(look, c, [AND] + tail);
    assert ([Word("AND")] + look(tail))[1..] == look(tail);
  }

  lemma WrittenNext(cs: seq<Clause>, end: Tokens)
    requires |cs| >= 2
    ensures Text.Join(WrittenClauses(cs), [AND]) + end
         == ClauseTokens(cs[0]) + ([AND] + (Text.Join(WrittenClauses(cs[1..]), [AND]) + end))
  {
    assert WrittenClauses(cs)[1..] == WrittenClauses(cs[1..]);
    JoinCons(WrittenClauses(cs), end);
  }

  lemma JoinCons(parts: seq<Tokens>, end: Tokens)
    requires |parts| >= 2
    ensures Text.Join(parts, [AND]) + end == parts[0] + ([AND] + (Text.Join(parts[1..], [AND]) + end))
  {
  }

  lemma {:induction false} ReadsClauses(look: Scan, index: Option<string>, cs: seq<Clause>, f: ReqFilter)
    requires TokenByToken(look) && cs != [] && forall i :: 0 <= i < |cs| ==> Readable(cs[i])
    ensures ReadClauses(index, look(Text.Join(WrittenClauses(cs), [AND]) + Ordering(f)))
         == Some(Rows(index, cs, OrderOf(f)))
  {
    if |cs| == 1 {
      assert WrittenClauses(cs) == [ClauseTokens(cs[0])];
      ReadsLast(look, index, cs[0], f);
      assert cs == [cs[0]];
    } else {
      var tail := Text.Join(WrittenClauses(cs[1..]), [AND]) + Ordering(f);
      WrittenNext(cs, Ordering(f));
      ReadsClauses(look, index, cs[1..], f);
      ReadsMore(look, index, cs[0], tail, cs[1..], OrderOf(f));
      assert cs == [cs[0]] + cs[1..];
    }
  }

  lemma VisibleIsRead(index: Option<string>, us: seq<Unit>)
    ensures ReadWhere(index, VISIBLE + us) == ReadClauses(index, us)
  {
    assert (VISIBLE + us)[5..] == us;
    assert (VISIBLE + us)[1] != Num(1);
  }

  lemma LookVisible(look: Scan, body: Tokens)
    requires TokenByToken(look)
    ensures look([Sql(Frame(WhereVisible))] + ([AND] + body)) == VISIBLE + look(body)
  {
    LookAnd(look, body);
    assert Goes(look, Sql(Frame(WhereVisible)), [AND] + body);
    assert TokenUnits(Sql(Frame(WhereVisible))) == [Word("WHERE"), Word("hidden"), NotEqual, Word("TRUE")];
  }

  lemma LookSelect(look: Scan, ts: Tokens)
    requires TokenByToken(look)
    ensures look([Sql(Frame(SelectEvent))] + ts) == SELECTION + look(ts)
  {
    assert Goes(look, Sql(Frame(SelectEvent)), ts);
    assert TokenUnits(Sql(Frame(SelectEvent))) == SELECTION;
  }

  lemma LookHint(look: Scan, h: Hint, ts: Tokens)
    requires TokenByToken(look) && Apart(ts)
    ensures look([Sql(Hint(h))] + ts) == [Word("INDEXED"), Word("BY"), Word(IndexName(h))] + look(ts)
  {
    assert Goes(look, Sql(Hint(h)), ts);
    assert TokenUnits(Sql(Hint(h))) == [Word("INDEXED"), Word("BY"), Word(IndexName(h))];
  }

  lemma SelectIsRead(us: seq<Unit>)
    requires |us| >= 1 && us[0] == Word("WHERE")
    ensures ReadSelect(SELECTION + us) == ReadWhere(None, us)
  {
    assert (SELECTION + us)[5..] == us;
    assert "WHERE" != "INDEXED";
  }

  lemma HintIsRead(name: string, us: seq<Unit>)
    ensures ReadSelect(SELECTION + ([Word("INDEXED"), Word("BY"), Word(name)] + us)) == ReadWhere(Some(name), us)
  {
    assert (SELECTION + ([Word("INDEXED"), Word("BY"), Word(name)] + us))[8..] == us;
  }

  lemma ReadsFrom(look: Scan, f: ReqFilter, body: Tokens)
    requires TokenByToken(look)
    ensures ReadSelect(look([Sql(Frame(SelectEvent))] + IndexHint(f) + [Sql(Frame(WhereVisible))] + [AND] + body))
         == ReadClauses(IndexNamed(f), look(body))
  {
    var where := [Sql(Frame(WhereVisible))] + ([AND] + body);
    LookVisible(look, body);
    VisibleIsRead(IndexNamed(f), look(body));
    LookSelect(look, IndexHint(f) + where);
    assert [Sql(Frame(SelectEvent))] + IndexHint(f) + [Sql(Frame(WhereVisible))] + [AND] + body
      == [Sql(Frame(SelectEvent))] + (IndexHint(f) + where);
    if IndexHint(f) == [] {
      SelectIsRead(look(where));
      assert IndexHint(f) + where == where;
    } else {
      var h := IndexHint(f)[0].fragment.hint;
      LookHint(look, h, where);
      HintIsRead(IndexName(h), look(where));
      assert IndexHint(f) == [Sql(Hint(h))];
    }
  }

  lemma ReadsNothing(look: Scan)
    requires TokenByToken(look)
    ensures ReadSelect(look([Sql(Frame(SelectNothing))])) == Some(Nothing)
  {
    var t := Sql(Frame(SelectNothing));
    var nowhere := [Word("WHERE"), Num(1), Equal, Num(0)];
    assert Goes(look, t, []);
    assert [t] + [] == [t];
    assert TokenUnits(t) == SELECTION + nowhere;
    assert look([t]) == SELECTION + nowhere;
    SelectIsRead(nowhere);
  }

  lemma ReadsTokens(look: Scan, f: ReqFilter, bs: seq<Bound>)
    requires TokenByToken(look) && (!f.forceNoMatch ==> bs != [])
    requires forall i :: 0 <= i < |bs| ==> Readable(bs[i].clause)
    ensures ReadSelect(look(QueryTokens(f, bs)))
         == if f.forceNoMatch then Some(Nothing)
            else Some(Rows(IndexNamed(f), seq(|bs|, i requires 0 <= i < |bs| => bs[i].clause), OrderOf(f)))
  {
    if f.forceNoMatch {
      ReadsNothing(look);
    } else {
      var cs := seq(|bs|, i requires 0 <= i < |bs| => bs[i].clause);
      assert WrittenClauses(cs) == Components(bs);
      ReadsClauses(look, IndexNamed(f), cs, f);
      var body := Text.Join(Components(bs), [AND]) + Ordering(f);
      ReadsFrom(look, f, body);
      assert QueryTokens(f, bs)
        == [Sql(Frame(SelectEvent))] + IndexHint(f) + [Sql(Frame(WhereVisible))] + [AND] + body;
    }
  }

  /** The text of every generated query reads back as the clauses, the order and the index it was written from. */
  lemma ReadsQuery(f: ReqFilter, bs: seq<Bound>)
    requires !f.forceNoMatch ==> bs != []
    requires forall i :: 0 <= i < |bs| ==> Readable(bs[i].clause)
    ensures ReadQuery(Render(QueryTokens(f, bs)))
         == if f.forceNoMatch then Some(Nothing)
            else Some(Rows(IndexNamed(f), seq(|bs|, i requires 0 <= i < |bs| => bs[i].clause), OrderOf(f)))
  {
    LexTokens();
    ReadsTokens(Look(), f, bs);
  }
}
