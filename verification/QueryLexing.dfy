/** The lexical units of a generated query, token by token. */
module QueryLexing {
  import opened Query
  import opened SqlText

  // ---- the units of a token -------------------------------------------------------------

  function Bare(u: Unit): Piece {
    Piece(u, false)
  }

  function Then(u: Unit): Piece {
    Piece(u, true)
  }

  function Name(w: string): Piece {
    Piece(Word(w), true)
  }

  function Selection(): seq<Piece> {
    [Name("SELECT"), Name("e.content"), Name("FROM")] + [Name("event"), Name("e")]
  }

  function Nowhere(): seq<Piece> {
    [Name("WHERE"), Bare(Num(1)), Bare(Equal), Bare(Num(0))]
  }

  function IsNull(): seq<Piece> {
    [Bare(Left), Name("expires_at"), Name("IS"), Name("NULL")]
  }

  function OrAfter(): seq<Piece> {
    [Name("OR"), Name("expires_at"), Then(Above)]
  }

  function AmongTags(): seq<Piece> {
    [Name("e.id"), Name("IN"), Bare(Left)] + [Name("SELECT"), Name("t.event_id")]
  }

  function FromTag(): seq<Piece> {
    [Name("FROM"), Name("tag"), Name("t")] + [Name("WHERE"), Bare(Left)]
  }

  function ByTime(): seq<Piece> {
    [Name("ORDER"), Name("BY"), Name("e.created_at")]
  }

  function FramePieces(f: Frame): seq<Piece> {
    match f
    case SelectEvent => Selection()
    case SelectNothing => Selection() + Nowhere()
    case WhereVisible => [Name("WHERE"), Bare(Word("hidden")), Bare(NotEqual), Bare(Word("TRUE"))]
    case OrderNewest => ByTime() + [Name("DESC"), Name("LIMIT")]
    case OrderOldest => ByTime() + [Bare(Word("ASC"))]
  }

  function GluePieces(g: Glue): seq<Piece> {
    match g
    case AndAlso => [Name("AND")]
    case OrElse => [Name("OR")]
    case Open => [Bare(Left)]
    case Close => [Bare(Right)]
    case Comma => [Then(Separator)]
    case Space => []
    case TagQueryEnd => [Bare(Right), Bare(Right)]
  }

  function TestPieces(t: Test): seq<Piece> {
    match t
    case AuthorEq => [Bare(Word("author")), Bare(Equal)]
    case HashEq => [Bare(Word("event_hash")), Bare(Equal)]
    case Falsity => [Bare(Word("false"))]
    case KindAmong => [Name("kind"), Name("IN"), Bare(Left)]
    case CreatedGe => [Name("created_at"), Then(AtLeast)]
    case CreatedLe => [Name("created_at"), Then(AtMost)]
    case ExpiresAfter => IsNull() + OrAfter()
  }

  function TagTestPieces(t: TagTest): seq<Piece> {
    match t
    case TagQuery => AmongTags() + FromTag()
    case NameEq => [Bare(Word("name")), Bare(Equal)]
    case AndValueIn => [Name("AND"), Name("value"), Name("IN"), Bare(Left)]
    case AndValueEq => [Name("AND"), Bare(Word("value")), Bare(Equal)]
    case AndKindAmong => [Name("AND"), Name("kind"), Name("IN"), Bare(Left)]
    case AndCreatedGe => [Name("AND"), Name("created_at"), Then(AtLeast)]
    case AndCreatedLe => [Name("AND"), Name("created_at"), Then(AtMost)]
  }

  function FragmentPieces(f: Fragment): seq<Piece> {
    match f
    case Frame(x) => FramePieces(x)
    case Hint(x) => [Name("INDEXED"), Name("BY"), Bare(Word(IndexName(x)))]
    case Glue(x) => GluePieces(x)
    case Test(x) => TestPieces(x)
    case TagTest(x) => TagTestPieces(x)
  }

  function TokenPieces(t: Token): seq<Piece> {
    match t
    case Sql(f) => FragmentPieces(f)
    case Number(n) => [Bare(Num(n))]
    case Hole => [Bare(Mark)]
  }

  function TokenUnits(t: Token): seq<Unit> {
    Units(TokenPieces(t))
  }

  /** The token's text starts with a space. */
  predicate Indented(t: Token) {
    match t
    case Sql(Frame(x)) => x.WhereVisible? || x.OrderNewest? || x.OrderOldest?
    case Sql(Glue(x)) => x.AndAlso? || x.OrElse? || x.Space?
    case Sql(TagTest(x)) => x.AndValueIn? || x.AndValueEq?
    case _ => false
  }

  function Lead(t: Token): string {
    if Indented(t) then " " else ""
  }

  // ---- the text of a token is its units, spelled ---------------------------------------------

  lemma SelectionSpelled()
    ensures Spell(Selection()) == "SELECT e.content FROM event e "
  {
    SpellThree(Name("SELECT"), Name("e.content"), Name("FROM"));
    SpellTwo(Name("event"), Name("e"));
    SpellConcat([Name("SELECT"), Name("e.content"), Name("FROM")], [Name("event"), Name("e")]);
  }

  lemma NowhereSpelled()
    ensures Spell(Nowhere()) == "WHERE 1=0"
  {
    SpellFour(Name("WHERE"), Bare(Num(1)), Bare(Equal), Bare(Num(0)));
    assert Spelling(Num(1)) == "1" && Spelling(Num(0)) == "0";
  }

  lemma NothingSpelled()
    ensures Spell(FramePieces(SelectNothing)) == FrameText(SelectNothing)
  {
    SpellConcat(Selection(), Nowhere());
    SelectionSpelled();
    NowhereSpelled();
    NothingText();
  }

  lemma NothingText()
    ensures FrameText(SelectNothing) == "SELECT e.content FROM event e " + "WHERE 1=0"
  {
  }

  lemma ByTimeSpelled()
    ensures Spell(ByTime()) == "ORDER BY e.created_at "
  {
    SpellThree(Name("ORDER"), Name("BY"), Name("e.created_at"));
  }

  lemma NewestSpelled()
    ensures " " + Spell(FramePieces(OrderNewest)) == FrameText(OrderNewest)
  {
    ByTimeSpelled();
    SpellTwo(Name("DESC"), Name("LIMIT"));
    SpellConcat(ByTime(), [Name("DESC"), Name("LIMIT")]);
    NewestText();
  }

  lemma NewestText()
    ensures FrameText(OrderNewest) == " " + ("ORDER BY e.created_at " + (("DESC" + " ") + ("LIMIT" + " ")))
  {
  }

  lemma OldestSpelled()
    ensures " " + Spell(FramePieces(OrderOldest)) == FrameText(OrderOldest)
  {
    ByTimeSpelled();
    SpellOne(Bare(Word("ASC")));
    SpellConcat(ByTime(), [Bare(Word("ASC"))]);
    OldestText();
  }

  lemma OldestText()
    ensures FrameText(OrderOldest) == " " + ("ORDER BY e.created_at " + "ASC")
  {
  }

  lemma VisibleSpelled()
    ensures " " + Spell(FramePieces(WhereVisible)) == FrameText(WhereVisible)
  {
    SpellFour(Name("WHERE"), Bare(Word("hidden")), Bare(NotEqual), Bare(Word("TRUE")));
  }

  lemma HintSpelled(h: Hint)
    ensures Spell(FragmentPieces(Hint(h))) == HintText(h)
  {
    SpellThree(Name("INDEXED"), Name("BY"), Bare(Word(IndexName(h))));
  }

  lemma GlueSpelled(g: Glue)
    ensures Lead(Sql(Glue(g))) + Spell(GluePieces(g)) == GlueText(g)
  {
    match g
    case TagQueryEnd => SpellTwo(Bare(Right), Bare(Right));
    case Space =>
    case _ => SpellOne(GluePieces(g)[0]);
  }

  lemma ExpiresSpelled()
    ensures Spell(TestPieces(ExpiresAfter)) == TestText(ExpiresAfter)
  {
    IsNullSpelled();
    OrAfterSpelled();
    SpellConcat(IsNull(), OrAfter());
    ExpiresText();
  }

  lemma IsNullSpelled()
    ensures Spell(IsNull()) == "(expires_at IS NULL "
  {
    SpellFour(Bare(Left), Name("expires_at"), Name("IS"), Name("NULL"));
  }

  lemma OrAfterSpelled()
    ensures Spell(OrAfter()) == "OR expires_at > "
  {
    SpellThree(Name("OR"), Name("expires_at"), Then(Above));
  }

  lemma ExpiresText()
    ensures TestText(ExpiresAfter) == "(expires_at IS NULL " + "OR expires_at > "
  {
  }

  lemma KindSpelled()
    ensures Spell(TestPieces(KindAmong)) == TestText(KindAmong)
  {
    SpellThree(Name("kind"), Name("IN"), Bare(Left));
  }

  lemma TestSpelled(t: Test)
    ensures Spell(TestPieces(t)) == TestText(t)
  {
    match t
    case ExpiresAfter => ExpiresSpelled();
    case Falsity => SpellOne(Bare(Word("false")));
    case KindAmong => KindSpelled();
    case _ => SpellTwo(TestPieces(t)[0], TestPieces(t)[1]);
  }

  lemma AmongTagsSpelled()
    ensures Spell(AmongTags()) == "e.id IN (SELECT t.event_id "
  {
    SpellThree(Name("e.id"), Name("IN"), Bare(Left));
    SpellTwo(Name("SELECT"), Name("t.event_id"));
    SpellConcat([Name("e.id"), Name("IN"), Bare(Left)], [Name("SELECT"), Name("t.event_id")]);
    AmongText();
  }

  lemma AmongText()
    ensures "e.id IN (SELECT t.event_id "
      == (("e.id" + " ") + (("IN" + " ") + "(")) + (("SELECT" + " ") + ("t.event_id" + " "))
  {
  }

  lemma FromTagSpelled()
    ensures Spell(FromTag()) == "FROM tag t WHERE ("
  {
    SpellThree(Name("FROM"), Name("tag"), Name("t"));
    SpellTwo(Name("WHERE"), Bare(Left));
    SpellConcat([Name("FROM"), Name("tag"), Name("t")], [Name("WHERE"), Bare(Left)]);
  }

  lemma TagQueryText()
    ensures TagTestText(TagQuery) == "e.id IN (SELECT t.event_id " + "FROM tag t WHERE ("
  {
  }

  lemma TagQuerySpelled()
    ensures Spell(TagTestPieces(TagQuery)) == TagTestText(TagQuery)
  {
    AmongTagsSpelled();
    FromTagSpelled();
    SpellConcat(AmongTags(), FromTag());
    TagQueryText();
  }

  lemma AndGeSpelled()
    ensures Spell(TagTestPieces(AndCreatedGe)) == TagTestText(AndCreatedGe)
  {
    SpellThree(Name("AND"), Name("created_at"), Then(AtLeast));
    AndBoundTexts();
  }

  lemma AndLeSpelled()
    ensures Spell(TagTestPieces(AndCreatedLe)) == TagTestText(AndCreatedLe)
  {
    SpellThree(Name("AND"), Name("created_at"), Then(AtMost));
    AndBoundTexts();
  }

  lemma AndBoundTexts()
    ensures TagTestText(AndCreatedGe) == ("AND" + " ") + (("created_at" + " ") + (">=" + " "))
    ensures TagTestText(AndCreatedLe) == ("AND" + " ") + (("created_at" + " ") + ("<=" + " "))
  {
  }

  lemma AndInSpelled()
    ensures " " + Spell(TagTestPieces(AndValueIn)) == TagTestText(AndValueIn)
  {
    SpellFour(Name("AND"), Name("value"), Name("IN"), Bare(Left));
    AndInText();
  }

  lemma AndInText()
    ensures TagTestText(AndValueIn) == " " + (("AND" + " ") + (("value" + " ") + (("IN" + " ") + "(")))
  {
  }

  lemma AndEqSpelled()
    ensures " " + Spell(TagTestPieces(AndValueEq)) == TagTestText(AndValueEq)
  {
    SpellThree(Name("AND"), Bare(Word("value")), Bare(Equal));
    AndEqText();
  }

  lemma AndEqText()
    ensures TagTestText(AndValueEq) == " " + (("AND" + " ") + ("value" + "="))
  {
  }

  lemma AndKindSpelled()
    ensures Spell(TagTestPieces(AndKindAmong)) == TagTestText(AndKindAmong)
  {
    SpellFour(Name("AND"), Name("kind"), Name("IN"), Bare(Left));
    AndKindText();
  }

  lemma AndKindText()
    ensures TagTestText(AndKindAmong) == ("AND" + " ") + (("kind" + " ") + (("IN" + " ") + "("))
  {
  }

  lemma NameSpelled()
    ensures Spell(TagTestPieces(NameEq)) == TagTestText(NameEq)
  {
    SpellTwo(Bare(Word("name")), Bare(Equal));
  }

  lemma TagTestSpelled(t: TagTest)
    ensures Lead(Sql(TagTest(t))) + Spell(TagTestPieces(t)) == TagTestText(t)
  {
    match t
    case TagQuery => TagQuerySpelled();
    case NameEq => NameSpelled();
    case AndValueIn => AndInSpelled();
    case AndValueEq => AndEqSpelled();
    case AndKindAmong => AndKindSpelled();
    case AndCreatedGe => AndGeSpelled();
    case AndCreatedLe => AndLeSpelled();
  }

  lemma FrameSpelled(x: Frame)
    ensures Lead(Sql(Frame(x))) + Spell(FramePieces(x)) == FrameText(x)
  {
    match x
    case SelectEvent => SelectionSpelled();
    case SelectNothing => NothingSpelled();
    case WhereVisible => VisibleSpelled();
    case OrderNewest => NewestSpelled();
    case OrderOldest => OldestSpelled();
  }

  /** The text of a token is that of its units. */
  lemma TokenSpelled(t: Token)
    ensures TokenText(t) == Lead(t) + Spell(TokenPieces(t))
  {
    match t
    case Sql(Frame(x)) => FrameSpelled(x);
    case Sql(Hint(x)) => HintSpelled(x);
    case Sql(Glue(x)) => GlueSpelled(x);
    case Sql(Test(x)) => TestSpelled(x);
    case Sql(TagTest(x)) => TagTestSpelled(x);
    case Number(n) => SpellOne(Bare(Num(n)));
    case Hole => SpellOne(Bare(Mark));
  }

  // ---- the units of a token can be told apart --------------------------------------------------

  lemma FrameNames()
    ensures IsName("SELECT") && IsName("e.content") && IsName("FROM") && IsName("event") && IsName("e")
    ensures IsName("WHERE") && IsName("hidden") && IsName("TRUE")
  {
  }

  lemma OrderNames()
    ensures IsName("ORDER") && IsName("BY") && IsName("e.created_at")
    ensures IsName("DESC") && IsName("LIMIT") && IsName("ASC")
  {
  }

  lemma TestNames()
    ensures IsName("author") && IsName("event_hash") && IsName("false") && IsName("kind") && IsName("IN")
    ensures IsName("created_at") && IsName("expires_at") && IsName("IS") && IsName("NULL") && IsName("OR")
  {
  }

  lemma TagNames()
    ensures IsName("e.id") && IsName("t.event_id") && IsName("tag") && IsName("t")
    ensures IsName("name") && IsName("AND") && IsName("value")
  {
  }

  lemma TimeIndexIsName()
    ensures IsName("kind_created_at_index") && IsName("author_created_at_index")
  {
  }

  lemma OtherIndexIsName()
    ensures IsName("event_hash_index") && IsName("author_index") && IsName("author_kind_index")
  {
  }

  lemma IndexIsName(h: Hint)
    ensures IsName(IndexName(h))
  {
    TimeIndexIsName();
    OtherIndexIsName();
  }

  lemma OrderSpaced()
    ensures WellSpaced(FramePieces(OrderNewest)) && WellSpaced(FramePieces(OrderOldest))
  {
    OrderNames();
  }

  lemma FrameSpaced(x: Frame)
    ensures WellSpaced(FramePieces(x))
  {
    FrameNames();
    OrderSpaced();
  }

  lemma HintSpaced(h: Hint)
    ensures WellSpaced(FragmentPieces(Hint(h)))
  {
    assert IsName("INDEXED") && IsName("BY");
    IndexIsName(h);
  }

  lemma TestSpaced(x: Test)
    ensures WellSpaced(TestPieces(x))
  {
    TestNames();
  }

  lemma TagQuerySpaced()
    ensures WellSpaced(TagTestPieces(TagQuery))
  {
    FrameNames();
    TestNames();
    TagNames();
  }

  lemma TagTestSpaced(x: TagTest)
    ensures WellSpaced(TagTestPieces(x))
  {
    TestNames();
    TagNames();
    if x == TagQuery { TagQuerySpaced(); }
  }

  lemma TokenSpaced(t: Token)
    ensures WellSpaced(TokenPieces(t))
  {
    match t
    case Sql(Frame(x)) => FrameSpaced(x);
    case Sql(Hint(x)) => HintSpaced(x);
    case Sql(Glue(x)) => assert IsName("AND") && IsName("OR");
    case Sql(Test(x)) => TestSpaced(x);
    case Sql(TagTest(x)) => TagTestSpaced(x);
    case _ =>
  }

  // ---- token after token -------------------------------------------------------------------------

  /** The token's text ends in a word. */
  predicate EndsInWord(t: Token) {
    match t
    case Number(_) => true
    case Sql(Hint(_)) => true
    case Sql(Frame(x)) => x.SelectNothing? || x.WhereVisible? || x.OrderOldest?
    case Sql(Test(x)) => x.Falsity?
    case _ => false
  }

  /** The token's text starts with a word. */
  predicate StartsWithWord(t: Token) {
    match t
    case Number(_) => true
    case Sql(Hint(_)) => true
    case Sql(Frame(x)) => x.SelectEvent? || x.SelectNothing?
    case Sql(Test(x)) => !x.ExpiresAfter?
    case Sql(TagTest(x)) => !x.AndValueIn? && !x.AndValueEq?
    case _ => false
  }

  /** The last unit, if it ends the text, is no word unless the token says so. */
  predicate EndsApart(ps: seq<Piece>, inWord: bool) {
    ps == [] || ps[|ps| - 1].gap || (ps[|ps| - 1].unit != Above && (Wordy(ps[|ps| - 1].unit) ==> inWord))
  }

  lemma FrameEnds(x: Frame)
    ensures EndsApart(FramePieces(x), EndsInWord(Sql(Frame(x))))
  {
  }

  lemma GlueEnds(x: Glue)
    ensures EndsApart(GluePieces(x), false)
  {
  }

  lemma TestEnds(x: Test)
    ensures EndsApart(TestPieces(x), x.Falsity?)
  {
  }

  lemma TagTestEnds(x: TagTest)
    ensures EndsApart(TagTestPieces(x), false)
  {
    if x == TagQuery {
      assert FromTag()[4] == Bare(Left);
    }
  }

  lemma TokenEnds(t: Token)
    ensures EndsApart(TokenPieces(t), EndsInWord(t))
  {
    match t
    case Sql(Frame(x)) => FrameEnds(x);
    case Sql(Glue(x)) => GlueEnds(x);
    case Sql(Test(x)) => TestEnds(x);
    case Sql(TagTest(x)) => TagTestEnds(x);
    case Sql(Hint(x)) =>
    case _ =>
  }

  lemma FirstPiece(t: Token)
    requires !Indented(t) && !StartsWithWord(t)
    ensures TokenPieces(t) != [] && Spellable(TokenPieces(t)[0].unit) && !Wordy(TokenPieces(t)[0].unit)
  {
  }

  lemma StartsFree(t: Token, r: string)
    requires !StartsWithWord(t)
    ensures TokenText(t) + r != "" && !WordChar((TokenText(t) + r)[0])
  {
    TokenSpelled(t);
    Regroup(Lead(t), Spell(TokenPieces(t)), r);
    if !Indented(t) {
      FirstPiece(t);
      SignFirst(TokenPieces(t), r);
    }
  }

  lemma SignFirst(ps: seq<Piece>, r: string)
    requires ps != [] && Spellable(ps[0].unit) && !Wordy(ps[0].unit)
    ensures Spell(ps) + r != "" && !WordChar((Spell(ps) + r)[0])
    ensures "" + (Spell(ps) + r) == Spell(ps) + r
  {
    var _ := SpellStart(ps, r);
  }

  lemma RenderCons(t: Token, ts: Tokens)
    ensures Render([t] + ts) == TokenText(t) + Render(ts)
  {
    assert ([t] + ts)[1..] == ts;
  }

  lemma Regroup(a: string, b: string, c: string)
    ensures (a + b) + c == a + (b + c)
  {
  }

  lemma RenderStep(t: Token, ts: Tokens)
    ensures Render([t] + ts) == Lead(t) + (Spell(TokenPieces(t)) + Render(ts))
  {
    RenderCons(t, ts);
    TokenSpelled(t);
    Regroup(Lead(t), Spell(TokenPieces(t)), Render(ts));
  }

  lemma LexLead(t: Token, r: string)
    ensures Lex(Lead(t) + r) == Lex(r)
  {
    if Indented(t) {
      LexSpace(r);
    } else {
      assert "" + r == r;
    }
  }

  lemma Step(t: Token, ts: Tokens)
    requires ts == [] || !EndsInWord(t) || !StartsWithWord(ts[0])
    ensures Lex(Render([t] + ts)) == TokenUnits(t) + Lex(Render(ts))
  {
    RenderStep(t, ts);
    LexLead(t, Spell(TokenPieces(t)) + Render(ts));
    TokenSpaced(t);
    TokenEnds(t);
    if ts != [] && !StartsWithWord(ts[0]) { StartsFree(ts[0], Render(ts[1..])); }
    LexSpelled(TokenPieces(t), Render(ts));
  }

  type Scan = Tokens -> seq<Unit>

  /** The token's units come first, unless the token ends and what follows starts with a word. */
  ghost predicate Goes(look: Scan, t: Token, ts: Tokens) {
    (ts == [] || !EndsInWord(t) || !StartsWithWord(ts[0])) ==> look([t] + ts) == TokenUnits(t) + look(ts)
  }

  /** Tokens are looked at one after the other. */
  ghost predicate TokenByToken(look: Scan) {
    look([]) == [] && forall t, ts :: Goes(look, t, ts)
  }

  /** The units of the text. */
  function Look(): Scan {
    (ts: Tokens) => Lex(Render(ts))
  }

  lemma LexTokens()
    ensures TokenByToken(Look())
  {
    forall t, ts ensures Goes(Look(), t, ts) {
      if ts == [] || !EndsInWord(t) || !StartsWithWord(ts[0]) { Step(t, ts); }
    }
  }
}
