/**
 What a generated query returns. The meaning is given to the SQL text: it is read, its clauses are
 evaluated on every row that is not hidden, with the parameters bound from left to right, and the rows
 that pass are listed in the order that was read.
 */
module QueryResult {
  import opened Wrappers
  import opened Hex
  import opened Filters
  import opened Store
  import opened StoreInvariants
  import opened Query
  import opened QueryHoles
  import opened QueryMeaning
  import opened SqlReading
  import opened QueryReading

  // ---- the meaning of a text ----------------------------------------------------------

  function Hits(cs: seq<Clause>, params: seq<Param>, db: Db): set<nat>
    requires |params| == TotalArity(cs)
  {
    set r | r in db.events && And3(Truth(!db.events[r].hidden), EvalClauses(cs, params, db, r)) == True
  }

  predicate Distinct(rows: seq<nat>) {
    forall i, j :: 0 <= i < j < |rows| ==> rows[i] != rows[j]
  }

  predicate Stored(rows: seq<nat>, db: Db) {
    forall i :: 0 <= i < |rows| ==> rows[i] in db.events
  }

  /** ORDER BY created_at DESC */
  predicate Descending(rows: seq<nat>, db: Db)
    requires Stored(rows, db)
  {
    forall i, j :: 0 <= i < j < |rows| ==> db.events[rows[i]].createdAt >= db.events[rows[j]].createdAt
  }

  /** ORDER BY created_at ASC */
  predicate Ascending(rows: seq<nat>, db: Db)
    requires Stored(rows, db)
  {
    forall i, j :: 0 <= i < j < |rows| ==> db.events[rows[i]].createdAt <= db.events[rows[j]].createdAt
  }

  /** No row that is left out is newer than one that is listed. */
  predicate CutByTime(rows: seq<nat>, hits: set<nat>, db: Db)
    requires Stored(rows, db) && forall r :: r in hits ==> r in db.events
  {
    forall r, i :: r in hits && r !in rows && 0 <= i < |rows| ==>
      db.events[r].createdAt <= db.events[rows[i]].createdAt
  }

  /** The engine may list these rows, in any order among rows of equal time. */
  predicate Lists(order: Order, hits: set<nat>, db: Db, rows: seq<nat>)
    requires forall r :: r in hits ==> r in db.events
  {
    Distinct(rows) && (forall r :: r in rows ==> r in hits) && Stored(rows, db)
    && match order
       case Oldest => (forall r :: r in hits ==> r in rows) && Ascending(rows, db)
       case Newest(limit) =>
         |rows| == (if |hits| <= limit then |hits| else limit) && Descending(rows, db) && CutByTime(rows, hits, db)
  }

  /** The indexes of the event table; a statement that asks for any other is refused. */
  const EVENT_INDEXES: set<string> := {
    "event_hash_index", "author_index", "kind_index", "created_at_index", "delegated_by_index",
    "event_composite_index", "kind_author_index", "kind_created_at_index", "author_created_at_index",
    "author_kind_index", "event_expiration"
  }

  /** The engine, given this text and these parameters, may return these rows. */
  predicate Returns(query: string, params: seq<Param>, db: Db, rows: seq<nat>) {
    match ReadQuery(query)
    case None => false
    case Some(Nothing) => rows == []
    case Some(Rows(index, cs, order)) =>
      (index.Some? ==> index.value in EVENT_INDEXES)
      && |params| == TotalArity(cs) && Lists(order, Hits(cs, params, db), db, rows)
  }

  // ---- generated queries can be read -----------------------------------------------------

  predicate AllReadable(bs: seq<Bound>) {
    forall i :: 0 <= i < |bs| ==> Readable(bs[i].clause)
  }

  lemma ReadableConcat(a: seq<Bound>, b: seq<Bound>)
    requires AllReadable(a) && AllReadable(b)
    ensures AllReadable(a + b)
  {
  }

  lemma OperandReadable(name: string, op: TagOperand, w: Narrowing)
    ensures AllReadable(OperandPart(name, op, w))
  {
  }

  lemma {:induction false} NamedReadable(names: seq<string>, tags: map<char, TagOperand>, w: Narrowing)
    requires NamesIn(names, tags)
    ensures AllReadable(NamedParts(names, tags, w))
  {
    if names != [] {
      var k := |names| - 1;
      NamedReadable(names[..k], tags, w);
      OperandReadable(names[k], tags[names[k][0]], w);
      ReadableConcat(NamedParts(names[..k], tags, w), OperandPart(names[k], tags[names[k][0]], w));
    }
  }

  lemma TagsReadable(f: ReqFilter)
    ensures AllReadable(TagPart(f))
  {
    if f.tags.Some? {
      NamedReadable(SortedNames(f.tags.value), f.tags.value, NarrowingOf(f));
    }
  }

  lemma TermsReadable(f: ReqFilter)
    ensures AllReadable(AuthorPart(f)) && AllReadable(KindPart(f)) && AllReadable(IdPart(f))
  {
  }

  lemma TimesReadable(f: ReqFilter)
    ensures AllReadable(TimePart(f))
  {
  }

  lemma CompileReadable(f: ReqFilter, now: nat)
    ensures AllReadable(Compile(f, now)) && (!f.forceNoMatch ==> Compile(f, now) != [])
  {
    TermsReadable(f);
    TagsReadable(f);
    TimesReadable(f);
    var last := [Bound(Unexpired, [IntParam(now)])];
    ReadableConcat(AuthorPart(f), KindPart(f));
    ReadableConcat(AuthorPart(f) + KindPart(f), IdPart(f));
    ReadableConcat(AuthorPart(f) + KindPart(f) + IdPart(f), TagPart(f));
    ReadableConcat(AuthorPart(f) + KindPart(f) + IdPart(f) + TagPart(f), TimePart(f));
    ReadableConcat(AuthorPart(f) + KindPart(f) + IdPart(f) + TagPart(f) + TimePart(f), last);
  }

  // ---- what they return -----------------------------------------------------------------------

  function Selection(f: ReqFilter, now: nat, db: Db): set<nat> {
    set r | r in db.events && Selected(f, now, db, r)
  }

  /** The text of every filter reads back as the filter's clauses, its order and the index it names. */
  lemma GeneratedReads(f: ReqFilter, now: nat)
    ensures ReadQuery(Render(QueryTokens(f, Compile(f, now))))
         == if f.forceNoMatch then Some(Nothing)
            else Some(Rows(IndexNamed(f), Clauses(Compile(f, now)), OrderOf(f)))
  {
    CompileReadable(f, now);
    ReadsQuery(f, Compile(f, now));
  }

  /** Which index the text names, for every filter. */
  lemma IndexExactly(f: ReqFilter)
    ensures IndexNamed(f) == Some("event_hash_index") <==> f.ids.Some?
    ensures IndexNamed(f) == Some("kind_created_at_index") <==> f.ids.None? && ManyKindsAlone(f)
    ensures IndexNamed(f) == Some("author_index") <==>
      f.ids.None? && f.authors.Some? && f.since.None? && f.until.None? && f.limit.None? && f.kinds.None?
    ensures IndexNamed(f) == Some("author_kind_index") <==>
      f.ids.None? && f.authors.Some? && f.since.None? && f.until.None? && f.limit.None? && f.kinds.Some?
    ensures IndexNamed(f) == Some("author_created_at_index") <==>
      f.ids.None? && f.authors.Some? && (f.since.Some? || f.until.Some? || f.limit.Some?)
    ensures IndexNamed(f) == None <==> f.ids.None? && f.authors.None? && !ManyKindsAlone(f)
  {
  }

  /** More than one kind is asked for, and neither authors, tags nor times. */
  predicate ManyKindsAlone(f: ReqFilter) {
    f.kinds.Some? && |f.kinds.value| > 1 && f.since.None? && f.until.None? && f.tags.None? && f.authors.None?
  }

  lemma IndexesExist(f: ReqFilter)
    ensures IndexNamed(f).Some? ==> IndexNamed(f).value in EVENT_INDEXES
  {
  }

  lemma GeneratedHits(f: ReqFilter, now: nat, db: Db)
    requires !f.forceNoMatch
    ensures |Params(Compile(f, now))| == TotalArity(Clauses(Compile(f, now)))
    ensures Hits(Clauses(Compile(f, now)), Params(Compile(f, now)), db) == Selection(f, now, db)
  {
    CompileFits(f, now);
    ParamsFit(Compile(f, now));
  }

  lemma ListsNone(order: Order, db: Db, rows: seq<nat>)
    ensures Lists(order, {}, db, rows) <==> rows == []
  {
    if rows != [] { assert rows[0] in rows; }
  }

  /** The text and parameters of every filter return exactly listings of its selection. */
  lemma GeneratedReturns(f: ReqFilter, now: nat, db: Db, rows: seq<nat>)
    ensures Returns(Render(QueryTokens(f, Compile(f, now))), Params(Compile(f, now)), db, rows)
      <==> Lists(OrderOf(f), Selection(f, now, db), db, rows)
  {
    GeneratedReads(f, now);
    if f.forceNoMatch {
      ListsNone(OrderOf(f), db, rows);
      assert Selection(f, now, db) == {};
    } else {
      GeneratedHits(f, now, db);
      IndexesExist(f);
    }
  }

  /** The visible rows the matcher accepts for the filter. */
  function Matching(f: ReqFilter, now: nat, db: Db): set<nat> {
    set r | r in db.events && Visible(db.events[r], now) && InterestedInEvent(f, Indexed(db.events[r].content, None))
  }

  predicate KeysEverywhere(db: Db) {
    forall r :: r in db.events ==> IsKey(db.events[r].content.id) && IsKey(db.events[r].content.pubkey)
  }

  /**
   The compiler, end to end, for every filter: its text and parameters return the visible rows the matcher
   accepts for the canonical filter, with a limit the newest of them, newest first, without one all of them,
   oldest first.
   */
  lemma QueryReturnsMatches(f: ReqFilter, now: nat, db: Db, rows: seq<nat>)
    requires Mirror(db) && KeysEverywhere(db)
    ensures Returns(Render(QueryTokens(f, Compile(f, now))), Params(Compile(f, now)), db, rows)
      <==> Lists(OrderOf(f), Matching(Canonical(f), now, db), db, rows)
  {
    GeneratedReturns(f, now, db, rows);
    SelectionMatches(f, now, db);
  }

  lemma SelectionMatches(f: ReqFilter, now: nat, db: Db)
    requires Mirror(db) && KeysEverywhere(db)
    ensures Selection(f, now, db) == Matching(Canonical(f), now, db)
  {
    forall r | r in db.events ensures r in Selection(f, now, db) <==> r in Matching(Canonical(f), now, db) {
      QueryMeansCanonical(f, now, db, r);
    }
  }

  lemma ExactMatching(f: ReqFilter, now: nat, db: Db)
    requires ExactFilter(f) && KeysEverywhere(db)
    ensures Matching(f, now, db) == Matching(Canonical(f), now, db)
  {
    forall r | r in db.events ensures r in Matching(f, now, db) <==> r in Matching(Canonical(f), now, db) {
      CanonicalAgrees(f, db.events[r].content);
    }
  }

  /** In every reachable store, for exact filters: the rows are those the matcher itself accepts. */
  lemma ExactQueryReturns(ops: seq<Op>, f: ReqFilter, now: nat, rows: seq<nat>)
    requires ExactFilter(f) && KeysEverywhere(Run(EMPTY, ops))
    ensures Returns(Render(QueryTokens(f, Compile(f, now))), Params(Compile(f, now)), Run(EMPTY, ops), rows)
      <==> Lists(OrderOf(f), Matching(f, now, Run(EMPTY, ops)), Run(EMPTY, ops), rows)
  {
    var db := Run(EMPTY, ops);
    RunMirror(ops);
    QueryReturnsMatches(f, now, db, rows);
    ExactMatching(f, now, db);
  }

  // ---- there always is an answer ------------------------------------------------------------------

  lemma NewestHit(hits: set<nat>, db: Db) returns (n: nat)
    requires hits != {} && forall r :: r in hits ==> r in db.events
    ensures n in hits && forall r :: r in hits ==> db.events[r].createdAt <= db.events[n].createdAt
  {
    var stamps := map r | r in hits :: db.events[r].createdAt;
    var h :| h in hits;
    assert h in stamps;
    n := Store.Newest(stamps);
    forall r | r in hits ensures db.events[r].createdAt <= db.events[n].createdAt {
      assert stamps[r] <= stamps[n];
    }
  }

  lemma {:induction false} ListedOldest(hits: set<nat>, db: Db) returns (rows: seq<nat>)
    requires forall r :: r in hits ==> r in db.events
    ensures Lists(Oldest, hits, db, rows)
  {
    rows := [];
    if hits != {} {
      var n := NewestHit(hits, db);
      var front := ListedOldest(hits - {n}, db);
      rows := front + [n];
      forall r ensures r in rows <==> r in hits {
        assert r in rows <==> r in front || r == n;
      }
      forall i | 0 <= i < |front| ensures front[i] != n && db.events[front[i]].createdAt <= db.events[n].createdAt {
        assert front[i] in front;
      }
    }
  }

  lemma {:induction false} ListedNewest(limit: nat, hits: set<nat>, db: Db) returns (rows: seq<nat>)
    requires forall r :: r in hits ==> r in db.events
    ensures Lists(Order.Newest(limit), hits, db, rows)
  {
    rows := [];
    if hits != {} && limit > 0 {
      var n := NewestHit(hits, db);
      var tail := ListedNewest(limit - 1, hits - {n}, db);
      rows := [n] + tail;
      NewestFirst(limit, hits, db, n, tail);
    }
  }

  lemma NewestFirst(limit: nat, hits: set<nat>, db: Db, n: nat, tail: seq<nat>)
    requires (forall r :: r in hits ==> r in db.events) && n in hits && limit > 0
    requires forall r :: r in hits ==> db.events[r].createdAt <= db.events[n].createdAt
    requires Lists(Order.Newest(limit - 1), hits - {n}, db, tail)
    ensures Lists(Order.Newest(limit), hits, db, [n] + tail)
  {
    forall i | 0 <= i < |tail| ensures tail[i] != n && db.events[tail[i]].createdAt <= db.events[n].createdAt {
      assert tail[i] in tail;
    }
  }

  /** Every generated query returns something. */
  lemma QueryReturnsSomething(f: ReqFilter, now: nat, db: Db) returns (rows: seq<nat>)
    ensures Returns(Render(QueryTokens(f, Compile(f, now))), Params(Compile(f, now)), db, rows)
  {
    match OrderOf(f) {
      case Oldest => rows := ListedOldest(Selection(f, now, db), db);
      case Newest(limit) => rows := ListedNewest(limit, Selection(f, now, db), db);
    }
    GeneratedReturns(f, now, db, rows);
  }
}
