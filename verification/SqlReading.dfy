/**
 What a statement asks for: a reader for `SELECT e.content FROM event e ...`, from lexical units to
 conditions, order and index. A statement in any other form is not read.
 */
module SqlReading {
  import opened Wrappers
  import opened Query
  import opened SqlText

  /** How the selected rows are listed. */
  datatype Order = Newest(limit: nat) | Oldest

  /** The index that must be used, the conditions every row has to meet beside not being hidden, the order. */
  datatype Select = Nothing | Rows(index: Option<string>, clauses: seq<Clause>, order: Order)

  /** What was read, and the units that follow. */
  datatype Reading<+T> = Reading(value: T, rest: seq<Unit>)

  // ---- lists -----------------------------------------------------------------------

  /** Numbers with commas between them, up to a closing parenthesis. */
  function ReadNumbers(us: seq<Unit>): (r: Option<Reading<seq<nat>>>)
    ensures r.Some? ==> |r.value.rest| < |us|
  {
    if |us| >= 1 && us[0] == Right then Some(Reading([], us[1..]))
    else if |us| >= 2 && us[0].Num? && us[1] == Right then Some(Reading([us[0].number], us[2..]))
    else if |us| >= 2 && us[0].Num? && us[1] == Separator then
      match ReadNumbers(us[2..])
      case None => None
      case Some(more) => Some(Reading([us[0].number] + more.value, more.rest))
    else None
  }

  /** Placeholders with commas between them, up to a closing parenthesis. */
  function ReadMarks(us: seq<Unit>): (r: Option<Reading<nat>>)
    ensures r.Some? ==> |r.value.rest| < |us|
  {
    if |us| >= 1 && us[0] == Right then Some(Reading(0, us[1..]))
    else if |us| >= 2 && us[0] == Mark && us[1] == Right then Some(Reading(1, us[2..]))
    else if |us| >= 2 && us[0] == Mark && us[1] == Separator then
      match ReadMarks(us[2..])
      case None => None
      case Some(more) => Some(Reading(1 + more.value, more.rest))
    else None
  }

  /** `column=?` with OR between, up to a closing parenthesis. */
  function ReadEqualities(column: string, us: seq<Unit>): (r: Option<Reading<nat>>)
    ensures r.Some? ==> |r.value.rest| < |us|
  {
    if |us| >= 4 && us[0] == Word(column) && us[1] == Equal && us[2] == Mark then
      if us[3] == Right then Some(Reading(1, us[4..]))
      else if us[3] == Word("OR") then
        match ReadEqualities(column, us[4..])
        case None => None
        case Some(more) => Some(Reading(1 + more.value, more.rest))
      else None
    else None
  }

  // ---- one condition -----------------------------------------------------------------

  /** A bound on the creation time: `>=` for not before, `<=` for not after. */
  function ReadBound(us: seq<Unit>): (r: Option<Reading<Clause>>)
    ensures r.Some? ==> |r.value.rest| < |us|
  {
    if |us| >= 3 && us[0] == Word("created_at") && us[2].Num? then
      match us[1]
      case AtLeast => Some(Reading(CreatedFrom(us[2].number), us[3..]))
      case AtMost => Some(Reading(CreatedTo(us[2].number), us[3..]))
      case _ => None
    else None
  }

  /** `kind IN (...)` */
  function ReadKinds(us: seq<Unit>): (r: Option<Reading<seq<nat>>>)
    ensures r.Some? ==> |r.value.rest| < |us|
  {
    if |us| >= 3 && us[0] == Word("kind") && us[1] == Word("IN") && us[2] == Left then ReadNumbers(us[3..]) else None
  }

  /** The two parentheses at the end of a tag subquery. */
  function ReadEnd(w: Narrowing, us: seq<Unit>): (r: Option<Reading<Narrowing>>)
    ensures r.Some? ==> |r.value.rest| < |us|
  {
    if |us| >= 2 && us[0] == Right && us[1] == Right then Some(Reading(w, us[2..])) else None
  }

  function ReadUntil(kinds: Option<seq<nat>>, since: Option<nat>, us: seq<Unit>): (r: Option<Reading<Narrowing>>)
    ensures r.Some? ==> |r.value.rest| < |us|
  {
    if |us| >= 1 && us[0] == Word("AND") then
      match ReadBound(us[1..])
      case Some(Reading(CreatedTo(until), rest)) => ReadEnd(Narrowing(kinds, since, Some(until)), rest)
      case _ => None
    else ReadEnd(Narrowing(kinds, since, None), us)
  }

  function ReadSince(kinds: Option<seq<nat>>, us: seq<Unit>): (r: Option<Reading<Narrowing>>)
    ensures r.Some? ==> |r.value.rest| < |us|
  {
    if |us| >= 1 && us[0] == Word("AND") then
      match ReadBound(us[1..])
      case Some(Reading(CreatedFrom(since), rest)) => ReadUntil(kinds, Some(since), rest)
      case _ => ReadUntil(kinds, None, us)
    else ReadUntil(kinds, None, us)
  }

  /** The conditions a tag subquery may repeat, up to its end. */
  function ReadNarrowing(us: seq<Unit>): (r: Option<Reading<Narrowing>>)
    ensures r.Some? ==> |r.value.rest| < |us|
  {
    if |us| >= 1 && us[0] == Word("AND") then
      match ReadKinds(us[1..])
      case Some(kinds) => ReadSince(Some(kinds.value), kinds.rest)
      case None => ReadSince(None, us)
    else ReadSince(None, us)
  }

  /** After `e.id IN (SELECT ... WHERE (`. */
  function ReadTagQuery(us: seq<Unit>): (r: Option<Reading<Clause>>)
    ensures r.Some? ==> |r.value.rest| < |us|
  {
    if |us| >= 7 && us[0] == Word("name") && us[1] == Equal && us[2] == Mark && us[3] == Word("AND")
       && us[4] == Word("value") then
      if us[5] == Word("IN") && us[6] == Left then
        match ReadMarks(us[7..])
        case None => None
        case Some(values) =>
          match ReadNarrowing(values.rest)
          case None => None
          case Some(w) => Some(Reading(TagValueIn(values.value, w.value), w.rest))
      else if us[5] == Equal && us[6] == Mark then
        match ReadNarrowing(us[7..])
        case None => None
        case Some(w) => Some(Reading(TagValueIs(w.value), w.rest))
      else None
    else None
  }

  function ReadAnyOf(us: seq<Unit>): (r: Option<Reading<Clause>>)
    ensures r.Some? ==> |r.value.rest| < |us|
  {
    match ReadEqualities("author", us)
    case Some(r) => Some(Reading(AuthorIs(r.value), r.rest))
    case None =>
      match ReadEqualities("event_hash", us)
      case Some(r) => Some(Reading(HashIs(r.value), r.rest))
      case None => None
  }

  const AMONG_TAGS := [Word("e.id"), Word("IN"), Left, Word("SELECT"), Word("t.event_id")]
  const FROM_TAG := [Word("FROM"), Word("tag"), Word("t"), Word("WHERE"), Left]
  const UNEXPIRED :=
    [Left, Word("expires_at"), Word("IS"), Word("NULL"), Word("OR"), Word("expires_at"), Above, Mark, Right]

  function ReadClause(us: seq<Unit>): (r: Option<Reading<Clause>>)
    ensures r.Some? ==> |r.value.rest| < |us|
  {
    if us == [] then None
    else
      match us[0]
      case Left => if UNEXPIRED <= us then Some(Reading(Unexpired, us[9..])) else ReadAnyOf(us[1..])
      case Word(w) =>
        if w == "false" then Some(Reading(Never, us[1..]))
        else if w == "kind" then
          match ReadKinds(us)
          case Some(r) => Some(Reading(KindIn(r.value), r.rest))
          case None => None
        else if w == "created_at" then ReadBound(us)
        else if AMONG_TAGS + FROM_TAG <= us then ReadTagQuery(us[10..])
        else None
      case _ => None
  }

  // ---- a whole statement --------------------------------------------------------------------

  const BY_TIME := [Word("ORDER"), Word("BY"), Word("e.created_at")]

  function ReadOrder(us: seq<Unit>): Option<Order> {
    if |us| == 6 && us[..5] == BY_TIME + [Word("DESC"), Word("LIMIT")] && us[5].Num? then Some(Newest(us[5].number))
    else if us == BY_TIME + [Word("ASC")] then Some(Oldest)
    else None
  }

  /** Conditions with AND between them, then the order. */
  function ReadClauses(index: Option<string>, us: seq<Unit>): Option<Select>
    decreases |us|
  {
    match ReadClause(us)
    case None => None
    case Some(first) =>
      if |first.rest| >= 1 && first.rest[0] == Word("AND") then
        match ReadClauses(index, first.rest[1..])
        case Some(Rows(_, others, order)) => Some(Rows(index, [first.value] + others, order))
        case _ => None
      else
        match ReadOrder(first.rest)
        case None => None
        case Some(order) => Some(Rows(index, [first.value], order))
  }

  const VISIBLE := [Word("WHERE"), Word("hidden"), NotEqual, Word("TRUE"), Word("AND")]

  /** After the table and its index. */
  function ReadWhere(index: Option<string>, us: seq<Unit>): Option<Select> {
    if us == [Word("WHERE"), Num(1), Equal, Num(0)] then Some(Nothing)
    else if VISIBLE <= us then ReadClauses(index, us[5..])
    else None
  }

  const SELECTION := [Word("SELECT"), Word("e.content"), Word("FROM"), Word("event"), Word("e")]

  function ReadSelect(us: seq<Unit>): Option<Select> {
    if SELECTION <= us then
      if |us| >= 8 && us[5] == Word("INDEXED") && us[6] == Word("BY") && us[7].Word?
      then ReadWhere(Some(us[7].word), us[8..])
      else ReadWhere(None, us[5..])
    else None
  }

  /** What the text of a statement asks for. */
  function ReadQuery(text: string): Option<Select> {
    ReadSelect(Lex(text))
  }
}
