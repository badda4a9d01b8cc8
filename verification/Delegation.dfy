/** Delegation conditions, NIP-26 (src/delegation.rs). */
module Delegation {
  import opened Wrappers
  import opened Events
  import Text

  datatype Field = Kind | CreatedAt

  datatype Operator = LessThan | GreaterThan | Equals | NotEquals

  datatype Condition = Condition(field: Field, operator: Operator, values: seq<nat>)

  // ---- meaning ------------------------------------------------------------------------

  predicate AllowsEvent(c: Condition, e: Event) {
    var x := match c.field case Kind => e.kind case CreatedAt => e.createdAt;
    match c.operator
    case LessThan => |c.values| == 1 && x < c.values[0]
    case GreaterThan => |c.values| == 1 && x > c.values[0]
    case Equals => x in c.values
    case NotEquals => x !in c.values
  }

  predicate QueryAllows(cs: seq<Condition>, e: Event) {
    forall i :: 0 <= i < |cs| ==> AllowsEvent(cs[i], e)
  }

  /** More conditions, fewer events: exactly those both parts allow. */
  lemma AppendNarrows(a: seq<Condition>, b: seq<Condition>, e: Event)
    ensures QueryAllows(a + b, e) <==> QueryAllows(a, e) && QueryAllows(b, e)
  {
    if QueryAllows(a + b, e) {
      forall i | 0 <= i < |a| ensures AllowsEvent(a[i], e) { assert (a + b)[i] == a[i]; }
      forall i | 0 <= i < |b| ensures AllowsEvent(b[i], e) { assert (a + b)[|a| + i] == b[i]; }
    }
  }

  // ---- the regular expression -------------------------------------------------------------

  /** The three character classes of ([[:word:]]+)([<>=!]+)([,[[:digit:]]]*) */
  datatype Class = Word | Op | Val

  predicate Within(k: Class, c: char) {
    match k
    case Word => 'a' <= c <= 'z' || 'A' <= c <= 'Z' || '0' <= c <= '9' || c == '_'
    case Op => c == '<' || c == '>' || c == '=' || c == '!'
    case Val => c == ',' || '0' <= c <= '9'
  }

  predicate AllWithin(k: Class, s: string) {
    forall i :: 0 <= i < |s| ==> Within(k, s[i])
  }

  /** Where the run of the class that starts at `i` ends. */
  function RunEnd(k: Class, s: string, i: nat): (j: nat)
    requires i <= |s|
    ensures i <= j <= |s| && AllWithin(k, s[i..j]) && (j < |s| ==> !Within(k, s[j]))
    decreases |s| - i
  {
    if i < |s| && Within(k, s[i]) then RunEnd(k, s, i + 1) else i
  }

  /** The bounds of the three groups. */
  datatype Span = Span(i: nat, j: nat, k: nat, l: nat)

  predicate IsMatch(s: string, m: Span) {
    m.i < m.j < m.k <= m.l <= |s|
    && AllWithin(Word, s[m.i..m.j]) && AllWithin(Op, s[m.j..m.k]) && AllWithin(Val, s[m.k..m.l])
  }

  /** The search from position `i` on. */
  function Find(s: string, i: nat): Option<Span>
    requires i <= |s|
    decreases |s| - i
  {
    if i == |s| then None
    else if !Within(Word, s[i]) then Find(s, i + 1)
    else
      var j := RunEnd(Word, s, i);
      if j < |s| && Within(Op, s[j]) then
        var k := RunEnd(Op, s, j);
        Some(Span(i, j, k, RunEnd(Val, s, k)))
      else Find(s, j)
  }

  lemma SliceChar(k: Class, s: string, a: nat, b: nat, x: nat)
    requires a <= x < b <= |s| && AllWithin(k, s[a..b])
    ensures Within(k, s[x])
  {
    assert s[a..b][x - a] == s[x];
  }

  /** A match that starts inside a run of word characters takes the run to its end. */
  lemma MatchTakesRun(s: string, i: nat, m: Span)
    requires i <= m.i && IsMatch(s, m) && m.i < RunEnd(Word, s, i)
    ensures m.j == RunEnd(Word, s, i) && m.j < |s| && Within(Op, s[m.j])
  {
    var j := RunEnd(Word, s, i);
    SliceChar(Op, s, m.j, m.k, m.j);
    if m.j < j {
      SliceChar(Word, s, i, j, m.j);
    } else if m.j > j {
      SliceChar(Word, s, m.i, m.j, j);
    }
  }

  /** `Find` is the regular expression's search: a leftmost match, greedy in every group, or none at all. */
  lemma {:induction false} FindIsLeftmost(s: string, i: nat, m: Span)
    requires i <= |s| && i <= m.i && IsMatch(s, m)
    ensures Find(s, i).Some?
    ensures
      var f := Find(s, i).value;
      IsMatch(s, f) && f.i <= m.i && (m.i == f.i ==> m.j == f.j && m.k <= f.k && (m.k == f.k ==> m.l <= f.l))
    decreases |s| - i
  {
    if !Within(Word, s[i]) {
      if m.i == i { SliceChar(Word, s, m.i, m.j, i); }
      FindIsLeftmost(s, i + 1, m);
    } else {
      var j := RunEnd(Word, s, i);
      assert j > i;
      if j < |s| && Within(Op, s[j]) {
        var k := RunEnd(Op, s, j);
        assert k > j;
        if m.i == i {
          MatchTakesRun(s, i, m);
          if m.k > k { SliceChar(Op, s, m.j, m.k, k); }
          if m.k == k && m.l > RunEnd(Val, s, k) { SliceChar(Val, s, m.k, m.l, RunEnd(Val, s, k)); }
        }
      } else {
        if m.i < j { MatchTakesRun(s, i, m); }
        FindIsLeftmost(s, j, m);
      }
    }
  }

  // ---- parsing ------------------------------------------------------------------------------

  function ParseField(s: string): Option<Field> {
    if s == "kind" then Some(Kind) else if s == "created_at" then Some(CreatedAt) else None
  }

  function ParseOperator(s: string): Option<Operator> {
    if s == "<" then Some(LessThan)
    else if s == ">" then Some(GreaterThan)
    else if s == "=" then Some(Equals)
    else if s == "!" then Some(NotEquals)
    else None
  }

  /** All numbers, or nothing. */
  function ParseAll(parts: seq<string>): Option<seq<nat>> {
    Collect(seq(|parts|, i requires 0 <= i < |parts| => Text.ParseU64(parts[i])))
  }

  /** The condition the three groups of a match stand for. */
  function ConditionOf(word: string, op: string, vals: string): Option<Condition> {
    var field, operator, values := ParseField(word), ParseOperator(op), ParseAll(Text.SplitTerminator(vals, ','));
    if field.Some? && operator.Some? && values.Some?
    then Some(Condition(field.value, operator.value, values.value)) else None
  }

  function StrToCondition(s: string): Option<Condition> {
    match Find(s, 0)
    case None => None
    case Some(m) =>
      FindBounds(s, 0);
      ConditionAt(s, m)
  }

  function ConditionAt(s: string, m: Span): Option<Condition>
    requires IsMatch(s, m)
  {
    ConditionOf(s[m.i..m.j], s[m.j..m.k], s[m.k..m.l])
  }

  lemma {:induction false} FindBounds(s: string, i: nat)
    requires i <= |s|
    ensures Find(s, i).Some? ==> IsMatch(s, Find(s, i).value)
    decreases |s| - i
  {
    if i < |s| {
      if !Within(Word, s[i]) {
        FindBounds(s, i + 1);
      } else {
        var j := RunEnd(Word, s, i);
        assert j > i;
        if !(j < |s| && Within(Op, s[j])) {
          FindBounds(s, j);
        } else {
          assert RunEnd(Op, s, j) > j;
        }
      }
    }
  }

  function Parsed(parts: seq<string>): seq<Option<Condition>> {
    seq(|parts|, i requires 0 <= i < |parts| => StrToCondition(parts[i]))
  }

  function ParseQuery(value: string): Option<seq<Condition>> {
    Collect(Parsed(Text.SplitTerminator(value, '&')))
  }

  /** `ConditionQuery::from_str` */
  method FromStr(value: string) returns (r: Option<seq<Condition>>)
    ensures r == ParseQuery(value)
  {
    var parts := Text.SplitTerminator(value, '&');
    var conditions := [];
    ghost var all := Parsed(parts);
    for i := 0 to |parts|
      invariant Collect(all[..i]) == Some(conditions)
    {
      var c := StrToCondition(parts[i]);
      assert all[i] == c;
      if c.None? {
        CollectNone(all, i);
        return None;
      }
      CollectPush(all, i, conditions, c.value);
      conditions := conditions + [c.value];
    }
    assert all[..|parts|] == all;
    r := Some(conditions);
  }

  // ---- canonical text and the round trip --------------------------------------------------------

  function FieldText(f: Field): string {
    match f case Kind => "kind" case CreatedAt => "created_at"
  }

  function OperatorText(o: Operator): string {
    match o case LessThan => "<" case GreaterThan => ">" case Equals => "=" case NotEquals => "!"
  }

  function Decimals(values: seq<nat>): seq<string> {
    seq(|values|, i requires 0 <= i < |values| => Text.ToDecimal(values[i]))
  }

  function ConditionText(c: Condition): string {
    FieldText(c.field) + OperatorText(c.operator) + Text.Join(Decimals(c.values), ",")
  }

  function ConditionTexts(cs: seq<Condition>): seq<string> {
    seq(|cs|, i requires 0 <= i < |cs| => ConditionText(cs[i]))
  }

  function QueryText(cs: seq<Condition>): string {
    Text.Join(ConditionTexts(cs), "&")
  }

  predicate U64Values(c: Condition) {
    forall i :: 0 <= i < |c.values| ==> c.values[i] < Text.U64_LIMIT
  }

  lemma FieldIsWord(f: Field)
    ensures FieldText(f) != [] && AllWithin(Word, FieldText(f))
  {
  }

  lemma OperatorIsOp(o: Operator)
    ensures |OperatorText(o)| == 1 && Within(Op, OperatorText(o)[0]) && !Within(Word, OperatorText(o)[0])
  {
  }

  lemma {:induction false} JoinIsVal(parts: seq<string>)
    requires forall i :: 0 <= i < |parts| ==> Text.AllDecimal(parts[i])
    ensures AllWithin(Val, Text.Join(parts, ","))
  {
    if |parts| == 1 {
      assert Text.AllDecimal(parts[0]);
    } else if |parts| > 1 {
      JoinIsVal(parts[1..]);
      assert Text.AllDecimal(parts[0]);
      assert Within(Val, ',');
    }
  }

  /** A run covers a stretch of its class that is followed by something else. */
  lemma {:induction false} RunEndAt(k: Class, s: string, i: nat, j: nat)
    requires i <= j <= |s| && AllWithin(k, s[i..j]) && (j < |s| ==> !Within(k, s[j]))
    ensures RunEnd(k, s, i) == j
    decreases j - i
  {
    if i < j {
      SliceChar(k, s, i, j, i);
      assert s[i + 1..j] == s[i..j][1..];
      RunEndAt(k, s, i + 1, j);
    }
  }

  lemma FindStretches(s: string, j: nat)
    requires 0 < j < |s| && AllWithin(Word, s[0..j]) && Within(Op, s[j]) && AllWithin(Val, s[j + 1..|s|])
    ensures Find(s, 0) == Some(Span(0, j, j + 1, |s|))
  {
    SliceChar(Word, s, 0, j, 0);
    RunEndAt(Word, s, 0, j);
    assert s[j..j + 1] == [s[j]];
    if j + 1 < |s| { SliceChar(Val, s, j + 1, |s|, j + 1); }
    RunEndAt(Op, s, j, j + 1);
    RunEndAt(Val, s, j + 1, |s|);
  }

  lemma Stretches(word: string, op: string, vals: string, s: string)
    requires |op| == 1 && s == word + op + vals
    ensures s[0..|word|] == word && s[|word|..|word| + 1] == op && s[|word|] == op[0] && s[|word| + 1..|s|] == vals
  {
  }

  lemma ParseAllDecimals(values: seq<nat>)
    requires forall i :: 0 <= i < |values| ==> values[i] < Text.U64_LIMIT
    ensures ParseAll(Decimals(values)) == Some(values)
  {
    var parts := Decimals(values);
    forall i | 0 <= i < |values| ensures Text.ParseU64(parts[i]) == Some(values[i]) {
      Text.ParseU64RoundTrip(values[i]);
    }
    CollectSome(seq(|parts|, i requires 0 <= i < |parts| => Text.ParseU64(parts[i])), values);
  }

  lemma SplitDecimals(values: seq<nat>)
    ensures Text.SplitTerminator(Text.Join(Decimals(values), ","), ',') == Decimals(values)
    ensures AllWithin(Val, Text.Join(Decimals(values), ","))
  {
    var parts := Decimals(values);
    forall i | 0 <= i < |parts| ensures ',' !in parts[i] && Text.AllDecimal(parts[i]) && parts[i] != [] {
      assert forall j :: 0 <= j < |parts[i]| ==> Text.IsDecimal(parts[i][j]);
    }
    Text.SplitTerminatorJoin(parts, ',');
    assert "," == [','];
    JoinIsVal(parts);
  }

  lemma ParseFieldText(f: Field)
    ensures ParseField(FieldText(f)) == Some(f)
  {
    assert |"kind"| != |"created_at"|;
  }

  lemma ParseOperatorText(o: Operator)
    ensures ParseOperator(OperatorText(o)) == Some(o)
  {
    assert "<"[0] == '<' && ">"[0] == '>' && "="[0] == '=' && "!"[0] == '!';
  }

  lemma FoundWhole(c: Condition)
    ensures
      var word, op, vals := FieldText(c.field), OperatorText(c.operator), Text.Join(Decimals(c.values), ",");
      word != [] && |op| == 1
      && Find(word + op + vals, 0) == Some(Span(0, |word|, |word| + 1, |word| + 1 + |vals|))
  {
    var word, op, vals := FieldText(c.field), OperatorText(c.operator), Text.Join(Decimals(c.values), ",");
    FieldIsWord(c.field);
    OperatorIsOp(c.operator);
    SplitDecimals(c.values);
    Stretches(word, op, vals, word + op + vals);
    FindStretches(word + op + vals, |word|);
  }

  lemma PartsParse(c: Condition)
    requires U64Values(c)
    ensures ConditionOf(FieldText(c.field), OperatorText(c.operator), Text.Join(Decimals(c.values), ",")) == Some(c)
  {
    ParseFieldText(c.field);
    ParseOperatorText(c.operator);
    SplitDecimals(c.values);
    ParseAllDecimals(c.values);
  }

  lemma ParsesByStretches(word: string, op: string, vals: string, s: string)
    requires |op| == 1 && s == word + op + vals
    requires Find(s, 0) == Some(Span(0, |word|, |word| + 1, |word| + 1 + |vals|))
    ensures StrToCondition(s) == ConditionOf(word, op, vals)
  {
    FindBounds(s, 0);
    ConditionAtStretches(word, op, vals, s);
  }

  lemma ConditionAtStretches(word: string, op: string, vals: string, s: string)
    requires |op| == 1 && s == word + op + vals
    requires IsMatch(s, Span(0, |word|, |word| + 1, |word| + 1 + |vals|))
    ensures ConditionAt(s, Span(0, |word|, |word| + 1, |word| + 1 + |vals|)) == ConditionOf(word, op, vals)
  {
    Stretches(word, op, vals, s);
  }

  lemma ConditionRoundTrip(c: Condition)
    requires U64Values(c)
    ensures StrToCondition(ConditionText(c)) == Some(c)
  {
    FoundWhole(c);
    PartsParse(c);
    WholeParses(c, FieldText(c.field), OperatorText(c.operator), Text.Join(Decimals(c.values), ","));
  }

  lemma WholeParses(c: Condition, word: string, op: string, vals: string)
    requires |op| == 1 && ConditionOf(word, op, vals) == Some(c)
    requires Find(word + op + vals, 0) == Some(Span(0, |word|, |word| + 1, |word| + 1 + |vals|))
    ensures StrToCondition(word + op + vals) == Some(c)
  {
    ParsesByStretches(word, op, vals, word + op + vals);
  }

  lemma ConditionHasNoAmp(c: Condition)
    ensures ConditionText(c) != [] && '&' !in ConditionText(c)
  {
    FieldIsWord(c.field);
    OperatorIsOp(c.operator);
    SplitDecimals(c.values);
    var s := ConditionText(c);
    var vals := Text.Join(Decimals(c.values), ",");
    assert !Within(Word, '&') && !Within(Op, '&') && !Within(Val, '&');
    assert forall i :: 0 <= i < |vals| ==> Within(Val, vals[i]);
    assert '&' !in vals && '&' !in FieldText(c.field) && '&' !in OperatorText(c.operator);
  }

  /** Round trip: the canonical text of any list of conditions parses to that list. */
  lemma QueryRoundTrip(cs: seq<Condition>)
    requires forall i :: 0 <= i < |cs| ==> U64Values(cs[i])
    ensures ParseQuery(QueryText(cs)) == Some(cs)
  {
    var texts := ConditionTexts(cs);
    forall i | 0 <= i < |texts|
      ensures '&' !in texts[i] && texts[i] != [] && StrToCondition(texts[i]) == Some(cs[i])
    {
      ConditionHasNoAmp(cs[i]);
      ConditionRoundTrip(cs[i]);
    }
    assert "&" == ['&'];
    Text.SplitTerminatorJoin(texts, '&');
    CollectSome(Parsed(texts), cs);
  }

  // ---- what a text allows --------------------------------------------------------------------------

  predicate TextAllows(text: string, e: Event) {
    var q := ParseQuery(text);
    q.Some? && QueryAllows(q.value, e)
  }

  lemma OneText(c: Condition)
    requires U64Values(c)
    ensures ParseQuery(ConditionText(c)) == Some([c])
  {
    QueryRoundTrip([c]);
    assert ConditionTexts([c]) == [ConditionText(c)];
  }

  lemma JoinTwo(a: string, b: string, sep: string)
    ensures Text.Join([a, b], sep) == a + sep + b
  {
    assert [a, b][1..] == [b];
  }

  lemma TwoTexts(c: Condition, d: Condition)
    requires U64Values(c) && U64Values(d)
    ensures ParseQuery(ConditionText(c) + "&" + ConditionText(d)) == Some([c, d])
  {
    QueryRoundTrip([c, d]);
    assert ConditionTexts([c, d]) == [ConditionText(c), ConditionText(d)];
    JoinTwo(ConditionText(c), ConditionText(d), "&");
  }

  lemma FewAllow(c: Condition, d: Condition, e: Event)
    ensures QueryAllows([c], e) <==> AllowsEvent(c, e)
    ensures QueryAllows([c, d], e) <==> AllowsEvent(c, e) && AllowsEvent(d, e)
  {
    assert [c][0] == c && [c, d][0] == c && [c, d][1] == d;
  }

  /** What the text of one condition, and of two, allows. */
  lemma TextMeans(c: Condition, d: Condition, e: Event)
    requires U64Values(c) && U64Values(d)
    ensures TextAllows(ConditionText(c), e) <==> AllowsEvent(c, e)
    ensures TextAllows(ConditionText(c) + "&" + ConditionText(d), e) <==> AllowsEvent(c, e) && AllowsEvent(d, e)
  {
    OneText(c);
    TwoTexts(c, d);
    FewAllow(c, d, e);
  }

  lemma BoundTexts(a: nat, b: nat)
    ensures "created_at>" + Text.ToDecimal(a) == ConditionText(Condition(CreatedAt, GreaterThan, [a]))
    ensures "created_at<" + Text.ToDecimal(b) == ConditionText(Condition(CreatedAt, LessThan, [b]))
  {
    assert Decimals([a]) == [Text.ToDecimal(a)] && Decimals([b]) == [Text.ToDecimal(b)];
    assert "created_at>" == "created_at" + ">" && "created_at<" == "created_at" + "<";
  }

  lemma BoundsAllow(a: nat, b: nat, e: Event)
    ensures AllowsEvent(Condition(CreatedAt, GreaterThan, [a]), e) <==> e.createdAt > a
    ensures AllowsEvent(Condition(CreatedAt, LessThan, [b]), e) <==> e.createdAt < b
  {
  }

  /** `created_at>a&created_at<b` allows the events strictly between. */
  lemma WindowExactly(a: nat, b: nat, e: Event)
    requires a < 18446744073709551616 && b < 18446744073709551616
    ensures TextAllows("created_at>" + Text.ToDecimal(a) + "&" + ("created_at<" + Text.ToDecimal(b)), e)
      <==> a < e.createdAt < b
  {
    BoundTexts(a, b);
    BoundsAllow(a, b, e);
    TextMeans(Condition(CreatedAt, GreaterThan, [a]), Condition(CreatedAt, LessThan, [b]), e);
  }

  lemma KindTexts(kinds: seq<nat>)
    ensures "kind=" + Text.Join(Decimals(kinds), ",") == ConditionText(Condition(Kind, Equals, kinds))
    ensures "kind!" + Text.Join(Decimals(kinds), ",") == ConditionText(Condition(Kind, NotEquals, kinds))
  {
    assert "kind=" == "kind" + "=" && "kind!" == "kind" + "!";
  }

  /** `kind=k1,k2,...` allows the events of these kinds, `kind!k1,k2,...` all others. */
  lemma KindsExactly(kinds: seq<nat>, e: Event)
    requires forall i :: 0 <= i < |kinds| ==> kinds[i] < 18446744073709551616
    ensures TextAllows("kind=" + Text.Join(Decimals(kinds), ","), e) <==> e.kind in kinds
    ensures TextAllows("kind!" + Text.Join(Decimals(kinds), ","), e) <==> e.kind !in kinds
  {
    var among, others := Condition(Kind, Equals, kinds), Condition(Kind, NotEquals, kinds);
    KindTexts(kinds);
    TextMeans(among, others, e);
    TextMeans(others, among, e);
  }

  /** A bound with more than one value, or none, allows nothing. */
  lemma NoSingleBound(field: Field, values: seq<nat>, e: Event)
    requires |values| != 1 && forall i :: 0 <= i < |values| ==> values[i] < 18446744073709551616
    ensures !TextAllows(ConditionText(Condition(field, LessThan, values)), e)
    ensures !TextAllows(ConditionText(Condition(field, GreaterThan, values)), e)
  {
    var below, above := Condition(field, LessThan, values), Condition(field, GreaterThan, values);
    TextMeans(below, above, e);
    TextMeans(above, below, e);
  }
}
