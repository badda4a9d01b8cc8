/**
 SQL as characters: the lexical units of a statement and the scanner that finds them. Words are keywords
 and the names of tables, columns and indexes; spaces separate and mean nothing.
 */
module SqlText {
  import Text

  datatype Unit =
    | Word(word: string) | Num(number: nat) | Mark
    | Left | Right | Separator
    | Equal | NotEqual | AtMost | AtLeast | Above
    | Other(sign: char)

  predicate WordChar(c: char) {
    'a' <= c <= 'z' || 'A' <= c <= 'Z' || '0' <= c <= '9' || c == '_' || c == '.'
  }

  /** The length of the word at the start of a text. */
  function WordLength(s: string): (n: nat)
    ensures n <= |s|
  {
    if s == "" || !WordChar(s[0]) then 0 else 1 + WordLength(s[1..])
  }

  /** How much of a text its first unit takes: a word, or the longer of the signs that could start it. */
  function Taken(s: string): (n: nat)
    requires s != ""
    ensures 0 < n <= |s|
  {
    if WordChar(s[0]) then WordLength(s)
    else if |s| >= 2 && s[1] == '=' && s[0] in {'!', '<', '>'} then 2
    else 1
  }

  function WordUnit(w: string): Unit {
    if Text.AllDecimal(w) then Num(Text.DecimalValue(w)) else Word(w)
  }

  function SignUnit(s: string): Unit
    requires s != ""
  {
    if |s| == 2 then if s[0] == '!' then NotEqual else if s[0] == '<' then AtMost else AtLeast
    else
      match s[0]
      case '?' => Mark
      case '(' => Left
      case ')' => Right
      case ',' => Separator
      case '=' => Equal
      case '>' => Above
      case c => Other(c)
  }

  /** What the text of one unit, or a space, amounts to. */
  function UnitsOf(s: string): seq<Unit>
    requires s != ""
  {
    if s == " " then [] else if WordChar(s[0]) then [WordUnit(s)] else [SignUnit(s)]
  }

  /** The units of a text, from left to right. */
  function Lex(s: string): seq<Unit> {
    if s == "" then [] else UnitsOf(s[..Taken(s)]) + Lex(s[Taken(s)..])
  }

  // ---- one unit ---------------------------------------------------------------------

  /** A word that is no number. */
  predicate IsName(w: string) {
    w != "" && !Text.IsDecimal(w[0]) && forall i :: 0 <= i < |w| ==> WordChar(w[i])
  }

  function Spelling(u: Unit): string {
    match u
    case Word(w) => w
    case Num(n) => Text.ToDecimal(n)
    case Mark => "?"
    case Left => "("
    case Right => ")"
    case Separator => ","
    case Equal => "="
    case NotEqual => "!="
    case AtMost => "<="
    case AtLeast => ">="
    case Above => ">"
    case Other(c) => [c]
  }

  predicate Spellable(u: Unit) {
    match u
    case Word(w) => IsName(w)
    case Other(_) => false
    case _ => true
  }

  predicate Wordy(u: Unit) {
    u.Word? || u.Num?
  }

  /** The text that follows is not taken into the unit. */
  predicate Meets(u: Unit, r: string) {
    r == "" || ((Wordy(u) ==> !WordChar(r[0])) && (u == Above ==> r[0] != '='))
  }

  lemma {:induction false} WordEnds(w: string, r: string)
    requires (forall i :: 0 <= i < |w| ==> WordChar(w[i])) && (r == "" || !WordChar(r[0]))
    ensures WordLength(w + r) == |w|
  {
    if w != "" {
      assert (w + r)[1..] == w[1..] + r;
      WordEnds(w[1..], r);
    } else {
      assert w + r == r;
    }
  }

  lemma LexFirst(a: string, r: string)
    requires a != "" && Taken(a + r) == |a|
    ensures Lex(a + r) == UnitsOf(a) + Lex(r)
  {
    assert (a + r)[..|a|] == a && (a + r)[|a|..] == r;
  }

  lemma LexSpace(r: string)
    ensures Lex(" " + r) == Lex(r)
  {
    LexFirst(" ", r);
  }

  lemma LexWord(w: string, r: string)
    requires w != "" && (forall i :: 0 <= i < |w| ==> WordChar(w[i])) && (r == "" || !WordChar(r[0]))
    ensures Lex(w + r) == [WordUnit(w)] + Lex(r)
  {
    WordEnds(w, r);
    assert WordChar(w[0]) && (w + r)[0] == w[0];
    LexFirst(w, r);
  }

  lemma LexNumber(n: nat, r: string)
    requires r == "" || !WordChar(r[0])
    ensures Lex(Text.ToDecimal(n) + r) == [Num(n)] + Lex(r)
  {
    var w := Text.ToDecimal(n);
    assert forall i :: 0 <= i < |w| ==> Text.IsDecimal(w[i]);
    Text.DecimalRoundTrip(n);
    LexWord(w, r);
  }

  lemma LexSign(u: Unit, r: string)
    requires Spellable(u) && !Wordy(u) && Meets(u, r)
    ensures Lex(Spelling(u) + r) == [u] + Lex(r)
  {
    var s := Spelling(u);
    assert |s| == 1 && r != "" ==> (s + r)[1] == r[0];
    LexFirst(s, r);
  }

  lemma LexUnit(u: Unit, r: string)
    requires Spellable(u) && Meets(u, r)
    ensures Lex(Spelling(u) + r) == [u] + Lex(r)
  {
    match u
    case Word(w) => LexWord(w, r);
    case Num(n) => LexNumber(n, r);
    case _ => LexSign(u, r);
  }

  // ---- units with spaces ----------------------------------------------------------------

  /** A unit, with or without a space after it. */
  datatype Piece = Piece(unit: Unit, gap: bool)

  function Written(p: Piece): string {
    if p.gap then Spelling(p.unit) + " " else Spelling(p.unit)
  }

  function Spell(ps: seq<Piece>): string {
    if ps == [] then "" else Written(ps[0]) + Spell(ps[1..])
  }

  function Units(ps: seq<Piece>): seq<Unit> {
    seq(|ps|, i requires 0 <= i < |ps| => ps[i].unit)
  }

  /** The second unit may stand right after the first. */
  predicate Joins(u: Unit, v: Unit) {
    !(Wordy(u) && Wordy(v)) && !(u == Above && v == Equal)
  }

  predicate WellSpaced(ps: seq<Piece>) {
    (forall i :: 0 <= i < |ps| ==> Spellable(ps[i].unit))
    && (forall i :: 0 <= i < |ps| - 1 ==> ps[i].gap || Joins(ps[i].unit, ps[i + 1].unit))
  }

  lemma JoinsMeets(u: Unit, v: Unit, r: string)
    requires Spellable(v) && Joins(u, v)
    ensures Meets(u, Spelling(v) + r)
  {
    if v.Num? {
      assert Text.IsDecimal(Text.ToDecimal(v.number)[0]);
    }
  }

  lemma LexPiece(p: Piece, r: string)
    requires Spellable(p.unit) && (p.gap || Meets(p.unit, r))
    ensures Lex(Written(p) + r) == [p.unit] + Lex(r)
  {
    if p.gap {
      assert Written(p) + r == Spelling(p.unit) + (" " + r);
      LexUnit(p.unit, " " + r);
      LexSpace(r);
    } else {
      LexUnit(p.unit, r);
    }
  }

  lemma SpellOne(p: Piece)
    ensures Spell([p]) == Written(p)
  {
    assert Spell([p][1..]) == "";
  }

  lemma SpellTwo(p: Piece, q: Piece)
    ensures Spell([p, q]) == Written(p) + Written(q)
  {
    SpellOne(q);
    assert [p, q][1..] == [q];
  }

  lemma SpellThree(p: Piece, q: Piece, r: Piece)
    ensures Spell([p, q, r]) == Written(p) + (Written(q) + Written(r))
  {
    SpellTwo(q, r);
    assert [p, q, r][1..] == [q, r];
  }

  lemma SpellFour(p: Piece, q: Piece, r: Piece, s: Piece)
    ensures Spell([p, q, r, s]) == Written(p) + (Written(q) + (Written(r) + Written(s)))
  {
    SpellThree(q, r, s);
    assert [p, q, r, s][1..] == [q, r, s];
  }

  lemma {:induction false} SpellConcat(a: seq<Piece>, b: seq<Piece>)
    ensures Spell(a + b) == Spell(a) + Spell(b)
  {
    if a == [] {
      assert a + b == b;
    } else {
      assert (a + b)[1..] == a[1..] + b;
      SpellConcat(a[1..], b);
    }
  }

  lemma SpellCut(ps: seq<Piece>, r: string)
    requires ps != []
    ensures Spell(ps) + r == Written(ps[0]) + (Spell(ps[1..]) + r)
  {
  }

  lemma SpellStart(ps: seq<Piece>, r: string) returns (rest: string)
    requires ps != []
    ensures Spell(ps) + r == Spelling(ps[0].unit) + rest
  {
    rest := (if ps[0].gap then " " else "") + (Spell(ps[1..]) + r);
    SpellCut(ps, r);
  }

  lemma SpellMeets(ps: seq<Piece>, r: string)
    requires WellSpaced(ps) && ps != []
    requires !ps[|ps| - 1].gap ==> Meets(ps[|ps| - 1].unit, r)
    ensures ps[0].gap || Meets(ps[0].unit, Spell(ps[1..]) + r)
  {
    if |ps| == 1 {
      assert Spell(ps[1..]) + r == r;
    } else if !ps[0].gap {
      var rest := SpellStart(ps[1..], r);
      JoinsMeets(ps[0].unit, ps[1].unit, rest);
    }
  }

  lemma FirstAndRest(p: Piece, ps: seq<Piece>, us: seq<Unit>)
    ensures [p.unit] + (Units(ps) + us) == Units([p] + ps) + us
  {
  }

  /** Well-spaced units are found again in their text. */
  lemma {:induction false} LexSpelled(ps: seq<Piece>, r: string)
    requires WellSpaced(ps)
    requires ps != [] && !ps[|ps| - 1].gap ==> Meets(ps[|ps| - 1].unit, r)
    ensures Lex(Spell(ps) + r) == Units(ps) + Lex(r)
  {
    if ps == [] {
      LexNone(r);
    } else {
      LexSpelled(ps[1..], r);
      SpellMeets(ps, r);
      SpellCut(ps, r);
      LexPiece(ps[0], Spell(ps[1..]) + r);
      FirstAndRest(ps[0], ps[1..], Lex(r));
      assert [ps[0]] + ps[1..] == ps;
    }
  }

  lemma LexNone(r: string)
    ensures Lex(Spell([]) + r) == Units([]) + Lex(r)
  {
    assert Spell([]) + r == r;
  }
}
