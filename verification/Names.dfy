/** Name rules of the name authority (src/name_authority/names.rs). */
module Names {
  import Hex

  predicate IsLowerAlnum(c: char) {
    'a' <= c <= 'z' || '0' <= c <= '9'
  }

  predicate IsNameChar(c: char) {
    IsLowerAlnum(c) || c == '.' || c == '_' || c == '-'
  }

  /**
   * Length bounds, allowed characters, alphanumeric at both ends. The empty name, which only a zero
   * minimum lets past the bounds, has no first character to test: it is never accepted.
   */
  predicate ValidName(name: string, min: nat, max: nat) {
    min <= |name| <= max && name != []
    && (forall i :: 0 <= i < |name| ==> IsNameChar(name[i]))
    && IsLowerAlnum(name[0]) && IsLowerAlnum(name[|name| - 1])
  }

  predicate ValidPubkeyHex(pk: string) {
    Hex.IsKey(pk)
  }

  // ---- look-alike folding ---------------------------------------------------------

  predicate IsSeparator(c: char) {
    c == '.' || c == '_' || c == '-'
  }

  /** Digits that pass for letters. */
  function Letter(c: char): char {
    match c
    case '0' => 'o'
    case '1' => 'i'
    case '3' => 'e'
    case '4' => 'a'
    case '5' => 's'
    case '7' => 't'
    case '8' => 'b'
    case '9' => 'g'
    case _ => c
  }

  function FoldLookalike(name: string): string {
    if name == [] then []
    else (if IsSeparator(name[0]) then [] else [Letter(name[0])]) + FoldLookalike(name[1..])
  }

  lemma {:induction false} FoldConcat(a: string, b: string)
    ensures FoldLookalike(a + b) == FoldLookalike(a) + FoldLookalike(b)
  {
    if a == [] {
      assert a + b == b;
    } else {
      assert (a + b)[1..] == a[1..] + b;
      FoldConcat(a[1..], b);
    }
  }

  lemma {:induction false} FoldIdempotent(name: string)
    ensures FoldLookalike(FoldLookalike(name)) == FoldLookalike(name)
  {
    if name != [] {
      var head := if IsSeparator(name[0]) then [] else [Letter(name[0])];
      FoldIdempotent(name[1..]);
      FoldConcat(head, FoldLookalike(name[1..]));
      assert FoldLookalike(head) == head by {
        if head != [] { assert FoldLookalike(head[1..]) == []; }
      }
    }
  }

  lemma FoldOne(c: char)
    ensures FoldLookalike([c]) == if IsSeparator(c) then [] else [Letter(c)]
  {
  }

  lemma FoldAround(a: string, c: char, b: string)
    ensures FoldLookalike(a + [c] + b)
      == FoldLookalike(a) + (if IsSeparator(c) then [] else [Letter(c)]) + FoldLookalike(b)
  {
    FoldConcat(a + [c], b);
    FoldConcat(a, [c]);
    FoldOne(c);
  }

  // ---- reserved names -----------------------------------------------------------------

  /** Reserved outright or by look-alike, against the built-in list and the operator's own. */
  predicate IsReserved(name: string, builtin: seq<string>, extra: seq<string>) {
    name in builtin || name in extra
    || (exists i :: 0 <= i < |builtin| && FoldLookalike(builtin[i]) == FoldLookalike(name))
    || (exists i :: 0 <= i < |extra| && FoldLookalike(extra[i]) == FoldLookalike(name))
  }

  function FoldedSet(names: seq<string>): set<string> {
    set i | 0 <= i < |names| :: FoldLookalike(names[i])
  }

  /** The plain membership test is redundant: a name is reserved exactly when its fold is. */
  lemma ReservedByFold(name: string, builtin: seq<string>, extra: seq<string>)
    ensures IsReserved(name, builtin, extra)
      <==> FoldLookalike(name) in FoldedSet(builtin) + FoldedSet(extra)
  {
  }

  /** One disguise: a separator slipped in, or a letter written as a digit. */
  datatype Disguise = Separator(at: nat, c: char) | AsDigit(at: nat, c: char)

  /** The eight letters that a digit can stand for. */
  predicate PassesFor(digit: char, letter: char) {
    match letter
    case 'o' => digit == '0'
    case 'i' => digit == '1'
    case 'e' => digit == '3'
    case 'a' => digit == '4'
    case 's' => digit == '5'
    case 't' => digit == '7'
    case 'b' => digit == '8'
    case 'g' => digit == '9'
    case _ => false
  }

  predicate Applies(d: Disguise, name: string) {
    match d
    case Separator(at, c) => at <= |name| && (c == '.' || c == '_' || c == '-')
    case AsDigit(at, c) => at < |name| && PassesFor(c, name[at])
  }

  function Disguised(d: Disguise, name: string): string
    requires Applies(d, name)
  {
    match d
    case Separator(at, c) => name[..at] + [c] + name[at..]
    case AsDigit(at, c) => name[..at] + [c] + name[at + 1..]
  }

  predicate AllApply(ds: seq<Disguise>, name: string) {
    ds == [] || (Applies(ds[0], name) && AllApply(ds[1..], Disguised(ds[0], name)))
  }

  function DisguisedBy(ds: seq<Disguise>, name: string): string
    requires AllApply(ds, name)
  {
    if ds == [] then name else DisguisedBy(ds[1..], Disguised(ds[0], name))
  }

  lemma PassesAsLetter(digit: char, letter: char)
    requires PassesFor(digit, letter)
    ensures Letter(digit) == letter == Letter(letter) && !IsSeparator(digit) && !IsSeparator(letter)
  {
  }

  lemma DisguiseFolds(d: Disguise, name: string)
    requires Applies(d, name)
    ensures FoldLookalike(Disguised(d, name)) == FoldLookalike(name)
  {
    if d.Separator? {
      FoldAround(name[..d.at], d.c, name[d.at..]);
      assert name == name[..d.at] + name[d.at..];
      FoldConcat(name[..d.at], name[d.at..]);
    } else {
      var c := name[d.at];
      PassesAsLetter(d.c, c);
      FoldAround(name[..d.at], d.c, name[d.at + 1..]);
      assert name == name[..d.at] + [c] + name[d.at + 1..];
      FoldAround(name[..d.at], c, name[d.at + 1..]);
    }
  }

  /** However many separators and digits are worked in, a name stays reserved or stays free. */
  lemma {:induction false} DisguiseIsUseless(ds: seq<Disguise>, name: string, builtin: seq<string>, extra: seq<string>)
    requires AllApply(ds, name)
    ensures FoldLookalike(DisguisedBy(ds, name)) == FoldLookalike(name)
    ensures IsReserved(DisguisedBy(ds, name), builtin, extra) <==> IsReserved(name, builtin, extra)
  {
    if ds != [] {
      DisguiseFolds(ds[0], name);
      DisguiseIsUseless(ds[1..], Disguised(ds[0], name), builtin, extra);
      ReservedByFold(name, builtin, extra);
      ReservedByFold(DisguisedBy(ds, name), builtin, extra);
    }
  }

  // ---- the fold is what all disguises have in common -------------------------------------

  /** Disguises at the front of a name leave what follows alone. */
  lemma {:induction false} DisguiseFront(ds: seq<Disguise>, name: string, rest: string)
    requires AllApply(ds, name)
    ensures AllApply(ds, name + rest) && DisguisedBy(ds, name + rest) == DisguisedBy(ds, name) + rest
  {
    if ds != [] {
      OneFront(ds[0], name, rest);
      DisguiseFront(ds[1..], Disguised(ds[0], name), rest);
    }
  }

  lemma OneFront(d: Disguise, name: string, rest: string)
    requires Applies(d, name)
    ensures Applies(d, name + rest) && Disguised(d, name + rest) == Disguised(d, name) + rest
  {
    assert (name + rest)[..d.at] == name[..d.at];
  }

  lemma {:induction false} DisguiseOnceMore(ds: seq<Disguise>, name: string, d: Disguise)
    requires AllApply(ds, name) && Applies(d, DisguisedBy(ds, name))
    ensures AllApply(ds + [d], name) && DisguisedBy(ds + [d], name) == Disguised(d, DisguisedBy(ds, name))
  {
    var all := ds + [d];
    if ds == [] {
      assert all == [d] && all[1..] == [];
      assert AllApply(all[1..], Disguised(d, name));
    } else {
      assert all[0] == ds[0] && all[1..] == ds[1..] + [d];
      DisguiseOnceMore(ds[1..], Disguised(ds[0], name), d);
    }
  }

  /** The last character, put where its fold stands, or after what is there if it folds to nothing. */
  lemma LastDisguise(front: string, c: char) returns (ds: seq<Disguise>)
    ensures AllApply(ds, front + FoldLookalike([c])) && DisguisedBy(ds, front + FoldLookalike([c])) == front + [c]
  {
    FoldOne(c);
    var text := front + FoldLookalike([c]);
    if FoldLookalike([c]) == [c] {
      ds := [];
    } else {
      var d := if IsSeparator(c) then Separator(|front|, c) else AsDigit(|front|, c);
      assert Applies(d, text) && Disguised(d, text) == front + [c];
      ds := [d];
      assert ds[1..] == [] && AllApply(ds[1..], front + [c]);
    }
  }

  /** Every name is its fold in disguise. */
  lemma {:induction false} NameIsDisguise(name: string) returns (ds: seq<Disguise>)
    ensures AllApply(ds, FoldLookalike(name)) && DisguisedBy(ds, FoldLookalike(name)) == name
  {
    if name == [] {
      ds := [];
    } else {
      var front, c := name[..|name| - 1], name[|name| - 1];
      assert name == front + [c];
      FoldConcat(front, [c]);
      ds := NameIsDisguise(front);
      DisguiseFront(ds, FoldLookalike(front), FoldLookalike([c]));
      var last := LastDisguise(front, c);
      ds := DisguiseMore(ds, FoldLookalike(name), last);
    }
  }

  lemma {:induction false} DisguiseMore(ds: seq<Disguise>, name: string, es: seq<Disguise>) returns (all: seq<Disguise>)
    requires AllApply(ds, name) && AllApply(es, DisguisedBy(ds, name))
    ensures AllApply(all, name) && DisguisedBy(all, name) == DisguisedBy(es, DisguisedBy(ds, name))
    decreases es
  {
    if es == [] {
      all := ds;
    } else {
      DisguiseOnceMore(ds, name, es[0]);
      all := DisguiseMore(ds + [es[0]], name, es[1..]);
    }
  }

  ghost predicate DisguiseOf(plain: string, name: string) {
    exists ds :: AllApply(ds, plain) && DisguisedBy(ds, plain) == name
  }

  /** Two names fold alike exactly when one plain text can be disguised as either. */
  lemma SameFoldIff(a: string, b: string)
    ensures FoldLookalike(a) == FoldLookalike(b) <==> exists plain :: DisguiseOf(plain, a) && DisguiseOf(plain, b)
  {
    if FoldLookalike(a) == FoldLookalike(b) {
      var ds := NameIsDisguise(a);
      var es := NameIsDisguise(b);
      assert DisguiseOf(FoldLookalike(a), a) && DisguiseOf(FoldLookalike(a), b);
    }
    if plain :| DisguiseOf(plain, a) && DisguiseOf(plain, b) {
      var ds :| AllApply(ds, plain) && DisguisedBy(ds, plain) == a;
      var es :| AllApply(es, plain) && DisguisedBy(es, plain) == b;
      DisguiseIsUseless(ds, plain, [], []);
      DisguiseIsUseless(es, plain, [], []);
    }
  }

  /** A name is reserved exactly when it and some listed name are disguises of one plain text. */
  lemma ReservedExactly(name: string, builtin: seq<string>, extra: seq<string>)
    ensures IsReserved(name, builtin, extra) <==>
      exists r, plain :: (r in builtin || r in extra) && DisguiseOf(plain, r) && DisguiseOf(plain, name)
  {
    if IsReserved(name, builtin, extra) {
      var r :| (r in builtin || r in extra) && FoldLookalike(r) == FoldLookalike(name);
      SameFoldIff(r, name);
    }
    if r, plain :| (r in builtin || r in extra) && DisguiseOf(plain, r) && DisguiseOf(plain, name) {
      SameFoldIff(r, name);
    }
  }
}
