/** NIP-05 names, `local@domain` (src/nip05.rs). */
module Nip05 {
  import opened Wrappers
  import Text

  datatype Name = Name(local: string, domain: string)

  /** Unicode's alphanumeric test is a parameter; all that matters is that `@` fails it. */
  type Alnum = char -> bool

  predicate LocalChar(alnum: Alnum, c: char) {
    alnum(c) || c == '_' || c == '-' || c == '.'
  }

  predicate DomainChar(alnum: Alnum, c: char) {
    alnum(c) || c == '-' || c == '.'
  }

  predicate Allowed(alnum: Alnum, n: Name) {
    (forall i :: 0 <= i < |n.local| ==> LocalChar(alnum, n.local[i]))
    && (forall i :: 0 <= i < |n.domain| ==> DomainChar(alnum, n.domain[i]))
  }

  function Parse(alnum: Alnum, s: string): Option<Name> {
    var parts := Text.Split(s, '@');
    if |parts| == 2 && Allowed(alnum, Name(parts[0], parts[1])) then Some(Name(parts[0], parts[1])) else None
  }

  function Print(n: Name): string {
    n.local + "@" + n.domain
  }

  lemma {:induction false} JoinSplit(s: string, c: char)
    ensures Text.Join(Text.Split(s, c), [c]) == s
  {
    if s != [] {
      var rest := Text.Split(s[1..], c);
      JoinSplit(s[1..], c);
      if s[0] == c {
        assert ([[]] + rest)[1..] == rest;
        assert s == [c] + s[1..];
      } else {
        var parts := [[s[0]] + rest[0]] + rest[1..];
        assert parts[1..] == rest[1..];
        assert s == [s[0]] + s[1..];
      }
    }
  }

  /** Whatever parses prints back to itself. */
  lemma PrintAfterParse(alnum: Alnum, s: string)
    requires Parse(alnum, s).Some?
    ensures Print(Parse(alnum, s).value) == s
  {
    var parts := Text.Split(s, '@');
    JoinSplit(s, '@');
    assert parts[1..] == [parts[1]];
    assert Text.Join(parts[1..], ['@']) == parts[1];
  }

  /** A name survives being printed and read again exactly when its characters are allowed. */
  lemma ParseAfterPrint(alnum: Alnum, n: Name)
    requires !alnum('@')
    ensures Parse(alnum, Print(n)) == Some(n) <==> Allowed(alnum, n)
  {
    if Allowed(alnum, n) {
      assert '@' !in n.local && '@' !in n.domain;
      Text.SplitAtFirst(n.local, '@', n.domain);
      Text.SplitPlain(n.domain, '@');
      assert Print(n) == n.local + ['@'] + n.domain;
    }
  }

  /** Which texts are names: two parts around one `@`, of letters and digits and the signs each part allows. */
  lemma ParsesExactly(alnum: Alnum, s: string, n: Name)
    requires !alnum('@')
    ensures Parse(alnum, s) == Some(n) <==>
      s == n.local + "@" + n.domain
      && (forall i :: 0 <= i < |n.local| ==> alnum(n.local[i]) || n.local[i] in "_-.")
      && (forall i :: 0 <= i < |n.domain| ==> alnum(n.domain[i]) || n.domain[i] in "-.")
  {
    assert forall c :: c in "_-." <==> c == '_' || c == '-' || c == '.';
    assert forall c :: c in "-." <==> c == '-' || c == '.';
    if Parse(alnum, s) == Some(n) {
      PrintAfterParse(alnum, s);
    } else if s == Print(n) {
      ParseAfterPrint(alnum, n);
    }
  }

  /** So a verification name that was stored always reads back as it was. */
  lemma StoredNameReadsBack(alnum: Alnum, s: string)
    requires !alnum('@') && Parse(alnum, s).Some?
    ensures Parse(alnum, Print(Parse(alnum, s).value)) == Parse(alnum, s)
  {
    PrintAfterParse(alnum, s);
  }
}
