/** Hexadecimal text and the byte strings it denotes (src/utils.rs and the `hex` crate's `decode`). */
module Hex {
  import opened Wrappers
  import Text

  /** The content of a BLOB column: a byte is a number below 256. */
  type Blob = seq<nat>

  predicate IsLowerDigit(c: char) {
    '0' <= c <= '9' || 'a' <= c <= 'f'
  }

  predicate IsDigit(c: char) {
    IsLowerDigit(c) || 'A' <= c <= 'F'
  }

  predicate IsHex(s: string) {
    forall i :: 0 <= i < |s| ==> IsDigit(s[i])
  }

  predicate IsLowerHex(s: string) {
    forall i :: 0 <= i < |s| ==> IsLowerDigit(s[i])
  }

  /** A full 32-byte identifier spelled in lower case, as ids and public keys are. */
  predicate IsKey(s: string) {
    |s| == 64 && IsLowerHex(s)
  }

  function Nibble(c: char): (n: nat)
    requires IsDigit(c)
    ensures n < 16
  {
    if '0' <= c <= '9' then c as int - '0' as int
    else if 'a' <= c <= 'f' then c as int - 'a' as int + 10
    else c as int - 'A' as int + 10
  }

  function Lower(c: char): (l: char)
    requires IsDigit(c)
    ensures IsLowerDigit(l) && Nibble(l) == Nibble(c)
    ensures IsLowerDigit(c) ==> l == c
  {
    Text.AsciiLower(c)
  }

  function ToLower(s: string): (l: string)
    requires IsHex(s)
    ensures |l| == |s| && IsLowerHex(l)
    ensures forall i :: 0 <= i < |s| ==> l[i] == Lower(s[i])
  {
    seq(|s|, i requires 0 <= i < |s| => Lower(s[i]))
  }

  /** Two digits a byte; an odd length or a foreign character is an error. */
  function Decode(s: string): (b: Option<Blob>)
    ensures b.Some? <==> |s| % 2 == 0 && IsHex(s)
    ensures b.Some? ==> |b.value| == |s| / 2
  {
    if |s| % 2 == 0 && IsHex(s) then
      Some(seq(|s| / 2, i requires 0 <= i < |s| / 2 => 16 * Nibble(s[2 * i]) + Nibble(s[2 * i + 1])))
    else
      None
  }

  lemma DecodeNibbles(s: string, t: string, k: nat)
    requires Decode(s).Some? && Decode(s) == Decode(t)
    requires k < |s|
    ensures |s| == |t| && Nibble(s[k]) == Nibble(t[k])
  {
    var i := k / 2;
    assert Decode(s).value[i] == Decode(t).value[i];
    assert k == 2 * i || k == 2 * i + 1;
  }

  /** Two spellings denote the same bytes exactly when they agree after lower-casing. */
  lemma DecodeEqual(s: string, t: string)
    requires IsHex(s) && IsHex(t) && |s| % 2 == 0
    ensures Decode(s) == Decode(t) <==> ToLower(s) == ToLower(t)
  {
    if Decode(s) == Decode(t) {
      forall k | 0 <= k < |s| ensures |s| == |t| && ToLower(s)[k] == ToLower(t)[k] {
        DecodeNibbles(s, t, k);
      }
      if |s| == 0 { assert |t| == 0; }
      assert ToLower(s) == ToLower(t);
    }
    if ToLower(s) == ToLower(t) {
      assert |s| == |t|;
      forall i | 0 <= i < |s| ensures Nibble(s[i]) == Nibble(t[i]) {
        assert ToLower(s)[i] == ToLower(t)[i];
      }
      assert Decode(s).value == Decode(t).value;
    }
  }

  lemma LowerIsFixed(s: string)
    requires IsLowerHex(s)
    ensures IsHex(s) && ToLower(s) == s
  {
  }

  /** On lower-case spellings `Decode` is one to one. */
  lemma DecodeInjective(s: string, t: string)
    requires IsLowerHex(s) && IsLowerHex(t) && |s| % 2 == 0
    requires Decode(s) == Decode(t)
    ensures s == t
  {
    LowerIsFixed(s);
    LowerIsFixed(t);
    DecodeEqual(s, t);
  }

  // ---- against the table of digits ---------------------------------------------------

  function Digit(n: nat): (c: char)
    requires n < 16
    ensures IsLowerDigit(c) && Nibble(c) == n
  {
    match n
    case 0 => '0'
    case 1 => '1'
    case 2 => '2'
    case 3 => '3'
    case 4 => '4'
    case 5 => '5'
    case 6 => '6'
    case 7 => '7'
    case 8 => '8'
    case 9 => '9'
    case 10 => 'a'
    case 11 => 'b'
    case 12 => 'c'
    case 13 => 'd'
    case 14 => 'e'
    case _ => 'f'
  }

  /** The digits are these sixteen, six of them also as capitals. */
  lemma DigitsExactly(c: char)
    ensures IsLowerDigit(c) ==> Digit(Nibble(c)) == c
    ensures IsDigit(c) && !IsLowerDigit(c) <==> c in "ABCDEF"
  {
    if 'A' <= c <= 'F' { assert "ABCDEF"[c as int - 'A' as int] == c; }
  }

  /** `hex::encode` */
  function Encode(b: Blob): (s: string)
    requires forall i :: 0 <= i < |b| ==> b[i] < 256
    ensures |s| == 2 * |b| && IsLowerHex(s)
  {
    if b == [] then "" else [Digit(b[0] / 16), Digit(b[0] % 16)] + Encode(b[1..])
  }

  lemma DecodeNext(c: char, d: char, s: string)
    requires IsDigit(c) && IsDigit(d) && Decode(s).Some?
    ensures Decode([c, d] + s) == Some([16 * Nibble(c) + Nibble(d)] + Decode(s).value)
  {
    var t := [c, d] + s;
    forall i | 0 <= i < |t| ensures IsDigit(t[i]) {
      if i >= 2 { assert t[i] == s[i - 2]; }
    }
    var x, y := Decode(t).value, [16 * Nibble(c) + Nibble(d)] + Decode(s).value;
    forall i | 0 <= i < |x| ensures x[i] == y[i] {
      if i > 0 { assert t[2 * i] == s[2 * (i - 1)] && t[2 * i + 1] == s[2 * (i - 1) + 1]; }
    }
    assert x == y;
  }

  lemma EncodedByte(n: nat, s: string, b: Blob)
    requires n < 256 && Decode(s) == Some(b)
    ensures Decode([Digit(n / 16), Digit(n % 16)] + s) == Some([n] + b)
  {
    DecodeNext(Digit(n / 16), Digit(n % 16), s);
  }

  /** Bytes come back from their digits. */
  lemma {:induction false} DecodeEncode(b: Blob)
    requires forall i :: 0 <= i < |b| ==> b[i] < 256
    ensures Decode(Encode(b)) == Some(b)
  {
    if b != [] {
      DecodeEncode(b[1..]);
      EncodedByte(b[0], Encode(b[1..]), b[1..]);
      assert b == [b[0]] + b[1..];
    }
  }
}
