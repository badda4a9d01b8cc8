/** The string operations of the Rust standard library that the relay leans on. */
module Text {
  import opened Wrappers

  const U64_LIMIT: nat := 0x1_0000_0000_0000_0000

  // ---- splitting and joining ------------------------------------------------

  /** `str::split` on one character: always at least one piece. */
  function Split(s: string, c: char): (parts: seq<string>)
    ensures |parts| >= 1
  {
    if s == [] then [[]]
    else
      var rest := Split(s[1..], c);
      if s[0] == c then [[]] + rest else [[s[0]] + rest[0]] + rest[1..]
  }

  /** `str::split_terminator`: like `Split`, without a final empty piece. */
  function SplitTerminator(s: string, c: char): seq<string> {
    var parts := Split(s, c);
    if parts[|parts| - 1] == [] then parts[..|parts| - 1] else parts
  }

  function Join<T>(parts: seq<seq<T>>, sep: seq<T>): seq<T> {
    if parts == [] then []
    else if |parts| == 1 then parts[0]
    else parts[0] + sep + Join(parts[1..], sep)
  }

  lemma {:induction false} SplitPlain(s: string, c: char)
    requires c !in s
    ensures Split(s, c) == [s]
  {
    if s != [] {
      SplitPlain(s[1..], c);
      assert [s[0]] + s[1..] == s;
    }
  }

  lemma {:induction false} SplitAtFirst(a: string, c: char, b: string)
    requires c !in a
    ensures Split(a + [c] + b, c) == [a] + Split(b, c)
  {
    var s := a + [c] + b;
    if a == [] {
      assert s[1..] == b;
    } else {
      assert s[1..] == a[1..] + [c] + b;
      SplitAtFirst(a[1..], c, b);
      assert [s[0]] + a[1..] == a;
    }
  }

  /** Splitting undoes joining when no piece holds the separator. */
  lemma {:induction false} SplitJoin(parts: seq<string>, c: char)
    requires parts != []
    requires forall i :: 0 <= i < |parts| ==> c !in parts[i]
    ensures Split(Join(parts, [c]), c) == parts
  {
    if |parts| == 1 {
      SplitPlain(parts[0], c);
    } else {
      SplitJoin(parts[1..], c);
      SplitAtFirst(parts[0], c, Join(parts[1..], [c]));
      assert [parts[0]] + parts[1..] == parts;
    }
  }

  /** ... and `SplitTerminator` does too, unless the last piece is empty. */
  lemma SplitTerminatorJoin(parts: seq<string>, c: char)
    requires forall i :: 0 <= i < |parts| ==> c !in parts[i]
    requires parts != [] ==> parts[|parts| - 1] != []
    ensures SplitTerminator(Join(parts, [c]), c) == parts
  {
    if parts != [] {
      SplitJoin(parts, c);
    }
  }

  // ---- ASCII case -----------------------------------------------------------

  /** `char::to_ascii_lowercase` */
  function AsciiLower(c: char): char {
    if 'A' <= c <= 'Z' then (c as int - 'A' as int + 'a' as int) as char else c
  }

  /** `str::to_ascii_lowercase` */
  function ToAsciiLower(s: string): string {
    seq(|s|, i requires 0 <= i < |s| => AsciiLower(s[i]))
  }

  /** The capitals, 65 to 90, move up by 32; every other character stays, and so does the length. */
  lemma LowerMeans(s: string)
    ensures |ToAsciiLower(s)| == |s|
    ensures forall i :: 0 <= i < |s| ==>
      ToAsciiLower(s)[i] as int == s[i] as int + (if 65 <= s[i] as int <= 90 then 32 else 0)
  {
    assert 'A' as int == 65 && 'Z' as int == 90 && 'a' as int == 97;
  }

  // ---- decimal numbers ------------------------------------------------------

  predicate IsDecimal(c: char) {
    '0' <= c <= '9'
  }

  predicate AllDecimal(s: string) {
    forall i :: 0 <= i < |s| ==> IsDecimal(s[i])
  }

  function DigitChar(d: nat): (c: char)
    requires d < 10
    ensures IsDecimal(c) && c as int - '0' as int == d
  {
    ('0' as int + d) as char
  }

  function ToDecimal(n: nat): (s: string)
    ensures s != [] && AllDecimal(s)
  {
    if n < 10 then [DigitChar(n)] else ToDecimal(n / 10) + [DigitChar(n % 10)]
  }

  function DecimalValue(s: string): nat
    requires AllDecimal(s)
  {
    if s == [] then 0
    else 10 * DecimalValue(s[..|s| - 1]) + (s[|s| - 1] as int - '0' as int)
  }

  /** `str::parse::<u64>`: an optional plus sign, at least one digit, no overflow. */
  function ParseU64(s: string): Option<nat> {
    var digits := if s != [] && s[0] == '+' then s[1..] else s;
    if digits != [] && AllDecimal(digits) && DecimalValue(digits) < U64_LIMIT
    then Some(DecimalValue(digits))
    else None
  }

  lemma {:induction false} DecimalRoundTrip(n: nat)
    ensures DecimalValue(ToDecimal(n)) == n
  {
    if n >= 10 {
      DecimalRoundTrip(n / 10);
      var s := ToDecimal(n);
      assert s[..|s| - 1] == ToDecimal(n / 10);
    }
  }

  lemma ParseU64RoundTrip(n: nat)
    requires n < U64_LIMIT
    ensures ParseU64(ToDecimal(n)) == Some(n)
  {
    DecimalRoundTrip(n);
    assert IsDecimal(ToDecimal(n)[0]);
  }

  // ---- which texts are numbers ------------------------------------------------

  function Zeros(k: nat): string {
    seq(k, _ => '0')
  }

  lemma {:induction false} ZerosAdd(k: nat, s: string)
    requires AllDecimal(s)
    ensures AllDecimal(Zeros(k) + s) && DecimalValue(Zeros(k) + s) == DecimalValue(s)
    decreases |s| + k
  {
    var z := Zeros(k) + s;
    if s != [] {
      assert z[..|z| - 1] == Zeros(k) + s[..|s| - 1];
      ZerosAdd(k, s[..|s| - 1]);
    } else if k > 0 {
      assert z[..|z| - 1] == Zeros(k - 1) + s;
      ZerosAdd(k - 1, s);
    }
  }

  lemma {:induction false} DigitsAreZerosAndMore(s: string) returns (k: nat)
    requires s != [] && AllDecimal(s)
    ensures s == Zeros(k) + ToDecimal(DecimalValue(s))
  {
    var front, d := s[..|s| - 1], s[|s| - 1] as int - '0' as int;
    assert IsDecimal(s[|s| - 1]) && DigitChar(d) == s[|s| - 1];
    if front == [] {
      k := 0;
      assert DecimalValue(front) == 0 && s == [s[0]];
    } else {
      var v := DecimalValue(front);
      k := DigitsAreZerosAndMore(front);
      assert s == front + [DigitChar(d)];
      if v == 0 {
        assert Zeros(k) + ['0'] == Zeros(k + 1) && ToDecimal(0) == ['0'];
        k := k + 1;
      } else {
        assert (10 * v + d) / 10 == v && (10 * v + d) % 10 == d;
      }
    }
  }

  /** A number below 2^64 is written in decimal, with any zeros before it and a plus sign before those. */
  lemma ParsesExactly(s: string, n: nat)
    ensures ParseU64(s) == Some(n) <==>
      n < 18446744073709551616
      && exists k: nat :: s == Zeros(k) + ToDecimal(n) || s == "+" + (Zeros(k) + ToDecimal(n))
  {
    var digits := if s != [] && s[0] == '+' then s[1..] else s;
    if ParseU64(s) == Some(n) {
      var k := DigitsAreZerosAndMore(digits);
      assert s == digits || s == "+" + digits;
    }
    if k: nat :| n < U64_LIMIT && (s == Zeros(k) + ToDecimal(n) || s == "+" + (Zeros(k) + ToDecimal(n))) {
      ZerosAdd(k, ToDecimal(n));
      DecimalRoundTrip(n);
      var written := Zeros(k) + ToDecimal(n);
      assert IsDecimal(written[0]);
      assert s == "+" + written ==> s[1..] == written;
      assert digits == written;
    }
  }
}
