/** The string operations the token list parsers use, on JavaScript's terms. */
module TokenText {
  import opened Common

  predicate IsDigit(c: char) {
    '0' <= c <= '9'
  }

  predicate AllDigits(s: string) {
    forall i :: 0 <= i < |s| ==> IsDigit(s[i])
  }

  type Digits = s: string | AllDigits(s) witness ""

  /** `s.split(sep)`: always at least one part. */
  function Split(s: string, sep: char): (parts: seq<string>)
    ensures |parts| >= 1
  {
    if s == [] then [[]]
    else
      var rest := Split(s[1..], sep);
      if s[0] == sep then [[]] + rest else [[s[0]] + rest[0]] + rest[1..]
  }

  /** The parts with `sep` between them. */
  function Join(parts: seq<string>, sep: char): string
    requires |parts| >= 1
  {
    if |parts| == 1 then parts[0] else parts[0] + [sep] + Join(parts[1..], sep)
  }

  lemma {:induction false} SplitOne(s: string, sep: char)
    requires sep !in s
    ensures Split(s, sep) == [s]
  {
    if s != [] {
      assert s[0] in s && s[0] != sep;
      SplitOne(s[1..], sep);
      assert [s[0]] + s[1..] == s;
    }
  }

  lemma {:induction false} SplitFirst(s: string, rest: string, sep: char)
    requires sep !in s
    ensures Split(s + [sep] + rest, sep) == [s] + Split(rest, sep)
  {
    var whole := s + [sep] + rest;
    if s == [] {
      assert whole[1..] == rest;
    } else {
      assert s[0] in s && s[0] != sep;
      SplitFirst(s[1..], rest, sep);
      assert whole[1..] == s[1..] + [sep] + rest && whole[0] == s[0];
      var tail := Split(whole[1..], sep);
      assert tail[0] == s[1..] && tail[1..] == Split(rest, sep);
      assert [s[0]] + s[1..] == s;
    }
  }

  /** Splitting what was joined gives the parts back. */
  lemma {:induction false} SplitJoin(parts: seq<string>, sep: char)
    requires |parts| >= 1 && forall i :: 0 <= i < |parts| ==> sep !in parts[i]
    ensures Split(Join(parts, sep), sep) == parts
  {
    if |parts| == 1 {
      SplitOne(parts[0], sep);
    } else {
      SplitJoin(parts[1..], sep);
      SplitFirst(parts[0], Join(parts[1..], sep), sep);
    }
  }

  /** No part contains the separator, and parts use only the characters of the string. */
  lemma {:induction false} SplitParts(s: string, sep: char)
    ensures forall i :: 0 <= i < |Split(s, sep)| ==> forall c :: c in Split(s, sep)[i] ==> c != sep && c in s
  {
    if s != [] {
      SplitParts(s[1..], sep);
      var rest := Split(s[1..], sep);
      var parts := Split(s, sep);
      forall i, c | 0 <= i < |parts| && c in parts[i] ensures c != sep && c in s {
        if s[0] == sep {
          assert i > 0 ==> parts[i] == rest[i - 1];
        } else {
          assert parts[i] == if i == 0 then [s[0]] + rest[0] else rest[i];
        }
      }
    }
  }

  /** Joining what was split gives the string back. */
  lemma {:induction false} JoinSplit(s: string, sep: char)
    ensures Join(Split(s, sep), sep) == s
  {
    if s != [] {
      var rest := Split(s[1..], sep);
      JoinSplit(s[1..], sep);
      if s[0] == sep {
        assert ([[]] + rest)[1..] == rest;
      } else {
        assert ([[s[0]] + rest[0]] + rest[1..])[1..] == rest[1..];
      }
    }
  }

  function NonEmpty(parts: seq<string>): seq<string> {
    if parts == [] then []
    else if parts[0] == [] then NonEmpty(parts[1..])
    else [parts[0]] + NonEmpty(parts[1..])
  }

  /** Every kept part is one of the parts, and none of them is empty. */
  lemma {:induction false} NonEmptyParts(parts: seq<string>)
    ensures forall i :: 0 <= i < |NonEmpty(parts)| ==> NonEmpty(parts)[i] in parts && NonEmpty(parts)[i] != []
  {
    if parts != [] {
      NonEmptyParts(parts[1..]);
      assert parts == [parts[0]] + parts[1..];
    }
  }

  // ---------- numbers ----------

  function DigitOf(c: char): int
    requires IsDigit(c)
  {
    c as int - '0' as int
  }

  /** The number a digit string denotes: unary `+` on such a string, zero for the empty one. */
  function Value(s: Digits): nat {
    if s == [] then 0 else Value(s[..|s| - 1]) * 10 + DigitOf(s[|s| - 1])
  }

  function Decimal(n: nat): (s: Digits)
    ensures s != []
  {
    if n < 10 then ["0123456789"[n]] else Decimal(n / 10) + ["0123456789"[n % 10]]
  }

  lemma {:induction false} DecimalValue(n: nat)
    ensures Value(Decimal(n)) == n
  {
    if n >= 10 {
      DecimalValue(n / 10);
      assert Decimal(n)[..|Decimal(n)| - 1] == Decimal(n / 10);
    }
  }

  function DigitPrefix(s: string): Digits {
    if s == [] || !IsDigit(s[0]) then [] else [s[0]] + DigitPrefix(s[1..])
  }

  /** `parseInt(s)` without leading blanks; None is NaN. */
  function ParseInt(s: string): Option<int> {
    var negative := s != [] && s[0] == '-';
    var digits := DigitPrefix(if negative then s[1..] else s);
    if digits == [] then None else Some(if negative then 0 - Value(digits) as int else Value(digits))
  }

  lemma {:induction false} DigitPrefixStops(s: Digits, rest: string)
    requires rest == [] || !IsDigit(rest[0])
    ensures DigitPrefix(s + rest) == s
  {
    if s == [] {
      assert s + rest == rest;
    } else {
      assert (s + rest)[1..] == s[1..] + rest;
      DigitPrefixStops(s[1..], rest);
    }
  }

  lemma ParseDigits(s: Digits, rest: string)
    requires s != [] && (rest == [] || !IsDigit(rest[0]))
    ensures ParseInt(s + rest) == Some(Value(s)) && ParseInt(s) == Some(Value(s))
  {
    DigitPrefixStops(s, rest);
    DigitPrefixStops(s, []);
    assert s + [] == s;
    assert IsDigit(s[0]);
  }

  /** `parseInt` of digits is their value; of the empty string it is NaN. */
  lemma ParseWhole(s: Digits)
    ensures ParseInt(s) == if s == [] then None else Some(Value(s))
  {
    if s != [] {
      ParseDigits(s, []);
    }
  }
}
