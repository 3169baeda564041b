/**
 * String helpers shared by the Python service and the Kotlin client: decimal rendering
 * of integers (string templates and f-strings), Kotlin's `String.toIntOrNull`, `trim`,
 * single-character `split`, Python's `str.join`, and ASCII case mapping.
 */
module Text {
  import opened Wrappers

  predicate IsDigit(ch: char) {
    '0' <= ch <= '9'
  }

  predicate AllDigits(s: string) {
    forall i :: 0 <= i < |s| ==> IsDigit(s[i])
  }

  function DigitChar(d: nat): (ch: char)
    requires d < 10
    ensures IsDigit(ch) && ch as int - '0' as int == d
  {
    (d + '0' as int) as char
  }

  function DigitValue(ch: char): (d: nat)
    requires IsDigit(ch)
    ensures d < 10
  {
    ch as int - '0' as int
  }

  /** Decimal rendering of a natural number, as `"${n}"` and `f"{n}"` print it. */
  function NatToString(n: nat): (s: string)
    ensures |s| >= 1 && AllDigits(s)
    ensures n == 0 ==> s == "0"
    ensures n >= 1 ==> s[0] != '0'
    decreases n
  {
    if n < 10 then [DigitChar(n)] else NatToString(n / 10) + [DigitChar(n % 10)]
  }

  /** Decimal rendering of an integer, with a leading '-' for negative values. */
  function IntToString(i: int): string {
    if i < 0 then "-" + NatToString(-i) else NatToString(i)
  }

  /** The value of a string of decimal digits (the empty string reads as 0). */
  function ParseDigits(s: string): nat
    requires AllDigits(s)
    decreases |s|
  {
    if s == [] then 0 else ParseDigits(s[..|s| - 1]) * 10 + DigitValue(s[|s| - 1])
  }

  /** A digit string as NatToString produces it: non-empty, and no leading zero unless it is "0". */
  predicate CanonicalDigits(s: string) {
    |s| >= 1 && AllDigits(s) && (s[0] == '0' ==> |s| == 1)
  }

  lemma {:induction false} NatToStringRoundTrip(n: nat)
    ensures ParseDigits(NatToString(n)) == n
    decreases n
  {
    if n >= 10 {
      var t := NatToString(n / 10);
      var s := t + [DigitChar(n % 10)];
      assert s[..|s| - 1] == t;
      NatToStringRoundTrip(n / 10);
    }
  }

  lemma {:induction false} ParseDigitsPositive(s: string)
    requires |s| >= 1 && AllDigits(s) && s[0] != '0'
    ensures ParseDigits(s) >= 1
    decreases |s|
  {
    if |s| > 1 {
      ParseDigitsPositive(s[..|s| - 1]);
    }
  }

  /** Every canonical digit string is the rendering of the number it denotes. */
  lemma {:induction false} ParseDigitsRoundTrip(s: string)
    requires CanonicalDigits(s)
    ensures NatToString(ParseDigits(s)) == s
    decreases |s|
  {
    if |s| > 1 {
      var p := s[..|s| - 1];
      ParseDigitsPositive(p);
      ParseDigitsRoundTrip(p);
      var n := ParseDigits(s);
      assert n / 10 == ParseDigits(p) && n % 10 == DigitValue(s[|s| - 1]);
      assert s == p + [s[|s| - 1]];
    }
  }

  lemma {:induction false} NatToStringInjective(m: nat, n: nat)
    requires NatToString(m) == NatToString(n)
    ensures m == n
  {
    NatToStringRoundTrip(m);
    NatToStringRoundTrip(n);
  }

  const IntMin: int := -0x8000_0000
  const IntMax: int := 0x7FFF_FFFF

  predicate InIntRange(v: int) {
    IntMin <= v <= IntMax
  }

  /**
   * Kotlin's `String.toIntOrNull()` in base 10: an optional '+' or '-' followed by at
   * least one digit, whose value fits a 32-bit Int; anything else is null.
   */
  function ParseInt(s: string): (r: Option<int>)
    ensures r.Some? ==> InIntRange(r.value)
  {
    if |s| == 0 then None
    else if s[0] == '-' || s[0] == '+' then
      if |s| == 1 || !AllDigits(s[1..]) then None
      else
        var v: int := if s[0] == '-' then 0 - (ParseDigits(s[1..]) as int) else ParseDigits(s[1..]);
        if InIntRange(v) then Some(v) else None
    else if AllDigits(s) && ParseDigits(s) <= IntMax then Some(ParseDigits(s))
    else None
  }

  /** On a string of digits only, toIntOrNull fails exactly on the empty string and on overflow. */
  lemma {:induction false} ParseIntOfDigits(s: string)
    requires AllDigits(s)
    ensures ParseInt(s).None? <==> (s == [] || ParseDigits(s) > IntMax)
    ensures ParseInt(s).Some? ==> ParseInt(s).value == ParseDigits(s) >= 0
  {
    if s != [] {
      assert IsDigit(s[0]);
    }
  }

  /** The length of the optional sign in front of the digits that toIntOrNull reads. */
  function SignLength(s: string): (n: nat)
    ensures n <= 1 && n <= |s|
    ensures n == 1 <==> |s| > 0 && (s[0] == '-' || s[0] == '+')
  {
    if |s| > 0 && (s[0] == '-' || s[0] == '+') then 1 else 0
  }

  /** A sign followed by digits: toIntOrNull gives the signed value when it fits an Int, and null otherwise. */
  lemma {:induction false} ParseIntOfSigned(sign: char, d: string)
    requires sign == '-' || sign == '+'
    requires |d| >= 1 && AllDigits(d)
    ensures var v: int := if sign == '-' then 0 - ParseDigits(d) else ParseDigits(d);
      ParseInt([sign] + d) == if InIntRange(v) then Some(v) else None
  {
    var s := [sign] + d;
    assert s[0] == sign && s[1..] == d;
  }

  /** toIntOrNull is null on the empty string, on a lone sign, and whenever a character after the
      optional sign is not a digit. */
  lemma {:induction false} ParseIntRejects(s: string)
    requires s == "" || s == "-" || s == "+" || exists i :: SignLength(s) <= i < |s| && !IsDigit(s[i])
    ensures ParseInt(s) == None
  {
    if s != "" && s != "-" && s != "+" {
      var i :| SignLength(s) <= i < |s| && !IsDigit(s[i]);
      if SignLength(s) == 1 {
        assert !IsDigit(s[1..][i - 1]);
      }
    }
  }

  /** Every result of toIntOrNull comes from an optional sign and at least one digit. */
  lemma {:induction false} ParseIntAccepts(s: string)
    requires ParseInt(s).Some?
    ensures |s| > SignLength(s) && AllDigits(s[SignLength(s)..])
    ensures ParseInt(s).value == (if s[0] == '-' then 0 - ParseDigits(s[1..]) else ParseDigits(s[SignLength(s)..]))
  {
  }

  lemma {:induction false} ParseIntOfNatToString(n: nat)
    requires n <= IntMax
    ensures ParseInt(NatToString(n)) == Some(n)
  {
    NatToStringRoundTrip(n);
    ParseIntOfDigits(NatToString(n));
  }

  /** Kotlin's `Char.isWhitespace` restricted to the ASCII range (space, tab to CR, and the four separators). */
  predicate IsWhitespace(ch: char) {
    var k := ch as int;
    k == 32 || 9 <= k <= 13 || 28 <= k <= 31
  }

  /** Kotlin's `trimStart()`: the longest suffix that does not start with whitespace, all of what is
      removed being whitespace. */
  function TrimStart(s: string): (t: string)
    ensures |t| <= |s| && t == s[|s| - |t|..]
    ensures forall i :: 0 <= i < |s| - |t| ==> IsWhitespace(s[i])
    ensures |t| > 0 ==> !IsWhitespace(t[0])
    decreases |s|
  {
    if |s| > 0 && IsWhitespace(s[0]) then TrimStart(s[1..]) else s
  }

  /** Kotlin's `trimEnd()`: the longest prefix that does not end with whitespace, all of what is
      removed being whitespace. */
  function TrimEnd(s: string): (t: string)
    ensures |t| <= |s| && t == s[..|t|]
    ensures forall i :: |t| <= i < |s| ==> IsWhitespace(s[i])
    ensures |t| > 0 ==> !IsWhitespace(t[|t| - 1])
    decreases |s|
  {
    if |s| > 0 && IsWhitespace(s[|s| - 1]) then TrimEnd(s[..|s| - 1]) else s
  }

  /** Kotlin's `String.trim()`: leading and trailing whitespace removed. */
  function Trim(s: string): string {
    TrimEnd(TrimStart(s))
  }

  /**
   * Kotlin's `split(",")` and Python's `str.split(sep)` for a one-character separator:
   * the pieces between separators, empty pieces included; the empty string gives [""].
   */
  function Split(s: string, sep: char): (parts: seq<string>)
    ensures |parts| >= 1
    decreases |s|
  {
    if |s| == 0 then [""]
    else
      var rest := Split(s[1..], sep);
      if s[0] == sep then [""] + rest else [[s[0]] + rest[0]] + rest[1..]
  }

  /** Python's `sep.join(parts)` for a one-character separator. */
  function Join(parts: seq<string>, sep: char): string
    decreases |parts|
  {
    if |parts| == 0 then ""
    else if |parts| == 1 then parts[0]
    else parts[0] + [sep] + Join(parts[1..], sep)
  }

  lemma {:induction false} SplitPiecesLackSeparator(s: string, sep: char)
    ensures forall k :: 0 <= k < |Split(s, sep)| ==> sep !in Split(s, sep)[k]
    decreases |s|
  {
    if |s| > 0 {
      SplitPiecesLackSeparator(s[1..], sep);
    }
  }

  /** Splitting and joining back with the same separator gives the original string. */
  lemma {:induction false} JoinSplit(s: string, sep: char)
    ensures Join(Split(s, sep), sep) == s
    decreases |s|
  {
    if |s| > 0 {
      var rest := Split(s[1..], sep);
      JoinSplit(s[1..], sep);
      if s[0] == sep {
        assert ([""] + rest)[1..] == rest;
      } else {
        var parts := [[s[0]] + rest[0]] + rest[1..];
        if |rest| == 1 {
          assert parts == [[s[0]] + rest[0]];
        } else {
          assert parts[1..] == rest[1..];
          assert Join(rest, sep) == rest[0] + [sep] + Join(rest[1..], sep);
        }
      }
    }
  }

  lemma {:induction false} SplitWithoutSeparator(s: string, sep: char)
    requires sep !in s
    ensures Split(s, sep) == [s]
    decreases |s|
  {
    if |s| > 0 {
      assert s[0] != sep && sep !in s[1..];
      SplitWithoutSeparator(s[1..], sep);
      assert [s[0]] + s[1..] == s;
    }
  }

  /** A separator splits the string into the pieces of each side. */
  lemma {:induction false} SplitAppend(a: string, b: string, sep: char)
    ensures Split(a + [sep] + b, sep) == Split(a, sep) + Split(b, sep)
    decreases |a|
  {
    if |a| == 0 {
      SplitCons(sep, b, sep);
      assert a + [sep] + b == [sep] + b;
    } else {
      SplitAppend(a[1..], b, sep);
      SplitAppendStep(a[0], a[1..], b, sep);
      assert a == [a[0]] + a[1..];
      assert a + [sep] + b == [a[0]] + (a[1..] + [sep] + b);
    }
  }

  /** The inductive step of SplitAppend: one more character in front of the left side. */
  lemma {:induction false} SplitAppendStep(c: char, a: string, b: string, sep: char)
    requires Split(a + [sep] + b, sep) == Split(a, sep) + Split(b, sep)
    ensures Split([c] + (a + [sep] + b), sep) == Split([c] + a, sep) + Split(b, sep)
  {
    var t := a + [sep] + b;
    SplitCons(c, t, sep);
    SplitCons(c, a, sep);
    var ra, rb := Split(a, sep), Split(b, sep);
    if c == sep {
      SeqAssoc([""], ra, rb);
    } else {
      var rt := Split(t, sep);
      assert rt[0] == ra[0];
      assert rt[1..] == ra[1..] + rb;
      SeqAssoc([[c] + ra[0]], ra[1..], rb);
    }
  }

  /** A property of each element at its index survives appending an element that has it at its index. */
  lemma {:induction false} AppendKeeps<T>(s: seq<T>, x: T, P: (nat, T) -> bool)
    requires forall k: nat :: k < |s| ==> P(k, s[k])
    requires P(|s|, x)
    ensures forall k: nat :: k < |s + [x]| ==> P(k, (s + [x])[k])
  {
    forall k: nat | k < |s + [x]|
      ensures P(k, (s + [x])[k])
    {
      if k < |s| {
        assert (s + [x])[k] == s[k];
      }
    }
  }

  lemma {:induction false} SeqAssoc<T>(x: seq<T>, y: seq<T>, z: seq<T>)
    ensures x + (y + z) == (x + y) + z
  {
  }

  /** Splitting a string with a first character `c` and the rest `t`. */
  lemma {:induction false} SplitCons(c: char, t: string, sep: char)
    ensures Split([c] + t, sep) == if c == sep then [""] + Split(t, sep) else [[c] + Split(t, sep)[0]] + Split(t, sep)[1..]
  {
    assert ([c] + t)[0] == c && ([c] + t)[1..] == t;
  }

  /** Joining pieces that do not contain the separator and splitting again gives the pieces back. */
  lemma {:induction false} SplitJoin(parts: seq<string>, sep: char)
    requires |parts| >= 1
    requires forall k :: 0 <= k < |parts| ==> sep !in parts[k]
    ensures Split(Join(parts, sep), sep) == parts
    decreases |parts|
  {
    SplitWithoutSeparator(parts[0], sep);
    if |parts| > 1 {
      SplitJoin(parts[1..], sep);
      SplitAppend(parts[0], Join(parts[1..], sep), sep);
    }
  }

  /** Joining two or more pieces puts at least one separator into the result. */
  lemma {:induction false} JoinHasSeparator(parts: seq<string>, sep: char)
    requires |parts| >= 2
    ensures sep in Join(parts, sep)
  {
    var j := Join(parts, sep);
    assert j[|parts[0]|] == sep;
  }

  predicate StartsWith(s: string, prefix: string) {
    |prefix| <= |s| && s[..|prefix|] == prefix
  }

  /** Kotlin's and Python's substring test `sub in s`. */
  predicate Contains(s: string, sub: string)
    decreases |s|
  {
    StartsWith(s, sub) || (|s| > 0 && Contains(s[1..], sub))
  }

  /** Kotlin's `take(n)`: the first n characters, or the whole string when it is shorter. */
  function Take(s: string, n: nat): string {
    if |s| <= n then s else s[..n]
  }

  /** Kotlin's `takeLast(n)`: the last n characters, or the whole string when it is shorter. */
  function TakeLast(s: string, n: nat): string {
    if |s| <= n then s else s[|s| - n..]
  }

  function LowerChar(ch: char): char {
    if 'A' <= ch <= 'Z' then (ch as int + 32) as char else ch
  }

  function UpperChar(ch: char): char {
    if 'a' <= ch <= 'z' then (ch as int - 32) as char else ch
  }

  /** `lower()` / `lowercase()` on the ASCII letters: no capital letter is left, and every changed
      character is a capital letter moved 32 code points up to its small letter. */
  function AsciiLower(s: string): (t: string)
    ensures |t| == |s|
    ensures forall i :: 0 <= i < |t| ==> !('A' <= t[i] <= 'Z')
    ensures forall i :: 0 <= i < |s| ==> t[i] == s[i] || ('A' <= s[i] <= 'Z' && t[i] as int == s[i] as int + 32)
  {
    seq(|s|, i requires 0 <= i < |s| => LowerChar(s[i]))
  }

  /** `uppercase()` on the ASCII letters: no small letter is left, and every changed character is a
      small letter moved 32 code points down to its capital letter. */
  function AsciiUpper(s: string): (t: string)
    ensures |t| == |s|
    ensures forall i :: 0 <= i < |t| ==> !('a' <= t[i] <= 'z')
    ensures forall i :: 0 <= i < |s| ==> t[i] == s[i] || ('a' <= s[i] <= 'z' && t[i] as int == s[i] as int - 32)
  {
    seq(|s|, i requires 0 <= i < |s| => UpperChar(s[i]))
  }

  /** Lower-casing twice is lower-casing once. */
  lemma {:induction false} AsciiLowerIdempotent(s: string)
    ensures AsciiLower(AsciiLower(s)) == AsciiLower(s)
  {
    var t := AsciiLower(s);
    forall i | 0 <= i < |t|
      ensures AsciiLower(t)[i] == t[i]
    {
      assert !('A' <= t[i] <= 'Z');
    }
  }

  /** Upper-casing twice is upper-casing once. */
  lemma {:induction false} AsciiUpperIdempotent(s: string)
    ensures AsciiUpper(AsciiUpper(s)) == AsciiUpper(s)
  {
    var t := AsciiUpper(s);
    forall i | 0 <= i < |t|
      ensures AsciiUpper(t)[i] == t[i]
    {
      assert !('a' <= t[i] <= 'z');
    }
  }

  /** Lower-casing forgets an upper-casing done before it: a case-insensitive comparison through
      `lowercase()` does not see `uppercase()`. */
  lemma {:induction false} AsciiLowerOfUpper(s: string)
    ensures AsciiLower(AsciiUpper(s)) == AsciiLower(s)
  {
    var u := AsciiUpper(s);
    forall i | 0 <= i < |s|
      ensures AsciiLower(u)[i] == AsciiLower(s)[i]
    {
      assert u[i] == s[i] || ('a' <= s[i] <= 'z' && u[i] as int == s[i] as int - 32);
    }
  }

  /** Upper-casing forgets a lower-casing done before it. */
  lemma {:induction false} AsciiUpperOfLower(s: string)
    ensures AsciiUpper(AsciiLower(s)) == AsciiUpper(s)
  {
    var l := AsciiLower(s);
    forall i | 0 <= i < |s|
      ensures AsciiUpper(l)[i] == AsciiUpper(s)[i]
    {
      assert l[i] == s[i] || ('A' <= s[i] <= 'Z' && l[i] as int == s[i] as int + 32);
    }
  }
}
