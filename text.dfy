/**
 * String primitives the source uses through JavaScript's built-ins:
 * `String.prototype.trim`, `split` on a one-character separator,
 * `toUpperCase` (ASCII letters only), `Number.prototype.toString`,
 * `padStart` and `parseInt` on decimal digits.
 */
module Text {

  /** The characters `trim` removes: ECMAScript WhiteSpace and LineTerminator. */
  predicate IsWhitespace(c: char) {
    c == ' ' || c == '\t' || c == '\n' || c == '\r' || c == '\U{B}' || c == '\U{C}'
    || c == '\U{A0}' || c == '\U{1680}' || ('\U{2000}' <= c <= '\U{200A}')
    || c == '\U{2028}' || c == '\U{2029}' || c == '\U{202F}' || c == '\U{205F}'
    || c == '\U{3000}' || c == '\U{FEFF}'
  }

  /** The number of whitespace characters `trim` removes from the front of `s`. */
  function Leading(s: string): (n: nat)
    ensures n <= |s|
    ensures forall k :: 0 <= k < n ==> IsWhitespace(s[k])
    ensures n < |s| ==> !IsWhitespace(s[n])
  {
    if s != [] && IsWhitespace(s[0]) then
      var n := 1 + Leading(s[1..]);
      assert forall k :: 1 <= k < n ==> s[k] == s[1..][k - 1];
      n
    else 0
  }

  /** The number of whitespace characters `trim` removes from the end of `s`. */
  function Trailing(s: string): (n: nat)
    ensures n <= |s|
    ensures forall k :: |s| - n <= k < |s| ==> IsWhitespace(s[k])
    ensures n < |s| ==> !IsWhitespace(s[|s| - n - 1])
  {
    if s != [] && IsWhitespace(s[|s| - 1]) then
      var front := s[..|s| - 1];
      var n := 1 + Trailing(front);
      assert forall k :: |s| - n <= k < |s| - 1 ==> s[k] == front[k];
      n
    else 0
  }

  /** `trim`: `s` without its leading and trailing whitespace. */
  function Trim(s: string): (r: string)
    ensures Leading(s) + |r| <= |s| && r == s[Leading(s)..Leading(s) + |r|]
    ensures forall k :: 0 <= k < Leading(s) ==> IsWhitespace(s[k])
    ensures forall k :: Leading(s) + |r| <= k < |s| ==> IsWhitespace(s[k])
    ensures r != [] ==> !IsWhitespace(r[0]) && !IsWhitespace(r[|r| - 1])
  {
    var l := Leading(s);
    if l == |s| then []
    else
      var e := Trailing(s);
      assert e < |s| - l by {
        assert !IsWhitespace(s[l]);
      }
      s[l..|s| - e]
  }

  /** A string that neither starts nor ends with whitespace is its own trim. */
  lemma TrimUnchanged(s: string)
    requires s != [] ==> !IsWhitespace(s[0]) && !IsWhitespace(s[|s| - 1])
    ensures Trim(s) == s
  {
    if s != [] {
      assert Leading(s) == 0 && Trailing(s) == 0;
    }
  }

  /** A trimmed string is empty exactly when the input is all whitespace. */
  lemma TrimEmpty(s: string)
    ensures Trim(s) == [] <==> forall k :: 0 <= k < |s| ==> IsWhitespace(s[k])
  {
    if Trim(s) != [] {
      assert !IsWhitespace(s[Leading(s)]);
    }
  }

  /** The pieces joined back with `sep` between them (the inverse of `Split`). */
  function Join(parts: seq<string>, sep: char): string
    requires |parts| >= 1
  {
    if |parts| == 1 then parts[0] else parts[0] + [sep] + Join(parts[1..], sep)
  }

  /**
   * `s.split(sep)` for a one-character separator: the maximal runs between
   * occurrences of `sep`, empty runs included; never an empty list.
   */
  function Split(s: string, sep: char): (parts: seq<string>)
    ensures |parts| >= 1
    ensures forall i :: 0 <= i < |parts| ==> sep !in parts[i]
    ensures Join(parts, sep) == s
  {
    if s == [] then [""]
    else
      var rest := Split(s[1..], sep);
      if s[0] == sep then
        [""] + rest
      else
        assert (([s[0]] + rest[0]) + Join(rest, sep)[|rest[0]|..]) == s by {
          JoinFirst(rest, sep);
        }
        JoinFirstRest([s[0]] + rest[0], rest, sep);
        [[s[0]] + rest[0]] + rest[1..]
  }

  lemma {:induction false} JoinFirst(parts: seq<string>, sep: char)
    requires |parts| >= 1
    ensures |Join(parts, sep)| >= |parts[0]|
    ensures Join(parts, sep)[..|parts[0]|] == parts[0]
  {
  }

  lemma {:induction false} JoinFirstRest(first: string, parts: seq<string>, sep: char)
    requires |parts| >= 1
    ensures Join([first] + parts[1..], sep) == first + Join(parts, sep)[|parts[0]|..]
  {
    if |parts| > 1 {
      assert Join(parts, sep) == parts[0] + [sep] + Join(parts[1..], sep);
      assert ([first] + parts[1..])[1..] == parts[1..];
      assert Join(parts, sep)[|parts[0]|..] == [sep] + Join(parts[1..], sep);
    }
  }

  /** `Split` undoes `Join`: a list of `sep`-free pieces is recovered exactly. */
  lemma {:induction false} SplitJoin(parts: seq<string>, sep: char)
    requires |parts| >= 1
    requires forall i :: 0 <= i < |parts| ==> sep !in parts[i]
    ensures Split(Join(parts, sep), sep) == parts
  {
    var p0 := parts[0];
    if |parts| == 1 {
      SplitSepFree(p0, sep);
    } else {
      var rest := Join(parts[1..], sep);
      SplitJoin(parts[1..], sep);
      SplitPrefix(p0, rest, sep);
      assert Join(parts, sep) == p0 + [sep] + rest;
      assert [p0] + parts[1..] == parts;
    }
  }

  /** Three `sep`-free pieces joined by `sep` split back into those three. */
  lemma SplitThree(a: string, b: string, c: string, sep: char)
    requires sep !in a && sep !in b && sep !in c
    ensures Split(a + [sep] + b + [sep] + c, sep) == [a, b, c]
  {
    var rest := b + [sep] + c;
    SplitSepFree(c, sep);
    SplitPrefix(b, c, sep);
    assert Split(rest, sep) == [b, c];
    SplitPrefix(a, rest, sep);
    assert a + [sep] + b + [sep] + c == a + [sep] + rest;
  }

  /** A string without `sep` splits into itself alone. */
  lemma {:induction false} SplitSepFree(s: string, sep: char)
    requires sep !in s
    ensures Split(s, sep) == [s]
  {
    if s != [] {
      SplitSepFree(s[1..], sep);
    }
  }

  /** Splitting `w + sep + rest` for a `sep`-free `w` yields `w` followed by the pieces of `rest`. */
  lemma {:induction false} SplitPrefix(w: string, rest: string, sep: char)
    requires sep !in w
    ensures Split(w + [sep] + rest, sep) == [w] + Split(rest, sep)
  {
    if w == [] {
      assert w + [sep] + rest == [sep] + rest;
    } else {
      SplitPrefix(w[1..], rest, sep);
      var tail := w[1..] + [sep] + rest;
      assert w + [sep] + rest == [w[0]] + tail;
      SplitCons(w[0], tail, sep);
      assert [w[0]] + w[1..] == w;
    }
  }

  /** A leading character other than `sep` joins the first piece of the rest. */
  lemma SplitCons(c: char, t: string, sep: char)
    requires c != sep
    ensures Split([c] + t, sep) == [[c] + Split(t, sep)[0]] + Split(t, sep)[1..]
  {
    assert ([c] + t)[1..] == t;
  }

  /** There are at least two pieces exactly when the separator occurs. */
  lemma SplitMany(s: string, sep: char)
    ensures |Split(s, sep)| >= 2 <==> sep in s
  {
    var parts := Split(s, sep);
    if |parts| >= 2 {
      assert Join(parts, sep) == parts[0] + [sep] + Join(parts[1..], sep);
      assert s[|parts[0]|] == sep;
    }
  }

  /** The first piece starts with the first character of `s` unless that is the separator. */
  lemma SplitFirstChar(s: string, sep: char)
    requires s != [] && s[0] != sep
    ensures Split(s, sep)[0] != [] && Split(s, sep)[0][0] == s[0]
  {
  }

  /** The position of the last `c` in `s`, or -1 when `c` does not occur. */
  function LastIndexOf(s: string, c: char): (k: int)
    ensures -1 <= k < |s|
    ensures k >= 0 ==> s[k] == c
    ensures forall j :: k < j < |s| ==> s[j] != c
  {
    if s == [] then -1
    else if s[|s| - 1] == c then |s| - 1
    else LastIndexOf(s[..|s| - 1], c)
  }

  /** The last piece is everything after the last separator. */
  lemma {:induction false} SplitLast(s: string, sep: char)
    ensures var parts := Split(s, sep);
            parts[|parts| - 1] == s[LastIndexOf(s, sep) + 1..]
  {
    var parts := Split(s, sep);
    var last := parts[|parts| - 1];
    JoinLast(parts, sep);
    var start := |s| - |last|;
    assert s[start..] == last;
    forall j | start <= j < |s|
      ensures s[j] != sep
    {
      assert s[j] == last[j - start];
    }
    if |parts| >= 2 {
      LastIndexOfAt(s, sep, start - 1);
    } else {
      LastIndexOfAt(s, sep, -1);
    }
  }

  /** `LastIndexOf` is the one position after which `c` no longer occurs. */
  lemma LastIndexOfAt(s: string, c: char, k: int)
    requires -1 <= k < |s| && (k >= 0 ==> s[k] == c)
    requires forall j :: k < j < |s| ==> s[j] != c
    ensures LastIndexOf(s, c) == k
  {
  }

  /**
   * When `s` holds the separator but neither starts nor ends with it, the
   * first piece starts with `s[0]` and the last piece starts just after the
   * last separator.
   */
  lemma SplitEnds(s: string, sep: char)
    requires sep in s && s[0] != sep && s[|s| - 1] != sep
    ensures var parts := Split(s, sep);
            |parts| >= 2 && 0 <= LastIndexOf(s, sep) + 1 < |s| &&
            parts[0] != [] && parts[0][0] == s[0] &&
            parts[|parts| - 1] != [] && parts[|parts| - 1][0] == s[LastIndexOf(s, sep) + 1]
  {
    SplitMany(s, sep);
    SplitFirstChar(s, sep);
    SplitLast(s, sep);
    var j :| 0 <= j < |s| && s[j] == sep;
    assert LastIndexOf(s, sep) >= j;
  }

  /**
   * Splitting a string that neither starts nor ends with whitespace on a
   * whitespace separator: `SplitMany` and `SplitEnds` together.
   */
  lemma SplitTrimmed(t: string, sep: char)
    requires IsWhitespace(sep)
    requires t != [] ==> !IsWhitespace(t[0]) && !IsWhitespace(t[|t| - 1])
    ensures |Split(t, sep)| >= 2 <==> sep in t
    ensures var parts := Split(t, sep);
            |parts| >= 2 ==>
              0 <= LastIndexOf(t, sep) + 1 < |t| &&
              parts[0] != [] && parts[0][0] == t[0] &&
              parts[|parts| - 1] != [] && parts[|parts| - 1][0] == t[LastIndexOf(t, sep) + 1]
  {
    SplitMany(t, sep);
    if sep in t {
      SplitEnds(t, sep);
    }
  }

  lemma {:induction false} JoinLast(parts: seq<string>, sep: char)
    requires |parts| >= 1
    ensures var last := parts[|parts| - 1];
            |Join(parts, sep)| >= |last| && Join(parts, sep)[|Join(parts, sep)| - |last|..] == last
    ensures |parts| >= 2 ==>
              var last := parts[|parts| - 1];
              |Join(parts, sep)| >= |last| + 1 && Join(parts, sep)[|Join(parts, sep)| - |last| - 1] == sep
  {
    if |parts| >= 2 {
      JoinLast(parts[1..], sep);
      assert parts[1..][|parts[1..]| - 1] == parts[|parts| - 1];
      var tail := Join(parts[1..], sep);
      assert Join(parts, sep) == (parts[0] + [sep]) + tail;
      if |parts| >= 3 {
        assert tail[|tail| - |parts[|parts| - 1]| - 1] == sep;
      }
    }
  }

  /** ASCII `toUpperCase`: lower-case letters map to capitals, everything else is kept. */
  function ToUpper(c: char): (u: char)
    ensures 'a' <= c <= 'z' ==> 'A' <= u <= 'Z'
    ensures !('a' <= c <= 'z') ==> u == c
  {
    if 'a' <= c <= 'z' then (c as int - 32) as char else c
  }

  predicate IsUpperLetter(c: char) {
    'A' <= c <= 'Z'
  }

  predicate IsDigit(c: char) {
    '0' <= c <= '9'
  }

  predicate AllDigits(s: string) {
    forall i :: 0 <= i < |s| ==> IsDigit(s[i])
  }

  /** The decimal value of a digit string, as `parseInt(s, 10)` reads it. */
  function DigitsValue(s: string): nat
    requires AllDigits(s)
  {
    if s == [] then 0 else 10 * DigitsValue(s[..|s| - 1]) + (s[|s| - 1] as int - '0' as int)
  }

  function DigitChar(d: nat): (c: char)
    requires d < 10
    ensures IsDigit(c) && c as int - '0' as int == d
  {
    ('0' as int + d) as char
  }

  /**
   * `n.toString()`: the shortest decimal numeral of `n`, which reads back as `n`.
   */
  function NatToString(n: nat): (s: string)
    ensures |s| >= 1 && AllDigits(s)
    ensures DigitsValue(s) == n
    ensures |s| > 1 ==> s[0] != '0'
  {
    if n < 10 then [DigitChar(n)]
    else
      var s := NatToString(n / 10) + [DigitChar(n % 10)];
      assert s[..|s| - 1] == NatToString(n / 10);
      s
  }

  /** Distinct numbers have distinct numerals. */
  lemma NatToStringInjective(a: nat, b: nat)
    requires NatToString(a) == NatToString(b)
    ensures a == b
  {
  }

  /** A numeral has at most `width` digits exactly when the number is below 10^width. */
  lemma {:induction false} NatToStringLength(n: nat, width: nat)
    requires width >= 1
    ensures |NatToString(n)| <= width <==> n < Pow10(width)
  {
    assert Pow10(width) == 10 * Pow10(width - 1);
    if n < 10 {
      assert NatToString(n) == [DigitChar(n)];
    } else {
      assert |NatToString(n)| == |NatToString(n / 10)| + 1;
      if width > 1 {
        NatToStringLength(n / 10, width - 1);
        assert n / 10 < Pow10(width - 1) <==> n < 10 * Pow10(width - 1);
      }
    }
  }

  function Pow10(k: nat): (p: nat)
    ensures p >= 1
  {
    if k == 0 then 1 else 10 * Pow10(k - 1)
  }

  /** `c` repeated `n` times. */
  function Repeat(c: char, n: nat): (r: string)
    ensures |r| == n && forall i :: 0 <= i < n ==> r[i] == c
  {
    if n == 0 then [] else [c] + Repeat(c, n - 1)
  }

  /** `s.padStart(width, pad)`: `s` left-filled with `pad` up to `width`, never cut. */
  function PadStart(s: string, width: nat, pad: char): (r: string)
    ensures |r| == if |s| >= width then |s| else width
    ensures r[|r| - |s|..] == s
    ensures forall i :: 0 <= i < |r| - |s| ==> r[i] == pad
  {
    if |s| >= width then s else Repeat(pad, width - |s|) + s
  }

  /** Leading zeros do not change the value `parseInt` reads. */
  lemma {:induction false} LeadingZeros(n: nat, s: string)
    requires AllDigits(s)
    ensures AllDigits(Repeat('0', n) + s)
    ensures DigitsValue(Repeat('0', n) + s) == DigitsValue(s)
  {
    var z := Repeat('0', n);
    if s == [] {
      assert z + s == z;
      ZerosValue(n);
    } else {
      LeadingZeros(n, s[..|s| - 1]);
      assert (z + s)[..|z + s| - 1] == z + s[..|s| - 1];
    }
  }

  lemma {:induction false} ZerosValue(n: nat)
    ensures DigitsValue(Repeat('0', n)) == 0
  {
    if n > 0 {
      ZerosValue(n - 1);
      assert Repeat('0', n) == Repeat('0', n - 1) + ['0'] by {
        RepeatSnoc(n);
      }
      assert Repeat('0', n)[..n - 1] == Repeat('0', n - 1);
    }
  }

  lemma RepeatSnoc(n: nat)
    requires n > 0
    ensures Repeat('0', n) == Repeat('0', n - 1) + ['0']
  {
  }

  /** Zero-padding a numeral keeps its value and its digits. */
  lemma PaddedValue(n: nat, width: nat)
    ensures AllDigits(PadStart(NatToString(n), width, '0'))
    ensures DigitsValue(PadStart(NatToString(n), width, '0')) == n
  {
    ZeroPadded(NatToString(n), width);
  }

  /** Zero-padding a digit string keeps it a digit string with the same value. */
  lemma ZeroPadded(s: string, width: nat)
    requires AllDigits(s)
    ensures AllDigits(PadStart(s, width, '0'))
    ensures DigitsValue(PadStart(s, width, '0')) == DigitsValue(s)
  {
    if |s| < width {
      LeadingZeros(width - |s|, s);
      assert PadStart(s, width, '0') == Repeat('0', width - |s|) + s;
    } else {
      assert PadStart(s, width, '0') == s;
    }
  }

}
