/** The JavaScript string and number built-ins the dashboard calls, with the semantics the
    pages rely on: toLowerCase/toUpperCase (on ASCII letters), includes, trim() === '',
    split, String(n), Number(s) on digit strings, and Math.round of a percentage. */
module JsBuiltins {
  import opened Collections

  // ---------------------------------------------------------------- letter case

  function LowerChar(c: char): char {
    if 'A' <= c <= 'Z' then (c as int + 32) as char else c
  }

  function UpperChar(c: char): char {
    if 'a' <= c <= 'z' then (c as int - 32) as char else c
  }

  /** String.prototype.toLowerCase, on the ASCII letters. */
  function ToLower(s: string): string {
    seq(|s|, i requires 0 <= i < |s| => LowerChar(s[i]))
  }

  /** String.prototype.toUpperCase, on the ASCII letters. */
  function ToUpper(s: string): string {
    seq(|s|, i requires 0 <= i < |s| => UpperChar(s[i]))
  }

  lemma ToUpperIdempotent(s: string)
    ensures ToUpper(ToUpper(s)) == ToUpper(s)
  {
  }

  /** Case conversion never introduces or removes a '-'. */
  lemma ToUpperKeepsDash(s: string)
    ensures '-' in ToUpper(s) <==> '-' in s
  {
    if '-' in ToUpper(s) {
      var i :| 0 <= i < |s| && ToUpper(s)[i] == '-';
      assert s[i] == '-';
    }
    if '-' in s {
      var i :| 0 <= i < |s| && s[i] == '-';
      assert ToUpper(s)[i] == '-';
    }
  }

  // ---------------------------------------------------------------- includes

  predicate StartsWith(s: string, prefix: string) {
    |prefix| <= |s| && s[..|prefix|] == prefix
  }

  predicate EndsWith(s: string, suffix: string) {
    |suffix| <= |s| && s[|s| - |suffix|..] == suffix
  }

  /** String.prototype.includes: sub occurs in s. Every string includes "". */
  predicate Contains(s: string, sub: string)
    decreases |s|
  {
    StartsWith(s, sub) || (|s| > 0 && Contains(s[1..], sub))
  }

  /** sub occurs in s starting at index i. */
  predicate OccursAt(s: string, sub: string, i: int) {
    0 <= i && i + |sub| <= |s| && s[i..i + |sub|] == sub
  }

  /** Contains agrees with the positional definition of an occurrence. */
  lemma {:induction false} ContainsAt(s: string, sub: string)
    ensures Contains(s, sub) <==> exists i :: OccursAt(s, sub, i)
    decreases |s|
  {
    if exists i :: OccursAt(s, sub, i) {
      var i :| OccursAt(s, sub, i);
      if i > 0 {
        assert s[1..][i - 1..i - 1 + |sub|] == sub;
        assert OccursAt(s[1..], sub, i - 1);
        ContainsAt(s[1..], sub);
      }
    }
    if Contains(s, sub) {
      if StartsWith(s, sub) {
        assert OccursAt(s, sub, 0);
      } else {
        ContainsAt(s[1..], sub);
        var i :| OccursAt(s[1..], sub, i);
        assert s[i + 1..i + 1 + |sub|] == sub;
        assert OccursAt(s, sub, i + 1);
      }
    }
  }

  // ---------------------------------------------------------------- trim

  /** The characters String.prototype.trim removes: the ECMAScript white space (tab, vertical
      tab, form feed, space, no-break space, the byte order mark and the Unicode space
      separators) and the line terminators. */
  predicate IsJsWhitespace(c: char) {
    c == ' ' || c == '\t' || c == '\n' || c == '\r' || c as int == 0x0B || c as int == 0x0C
    || c as int == 0xA0 || c as int == 0xFEFF || c as int == 0x2028 || c as int == 0x2029
    || c as int == 0x1680 || 0x2000 <= c as int <= 0x200A || c as int == 0x202F
    || c as int == 0x205F || c as int == 0x3000
  }

  /** s.trim() === '' */
  predicate IsBlank(s: string) {
    forall i :: 0 <= i < |s| ==> IsJsWhitespace(s[i])
  }

  // ---------------------------------------------------------------- split

  /** String.prototype.split with a one-character separator. */
  function Split(s: string, sep: char): (parts: seq<string>)
    ensures |parts| >= 1
    ensures forall i :: 0 <= i < |parts| ==> sep !in parts[i]
    decreases |s|
  {
    if |s| == 0 then [""]
    else
      var rest := Split(s[1..], sep);
      if s[0] == sep then [""] + rest
      else [[s[0]] + rest[0]] + rest[1..]
  }

  /** Array.prototype.join with a one-character separator: the inverse of Split. */
  function Join(parts: seq<string>, sep: char): string
    requires |parts| >= 1
    decreases |parts|
  {
    if |parts| == 1 then parts[0] else parts[0] + [sep] + Join(parts[1..], sep)
  }

  function Last<T>(s: seq<T>): T
    requires |s| >= 1
  {
    s[|s| - 1]
  }

  lemma {:induction false} JoinSplit(s: string, sep: char)
    ensures Join(Split(s, sep), sep) == s
    decreases |s|
  {
    if |s| > 0 {
      var rest := Split(s[1..], sep);
      JoinSplit(s[1..], sep);
      if s[0] != sep && |rest| > 1 {
        assert Join(rest, sep) == rest[0] + [sep] + Join(rest[1..], sep);
        var parts := [[s[0]] + rest[0]] + rest[1..];
        assert parts[1..] == rest[1..];
      } else if s[0] == sep {
        assert ([""] + rest)[1..] == rest;
      }
    }
  }

  /** Splitting a separator-free prefix a followed by rest glues a onto rest's first part. */
  lemma {:induction false} SplitPrefix(a: string, rest: string, sep: char)
    requires sep !in a
    ensures Split(a + rest, sep) == [a + Split(rest, sep)[0]] + Split(rest, sep)[1..]
    decreases |a|
  {
    var parts := Split(rest, sep);
    if |a| > 0 {
      SplitPrefix(a[1..], rest, sep);
      var tail := Split(a[1..] + rest, sep);
      assert tail[0] == a[1..] + parts[0] && tail[1..] == parts[1..];
      assert (a + rest)[0] == a[0] && (a + rest)[1..] == a[1..] + rest;
      assert Split(a + rest, sep) == [[a[0]] + tail[0]] + tail[1..];
      assert [a[0]] + (a[1..] + parts[0]) == a + parts[0];
    } else {
      assert a + rest == rest;
      assert a + parts[0] == parts[0];
      assert parts == [parts[0]] + parts[1..];
    }
  }

  lemma {:induction false} SplitJoin(parts: seq<string>, sep: char)
    requires |parts| >= 1
    requires forall i :: 0 <= i < |parts| ==> sep !in parts[i]
    ensures Split(Join(parts, sep), sep) == parts
    decreases |parts|
  {
    if |parts| == 1 {
      SplitPrefix(parts[0], "", sep);
      assert parts[0] + "" == parts[0];
    } else {
      var tail := Join(parts[1..], sep);
      SplitJoin(parts[1..], sep);
      assert parts[0] + [sep] + tail == parts[0] + ([sep] + tail);
      SplitPrefix(parts[0], [sep] + tail, sep);
      assert ([sep] + tail)[1..] == tail;
      assert Split([sep] + tail, sep) == [""] + parts[1..];
      assert parts[0] + "" == parts[0];
      assert parts == [parts[0] + ""] + parts[1..];
    }
  }

  /** A string without the separator splits into itself alone. */
  lemma SplitNoSeparator(s: string, sep: char)
    requires sep !in s
    ensures Split(s, sep) == [s]
  {
    SplitJoin([s], sep);
  }

  // ---------------------------------------------------------------- numbers

  predicate IsDigit(c: char) {
    '0' <= c <= '9'
  }

  predicate AllDigits(s: string) {
    forall i :: 0 <= i < |s| ==> IsDigit(s[i])
  }

  function DigitChar(d: nat): (c: char)
    requires d < 10
    ensures IsDigit(c)
  {
    ('0' as int + d) as char
  }

  /** String(n) for a non-negative integer: its decimal digits. */
  function NatToString(n: nat): (r: string)
    ensures |r| >= 1 && AllDigits(r)
    ensures n >= 10 ==> |r| >= 2
    decreases n
  {
    if n < 10 then [DigitChar(n)] else NatToString(n / 10) + [DigitChar(n % 10)]
  }

  function DigitsValue(s: string): nat
    requires AllDigits(s)
    decreases |s|
  {
    if |s| == 0 then 0
    else DigitsValue(s[..|s| - 1]) * 10 + (s[|s| - 1] as int - '0' as int)
  }

  /** Number(s) on the strings this model admits: "" is 0, a run of decimal digits is its
      value, and anything else is NaN (None). */
  function JsNumber(s: string): Option<nat>
  {
    if AllDigits(s) then Some(DigitsValue(s)) else None
  }

  /** Number(s) || 0: NaN and 0 both become 0. */
  function NumberOrZero(s: string): nat
  {
    match JsNumber(s)
    case Some(v) => v
    case None => 0
  }

  /** Number(String(n)) == n. */
  lemma {:induction false} NatToStringRoundTrip(n: nat)
    ensures JsNumber(NatToString(n)) == Some(n)
    decreases n
  {
    if n >= 10 {
      var s := NatToString(n);
      NatToStringRoundTrip(n / 10);
      assert s[..|s| - 1] == NatToString(n / 10);
      assert s[|s| - 1] as int - '0' as int == n % 10;
      assert DigitsValue(s) == (n / 10) * 10 + n % 10;
    }
  }

  /** The digits of String(n) never include '-'. */
  lemma NatToStringNoDash(n: nat)
    ensures '-' !in NatToString(n)
  {
  }

  /** Floor division of naturals, by repeated subtraction; being recursive, it is unfolded
      only as far as a proof needs, so no division by a variable reaches the solver. */
  function FloorDiv(n: nat, d: nat): nat
    requires d > 0
    decreases n
  {
    if n < d then 0 else 1 + FloorDiv(n - d, d)
  }

  /** FloorDiv is the quotient: d times it is at most n, and d times its successor exceeds n. */
  lemma {:induction false} FloorDivBounds(n: nat, d: nat)
    requires d > 0
    ensures d * FloorDiv(n, d) <= n < d * (FloorDiv(n, d) + 1)
    decreases n
  {
    if n >= d {
      FloorDivBounds(n - d, d);
      var q := FloorDiv(n - d, d);
      assert d * (q + 1) == d * q + d;
      assert d * (q + 2) == d * (q + 1) + d;
    }
  }

  /** Math.round(count / total * 100) on exact rationals: the integer nearest to
      100 * count / total, halves rounded up. */
  function RoundedPercent(count: nat, total: nat): nat
    requires total > 0
  {
    FloorDiv(200 * count + total, 2 * total)
  }

  /** The rounding is to the nearest integer: 100 * count / total lies within half a unit
      below or above the result (a half rounds up). */
  lemma RoundedPercentNearest(count: nat, total: nat)
    requires total > 0
    ensures 2 * total * RoundedPercent(count, total) <= 200 * count + total < 2 * total * (RoundedPercent(count, total) + 1)
  {
    FloorDivBounds(200 * count + total, 2 * total);
  }

  /** A share of a whole is at most 100 percent. */
  lemma {:induction false} RoundedPercentAtMost100(count: nat, total: nat)
    requires 0 < total && count <= total
    ensures RoundedPercent(count, total) <= 100
  {
    var n, d := 200 * count + total, 2 * total;
    FloorDivBounds(n, d);
    if FloorDiv(n, d) >= 101 {
      MulMonotone(d, 101, FloorDiv(n, d));
      assert false;
    }
  }

  /** Multiplying by a natural keeps the order of naturals. */
  lemma MulMonotone(a: nat, b: nat, c: nat)
    requires b <= c
    ensures a * b <= a * c
  {
  }
}
