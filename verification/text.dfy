/** The string operations the modelled code relies on. */
module Text {
  // ---------------------------------------------------------------------------------------
  // Lexicographic order
  // ---------------------------------------------------------------------------------------

  predicate LexLe(a: string, b: string) {
    || a == ""
    || (b != "" && (a[0] < b[0] || (a[0] == b[0] && LexLe(a[1..], b[1..]))))
  }

  lemma {:induction false} LexTotal(a: string, b: string)
    ensures LexLe(a, b) || LexLe(b, a)
    ensures LexLe(a, b) && LexLe(b, a) ==> a == b
  {
    if a != "" && b != "" && a[0] == b[0] {
      LexTotal(a[1..], b[1..]);
    }
  }

  lemma {:induction false} LexTransitive(a: string, b: string, c: string)
    requires LexLe(a, b) && LexLe(b, c)
    ensures LexLe(a, c)
  {
    if a != "" && a[0] == b[0] == c[0] {
      LexTransitive(a[1..], b[1..], c[1..]);
    }
  }

  /** `a` comes strictly before `b` as texts compare: it is a proper beginning of `b`, or smaller
      at the first difference. */
  ghost predicate SortsBefore(a: string, b: string) {
    exists n :: 0 <= n <= |a| && DiffersAt(a, b, n)
  }

  ghost predicate DiffersAt(a: string, b: string, n: nat) {
    n <= |a| && n < |b| && a[..n] == b[..n] && (n == |a| || a[n] < b[n])
  }

  lemma {:induction false} SortsBeforeIff(a: string, b: string)
    ensures SortsBefore(a, b) <==> !LexLe(b, a)
  {
    if a == "" || b == "" || a[0] != b[0] {
      if b != "" && (a == "" || a[0] < b[0]) { assert DiffersAt(a, b, 0); }
      forall n | 0 <= n <= |a| ensures DiffersAt(a, b, n) ==> b != "" && (a == "" || a[0] < b[0]) {
        FirstDecides(a, b, n);
      }
    } else {
      SortsBeforeIff(a[1..], b[1..]);
      SortsBeforeInTail(a, b);
    }
  }

  lemma FirstDecides(a: string, b: string, n: nat)
    ensures DiffersAt(a, b, n) && (a == "" || b == "" || a[0] != b[0]) ==> b != "" && (a == "" || a[0] < b[0])
  {
    if DiffersAt(a, b, n) && n > 0 { assert a[..n][0] == b[..n][0]; }
  }

  lemma SortsBeforeInTail(a: string, b: string)
    requires a != "" && b != "" && a[0] == b[0]
    ensures SortsBefore(a, b) <==> SortsBefore(a[1..], b[1..])
  {
    if SortsBefore(a, b) {
      var n :| 0 <= n <= |a| && DiffersAt(a, b, n);
      assert n > 0 && a[1..][..n - 1] == a[..n][1..] && b[1..][..n - 1] == b[..n][1..];
      assert DiffersAt(a[1..], b[1..], n - 1);
    }
    if SortsBefore(a[1..], b[1..]) {
      var n :| 0 <= n <= |a[1..]| && DiffersAt(a[1..], b[1..], n);
      assert a == [a[0]] + a[1..] && b == [b[0]] + b[1..];
      assert a[..n + 1] == [a[0]] + a[1..][..n] && b[..n + 1] == [b[0]] + b[1..][..n];
      assert DiffersAt(a, b, n + 1);
    }
  }

  lemma SortsBeforeChain(a: string, b: string, c: string)
    requires (a == b || SortsBefore(a, b)) && (SortsBefore(b, c) || b == c)
    ensures a == c || SortsBefore(a, c)
    ensures (a != b || b != c) ==> SortsBefore(a, c)
  {
    SortsBeforeIff(a, b);
    SortsBeforeIff(b, c);
    SortsBeforeIff(a, c);
    LexTotal(a, b);
    LexTotal(b, c);
    LexTotal(a, c);
    LexTotal(c, a);
    LexTotal(c, b);
    if LexLe(a, b) && LexLe(b, c) { LexTransitive(a, b, c); }
  }

  /** The elements of a set in lexicographic order, as `sorted(directory.glob(...))` lists them. */
  function SortedNames(names: set<string>): (order: seq<string>)
    ensures forall n :: n in order <==> n in names
    ensures |order| == |names|
    decreases |names|
  {
    if names == {} then [] else
      LeastExists(names);
      var least :| least in names && forall n :: n in names ==> LexLe(least, n);
      OneLeast(names);
      [least] + SortedNames(names - {least})
  }

  lemma OneLeast(names: set<string>)
    ensures forall a, b ::
      (a in names && b in names && (forall n :: n in names ==> LexLe(a, n)) && (forall n :: n in names ==> LexLe(b, n)))
      ==> a == b
  {
    forall a, b | a in names && b in names && LexLe(a, b) && LexLe(b, a) ensures a == b { LexTotal(a, b); }
  }

  lemma LeastExists(names: set<string>)
    requires names != {}
    ensures exists least :: least in names && forall n :: n in names ==> LexLe(least, n)
  {
    var least := Least(names);
  }

  lemma {:induction false} Least(names: set<string>) returns (least: string)
    requires names != {}
    ensures least in names && forall n :: n in names ==> LexLe(least, n)
    decreases |names|
  {
    var x :| x in names;
    LexTotal(x, x);
    least := x;
    if names != {x} {
      var m := Least(names - {x});
      LexTotal(x, m);
      if LexLe(x, m) {
        forall n | n in names ensures LexLe(x, n) {
          if n != x { LexTransitive(x, m, n); }
        }
      } else {
        least := m;
      }
    }
  }

  /** Listed earlier means strictly smaller. */
  lemma {:induction false} SortedNamesIncrease(names: set<string>, i: nat, j: nat)
    requires i < j < |SortedNames(names)|
    ensures LexLe(SortedNames(names)[i], SortedNames(names)[j])
    ensures SortedNames(names)[i] != SortedNames(names)[j]
    decreases |names|
  {
    var order := SortedNames(names);
    var least, rest := order[0], names - {order[0]};
    assert order[1..] == SortedNames(rest);
    if i == 0 {
      assert order[j] == SortedNames(rest)[j - 1];
      assert order[j] in rest;
    } else {
      SortedNamesIncrease(rest, i - 1, j - 1);
    }
  }

  // ---------------------------------------------------------------------------------------
  // Decimal numbers
  // ---------------------------------------------------------------------------------------

  predicate IsDigit(c: char) { '0' <= c <= '9' }

  predicate AllDigits(s: string) { forall i :: 0 <= i < |s| ==> IsDigit(s[i]) }

  function DigitChar(d: nat): (c: char)
    requires d < 10
    ensures IsDigit(c) && DigitValue(c) == d
  {
    '0' + d as char
  }

  function DigitValue(c: char): (d: nat)
    requires IsDigit(c)
    ensures d < 10
  {
    (c - '0') as nat
  }

  /** The value Python's `int` gives a run of digits. */
  function Parse(s: string): nat
    requires AllDigits(s)
  {
    if s == "" then 0 else Parse(s[..|s| - 1]) * 10 + DigitValue(s[|s| - 1])
  }

  function Decimal(n: nat): (s: string)
    ensures |s| > 0 && AllDigits(s) && Parse(s) == n
  {
    if n < 10 then
      assert [DigitChar(n)][..0] == "";
      [DigitChar(n)]
    else
      var front := Decimal(n / 10);
      var s := front + [DigitChar(n % 10)];
      assert s[..|s| - 1] == front;
      s
  }

  /** `format(n, "0{width}d")`: the decimal, filled up with zeros in front. */
  function Padded(n: nat, width: nat): (s: string)
    ensures |s| > 0 && AllDigits(s) && Parse(s) == n
  {
    ZerosParse(width, Decimal(n));
    Zeros(width, Decimal(n))
  }

  function Zeros(width: nat, s: string): (r: string)
    ensures |r| >= |s|
    decreases width - |s|
  {
    if |s| >= width then s else Zeros(width, "0" + s)
  }

  lemma {:induction false} ZerosParse(width: nat, s: string)
    requires AllDigits(s)
    ensures AllDigits(Zeros(width, s)) && Parse(Zeros(width, s)) == Parse(s)
    decreases width - |s|
  {
    if |s| < width {
      LeadingZero(s);
      ZerosParse(width, "0" + s);
    }
  }

  lemma {:induction false} LeadingZero(s: string)
    requires AllDigits(s)
    ensures AllDigits("0" + s) && Parse("0" + s) == Parse(s)
  {
    var z := "0" + s;
    if s == "" {
      assert z[..0] == "";
    } else {
      LeadingZero(s[..|s| - 1]);
      assert z[..|z| - 1] == "0" + s[..|s| - 1];
    }
  }

  /** The longest run of digits at the end of `s`. */
  function TrailingDigits(s: string): (d: string)
    ensures AllDigits(d)
  {
    if s == "" || !IsDigit(s[|s| - 1]) then "" else TrailingDigits(s[..|s| - 1]) + [s[|s| - 1]]
  }

  lemma {:induction false} TrailingDigitsAfter(front: string, d: string)
    requires AllDigits(d) && (front == "" || !IsDigit(front[|front| - 1]))
    ensures TrailingDigits(front + d) == d
  {
    var s := front + d;
    if d == "" {
      assert s == front;
    } else {
      TrailingDigitsAfter(front, d[..|d| - 1]);
      assert s[|s| - 1] == d[|d| - 1];
      assert s[..|s| - 1] == front + d[..|d| - 1];
    }
  }

  // ---------------------------------------------------------------------------------------
  // Case, splitting, joining, containment
  // ---------------------------------------------------------------------------------------

  function LowerChar(c: char): char {
    if 'A' <= c <= 'Z' then c + 32 as char else c
  }

  function Lower(s: string): (r: string)
    ensures |r| == |s| && forall i :: 0 <= i < |s| ==> r[i] == LowerChar(s[i])
  {
    seq(|s|, i requires 0 <= i < |s| => LowerChar(s[i]))
  }

  /** Two characters are one letter of the alphabet in two cases. */
  ghost predicate SameLetter(a: char, b: char) {
    exists n: nat :: n < 26 && InBothCases(a, b, n)
  }

  ghost predicate InBothCases(a: char, b: char, n: nat)
    requires n < 26
  {
    var upper, lower := 'A' + n as char, 'a' + n as char;
    (a == upper && b == lower) || (a == lower && b == upper)
  }

  lemma LowerCharIff(a: char, b: char)
    ensures LowerChar(a) == LowerChar(b) <==> a == b || SameLetter(a, b)
    ensures !('A' <= LowerChar(a) <= 'Z')
  {
    if LowerChar(a) == LowerChar(b) && a != b {
      var upper := if a < b then a else b;
      assert InBothCases(a, b, upper as int - 'A' as int);
    }
  }

  /** `s.split(sep)` for a one-character separator. */
  function SplitOn(s: string, sep: char): (parts: seq<string>)
    ensures |parts| > 0
  {
    if s == "" then [""]
    else
      var rest := SplitOn(s[1..], sep);
      if s[0] == sep then [""] + rest else [[s[0]] + rest[0]] + rest[1..]
  }

  function Join(parts: seq<string>, sep: string): string {
    if parts == [] then "" else if |parts| == 1 then parts[0]
    else parts[0] + sep + Join(parts[1..], sep)
  }

  /** A text without the separator is one part; otherwise the first part ends at the first one. */
  lemma {:induction false} SplitOnAt(front: string, sep: char, rest: string)
    requires sep !in front
    ensures SplitOn(front, sep) == [front]
    ensures SplitOn(front + [sep] + rest, sep) == [front] + SplitOn(rest, sep)
  {
    if front == "" {
      assert ("" + [sep] + rest)[1..] == rest;
    } else {
      SplitOnAt(front[1..], sep, rest);
      assert (front + [sep] + rest)[1..] == front[1..] + [sep] + rest;
      assert front == [front[0]] + front[1..];
    }
  }

  /** Splitting at a separator between two texts splits each. */
  lemma {:induction false} SplitOnBoth(a: string, sep: char, b: string)
    ensures SplitOn(a + [sep] + b, sep) == SplitOn(a, sep) + SplitOn(b, sep)
  {
    if a == "" {
      assert ("" + [sep] + b)[1..] == b;
    } else {
      assert (a + [sep] + b)[1..] == a[1..] + [sep] + b;
      SplitOnBoth(a[1..], sep, b);
    }
  }

  /** Joining what splitting at a separator gives is the text again. */
  lemma {:induction false} JoinOfSplit(s: string, sep: char)
    ensures Join(SplitOn(s, sep), [sep]) == s
  {
    if s != "" {
      var rest := SplitOn(s[1..], sep);
      JoinOfSplit(s[1..], sep);
      assert s == [s[0]] + s[1..];
      if s[0] == sep {
        assert ([""] + rest)[1..] == rest;
      } else if |rest| > 1 {
        assert ([[s[0]] + rest[0]] + rest[1..])[1..] == rest[1..];
      }
    }
  }

  predicate OccursAt(hay: string, needle: string, i: nat) {
    i + |needle| <= |hay| && hay[i..i + |needle|] == needle
  }

  predicate Contains(hay: string, needle: string) {
    exists i :: 0 <= i <= |hay| && OccursAt(hay, needle, i)
  }

  // ---------------------------------------------------------------------------------------
  // White space, as `str.strip` and `str.split` understand it
  // ---------------------------------------------------------------------------------------

  predicate IsSpace(c: char) {
    var n := c as int;
    || 9 <= n <= 13 || 28 <= n <= 32 || n == 0x85 || n == 0xA0 || n == 0x1680
    || 0x2000 <= n <= 0x200A || n == 0x2028 || n == 0x2029 || n == 0x202F || n == 0x205F || n == 0x3000
  }

  function RStrip(s: string): (r: string)
    ensures r <= s
    ensures r == "" || !IsSpace(r[|r| - 1])
    ensures forall i :: |r| <= i < |s| ==> IsSpace(s[i])
  {
    if s == "" || !IsSpace(s[|s| - 1]) then s else RStrip(s[..|s| - 1])
  }

  function LStrip(s: string): (r: string)
    ensures |r| <= |s| && r == s[|s| - |r|..]
    ensures r == "" || !IsSpace(r[0])
  {
    if s == "" || !IsSpace(s[0]) then s else LStrip(s[1..])
  }

  function Strip(s: string): string {
    LStrip(RStrip(s))
  }
}
