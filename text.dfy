/**
 * The few Python string operations the account switcher relies on:
 * `startswith`, `rstrip('\x00')`, `split('|')`, `'|'.join(...)`,
 * `split('_', 1)[1]`, `int(...)`, `str(n)` and the blank test of `strip()`.
 */
module Text {
  import opened Wrappers

  const NUL: char := '\0'

  /** Python's `s.startswith(prefix)`. */
  predicate StartsWith(s: string, prefix: string) {
    prefix <= s
  }

  /** Python's `s.endswith(suffix)`. */
  predicate EndsWith(s: string, suffix: string) {
    |suffix| <= |s| && s[|s| - |suffix|..] == suffix
  }

  /** Python's `s.rstrip('\x00')`: drops the NUL padding at the end and nothing else. */
  function StripNul(s: string): (r: string)
    ensures r <= s
    ensures |r| == 0 || r[|r| - 1] != NUL
    ensures forall i :: |r| <= i < |s| ==> s[i] == NUL
  {
    if |s| > 0 && s[|s| - 1] == NUL then StripNul(s[..|s| - 1]) else s
  }

  /** Python's `s.split(sep)`: never empty, `"".split(sep) == [""]`, no part holds `sep`. */
  function Split(s: string, sep: char): (parts: seq<string>)
    ensures |parts| >= 1
    ensures forall i :: 0 <= i < |parts| ==> sep !in parts[i]
  {
    if |s| == 0 then [""]
    else
      var rest := Split(s[1..], sep);
      if s[0] == sep then [""] + rest
      else [[s[0]] + rest[0]] + rest[1..]
  }

  /** Python's `sep.join(parts)`. */
  function Join(parts: seq<string>, sep: char): string {
    if |parts| == 0 then ""
    else if |parts| == 1 then parts[0]
    else parts[0] + [sep] + Join(parts[1..], sep)
  }

  /** Joining the parts of a split gives the original text back. */
  lemma {:induction false} JoinSplit(s: string, sep: char)
    ensures Join(Split(s, sep), sep) == s
  {
    if |s| > 0 {
      var rest := Split(s[1..], sep);
      JoinSplit(s[1..], sep);
      assert s == [s[0]] + s[1..];
      if s[0] == sep {
        assert ([""] + rest)[1..] == rest;
      } else {
        var parts := [[s[0]] + rest[0]] + rest[1..];
        if |rest| > 1 {
          assert parts[1..] == rest[1..];
          assert Join(rest, sep) == rest[0] + [sep] + Join(rest[1..], sep);
        }
      }
    }
  }

  /** Splitting a text that starts with a separator-free `p` glues `p` onto the first part. */
  lemma {:induction false} SplitAfterPlainPrefix(p: string, t: string, sep: char)
    requires sep !in p
    ensures Split(p + t, sep) == [p + Split(t, sep)[0]] + Split(t, sep)[1..]
  {
    if |p| > 0 {
      SplitAfterPlainPrefix(p[1..], t, sep);
      assert (p + t)[1..] == p[1..] + t;
      assert [p[0]] + (p[1..] + Split(t, sep)[0]) == p + Split(t, sep)[0];
    } else {
      var parts := Split(t, sep);
      assert p + t == t && p + parts[0] == parts[0];
      assert [parts[0]] + parts[1..] == parts;
    }
  }

  /** Splitting the join of separator-free parts gives the parts back. */
  lemma {:induction false} SplitJoin(parts: seq<string>, sep: char)
    requires |parts| >= 1
    requires forall i :: 0 <= i < |parts| ==> sep !in parts[i]
    ensures Split(Join(parts, sep), sep) == parts
  {
    if |parts| == 1 {
      SplitAfterPlainPrefix(parts[0], "", sep);
      assert parts[0] + "" == parts[0];
    } else {
      var rest := Join(parts[1..], sep);
      SplitJoin(parts[1..], sep);
      assert Split([sep] + rest, sep) == [""] + parts[1..];
      SplitAfterPlainPrefix(parts[0], [sep] + rest, sep);
      assert parts[0] + [sep] + rest == parts[0] + ([sep] + rest);
      assert parts[0] + "" == parts[0];
      assert [parts[0]] + parts[1..] == parts;
    }
  }

  /** NUL padding after a text that does not end in NUL is stripped from the padding alone. */
  lemma {:induction false} StripNulAfter(a: string, b: string)
    requires |a| > 0 && a[|a| - 1] != NUL
    ensures StripNul(a + b) == a + StripNul(b)
  {
    if |b| > 0 && b[|b| - 1] == NUL {
      StripNulAfter(a, b[..|b| - 1]);
      assert (a + b)[..|a + b| - 1] == a + b[..|b| - 1];
    } else if |b| == 0 {
      assert a + b == a;
    }
  }

  /** Splitting a separator-free `p`, a separator and any text gives `p`, then the text's split. */
  lemma SplitPlainThenSep(p: string, x: string, sep: char)
    requires sep !in p
    ensures Split(p + [sep] + x, sep) == [p] + Split(x, sep)
  {
    assert p + [sep] + x == p + ([sep] + x);
    assert ([sep] + x)[1..] == x;
    SplitAfterPlainPrefix(p, [sep] + x, sep);
    assert p + "" == p;
  }

  /** One more separator-free part in front of a joined text adds it in front of the split. */
  lemma SplitConsThen(p: string, rest: seq<string>, j: string, t: string, sep: char)
    requires sep !in p
    requires Split(j + [sep] + t, sep) == rest + Split(t, sep)
    ensures Split(p + [sep] + j + [sep] + t, sep) == [p] + rest + Split(t, sep)
  {
    var x := j + [sep] + t;
    assert p + [sep] + j + [sep] + t == p + [sep] + x;
    SplitPlainThenSep(p, x, sep);
  }

  /** Splitting separator-free parts joined, followed by a separator and any text, gives the parts and then the text's split. */
  lemma {:induction false} SplitJoinThen(parts: seq<string>, t: string, sep: char)
    requires |parts| >= 1
    requires forall i :: 0 <= i < |parts| ==> sep !in parts[i]
    ensures Split(Join(parts, sep) + [sep] + t, sep) == parts + Split(t, sep)
  {
    if |parts| == 1 {
      SplitPlainThenSep(parts[0], t, sep);
    } else {
      var j := Join(parts[1..], sep);
      SplitJoinThen(parts[1..], t, sep);
      SplitConsThen(parts[0], parts[1..], j, t, sep);
      assert Join(parts, sep) == parts[0] + [sep] + j;
      assert [parts[0]] + parts[1..] == parts;
    }
  }

  /** The index of the first `c` in `s` (Python's `s.index(c)`). */
  function IndexOf(s: string, c: char): (i: nat)
    requires c in s
    ensures i < |s| && s[i] == c
    ensures forall j :: 0 <= j < i ==> s[j] != c
  {
    if s[0] == c then 0 else 1 + IndexOf(s[1..], c)
  }

  /** Python's `s.split(c, 1)[1]`: everything after the first `c`. */
  function AfterFirst(s: string, c: char): string
    requires c in s
  {
    s[IndexOf(s, c) + 1..]
  }

  /** Python's `str.isspace()` on one character: the characters `str.strip()` removes. */
  predicate IsSpace(ch: char) {
    ch == ' ' || ('\t' <= ch <= '\r') || ('\U{1c}' <= ch <= '\U{1f}')
    || ch == '\U{85}' || ch == '\U{a0}' || ch == '\U{1680}'
    || ('\U{2000}' <= ch <= '\U{200a}') || ch == '\U{2028}' || ch == '\U{2029}'
    || ch == '\U{202f}' || ch == '\U{205f}' || ch == '\U{3000}'
  }

  /** `s.strip()` is empty exactly when every character of `s` is white space. */
  predicate IsBlank(s: string) {
    forall i :: 0 <= i < |s| ==> IsSpace(s[i])
  }

  predicate IsDigit(ch: char) {
    '0' <= ch <= '9'
  }

  predicate AllDigits(s: string) {
    forall i :: 0 <= i < |s| ==> IsDigit(s[i])
  }

  function DigitChar(d: nat): (ch: char)
    requires d < 10
    ensures IsDigit(ch) && ch as int - '0' as int == d
  {
    ('0' as int + d) as char
  }

  /** The number a string of decimal digits denotes. */
  function DigitsValue(s: string): nat
    requires AllDigits(s)
  {
    if |s| == 0 then 0 else DigitsValue(s[..|s| - 1]) * 10 + (s[|s| - 1] as int - '0' as int)
  }

  /**
   * Python's `int(s)` on text: an optional sign followed by decimal digits;
   * anything else is a `ValueError`, modelled as `None`.
   */
  function ParseInt(s: string): Option<int> {
    if |s| > 0 && (s[0] == '-' || s[0] == '+') then
      if |s| > 1 && AllDigits(s[1..]) then
        var magnitude: int := DigitsValue(s[1..]);
        Some(if s[0] == '-' then -magnitude else magnitude)
      else None
    else if |s| > 0 && AllDigits(s) then Some(DigitsValue(s))
    else None
  }

  /** Python's `str(n)` for a non-negative integer: its decimal digits. */
  function DecimalOf(n: nat): (s: string)
    ensures |s| >= 1 && AllDigits(s)
  {
    if n < 10 then [DigitChar(n)] else DecimalOf(n / 10) + [DigitChar(n % 10)]
  }

  /** The number of decimal digits `s` starts with. */
  function DigitRun(s: string): (n: nat)
    ensures n <= |s| && AllDigits(s[..n])
    ensures n == |s| || !IsDigit(s[n])
  {
    if |s| > 0 && IsDigit(s[0]) then
      var n := 1 + DigitRun(s[1..]);
      assert forall i :: 1 <= i < n ==> s[..n][i] == s[1..][..n - 1][i - 1];
      n
    else 0
  }

  /** A number at the head of `s` and the text after it, when `s` starts with a digit. */
  function ReadNumber(s: string): Option<(nat, string)> {
    var n := DigitRun(s);
    if n == 0 then None else Some((DigitsValue(s[..n]), s[n..]))
  }

  /** The digits of `str(n)` followed by a text that does not start with a digit read back as `n` and that text. */
  lemma {:induction false} ReadNumberDecimal(n: nat, t: string)
    requires |t| == 0 || !IsDigit(t[0])
    ensures ReadNumber(DecimalOf(n) + t) == Some((n, t))
  {
    var d := DecimalOf(n);
    DigitRunAll(d, t);
    assert (d + t)[..|d|] == d;
    assert (d + t)[|d|..] == t;
    DigitsOfDecimal(n);
  }

  lemma {:induction false} DigitRunAll(d: string, t: string)
    requires AllDigits(d)
    requires |t| == 0 || !IsDigit(t[0])
    ensures DigitRun(d + t) == |d|
  {
    if |d| > 0 {
      assert (d + t)[1..] == d[1..] + t;
      DigitRunAll(d[1..], t);
    } else {
      assert d + t == t;
    }
  }

  /** `int(str(n)) == n`: the label digits read back as the number they render. */
  lemma {:induction false} ParseDecimal(n: nat)
    ensures ParseInt(DecimalOf(n)) == Some(n)
  {
    DigitsOfDecimal(n);
  }

  lemma {:induction false} DigitsOfDecimal(n: nat)
    ensures DigitsValue(DecimalOf(n)) == n
  {
    var s := DecimalOf(n);
    if n < 10 {
      assert s[..0] == [];
    } else {
      DigitsOfDecimal(n / 10);
      assert s[..|s| - 1] == DecimalOf(n / 10);
    }
  }
}
