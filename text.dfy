/**
 * String helpers shared by the model: Python's `str.join`, `str.strip`,
 * `str.startswith`/`endswith` and the decimal rendering of integers
 * (`str(n)`, f-string interpolation of an `int`).
 *
 * Characters are treated as ASCII where Python is Unicode-aware: `IsSpace`
 * knows the ASCII whitespace that `str.isspace` accepts and no other.
 */
module Text {

  /** `sep.join(parts)` */
  function Join(parts: seq<string>, sep: string): string
  {
    if |parts| == 0 then ""
    else if |parts| == 1 then parts[0]
    else parts[0] + sep + Join(parts[1..], sep)
  }

  /** Number of occurrences of `c` in `s` (`s.count(c)`). */
  function Count(s: string, c: char): nat
  {
    if s == [] then 0 else (if s[0] == c then 1 else 0) + Count(s[1..], c)
  }

  lemma {:induction false} CountAppend(a: string, b: string, c: char)
    ensures Count(a + b, c) == Count(a, c) + Count(b, c)
  {
    if a == [] {
      assert a + b == b;
    } else {
      assert (a + b)[1..] == a[1..] + b;
      CountAppend(a[1..], b, c);
    }
  }

  lemma {:induction false} CountZero(s: string, c: char)
    ensures Count(s, c) == 0 <==> c !in s
  {
    if s != [] {
      CountZero(s[1..], c);
      assert s == [s[0]] + s[1..];
    }
  }

  /** `s.endswith(suffix)` */
  predicate EndsWith(s: string, suffix: string)
  {
    |suffix| <= |s| && s[|s| - |suffix|..] == suffix
  }

  /** Index of the first `c` in `s`. */
  function FirstIndex(s: string, c: char): (i: nat)
    requires c in s
    ensures i < |s| && s[i] == c && c !in s[..i]
  {
    if s[0] == c then 0
    else
      assert c in s[1..] by { var j :| 0 <= j < |s| && s[j] == c; assert s[1..][j - 1] == c; }
      var i := 1 + FirstIndex(s[1..], c);
      assert s[..i] == [s[0]] + s[1..][..i - 1];
      i
  }

  /** The first `c` of `a + [c] + b` is the one after `a` when `a` holds none. */
  lemma FirstIndexAfter(a: string, c: char, b: string)
    requires c !in a
    ensures FirstIndex(a + [c] + b, c) == |a|
  {
    var s := a + [c] + b;
    assert s[..|a|] == a && s[|a|] == c;
    var i := FirstIndex(s, c);
    assert forall k :: 0 <= k < |a| ==> s[k] == a[k] && a[k] != c;
  }

  /** `s.split(c)`: the pieces between the occurrences of `c`. */
  function SplitOn(s: string, c: char): (parts: seq<string>)
    ensures |parts| >= 1
    ensures Join(parts, [c]) == s
    ensures forall i :: 0 <= i < |parts| ==> c !in parts[i]
    decreases |s|
  {
    if c !in s then [s]
    else
      var i := FirstIndex(s, c);
      var rest := SplitOn(s[i + 1..], c);
      assert s == s[..i] + [c] + s[i + 1..];
      var parts := [s[..i]] + rest;
      assert parts[1..] == rest;
      parts
  }

  /** Splitting at the first `c` peels off the piece before it. */
  lemma SplitOnStep(a: string, c: char, b: string)
    requires c !in a
    ensures SplitOn(a + [c] + b, c) == [a] + SplitOn(b, c)
  {
    var s := a + [c] + b;
    assert s[|a|] == c;
    FirstIndexAfter(a, c, b);
    assert s[..|a|] == a && s[|a| + 1..] == b;
  }

  /** Splitting a join of pieces free of `c` gives the pieces back. */
  lemma {:induction false} SplitOnJoin(parts: seq<string>, c: char)
    requires |parts| >= 1 && forall i :: 0 <= i < |parts| ==> c !in parts[i]
    ensures SplitOn(Join(parts, [c]), c) == parts
  {
    if |parts| > 1 {
      var rest := Join(parts[1..], [c]);
      assert Join(parts, [c]) == parts[0] + [c] + rest;
      SplitOnStep(parts[0], c, rest);
      SplitOnJoin(parts[1..], c);
      assert parts == [parts[0]] + parts[1..];
    }
  }

  /** ASCII characters for which Python's `str.isspace` holds. */
  predicate IsSpace(c: char)
  {
    c == ' ' || (9 <= c as int <= 13) || (28 <= c as int <= 31)
  }

  predicate AllSpace(s: string)
  {
    forall i :: 0 <= i < |s| ==> IsSpace(s[i])
  }

  /** No whitespace at either end. */
  predicate Trimmed(s: string)
  {
    s == [] || (!IsSpace(s[0]) && !IsSpace(s[|s| - 1]))
  }

  /** `s.lstrip()`: drops the leading whitespace, keeps a suffix of `s`. */
  function LStrip(s: string): (r: string)
    ensures |r| <= |s| && r == s[|s| - |r|..]
    ensures AllSpace(s[..|s| - |r|])
    ensures r == [] || !IsSpace(r[0])
  {
    if s != [] && IsSpace(s[0]) then
      var r := LStrip(s[1..]);
      assert s[..|s| - |r|] == [s[0]] + s[1..][..|s| - 1 - |r|];
      r
    else s
  }

  /** `s.rstrip()`: drops the trailing whitespace, keeps a prefix of `s`. */
  function RStrip(s: string): (r: string)
    ensures |r| <= |s| && r == s[..|r|]
    ensures AllSpace(s[|r|..])
    ensures r == [] || !IsSpace(r[|r| - 1])
  {
    if s != [] && IsSpace(s[|s| - 1]) then
      var r := RStrip(s[..|s| - 1]);
      assert s[|r|..] == s[..|s| - 1][|r|..] + [s[|s| - 1]];
      r
    else s
  }

  /** `s.strip()` */
  function Strip(s: string): (r: string)
    ensures Trimmed(r)
  {
    var l := LStrip(s);
    var r := RStrip(l);
    assert r != [] ==> r[0] == l[0];
    r
  }

  lemma {:induction false} LStripOf(a: string, b: string)
    requires AllSpace(a) && (b == [] || !IsSpace(b[0]))
    ensures LStrip(a + b) == b
  {
    if a != [] {
      assert (a + b)[1..] == a[1..] + b;
      LStripOf(a[1..], b);
    }
  }

  lemma {:induction false} RStripOf(a: string, b: string)
    requires AllSpace(b) && (a == [] || !IsSpace(a[|a| - 1]))
    ensures RStrip(a + b) == a
  {
    if b != [] {
      assert (a + b)[..|a + b| - 1] == a + b[..|b| - 1];
      RStripOf(a, b[..|b| - 1]);
    }
  }

  /** Stripping removes exactly the surrounding whitespace: `(a + core + b).strip() == core`. */
  lemma StripOf(a: string, core: string, b: string)
    requires AllSpace(a) && AllSpace(b) && Trimmed(core)
    ensures Strip(a + core + b) == core
  {
    if core == [] {
      assert a + core + b == a + b + [];
      LStripOf(a + b, []);
    } else {
      assert a + core + b == a + (core + b);
      LStripOf(a, core + b);
      RStripOf(core, b);
    }
  }

  /** A trimmed string is its own strip. */
  lemma StripTrimmed(s: string)
    requires Trimmed(s)
    ensures Strip(s) == s
  {
    StripOf([], s, []);
    assert [] + s + [] == s;
  }

  predicate IsDigit(c: char)
  {
    '0' <= c <= '9'
  }

  predicate AllDigits(s: string)
  {
    forall i :: 0 <= i < |s| ==> IsDigit(s[i])
  }

  /** A run of digits with no leading zero: SemVer's `0|[1-9][0-9]*`. */
  predicate Canonical(s: string)
  {
    |s| >= 1 && AllDigits(s) && (s[0] == '0' ==> |s| == 1)
  }

  function DigitChar(d: nat): (c: char)
    requires d < 10
    ensures IsDigit(c)
  {
    "0123456789"[d]
  }

  function DigitValue(c: char): (d: nat)
    requires IsDigit(c)
    ensures d < 10 && DigitChar(d) == c
  {
    c as int - '0' as int
  }

  /** `str(n)` for a non-negative integer. */
  function NatToString(n: nat): (r: string)
    ensures Canonical(r)
  {
    if n < 10 then [DigitChar(n)] else NatToString(n / 10) + [DigitChar(n % 10)]
  }

  /** `int(s)` for a run of ASCII digits. */
  function DecimalValue(s: string): nat
    requires AllDigits(s)
  {
    if s == [] then 0 else 10 * DecimalValue(s[..|s| - 1]) + DigitValue(s[|s| - 1])
  }

  /** `str(n)` for any integer. */
  function IntToString(i: int): string
  {
    if i < 0 then "-" + NatToString(-i) else NatToString(i)
  }

  lemma {:induction false} DecimalOfNatToString(n: nat)
    ensures DecimalValue(NatToString(n)) == n
  {
    if n >= 10 {
      var s := NatToString(n);
      assert s[..|s| - 1] == NatToString(n / 10);
      DecimalOfNatToString(n / 10);
    }
  }

  lemma {:induction false} DecimalPositive(s: string)
    requires AllDigits(s) && |s| >= 1 && s[0] != '0'
    ensures DecimalValue(s) >= 1
  {
    if |s| > 1 {
      DecimalPositive(s[..|s| - 1]);
    }
  }

  /** Parsing a canonical digit run and printing it back gives the same text. */
  lemma {:induction false} NatToStringOfDecimal(s: string)
    requires Canonical(s)
    ensures NatToString(DecimalValue(s)) == s
  {
    if |s| > 1 {
      var p := s[..|s| - 1];
      DecimalPositive(p);
      NatToStringOfDecimal(p);
      var n := DecimalValue(s);
      assert n / 10 == DecimalValue(p) && n % 10 == DigitValue(s[|s| - 1]);
      assert s == p + [s[|s| - 1]];
    }
  }

  lemma NatToStringInjective(a: nat, b: nat)
    requires NatToString(a) == NatToString(b)
    ensures a == b
  {
    DecimalOfNatToString(a);
    DecimalOfNatToString(b);
  }

  /** Python's `a < b` on strings: lexicographic order of code points. */
  predicate Less(a: string, b: string)
  {
    |b| > 0 && (|a| == 0 || a[0] < b[0] || (a[0] == b[0] && Less(a[1..], b[1..])))
  }

  lemma {:induction false} LessIrreflexive(a: string)
    ensures !Less(a, a)
  {
    if |a| > 0 {
      LessIrreflexive(a[1..]);
    }
  }

  lemma {:induction false} LessTransitive(a: string, b: string, c: string)
    requires Less(a, b) && Less(b, c)
    ensures Less(a, c)
  {
    if |a| > 0 && a[0] == b[0] && b[0] == c[0] {
      LessTransitive(a[1..], b[1..], c[1..]);
    }
  }

  lemma {:induction false} LessTotal(a: string, b: string)
    ensures a == b || Less(a, b) || Less(b, a)
  {
    if |a| > 0 && |b| > 0 && a[0] == b[0] {
      LessTotal(a[1..], b[1..]);
      if a[1..] == b[1..] {
        assert a == [a[0]] + a[1..] && b == [b[0]] + b[1..];
      }
    }
  }

  /* ---------------------------------------------------------------- */
  /* `repr` of a string                                                */
  /* ---------------------------------------------------------------- */

  /** The quote `repr` puts around a string: `"` when it holds `'` but no `"`, else `'`. */
  function ReprQuote(s: string): char
  {
    if '\'' in s && '"' !in s then '"' else '\''
  }

  const HexDigits: string := "0123456789abcdef"

  /**
   * How `repr` writes one ASCII character between quotes `q`: the
   * backslash and the quote itself are escaped, tab, line feed and carriage
   * return get their letters, other control characters a `\xhh` escape.
   */
  function EscapeChar(c: char, q: char): string
  {
    if c == '\\' || c == q then ['\\', c]
    else if c == '\t' then "\\t"
    else if c == '\n' then "\\n"
    else if c == '\r' then "\\r"
    else if c < ' ' || c as int == 0x7F then ['\\', 'x', HexDigits[c as int / 16], HexDigits[c as int % 16]]
    else [c]
  }

  function Escaped(s: string, q: char): string
  {
    if |s| == 0 then "" else EscapeChar(s[0], q) + Escaped(s[1..], q)
  }

  /** `repr(s)`: the escaped text between its quotes. */
  function Repr(s: string): (r: string)
    ensures |r| >= 2 && r[0] == ReprQuote(s) && r[|r| - 1] == ReprQuote(s)
  {
    [ReprQuote(s)] + Escaped(s, ReprQuote(s)) + [ReprQuote(s)]
  }

  function HexValue(c: char): int
  {
    if '0' <= c <= '9' then c as int - '0' as int
    else if 'a' <= c <= 'f' then c as int - 'a' as int + 10
    else 0
  }

  /** Reading escapes back, as Python reads a string literal. */
  function Unescaped(t: string): string
  {
    if |t| >= 4 && t[0] == '\\' && t[1] == 'x' then [(16 * HexValue(t[2]) + HexValue(t[3])) as char] + Unescaped(t[4..])
    else if |t| >= 2 && t[0] == '\\' && t[1] != 'x' then
      [if t[1] == 't' then '\t' else if t[1] == 'n' then '\n' else if t[1] == 'r' then '\r' else t[1]] + Unescaped(t[2..])
    else if |t| >= 1 then [t[0]] + Unescaped(t[1..])
    else ""
  }

  lemma HexDigitValue(k: int)
    requires 0 <= k < 16
    ensures HexValue(HexDigits[k]) == k
  {
    if k < 10 {
      assert HexDigits[k] as int == '0' as int + k by {
        assert HexDigits[..10] == "0123456789";
      }
    } else {
      assert HexDigits[k] as int == 'a' as int + k - 10 by {
        assert HexDigits[10..] == "abcdef";
      }
    }
  }

  lemma UnescapedStep(c: char, q: char, rest: string)
    requires c as int < 0x80 && (q == '\'' || q == '"')
    ensures Unescaped(EscapeChar(c, q) + rest) == [c] + Unescaped(rest)
  {
    var e := EscapeChar(c, q);
    if c < ' ' || c as int == 0x7F {
      if c != '\t' && c != '\n' && c != '\r' {
        HexDigitValue(c as int / 16);
        HexDigitValue(c as int % 16);
        assert (e + rest)[4..] == rest;
      } else {
        assert (e + rest)[2..] == rest;
      }
    } else if c == '\\' || c == q {
      assert (e + rest)[2..] == rest;
    } else {
      assert (e + rest)[1..] == rest;
    }
  }

  /** Reading the escapes back gives the text `repr` was applied to, for ASCII text. */
  lemma {:induction false} ReprRoundTrip(s: string)
    requires forall i :: 0 <= i < |s| ==> s[i] as int < 0x80
    ensures var r := Repr(s); Unescaped(r[1..|r| - 1]) == s
  {
    var q := ReprQuote(s);
    assert Repr(s)[1..|Repr(s)| - 1] == Escaped(s, q);
    EscapedRoundTrip(s, q);
  }

  lemma {:induction false} EscapedRoundTrip(s: string, q: char)
    requires forall i :: 0 <= i < |s| ==> s[i] as int < 0x80
    requires q == '\'' || q == '"'
    ensures Unescaped(Escaped(s, q)) == s
  {
    if |s| > 0 {
      EscapedRoundTrip(s[1..], q);
      UnescapedStep(s[0], q, Escaped(s[1..], q));
      assert s == [s[0]] + s[1..];
    } else {
      assert Escaped(s, q) == "";
    }
  }

  /** Text without a backslash, the quote `q` or a control character. */
  predicate Plain(s: string, q: char)
  {
    forall i :: 0 <= i < |s| ==> s[i] != '\\' && s[i] != q && ' ' <= s[i] && s[i] as int != 0x7F
  }

  /** Plain text is written as it is. */
  lemma {:induction false} EscapedPlain(s: string, q: char)
    requires Plain(s, q)
    ensures Escaped(s, q) == s
  {
    if |s| > 0 {
      EscapedPlain(s[1..], q);
      assert s == [s[0]] + s[1..];
    }
  }

  lemma {:induction false} EscapedAppend(a: string, b: string, q: char)
    ensures Escaped(a + b, q) == Escaped(a, q) + Escaped(b, q)
  {
    if |a| > 0 {
      EscapedAppend(a[1..], b, q);
      assert (a + b)[1..] == a[1..] + b;
    } else {
      assert a + b == b;
    }
  }

  /** Text plain for both quotes, appended to `a`, changes neither the quote nor how `a` is written. */
  lemma ReprAppendPlain(a: string, b: string)
    requires Plain(b, '\'') && Plain(b, '"')
    ensures Repr(a + b) == [ReprQuote(a)] + Escaped(a, ReprQuote(a)) + b + [ReprQuote(a)]
  {
    assert '\'' !in b && '"' !in b;
    assert ReprQuote(a + b) == ReprQuote(a);
    EscapedAppend(a, b, ReprQuote(a));
    EscapedPlain(b, ReprQuote(a));
  }

  /** A text with `'` and no `"` is put between `"` and needs no escape. */
  lemma ReprQuoteExample()
    ensures Repr("O'Reilly") == ['"'] + "O'Reilly" + ['"']
  {
    OReillyText();
    EscapedPlain("O'Reilly", '"');
  }

  lemma OReillyText()
    ensures ReprQuote("O'Reilly") == '"' && Plain("O'Reilly", '"')
  {
    assert "O'Reilly"[1] == '\'';
  }

  /** A backslash is doubled. */
  lemma ReprBackslashExample()
    ensures Repr("\\") == "'\\\\'"
  {
    assert ReprQuote("\\") == '\'';
    assert Escaped("\\", '\'') == EscapeChar('\\', '\'') + Escaped("", '\'');
  }
}
