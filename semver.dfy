/**
 * Version strings as `semver.VersionInfo.parse` reads them: Semantic
 * Versioning 2.0.0, item 2 (`MAJOR.MINOR.PATCH`, non-negative integers
 * without leading zeros), item 9 (an optional pre-release after `-`: dot
 * separated identifiers of ASCII alphanumerics and hyphens, numeric ones
 * without leading zeros) and item 10 (optional build metadata after `+`).
 *
 * `Parse` is specified by its inverse: it succeeds on exactly the texts
 * that `Format` prints from a well-formed version, and gives that version
 * back (`ParseSound`, `ParseFormat`).
 */
module SemVer {
  import opened Wrappers
  import opened Text

  datatype Version = Version(major: nat, minor: nat, patch: nat, prerelease: Option<string>, build: Option<string>)

  /** `[0-9a-zA-Z-]` */
  predicate IsIdentChar(c: char)
  {
    'a' <= c <= 'z' || 'A' <= c <= 'Z' || IsDigit(c) || c == '-'
  }

  /** Item 9: `0|[1-9][0-9]*|[0-9]*[a-zA-Z-][0-9a-zA-Z-]*` */
  predicate PrereleaseIdentifier(id: string)
  {
    |id| >= 1 && (forall i :: 0 <= i < |id| ==> IsIdentChar(id[i])) && (AllDigits(id) ==> Canonical(id))
  }

  /** Item 10: `[0-9a-zA-Z-]+` */
  predicate BuildIdentifier(id: string)
  {
    |id| >= 1 && forall i :: 0 <= i < |id| ==> IsIdentChar(id[i])
  }

  predicate ValidPrerelease(s: string)
  {
    var ids := SplitOn(s, '.');
    forall i :: 0 <= i < |ids| ==> PrereleaseIdentifier(ids[i])
  }

  predicate ValidBuild(s: string)
  {
    var ids := SplitOn(s, '.');
    forall i :: 0 <= i < |ids| ==> BuildIdentifier(ids[i])
  }

  predicate WellFormed(v: Version)
  {
    (v.prerelease.Some? ==> ValidPrerelease(v.prerelease.value)) && (v.build.Some? ==> ValidBuild(v.build.value))
  }

  /** `MAJOR.MINOR.PATCH` */
  function CoreText(v: Version): string
  {
    NatToString(v.major) + "." + NatToString(v.minor) + "." + NatToString(v.patch)
  }

  /** `MAJOR.MINOR.PATCH[-PRERELEASE]` */
  function MainText(v: Version): string
  {
    CoreText(v) + (if v.prerelease.Some? then "-" + v.prerelease.value else "")
  }

  /** The text of a version: `MAJOR.MINOR.PATCH[-PRERELEASE][+BUILD]`. */
  function Format(v: Version): string
  {
    MainText(v) + (if v.build.Some? then "+" + v.build.value else "")
  }

  /** `s[..i], s[i+1..]` around the first `c`, or all of `s` and nothing. */
  function CutAt(s: string, c: char): (r: (string, Option<string>))
    ensures r.1.None? ==> r.0 == s && c !in s
    ensures r.1.Some? ==> s == r.0 + [c] + r.1.value && c !in r.0
  {
    if c in s then
      var i := FirstIndex(s, c);
      assert s == s[..i] + [c] + s[i + 1..];
      (s[..i], Some(s[i + 1..]))
    else (s, None)
  }

  /** `MAJOR.MINOR.PATCH` */
  function ParseCore(core: string): Option<(nat, nat, nat)>
  {
    var parts := SplitOn(core, '.');
    if |parts| == 3 && Canonical(parts[0]) && Canonical(parts[1]) && Canonical(parts[2])
    then Some((DecimalValue(parts[0]), DecimalValue(parts[1]), DecimalValue(parts[2])))
    else None
  }

  /**
   * `VersionInfo.parse(s)`, with `None` where it raises ValueError. The
   * numeric core holds neither `-` nor `+`, and a pre-release holds no `+`,
   * so the first `+` starts the build metadata and the first `-` before it
   * starts the pre-release.
   */
  function Parse(s: string): Option<Version>
  {
    var main := CutAt(s, '+');
    var core := CutAt(main.0, '-');
    var n := ParseCore(core.0);
    if n.None? then None
    else
      var v := Version(n.value.0, n.value.1, n.value.2, core.1, main.1);
      if WellFormed(v) then Some(v) else None
  }

  lemma Join3(a: string, b: string, c: string, sep: string)
    ensures Join([a, b, c], sep) == a + sep + b + sep + c
  {
    assert [a, b, c][1..] == [b, c];
    assert [b, c][1..] == [c];
    assert Join([b, c], sep) == b + sep + c;
    assert Join([a, b, c], sep) == a + sep + (b + sep + c);
  }

  lemma {:induction false} JoinAvoids(parts: seq<string>, sep: string, c: char)
    requires c !in sep && forall i :: 0 <= i < |parts| ==> c !in parts[i]
    ensures c !in Join(parts, sep)
  {
    if |parts| > 1 {
      JoinAvoids(parts[1..], sep, c);
    }
  }

  /** A well-formed pre-release or build text holds no `+`. */
  lemma NoPlus(s: string, ident: bool)
    requires if ident then ValidPrerelease(s) else ValidBuild(s)
    ensures '+' !in s
  {
    var ids := SplitOn(s, '.');
    forall i | 0 <= i < |ids|
      ensures '+' !in ids[i]
    {
      assert forall k :: 0 <= k < |ids[i]| ==> IsIdentChar(ids[i][k]);
    }
    JoinAvoids(ids, ".", '+');
  }

  lemma DigitsAvoid(s: string, c: char)
    requires AllDigits(s) && !IsDigit(c)
    ensures c !in s
  {
    assert forall k :: 0 <= k < |s| ==> s[k] != c;
  }

  /** Putting the cuts back together gives the text that was cut. */
  lemma Uncut(s: string)
    ensures var main := CutAt(s, '+'); var core := CutAt(main.0, '-');
      s == core.0 + (if core.1.Some? then "-" + core.1.value else "") + (if main.1.Some? then "+" + main.1.value else "")
  {
  }

  /** A core that parses is the printed text of its three numbers. */
  lemma CoreOfParse(core: string)
    requires ParseCore(core).Some?
    ensures var n := ParseCore(core).value;
      NatToString(n.0) + "." + NatToString(n.1) + "." + NatToString(n.2) == core
  {
    var parts := SplitOn(core, '.');
    NatToStringOfDecimal(parts[0]);
    NatToStringOfDecimal(parts[1]);
    NatToStringOfDecimal(parts[2]);
    assert parts == [parts[0], parts[1], parts[2]];
    Join3(parts[0], parts[1], parts[2], ".");
  }

  /** Every successful parse is the text of the version it returns. */
  lemma ParseSound(s: string)
    requires Parse(s).Some?
    ensures WellFormed(Parse(s).value) && Format(Parse(s).value) == s
  {
    var main := CutAt(s, '+');
    var core := CutAt(main.0, '-');
    CoreOfParse(core.0);
    Uncut(s);
  }

  /** Cutting at a separator that `a` does not hold gives `a` and the rest. */
  lemma CutAtFirst(a: string, c: char, b: string)
    requires c !in a
    ensures CutAt(a + [c] + b, c) == (a, Some(b))
  {
    FirstIndexAfter(a, c, b);
    assert (a + [c] + b)[..|a|] == a && (a + [c] + b)[|a| + 1..] == b;
  }

  /** The printed numeric core holds no `-` or `+` and parses back into its three numbers. */
  lemma ParseCoreText(v: Version)
    ensures '-' !in CoreText(v) && '+' !in CoreText(v)
    ensures ParseCore(CoreText(v)) == Some((v.major, v.minor, v.patch))
  {
    CoreTextAvoids(v, '-');
    CoreTextAvoids(v, '+');
    CoreTextSplits(v);
    DecimalOfNatToString(v.major);
    DecimalOfNatToString(v.minor);
    DecimalOfNatToString(v.patch);
  }

  lemma CoreTextAvoids(v: Version, c: char)
    requires !IsDigit(c) && c != '.'
    ensures c !in CoreText(v)
  {
    DigitsAvoid(NatToString(v.major), c);
    DigitsAvoid(NatToString(v.minor), c);
    DigitsAvoid(NatToString(v.patch), c);
  }

  /** Splitting the printed core at its dots gives the three printed numbers. */
  lemma CoreTextSplits(v: Version)
    ensures SplitOn(CoreText(v), '.') == [NatToString(v.major), NatToString(v.minor), NatToString(v.patch)]
  {
    var a, b, c := NatToString(v.major), NatToString(v.minor), NatToString(v.patch);
    DigitsAvoid(a, '.');
    DigitsAvoid(b, '.');
    DigitsAvoid(c, '.');
    Join3(a, b, c, ".");
    SplitOnJoin([a, b, c], '.');
  }

  /** Cutting the printed text at the first `+`, then at the first `-`, recovers its three parts. */
  lemma CutTwice(core: string, pre: Option<string>, build: Option<string>)
    requires '-' !in core && '+' !in core
    requires pre.Some? ==> '+' !in pre.value
    ensures var main := core + (if pre.Some? then "-" + pre.value else "");
      && CutAt(main + (if build.Some? then "+" + build.value else ""), '+') == (main, build)
      && CutAt(main, '-') == (core, pre)
  {
    var main := core + (if pre.Some? then "-" + pre.value else "");
    if pre.Some? {
      CutAtFirst(core, '-', pre.value);
      assert main == core + ['-'] + pre.value;
    } else {
      assert main == core;
    }
    assert '+' !in main;
    if build.Some? {
      CutAtFirst(main, '+', build.value);
      assert main + ("+" + build.value) == main + ['+'] + build.value;
    } else {
      assert main + "" == main;
    }
  }

  /** Parsing the text of a well-formed version gives the version back. */
  lemma ParseFormat(v: Version)
    requires WellFormed(v)
    ensures Parse(Format(v)) == Some(v)
  {
    ParseCoreText(v);
    if v.prerelease.Some? {
      NoPlus(v.prerelease.value, true);
    }
    CutTwice(CoreText(v), v.prerelease, v.build);
  }

  /** `"1.2.3-rc1"` is 1, 2, 3 with pre-release `"rc1"`. */
  lemma ParseExample()
    ensures Parse("1.2.3-rc1") == Some(Version(1, 2, 3, Some("rc1"), None))
  {
    var v := Version(1, 2, 3, Some("rc1"), None);
    WellFormedExample();
    ParseFormat(v);
    FormatExample();
  }

  lemma WellFormedExample()
    ensures WellFormed(Version(1, 2, 3, Some("rc1"), None))
  {
    assert SplitOn("rc1", '.') == ["rc1"] by {
      assert '.' !in "rc1";
    }
    assert PrereleaseIdentifier("rc1");
  }

  lemma FormatExample()
    ensures Format(Version(1, 2, 3, Some("rc1"), None)) == "1.2.3-rc1"
  {
    assert NatToString(1) == "1" && NatToString(2) == "2" && NatToString(3) == "3";
  }

  /** `"bad"` is not a version. */
  lemma ParseRejects()
    ensures Parse("bad") == None
  {
    assert '+' !in "bad" && '-' !in "bad" && '.' !in "bad";
    assert CutAt("bad", '+') == ("bad", None);
    assert CutAt("bad", '-') == ("bad", None);
    assert SplitOn("bad", '.') == ["bad"];
  }
}
