/**
 * The VLNV identifier (Vendor:Library:Name:Version) of a FuseSoC core
 * (utils/vlnv.py).
 *
 * A field that `from_string` could not fill is Python's `None`, modelled as
 * `Option.None`; `to_string` renders it as the text "None". `str()` and
 * `repr()` of a VLNV are both `to_string`, so they are `ToString` here, and
 * equality of the dataclass is field-wise, which is datatype equality.
 */
module Vlnv {
  import opened Wrappers
  import opened Text

  datatype VLNV = VLNV(vendor: Option<string>, library: Option<string>, name: Option<string>, version: Option<string>)

  /** The four fields in declaration order. */
  function Fields(v: VLNV): seq<Option<string>>
  {
    [v.vendor, v.library, v.name, v.version]
  }

  /** `s.split(':', maxsplit)`: cut at the first `maxsplit` colons. */
  function Split(s: string, maxsplit: nat): (parts: seq<string>)
    ensures 1 <= |parts| <= maxsplit + 1
    ensures Join(parts, ":") == s
    ensures forall i :: 0 <= i < |parts| - 1 ==> ':' !in parts[i]
    ensures |parts| <= maxsplit ==> ':' !in parts[|parts| - 1]
    decreases |s|
  {
    if ':' !in s || maxsplit == 0 then [s]
    else
      var i := FirstIndex(s, ':');
      var rest := Split(s[i + 1..], maxsplit - 1);
      assert s == s[..i] + ":" + s[i + 1..];
      var parts := [s[..i]] + rest;
      assert parts[1..] == rest;
      parts
  }

  /** The number of parts is one more than the number of colons, capped at `maxsplit + 1`. */
  lemma {:induction false} SplitCount(s: string, maxsplit: nat)
    ensures |Split(s, maxsplit)| == (if Count(s, ':') < maxsplit then Count(s, ':') + 1 else maxsplit + 1)
    decreases |s|
  {
    if ':' !in s {
      CountZero(s, ':');
    } else if maxsplit > 0 {
      var i := FirstIndex(s, ':');
      SplitCount(s[i + 1..], maxsplit - 1);
      assert s == s[..i] + ":" + s[i + 1..];
      CountZero(s[..i], ':');
      CountAroundColon(s[..i], s[i + 1..]);
    } else {
      CountZero(s, ':');
    }
  }

  /** The parts of a split, each wrapped as a present field. */
  function Wrap(parts: seq<string>): (r: seq<Option<string>>)
    ensures |r| == |parts| && forall i :: 0 <= i < |parts| ==> r[i] == Some(parts[i])
  {
    seq(|parts|, i requires 0 <= i < |parts| => Some(parts[i]))
  }

  /** The `while len(parts) < 4: parts.insert(0, None)` loop of `from_string`. */
  function PadLeft(parts: seq<Option<string>>): (r: seq<Option<string>>)
    requires |parts| <= 4
    ensures |r| == 4
    ensures forall i :: 0 <= i < 4 - |parts| ==> r[i] == None
    ensures forall i :: 4 - |parts| <= i < 4 ==> r[i] == parts[i - (4 - |parts|)]
    decreases 4 - |parts|
  {
    if |parts| < 4 then PadLeft([None] + parts) else parts
  }

  /** `VLNV.from_string(s)` */
  function FromString(s: string): (v: VLNV)
    ensures v.version.Some?
  {
    var padded := PadLeft(Wrap(Split(s, 3)));
    VLNV(padded[0], padded[1], padded[2], padded[3])
  }

  /** `str(part)` for a field: an absent field prints as "None". */
  function FieldText(f: Option<string>): string
  {
    if f.None? then "None" else f.value
  }

  /** `VLNV.to_string()`, also `str(v)` and `repr(v)`. */
  function ToString(v: VLNV): string
  {
    Join([FieldText(v.vendor), FieldText(v.library), FieldText(v.name), FieldText(v.version)], ":")
  }

  /** The fields that are present, in order. */
  function Present(fs: seq<Option<string>>): seq<string>
  {
    if fs == [] then []
    else (if fs[0].Some? then [fs[0].value] else []) + Present(fs[1..])
  }

  /** `t` repeated `n` times. */
  function Repeat(t: string, n: nat): string
  {
    if n == 0 then "" else t + Repeat(t, n - 1)
  }

  lemma Join4(a: string, b: string, c: string, d: string, sep: string)
    ensures Join([a, b, c, d], sep) == a + sep + (b + sep + (c + sep + d))
  {
    assert [a, b, c, d][1..] == [b, c, d];
    assert [b, c, d][1..] == [c, d];
    assert [c, d][1..] == [d];
    calc {
      Join([a, b, c, d], sep);
      a + sep + Join([b, c, d], sep);
      a + sep + (b + sep + Join([c, d], sep));
      a + sep + (b + sep + (c + sep + Join([d], sep)));
    }
  }

  /** The printed fields, in order. */
  function Texts(fs: seq<Option<string>>): (r: seq<string>)
    ensures |r| == |fs| && forall i :: 0 <= i < |fs| ==> r[i] == FieldText(fs[i])
  {
    seq(|fs|, i requires 0 <= i < |fs| => FieldText(fs[i]))
  }

  /** `from_string` puts the split parts at the end and pads the front with absent fields. */
  lemma FromStringPadded(s: string)
    ensures var parts := Split(s, 3); var fs := Fields(FromString(s));
      && (forall i :: 0 <= i < 4 - |parts| ==> fs[i] == None)
      && (forall i :: 4 - |parts| <= i < 4 ==> fs[i] == Some(parts[i - (4 - |parts|)]))
  {
    assert Fields(FromString(s)) == PadLeft(Wrap(Split(s, 3)));
  }

  /**
   * The shape of a parse: with k colons in the input, the first 3 - k fields are
   * absent (the parts are right-aligned) and the rest present; `version` is
   * never absent; only `version` can hold a colon, and joining the present
   * fields with ':' gives back the input.
   */
  lemma FromStringShape(s: string)
    ensures var v := FromString(s);
      && (forall i :: 0 <= i < 4 ==> (Fields(v)[i].None? <==> i + Count(s, ':') < 3))
      && (forall i :: 0 <= i < 3 && Fields(v)[i].Some? ==> ':' !in Fields(v)[i].value)
      && Join(Present(Fields(v)), ":") == s
  {
    FromStringAbsent(s);
    FromStringColonFree(s);
    var parts := Split(s, 3);
    FromStringPadded(s);
    PresentOfPadded(Fields(FromString(s)), 4 - |parts|, parts);
  }

  lemma FromStringAbsent(s: string)
    ensures forall i :: 0 <= i < 4 ==> (Fields(FromString(s))[i].None? <==> i + Count(s, ':') < 3)
  {
    var parts := Split(s, 3);
    var fs := Fields(FromString(s));
    var m := 4 - |parts|;
    SplitCount(s, 3);
    FromStringPadded(s);
    forall i | 0 <= i < 4
      ensures fs[i].None? <==> i + Count(s, ':') < 3
    {
      if i >= m { assert fs[i] == Some(parts[i - m]); }
    }
  }

  lemma FromStringColonFree(s: string)
    ensures forall i :: 0 <= i < 3 && Fields(FromString(s))[i].Some? ==> ':' !in Fields(FromString(s))[i].value
  {
    var parts := Split(s, 3);
    var fs := Fields(FromString(s));
    var m := 4 - |parts|;
    FromStringPadded(s);
    forall i | 0 <= i < 3 && fs[i].Some?
      ensures ':' !in fs[i].value
    {
      assert fs[i] == Some(parts[i - m]);
    }
  }

  lemma {:induction false} PresentOfPadded(padded: seq<Option<string>>, m: nat, parts: seq<string>)
    requires m <= |padded| && |padded| == m + |parts|
    requires forall i :: 0 <= i < m ==> padded[i] == None
    requires forall i :: m <= i < |padded| ==> padded[i] == Some(parts[i - m])
    ensures Present(padded) == parts
  {
    if padded != [] {
      if m > 0 {
        PresentOfPadded(padded[1..], m - 1, parts);
      } else {
        PresentOfPadded(padded[1..], 0, parts[1..]);
        assert parts == [parts[0]] + parts[1..];
      }
    }
  }

  /** Printing m absent fields followed by present ones: "None:" m times, then the joined parts. */
  lemma {:induction false} JoinAbsentPrefix(fs: seq<Option<string>>, m: nat, parts: seq<string>)
    requires |fs| == m + |parts| && |parts| >= 1
    requires forall i :: 0 <= i < m ==> fs[i] == None
    requires forall i :: m <= i < |fs| ==> fs[i] == Some(parts[i - m])
    ensures Join(Texts(fs), ":") == Repeat("None:", m) + Join(parts, ":")
  {
    if m == 0 {
      assert Texts(fs) == parts;
    } else {
      JoinAbsentPrefix(fs[1..], m - 1, parts);
      assert Texts(fs)[1..] == Texts(fs[1..]);
      assert Texts(fs)[0] == "None";
    }
  }

  /** `from_string` is injective: distinct strings never parse to equal VLNVs. */
  lemma FromStringInjective(s: string, t: string)
    requires FromString(s) == FromString(t)
    ensures s == t
  {
    FromStringShape(s);
    FromStringShape(t);
  }

  lemma ToStringTexts(v: VLNV)
    ensures ToString(v) == Join(Texts(Fields(v)), ":")
  {
    assert Texts(Fields(v)) == [FieldText(v.vendor), FieldText(v.library), FieldText(v.name), FieldText(v.version)];
  }

  /** With at least three colons, `to_string(from_string(s)) == s`. */
  lemma RoundTrip(s: string)
    requires Count(s, ':') >= 3
    ensures ToString(FromString(s)) == s
  {
    SplitCount(s, 3);
    var parts := Split(s, 3);
    assert |parts| == 4;
    FromStringPadded(s);
    var fs := Fields(FromString(s));
    assert |fs| == 4;
    assert Texts(fs) == parts by {
      assert forall i :: 0 <= i < 4 ==> fs[i] == Some(parts[i]);
    }
    ToStringTexts(FromString(s));
  }

  /** With k < 3 colons, `to_string(from_string(s))` is "None:" repeated 3 - k times, then `s`. */
  lemma RoundTripShort(s: string)
    requires Count(s, ':') < 3
    ensures ToString(FromString(s)) == Repeat("None:", 3 - Count(s, ':')) + s
  {
    SplitCount(s, 3);
    FromStringPadded(s);
    ToStringTexts(FromString(s));
    JoinAbsentPrefix(Fields(FromString(s)), 3 - Count(s, ':'), Split(s, 3));
  }

  /** The other direction: a VLNV with all four fields present and no colon outside `version` survives printing and parsing. */
  lemma ParsePrinted(v: VLNV)
    requires v.vendor.Some? && v.library.Some? && v.name.Some? && v.version.Some?
    requires ':' !in v.vendor.value && ':' !in v.library.value && ':' !in v.name.value
    ensures FromString(ToString(v)) == v
  {
    var s := ToString(v);
    var a, b, c, d := v.vendor.value, v.library.value, v.name.value, v.version.value;
    Join4(a, b, c, d, ":");
    assert Count(s, ':') >= 3 by {
      CountAroundColon(c, d);
      CountAroundColon(b, c + ":" + d);
      CountAroundColon(a, b + ":" + (c + ":" + d));
    }
    var w := FromString(s);
    FromStringShape(s);
    var fs := Fields(w);
    var x0, x1, x2, x3 := fs[0].value, fs[1].value, fs[2].value, fs[3].value;
    PresentOfPadded(fs, 0, [x0, x1, x2, x3]);
    Join4(x0, x1, x2, x3, ":");
    JoinColonFree(x0, x1 + ":" + (x2 + ":" + x3), a, b + ":" + (c + ":" + d));
    JoinColonFree(x1, x2 + ":" + x3, b, c + ":" + d);
    JoinColonFree(x2, x3, c, d);
  }

  lemma CountAroundColon(a: string, b: string)
    ensures Count(a + ":" + b, ':') == Count(a, ':') + 1 + Count(b, ':')
  {
    CountAppend(a + ":", b, ':');
    CountAppend(a, ":", ':');
    assert Count(":", ':') == 1;
  }

  /** Splitting at the first colon is unique. */
  lemma JoinColonFree(x: string, y: string, a: string, b: string)
    requires ':' !in x && ':' !in a
    requires x + ":" + y == a + ":" + b
    ensures x == a && y == b
  {
    var s := x + ":" + y;
    assert s[|x|] == ':' && s[|a|] == ':';
    assert forall j :: 0 <= j < |x| ==> s[j] == x[j];
    assert forall j :: 0 <= j < |a| ==> s[j] == a[j];
    assert |x| == |a|;
    assert x == s[..|x|] && a == s[..|a|];
    assert y == s[|x| + 1..] && b == s[|a| + 1..];
  }
}
