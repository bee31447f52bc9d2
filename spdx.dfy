/**
 * The SPDX licence list and the checks built on it (utils/spdx.py).
 *
 * The list is a map from licence identifier to its record. Reading the
 * JSON file is outside the model: the outcome of that read is a parameter.
 * A missing or unparsable file gives the empty map; any other failure of
 * the read raises.
 */
module Spdx {
  import opened Wrappers
  import opened Text

  /**
   * The parts of a licence record the lookups read. `seeAlso` is `None`
   * when the record has no such key. Every record carries its `licenseId`,
   * so as a dict it is never empty and always truthy.
   */
  datatype License = License(seeAlso: Option<seq<string>>, reference: Option<string>)

  type LicenseMap = map<string, License>

  /** What opening and decoding the licence file gave. */
  datatype LicenseFile =
    | FileNotFound
    | NotJson
    | Loaded(licenses: seq<(string, License)>)  // `data['licenses']` as (licenseId, record) pairs
    // any other exception: a document without `licenses` or a record without
    // `licenseId` (KeyError), a document that is not a dict (TypeError), text
    // that is not UTF-8 (UnicodeDecodeError), or another OSError
    | Malformed

  /** `{lic['licenseId']: lic for lic in licenses}`: one entry per identifier that occurs. */
  function FromRecords(licenses: seq<(string, License)>): (m: LicenseMap)
    ensures m.Keys == set i | 0 <= i < |licenses| :: licenses[i].0
  {
    if |licenses| == 0 then map[]
    else
      var n := |licenses| - 1;
      var m := FromRecords(licenses[..n]);
      assert (set i | 0 <= i < n :: licenses[..n][i].0) == (set i | 0 <= i < n :: licenses[i].0);
      assert (set i | 0 <= i < |licenses| :: licenses[i].0) == (set i | 0 <= i < n :: licenses[i].0) + {licenses[n].0};
      m[licenses[n].0 := licenses[n].1]
  }

  /** When an identifier occurs more than once, its last record is the one kept. */
  lemma {:induction false} FromRecordsLastWins(licenses: seq<(string, License)>, i: nat)
    requires i < |licenses|
    requires forall j :: i < j < |licenses| ==> licenses[j].0 != licenses[i].0
    ensures licenses[i].0 in FromRecords(licenses) && FromRecords(licenses)[licenses[i].0] == licenses[i].1
  {
    var n := |licenses| - 1;
    if i < n {
      assert licenses[..n][i] == licenses[i];
      FromRecordsLastWins(licenses[..n], i);
    }
  }

  /**
   * `_load_spdx_license_data()`: the map, or the empty map when the file is
   * missing or is not JSON. `None` is the call raising: the `except` clause
   * catches those two errors only.
   */
  function LoadLicenseData(file: LicenseFile): (m: Option<LicenseMap>)
    ensures m.None? <==> file.Malformed?
    ensures file.FileNotFound? || file.NotJson? ==> m == Some(map[])
    ensures file.Loaded? ==> m.Some? && m.value.Keys == set i | 0 <= i < |file.licenses| :: file.licenses[i].0
  {
    match file
    case Loaded(licenses) => Some(FromRecords(licenses))
    case Malformed => None
    case _ => Some(map[])
  }

  /** `get_spdx_license_ids()`: the identifiers of the list. */
  function LicenseIds(m: LicenseMap): (ids: set<string>)
    ensures forall id :: id in ids <==> id in m
  {
    m.Keys
  }

  predicate IsLeast(x: string, ids: set<string>)
  {
    forall y :: y in ids && y != x ==> Less(x, y)
  }

  lemma {:induction false} LeastExists(ids: set<string>)
    requires ids != {}
    ensures exists x :: x in ids && IsLeast(x, ids)
    decreases |ids|
  {
    var z :| z in ids;
    var rest := ids - {z};
    if rest == {} {
      assert ids == {z};
      assert IsLeast(z, ids);
    } else {
      LeastExists(rest);
      var m :| m in rest && IsLeast(m, rest);
      LessTotal(z, m);
      if Less(z, m) {
        forall y | y in ids && y != z
          ensures Less(z, y)
        {
          if y != m {
            LessTransitive(z, m, y);
          }
        }
        assert IsLeast(z, ids);
      } else {
        assert IsLeast(m, ids);
      }
    }
  }

  /** A set has at most one least element. */
  lemma LeastUnique(ids: set<string>)
    ensures forall x, y :: x in ids && IsLeast(x, ids) && y in ids && IsLeast(y, ids) ==> x == y
  {
    forall x, y | x in ids && IsLeast(x, ids) && y in ids && IsLeast(y, ids)
      ensures x == y
    {
      if x != y {
        LessTransitive(x, y, x);
        LessIrreflexive(x);
      }
    }
  }

  /** `sorted(ids)`: every identifier once, in ascending order. */
  function SortedIds(ids: set<string>): (r: seq<string>)
    ensures |r| == |ids|
    ensures forall i :: 0 <= i < |r| ==> r[i] in ids
    ensures forall id :: id in ids ==> id in r
    ensures forall i, j :: 0 <= i < j < |r| ==> Less(r[i], r[j])
    decreases |ids|
  {
    if ids == {} then []
    else
      var x := Least(ids);
      var rest := SortedIds(ids - {x});
      assert forall j :: 0 <= j < |rest| ==> rest[j] in ids - {x};
      [x] + rest
  }

  /** The least identifier of a non-empty set. */
  function Least(ids: set<string>): (x: string)
    requires ids != {}
    ensures x in ids && IsLeast(x, ids)
  {
    LeastExists(ids);
    LeastUnique(ids);
    var x :| x in ids && IsLeast(x, ids);
    x
  }

  /** `get_spdx_choices()`: each identifier paired with itself, ascending, without repetition. */
  function Choices(m: LicenseMap): (r: seq<(string, string)>)
    ensures |r| == |m|
    ensures forall i :: 0 <= i < |r| ==> r[i].0 == r[i].1 && r[i].0 in m
    ensures forall id :: id in m ==> (id, id) in r
    ensures forall i, j :: 0 <= i < j < |r| ==> Less(r[i].0, r[j].0)
  {
    var ids := SortedIds(LicenseIds(m));
    var r := Pairs(ids);
    PairsMembers(m, ids);
    PairsSorted(ids);
    r
  }

  /** Each identifier paired with itself, in the same order. */
  function Pairs(ids: seq<string>): (r: seq<(string, string)>)
    ensures |r| == |ids| && forall i :: 0 <= i < |ids| ==> r[i] == (ids[i], ids[i])
  {
    seq(|ids|, i requires 0 <= i < |ids| => (ids[i], ids[i]))
  }

  lemma PairsMembers(m: LicenseMap, ids: seq<string>)
    requires ids == SortedIds(LicenseIds(m))
    ensures |Pairs(ids)| == |m|
    ensures forall i :: 0 <= i < |ids| ==> Pairs(ids)[i].0 == Pairs(ids)[i].1 && Pairs(ids)[i].0 in m
    ensures forall id :: id in m ==> (id, id) in Pairs(ids)
  {
    var r := Pairs(ids);
    assert LicenseIds(m) == m.Keys;
    forall id | id in m
      ensures (id, id) in r
    {
      var i :| 0 <= i < |ids| && ids[i] == id;
      assert r[i] == (id, id);
    }
  }

  lemma PairsSorted(ids: seq<string>)
    requires forall i, j :: 0 <= i < j < |ids| ==> Less(ids[i], ids[j])
    ensures forall i, j :: 0 <= i < j < |ids| ==> Less(Pairs(ids)[i].0, Pairs(ids)[j].0)
  {
  }

  /**
   * `get_spdx_license_url(id)` as written: `lic.get('seeAlso', [None])[0]`
   * raises IndexError when a record has an empty `seeAlso` list.
   */
  function LicenseUrlAsWritten(m: LicenseMap, id: string): (r: Result<Option<string>, string>)
    ensures r.Failure? <==> id in m && m[id].seeAlso == Some([])
  {
    if id !in m then Success(None)
    else
      match m[id].seeAlso
      case None => Success(m[id].reference)
      case Some(urls) =>
        if |urls| == 0 then Failure("IndexError: list index out of range")
        else if urls[0] != "" then Success(Some(urls[0]))
        else Success(m[id].reference)
  }

  /**
   * `get_spdx_license_url(id)` with an empty `seeAlso` read like a missing
   * one: the first `seeAlso` URL when it is non-empty, else `reference`;
   * `None` for an identifier outside the list.
   */
  function LicenseUrl(m: LicenseMap, id: string): (r: Option<string>)
    ensures id !in m ==> r == None
    ensures r.Some? ==> id in m && (r == m[id].reference || (m[id].seeAlso.Some? && |m[id].seeAlso.value| > 0 && r.value == m[id].seeAlso.value[0]))
    ensures id in m && m[id].seeAlso.Some? && |m[id].seeAlso.value| > 0 && m[id].seeAlso.value[0] != "" ==>
      r == Some(m[id].seeAlso.value[0])
    ensures id in m && !(m[id].seeAlso.Some? && |m[id].seeAlso.value| > 0 && m[id].seeAlso.value[0] != "") ==>
      r == m[id].reference
  {
    if id !in m then None
    else
      match m[id].seeAlso
      case Some(urls) => if |urls| > 0 && urls[0] != "" then Some(urls[0]) else m[id].reference
      case None => m[id].reference
  }

  /** Wherever the code as written returns, it returns what `LicenseUrl` returns. */
  lemma LicenseUrlAgrees(m: LicenseMap, id: string)
    ensures LicenseUrlAsWritten(m, id).Success? ==> LicenseUrlAsWritten(m, id).value == LicenseUrl(m, id)
  {
  }

  /** A record whose `seeAlso` is `[]` makes the code as written raise, where `reference` was meant. */
  lemma EmptySeeAlsoRaises()
    ensures var m := map["X" := License(Some([]), Some("https://spdx.org/licenses/X.html"))];
      LicenseUrlAsWritten(m, "X").Failure? && LicenseUrl(m, "X") == Some("https://spdx.org/licenses/X.html")
  {
  }

  /** `validate_spdx(value)`: passes exactly for identifiers of the list. */
  function ValidateSpdx(m: LicenseMap, value: string): (r: Result<(), string>)
    ensures r.Success? <==> value in LicenseIds(m)
    ensures r.Failure? ==> r.error == value + " is not a valid SPDX license identifier."
  {
    if value !in LicenseIds(m) then Failure(value + " is not a valid SPDX license identifier.") else Success(())
  }

  /** Without a readable licence file there are no identifiers, no choices, no URLs and nothing validates. */
  lemma UnreadableLicenseFile(file: LicenseFile, id: string)
    requires file.FileNotFound? || file.NotJson?
    ensures LicenseIds(LoadLicenseData(file).value) == {}
    ensures Choices(LoadLicenseData(file).value) == []
    ensures LicenseUrl(LoadLicenseData(file).value, id) == None
    ensures ValidateSpdx(LoadLicenseData(file).value, id).Failure?
  {
  }
}
