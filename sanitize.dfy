/**
 * File-name-safe names and their collision-free variants (utils/sanitize.py).
 *
 * `sanitize_string` is a per-character rewrite followed by lowercasing and a
 * cut to 255 characters. `get_unique_sanitized_name` probes `base`,
 * `base_1`, `base_2`, ... against the `sanitized_name` column of a table;
 * here that column is a sequence indexed by primary key, and the instance
 * excluded from the check is given by its key.
 */
module Sanitize {
  import opened Wrappers
  import opened Text

  /** `max_length` */
  const MaxLength: nat := 255

  /** The characters of the class `[\/\\:*?"<>| ]`. */
  const InvalidChars: string := "/\\:*?\"<>| "

  predicate IsInvalid(c: char)
  {
    c in InvalidChars
  }

  predicate IsUpper(c: char)
  {
    'A' <= c <= 'Z'
  }

  /** `str.lower` on one ASCII character. */
  function LowerChar(c: char): (r: char)
    ensures !IsUpper(r)
    ensures IsInvalid(r) <==> IsInvalid(c)
  {
    if IsUpper(c) then (c as int + 32) as char else c
  }

  /** `re.sub(invalid_chars, '_', s)` */
  function ReplaceInvalid(s: string): (r: string)
    ensures |r| == |s|
    ensures forall i :: 0 <= i < |s| ==> r[i] == if IsInvalid(s[i]) then '_' else s[i]
  {
    seq(|s|, i requires 0 <= i < |s| => if IsInvalid(s[i]) then '_' else s[i])
  }

  /** `s.lower()` */
  function Lower(s: string): (r: string)
    ensures |r| == |s| && forall i :: 0 <= i < |s| ==> r[i] == LowerChar(s[i])
  {
    seq(|s|, i requires 0 <= i < |s| => LowerChar(s[i]))
  }

  /**
   * `sanitize_string(s)`. The result keeps the first 255 characters; each is
   * '_' where the input held an invalid character and the lowercased input
   * character otherwise, so no invalid character and no upper-case letter is
   * left.
   */
  function SanitizeString(s: string): (r: string)
    ensures |r| == if |s| > MaxLength then MaxLength else |s|
    ensures forall i :: 0 <= i < |r| ==> r[i] == if IsInvalid(s[i]) then '_' else LowerChar(s[i])
    ensures forall i :: 0 <= i < |r| ==> !IsInvalid(r[i]) && !IsUpper(r[i])
  {
    var t := Lower(ReplaceInvalid(s));
    if |t| > MaxLength then t[..MaxLength] else t
  }

  /** Sanitizing twice is sanitizing once. */
  lemma SanitizeIdempotent(s: string)
    ensures SanitizeString(SanitizeString(s)) == SanitizeString(s)
  {
    var r := SanitizeString(s);
    var rr := SanitizeString(r);
    assert |rr| == |r|;
    forall i | 0 <= i < |r|
      ensures rr[i] == r[i]
    {
      assert !IsInvalid(r[i]) && !IsUpper(r[i]);
    }
  }

  /** The n-th probe of the collision loop: `base`, then `f"{base}_{n}"`. */
  function Candidate(base: string, n: nat): (r: string)
    ensures base <= r
  {
    if n == 0 then base else base + "_" + NatToString(n)
  }

  /** Distinct probes are distinct names, so the loop never tests a name twice. */
  lemma CandidateInjective(base: string, j: nat, k: nat)
    ensures Candidate(base, j) == Candidate(base, k) ==> j == k
  {
    if j > 0 && k > 0 && Candidate(base, j) == Candidate(base, k) {
      assert NatToString(j) == Candidate(base, j)[|base| + 1..];
      assert NatToString(k) == Candidate(base, k)[|base| + 1..];
      NatToStringInjective(j, k);
    }
  }

  /** The names the query sees: every row's `sanitized_name` except the excluded instance's. */
  function Taken(names: seq<string>, instance: Option<nat>): set<string>
  {
    set i | 0 <= i < |names| && instance != Some(i) :: names[i]
  }

  /** Probe n is free and every earlier probe is taken. */
  ghost predicate FirstFree(base: string, taken: set<string>, n: nat)
  {
    Candidate(base, n) !in taken && forall j :: 0 <= j < n ==> Candidate(base, j) in taken
  }

  /**
   * `get_unique_sanitized_name(model, name, instance=...)`: the first free probe
   * `base`, `base_1`, `base_2`, ... with no number skipped, never one of the
   * taken names, and always starting with `sanitize_string(name)`.
   */
  method GetUniqueSanitizedName(names: seq<string>, name: string, instance: Option<nat>) returns (sanitized: string)
    ensures sanitized !in Taken(names, instance)
    ensures exists n: nat :: sanitized == Candidate(SanitizeString(name), n) && FirstFree(SanitizeString(name), Taken(names, instance), n)
    ensures SanitizeString(name) !in Taken(names, instance) ==> sanitized == SanitizeString(name)
    ensures SanitizeString(name) <= sanitized
  {
    var base := SanitizeString(name);
    var taken := Taken(names, instance);
    sanitized := base;
    var counter: nat := 1;
    ghost var tried: set<string> := {};
    while sanitized in taken
      invariant counter >= 1
      invariant sanitized == Candidate(base, counter - 1)
      invariant forall j :: 0 <= j < counter - 1 ==> Candidate(base, j) in taken
      invariant tried <= taken
      invariant forall x :: x in tried ==> exists j :: 0 <= j < counter - 1 && x == Candidate(base, j)
      decreases |taken - tried|
    {
      NotTried(base, counter - 1, tried);
      ProbesTaken(base, taken, counter - 1);
      assert taken - (tried + {sanitized}) < taken - tried;
      tried := tried + {sanitized};
      sanitized := base + "_" + NatToString(counter);
      counter := counter + 1;
    }
    assert FirstFree(base, taken, counter - 1);
  }

  /** A candidate is none of those tried before it. */
  lemma NotTried(base: string, k: nat, tried: set<string>)
    requires forall x :: x in tried ==> exists j :: 0 <= j < k && x == Candidate(base, j)
    ensures Candidate(base, k) !in tried
  {
    forall x | x in tried
      ensures x != Candidate(base, k)
    {
      var j :| 0 <= j < k && x == Candidate(base, j);
      CandidateInjective(base, j, k);
    }
  }

  /** One more probe taken extends the run of taken probes. */
  lemma ProbesTaken(base: string, taken: set<string>, k: nat)
    requires forall j :: 0 <= j < k ==> Candidate(base, j) in taken
    requires Candidate(base, k) in taken
    ensures forall j :: 0 <= j < k + 1 ==> Candidate(base, j) in taken
  {
  }
}
