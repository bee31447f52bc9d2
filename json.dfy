/**
 * Documents as Python sees them after `json.load` or `yaml.safe_load`:
 * `None`, booleans, integers, strings, lists and dicts. A dict is an
 * ordered list of (key, value) entries, because Python dicts keep insertion
 * order and the code iterates over `.items()`.
 *
 * `Lookup` is `d.get(key)`, `Assign` is `d[key] = value`: assigning to a key
 * that is present keeps its position, assigning a new key appends it.
 */
module Json {
  import opened Wrappers
  import Text

  datatype Json =
    | Null
    | Bool(b: bool)
    | Int(i: int)
    | Str(s: string)
    | Arr(items: seq<Json>)
    | Obj(fields: seq<(string, Json)>)

  /** The keys of a dict, in order. */
  function Keys(fields: seq<(string, Json)>): (r: seq<string>)
    ensures |r| == |fields| && forall i :: 0 <= i < |fields| ==> r[i] == fields[i].0
  {
    seq(|fields|, i requires 0 <= i < |fields| => fields[i].0)
  }

  /** `d.get(key)`, with `None` for a missing key. */
  function Lookup(fields: seq<(string, Json)>, key: string): (r: Option<Json>)
    ensures r.Some? <==> key in Keys(fields)
    ensures r.Some? ==> exists i :: 0 <= i < |fields| && fields[i] == (key, r.value)
  {
    if |fields| == 0 then None
    else if fields[0].0 == key then Some(fields[0].1)
    else
      var r := Lookup(fields[1..], key);
      assert Keys(fields) == [fields[0].0] + Keys(fields[1..]);
      assert r.Some? ==> exists i :: 0 <= i < |fields[1..]| && fields[1..][i] == (key, r.value);
      r
  }

  /** `d.get(key)` on a document, where Python's `None` is `Null`. */
  function Get(j: Json, key: string): Json
  {
    if j.Obj? then (match Lookup(j.fields, key) case Some(v) => v case None => Null) else Null
  }

  /** `d[key] = value` */
  function Assign(fields: seq<(string, Json)>, key: string, value: Json): (r: seq<(string, Json)>)
  {
    if |fields| == 0 then [(key, value)]
    else if fields[0].0 == key then [(key, value)] + fields[1..]
    else [fields[0]] + Assign(fields[1..], key, value)
  }

  /** After `d[key] = value`, `d.get(key)` is `value` and every other key reads as before. */
  lemma {:induction false} LookupAssign(fields: seq<(string, Json)>, key: string, value: Json, k: string)
    ensures Lookup(Assign(fields, key, value), k) == if k == key then Some(value) else Lookup(fields, k)
  {
    if |fields| > 0 && fields[0].0 != key {
      assert Assign(fields, key, value)[1..] == Assign(fields[1..], key, value);
      LookupAssign(fields[1..], key, value, k);
    }
  }

  /** Assignment keeps the order of the keys and appends a new key at the end. */
  lemma {:induction false} KeysAssign(fields: seq<(string, Json)>, key: string, value: Json)
    ensures Keys(Assign(fields, key, value)) == if key in Keys(fields) then Keys(fields) else Keys(fields) + [key]
  {
    if |fields| > 0 {
      KeysCons(fields[0], fields[1..]);
      assert fields == [fields[0]] + fields[1..];
      if fields[0].0 != key {
        KeysAssign(fields[1..], key, value);
        KeysCons(fields[0], Assign(fields[1..], key, value));
      } else {
        KeysCons((key, value), fields[1..]);
      }
    }
  }

  lemma KeysCons(field: (string, Json), rest: seq<(string, Json)>)
    ensures Keys([field] + rest) == [field.0] + Keys(rest)
  {
  }

  /** Assigning the value a key already holds changes nothing. */
  lemma {:induction false} AssignPresent(fields: seq<(string, Json)>, key: string, value: Json)
    requires Lookup(fields, key) == Some(value)
    ensures Assign(fields, key, value) == fields
  {
    if fields[0].0 != key {
      AssignPresent(fields[1..], key, value);
    }
  }

  /** Assigning the same key twice is assigning it once with the later value. */
  lemma {:induction false} AssignAssign(fields: seq<(string, Json)>, key: string, v1: Json, v2: Json)
    ensures Assign(Assign(fields, key, v1), key, v2) == Assign(fields, key, v2)
  {
    if |fields| > 0 && fields[0].0 != key {
      AssignAssign(fields[1..], key, v1, v2);
    }
  }

  /**
   * `del d[key]`. A dict holds a key at most once; removing every entry with
   * that key is the same thing there, and is what makes `key` read as absent
   * afterwards for any list of entries.
   */
  function Remove(fields: seq<(string, Json)>, key: string): (r: seq<(string, Json)>)
    ensures forall k :: Lookup(r, k) == if k == key then None else Lookup(fields, k)
  {
    if |fields| == 0 then []
    else
      var rest := Remove(fields[1..], key);
      if fields[0].0 == key then rest
      else
        assert ([fields[0]] + rest)[1..] == rest;
        [fields[0]] + rest
  }

  /** Python truthiness: `None`, `False`, `0`, `""`, `[]` and `{}` are false. */
  predicate Truthy(j: Json)
  {
    match j
    case Null => false
    case Bool(b) => b
    case Int(i) => i != 0
    case Str(s) => s != ""
    case Arr(items) => items != []
    case Obj(fields) => fields != []
  }

  /**
   * `repr()` of a document: `None`, `True`/`False`, the decimal integer,
   * the quoted string, and lists `[a, b]` and dicts `{'k': v}` whose
   * entries are separated by `, `.
   */
  function ReprOf(j: Json): (r: string)
    ensures |r| > 0
    ensures j.Str? ==> r == Text.Repr(j.s)
    ensures j.Arr? ==> r[0] == '[' && r[|r| - 1] == ']'
    ensures j.Obj? ==> r[0] == '{' && r[|r| - 1] == '}'
    decreases j
  {
    match j
    case Null => "None"
    case Bool(b) => if b then "True" else "False"
    case Int(i) => Text.IntToString(i)
    case Str(s) => Text.Repr(s)
    case Arr(items) =>
      "[" + Text.Join(seq(|items|, k requires 0 <= k < |items| => ReprOf(items[k])), ", ") + "]"
    case Obj(fields) =>
      "{" + Text.Join(seq(|fields|, k requires 0 <= k < |fields| => Text.Repr(fields[k].0) + ": " + ReprOf(fields[k].1)), ", ") + "}"
  }

  /** `str()`: a string is itself, anything else prints as its `repr()`. */
  function StrOf(j: Json): (r: string)
    ensures j.Str? ==> r == j.s
    ensures !j.Str? ==> r == ReprOf(j) && r != ""
  {
    if j.Str? then j.s else ReprOf(j)
  }

  /** The empty containers print as their brackets, `None` as its name. */
  lemma StrOfEmpty()
    ensures StrOf(Arr([])) == "[]" && StrOf(Obj([])) == "{}" && StrOf(Null) == "None"
  {
  }
}
