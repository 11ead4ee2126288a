/** The decoded request body (what `json.loads` hands back), Python's
    indexing of it, and Python's `str()` of a decoded value as used by
    `'{}'.format(...)`. */
module Json {
  import opened Wrappers

  /** A decoded JSON value. An object keeps its members in document order;
      as produced by the decoder its keys are distinct. Numbers are the
      integral ones only. */
  datatype Json =
    | JNull
    | JBool(b: bool)
    | JInt(i: int)
    | JStr(s: string)
    | JArr(items: seq<Json>)
    | JObj(fields: seq<(string, Json)>)

  /** No two members of an object share a key, as the decoder produces them. */
  predicate DistinctKeys(fields: seq<(string, Json)>)
  {
    forall i, j :: 0 <= i < j < |fields| ==> fields[i].0 != fields[j].0
  }

  /** The value stored under `key`, if any (the first member with that key). */
  function Lookup(fields: seq<(string, Json)>, key: string): (r: Option<Json>)
    ensures r.None? <==> forall i :: 0 <= i < |fields| ==> fields[i].0 != key
    ensures r.Some? ==> exists i :: 0 <= i < |fields| && fields[i] == (key, r.value)
    ensures DistinctKeys(fields) ==>
            forall i :: 0 <= i < |fields| && fields[i].0 == key ==> r == Some(fields[i].1)
  {
    if fields == [] then None
    else if fields[0].0 == key then Some(fields[0].1)
    else
      assert DistinctKeys(fields) ==> DistinctKeys(fields[1..]);
      assert forall i :: 1 <= i < |fields| ==> fields[i] == fields[1..][i - 1];
      Lookup(fields[1..], key)
  }

  /** `v[key]` for a string key: only a dictionary holding `key` gives a
      value; anything else raises (KeyError or TypeError), shown as None. */
  function Member(v: Json, key: string): (r: Option<Json>)
    ensures r.Some? <==> v.JObj? && exists i :: 0 <= i < |v.fields| && v.fields[i].0 == key
  {
    match v
    case JObj(fields) => Lookup(fields, key)
    case _ => None
  }

  /** `v[0]`: the first element of a non-empty list, the first character of
      a non-empty string; an empty one raises IndexError, a dictionary
      (string keys only) raises KeyError, a scalar raises TypeError. */
  function First(v: Json): (r: Option<Json>)
    ensures v.JArr? && |v.items| > 0 ==> r == Some(v.items[0])
    ensures r.Some? ==> (v.JArr? && |v.items| > 0) || (v.JStr? && |v.s| > 0)
  {
    match v
    case JArr(items) => if |items| > 0 then Some(items[0]) else None
    case JStr(s) => if |s| > 0 then Some(JStr([s[0]])) else None
    case _ => None
  }

  /** Decimal digits of a natural number. */
  function NatToString(n: nat): string
    decreases n
  {
    var d := ['0', '1', '2', '3', '4', '5', '6', '7', '8', '9'][n % 10];
    if n < 10 then [d] else NatToString(n / 10) + [d]
  }

  /** Python's `str()` of an int. */
  function IntToString(i: int): string
  {
    if i < 0 then "-" + NatToString(-i) else NatToString(i)
  }

  /** Python's `str()` of a decoded value, which is what `'{}'.format(v)`
      inserts: a string as it is, everything else as its `repr()`. */
  function Str(v: Json): string
  {
    match v
    case JStr(s) => s
    case _ => Repr(v)
  }

  /** Python's `repr()` of a decoded value (strings in single quotes). */
  function Repr(v: Json): string
    decreases v, 1, 0
  {
    match v
    case JNull => "None"
    case JBool(b) => if b then "True" else "False"
    case JInt(i) => IntToString(i)
    case JStr(s) => "'" + s + "'"
    case JArr(_) => "[" + ReprItems(v, 0) + "]"
    case JObj(_) => "{" + ReprFields(v, 0) + "}"
  }

  /** The elements of list `v` from index `k` on, separated by ", ". */
  function ReprItems(v: Json, k: nat): string
    requires v.JArr?
    decreases v, 0, |v.items| - k
  {
    if k >= |v.items| then ""
    else (if k > 0 then ", " else "") + Repr(v.items[k]) + ReprItems(v, k + 1)
  }

  /** The members of dictionary `v` from index `k` on, as "'key': value". */
  function ReprFields(v: Json, k: nat): string
    requires v.JObj?
    decreases v, 0, |v.fields| - k
  {
    if k >= |v.fields| then ""
    else
      var f := v.fields[k];
      assert f.1 < v;
      (if k > 0 then ", " else "") + "'" + f.0 + "': " + Repr(f.1) + ReprFields(v, k + 1)
  }
}
