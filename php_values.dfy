/** PHP values as the trace engine inspects them, ordered PHP arrays, and the
    JSON values the serialisers produce. */
module PhpValues {
  import opened Outcomes
  import opened Text

  /** An array key: PHP arrays are keyed by integers or strings. */
  datatype Key = IntKey(i: int) | StrKey(s: string)

  /** A PHP value. Floats, the text of `DateTimeInterface::format` and resource
      types are carried as opaque strings; an object is known by its class name. */
  datatype Value =
    | VNull
    | VBool(b: bool)
    | VInt(i: int)
    | VFloat(repr: string)
    | VString(s: string)
    | VArray(entries: seq<(Key, Value)>)
    | VObject(className: string)
    | VDateTime(formatted: string)
    | VResource(resourceType: string)

  /** An ordered PHP array: entries in insertion order. */
  type Entries = seq<(Key, Value)>

  /** A key as string interpolation writes it. */
  function KeyString(k: Key): string {
    match k
    case IntKey(i) => IntToString(i)
    case StrKey(s) => s
  }

  predicate DistinctKeys(a: Entries) {
    forall i, j :: 0 <= i < j < |a| ==> a[i].0 != a[j].0
  }

  /** The position of key `k`, if present. */
  function IndexOfKey(a: Entries, k: Key): (r: Option<nat>)
    ensures r.Some? ==> r.value < |a| && a[r.value].0 == k
    ensures r.None? ==> forall i :: 0 <= i < |a| ==> a[i].0 != k
  {
    if |a| == 0 then None
    else if a[|a| - 1].0 == k then Some(|a| - 1)
    else IndexOfKey(a[..|a| - 1], k)
  }

  /** `$a[$k] = $v`: an existing key keeps its place and takes the new value; a new
      key is appended. */
  function Assign(a: Entries, k: Key, v: Value): (r: Entries)
    ensures IndexOfKey(a, k).Some? ==> r == a[IndexOfKey(a, k).value := (k, v)]
    ensures IndexOfKey(a, k).None? ==> r == a + [(k, v)]
  {
    match IndexOfKey(a, k)
    case Some(i) => a[i := (k, v)]
    case None => a + [(k, v)]
  }

  /** `array_is_list`: the keys are exactly 0, 1, …, n-1 in order. */
  predicate IsList(a: Entries) {
    forall i :: 0 <= i < |a| ==> a[i].0 == IntKey(i)
  }

  /** Renumbers the integer keys from `next` on, in order, and keeps string keys. */
  function Renumber(a: Entries, next: int): (r: Entries)
    ensures |r| == |a|
    ensures forall i :: 0 <= i < |a| ==> r[i].1 == a[i].1
    ensures forall i :: 0 <= i < |a| ==> a[i].0.StrKey? ==> r[i].0 == a[i].0
    ensures forall i :: 0 <= i < |a| ==> r[i].0.IntKey? == a[i].0.IntKey?
  {
    if |a| == 0 then []
    else if a[0].0.IntKey? then [(IntKey(next), a[0].1)] + Renumber(a[1..], next + 1)
    else [a[0]] + Renumber(a[1..], next)
  }

  /** A list (an array with only integer keys) renumbered from 0 is `0..n-1`. */
  lemma {:induction false} RenumberIntKeys(a: Entries, next: int)
    requires forall i :: 0 <= i < |a| ==> a[i].0.IntKey?
    ensures forall i :: 0 <= i < |a| ==> Renumber(a, next)[i].0 == IntKey(next + i)
  {
    if |a| > 0 {
      RenumberIntKeys(a[1..], next + 1);
      var r := Renumber(a, next);
      assert r == [(IntKey(next), a[0].1)] + Renumber(a[1..], next + 1);
      forall i | 0 <= i < |a| ensures r[i].0 == IntKey(next + i) {
        if i > 0 {
          assert r[i] == Renumber(a[1..], next + 1)[i - 1];
        }
      }
    }
  }

  /** `array_shift($a)`: the first value (null for an empty array) and the rest,
      with integer keys renumbered from zero. */
  function ArrayShift(a: Entries): (r: (Value, Entries))
    ensures |a| == 0 ==> r == (VNull, [])
    ensures |a| > 0 ==> r.0 == a[0].1 && r.1 == Renumber(a[1..], 0)
  {
    if |a| == 0 then (VNull, []) else (a[0].1, Renumber(a[1..], 0))
  }

  /** A JSON value as `json_encode` would see the serialisers' output. */
  datatype Json =
    | JNull
    | JBool(b: bool)
    | JInt(i: int)
    | JFloat(repr: string)
    | JString(s: string)
    | JObject(members: seq<(string, Json)>)
}
