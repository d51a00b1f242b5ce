/**
 * Already-parsed JSON values, as the handlers see them after `JSON.parse`
 * (or after Express's body parser), and the JavaScript notions the handlers
 * apply to them: truthiness, property lookup and `Array.prototype.find`.
 */
module JsonValue {
  import opened Wrappers

  /** A JSON value. An object is the list of its own properties in enumeration
      order; a parsed object never holds the same key twice. */
  datatype Json =
    | JNull
    | JBool(b: bool)
    | JNum(n: real)
    | JStr(s: string)
    | JArr(items: seq<Json>)
    | JObj(members: seq<Member>)

  datatype Member = Member(key: string, value: Json)

  function Keys(ms: seq<Member>): (ks: seq<string>)
    ensures |ks| == |ms|
    ensures forall i :: 0 <= i < |ms| ==> ks[i] == ms[i].key
  {
    if ms == [] then [] else [ms[0].key] + Keys(ms[1..])
  }

  /** JavaScript truthiness: `null`, `false`, `0`, `-0` and `""` are falsy. */
  predicate Truthy(v: Json): (r: bool)
    ensures v.JArr? || v.JObj? ==> r
    ensures r ==> v != JNull
  {
    match v
    case JNull => false
    case JBool(b) => b
    case JNum(n) => n != 0.0
    case JStr(s) => s != ""
    case _ => true
  }

  /** `obj[key]` on a parsed object: the own property named `key`, or `None`
      for `undefined`. */
  function Lookup(ms: seq<Member>, key: string): (r: Option<Json>)
    ensures r.None? <==> forall i :: 0 <= i < |ms| ==> ms[i].key != key
    ensures r.Some? ==> Member(key, r.value) in ms
  {
    if ms == [] then None
    else if ms[0].key == key then Some(ms[0].value)
    else Lookup(ms[1..], key)
  }

  /** `v.key` for any value: only objects carry the properties the handlers
      read (`id`, `username`, `password`, `passwordHash`); arrays, strings,
      numbers and booleans give `undefined`. `null` throws and is handled by
      the callers before they get here. */
  function Property(v: Json, key: string): (r: Option<Json>)
    ensures r.Some? ==> v.JObj? && Member(key, r.value) in v.members
    ensures v.JObj? && r.None? ==> forall i :: 0 <= i < |v.members| ==> v.members[i].key != key
  {
    if v.JObj? then Lookup(v.members, key) else None
  }

  /** Outcome of `Array.prototype.find`/`findIndex` with a callback that reads
      a property of each element: the callback throws a TypeError on `null`. */
  datatype Search = Found(index: nat) | Missing | Crash

  /** `find` visits the first `k` elements without a throw and without a match. */
  predicate PassesOver(items: seq<Json>, matches: Json -> bool, k: int) {
    forall j :: 0 <= j < k && j < |items| ==> items[j] != JNull && !matches(items[j])
  }

  /** `i` is the index `find` stops at with a match. */
  predicate FirstMatch(items: seq<Json>, matches: Json -> bool, i: int) {
    0 <= i < |items| && items[i] != JNull && matches(items[i]) && PassesOver(items, matches, i)
  }

  /** `i` is the index of the `null` whose property read throws. */
  predicate FirstNull(items: seq<Json>, matches: Json -> bool, i: int) {
    0 <= i < |items| && items[i] == JNull && PassesOver(items, matches, i)
  }

  /** Visits the elements in order and stops at the first match, or at the first
      `null`, whose property read throws. */
  function FindFirst(items: seq<Json>, matches: Json -> bool): (r: Search)
    ensures r.Found? ==> FirstMatch(items, matches, r.index)
    ensures r.Missing? <==> PassesOver(items, matches, |items|)
    ensures r.Crash? ==> exists i :: FirstNull(items, matches, i)
  {
    if items == [] then Missing
    else if items[0] == JNull then
      assert FirstNull(items, matches, 0);
      Crash
    else if matches(items[0]) then Found(0)
    else match FindFirst(items[1..], matches)
      case Found(i) => Found(i + 1)
      case Missing => Missing
      case Crash =>
        var i :| FirstNull(items[1..], matches, i);
        assert FirstNull(items, matches, i + 1);
        Crash
  }

  /** `find` stops at the first match whenever there is one. */
  lemma {:induction false} FindFirstFinds(items: seq<Json>, matches: Json -> bool, i: int)
    requires FirstMatch(items, matches, i)
    ensures FindFirst(items, matches) == Found(i)
  {
  }

  /** `find` throws whenever a `null` comes before any match. */
  lemma {:induction false} FindFirstCrashes(items: seq<Json>, matches: Json -> bool, i: int)
    requires FirstNull(items, matches, i)
    ensures FindFirst(items, matches) == Crash
  {
  }
}
