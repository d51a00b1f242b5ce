/**
 * `sanitizeObject`: a tree walk over a JSON value that HTML-escapes every
 * string, rebuilds arrays element by element and objects key by key, and
 * returns everything else as it is. A fresh value is built; the input is a
 * Dafny value and so cannot be mutated.
 *
 * `Sanitize` is the walk as intended. `SanitizeAsWritten` is the walk as the
 * JavaScript actually behaves on two special keys (see README, Findings).
 */
module Sanitizer {
  import opened Wrappers
  import opened JsonValue
  import opened Escape

  function Sanitize(v: Json): (r: Json)
    ensures r.JStr? == v.JStr? && r.JArr? == v.JArr? && r.JObj? == v.JObj?
    ensures v.JStr? ==> r.s == EscapeHtml(v.s)
  {
    match v
    case JStr(s) => JStr(EscapeHtml(s))
    case JArr(items) => JArr(SanitizeItems(items))
    case JObj(ms) => JObj(SanitizeMembers(ms))
    case _ => v
  }

  /** `obj.map((item) => sanitizeObject(item))`. */
  function SanitizeItems(items: seq<Json>): (r: seq<Json>)
    ensures |r| == |items|
    ensures forall i :: 0 <= i < |items| ==> r[i] == Sanitize(items[i])
  {
    if items == [] then [] else [Sanitize(items[0])] + SanitizeItems(items[1..])
  }

  /** The `for...in` loop filling a fresh object: same keys, same order,
      each value sanitized. */
  function SanitizeMembers(ms: seq<Member>): (r: seq<Member>)
    ensures Keys(r) == Keys(ms)
    ensures forall i :: 0 <= i < |ms| ==> r[i].value == Sanitize(ms[i].value)
  {
    if ms == [] then []
    else [Member(ms[0].key, Sanitize(ms[0].value))] + SanitizeMembers(ms[1..])
  }

  // ---------------------------------------------------------------------------
  // Properties of the string leaves of a value

  /** Every string leaf (not the object keys) satisfies `p`. */
  predicate StringsAll(v: Json, p: string -> bool) {
    match v
    case JStr(s) => p(s)
    case JArr(items) => ItemsStringsAll(items, p)
    case JObj(ms) => MembersStringsAll(ms, p)
    case _ => true
  }

  predicate ItemsStringsAll(items: seq<Json>, p: string -> bool) {
    items == [] || (StringsAll(items[0], p) && ItemsStringsAll(items[1..], p))
  }

  predicate MembersStringsAll(ms: seq<Member>, p: string -> bool) {
    ms == [] || (StringsAll(ms[0].value, p) && MembersStringsAll(ms[1..], p))
  }

  /** The value holds no string at all. */
  predicate Stringless(v: Json) {
    StringsAll(v, _ => false)
  }

  /** After sanitizing, no string leaf contains `<`, `>`, `"` or `'`. */
  lemma {:induction false} SanitizeHasNoMarkup(v: Json)
    ensures StringsAll(Sanitize(v), NoMarkup)
  {
    match v
    case JArr(items) => SanitizeItemsHaveNoMarkup(items);
    case JObj(ms) => SanitizeMembersHaveNoMarkup(ms);
    case _ =>
  }

  lemma {:induction false} SanitizeItemsHaveNoMarkup(items: seq<Json>)
    ensures ItemsStringsAll(SanitizeItems(items), NoMarkup)
  {
    if items != [] {
      SanitizeHasNoMarkup(items[0]);
      SanitizeItemsHaveNoMarkup(items[1..]);
      assert SanitizeItems(items)[1..] == SanitizeItems(items[1..]);
    }
  }

  lemma {:induction false} SanitizeMembersHaveNoMarkup(ms: seq<Member>)
    ensures MembersStringsAll(SanitizeMembers(ms), NoMarkup)
  {
    if ms != [] {
      SanitizeHasNoMarkup(ms[0].value);
      SanitizeMembersHaveNoMarkup(ms[1..]);
      assert SanitizeMembers(ms)[1..] == SanitizeMembers(ms[1..]);
    }
  }

  /** `null`, numbers, booleans, and any tree of them, come back unchanged. */
  lemma {:induction false} SanitizeStringless(v: Json)
    requires Stringless(v)
    ensures Sanitize(v) == v
  {
    match v
    case JArr(items) => SanitizeStringlessItems(items);
    case JObj(ms) => SanitizeStringlessMembers(ms);
    case _ =>
  }

  lemma {:induction false} SanitizeStringlessItems(items: seq<Json>)
    requires ItemsStringsAll(items, _ => false)
    ensures SanitizeItems(items) == items
  {
    if items != [] {
      SanitizeStringless(items[0]);
      SanitizeStringlessItems(items[1..]);
    }
  }

  lemma {:induction false} SanitizeStringlessMembers(ms: seq<Member>)
    requires MembersStringsAll(ms, _ => false)
    ensures SanitizeMembers(ms) == ms
  {
    if ms != [] {
      SanitizeStringless(ms[0].value);
      SanitizeStringlessMembers(ms[1..]);
    }
  }

  // ---------------------------------------------------------------------------
  // The inverse: decoding every string leaf gives the input back

  function Unsanitize(v: Json): Json {
    match v
    case JStr(s) => JStr(UnescapeHtml(s))
    case JArr(items) => JArr(UnsanitizeItems(items))
    case JObj(ms) => JObj(UnsanitizeMembers(ms))
    case _ => v
  }

  function UnsanitizeItems(items: seq<Json>): seq<Json> {
    if items == [] then [] else [Unsanitize(items[0])] + UnsanitizeItems(items[1..])
  }

  function UnsanitizeMembers(ms: seq<Member>): seq<Member> {
    if ms == [] then []
    else [Member(ms[0].key, Unsanitize(ms[0].value))] + UnsanitizeMembers(ms[1..])
  }

  /** Sanitizing loses no information: shape, keys, order and every string are
      recoverable from the output. */
  lemma {:induction false} UnsanitizeSanitize(v: Json)
    ensures Unsanitize(Sanitize(v)) == v
  {
    match v
    case JStr(s) => UnescapeEscape(s);
    case JArr(items) => UnsanitizeSanitizeItems(items);
    case JObj(ms) => UnsanitizeSanitizeMembers(ms);
    case _ =>
  }

  lemma {:induction false} UnsanitizeSanitizeItems(items: seq<Json>)
    ensures UnsanitizeItems(SanitizeItems(items)) == items
  {
    if items != [] {
      UnsanitizeSanitize(items[0]);
      UnsanitizeSanitizeItems(items[1..]);
      assert SanitizeItems(items)[1..] == SanitizeItems(items[1..]);
    }
  }

  lemma {:induction false} UnsanitizeSanitizeMembers(ms: seq<Member>)
    ensures UnsanitizeMembers(SanitizeMembers(ms)) == ms
  {
    if ms != [] {
      UnsanitizeSanitize(ms[0].value);
      UnsanitizeSanitizeMembers(ms[1..]);
      assert SanitizeMembers(ms)[1..] == SanitizeMembers(ms[1..]);
    }
  }

  // ---------------------------------------------------------------------------
  // The walk as written

  /** Some object in the tree has an own property named `key`. */
  predicate MentionsKey(v: Json, key: string) {
    match v
    case JArr(items) => ItemsMentionKey(items, key)
    case JObj(ms) => MembersMentionKey(ms, key)
    case _ => false
  }

  predicate ItemsMentionKey(items: seq<Json>, key: string) {
    items != [] && (MentionsKey(items[0], key) || ItemsMentionKey(items[1..], key))
  }

  predicate MembersMentionKey(ms: seq<Member>, key: string) {
    ms != [] && (ms[0].key == key || MentionsKey(ms[0].value, key) || MembersMentionKey(ms[1..], key))
  }

  /** `None` is a thrown TypeError. On an object with an own `hasOwnProperty`
      member, `obj.hasOwnProperty(key)` calls that member, which is not a
      function. Assigning `sanitized['__proto__']` sets the prototype of the
      fresh object (or is ignored for a primitive) instead of adding a key. */
  function SanitizeAsWritten(v: Json): (r: Option<Json>)
    ensures v.JStr? ==> r == Some(JStr(EscapeHtml(v.s)))
    ensures r.Some? ==> r.value.JStr? == v.JStr? && r.value.JArr? == v.JArr? && r.value.JObj? == v.JObj?
    ensures v.JObj? && Lookup(v.members, "hasOwnProperty").Some? ==> r.None?
  {
    match v
    case JStr(s) => Some(JStr(EscapeHtml(s)))
    case JArr(items) =>
      (match SanitizeItemsAsWritten(items)
       case None => None
       case Some(rs) => Some(JArr(rs)))
    case JObj(ms) =>
      if Lookup(ms, "hasOwnProperty").Some? then None
      else
        (match SanitizeMembersAsWritten(ms)
         case None => None
         case Some(rs) => Some(JObj(rs)))
    case _ => Some(v)
  }

  function SanitizeItemsAsWritten(items: seq<Json>): (r: Option<seq<Json>>)
    ensures r.Some? ==> |r.value| == |items|
  {
    if items == [] then Some([])
    else match SanitizeAsWritten(items[0])
      case None => None
      case Some(r) =>
        (match SanitizeItemsAsWritten(items[1..])
         case None => None
         case Some(rs) => Some([r] + rs))
  }

  function SanitizeMembersAsWritten(ms: seq<Member>): (r: Option<seq<Member>>)
    ensures r.Some? ==> |r.value| <= |ms|
    ensures r.Some? ==> forall i :: 0 <= i < |r.value| ==> r.value[i].key != "__proto__"
  {
    if ms == [] then Some([])
    else match SanitizeAsWritten(ms[0].value)
      case None => None
      case Some(r) =>
        (match SanitizeMembersAsWritten(ms[1..])
         case None => None
         case Some(rs) =>
           Some(if ms[0].key == "__proto__" then rs else [Member(ms[0].key, r)] + rs))
  }

  /** The walk as written throws exactly when some object in the tree has an
      own `hasOwnProperty` member. */
  lemma {:induction false} AsWrittenThrows(v: Json)
    ensures SanitizeAsWritten(v).None? <==> MentionsKey(v, "hasOwnProperty")
  {
    match v
    case JArr(items) => AsWrittenThrowsItems(items);
    case JObj(ms) =>
      AsWrittenThrowsMembers(ms);
      MembersMentionKeyAt(ms, "hasOwnProperty");
    case _ =>
  }

  /** An object mentions `key` iff one of its keys is `key` or one of its
      values mentions it. */
  lemma {:induction false} MembersMentionKeyAt(ms: seq<Member>, key: string)
    ensures MembersMentionKey(ms, key) <==>
            (exists i :: 0 <= i < |ms| && ms[i].key == key) ||
            (exists i :: 0 <= i < |ms| && MentionsKey(ms[i].value, key))
  {
    if ms != [] {
      MembersMentionKeyAt(ms[1..], key);
      if exists i :: 0 <= i < |ms| && ms[i].key == key {
        var i :| 0 <= i < |ms| && ms[i].key == key;
        if i > 0 { assert ms[1..][i - 1].key == key; }
      }
      if exists i :: 0 <= i < |ms| && MentionsKey(ms[i].value, key) {
        var i :| 0 <= i < |ms| && MentionsKey(ms[i].value, key);
        if i > 0 { assert MentionsKey(ms[1..][i - 1].value, key); }
      }
      if exists i :: 0 <= i < |ms[1..]| && ms[1..][i].key == key {
        var i :| 0 <= i < |ms[1..]| && ms[1..][i].key == key;
        assert ms[i + 1].key == key;
      }
      if exists i :: 0 <= i < |ms[1..]| && MentionsKey(ms[1..][i].value, key) {
        var i :| 0 <= i < |ms[1..]| && MentionsKey(ms[1..][i].value, key);
        assert MentionsKey(ms[i + 1].value, key);
      }
    }
  }

  lemma {:induction false} AsWrittenThrowsItems(items: seq<Json>)
    ensures SanitizeItemsAsWritten(items).None? <==> ItemsMentionKey(items, "hasOwnProperty")
  {
    if items != [] {
      AsWrittenThrows(items[0]);
      AsWrittenThrowsItems(items[1..]);
    }
  }

  lemma {:induction false} AsWrittenThrowsMembers(ms: seq<Member>)
    ensures SanitizeMembersAsWritten(ms).None? <==>
            exists i :: 0 <= i < |ms| && MentionsKey(ms[i].value, "hasOwnProperty")
  {
    if ms != [] {
      AsWrittenThrows(ms[0].value);
      AsWrittenThrowsMembers(ms[1..]);
      if exists i :: 0 <= i < |ms[1..]| && MentionsKey(ms[1..][i].value, "hasOwnProperty") {
        var i :| 0 <= i < |ms[1..]| && MentionsKey(ms[1..][i].value, "hasOwnProperty");
        assert MentionsKey(ms[i + 1].value, "hasOwnProperty");
      }
      if exists i :: 0 <= i < |ms| && MentionsKey(ms[i].value, "hasOwnProperty") {
        var i :| 0 <= i < |ms| && MentionsKey(ms[i].value, "hasOwnProperty");
        if i > 0 {
          assert MentionsKey(ms[1..][i - 1].value, "hasOwnProperty");
        }
      }
    }
  }

  /** Away from the two special keys, the walk as written is the intended one. */
  lemma {:induction false} AsWrittenAgrees(v: Json)
    requires !MentionsKey(v, "hasOwnProperty") && !MentionsKey(v, "__proto__")
    ensures SanitizeAsWritten(v) == Some(Sanitize(v))
  {
    match v
    case JArr(items) => AsWrittenAgreesItems(items);
    case JObj(ms) =>
      MembersMentionKeyAt(ms, "hasOwnProperty");
      AsWrittenAgreesMembers(ms);
    case _ =>
  }

  lemma {:induction false} AsWrittenAgreesItems(items: seq<Json>)
    requires !ItemsMentionKey(items, "hasOwnProperty") && !ItemsMentionKey(items, "__proto__")
    ensures SanitizeItemsAsWritten(items) == Some(SanitizeItems(items))
  {
    if items != [] {
      AsWrittenAgrees(items[0]);
      AsWrittenAgreesItems(items[1..]);
    }
  }

  lemma {:induction false} AsWrittenAgreesMembers(ms: seq<Member>)
    requires !MembersMentionKey(ms, "hasOwnProperty") && !MembersMentionKey(ms, "__proto__")
    ensures SanitizeMembersAsWritten(ms) == Some(SanitizeMembers(ms))
  {
    if ms != [] {
      AsWrittenAgrees(ms[0].value);
      AsWrittenAgreesMembers(ms[1..]);
    }
  }

  /** An own `hasOwnProperty` member makes the walk as written throw, where
      the intended walk keeps the object. */
  lemma HasOwnPropertyKeyThrows()
    ensures var v := JObj([Member("hasOwnProperty", JNum(1.0))]);
            SanitizeAsWritten(v) == None && Sanitize(v) == v
  {
  }

  /** A `__proto__` key disappears from the walk's output as written, where
      the intended walk keeps it. */
  lemma ProtoKeyDropped()
    ensures var v := JObj([Member("__proto__", JObj([Member("a", JNum(1.0))]))]);
            SanitizeAsWritten(v) == Some(JObj([])) && Sanitize(v) == v
  {
    SanitizeStringless(JObj([Member("__proto__", JObj([Member("a", JNum(1.0))]))]));
  }
}
