/**
 * The `GET /data` and `DELETE /data/:id` handlers without their timers and
 * file I/O. The parsed contents of the items file come in as `store`
 * (`None` when reading or `JSON.parse` fails); DELETE returns the list it
 * writes back, and whether that write succeeds is the `writeOk` parameter.
 */
module Api {
  import opened Wrappers
  import opened JsonValue
  import opened Http
  import opened Escape
  import opened Sanitizer
  import opened IntParsing

  const MaxItems := 1000

  const InvalidId := ErrorReply(400, "Invalid ID format")
  const PayloadTooLarge := ErrorReply(413, "Data size exceeds limit")
  const NotFound := ErrorReply(404, "Item not found")

  /** What reading `store.length` gives: a number, `undefined`, or the
      TypeError that reading a property of `null` throws. */
  datatype Length = Count(n: real) | Undefined | Throws

  /** `store.length`: the element count of an array, the length of a string,
      the numeric `length` member of an object; `null` throws. */
  function LengthOf(store: Json): (r: Length)
    ensures store.JArr? ==> r == Count(|store.items| as real)
    ensures store.JStr? ==> r == Count(|store.s| as real)
    ensures r.Throws? <==> store.JNull?
    ensures store.JBool? || store.JNum? ==> r == Undefined
  {
    match store
    case JNull => Throws
    case JArr(items) => Count(|items| as real)
    case JStr(s) => Count(|s| as real)
    case JObj(ms) =>
      (match Lookup(ms, "length")
       case Some(JNum(n)) => Count(n)
       case _ => Undefined)
    case _ => Undefined
  }

  /** `items.length > 1000`, or `None` when reading `length` throws;
      `undefined > 1000` is false. */
  function TooLarge(store: Json): (r: Option<bool>)
    ensures store.JArr? ==> r == Some(|store.items| > MaxItems)
    ensures r.None? <==> store.JNull?
    ensures store.JBool? || store.JNum? ==> r == Some(false)
  {
    match LengthOf(store)
    case Throws => None
    case Count(n) => Some(n > MaxItems as real)
    case Undefined => Some(false)
  }

  /** `item.id === itemId`. */
  predicate HasId(item: Json, id: int): (r: bool)
    ensures r ==> item.JObj? && Member("id", JNum(id as real)) in item.members
  {
    Property(item, "id") == Some(JNum(id as real))
  }

  function IdMatcher(id: int): (r: Json -> bool)
    ensures forall item :: r(item) ==> item.JObj? && Member("id", JNum(id as real)) in item.members
  {
    item => HasId(item, id)
  }

  /** The handlers answer 500 before the size check decides anything: the
      file could not be read or parsed, or it holds `null`, whose `length`
      throws. */
  predicate Unreadable(store: Option<Json>) {
    store.None? || store.value == JNull
  }

  /** `GET /data`. */
  function GetData(store: Option<Json>): (r: Reply)
    ensures r.status == 500 <==> Unreadable(store)
    ensures r.status == 413 <==> !Unreadable(store) && TooLarge(store.value) == Some(true)
    ensures r.status == 200 <==> !Unreadable(store) && TooLarge(store.value) == Some(false)
    ensures r.status == 200 ==> r == OkReply("Data retrieved successfully", "data", Sanitize(store.value))
    ensures r.status != 200 ==> r in {InternalError, PayloadTooLarge}
  {
    if store.None? then InternalError
    else match TooLarge(store.value)
      case None => InternalError
      case Some(true) => PayloadTooLarge
      case Some(false) => OkReply("Data retrieved successfully", "data", Sanitize(store.value))
  }

  /** A store of exactly 1000 items is served; one more item is refused. */
  lemma {:induction false} GetDataSizeBoundary(items: seq<Json>)
    ensures |items| <= MaxItems ==> GetData(Some(JArr(items))).status == 200
    ensures |items| > MaxItems ==> GetData(Some(JArr(items))) == PayloadTooLarge
  {
  }

  /** What GET serves is the whole store, escaped: it carries no markup
      character in any string, and decoding it gives the store back. */
  lemma {:induction false} GetDataServesStore(store: Option<Json>)
    requires GetData(store).status == 200
    ensures var data := GetData(store).body.members[1].value;
            StringsAll(data, NoMarkup) && Unsanitize(data) == store.value
  {
    SanitizeHasNoMarkup(store.value);
    UnsanitizeSanitize(store.value);
  }

  /** `items.splice(i, 1)` on a copy. */
  function Splice(items: seq<Json>, i: nat): (r: seq<Json>)
    requires i < |items|
    ensures |r| == |items| - 1
    ensures forall j :: 0 <= j < i ==> r[j] == items[j]
    ensures forall j :: i <= j < |r| ==> r[j] == items[j + 1]
  {
    items[..i] + items[i + 1..]
  }

  /** Splicing removes that one item and nothing else. */
  lemma {:induction false} SpliceRemovesOne(items: seq<Json>, i: nat)
    requires i < |items|
    ensures multiset(Splice(items, i)) + multiset{items[i]} == multiset(items)
  {
    assert items == items[..i] + [items[i]] + items[i + 1..];
  }

  /** `DELETE /data/:id`: returns the reply and the list handed to the write
      of the items file, if the handler gets that far. */
  method DeleteItem(idParam: string, store: Option<Json>, writeOk: bool)
    returns (reply: Reply, written: Option<seq<Json>>)
    // the id is checked first, and without touching the store
    ensures ParseInt(idParam).None? ==> reply == InvalidId && written == None
    ensures ParseInt(idParam).Some? && Unreadable(store) ==> reply == InternalError && written == None
    ensures ParseInt(idParam).Some? && !Unreadable(store) && TooLarge(store.value) == Some(true) ==>
              reply == PayloadTooLarge && written == None
    // only an array has `findIndex`
    ensures ParseInt(idParam).Some? && !Unreadable(store) && TooLarge(store.value) == Some(false) && !store.value.JArr? ==>
              reply == InternalError && written == None
    ensures ParseInt(idParam).Some? && !Unreadable(store) && TooLarge(store.value) == Some(false) && store.value.JArr? ==>
              var items := store.value.items;
              match FindFirst(items, IdMatcher(ParseInt(idParam).value))
              case Missing => reply == NotFound && written == None
              case Crash => reply == InternalError && written == None
              case Found(i) =>
                && written == Some(Splice(items, i))
                && reply == if writeOk then OkReply("Item deleted successfully", "deletedItem", Sanitize(items[i]))
                            else InternalError
  {
    var itemId := ParseInt(idParam);
    if itemId.None? {
      return InvalidId, None;
    }
    if store.None? {
      return InternalError, None;
    }
    var items := store.value;
    var tooLarge := TooLarge(items);
    if tooLarge.None? {
      return InternalError, None;
    }
    if tooLarge.value {
      return PayloadTooLarge, None;
    }
    if !items.JArr? {
      return InternalError, None;
    }
    var list := items.items;
    var itemIndex := FindFirst(list, IdMatcher(itemId.value));
    if itemIndex.Missing? {
      return NotFound, None;
    }
    if itemIndex.Crash? {
      return InternalError, None;
    }
    var deletedItem := list[itemIndex.index];
    list := Splice(list, itemIndex.index);
    written := Some(list);
    if !writeOk {
      return InternalError, written;
    }
    reply := OkReply("Item deleted successfully", "deletedItem", Sanitize(deletedItem));
  }

  /** A successful delete removes exactly the first item carrying the id: no
      earlier item has it, and the written list is the old one less that item. */
  lemma {:induction false} DeleteRemovesFirstMatch(items: seq<Json>, id: int)
    requires FindFirst(items, IdMatcher(id)).Found?
    ensures var i := FindFirst(items, IdMatcher(id)).index;
            && HasId(items[i], id)
            && (forall j :: 0 <= j < i ==> !HasId(items[j], id))
            && multiset(Splice(items, i)) + multiset{items[i]} == multiset(items)
  {
    var i := FindFirst(items, IdMatcher(id)).index;
    assert FirstMatch(items, IdMatcher(id), i);
    SpliceRemovesOne(items, i);
  }
}
