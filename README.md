# Secure data API: rate limiter, sanitizer and route handlers in Dafny

This project models the request-handling core of a small Express service.
The service logs users in with a JSON Web Token, serves a list of items and
deletes items by id. It models four parts:

- **Rate limiter** (`rate_limit.dfy`, module `RateLimit`). A closure over a
  map from client address to the timestamps of the requests it admitted.
  `RateLimiter` is a class with that map as a field. `Admit` is one call of
  the middleware. It drops the timestamps outside the sliding window,
  answers 429 when the client has used its quota, and otherwise records the
  request.
- **Sanitizer** (`sanitize.dfy`, module `Sanitizer`, with `escape.dfy`,
  module `Escape`). `sanitizeObject` walks a JSON value and HTML-escapes
  every string with `escape-html`. It rebuilds arrays and objects and
  returns everything else unchanged. `Sanitize` is the intended walk, and
  it is the one the handlers use. `SanitizeAsWritten` is the walk as the
  JavaScript behaves on two special keys (see Findings).
- **Item routes** (`api.dfy`, module `Api`). These are the `GET /data` and
  `DELETE /data/:id` handler bodies.
  - The parsed items file is a parameter (`None` when reading or parsing
    fails).
  - `DELETE` is a method that returns the reply and the list it hands to
    the file write.
  - The id is read with JavaScript's `parseInt`, which is modelled in
    `parse_int.dfy` (module `IntParsing`).
- **Login route** (`auth.dfy`, module `Auth`). This is the decision
  procedure of `POST /login`: the four body checks in order, the user
  lookup, the password comparison and the token payload.

Shared modules:
- `json.dfy` (module `JsonValue`): parsed JSON values, and the JavaScript
  notions the handlers apply to them (truthiness, property reads, and
  `find`/`findIndex`, which throw on a `null` element).
- `http.dfy` (module `Http`): the reply shapes.
- `wrappers.dfy` (module `Wrappers`): `Option` and `Result`.

Where the documented design of the service and its code disagree about the
handlers, the model follows the code (the one exception, the sanitizer's two
special keys, is under Left out and Findings):
- Neither handler checks that the parsed items file is an array before
  reading its `length`. A string or an object with a numeric `length`
  member goes through the size check. After that, a non-array fails at
  `findIndex` in DELETE (500) and is sanitized and served by GET.
- No byte-size ceiling is applied to the files. The only limit is the
  1000-item check.

## Model

| member | source | states |
|---|---|---|
| RateLimit.Recent | middleware/rateLimit.js:14 | the filtered list holds exactly the timestamps later than the window start and is never longer than the input |
| RateLimit.RecentConcat | middleware/rateLimit.js:14 | filtering distributes over concatenation, so it keeps the order of what it keeps |
| RateLimit.RecentAllInside | middleware/rateLimit.js:14 | when every timestamp is inside the window, nothing is dropped |
| RateLimit.RecentAllExpired | middleware/rateLimit.js:7-14 | when every timestamp is at or before the window start, all are dropped |
| RateLimit.RecentSorted | middleware/rateLimit.js:14 | filtering a sorted list leaves it sorted |
| RateLimit.NextStored | middleware/rateLimit.js:13-21 | the list stored after a call holds only old timestamps and `now`; with a positive limit it never grows past the limit, and with no positive limit it is never changed |
| RateLimit.NextStoredSorted | middleware/rateLimit.js:14-21 | the list stored after a call is sorted and no later than the clock when the previous one was |
| RateLimit.AdmitKeepsSorted | middleware/rateLimit.js:9-21 | one call of the middleware keeps every client's list sorted and no later than the clock |
| RateLimit.RateLimiter.constructor | middleware/rateLimit.js:1-2 | a fresh limiter has the given limit and window and an empty map |
| RateLimit.RateLimiter.Default | middleware/rateLimit.js:1-2 | the default limiter allows 100 requests per 60000 ms |
| RateLimit.RateLimiter.Admit | middleware/rateLimit.js:4-24 | rejects with 429 exactly when the recent requests already reach the limit; otherwise calls `next()`. The new map differs only at the client: the untouched list on rejection, the recent list plus `now` on admission. No list ever exceeds the limit |
| RateLimit.Burst | middleware/rateLimit.js:4-23 | `maxRequests` calls at one instant are admitted and the next is rejected with the 429 reply; one window later the client is admitted again when the limit is positive |
| Escape.EscapeChar | utils/sanitize.js:4-6 | the entity for a character contains no markup character and starts with `&` exactly for the five special characters |
| Escape.EscapeHtml | utils/sanitize.js:4-6 | the escaped string contains none of `<`, `>`, `"`, `'` and is not shorter than the input |
| Escape.UnescapeEscape | utils/sanitize.js:4-6 | decoding the five entities gives back the original string |
| Escape.EscapeConcat | utils/sanitize.js:4-6 | escaping works character by character: it distributes over concatenation |
| Escape.EscapePlain | utils/sanitize.js:4-6 | a string without `&` or markup characters is left as it is |
| Escape.EscapeTag | utils/sanitize.js:4-6 | a tag such as `<script>` becomes the inert text `&lt;script&gt;` |
| Sanitizer.Sanitize | utils/sanitize.js:3-23 | keeps the kind of the value; a string becomes its escaped form |
| Sanitizer.SanitizeItems | utils/sanitize.js:8-10 | same length, each element sanitized position by position into a fresh array |
| Sanitizer.SanitizeMembers | utils/sanitize.js:12-20 | same keys in the same order, each value sanitized |
| Sanitizer.SanitizeHasNoMarkup | utils/sanitize.js:3-23 | no string anywhere in the output contains a markup character |
| Sanitizer.SanitizeItemsHaveNoMarkup | utils/sanitize.js:8-10 | the same for the elements of an array |
| Sanitizer.SanitizeMembersHaveNoMarkup | utils/sanitize.js:12-20 | the same for the values of an object |
| Sanitizer.SanitizeStringless | utils/sanitize.js:22 | `null`, numbers, booleans and any tree of them come back unchanged |
| Sanitizer.SanitizeStringlessItems | utils/sanitize.js:8-10 | the same for arrays of such values |
| Sanitizer.SanitizeStringlessMembers | utils/sanitize.js:12-20 | the same for objects of such values |
| Sanitizer.UnsanitizeSanitize | utils/sanitize.js:3-23 | sanitizing loses nothing: decoding every string leaf gives the input back |
| Sanitizer.UnsanitizeSanitizeItems | utils/sanitize.js:8-10 | the same for arrays |
| Sanitizer.UnsanitizeSanitizeMembers | utils/sanitize.js:12-20 | the same for objects |
| Sanitizer.AsWrittenThrows | utils/sanitize.js:12-16 | the walk as written throws exactly when some object in the tree has an own `hasOwnProperty` member |
| Sanitizer.AsWrittenThrowsItems | utils/sanitize.js:8-10 | the same for arrays |
| Sanitizer.AsWrittenThrowsMembers | utils/sanitize.js:12-20 | an object's walk throws exactly when one of its values contains such an object |
| Sanitizer.AsWrittenAgrees | utils/sanitize.js:12-20 | away from the keys `hasOwnProperty` and `__proto__`, the walk as written equals the intended one |
| Sanitizer.AsWrittenAgreesItems | utils/sanitize.js:8-10 | the same for arrays |
| Sanitizer.AsWrittenAgreesMembers | utils/sanitize.js:12-20 | the same for objects |
| Sanitizer.HasOwnPropertyKeyThrows | utils/sanitize.js:15 | `{"hasOwnProperty": 1}` makes the walk as written throw |
| Sanitizer.ProtoKeyDropped | utils/sanitize.js:16 | `{"__proto__": {"a": 1}}` comes out of the walk as written as `{}` |
| Sanitizer.SanitizeAsWritten | utils/sanitize.js:3-23 | the walk as written: a string becomes its escaped form; on success the kind of the value is kept; an object with an own `hasOwnProperty` member throws |
| Sanitizer.SanitizeItemsAsWritten | utils/sanitize.js:8-10 | on success the array keeps its length |
| Sanitizer.SanitizeMembersAsWritten | utils/sanitize.js:12-20 | on success the object has no more keys than the input and none of them is `__proto__` |
| JsonValue.Truthy | routes/auth.js:18 | arrays and objects are always truthy, `null` never is |
| JsonValue.Property | routes/auth.js:23 | for the keys the handlers read (`id`, `username`, `password`, `passwordHash`, none of which a string, number, boolean or array has, or an object inherits), a property read finds a value only on an object, and only an own member with that key; on an object it is `undefined` exactly when no member has the key |
| JsonValue.Lookup | routes/auth.js:23 | a property read is `undefined` exactly when no member has the key; otherwise the value is that member's |
| JsonValue.FindFirst | routes/api.js:65 | a found index is the first match with no `null` before it; `Missing` exactly when every element is non-null and unmatched; a throw only when a `null` comes before any match |
| JsonValue.FindFirstFinds | routes/auth.js:46 | whenever there is a first match, the search returns it |
| JsonValue.FindFirstCrashes | routes/auth.js:46 | whenever a `null` comes before any match, the search throws |
| IntParsing.ParseInt | routes/api.js:49 | `NaN` exactly when no digit follows the white space, sign and base prefix; a result read after a minus sign is never positive, and any other result is never negative |
| IntParsing.TrimStart | routes/api.js:49 | only white space is skipped, all of it, and the rest is a suffix of the input |
| IntParsing.DigitPrefix | routes/api.js:49 | the digits read are the longest prefix of digits in the base |
| IntParsing.ParseTrimmed | routes/api.js:49-51 | the result is `NaN` exactly when no digit follows the sign and base prefix |
| IntParsing.ParseShowInt | routes/api.js:49 | `parseInt` reads back the decimal numeral of every integer, followed by any text that neither continues the digits nor starts with `x`/`X` |
| IntParsing.DigitsValueShowNat | routes/api.js:49 | the digits of a natural number denote that number |
| IntParsing.ParseSkipsWhiteSpace | routes/api.js:49 | leading white space does not change the result |
| IntParsing.ParseLettersIsNaN | routes/api.js:49-54 | `"abc"` is `NaN`, so the id is rejected |
| IntParsing.ParseDigitsThenLetters | routes/api.js:49 | `"12abc"` is 12 |
| IntParsing.ParseNegative | routes/api.js:49 | `"-3"` is -3 |
| Api.LengthOf | routes/api.js:23 | `items.length` is the element count of an array and the length of a string; it throws exactly on `null`; it is `undefined` for booleans and numbers |
| Api.TooLarge | routes/api.js:23 | an array is too large exactly when it has more than 1000 items; the comparison throws exactly on `null`; booleans and numbers are never too large |
| Api.HasId | routes/api.js:65 | an item has the id only if it is an object with an own `id` member equal to that number |
| Api.IdMatcher | routes/api.js:65 | the `findIndex` callback accepts only objects whose own `id` member is that number |
| Api.GetData | routes/api.js:11-39 | with the intended sanitizer (see Left out): 500 exactly when the file is unreadable or `null`, whose `length` read throws; 413 exactly when the length exceeds 1000; otherwise 200 with the sanitized store |
| Api.GetDataSizeBoundary | routes/api.js:23-26 | 1000 items are served, 1001 are refused with 413 |
| Api.GetDataServesStore | routes/api.js:28-34 | a successful reply carries no markup character in any string and decodes back to the whole store |
| Api.Splice | routes/api.js:73 | the list loses one position; items before it are kept, items after it move down by one |
| Api.SpliceRemovesOne | routes/api.js:72-73 | the spliced list plus the removed item is the original multiset |
| Api.DeleteItem | routes/api.js:41-88 | 400 on a `NaN` id before the store is read; 500 on an unreadable store; 413 over 1000 items; 500 when the store is not an array or a `null` is reached first; 404 when no item has the id. Otherwise the first match is spliced out and written, and the reply carries the sanitized deleted item, or 500 if the write fails |
| Api.DeleteRemovesFirstMatch | routes/api.js:65-75 | the deleted item has the id, no earlier item has it, and the written list is the old one less exactly that item |
| Auth.UsernameIs | routes/auth.js:46 | the `find` callback accepts only objects whose own `username` member is that string |
| Auth.ValidateBody | routes/auth.js:18-40 | the body passes exactly when it is an object whose `username` and `password` are strings of 1 to 100 characters, and the credentials are those strings; every failure is one of the four 400 replies |
| Auth.Login | routes/auth.js:10-76 | replies 200, 400, 401 or 500 only; a token is issued exactly on 200; 400 exactly when a body check fails, with that check's reply; every 401 is the same reply. A token is issued only for the first user with that username, and only if that user's password matched; it carries that user's `id` and `username` |
| Auth.LoginSucceeds | routes/auth.js:46-71 | correct credentials log in: when the first user with the name comes before any `null` and the password check answers true, the reply is 200 with a token for that user's `id` and `username` |
| Auth.LoginUnauthorized | routes/auth.js:46-56 | after the body checks pass, 401 comes exactly from an unknown user (no user has the name and no `null` is met) or a password the check rejects |
| Auth.LoginServerError | routes/auth.js:42-56 | after the body checks pass, 500 comes exactly from a missing or non-array users file, a `null` met before the user, or a password check that throws |
| Auth.BodyChecksPrecedeStore | routes/auth.js:18-44 | a rejected body gets the same reply whatever the users file and the password check do |
| Auth.UnknownUserLooksLikeWrongPassword | routes/auth.js:46-56 | an unknown user and a wrong password get identical replies and no token |
| Auth.ValidateBodyCascade | routes/auth.js:18-40 | which 400 reply a body gets, in source order: "Invalid request body" exactly for a missing or non-object body; "required" exactly when a field is falsy; "must be strings" exactly when both are truthy and one is not a string; "Input size exceeds limit" exactly when both are strings and one is over 100 characters |
| Auth.LengthLimitInclusive | routes/auth.js:37-40 | a 100-character field passes and a 101-character one is refused with 400 |

## Left out

- Timers: the 5-second 503 timeout, `clearTimeout` and `res.headersSent` are left out. Every handler body here finishes in a single step.
- File I/O:
  - The parsed items and users files come in as parameters. `None` stands for a failed read or `JSON.parse`.
  - Whether `fs.writeFile` succeeds is the `writeOk` parameter of `Api.DeleteItem`.
  - `JSON.parse` and `JSON.stringify` themselves are not modelled. The model takes a parsed object to hold each key once; `JSON.parse` keeps the last of duplicated keys.
- `comparePassword` (bcrypt) and `jwt.sign` are parameters of `Auth.Login`. The token's secret and 24-hour expiry are not modelled.
- Auth.Login: `jwt.sign` always returns a token here. In the source it throws when the secret is unset, and the handler then answers 500.
- `Date.now()` and `req.ip` are the parameters of `RateLimit.RateLimiter.Admit`.
- Concurrency between interleaved asynchronous handlers, and between several requests sharing the rate limiter's map, is not modelled. Each call is atomic.
- The token-checking middleware, `utils/hash.js`, `server.js` and `scripts/setup-users.js` are not part of this model.
- `escape-html` is modelled from its documented mapping (`&`, `<`, `>`, `"`, `'` to `&amp;`, `&lt;`, `&gt;`, `&quot;`, `&#39;`). The package's own source is not part of this model.
- Api.GetData, Api.DeleteItem: both handlers use the intended sanitizer `Sanitizer.Sanitize`, not the walk as written (see Findings). As written, three things differ:
  - A store holding an object with an own `hasOwnProperty` member makes the source's GET answer 500; the model answers 200.
  - DELETE of such an item makes the source write the spliced list and then answer 500, because the sanitizer throws after `writeFile`; the model answers 200.
  - `__proto__` keys are kept in the model's replies and dropped in the source's.
- Api.TooLarge, Api.LengthOf (and so Api.GetData and Api.DeleteItem): a non-number `length` member of an object store is treated as `undefined`. JavaScript would coerce it, so `"5000" > 1000` is true.
- Api.LengthOf, Auth.ValidateBody: lengths of strings are counted in Unicode characters. JavaScript counts UTF-16 code units, so characters outside the Basic Multilingual Plane count twice there. This affects the size check on a string store and the 100-character limit.
- IntParsing.ParseShowInt: integers are exact. JavaScript's `parseInt` gives a double, which loses precision beyond 2^53, so very long ids can compare equal to nearby item ids there.
- Numbers in JSON are exact reals; floating-point rounding of parsed numbers is not modelled.

## Findings

| source | as written | input that shows it | evidently intended | confidence | as-written member | corrected member |
|---|---|---|---|---|---|---|
| utils/sanitize.js:15 | `obj.hasOwnProperty(key)` calls the object's own member when the parsed object has one named `hasOwnProperty`; that member is not a function, so the walk throws and the route answers 500 | a stored item `{"hasOwnProperty": 1}` served by `GET /data` | test own-property membership without going through the object (`Object.prototype.hasOwnProperty.call`), keeping the key like any other | not executed | Sanitizer.HasOwnPropertyKeyThrows | Sanitizer.SanitizeMembers |
| utils/sanitize.js:16 | `sanitized['__proto__'] = …` on a plain object sets its prototype (or is ignored) instead of creating a key, so the key vanishes from the output | a stored item `{"__proto__": {"a": 1}}` is served as `{}` | copy every own key, `__proto__` included, into the output | not executed | Sanitizer.ProtoKeyDropped | Sanitizer.SanitizeMembers |
