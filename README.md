# Short-URL code table

This project models the short-URL code table of a small Next.js utility site and proves properties of that model in Dafny. The table maps a short code to an entry `{url, createdAt, clicks}`. The site keeps it in two places:

- `urlStore` in `src/lib/storage.ts` keeps the table in the JSON file `data/urls.json`. Each of `set`, `get`, `findByUrl` and `incrementClicks` reads the whole file into a fresh object. It works on that object. `set` always writes the whole object back, and `incrementClicks` does so when `db.urls[code]` is truthy.
- The `/api/shorturl` route in `src/app/api/shorturl/route.ts` keeps a module-level object `memoryStore`. Its POST handler validates a URL. If the URL is already stored, it returns the existing code. Otherwise it stores a new entry with `clicks: 0` under a generated code. Its GET handler looks a code up.

Files:

- `jskeys.dfy` (module `JsKeys`): the order in which a JavaScript object lists its own keys (OrdinaryOwnPropertyKeys, section 10.1.11.1 of ECMAScript 2023). Keys that are array indices come first, in ascending numeric order. All other keys follow in creation order. Short codes such as `"123456"` are array indices, so this order decides which code a scan of `Object.entries` reaches first.
- `urltable.dfy` (module `UrlTable`): the value of a table (`Table`: keys in enumeration order plus a map), the operations on it, the object `Record` that the source updates in place, and the JSON write/read pair with its round trip. It also holds property access as the source writes it, which reaches `Object.prototype`.
- `storage.dfy` (module `Storage`): the data file (`DataFile`: missing, unparsable, or a list of members) and the class `UrlStore`, whose methods read, change and write that file.
- `shorturl.dfy` (module `ShortUrl`): the POST and GET handlers as specification functions (`HandlePost`, `HandleGet`), the class `Route` that owns `memoryStore`, and lemmas about the handlers.
- `wrappers.dfy`: `Option`, which stands for a `T | null` result.

The handlers' outside inputs are parameters:
- the verdict of `new URL(url)`, as a function `parses`;
- the code `nanoid(6)` returned;
- the timestamp `new Date().toISOString()` returned;
- the `host` and `x-forwarded-proto` headers.

POST's scan for an existing URL is the same `for … of Object.entries(urls)` loop with an early return as `findByUrl`. Both are modelled by the one method `UrlTable.Record.FindByUrl`.

## Model

| member | source | states |
|---|---|---|
| `UrlTable.Record.constructor` | src/app/api/shorturl/route.ts:17 | `memoryStore` starts as the empty, well-formed table |
| `UrlTable.Record.Assign` | src/lib/storage.ts:51 | `obj[code] = data` leaves the object well formed and equal to `Put` of its old value |
| `UrlTable.Record.AddClick` | src/lib/storage.ts:76 | `obj[code].clicks += 1` on a present code leaves the object equal to `Bump` of its old value |
| `UrlTable.Record.FindByUrl` | src/lib/storage.ts:64-69 | the loop returns a code whose entry has `url`, returns null exactly when no entry has `url`, and agrees with `FirstMatch` |
| `UrlTable.Put` | src/lib/storage.ts:51 | assignment keeps the keys distinct, with array indices first and ascending; an existing code keeps its position; a new code is inserted without moving the other keys, and a new code that is not an array index goes at the end |
| `UrlTable.Bump` | src/lib/storage.ts:75-76 | incrementing clicks keeps the table well formed |
| `UrlTable.Parse` | src/lib/storage.ts:32-34 | the object `JSON.parse` builds from any member list is well formed |
| `UrlTable.ParseCodes` | src/lib/storage.ts:32-34 | the parsed object holds exactly the codes of the members |
| `UrlTable.ParseLastWins` | src/lib/storage.ts:32-34 | a repeated code holds the entry of its last member; it keeps the position of its first, because `Put` leaves an existing key in place |
| `UrlTable.Serialize` | src/lib/storage.ts:43 | `JSON.stringify` writes one member per own key, in key order, each with that key's entry |
| `UrlTable.ParseSerialize` | src/lib/storage.ts:41-44 | writing a table as JSON and parsing it back yields the same table, key order included |
| `UrlTable.FirstMatchSpec` | src/lib/storage.ts:62-70 | the scan returns the first code in key order whose entry has `url`, and returns nothing iff no entry has `url` |
| `UrlTable.UniqueMatchAt` | src/lib/storage.ts:62-70 | a URL that only one code carries is found under that code |
| `UrlTable.UniqueMatch` | src/app/api/shorturl/route.ts:51-62 | when no two codes share a URL, the scan returns the one code that carries it |
| `UrlTable.NumericCodeFirst` | src/lib/storage.ts:64-67 | a numeric code created after `"abcDEF"` is listed before it, so the scan for their shared URL returns the numeric code |
| `UrlTable.PropertyAsWritten` | src/lib/storage.ts:58 | `obj[code]` finds an own entry exactly for stored codes, and is `undefined` exactly for codes that are neither stored nor inherited names |
| `UrlTable.PutAsWritten` | src/lib/storage.ts:51 | `obj["__proto__"] = v` on an object without that own key stores nothing; every other assignment is `Put` |
| `UrlTable.PropertyAsWrittenAgrees` | src/lib/storage.ts:58 | for codes that are not inherited names, property access is own-key lookup |
| `JsKeys.InsertKeyOrdered` | src/lib/storage.ts:51 | adding a key keeps the keys distinct with array indices first and ascending, adds exactly that key, leaves the list unchanged for an existing key, and otherwise inserts the key without reordering the others (at the end when it is not an array index) |
| `JsKeys.InsertKeyAtEnd` | src/lib/storage.ts:34 | re-creating an object's keys in its own enumeration order puts each key at the end, which is why parsing a written file keeps its order |
| `Storage.Load` | src/lib/storage.ts:27-38 | reading always gives a well-formed table; a missing or unparsable file reads as the empty table |
| `Storage.Saved` | src/lib/storage.ts:41-44 | reading the file `writeDatabase` wrote gives back the written table, key order included |
| `Storage.UrlStore.ReadDatabase` | src/lib/storage.ts:27-38 | returns a fresh, well-formed object equal to `Load` of the file, built member by member |
| `Storage.UrlStore.WriteDatabase` | src/lib/storage.ts:41-44 | replaces the whole file with the serialized table |
| `Storage.UrlStore.Set` | src/lib/storage.ts:49-53 | the new file holds the old table with `data` assigned under `code` |
| `Storage.UrlStore.Get` | src/lib/storage.ts:56-59 | returns the stored entry, and null exactly when `code` is not stored |
| `Storage.UrlStore.FindByUrl` | src/lib/storage.ts:62-70 | returns the first code in key order whose entry has `url`, and null iff none has |
| `Storage.UrlStore.IncrementClicks` | src/lib/storage.ts:73-79 | a stored code gets its clicks bumped and the file rewritten; for any other code the file is untouched, so no write happens |
| `Storage.SetThenGet` | src/lib/storage.ts:49-59 | after `set(code, data)`, `get(code)` returns `data` |
| `Storage.SetLeavesOthers` | src/lib/storage.ts:49-53 | `set` leaves every other code's entry unchanged and puts the key list in JavaScript order |
| `Storage.SetThenFind` | src/lib/storage.ts:49-70 | after `set(code, data)`, `findByUrl(data.url)` is not null |
| `Storage.IncrementThenGet` | src/lib/storage.ts:73-79 | on a stored code, clicks rise by exactly one; url, createdAt, every other entry and the key order are unchanged |
| `Storage.GetAsWrittenSeesInherited` | src/lib/storage.ts:56-59 | as written, `get` of an inherited name that is not stored is not null |
| `Storage.SetAsWrittenDropsProto` | src/lib/storage.ts:49-53 | as written, `set("__proto__", d)` then `get("__proto__")` does not return `d`; the corrected set does |
| `Storage.GetAsWritten` | src/lib/storage.ts:56-59 | as written, `get` finds an entry exactly for stored codes and is null only for codes that are neither stored nor inherited names |
| `Storage.SetAsWritten` | src/lib/storage.ts:49-53 | as written, `set` agrees with the corrected one except for a new `__proto__`, where the file is rewritten with the old table |
| `Storage.IncrementClicksAsWritten` | src/lib/storage.ts:73-79 | as written, `incrementClicks` agrees with the corrected one on stored codes and on other non-inherited codes; for an inherited name that is not stored it rewrites the file with the unchanged table |
| `Storage.IncrementAsWrittenWrites` | src/lib/storage.ts:73-79 | as written, `incrementClicks("valueOf")` with no data file writes one |
| `ShortUrl.HeaderOr` | src/app/api/shorturl/route.ts:53-54 | a request header read with a fallback is the header when present and not empty, and the fallback otherwise |
| `ShortUrl.ShortLink` | src/app/api/shorturl/route.ts:74-79 | the short URL is `protocol://host/s/code` and ends in `/s/code`; absent or empty headers fall back to `http` and `localhost:3000` |
| `ShortUrl.HandlePost` | src/app/api/shorturl/route.ts:27-89 | POST answers 200 iff the body has a non-empty URL that `new URL` accepts; any other reply is an error that leaves the store unchanged; a 200 reply carries a code whose entry in the new store has the posted URL, and its short link; an `isExisting` reply leaves the store unchanged |
| `ShortUrl.PostMalformed` | src/app/api/shorturl/route.ts:82-88 | a body that is not JSON gives 500 "Internal server error" and the store is unchanged |
| `ShortUrl.PostRejects` | src/app/api/shorturl/route.ts:31-46 | a missing or empty URL gives 400 "URL is required"; a URL `new URL` rejects gives 400 "Invalid URL format"; the store is unchanged in both cases |
| `ShortUrl.PostReusesExisting` | src/app/api/shorturl/route.ts:48-62 | an already stored URL gets a code carrying it, marked `isExisting`, with its short link; the store is unchanged; with unique URLs it is that URL's one code |
| `ShortUrl.PostInsertsNew` | src/app/api/shorturl/route.ts:64-81 | a new URL is stored as `{url, now, 0}` under the generated code, overwriting that code if it was taken; every other code is unchanged; the reply carries the code and its short link |
| `ShortUrl.PostPreservesUnique` | src/app/api/shorturl/route.ts:48-72 | POST keeps the table well formed and keeps every URL under at most one code |
| `ShortUrl.PostTwice` | src/app/api/shorturl/route.ts:48-81 | posting the same URL a second time returns the first reply's code and link, marked `isExisting`, and changes nothing |
| `ShortUrl.HandleGet` | src/app/api/shorturl/route.ts:91-118 | GET answers 400 iff the code is missing or empty, 404 iff it is not stored, and otherwise 200 with the entry's url, createdAt and clicks |
| `ShortUrl.GetAfterPost` | src/app/api/shorturl/route.ts:72-117 | after a successful POST, GET of the returned code answers 200 with the posted URL |
| `ShortUrl.HandleGetAsWritten` | src/app/api/shorturl/route.ts:102-117 | as written, GET answers 200 for stored codes and for inherited names, 404 only for the other codes, and an entry payload exactly for stored codes |
| `ShortUrl.GetAsWrittenAnswersToString` | src/app/api/shorturl/route.ts:102-117 | as written, `GET ?code=toString` answers 200 where the corrected handler answers 404 |
| `ShortUrl.GetAsWrittenAgrees` | src/app/api/shorturl/route.ts:102-117 | the as-written and corrected GET agree on every code that is not an inherited name |
| `ShortUrl.Route.constructor` | src/app/api/shorturl/route.ts:17 | the route starts with a fresh, empty store |
| `ShortUrl.Route.ReadUrls` | src/app/api/shorturl/route.ts:19-21 | `readUrls()` returns the store object itself, not a copy |
| `ShortUrl.Route.WriteUrls` | src/app/api/shorturl/route.ts:23-25 | `writeUrls(code, data)` assigns `data` under `code` in the store |
| `ShortUrl.Route.Post` | src/app/api/shorturl/route.ts:27-89 | the reply and the new store are those of `HandlePost`; the store stays well formed, and stays free of duplicate URLs if it was |
| `ShortUrl.Route.Get` | src/app/api/shorturl/route.ts:91-118 | the reply is `HandleGet` of the store; the store is not modified |

## Left out

- Filesystem details are not modelled: `ensureDataDir`, the path of the data file, UTF-8 encoding and the indentation of the JSON text. The file is a value that is missing, unparsable, or a list of `code: entry` members.
- A data file that parses but is not `{"urls": {...}}` with entry objects is not modelled (for example `{}`, on which every operation throws).
- In the POST body, only a string `url` or a missing one is modelled. A `url` of another JSON type (a number, an array) is not. A body that cannot be read or destructured is the single `Malformed` case.
- `new URL(url)`, `nanoid(6)`, `new Date().toISOString()` and the request headers are inputs. The model does not restrict the generated code to six characters of nanoid's alphabet.
- Concurrency is not modelled. Each operation is one sequential step, so lost updates between interleaved read-modify-write requests are not captured.
- `clicks` is an unbounded integer. The floating-point `number` of the source, which loses precision above 2^53, is not modelled.
- `db.urls[code].clicks += 1` mutates the entry object in place. The model replaces the entry value instead. No other reference to that entry object exists during the operation.
- Only the status and the JSON body of a reply are modelled. The reply headers are not, and neither is the `console.error` logging on the 500 path (src/app/api/shorturl/route.ts:83). A reply without `isExisting` is `isExisting == false`.
- `incrementClicks("__proto__")` as written also sets `clicks` on `Object.prototype`. That in-process side effect is not modelled.
- The redirect handler in `src/app/s/[code]/route.ts` is not part of this model. It keeps its own separate, empty `memoryStore`.
- The Redis-backed store in `src/lib/redis.ts` is not part of this model. Its `findByUrl` reads a separate lookup key.
- The QR-code route, the Pages-to-Word conversion route and the React pages are not part of this model.

## Findings

| source | as written | input that shows it | evidently intended | confidence | as-written member | corrected member |
|---|---|---|---|---|---|---|
| src/lib/storage.ts:56-59 | `db.urls[code]` also returns members inherited from `Object.prototype`, which are truthy, so the null fallback is skipped | `get("toString")` on a store without that code returns a function instead of null | null for every code that is not stored | high, not executed | `Storage.GetAsWrittenSeesInherited` | `Storage.UrlStore.Get` |
| src/lib/storage.ts:49-53 | `db.urls["__proto__"] = data` replaces the object's prototype and stores no entry | `set("__proto__", d)` then `get("__proto__")` returns `Object.prototype`, not `d` | the entry is stored like any other | high, not executed | `Storage.SetAsWrittenDropsProto` | `Storage.SetThenGet` |
| src/lib/storage.ts:73-79 | an inherited name passes `if (db.urls[code])` and the file is rewritten | `incrementClicks("valueOf")` with no data file creates `data/urls.json` | no write for a code that is not stored | high, not executed | `Storage.IncrementAsWrittenWrites` | `Storage.UrlStore.IncrementClicks` |
| src/app/api/shorturl/route.ts:102-117 | `urls[code]` also finds inherited members | `GET /api/shorturl?code=toString` answers 200 `{"success":true}` with no url | 404 "URL not found" | high, not executed | `ShortUrl.GetAsWrittenAnswersToString` | `ShortUrl.HandleGet` |

The rest of the model uses own-key lookup and assignment, as for an object without a prototype. The as-written behaviour lives in `UrlTable.PropertyAsWritten`, `UrlTable.PutAsWritten`, `Storage.GetAsWritten`, `Storage.SetAsWritten`, `Storage.IncrementClicksAsWritten` and `ShortUrl.HandleGetAsWritten`.
