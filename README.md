# Atelier API client: cookie jar, query strings and request shaping

This project is a verified Dafny model of the `AtelierAPI` class of the
ObjectScript editor extension. The class is an HTTP client for the
"Atelier" document API of a server. The model covers what the client
computes, not the transport:

- the cookie jar (`updateCookies`), exactly as written, including its
  prefix match and its truthiness test on the found index, next to a
  corrected replace-or-append jar (`cookies.dfy`, module `Cookies`);
- the query-string builder `buildParams` (`params.dfy`, module
  `QueryParams`);
- method upper-casing, the PUT/POST JSON body rule, the wire path
  `/api/atelier/<path>?<query>`, and how a response settles the promise
  (`request.dfy`, module `Request`);
- the client object itself: the cookie list as a field that
  `UpdateCookies` changes in place, with a ghost field for the stray
  `cookies[-1]` property (`client.dfy`, module `Client`);
- the path and parameter templates of `serverInfo`, `getDocNames`,
  `getDoc`, `putDoc`, `actionIndex` and `actionCompile` (`calls.dfy`,
  module `Calls`);
- the JavaScript string operations these rely on, such as `split`, `join`,
  `startsWith`, `includes`, `toUpperCase` and number rendering
  (`strings.dfy`, module `Strings`), and `Option` (`wrappers.dfy`).

Two intended rules are not what the code does; the model follows the code:

- Booleans. The intended rule sends `false` as `0`, so that
  `{filter: "", generated: false, category: "*"}` would give
  `category=*&generated=0`. The code drops `false` at the truthiness test,
  so the query is `category=*` (`QueryParams.FalsyDropped`). The `'0'`
  branch of the code is dead (`QueryParams.NoBooleanZero`).
- Cookie names. The intended rule is at most one entry per cookie name,
  matched by exact name. The code matches any stored entry that starts
  with the name. It also reads index 0 as "not found" and -1 as "found".
  See "## Findings".

## Model

| member | source | states |
|---|---|---|
| Cookies.CookieName | api/index.ts:21 | the name is a prefix of the cookie, contains no `=`, and is followed by `=` when shorter than the cookie |
| Cookies.NameOfPair | api/index.ts:21 | the name of `name=value` is `name` whenever `name` has no `=` |
| Cookies.FindIndex | api/index.ts:22 | the result is -1 or a valid index; the entry there starts with the name; no entry before it (none at all for -1) starts with the name |
| Cookies.Step | api/index.ts:21-27 | no contract of its own; one iteration as written, characterised by `StepReplacesLaterMatch`, `StepAppendsOnMatchAtZero`, `StepIgnoresNewName` and `StepUniqueIff` |
| Cookies.UpdateAll | api/index.ts:20-28 | no contract of its own; `Step` for each incoming cookie in order, characterised by `EmptyJarStaysEmpty` and `AsWrittenNeverMatches` and tied to the class by `Client.AtelierClient.UpdateCookies` |
| Cookies.StepReplacesLaterMatch | api/index.ts:22-24 | a first match at i > 0 is overwritten by the new cookie; the length, every other entry and the stray slot are unchanged |
| Cookies.StepAppendsOnMatchAtZero | api/index.ts:22-26 | a first match at 0 makes the cookie get appended; entry 0 keeps its value and the length grows by one |
| Cookies.StepIgnoresNewName | api/index.ts:22-24 | with no match the element list is unchanged and only the `-1` property receives the cookie |
| Cookies.PrefixNameMatches | api/index.ts:21-22 | a stored cookie whose name begins with the incoming name is a match |
| Cookies.StepUniqueIff | api/index.ts:20-28 | from unique names, one step keeps names unique iff no entry other than the one overwritten in place (a match after 0) carries the incoming name |
| Cookies.EmptyJarStaysEmpty | api/index.ts:7-29 | starting from the empty jar, any sequence of cookies leaves the element list empty; the `-1` property holds the last cookie |
| Cookies.MatchAtZeroDuplicates | api/index.ts:23-26 | a cookie of the same name as the single stored one is appended, leaving two entries of that name |
| Cookies.AsWrittenNeverMatches | api/index.ts:22-23 | from the initial empty jar, after any cookies, the search for any name gives -1, so the match-at-0 and prefix branches are never reached |
| Cookies.NewCookieDropped | api/index.ts:23-24 | a cookie given to an empty jar does not reach the element list |
| Cookies.PrefixOverwrites | api/index.ts:22-24 | with `<name><suffix>=…` stored before `<name>=…`, the cookie `<name>=…` overwrites the longer-named entry, leaving two entries of the same name |
| Cookies.FindByName | api/index.ts:22-23 | corrected lookup: `None` iff no entry has exactly that name; otherwise the first entry with that name |
| Cookies.Upsert | api/index.ts:19-29 | no contract of its own; the corrected single update (exact-name lookup, replace in place or append), characterised by `UpsertKeepsPositions`, `UpsertKeepsUnique` and `UpsertLookup` |
| Cookies.UpsertAll | api/index.ts:19-29 | no contract of its own; `Upsert` for each incoming cookie, characterised by `UpsertAllUnique` and `UpsertAllLatest` |
| Cookies.UpsertKeepsPositions | api/index.ts:19-29 | corrected update: every old position keeps its cookie or takes the new cookie of the same name; the jar grows by one exactly when the name was absent |
| Cookies.UpsertKeepsUnique | api/index.ts:19-29 | corrected update keeps names unique, including a match at position 0 |
| Cookies.UpsertLookup | api/index.ts:19-29 | after the corrected update the incoming name looks up to the new cookie and every other name to what it did before |
| Cookies.UniqueLookup | api/index.ts:22 | in a jar with unique names the lookup finds the one entry with that name, and finds nothing iff no entry has it |
| Cookies.UpsertAllUnique | api/index.ts:19-29 | a whole sequence of corrected updates keeps names unique |
| Cookies.UpsertAllLatest | api/index.ts:19-29 | after a sequence of corrected updates each name looks up to the last incoming cookie of that name, or to its old entry |
| Cookies.SessionReplaced | api/index.ts:19-29 | `s=abc` then `s=def` leaves `[s=def]` in the corrected jar, and nothing in the jar as written |
| QueryParams.Truthy | api/index.ts:43 | no contract of its own; JavaScript truthiness of a value, characterised by `KeptIff` and `FalsyDropped` |
| QueryParams.Render | api/index.ts:44-47 | no contract of its own; booleans as `1`/`0`, strings as they are, integers in decimal, characterised by `NoBooleanZero` and `Strings.DecimalRoundTrip` |
| QueryParams.Pair | api/index.ts:47 | no contract of its own; `key=value`, characterised by `PairsOfKept` and `QueryRoundTrip` |
| QueryParams.Kept | api/index.ts:41-43 | no contract of its own; the truthy properties in key order, characterised by `KeptIff` and `KeptConcat` |
| QueryParams.Pairs | api/index.ts:40-49 | no contract of its own; the `result` array, characterised by `PairsOfKept` |
| QueryParams.Query | api/index.ts:36-51 | no contract of its own; the query string, characterised by `QueryEmptyIff`, `QueryRoundTrip` and computed by `BuildParams` |
| QueryParams.BuildParams | api/index.ts:36-51 | the loop over the keys computes the query string: empty for absent params, else the pairs of the kept keys joined by `&` |
| QueryParams.KeptIff | api/index.ts:41-43 | a property is kept iff it is in params and its value is truthy (`undefined`, `""`, `false`, `0` are dropped) |
| QueryParams.KeptConcat | api/index.ts:41 | the kept properties keep key order: those of `a + b` are those of `a` then those of `b` |
| QueryParams.PairsOfKept | api/index.ts:41-48 | one `key=value` pair per kept property, in the same order |
| QueryParams.NoBooleanZero | api/index.ts:43-46 | every boolean that reaches the query is `true`, written `1` |
| QueryParams.QueryEmptyIff | api/index.ts:36-50 | the query string is empty iff params is absent or no value is truthy |
| QueryParams.QueryRoundTrip | api/index.ts:47-50 | splitting the query at `&` gives back the pairs, one per kept property, when keys and values hold no `&` |
| QueryParams.QueryOfOne | api/index.ts:41-50 | a one-property object gives its pair if the value is truthy, else the empty string |
| QueryParams.QueryOfTwo | api/index.ts:41-50 | a two-property object gives the truthy pairs in order, joined by `&` |
| QueryParams.FalsyDropped | api/index.ts:43 | `{filter: "", generated: false, category: c}` gives `category=c` |
| Strings.SplitJoin | api/index.ts:50 | splitting a `&`-joined list at `&` gives the list back when no piece contains `&` |
| Strings.ContainsIff | api/index.ts:86 | `includes` holds iff the substring occurs at some position |
| Strings.UpperIdempotent | api/index.ts:52 | upper-casing twice equals upper-casing once, and leaves no lower-case ASCII letter |
| Request.SendsJsonIff | api/index.ts:52-55 | the JSON rule holds exactly for PUT and POST in any letter case |
| Request.PrepareBodyRule | api/index.ts:52-55 | the content type and the body are present iff the method is PUT/POST; the body written is the given one; a GET carries neither; the method is upper case |
| Request.Prepare | api/index.ts:32-60 | no contract of its own; the request handed to the transport (headers, method, path, auth, JSON body for PUT/POST), characterised by `PrepareBodyRule` and `PathRoundTrip` |
| Request.RequestPath | api/index.ts:60 | no contract of its own; root, relative path, `?`, query, characterised by `PathRoundTrip` |
| Request.ErrorMessage | api/index.ts:77 | the message begins with `Failed to load page "<path>"` and ends with the decimal status code |
| Request.PathRoundTrip | api/index.ts:60 | the `?` always follows the relative path, even for an empty query; the wire path reads back into path and query |
| Request.Settle | api/index.ts:75-95 | rejects iff the status is outside 200..299, with that path, status and `ErrorMessage`; otherwise it resolves to the body, as JSON iff the content type contains "json" |
| Request.ConsoleOutput | api/index.ts:86-90 | for a content type containing "json" the forwarded lines are exactly the body's `console` member (forwarded iff it is present); for any other content type nothing is forwarded; the status plays no part |
| Request.StatusBoundaries | api/index.ts:76-78 | 200 and 299 resolve; 199 and 300 reject with that status |
| Request.ConsoleForwarding | api/index.ts:86-94 | an `application/json` response forwards its console lines, a `text/plain` one forwards none |
| Client.AtelierClient.constructor | api/index.ts:7 | a new client has no cookies |
| Client.AtelierClient.UpdateCookies | api/index.ts:19-29 | the array after the loop (elements and `-1` property) is `UpdateAll` of the old one; an empty jar stays empty |
| Client.AtelierClient.UpsertCookies | api/index.ts:19-29 | corrected update: the cookies become `UpsertAll` of the old ones and stay unique by name |
| Client.AtelierClient.Send | api/index.ts:31-74 | the request carries the upper-cased method, the wire path with the built query, the current cookies, and a JSON content type and body iff PUT/POST |
| Client.AtelierClient.Receive | api/index.ts:75-96 | the cookies are updated from `set-cookie` whatever the status; the outcome is `Settle` and the console lines are `ConsoleOutput` |
| Client.SessionNeverSent | api/index.ts:7-34 | from a fresh client, after any responses, a request goes out with an empty cookie list |
| Calls.ServerInfo | api/index.ts:111-113 | no contract of its own; characterised by `ServerInfoPath` |
| Calls.GetDocNames | api/index.ts:115-130 | no contract of its own; characterised by `GetDocNamesDefaults` and `GetDocNamesQuery` |
| Calls.GetDoc | api/index.ts:132-140 | no contract of its own; characterised by `GetDocPath` |
| Calls.PutDoc | api/index.ts:142-145 | no contract of its own; characterised by `PutDocRequest` |
| Calls.ActionIndex | api/index.ts:147-149 | no contract of its own; characterised by `ActionIndexRequest` |
| Calls.ActionCompile | api/index.ts:151-153 | no contract of its own; characterised by `ActionCompileRequest` and `ActionCompileNoFlags` |
| Calls.ServerInfoPath | api/index.ts:111-113 | `serverInfo` GETs `/api/atelier/?` without a body |
| Calls.GetDocNamesDefaults | api/index.ts:115-130 | with all defaults the path is `.../v2/<ns>/docnames/*/*?` with an empty query |
| Calls.GetDocNamesQuery | api/index.ts:115-130 | `filter` is sent iff non-empty and `generated` iff true (as `1`), in that order |
| Calls.GetDocPath | api/index.ts:132-140 | `getDoc` uses `.../v2/<ns>/doc/<name>?`, plus `format=<f>` only for a non-empty format |
| Calls.PutDocRequest | api/index.ts:142-145 | `putDoc` is a PUT with the document as JSON body; `ignoreConflict=1` is sent iff it is true |
| Calls.ActionIndexRequest | api/index.ts:147-149 | `actionIndex` POSTs the document list to `.../action/index?` |
| Calls.ActionCompileRequest | api/index.ts:151-153 | `actionCompile` POSTs the document list; `flags` is sent iff non-empty and `source=1` iff source is true |
| Calls.ActionCompileNoFlags | api/index.ts:151-153 | without flags only `source=1` can appear |

## Left out

- Reading the connection settings from the editor configuration (api/index.ts:9-15): they are the `Config` parameter, read once per call.
- The `http`/`https` modules, the keep-alive `Agent` with 10 sockets, `http.request`, `req.write`, `req.end` and the transport `error` event (api/index.ts:58-59, 63-104): network I/O. `Send` returns the request description instead.
- The Promise machinery, the incremental `data`/`end` body accumulation and the `.catch` that logs and rethrows (api/index.ts:62-108): asynchronous plumbing. The body arrives whole in `Response`.
- `JSON.parse` and `JSON.stringify`: `Json(text)` stands for the parsed document and `written` for the value whose JSON text is written. The `console` member of the parsed body is a field of `Response`. A parse error is not modelled.
- `encodeURI` (api/index.ts:60): the wire path is kept unencoded.
- `console.log`, `console.error` and `outputConsole`: output sinks. `ConsoleOutput` returns the lines that would be forwarded.
- Concurrent responses interleaving their cookie updates: concurrency.
- A response without a `set-cookie` or `content-type` header makes the code throw (api/index.ts:79, 86). `Response` always carries both.
- The `body` that is also put into the options of `http.request` (api/index.ts:73): Node ignores it.
- Strings.Upper: only ASCII letters are upper-cased; `toUpperCase` also maps other Unicode letters, some into several characters.
- QueryParams.Value: params values are limited to `undefined`, strings, booleans and integers. `null`, objects, `NaN` and fractional numbers are not modelled. Integers render in plain decimal, whereas JavaScript writes magnitudes of 1e21 and above in exponent form (`1e+21`) and loses precision above 2^53; no caller passes a number. The order of `Object.keys` is the order of the `Params` sequence, so the JavaScript rule that integer-like keys come first is not modelled.
- Client.AtelierClient.Send: a PUT or POST with no body gives `written == Some(NoBody)`; in the code `JSON.stringify(undefined)` yields `undefined` and writing it throws, which rejects the promise (api/index.ts:101-102). No caller reaches this case.
- Client.AtelierClient.minusOne: the stray `-1` property is a ghost field because nothing in the client reads it back.

## Findings

| source | as written | input that shows it | evidently intended | confidence | as-written member | corrected member |
|---|---|---|---|---|---|---|
| api/index.ts:23-26 | `if (index)` reads a match at index 0 as "not found" and appends | jar `["s=abc"]`, `Set-Cookie: s=def` gives `["s=abc", "s=def"]` | the entry at 0 is replaced | high (not executed) | Cookies.MatchAtZeroDuplicates | Cookies.UpsertKeepsUnique |
| api/index.ts:22-24 | "not found" (-1) is truthy, so the cookie goes to the property `cookies[-1]` and the jar never gains an element | empty jar, `Set-Cookie: s=abc` gives `[]` | the cookie is appended | high (not executed) | Cookies.EmptyJarStaysEmpty | Cookies.UpsertLookup |
| api/index.ts:22 | the match is `startsWith(name)`, so a shorter name hits a longer stored one | jar `["x=0", "ab=1", "a=1"]`, `Set-Cookie: a=2` gives `["x=0", "a=2", "a=1"]` | only the entry named exactly `a` is replaced | high (not executed) | Cookies.PrefixOverwrites | Cookies.UpsertAllLatest |

The first and third rows cannot show in the client as written: its jar
starts empty and, by the second row, never gains an element, so every
search finds nothing (`Cookies.AsWrittenNeverMatches`). Their example jars
become reachable only once the second defect is fixed.

The client keeps the code's behaviour in `Client.AtelierClient.UpdateCookies`.
`Client.AtelierClient.UpsertCookies` is the corrected update, built on
`Cookies.UpsertAll`.
