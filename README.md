# cors-backdoor header-override engine, modelled in Dafny

cors-backdoor is a local development reverse proxy. It forwards requests
under `baseUrl`, other than OPTIONS, to a configured target and rewrites the
response headers according to `config.headers`. It answers OPTIONS requests
itself, at any path, with the same header rewriting. Each key of that object names a header. Its value is the
rule for that header:

- a plain value;
- a function of the request;
- `undefined`;
- an array of plain values and functions.

This project models the engine that applies those rules. It also models the
few request-level decisions around the engine: answering OPTIONS locally,
normalising the target, and building the forwarded URL.

Modules (one file each):

- `Wrappers` (`wrappers.dfy`): `Option` and `Result`.
- `Strings` (`strings.dfy`): ASCII lower-casing, case-insensitive comparison,
  and the comma join of `Array.prototype.join(',')` with its inverse split.
- `Rules` (`rules.dfy`): requests, JavaScript values (`Undefined`, `Null`,
  `Text`), rule entries and rules. It follows the per-key value computation
  step by step: normalise to a list, call the functions, drop `undefined`,
  join with `,`. A one-pass reference definition, `Parts`, is proved equal to
  that pipeline.
- `Engine` (`engine.dfy`): the engine as a pure fold over header maps
  (`ApplyAll`) with its properties. `Response` is a class whose `headers` map
  field is updated in place by `SetHeader` and `RemoveHeader`. Its
  `ApplyHeaderOverrides` loop is proved to compute `ApplyAll`.
- `Proxy` (`proxy.dfy`): target normalisation, the OPTIONS test, routing, and
  the per-request handler.
- `Examples` (`examples.dfy`): the shipped default rules and the rules of the
  example configuration, with what the engine does with them.

Header maps are keyed by the lower-cased header name, as Node's
`setHeader`/`removeHeader` key them. HTTP field names are case-insensitive
(section 5.1 of RFC 9110). So two rule keys that differ only in case touch the
same header, and the later key wins (`Engine.LastRuleWins`). With the example
configuration, the default `'X-Powered-By'` and the example's
`'x-powered-by': undefined` are such a pair.

Behaviour of index.js worth knowing:

- index.js drops only `undefined` entries before joining (index.js:129). An
  empty string or `null` entry stays as an empty part. `['a', '', 'b']` gives
  `a,,b` and `[null, null]` gives `,`. The header is removed only when the
  joined string is empty (index.js:133-138).
- index.js installs the OPTIONS middleware without a path (index.js:149), so
  OPTIONS is answered locally at every path. Only the forwarder is mounted
  under `baseUrl` (index.js:157); any other request outside `baseUrl` is not
  forwarded.
- index.js sends no response when the upstream request fails
  (index.js:179); it only logs the error. It has no request-header
  overrides: the rules apply to responses only.

## Model

| member | source | states |
|---|---|---|
| `Strings.Lower` | index.js:150 | the result of `toLowerCase` on ASCII holds no upper-case letter |
| `Strings.LowerEqualIff` | index.js:150 | comparing lower-cased strings is exactly a letter-by-letter comparison that ignores case, in both directions |
| `Strings.JoinComma` | index.js:131 | a one-element list joins to its element |
| `Strings.JoinEmptyIff` | index.js:131-133 | the joined value is empty exactly when there are no parts or a single empty part |
| `Strings.JoinAppend` | index.js:131 | joining two non-empty lists put together places exactly one comma between the two joins |
| `Strings.SplitJoin` | index.js:131 | splitting the join of non-empty, comma-free parts at commas gives the parts back, in order |
| `Rules.RequestHeader` | index.js:55 | reading a request header gives `undefined` exactly when the request lacks it, and its value otherwise; `Examples.DefaultEchoesRequestedHeaders` carries what this means for the response |
| `Rules.Values` | index.js:122 | an array is used as it is; any other value becomes a one-element list holding it, which `Rules.SingleIsOneElementList` proves combines exactly as that list |
| `Rules.Call` | index.js:127 | a function entry becomes its result for the request; any other entry stays itself; `Rules.Evaluate` and `Rules.Combined` carry it through the whole pipeline |
| `Rules.Evaluate` | index.js:127 | the mapped list has one value per entry, in order; a function entry becomes its call result, and a plain entry stays itself |
| `Rules.DropUndefined` | index.js:129 | no `undefined` survives the filter |
| `Rules.DropUndefinedKeepsOthers` | index.js:129 | the filter keeps every value other than `undefined`, each as often as it occurred (as a multiset) |
| `Rules.DropUndefinedAppend` | index.js:129 | the filter keeps relative order, because it distributes over concatenation |
| `Rules.Print` | index.js:131 | `join` prints `undefined`, `null` and the empty string as the empty string, and nothing else so; a string prints as itself |
| `Rules.PrintAll` | index.js:131 | `join` prints each value in order, with `null` printed as the empty string |
| `Rules.JoinValues` | index.js:131 | a one-element list joins to that element as printed; the join is empty exactly when the list is empty or its only element prints empty |
| `Rules.Combined` | index.js:122-131 | the map/filter/join pipeline equals the comma join of the reference parts, which have one part per entry whose value is not `undefined` |
| `Rules.Resolve` | index.js:129-138 | the header is removed exactly when no part remains or the only remaining part is the empty string; otherwise it is set to the parts joined by commas, which is never empty |
| `Rules.PartsAppend` | index.js:125-131 | list order is kept, because the parts of concatenated entry lists are the concatenated parts |
| `Rules.PartsPerEntry` | index.js:125-131 | a list's parts are its first entry's parts followed by the rest's, and there are never more parts than entries |
| `Rules.SingleIsOneElementList` | index.js:122 | a value that is not an array combines exactly as the one-element list holding it |
| `Rules.SetValueSplitsIntoParts` | index.js:131-135 | a set header value splits at commas back into the parts, in list order, when no part holds a comma |
| `Engine.ApplyRule` | index.js:133-139 | one key sets its lower-cased header to the resolved value or removes it, and leaves every other header unchanged |
| `Engine.Touched` | index.js:119 | every rule key, lower-cased, is among the touched names |
| `Engine.ApplyAll` | index.js:119-141 | headers outside the touched names keep their presence and value, and a map with lower-case names stays so |
| `Engine.LastRuleWins` | index.js:119-141 | the last key naming a header, ignoring case, decides that header: it is present exactly when that key's combined value is non-empty, and then holds exactly that value, whatever it held before |
| `Engine.UnmatchedHeaderUnchanged` | index.js:119-140 | a header whose name matches no key, ignoring case, keeps its presence and its value |
| `Engine.OnlyUntouchedMatter` | index.js:117-144 | two header maps that agree outside the touched names give the same result |
| `Engine.Idempotent` | index.js:117-144 | applying the overrides twice for the same request gives the same header map as applying them once |
| `Engine.ApplyAllAppend` | index.js:119 | applying one list of keys and then another equals applying the concatenated list |
| `Engine.Response.constructor` | index.js:116 | the response reaching the middleware holds the headers it started with, status 200 and no body yet |
| `Engine.Response.SetHeader` | index.js:135 | the header is stored under its lower-cased name with the new value, replacing any old one, and nothing else changes |
| `Engine.Response.RemoveHeader` | index.js:138 | the header is removed under its lower-cased name, and nothing else changes |
| `Engine.Response.Status` | index.js:151 | only the status code changes |
| `Engine.Response.Send` | index.js:151 | only the body changes |
| `Engine.Response.ApplyHeaderOverrides` | index.js:117-144 | the in-place loop leaves exactly `ApplyAll` of the old headers, and status and body stay unchanged |
| `Proxy.NormaliseTarget` | index.js:109 | at most one trailing slash is removed, and one is removed exactly when the target ends in a slash |
| `Proxy.NormaliseUndoesOneSlash` | index.js:109 | normalising any string with one slash appended gives that string back, so exactly one slash goes |
| `Proxy.DoubleSlashKeepsOne` | index.js:109 | `http://x//` becomes `http://x/`, and normalising again would remove a second slash, so normalising is not idempotent |
| `Proxy.ResolveTarget` | index.js:103-109 | the target is refused exactly when it is missing or empty; any other target is normalised, losing one trailing slash exactly when it ends in one |
| `Proxy.IsPreflight` | index.js:150 | a method is a preflight exactly when it equals `OPTIONS` letter by letter, ignoring case |
| `Proxy.PreflightSpellings` | index.js:150 | `OPTIONS`, `options` and `Options` are preflights; `GET` and `OPTION` are not |
| `Proxy.TargetUrl` | index.js:161 | the forwarded URL is the target followed by the request URL |
| `Proxy.Route` | index.js:149-161 | a request is answered locally exactly when its method is `OPTIONS` ignoring case, whatever its path; it is forwarded, to the target followed by its URL, exactly when it is not a preflight and its path is under `baseUrl`; any other request is not proxied |
| `Proxy.ForwardedUrlOfSlashedTarget` | index.js:161 | a target configured with a trailing slash forwards to the target without that slash, followed directly by the request URL |
| `Proxy.HandleRequest` | index.js:149-161 | the request takes the action `Route` gives; a preflight gets status 200, the overrides applied to its headers and an empty body; a forwarded request or one outside `baseUrl` leaves the response unchanged |
| `Examples.EchoRequestedHeaders` | index.js:54-56 | the function gives `undefined` exactly when the request has no `Access-Control-Request-Headers`, and that header's value otherwise; `Examples.DefaultEchoesRequestedHeaders` proves the response echoes it |
| `Examples.EchoMethod` | example-config.js:10-12 | the function gives a string that prints as the request method, so it is never dropped; `Examples.ExampleEchoesMethod` proves the response carries it |
| `Examples.DefaultRules` | index.js:52-58 | the default rules are three keys, naming exactly `access-control-allow-origin`, `access-control-allow-headers` and `x-powered-by` |
| `Examples.MergedExampleRules` | example-config.js:5-24 | the example rules merged over the defaults are six keys naming five headers, since `X-Powered-By` and `x-powered-by` name one header |
| `Examples.DefaultAllowsAnyOrigin` | index.js:53 | the header map the default overrides leave holds `Access-Control-Allow-Origin: *` |
| `Examples.DefaultEchoesRequestedHeaders` | index.js:54-56 | with the default rules, `Access-Control-Allow-Headers` echoes the requested headers and is absent when none, or an empty value, was requested |
| `Examples.DefaultPoweredBy` | index.js:57 | the header map the default overrides leave holds `X-Powered-By: cors-backdoor`, whatever it held before |
| `Examples.ExampleRemovesPoweredBy` | example-config.js:22-23 | with the example configuration, `X-Powered-By` is removed even though the defaults set it |
| `Examples.ExampleAllowHeaders` | example-config.js:15-20 | with the example configuration, the allowed headers are `Content-Type`, followed by a comma and the requested headers when the request names any |
| `Examples.ExampleAllowHeadersValue` | example-config.js:15-20 | the example's two-entry list combines to `Content-Type` alone, or `Content-Type` followed by a comma and the requested headers |
| `Examples.ExampleEchoesMethod` | example-config.js:10-12 | with the example configuration, `X-Custom-Req-Method` holds the request method |
| `Examples.EmptyStringEntryKept` | index.js:129-131 | `['a', '', 'b']` sets `a,,b` |
| `Examples.UndefinedEntryDropped` | index.js:129-131 | `['a', () => undefined, 'b']` sets `a,b` |
| `Examples.NullEntries` | index.js:131-138 | `[null]` removes the header, and `[null, null]` sets it to `,` |

## Left out

- Command-line parsing, loading the configuration file, and the console
  banner (index.js:66-85, 189-196) are I/O. The target arrives as an
  `Option<string>`.
- The three-layer configuration merge (index.js:91-95) delegates to lodash
  `merge`, which is not part of this model. The merged `headers` key order is
  an input. `Examples.MergedExampleRules` writes that order out by hand.
- Rule functions see only the request. The source also passes `res`. A
  function that reads `res` (for example, the headers the engine has just
  set) could break `Engine.Idempotent`, so that lemma assumes functions that
  depend on the request alone.
- A function that throws is not modelled. In the source, the exception
  escapes the `forEach` and leaves the earlier keys applied.
- Any JavaScript value other than `undefined` and `null` is held as the string
  JavaScript converts it to (`Text`). Arrays returned by functions are not
  nested.
- Node's validation of header names and values (it throws on invalid
  characters) is not part of the source, so it is not modelled. Upstream
  headers with several values are held as one string.
- Lower-casing covers ASCII only. Valid header names are ASCII tokens. No
  non-ASCII character lower-cases to a letter of `options`.
- `Engine.Response.Send`, `Proxy.HandleRequest`: Express's `send` sets
  headers of its own after the overrides ran, and the model does not
  capture them. It adds `Content-Type: text/html; charset=utf-8` when none
  is present, including one a rule has just removed. It appends
  `; charset=utf-8` to a `Content-Type` a rule set. It overwrites any
  `Content-Length` a rule set, and adds an `ETag` unless one is present. So
  the preflight header map `Proxy.HandleRequest` states is exact only for
  headers other than `Content-Type`, `Content-Length` and `ETag`.
- The forwarding path is not modelled beyond its URL. That covers streaming
  and piping through the `request` library, applying overrides on its
  `'response'` event, and when that event fires relative to the library
  copying upstream headers into the response (index.js:164-185). All of this
  is foreign stream and event code.
- Express mounting under `baseUrl`, and the mount-relative `req.url` it
  computes (index.js:157), are framework behaviour. `req.url` is an input.
- Proxy.Route: whether a path lies under `baseUrl` is Express's mount
  matching (index.js:157), which is not modelled; it arrives as the input
  `underBaseUrl`.
- Proxy.HandleRequest: a request that is not proxied falls through to
  Express's final handler, whose 404 response is not modelled; the model
  only states that this handler leaves the response untouched.
- Node sends each header with the spelling of the name last passed to
  `setHeader`. The model keeps only the lower-cased name, so it does not
  say which spelling goes on the wire; HTTP does not distinguish them
  (section 5.1 of RFC 9110).
- Logging, the interface listing, and port-binding errors (index.js:18-23,
  164-167, 179-185, 197-204) are I/O or display only.
