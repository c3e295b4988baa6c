# PANEL_CDL core, modelled in Dafny

PANEL_CDL is a maintenance dashboard that runs in the browser. It has three scripts, and this project models the parts of them that hold logic:

- **`app.js`**, the landing dashboard:
  - the naive CSV parser `parseCSV` (no quoting, trimmed cells, the last duplicate header wins);
  - the carousel index `go` (modular arithmetic over the two slides);
  - the role stored in `localStorage` (`getRole`/`setRole` with the default `invitado`);
  - `enforceRoleVisibility`, which hides `data-role="admin"` elements from every role but `admin`.
- **`assets/app.js`**, the single-page front end:
  - `escapeHtml`;
  - the hash router (`normalizeHash`, `route`);
  - the permission menu (`canSee`, `buildMenu`);
  - `extractToken` and the `loginCompat` loop, which tries five payload shapes;
  - the session record `state` with `logout`, and the header badge (`setBadgeRole`, `paintHeader`);
  - the query parameters `apiGet` sends.
- **`sw.js`**, the offline service worker:
  - `pathRelativeToScope`;
  - the five-way classification of GET requests and the cache policy of each branch;
  - the pruning of older caches on `activate`;
  - the precache with its fallback on `install`.

Files:

- `js_string.dfy`: the ECMAScript string operations these scripts rely on (`split`, `trim`, `toLowerCase`, `includes`, `startsWith`, `endsWith`, `replace` with a string pattern).
- `browser.dfy`: the browser objects that are mutated: `localStorage`, `location.hash`, and elements with `data-role` and `hidden`. They are classes.
- `dashboard.dfy` models `app.js`.
- `frontend.dfy` models `assets/app.js`.
- `service_worker.dfy` models `sw.js`.
- `wrappers.dfy` holds `Option`.

How the JavaScript is represented:

- Code that mutates state is modelled as methods on classes, with `modifies` clauses. This covers the carousel's `idx`, `localStorage`, `location.hash`, the `hidden` attributes, the `state` record and the Cache API. Most such methods are proved against a pure function, with the properties proved as lemmas about those functions. A few, such as `Dashboard.EnforceRoleVisibility`, state their new state directly in their `ensures`.
- JSON values are a datatype with JavaScript truthiness. `String(v)`, `a || b` and `?.` are written out.
- The network is a parameter: the outcome a `fetch` would have, or, for the login loop, the sequence of backend replies.
- `API_HINT.test` is a predicate parameter.

## Model

| member | source | states |
|---|---|---|
| JsString.TrimStart | app.js:292 | drops leading white space only: the result is a suffix of the input, everything dropped is ECMAScript white space, and it does not start with white space |
| JsString.TrimEnd | app.js:292 | the mirror image of TrimStart at the end of the string |
| JsString.Trim | app.js:292 | `trim()`: the result is the piece `s[i..i+|r|]` of the input with only ECMAScript white space before and after it; neither of its ends is white space; an already trimmed string comes back unchanged |
| JsString.LowerChar | assets/app.js:180 | `A`–`Z` and the Latin-1 capitals `À`–`Þ` (except `×`) move 32 code points down to their small letters; every other character is kept; the result is never a capital |
| JsString.ToLower | assets/app.js:180 | `toLowerCase()` keeps the length; each capital becomes its small letter, every other character is kept, and no capital is left |
| JsString.ToLowerIdempotent | assets/app.js:180 | lower-casing twice is lower-casing once |
| JsString.ReplaceFirst | assets/app.js:316 | `replace` with a string pattern: no occurrence leaves the string alone; a match at the front is replaced once (a first match anywhere else: ReplaceFirstAt) |
| JsString.ReplaceFirstAt | assets/app.js:316 | when the pattern first occurs at `i`, the result is `s[..i] + rep + s[i+|pat|..]`: that occurrence alone is replaced and the rest kept |
| JsString.Split | app.js:290-291 | `split` with one character: one more piece than separators, no piece holds the separator, every character comes from the input |
| JsString.JoinSplit | app.js:291 | splitting loses nothing: joining the pieces with the separator gives the input back |
| JsString.SplitJoin | app.js:291 | splitting a join of separator-free pieces gives back the pieces |
| JsString.SplitNoSeparator | app.js:291 | a string without the separator splits into itself alone |
| Browser.LocalStorage.GetItem | app.js:27 | `getItem` returns a value exactly when the key is stored, and that value |
| Browser.LocalStorage.SetItem | app.js:28 | `setItem` maps the key to the value and changes nothing else |
| Browser.LocalStorage.RemoveItem | assets/app.js:128 | `removeItem` drops the key and changes nothing else |
| Dashboard.DropCR | app.js:290 | what `/\r?\n/` leaves of a line: one final `\r` is removed, and a line not ending in `\r` is kept as it is |
| Dashboard.SplitLines | app.js:290 | one line per `\n`, plus one; no line holds `\n`; every line but the last is its `\n`-piece without one final `\r`, the last is the last piece; text without `\r` splits exactly as `split('\n')` |
| Dashboard.NonEmpty | app.js:290 | `filter(Boolean)`: every non-empty line is kept as often as it occurs, no empty line remains, and the result is never longer than the input |
| Dashboard.NonEmptyAppend | app.js:290 | filtering a concatenation filters each part: the kept lines stay in their order |
| Dashboard.Entries | app.js:292 | one key/value entry per header cell |
| Dashboard.FromEntriesLastWins | app.js:292 | `Object.fromEntries`: every key is present, it holds the value of its last entry, and there are no other keys |
| Dashboard.ParseCSV | app.js:289-293 | no non-empty line gives no records; otherwise one record per non-empty line after the header, in order, each built from the header row and its own row |
| Dashboard.RecordShape | app.js:292 | a record's keys are exactly the trimmed header cells; the later duplicate column wins; a short row gives `''`; extra cells are dropped; every value is trimmed |
| Dashboard.ParsedRecord | app.js:289-293 | every record `parseCSV` returns has the shape RecordShape states, for the header row and its own row |
| Dashboard.SplitCrLf | app.js:290 | in text without `\r`, turning each `\n` into `\r\n` only appends `\r` to every piece but the last |
| Dashboard.SplitLinesCrLf | app.js:290 | `split(/\r?\n/)` gives the same lines for `\n` and `\r\n` endings |
| Dashboard.ParseCSVCrLf | app.js:289-293 | `parseCSV` gives the same records for `\n` and `\r\n` line endings |
| Dashboard.JsRem | app.js:171 | JavaScript's `%`: `a == trunc(a/n)·n + r`, with `|r| < n` and `r` taking the sign of the dividend (`r >= 0` for `a >= 0`, `r <= 0` for `a < 0`) |
| Dashboard.JsRemBelowTwice | app.js:171 | for `0 <= a < 2n`, `a % n` is `a` below `n` and `a - n` from `n` on |
| Dashboard.StepInRange | app.js:170-173 | `go(±1)` keeps the index within the slides, wrapping at both ends |
| Dashboard.StepBack | app.js:170-173 | `go(+1)` then `go(-1)` restores the index, and so does the reverse order |
| Dashboard.Carousel.constructor | app.js:161-167 | two slides, index 0 |
| Dashboard.Carousel.Go | app.js:170-173 | the index becomes the wrapped step; a valid index stays valid under `go(±1)` |
| Dashboard.GetRole | app.js:27 | the stored role when it is non-empty, else `invitado`; never empty |
| Dashboard.SetRole | app.js:28 | stores the role under `cdl_role`; `getRole` then returns it, or `invitado` for `''` |
| Dashboard.EnforceRoleVisibility | app.js:263-268 | every `data-role="admin"` element is hidden exactly when the role is not `admin`; no other element changes |
| Frontend.EscapeChar | assets/app.js:15-17 | each character's replacement is non-empty and holds none of `<`, `>`, `"`, `'` |
| Frontend.EscapeHtml | assets/app.js:15-17 | the output holds none of `<`, `>`, `"`, `'`; a string without the five special characters is unchanged |
| Frontend.EscapeHtmlLength | assets/app.js:15-17 | output length = input length + 4·#`&` + 3·#`<` + 3·#`>` + 5·#`"` + 5·#`'` |
| Frontend.EscapeHtmlRoundTrip | assets/app.js:15-17 | decoding the five references in the output gives back the input |
| Frontend.ViewOf | assets/app.js:313-318 | `route()` never yields an empty view name |
| Frontend.NormalizedHashRewrites | assets/app.js:33-41 | a hash is rewritten exactly when it is `#x` with `x` non-empty and not starting with `/`, and then it becomes `#/x` |
| Frontend.NormalizedHashIdempotent | assets/app.js:33-41 | a hash `normalizeHash` has produced is left unchanged |
| Frontend.RouteDefaults | assets/app.js:313-318 | no hash, `#` and `#/` all give `planificacion` |
| Frontend.RouteToKey | assets/app.js:313-318 | `#/x` gives `x` |
| Frontend.RouteShortHash | assets/app.js:33-41 | `#x` (with `x` not starting with `/`) is rewritten to `#/x` and gives `x` |
| Frontend.NormalizeHash | assets/app.js:33-41 | `location.hash` becomes its normal form |
| Frontend.Route | assets/app.js:313-318 | normalizes the hash and returns the view for the original hash |
| Frontend.VisibleMembers | assets/app.js:272 | a page is shown exactly when it is in the table and `canSee` allows its key |
| Frontend.VisibleInOrder | assets/app.js:280-290 | the shown pages keep the table's order |
| Frontend.VisibleDependsOnAllowedKeys | assets/app.js:272 | permissions allowing the same keys give the same menu, whatever their order |
| Frontend.VisibleWithoutPerms | assets/app.js:272 | no permissions, or no page list, give an empty menu |
| Frontend.MenuProperties | assets/app.js:274-296 | the menu holds exactly the permitted pages among the eleven, in the fixed order, whatever the order of `perms.pages`; with null permissions it is empty |
| Frontend.MenuLinksRoute | assets/app.js:274-296 | every menu link `#/key` routes to `key` |
| Frontend.CollectVisible | assets/app.js:280-290 | going through the page table and pushing every page `canSee` allows builds the specified menu |
| Frontend.BuildMenu | assets/app.js:274-296 | the item list is the menu for the current permissions |
| Frontend.ExtractToken | assets/app.js:155-157 | the first truthy candidate among `token`, `data.token`, `result.token` and `auth.token`, with all earlier ones falsy; `null` when all are falsy |
| Frontend.ApiPost | assets/app.js:78-88 | a thrown `fetch`/`json` error is rethrown as is; the body is returned exactly when `ok` is not `false`; otherwise an error whose message is `String(data.error)`, or `''` when it is undefined, is thrown |
| Frontend.Attempts | assets/app.js:160-166 | five payload shapes |
| Frontend.VerdictOf | assets/app.js:170-185 | an attempt is accepted exactly when it returned a truthy token, and then with that token; a body without one retries with `Login sin token`; a thrown error retries with that error when it names bad POST parameters and stops with it otherwise |
| Frontend.TryPayloads | assets/app.js:159-190 | the loop over any non-empty payload list: sends a prefix of the list, every attempt but the last was a retry, and the last attempt's verdict decides the result |
| Frontend.LoginCompat | assets/app.js:159-190 | payloads go out in order, one to five of them, and every attempt before the last was a retry. The first truthy token is returned. An error without the marker phrases stops the loop at once. After five retries the last error is thrown |
| Frontend.AppState.constructor | assets/app.js:5-11 | all fields null and the semaphore cache empty |
| Frontend.AppState.ClearSession | assets/app.js:124-127 | token, user, permissions and bootstrap become null; the cache is untouched |
| Frontend.BadgeText | assets/app.js:26-31 | the badge text is never empty and never starts or ends with white space |
| Frontend.BadgeTextCases | assets/app.js:26-31 | a falsy role shows `—`; a string role with something besides white space shows trimmed |
| Frontend.HeaderUser | assets/app.js:92-96 | `String` of the first truthy of `name`, `user`, `email` (a string field shows as is), else `Usuario` |
| Frontend.PaintHeader | assets/app.js:92-97 | the header shows the user name and the role badge of `me` |
| Frontend.Logout | assets/app.js:123-133 | the session is forgotten but the cache kept, the stored token is removed, the menu is empty, and the hash is `#/planificacion` |
| Frontend.LoggedOutHeader | assets/app.js:92-97 | a logged-out header reads `Usuario` with the badge `—` |
| Frontend.Query | assets/app.js:65-71 | every parameter that is not `undefined`, `null` or `''` is sent as its string. Nothing else is sent except `path` and the token. `path` is the given path unless a parameter overrides it. The token is present exactly when it is truthy or given as a parameter, and a truthy token not overridden by a parameter is sent as its string |
| ServiceWorker.CacheNames | sw.js:2-4 | the two cache names carry the version `v32` and differ |
| ServiceWorker.MinimalWithinCore | sw.js:48-53 | the fallback precache list is a subset of the core list, and it holds the offline page |
| ServiceWorker.PathRelativeToScope | sw.js:37-40 | if the path starts with the scope, scope + result = path; otherwise the path is returned unchanged |
| ServiceWorker.ClassifyFirstMatch | sw.js:71-162 | only GET is answered; every GET request goes to exactly one branch, the first whose test holds in the order navigate, API, manual PDF, static extension, other |
| ServiceWorker.FirstHit | sw.js:89 | `caches.match` returns the entry of the first cache, in list order, that holds the URL, and nothing exactly when no cache holds it |
| ServiceWorker.Caches.Open | sw.js:83 | an existing cache changes nothing; a new cache is created empty and appended last to the name list; no other cache changes |
| ServiceWorker.Caches.Put | sw.js:84 | the response is stored under the URL, the cache's URLs become the old ones plus this one, other entries and caches unchanged; a partial (206) response changes nothing |
| ServiceWorker.Caches.Delete | sw.js:61 | the cache and its name are gone; the other names keep their order (removing the name from its position, or nothing when absent); no other cache changes |
| ServiceWorker.WithoutAt | sw.js:61 | deleting the name at position `i` of a list without repetitions leaves the names before and after it, in order |
| ServiceWorker.CacheStorage.Open | sw.js:83 | the storage becomes the opened value |
| ServiceWorker.CacheStorage.Put | sw.js:84 | the storage becomes the value after the put |
| ServiceWorker.CacheStorage.Delete | sw.js:61 | reports whether the cache existed; the storage becomes the value after the delete |
| ServiceWorker.CacheStorage.Keys | sw.js:59 | the name list, which Open appends to at the end and Delete removes from in place, so it is in creation order |
| ServiceWorker.NonGetUntouched | sw.js:73 | a non-GET request gets no answer, causes no cache change and no network call |
| ServiceWorker.CacheFirstBranches | sw.js:117-141 | manuals and static files: a cached copy is the answer without a network call, and only an ok download is ever stored |
| ServiceWorker.ApiOffline | sw.js:103-110 | API offline: the stored copy, else a 503 with body `{"ok":false,"error":"offline"}` |
| ServiceWorker.NavigationOffline | sw.js:86-90 | navigation offline: the stored page, else `./offline.html` from any cache |
| ServiceWorker.FetchKeepsOtherCaches | sw.js:71-162 | the handler never changes any cache other than the two current ones |
| ServiceWorker.HandleNavigation | sw.js:79-93 | the navigation branch does what its specification says |
| ServiceWorker.HandleApi | sw.js:96-113 | the API branch does what its specification says |
| ServiceWorker.HandleManual | sw.js:116-130 | the manual branch does what its specification says |
| ServiceWorker.HandleStatic | sw.js:133-150 | the static branch does what its specification says |
| ServiceWorker.HandleFallback | sw.js:153-161 | the remaining GET requests are handled as specified |
| ServiceWorker.HandleFetch | sw.js:71-162 | the `fetch` listener's answer, caches and network use equal the specification of the selected branch |
| ServiceWorker.KeepCurrent | sw.js:61 | exactly the names that are one of the two current caches |
| ServiceWorker.KeepCurrentAppend | sw.js:59-62 | filtering a concatenation filters each part: the kept names stay in their list order |
| ServiceWorker.PrunedKeepsCurrent | sw.js:59-62 | after activation only current caches remain, and the current ones that existed keep their contents |
| ServiceWorker.PruneStep | sw.js:60-62 | one step of the loop: a current key stays, any other key is deleted from the name list |
| ServiceWorker.ActivateStep | sw.js:59-62 | one iteration keeps the loop's invariant: the seen keys are pruned from the name list and the stores, the rest untouched |
| ServiceWorker.PruneKey | sw.js:60-61 | `caches.delete(k)` runs exactly when `k` is not current |
| ServiceWorker.Activate | sw.js:57-65 | deleting every non-current cache one by one leaves the pruned storage |
| ServiceWorker.AddAllSpec | sw.js:49 | `addAll` succeeds exactly when every download is ok and not partial; then every URL is stored, the cache keeps its other entries and gains no other keys, no cache appears or disappears, and the name list and the other caches are unchanged |
| ServiceWorker.InstallCachesOfflinePage | sw.js:42-55 | a full or fallback install leaves the offline page in the static cache; the install is full exactly when every core file can be stored; a failed install stores nothing |
| ServiceWorker.AddAll | sw.js:49 | downloads every URL, then stores all or none, as `AddAllSpec` states |
| ServiceWorker.Install | sw.js:42-55 | opens the static cache and tries the core list, then the minimal list |

## Left out

- DOM rendering, event wiring, Bootstrap modals and off-canvas menus, `showAlert`/`clearAlert`, and the carousel's CSS transform. They are UI with no contract beyond the state modelled here.
- The `init*` functions of `app.js` other than the carousel index are not modelled, and neither are `ensureBootstrap`, `doLogin`, `wireLoginModal` or `loadView` in `assets/app.js`. They only orchestrate network calls and DOM updates.
- `async`/`await`, `waitUntil`, `skipWaiting`, `clients.claim` and the `message` listener are not modelled. Every handler is taken to run to completion by itself.
- Real `fetch`, `res.json()`, URL parsing and the percent-encoding of `searchParams` are not modelled. The network is a parameter, and `Request.pathname` is given rather than parsed from the URL.
- `API_HINT` is a predicate parameter, not the regular expression. `STATIC_EXT` and `/\.pdf$/i` are modelled as suffix checks that ignore ASCII case.
- Cache keys are URL strings as written. The resolution of `./offline.html` against the scope is not modelled, nor are `Vary` headers, opaque responses or request methods other than GET in the Cache API.
- ServiceWorker.HandleFetch: `cache.put` is not awaited in the source. The model applies it at once, and a refused put of a 206 response leaves the cache unchanged instead of raising an unhandled rejection.
- Strings are sequences of Unicode scalar values. UTF-16 surrogate pairs are not modelled.
- JsString.ToLower: maps ASCII and Latin-1 capitals only, which covers the marker phrases of the login loop but not the full Unicode case mapping.
- Frontend.Json: numbers are integers. Floating point and its string form are not modelled.
- Frontend.EscapeHtml: takes a string. The `String(s)` conversion of other values at the call is not modelled.
- Frontend.Perms: `perms.pages` is a list of strings or absent. A string or another type there, where `includes` would behave differently, is not modelled.
- Frontend.Query: the parameters form a map, so the insertion order of `searchParams` is not modelled.
- Dashboard.FromEntriesLastWins: records are maps, so the key order of the object `Object.fromEntries` builds is not modelled.
- Frontend.LoginCompat: the fallback error `No se pudo iniciar sesión` is unreachable. After at least one attempt, `lastErr` is always set. The model keeps it only as the default of `GetOr`.
