# IP geolocation client — a Dafny model of its core

The application is a browser client. It looks up the geolocation of IP addresses at the
ipinfo.io service, keeps a short search history, and shows the results on a map. This
project models its core.

- `geoService.js`: the IP-literal check `validateIp`, and the decisions `fetchGeoData`
  makes. These are which URL it requests, whether the token parameter is sent, the fast
  failure on a malformed address, and how each kind of failure becomes an error message.
- `historyService.js`: the history kept in local storage under `geo-app-history`. What it
  loads, what it saves and what it returns.
- `useAppStore.js`: the application store. Sign-in state, the record on display, the
  in-memory history with its "skip a known ip, keep ten" rule, and the projection that the
  persist middleware writes.
- `MapDisplay.jsx`: parsing `"lat,lon"` locations, building the marker list (a user
  marker, then one search marker per new position), and the map centre.
- `GeoSearch.jsx`: the search box. It trims its input, rejects an empty or malformed
  address, and hands an accepted one to the page.
- `HomePage.jsx`: the page handlers. The caller's own lookup, the batch search (fan-out,
  split into records and misses, history additions, the combined error message), clear,
  and the two "search this one address" handlers.

Modules follow the files:

| file | module | contents |
|---|---|---|
| `common.dfy` | `Wrappers`, `Lists`, `Text` | Option; filter, take, slice, first-by-key and subsequence helpers; `split`, `join` and `trim` |
| `records.dfy` | `Records` | the provider record and the user |
| `geo_service.dfy` | `GeoService` | validateIp and fetchGeoData |
| `history_service.dfy` | `HistoryService` | class `HistoryStorage` over the storage slot |
| `app_store.dfy` | `AppStore` | class `Store`, one field per state field |
| `map_display.dfy` | `MapView` | locations, markers, centre |
| `geo_search.dfy` | `Search` | class `GeoSearch` |
| `home_page.dfy` | `Home` | class `HomePage` and the batch functions |

Anything the code gets from outside becomes a parameter. This covers:

- the provider's reply to each request (`Reply`, and `replyOf(k)` for the k-th lookup of a batch);
- the configured token;
- the UUID and the times of new history entries;
- the number parser (`parse: string -> Option<C>`, with positions of an abstract type `C`);
- the message of a thrown `TypeError`.

Component callbacks are modelled in one of two ways: as the list of calls a handler
makes, or as a call to the page method they are wired to.

Two behaviours of the code are easy to misread. The model follows the code in both.

- The store's `addToHistory` leaves the list unchanged when the ip is already listed. The
  entry is not moved to the front and is not re-timestamped. Only the storage-backed
  history service moves a repeated ip to the front.
- `validateIp` does not accept IPv6 text ending in an embedded dotted quad
  (`ValidateIpRejectsIpv4Tail`).

## Model

| member | source | states |
|---|---|---|
| HistoryService.Load | src/services/historyService.js:8-15 | a saved list is returned as saved; a missing or unparsable slot yields the empty list |
| HistoryService.NewItem | src/services/historyService.js:43-55 | the new item carries the given id and time and the record's ip; each of the eight optional fields is copied when truthy and null otherwise, so no field is "" |
| HistoryService.Prepended | src/services/historyService.js:57-64 | the saved list starts with the new item, holds at most ten entries, no later entry has its ip, and the rest is the earlier list without that ip, cut to nine |
| HistoryService.PrependedKeepsUnique | src/services/historyService.js:57-64 | if no ip was stored twice, none is stored twice after an addition |
| HistoryService.PrependedKeepsOrder | src/services/historyService.js:57-64 | the entries behind the new item are earlier entries in their earlier order; when fewer than ten other-ip entries exist, every one of them is kept |
| HistoryService.HistoryStorage.FetchHistory | src/services/historyService.js:30-33 | the result is a prefix of the stored list: the first ten when no limit is given, `min(limit, n)` entries for a non-negative limit, `max(n + limit, 0)` for a negative one, and none when nothing readable is stored |
| HistoryService.HistoryStorage.AddToHistory | src/services/historyService.js:40-69 | returns the new item and saves the new item in front of the stored list with the same ip removed, cut to ten |
| HistoryService.HistoryStorage.DeleteHistory | src/services/historyService.js:76-80 | saves the stored entries whose ip is not listed, in their order |
| HistoryService.HistoryStorage.ClearAllHistory | src/services/historyService.js:86-88 | saves the empty list |
| AppStore.PartializeIgnoresCurrentGeoData | src/store/useAppStore.js:73-80 | changing the record on display never changes what is persisted |
| AppStore.PartializeKeepsTheRest | src/store/useAppStore.js:73-80 | two states with the same persisted projection differ at most in the record on display |
| AppStore.WithEntry | src/store/useAppStore.js:43-62 | afterwards the ip is listed; a listed ip leaves the list unchanged; a new ip goes in front, with its time, ahead of the first nine earlier entries |
| AppStore.WithEntryKeepsValid | src/store/useAppStore.js:43-62 | one addition keeps the history at no more than ten entries with no ip twice |
| AppStore.AddAllKeepsValid | src/store/useAppStore.js:43-62 | any run of additions keeps that invariant |
| AppStore.AddAllPresent | src/store/useAppStore.js:46-51 | additions of ips that are all listed already change nothing |
| AppStore.RemoveKeepsValid | src/store/useAppStore.js:66-71 | removal keeps the history invariant |
| AppStore.Store.constructor | src/store/useAppStore.js:8-14 | the initial state: signed out, nothing on display, empty history |
| AppStore.Store.Login | src/store/useAppStore.js:17-22 | sets the user and token and signs in; every other field is unchanged |
| AppStore.Store.Register | src/store/useAppStore.js:24-29 | the same update as login |
| AppStore.Store.Logout | src/store/useAppStore.js:31-38 | returns every field to its initial value |
| AppStore.Store.SetCurrentGeoData | src/store/useAppStore.js:41 | replaces the record on display and nothing else |
| AppStore.Store.AddToHistory | src/store/useAppStore.js:43-62 | the history becomes `WithEntry` of the old one, other fields are unchanged, and the history invariant is kept |
| AppStore.Store.ClearHistory | src/store/useAppStore.js:64 | empties the history only |
| AppStore.Store.RemoveFromHistory | src/store/useAppStore.js:66-71 | keeps the entries whose ip is not listed, in order; the invariant is kept |
| GeoService.Ipv4Means | src/services/geoService.js:16-17 | the IPv4 pattern accepts exactly four decimal numbers 0-255 of one to three digits joined by '.' |
| GeoService.Ipv6Means | src/services/geoService.js:20-21 | the IPv6 pattern accepts exactly eight groups of 1-4 hex digits joined by ':', or at most seven such groups with one "::" in place of the missing ones |
| GeoService.ValidateIpMeans | src/services/geoService.js:12-24 | validateIp holds exactly for a string that is an IPv4 or IPv6 text as above; null, undefined, non-strings and "" fail |
| GeoService.ValidateIpAcceptsIpv4Examples | src/services/geoService.js:16-17 | "8.8.8.8" and "1.1.1.1" pass |
| GeoService.ValidateIpRejectsOutOfRange | src/services/geoService.js:16-17 | "256.1.1.1" fails |
| GeoService.ValidateIpRejectsThreeFields | src/services/geoService.js:16-17 | "8.8.8" fails |
| GeoService.ValidateIpAcceptsIpv6Examples | src/services/geoService.js:20-21 | "::1" and "2001:4860:4860::8888" pass |
| GeoService.ValidateIpRejectsIpv4Tail | src/services/geoService.js:20-21 | "::ffff:1.2.3.4" fails |
| GeoService.ValidateIpRejectsWord | src/services/geoService.js:12-24 | "not-an-ip" fails, as does any string with neither '.' nor ':' |
| GeoService.ValidateIpRejectsEmpty | src/services/geoService.js:13 | "" and a non-string fail |
| GeoService.LookupUrlNamesTheIp | src/services/geoService.js:35-44 | distinct addresses get distinct URLs, and no address shares the caller's-own-address URL |
| GeoService.RequestFor | src/services/geoService.js:35-47 | no request is sent exactly when a truthy ip fails validation; a sent request carries the token parameter exactly when a token is configured |
| GeoService.ResponseErrorMessage | src/services/geoService.js:60-70 | 404 and 429 get their fixed messages; any other status gets the body's message if truthy, else the generic one; never "" |
| GeoService.Lookup | src/services/geoService.js:31-78 | a malformed ip is rejected with the validation message whatever the provider does; otherwise the lookup resolves exactly when the provider answered, with its record; an HTTP error maps as above; no response gives the network message; a rejection always has a message |
| GeoService.FetchGeoData | src/services/geoService.js:31-78 | the request the step-by-step code sends and the outcome it settles with are those of `RequestFor` and `Lookup` |
| MapView.ParseLocation | src/components/geo/MapDisplay.jsx:59-71 | a falsy location has no position |
| MapView.ParseLocationShape | src/components/geo/MapDisplay.jsx:59-71 | a location that parses is two comma-free sides around one comma, both sides parse after trimming, and the position is the pair of those parses |
| MapView.ParseLocationOfSides | src/components/geo/MapDisplay.jsx:59-71 | conversely, two comma-free sides around a comma give the pair of their parses when both parse, and no position otherwise |
| MapView.SearchCandidatesSound | src/components/geo/MapDisplay.jsx:95-115 | every candidate search marker is a result whose location parses to the marker's position |
| MapView.SearchCandidatesComplete | src/components/geo/MapDisplay.jsx:95-115 | every result whose location parses offers a candidate marker at that position |
| MapView.PushSearchMarker | src/components/geo/MapDisplay.jsx:96-114 | one step of the forEach: a result whose location parses to a position not yet shown adds its marker, and any other result adds nothing |
| MapView.PushSearchMarkers | src/components/geo/MapDisplay.jsx:95-115 | the forEach with its duplicate check leaves the first-by-position selection of the candidates seen so far |
| MapView.BuildMarkers | src/components/geo/MapDisplay.jsx:74-118 | the markers built are the user marker (when it applies) followed by the candidates, keeping the first marker at each position |
| MapView.MarkersDistinct | src/components/geo/MapDisplay.jsx:95-115 | no two markers share a position; markers keep candidate order; the earliest candidate at each position is shown |
| MapView.UserMarkerRule | src/components/geo/MapDisplay.jsx:77-92 | there is a user marker, first and alone, exactly when the user's location parses and there are no search results; with results every marker is a search marker, at most one per result |
| MapView.CenterRule | src/components/geo/MapDisplay.jsx:121-129 | the map is drawn exactly when some candidate exists, centred on the first candidate's position; otherwise the placeholder shows and the default centre is kept |
| Text.TrimMeans | src/components/geo/GeoSearch.jsx:12-22 | `trim` keeps a slice with only white space outside it and none at either end; the result is empty exactly when the input is all white space |
| Search.Submitted | src/components/geo/GeoSearch.jsx:8-24 | a submission hands on a query exactly when the trimmed input is non-empty and passes validateIp, and the query is the trimmed input |
| Search.SubmittedIsAddress | src/components/geo/GeoSearch.jsx:12-22 | whatever the box hands on is an IPv4 or IPv6 text with no white space at either end |
| Search.SubmitsTrimmedAddress | src/components/geo/GeoSearch.jsx:12-22 | " 8.8.8.8 " is handed on as "8.8.8.8" |
| Search.GeoSearch.constructor | src/components/geo/GeoSearch.jsx:5-6 | the field and the error start empty |
| Search.GeoSearch.OnInputChange | src/components/geo/GeoSearch.jsx:47-50 | the field takes the new text and the error clears |
| Search.GeoSearch.HandleSearch | src/components/geo/GeoSearch.jsx:8-24 | an all-white-space input shows the empty-input message; a malformed one shows the format message; in both cases the field is kept and no call is made; an accepted input is passed on once, trimmed, and both field and error are emptied |
| Search.GeoSearch.HandleClear | src/components/geo/GeoSearch.jsx:26-30 | empties the field and the error and calls onClear once |
| Home.BatchOutcomeMeans | src/pages/HomePage.jsx:48-56 | the k-th settled item is a record exactly when its request was sent and answered, and then it is the answer; a miss carries its own address and a non-empty message; a malformed address gives the validation miss |
| Home.BatchOutcomes | src/pages/HomePage.jsx:48-56 | a batch settles one item per address |
| Home.Successes | src/pages/HomePage.jsx:59 | the records are no more than the settled items |
| Home.Failures | src/pages/HomePage.jsx:60 | the misses are no more than the settled items |
| Home.SplitMembers | src/pages/HomePage.jsx:59-60 | the records come from found items of the batch and the misses are misses of the batch |
| Home.SplitCounts | src/pages/HomePage.jsx:59-60 | every settled item lands in exactly one of the two lists |
| Home.SplitAppend | src/pages/HomePage.jsx:59-60 | both lists keep input order |
| Home.BatchErrorEmpty | src/pages/HomePage.jsx:76-81 | the batch error is empty exactly when nothing failed |
| Home.BatchErrorSingle | src/pages/HomePage.jsx:76-81 | one miss is reported as the prefix followed by "ip: message" |
| Home.BatchErrorAppend | src/pages/HomePage.jsx:76-81 | each further miss is appended after "; ", so the misses appear in input order |
| Home.BatchOfThree | src/pages/HomePage.jsx:42-87 | two answered well-formed addresses around a malformed one give their two records in order and one validation miss in the error |
| Home.ThreeAddressBatch | src/pages/HomePage.jsx:42-87 | the batch "8.8.8.8", "not-an-ip", "1.1.1.1" gives the two records and reports "not-an-ip" with the validation message |
| Home.SingleSearch | src/pages/HomePage.jsx:95-107 | a one-address search yields the answer alone exactly when the request was sent and answered; otherwise it yields one miss with the lookup's message |
| Home.HomePage.constructor | src/pages/HomePage.jsx:14-18 | the page starts not loading, with no error, no user location, no results and no inputs |
| Home.HomePage.FetchCurrentUserGeo | src/pages/HomePage.jsx:25-40 | an answer becomes the current record and the user location, clears the results and puts its ip in the inputs; a failure only sets the error; loading ends false |
| Home.HomePage.FetchAll | src/pages/HomePage.jsx:48-56 | the settled fan-out is one tagged item per address, in input order |
| Home.HomePage.AddAllToHistory | src/pages/HomePage.jsx:66-68 | every record is added to the store's history in order, and the history invariant is kept |
| Home.HomePage.RecordBatch | src/pages/HomePage.jsx:66-73 | the records are added in order and the last one, if any, becomes current |
| Home.HomePage.HandleBatchSearch | src/pages/HomePage.jsx:42-87 | the results are the found records, the error is the batch error of the misses, the store gets the history additions and the last record as current, and loading ends false |
| Home.HomePage.HandleClear | src/pages/HomePage.jsx:89-93 | the results and inputs are emptied, then the caller's own lookup runs as above |
| Home.HomePage.HandleSelectHistory | src/pages/HomePage.jsx:95-100 | the entry's ip alone becomes the inputs and is searched as a batch of one |
| Home.HomePage.HandleSelectPopularIp | src/pages/HomePage.jsx:102-107 | the ip alone becomes the inputs and is searched as a batch of one |
| Home.HomePage.OnSearchAsWritten | src/pages/HomePage.jsx:42-87 | given a string, the page shows the thrown error and keeps its results, location and inputs |
| Home.HomePage.OnSearch | src/pages/HomePage.jsx:42-87 | given the address in an array, the page shows the one-address batch view and updates the store as a batch search does |
| Home.SearchBoxFindsNothing | src/components/geo/GeoSearch.jsx:22 | the accepted input " 8.8.8.8 " reaches the page as a string, which leaves the results unchanged and shows an error although the provider answers; passed in an array, it gives the answer with no error |
| Home.SearchBoxIntended | src/pages/HomePage.jsx:115-116 | with the address passed in an array, every accepted submission is looked up; an answer becomes the one result with no error; any other reply gives no result and the address with the lookup's message |

## Findings

| source | as written | input that shows it | evidently intended | confidence | as-written member | corrected member |
|---|---|---|---|---|---|---|
| src/components/geo/GeoSearch.jsx:22 | the search box calls `onSearch(ipAddress.trim())` with a string, but the page wires `onSearch` to `handleBatchSearch`, which calls `ipAddresses.map` (src/pages/HomePage.jsx:48, 116); a string has no `map`, so the call throws a TypeError, the catch shows its message, and nothing is looked up | typing " 8.8.8.8 " and submitting, whatever the provider would answer | `onSearch([ipAddress.trim()])`, as handleSelectHistory and handleSelectPopularIP pass their one address | high, not executed | Home.SearchBoxFindsNothing | Home.SearchBoxIntended |

## Left out

- HTTP, local storage and JSON are not modelled. Each reply is a parameter. The storage slot is a value with an "unreadable" case for text that `JSON.parse` rejects; JSON that parses to something other than an array is not modelled.
- `fetchGeoData` adds `latitude` and `longitude` by `parseFloat` on the `loc` parts. These are floating-point fields that nothing in the core reads, so they are not modelled.
- `parseFloat` and `isNaN` are replaced by the parameter `parse`, and positions have an abstract type `C`. Equality of positions is Dafny equality on `C`, so JavaScript's `0 === -0` is not modelled.
- `crypto.randomUUID()` and `new Date().toISOString()` are parameters.
- Concurrency is not modelled. Each handler is modelled once its lookups have settled, so stale or interleaved responses and the `loading` flag's intermediate value are left out. The batch runs its lookups one after another in input order, which matches the order `Promise.all` keeps.
- Rendering, icons, zoom and the mount effect are left out. Only the choice between the map and the placeholder, and the map centre, are modelled.
- The persist middleware's name and `partialize` projection are modelled; writing to and rehydrating from storage are not.
- `HistoryStorage.FetchHistory` covers integer limits and an omitted limit. Non-integer and non-numeric limits are not modelled.
- `ResponseErrorMessage` takes the body's `message` as an optional string. A body that is missing altogether, which would throw inside the catch block, is not modelled.
- The `externalInputs` property that the page passes to the search box is left out, because the box never reads it.
- The authentication service behind `login` and `register` is not part of this model; the store actions take the user and the token as given.
- `ValidateIp`: a non-string argument is modelled as `None`. Only strings reach the patterns.
