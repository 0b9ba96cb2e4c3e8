# home-server, modelled in Dafny

home-server is a self-hosted link navigator built with Next.js. It stores links, categories and tags. It decides which hosts count as "internal". It looks up and caches favicons. The public home page shows links grouped by category, and a search page answers queries. This project models the decision logic of that system as pure Dafny functions over immutable data and proves properties of it:

- **Locality.** Four host classifiers, each written as a rule table (`Locality`):
  - `isInternalUrl`
  - `isUrlInLocalNetwork`
  - the allow-list of the network probe
  - the private-IP test of the network test
- **Icons.**
  - `getLinkIcon` (`LinkIcon`).
  - The `POST`/`GET` icon route, with its URL priority and write-back (`IconRoute`).
  - The local-icon route (`LocalIconRoute`).
  - The default-icon route, with its 32-bit string hash and hue (`DefaultIcon`).
  - The browser-side candidate chain of `fetchIconOnClient`, plus the three small server clients (`ClientIcon`).
- **Routes over the store.** The database is three maps keyed by id (`Records.Db`). The routes are:
  - link creation (`LinksRoute`)
  - the category list and category creation (`CategoriesRoute`)
  - search (`SearchRoute`)
  - the home page's listing, grouping and section order (`HomePage`)
  - the network probe (`NetworkProbe`)
  - the network test (`NetworkTest`)
- **Client state.** The admin link form's handlers and effects (`LinkForm`), `hexToRgb` of the card component (`CoolCard`), and the network-preference provider (`NetworkContext`).

## How the outside world is modelled

Everything the code does not decide itself is an input:

- **URL parsing.** WHATWG `new URL(…)` is a `Parser` (a function from text to an optional hostname and origin). `new URL(href, base)` is a `Resolver`.
- **Sessions.** A session check is a boolean.
- **Database failures.**
  - A failing database read or write is a flag (`readOk`, `writeOk`). `readOk` covers the lookups of the search, category list, category creation, icon `POST`/`GET` and local-icon routes; each failure ends in that route's 500.
  - The id the database assigns to a new row is an argument. A clash with a stored id models a failing insert (500).
- **Browser side.**
  - Each image load is an outcome function `Candidate -> Option<string>`.
  - Each page fetch is the parsed page, or `None` for a failing or non-ok fetch.
  - Canvas availability is a flag.
  - Browser storage is the value under the storage key, passed in and handed back.
- **JavaScript semantics** are written out explicitly (`Js`):
  - truthiness of optional strings
  - `||`
  - `Boolean(…)`
  - `ToInt32` wrap-around for `<<` and `-`
  - the truncating `%`
  - `Math.abs`
  - `String(bool)`

Database ordering (`orderBy: asc`) is code-unit lexicographic order (`Strings.LexLe`). Rows that tie may come in any order.

## Behaviours of the code that are easy to miss

- **172.16.0.0/12 and 127.0.0.1.** `isInternalUrl` (src/lib/utils.ts:48-54) has no 172.x rule and no 127.x rule. So `172.16.0.1` and `127.0.0.1` are *not* internal there. The probe route's allow-list (src/app/api/network-probe/route.ts:20-24) accepts the whole 172.16.0.0/12 block, and the network test (src/app/api/network-test/route.ts:11-14) counts both addresses as private. `Locality.Block172Disagreement` and `Locality.LoopbackDisagreement` state the disagreements.
- **Default-icon hue.** The code computes `Math.abs(hash % 360)` with JavaScript's truncating remainder (src/app/api/default-icon/route.ts:28). That is the absolute value of the hash modulo 360, not a floored modulus: a hash of -1 gives hue 1, not 359. `DefaultIcon.Hue` follows the code.
- **Local-icon route.** The route has no session check. It rejects a stored link only when its non-empty `url` fails `isInternalUrl` (src/app/api/local-icon/route.ts:36-41). The link's `isInternalOnly` flag plays no part.
- **Links POST flags.** The route passes `Boolean(isPublic)` (src/app/api/links/route.ts:47), so an omitted `isPublic` creates a hidden link (`LinksRoute.MissingIsPublicHides`).

## Model

| member | source | states |
|---|---|---|
| Locality.InternalHostIff | src/lib/utils.ts:48-54 | a hostname is internal iff it is "localhost", starts with "192.168." or "10.", or ends with ".local" or ".lan" |
| Locality.InternalUrlIff | src/lib/utils.ts:43-58 | `isInternalUrl` is the internal-host test of the parsed hostname, and false (never an error) when the URL does not parse |
| Locality.LocalNetworkHostIff | src/lib/client-utils.ts:382-398 | the client's local-network test is the internal test plus hostnames starting with "127.0.0.1" |
| Locality.InternalUrlIsLocalNetwork | src/lib/client-utils.ts:387-394 | every internal URL is also a local-network URL |
| Locality.AnyHoldsIff | src/lib/utils.ts:48-54 | a rule table accepts a host iff one of its rules does, so the `\|\|` chains are rule tables |
| Locality.WiderTableAcceptsMore | src/lib/client-utils.ts:387-394 | a rule table containing another accepts at least what the smaller one accepts |
| Locality.Block172Numeric | src/app/api/network-probe/route.ts:21 | the `172\.(1[6-9]\|2[0-9]\|3[0-1])\.` pattern holds iff the second octet is two digits with value 16..31 followed by "." |
| Locality.ProbeTargetIff | src/app/api/network-probe/route.ts:20-24 | a probe target is allowed iff it is an internal host or matches the 172.16/12 prefix |
| Locality.PrivateIpIff | src/app/api/network-test/route.ts:11-14 | a client IP is private iff it has a 10./172.16-31./192.168. prefix or is exactly 127.0.0.1 or ::1 |
| Locality.InternalHostIsProbeTarget | src/app/api/network-probe/route.ts:20-24 | every internal host is an allowed probe target |
| Locality.PrivateIpIsProbeTarget | src/app/api/network-test/route.ts:11-14 | every private IP other than the two loopback spellings is an allowed probe target |
| Locality.Block172Disagreement | src/lib/utils.ts:48-54 | 172.16.0.1 is a private IP and a probe target, but neither internal nor local-network |
| Locality.LoopbackDisagreement | src/lib/utils.ts:48-54 | 127.0.0.1 is local-network and private, but neither internal nor a probe target |
| Locality.Block172NeighboursRefused | src/app/api/network-probe/route.ts:21 | 172.15.0.1 and 172.32.0.1 fall outside the 172 block and are refused |
| Locality.PublicAddressRefused | src/app/api/network-probe/route.ts:20-31 | a public address such as 8.8.8.8 is refused |
| Locality.PrefixAcceptsHostName | src/app/api/network-probe/route.ts:21 | the prefix test is not anchored at the end, so "10.example.com" passes |
| Locality.UnknownIsNotPrivate | src/app/api/network-test/route.ts:5-14 | the "unknown" placeholder IP is not private |
| LinkIcon.GetLinkIcon | src/lib/utils.ts:26-38 | never empty; a non-empty stored icon verbatim; otherwise the s2 favicon URL whose domain is exactly the parsed hostname; the placeholder when the URL does not parse |
| LinkIcon.S2RoundTrip | src/lib/utils.ts:34 | the domain read back from a generated s2 URL is the hostname put in |
| LinkIcon.PlaceholderIsNotS2 | src/lib/utils.ts:35-37 | the placeholder can never be mistaken for an s2 URL |
| LinkIcon.GetLinkIconIgnoresExternalUrl | src/lib/utils.ts:26-38 | the result depends only on `icon` and `url` |
| IconRoute.ServerIcon | src/app/api/icon/route.ts:58-67 | an internal URL gets the network icon; any other parseable URL gets the s2 URL of its hostname; never empty |
| IconRoute.UrlToUse | src/app/api/icon/route.ts:56 | priority body `url`, then `externalUrl`, then `link.url`; truthy iff one of them is |
| IconRoute.PostIcon | src/app/api/icon/route.ts:46-72 | a `data:` upload is used verbatim; otherwise the server icon of the prioritised URL; null only with no upload and no URL at all |
| IconRoute.Post | src/app/api/icon/route.ts:12-93 | 401 before anything else, 400 without `linkId`, 500 when the lookup fails, 404 for an unknown link, none of which writes; for a stored link the request succeeds iff the write succeeds or there is no icon to write; on 200 the store changes only when the icon is non-null and then only that link's icon; 500 only on a failing read or write |
| IconRoute.Get | src/app/api/icon/route.ts:98-168 | 400 only when both parameters are missing, never 404; 500 exactly when a `linkId` lookup fails; a stored icon returned unchanged without a write; unknown link and no URL gives icon null; a given `url` is resolved and, for a found link, written back; with only `linkId` the link's `externalUrl`, else its `url`, is resolved and written back, and null when both are empty; a failing write answers the placeholder and writes nothing |
| IconRoute.GetCachesIcon | src/app/api/icon/route.ts:114-149 | after a successful write-back a second `GET` returns the stored icon, even with a different parser or URL |
| LocalIconRoute.Check | src/app/api/local-icon/route.ts:16-41 | 400 for a missing `linkId` or a non-`data:` icon, then 500 when the lookup fails, then 404 for an unknown link, then 400 "internal links only" for a non-empty non-internal `link.url`; an empty URL skips the last check |
| LocalIconRoute.Post | src/app/api/local-icon/route.ts:11-60 | 200 iff every check passes, the lookup succeeds and the write succeeds, and then only that link's icon changes to the upload; no other status writes; 500 only on a failing read or write |
| LocalIconRoute.ExternalLinkRejected | src/app/api/local-icon/route.ts:36-41 | a stored link with an external URL is refused with 400 and nothing written |
| DefaultIcon.Hash | src/app/api/default-icon/route.ts:22-27 | the loop `hash = c + ((hash << 5) - hash)` with the 32-bit wrap of `<<`; bounded by the input length |
| DefaultIcon.HashBound | src/app/api/default-icon/route.ts:23-26 | below 2^21 code units the hash stays inside the exactly representable doubles |
| DefaultIcon.HashIsPolynomial | src/app/api/default-icon/route.ts:23-26 | while no wrap occurs the hash is the base-31 polynomial of the code units |
| DefaultIcon.ColorFromString | src/app/api/default-icon/route.ts:22-30 | the background is hsl(hue, 70%, 60%) with the hue in [0,360), equal to \|hash\| mod 360 of the string |
| DefaultIcon.Hue | src/app/api/default-icon/route.ts:28 | `Math.abs(hash % 360)` with a truncating remainder: in [0,360) and equal to \|hash\| mod 360 |
| DefaultIcon.Get | src/app/api/default-icon/route.ts:17-54 | `char` defaults to "A" and `name` to ""; the glyph is the upper-cased first code unit of `char`; the colour comes from `name` if non-empty, else from `char` |
| DefaultIcon.GlyphUsesFirstCodeUnit | src/app/api/default-icon/route.ts:51 | only the first code unit of `char` reaches the glyph, and with a name nothing else of `char` matters |
| NetworkProbe.Get | src/app/api/network-probe/route.ts:8-68 | 400 without a target, 403 for a target outside the allow-list and then no request is issued; otherwise exactly one request to protocol + "://" + target, and its outcome mapped to reachable/status or connection failure |
| NetworkProbe.Head | src/app/api/network-probe/route.ts:70-78 | 400 without a target, 200 otherwise, without any request |
| NetworkProbe.PublicTargetNeverContacted | src/app/api/network-probe/route.ts:26-31 | a public address is refused with 403 and never fetched |
| NetworkProbe.DottedQuadOf | src/app/api/network-probe/route.ts:38 | four digit runs joined by dots are a dotted quad, so they are probed over http |
| NetworkProbe.DottedQuadChars | src/app/api/network-probe/route.ts:38 | a dotted quad holds only digits and dots |
| NetworkProbe.NamedTargetUsesHttps | src/app/api/network-probe/route.ts:37-40 | a target with a non-digit, non-dot character and no "localhost" is probed over https |
| NetworkTest.ClientIp | src/app/api/network-test/route.ts:5-8 | `x-real-ip` if non-empty, else `x-forwarded-for` if non-empty, else "unknown" |
| NetworkTest.Get | src/app/api/network-test/route.ts:3-27 | success, the chosen client IP, and the private-IP verdict reported three times |
| NetworkTest.Head | src/app/api/network-test/route.ts:29-32 | always 200 |
| Strings.ContainsIff | src/app/api/search/route.ts:21-25 | `includes`/`contains` holds iff the pattern occurs at some index |
| Strings.LexLeTotal | src/app/api/search/route.ts:35-44 | any two titles are ordered one way or the other |
| Strings.LexLeTransitive | src/app/api/search/route.ts:35-44 | the title order is transitive |
| Strings.JoinSplit | src/app/api/network-probe/route.ts:38 | splitting on "." and joining again gives back the text |
| Queries.OrderedKeys | src/app/api/search/route.ts:35-44 | the ids of exactly the rows passing the filter, each once, ascending by the sort key |
| SearchRoute.Search | src/app/api/search/route.ts:7-57 | an empty query answers 200 with [] before any read; a failed read is 500; otherwise exactly the public rows mentioning the query in title, URL or non-null description, without internal-only rows for visitors with no session, each once, ascending by title |
| HomePage.GetLinks | src/app/page.tsx:6-21 | exactly the public rows, each once, ascending by title |
| HomePage.InCategory | src/app/page.tsx:30-40 | the links whose category has that name, and no others |
| HomePage.CategoryNames | src/app/page.tsx:30-40 | the category names present, each once |
| HomePage.Group | src/app/page.tsx:27-40 | the buckets follow first appearance of the names; each bucket holds exactly its category's links in input order; the uncategorized list holds exactly the links without a category |
| HomePage.EveryLinkPlacedOnce | src/app/page.tsx:30-40 | a categorized link is in its own bucket and no other, and not in the uncategorized list; an uncategorized link is in that list and in no bucket |
| HomePage.NoEmptyBucket | src/app/page.tsx:33-36 | no category bucket is empty |
| HomePage.Entries | src/app/page.tsx:53 | `Object.entries` loses or adds no bucket; array-index names come first, ascending by value |
| HomePage.EntriesKeepInsertionOrder | src/app/page.tsx:53 | without array-index-like names the sections follow first appearance |
| HomePage.Sections | src/app/page.tsx:53-76 | one section per category bucket, in `Object.entries` order of the buckets, then an "other" section exactly when some link has no category, and it is last |
| HomePage.SectionOrder | src/app/page.tsx:27-76 | when no category name looks like an array index, the i-th section is the i-th category name in order of first appearance, holding exactly that category's links |
| HomePage.Home | src/app/page.tsx:23-80 | the sections are exactly those of the grouped listing (the public rows, each once, ascending by title); every rendered section has at least one card, and "other" appears iff some public link has no category |
| CategoriesRoute.Get | src/app/api/categories/route.ts:7-20 | every category exactly once, ascending by name; 500 when the read fails |
| CategoriesRoute.Post | src/app/api/categories/route.ts:23-62 | 401 for non-admins, then 400 for a missing or empty name, then 500 when the name lookup fails, then 400 for a taken name; 201 iff all pass and the insert succeeds, storing the new row with the body's fields; nothing written otherwise |
| CategoriesRoute.PostKeepsNamesUnique | src/app/api/categories/route.ts:39-55 | one POST keeps category names pairwise distinct and the table well keyed |
| CategoriesRoute.ReplayKeepsNamesUnique | src/app/api/categories/route.ts:39-55 | any series of POSTs keeps names pairwise distinct |
| CategoriesRoute.SecondPostRefused | src/app/api/categories/route.ts:39-46 | the same name posted twice is never created the second time, and with a working lookup it is refused with 400 (or 401) |
| LinksRoute.Post | src/app/api/links/route.ts:7-68 | 401 for non-admins, then 400 when title or URL is missing or empty; 201 iff those pass and the category, tags and id are valid; 201 adds exactly one row and changes nothing else |
| LinksRoute.TagsOf | src/app/api/links/route.ts:49-53 | the connected tags are exactly the named ones, each once |
| LinksRoute.CreatedRow | src/app/api/links/route.ts:40-55 | the created row carries the body's fields, both flags by `Boolean(…)`, no external URL, the named category and exactly the named tags |
| LinksRoute.MissingIsPublicHides | src/app/api/links/route.ts:47 | an omitted `isPublic` creates a link that is not public |
| LinksRoute.PostKeepsWellKeyed | src/app/api/links/route.ts:40-55 | the links table stays keyed by id |
| LinkForm.HandleChange | src/components/admin/LinkForm.tsx:59-78 | only the named field changes; a non-empty URL also sets `isInternalOnly := isInternalUrl(value)`; an empty URL leaves the flag alone |
| LinkForm.IndexOf | src/components/admin/LinkForm.tsx:83 | the first position of the id, or -1 exactly when absent |
| LinkForm.ToggleTag | src/components/admin/LinkForm.tsx:80-93 | an absent id is appended at the end; a present id loses its first occurrence and everything else keeps its order; the multiset gains or loses exactly that id; without duplicates membership flips and no duplicate appears |
| LinkForm.ToggleTwiceRestores | src/components/admin/LinkForm.tsx:80-93 | toggling an absent id twice restores the list exactly |
| LinkForm.ToggleTwiceSameTags | src/components/admin/LinkForm.tsx:80-93 | toggling a present id twice keeps the same set of tags, still without duplicates |
| LinkForm.NewModeEffect | src/components/admin/LinkForm.tsx:51-55 | in new-link mode an internal URL forces `isInternalOnly` on and the effect never turns it off |
| LinkForm.NewModeStep | src/components/admin/LinkForm.tsx:39-78 | after typing a non-empty URL the flag equals `isInternalUrl` of it |
| LinkForm.NewModeRunNoDuplicates | src/components/admin/LinkForm.tsx:80-93 | however the form is used, the selected tag ids hold no duplicate |
| LinkForm.EditUrlChangeIsReverted | src/components/admin/LinkForm.tsx:39-57 | as written, any URL change in edit mode resets the whole form to the stored link |
| LinkForm.EditUrlCounterexample | src/components/admin/LinkForm.tsx:39-57 | typing "b" over a stored URL "a" leaves the field at "a" |
| LinkForm.EditModeStep | src/components/admin/LinkForm.tsx:59-93 | the corrected edit step: the handler's field is stored and tags only move on a tag event |
| LinkForm.EditUrlChangeKept | src/components/admin/LinkForm.tsx:59-78 | with the correction the typed URL is kept and the other text fields are untouched |
| LinkForm.SubmitPayload | src/components/admin/LinkForm.tsx:110-115 | empty description, icon and category become null and nothing else changes; reading back with `\|\| ""` gives the form's text |
| LinkForm.EditInitRoundTrip | src/components/admin/LinkForm.tsx:40-50 | saving an unchanged edit form sends back the stored link's fields and its tag ids in order |
| LinkForm.Submit | src/components/admin/LinkForm.tsx:95-116 | nothing while submitting; PUT to /api/links/{id} when editing (with "undefined" for a missing link), POST to /api/links otherwise, carrying the payload |
| LinkForm.SubmittedFormAccepted | src/app/api/links/route.ts:32-47 | a submitted new-link form passes the route's required-field check iff title and URL are filled, and the created link keeps both checkboxes |
| CoolCard.ParseHex | src/components/CoolCard.tsx:34-43 | a match exactly for an optional "#" and six hex digits in either case, with components in 0..255 |
| CoolCard.HexToRgb | src/components/CoolCard.tsx:34-43 | components in 0..255; anything not matching gives (124, 58, 237) |
| CoolCard.ParseToHex | src/components/CoolCard.tsx:35-41 | encoding a colour as #rrggbb and decoding gives it back |
| CoolCard.ToHexParse | src/components/CoolCard.tsx:35-41 | decoding and re-encoding gives the lower-cased text with one "#" |
| CoolCard.DefaultIsFallback | src/components/CoolCard.tsx:29 | the default "#7c3aed" decodes to exactly the fallback triple |
| CoolCard.CaseInsensitive | src/components/CoolCard.tsx:35 | upper- and lower-case spellings decode identically |
| CoolCard.HashOptional | src/components/CoolCard.tsx:35 | a text without "#" decodes like the same text with one |
| CoolCard.DoubleHashRejected | src/components/CoolCard.tsx:35 | two leading "#" never match |
| NetworkContext.Exposed | src/contexts/NetworkContext.tsx:52-75 | false before mount whatever the state; the preference after |
| NetworkContext.Mount | src/contexts/NetworkContext.tsx:34-40 | a stored value sets the preference to whether it is exactly "true"; no stored value keeps it |
| NetworkContext.Toggle | src/contexts/NetworkContext.tsx:43-50 | negates the preference and, in a browser, stores its string form; elsewhere storage is untouched |
| NetworkContext.ToggleThenRemount | src/contexts/NetworkContext.tsx:36-49 | after a toggle a fresh mount from storage reproduces the preference |
| NetworkContext.ToggleTwice | src/contexts/NetworkContext.tsx:43-50 | two toggles restore the preference, and the stored string when it agreed before |
| NetworkContext.TogglesParity | src/contexts/NetworkContext.tsx:43-50 | after n toggles the preference is flipped iff n is odd, and storage agrees after at least one toggle in a browser |
| NetworkContext.OnlyTrueTurnsOn | src/contexts/NetworkContext.tsx:37-39 | any stored text other than "true" mounts as false |
| NetworkContext.UseNetwork | src/contexts/NetworkContext.tsx:79-85 | an error outside a provider; inside, the exposed preference |
| ClientIcon.WellKnownCandidates | src/lib/client-utils.ts:24-29 | the four well-known paths under the origin, in fixed order |
| ClientIcon.IconLinkTags | src/lib/client-utils.ts:134-141 | exactly the link tags with one of the four `rel` values, every "icon" before every "shortcut icon", and so on |
| ClientIcon.TagCandidate | src/lib/client-utils.ts:143-148 | one attempt exactly when the tag's `href` is non-empty and resolves against the origin, at the resolved URL |
| ClientIcon.HrefCandidates | src/lib/client-utils.ts:143-189 | exactly the tags with a non-empty `href` that resolves against the origin, no more attempts than tags |
| ClientIcon.HrefCandidatesSingle | src/lib/client-utils.ts:143-148 | a single tag yields exactly its own attempt |
| ClientIcon.HrefCandidatesConcat | src/lib/client-utils.ts:143-189 | attempts follow tag order: those of `a + b` are those of `a`, then those of `b` |
| ClientIcon.WithRelConcat | src/lib/client-utils.ts:134-141 | `querySelectorAll` for one `rel` keeps document order across a concatenation |
| ClientIcon.LinkTagAttemptsByRel | src/lib/client-utils.ts:134-189 | the attempts of a stage are those of the "icon" tags, then "shortcut icon", then "apple-touch-icon", then "apple-touch-icon-precomposed", each in document order |
| ClientIcon.FirstLogo | src/lib/client-utils.ts:192-211 | the first image passing the logo filter, and none when no image passes |
| ClientIcon.LogoCandidates | src/lib/client-utils.ts:206-255 | at most one logo attempt, and exactly one when the first logo image's `src` resolves: that image's resolved URL |
| ClientIcon.StageRuns | src/lib/client-utils.ts:116-337 | the local stage tries its link tags and then the logo; the page stage tries only its link tags |
| ClientIcon.Candidates | src/lib/client-utils.ts:59-341 | the well-known paths first, then the local-page stage (only for a local-network URL whose page was fetched), then the page stage; stages never go backwards |
| ClientIcon.CandidatesLayout | src/lib/client-utils.ts:59-341 | the whole local stage follows the well-known paths whenever it runs, the whole page stage closes the chain whenever its page was fetched, and nothing else is tried |
| ClientIcon.FirstSuccess | src/lib/client-utils.ts:106-108 | the outcome of the first candidate that loads to a non-empty data URL, and none exactly when none does |
| ClientIcon.LaterCandidatesNotTried | src/lib/client-utils.ts:59-113 | outcomes after the first success never change the result |
| ClientIcon.FirstSuccessConcat | src/lib/client-utils.ts:59-189 | a later run of attempts is tried only when every earlier one failed |
| ClientIcon.WellKnownWins | src/lib/client-utils.ts:59-116 | when a well-known path loads, neither page fetch matters |
| ClientIcon.BadgeLetter | src/lib/client-utils.ts:41 | the upper-cased first hostname code unit, or "A" for an empty hostname |
| ClientIcon.LetterHueInRange | src/lib/client-utils.ts:42 | letters A..Z give a hue in [0,360) |
| ClientIcon.DigitHueNegative | src/lib/client-utils.ts:42 | a digit-initial host gives a negative hue |
| ClientIcon.FetchIconOnClient | src/lib/client-utils.ts:11-349 | null outside a browser or for an unparseable URL; the first loaded candidate otherwise; the letter badge when none loads; null when no canvas context exists |
| ClientIcon.IconQuery | src/lib/client-utils.ts:444-446 | `linkId` before `url`, each only when non-empty |
| ClientIcon.IconFromAnswer | src/lib/client-utils.ts:450-459 | the icon of an ok answer when non-empty; null for anything else or an exception |
| ClientIcon.GetIconFromRoute | src/lib/client-utils.ts:439-460 | against the icon route: refused only without both parameters; a failing lookup reaches the client as null; a stored icon reaches the client |
| ClientIcon.QueryRoundTrip | src/lib/client-utils.ts:444-448 | the route reads back exactly the non-empty parameters sent |
| ClientIcon.SaveIconRoundTrip | src/lib/client-utils.ts:406-434 | an admin saving a `data:` icon for a stored link gets that icon back, and the link holds it |
| ClientIcon.SavedLocally | src/lib/client-utils.ts:356-377 | `response.ok`, false when the fetch throws |
| ClientIcon.SaveLocalIconReport | src/lib/client-utils.ts:356-377 | the client reports success exactly when the local-icon route answered 200, and then the link holds the uploaded icon |
| NetworkProbe.JoinOfDigitRuns | src/app/api/network-probe/route.ts:38 | digit runs joined by dots contain only digits and dots |

## Left out

- Network and browser I/O is left out: real fetches, image loading, canvas drawing, `toDataURL`, DOMParser, AbortController, and the 1000/1500/2000/3000 ms timeouts. Each is an outcome passed in. The `?t=Date.now()` cache-busting suffix on image URLs is dropped with the clock.
- WHATWG URL parsing and relative resolution are parameters (`Parser`, `Resolver`), not implementations.
- next-auth session lookup is a boolean. bcrypt is not modelled.
- Prisma is not modelled. The database is three maps. Its `orderBy` is code-unit order, and ties between equal keys come in an unspecified order. Its `contains … mode: insensitive` is ASCII lower-casing. Its foreign-key and unique-key failures are the 500 branches.
- Unicode case mapping beyond ASCII is not modelled, and neither are characters outside the basic plane. `toUpperCase` of a character that upper-cases to two (such as "ß") is not modelled.
- Timestamps (`createdAt`, `updatedAt`, the network test's `timestamp`) are left out. So are the rendered SVG/HSL markup and the cropping geometry of the logo image.
- A request body that is not JSON makes `request.json()` throw, and every `POST` then answers its generic 500. The model starts from the parsed body. This applies to IconRoute.Post, LocalIconRoute.Post, CategoriesRoute.Post and LinksRoute.Post.
- JSON bodies whose fields have the wrong type (a number where a string is expected) are left out. Such requests end in the routes' generic 500 and are not modelled.
- Concurrency is left out: the check-then-create race in category POST, and concurrent icon write-backs.
- The `catch` branches of the icon route that turn an exception from `isInternalUrl` or `getLinkIcon` into the placeholder cannot be reached, because neither throws. The only failures modelled there are the database lookup and write.
- src/app/api/proxy-icon/route.ts is not part of this model: it is a pure network proxy plus base64 encoding. The UI-only helpers `cn` and `formatDate` are not part of this model either.
- HomePage.Home: a category named like an `Object.prototype` member (such as "constructor" or "toString") reads as an existing bucket in `linksByCategory[name]`, so the page would call `push` on a function and fail. The model treats every name as a fresh key.
- HomePage.GetLinks: a failing read makes the page error out. The model does not include that path.
- DefaultIcon.ColorFromString: requires fewer than 2^21 code units. Beyond that, the double-precision arithmetic of the hash may round, and the model does not follow it.
- DefaultIcon.Get: requires the text the colour is hashed from (`name` when non-empty, else `char`) to have fewer than 2^21 code units, for the same reason. `char` beyond its first code unit is otherwise unrestricted.
- LinkForm.NewModeStep: React's batching of the two `setFormData` calls in one handler is modelled as applying them in order. The effect re-running on a change of `isEditing` or `link` is not modelled.
- NetworkContext.Toggle: React state updates are modelled as immediate. A second click that reads a stale `useInternalNetwork` before re-render is not modelled.

## Findings

| source | as written | input that shows it | evidently intended | confidence | as-written member | corrected member |
|---|---|---|---|---|---|---|
| src/components/admin/LinkForm.tsx:39-57 | In edit mode the effect that loads the stored link lists `formData.url` among its dependencies. So every change of the URL field re-runs it and overwrites the whole form with the stored link. | Edit a link whose URL is "a" and type "b" into the URL field: the field shows "a" again, and unsaved edits to other fields are lost too. | Load the stored link once, keeping `formData.url` only for the new-link auto-flag. The typed URL is then kept. | high; not executed | LinkForm.EditModeStepAsWritten (shown by LinkForm.EditUrlChangeIsReverted and LinkForm.EditUrlCounterexample) | LinkForm.EditModeStep (proved by LinkForm.EditUrlChangeKept) |
