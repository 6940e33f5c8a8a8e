# vscode-modx-elements in Dafny

A model of the core of the VS Code extension *vscode-modx-elements*. The extension shows
the chunks, snippets, templates and plugins of MODX sites in a sidebar tree, and opens each
element as a file under the `modx:` scheme. The model covers six parts:

- **The virtual path of an element.** `/<site>/<type>/<id>/<encodeURIComponent(name)><ext>`
  is built by the element node and decoded by the file system provider. It is proved that
  decoding gives back the site, the type, the id and the name for every element of a site
  whose name is non-empty and contains no '/'. The model keeps the weak spots of the
  decoder as they are: segments after the fourth are ignored, the id is never checked (a
  non-numeric id parses as NaN), and only the last `.suffix` is cut.
- **The API endpoint of a site** (`apiBase`) and the normalisation the add-site form applies
  to the URLs it saves (`trimRightSlash`, `normalizeApiPath`, `normalizeApiUrl`,
  `sanitizeForm`, and the record a submit builds).
- **Expanding the tree.** A site expands to its categories, and a category to the elements
  fetched from the remote API. The fetched list is filtered case-insensitively on name or
  content. The filter is stable, it keeps exactly the matching elements, and its label
  write-back leaves every element as it was.
- **The tree provider's state.** This is the filter query, a cache that is only ever
  cleared, the change events, the `noSitesConfigured` context key and the category child
  lists that `addChild` appends to. `getChildren` never reads those lists.
- **The file system provider.** `parse` writes the instance fields. A read turns a reply
  into UTF-8 bytes and a write turns bytes into a request body. A write always fires one
  change event, `stat` is constant, and the directory, delete and rename operations do
  nothing. `init` is not awaited. So the `client` a call uses is whatever an earlier call's
  `init` left there: the first read after activation fails with FileNotFound, and a read of
  one site's element can go out on the client of the site read before.
- **The site list in sites.json**, keyed by `baseUrl`. It supports append, replacement of
  the first match and removal of the first match, with "not found" errors. Text that does
  not parse loads as the empty list.

Module layout: one module per source file (`Types`, `Site`, `ModxFs`, `TreeProvider`,
`AddSiteWebview`, `Config`). `Strings`, `Utf8` and `UriComponent` write out the JavaScript
primitives the code relies on: `toLowerCase`, `indexOf`/`includes`, the slash-trimming
regular expressions, `trim`, `split('/')`, `Number` and number-to-text, Buffer's UTF-8 codec,
and `encodeURIComponent`/`decodeURIComponent`. `Remote` describes what axios sends and
receives. `Wrappers` holds `Option` and `Result`.

Parameters stand for what the model cannot see:

- the remote server is a function `server: Request -> Reply`;
- the secret store is a map from token keys to tokens;
- the URL parser in `isHttpUrl` is a predicate `isHttpUrl: string -> bool`.

Behaviour of the code worth noting:

- A non-numeric id does not make decoding fail; it parses as NaN (`ModxFs.NonNumericIdParses`).
- An unknown site does not fail a read. `getClient` throws inside the un-awaited `init`,
  and `client` keeps its earlier value (`ModxFs.ModxFs.CompleteInit`).
- `readFile` does not degrade on every remote failure. A transport error or a non-2xx status
  rejects the read. A 2xx reply is read whatever its `success` says
  (`ModxFs.ReadReply`, `ModxFs.ReadIgnoresSuccess`).
- The tree provider has no per-category cache of fetched lists. Every expansion fetches
  again, and `addChild` appends to a list that expansion never reads
  (`TreeProvider.AddedChildNotListed`).
- The connection test of the add-site form and the saved record can call different
  endpoints. An API path such as "/https://h/a" is not an http(s) URL, so the test pings
  it below the base URL; once its leading slash is stripped the saved record holds an
  absolute URL and calls that (`AddSiteWebview.PingUrlMissesStrippedAbsolute`).

## Model

| member | source | states |
|---|---|---|
| Types.TypeName | src/types.ts:16 | each element type is the token "mod…" and contains no '/' |
| Types.TypeText | src/types.ts:16 | a null type prints as "null" and any other type as its token; either way a non-empty segment without '/' |
| Types.TypeNameInjective | src/types.ts:16 | distinct types have distinct tokens, so a path segment names at most one type |
| Site.ApiBase | src/site.ts:29-33 | the endpoint always ends in '/' |
| Site.ApiBaseAbsolute | src/site.ts:31 | for an http(s) API URL (any case) the base URL plays no part; the result is the API URL up to its trailing slashes, plus exactly one '/' |
| Site.ApiBaseRelative | src/site.ts:32 | otherwise the result is the base URL without trailing slashes, '/', the API path without slashes at its ends, and '/'; only '/' is cut from either string, so both parts are determined |
| Site.ApiBaseAllSlashes | src/site.ts:32 | an empty or all-slash relative API URL yields a double slash at the end |
| Site.ApiBaseNormalized | src/site.ts:32 | a relative API path that is already normalised (no '/' at either end, then one '/') on a base URL without a trailing '/' is appended to the base as it is |
| Site.ClientFor | src/site.ts:36-46 | the client targets `apiBase()` with an 8000 ms timeout, and sends `Bearer <token>` exactly when the token key holds a non-empty secret |
| Site.CategoryNode.constructor | src/site.ts:88-100 | a category node shares its parent's site, keeps its type and starts with no children |
| Site.NewElementNode | src/site.ts:157-172 | an element node keeps its parent, its element and its parent's type, and its URI is the element's virtual path |
| Site.CreateResourceUri | src/site.ts:174-181 | the virtual path starts with '/' and ends with the type's extension |
| Site.DisplayName | src/site.ts:184-191 | a category is labelled with its type's name without "mod", plural; a null type is "No name" |
| Site.Extension | src/site.ts:175 | ".php" exactly for snippets and plugins, else ".html"; one leading '.', no other '.', no '/' |
| Site.CategoryTypes | src/site.ts:82 | the site's own list of types when it has one (an empty one gives no categories), else the four defaults |
| Site.GetCategories | src/site.ts:81-84 | one fresh category node per type of the site, in order, each with the site as parent |
| Site.FetchElements | src/site.ts:104-115 | the envelope's `data` when the reply resolves and holds an array, else the empty list (rejections and network errors included) |
| Site.Keep | src/site.ts:133-137 | an element is kept exactly when its lower-cased name or content (absent content as "") contains the lower-cased query |
| Site.Label | src/site.ts:140-146 | the label text is the name; there is a highlight exactly when the name contains the query ignoring case, starting at the first such occurrence and as long as the query |
| Site.Relabel | src/site.ts:139-149 | the write-back keeps the list's length and order, and gives each element the label text of its own name |
| Site.RelabelIdentity | src/site.ts:147-148 | the `el.name = lbl.label` write-back leaves every element unchanged |
| Site.KeepAppend | src/site.ts:133 | the filter works element by element over a concatenation |
| Site.FilterEmptyQuery | src/site.ts:127-129 | an empty query returns the fetched list as it is |
| Site.Filter | src/site.ts:124-153 | the filtered list is never longer than the fetched one and holds only fetched elements |
| Site.FilterSelects | src/site.ts:124-153 | a non-empty query keeps exactly the elements that match it, unchanged |
| Site.FilterStable | src/site.ts:124-153 | filtering a concatenation is the concatenation of the filtered parts, so the order is kept |
| Site.FilterOne | src/site.ts:133-150 | a single element survives the filter exactly when it matches |
| Site.ElementNodes | src/site.ts:121 | one element node per element, in order |
| Site.GetElements | src/site.ts:117-122 | one node per filtered fetched element, in order, each with the category as parent and the category's type |
| ModxFs.StripExtension | src/modxFs.ts:44 | only a final '.' followed by at least one non-dot is removed; a name without such a suffix is left alone |
| ModxFs.StripExtensionOfSuffixed | src/modxFs.ts:44 | a name followed by an extension gets the name back, whatever dots the name holds |
| ModxFs.ParsePath | src/modxFs.ts:39-51 | a decoded path has a non-empty site name and a non-empty type, neither containing '/' |
| ModxFs.ParseNotFound | src/modxFs.ts:41-42 | decoding fails with FileNotFound exactly when one of segments 1 to 4 is missing or empty |
| ModxFs.ParseIgnoresExtraSegments | src/modxFs.ts:41 | segments after the fourth do not change the result |
| ModxFs.ParseSegments | src/modxFs.ts:41-50 | a path of four non-empty slash-free segments yields the site, the type, `Number(id)` and the decoded name, or URIError when the name does not decode |
| ModxFs.ResourceUriRoundTrip | src/modxFs.ts:39-51 | decoding the URI of an element node gives back the site name, the type, the id and the name, for every id and name, when the site name is non-empty and slash-free |
| ModxFs.NonNumericIdParses | src/modxFs.ts:43 | the id is not validated: a path whose id segment starts with a letter (such as `/siteA/modSnippet/abc/name.html`) decodes, with id NaN |
| ModxFs.ContentOf | src/modxFs.ts:79 | the content is the element's when present and non-empty, else "" |
| ModxFs.ReadReply | src/modxFs.ts:77-80 | a read fails exactly when axios rejects the reply; otherwise it answers the UTF-8 bytes of the content |
| ModxFs.ReadIgnoresSuccess | src/modxFs.ts:77-80 | the `success` flag of the envelope does not affect the bytes read |
| ModxFs.ReadWithoutContentIsEmpty | src/modxFs.ts:79-80 | a resolved reply without content reads as zero bytes, not as an error |
| ModxFs.WriteReply | src/modxFs.ts:91-102 | a write counts as saved exactly when the reply resolves with `success`; a network error has no response; a non-2xx status reports the status and Location header; a 2xx reply whose envelope lacks `success` is a failure, which reports the envelope's non-empty error, or "Something went wrong" |
| ModxFs.WriteBackSendsReadContent | src/modxFs.ts:80 | saving the bytes a read produced sends back exactly the content that was read |
| ModxFs.FindByName | src/modxFs.ts:27 | the first site with the given name, or none when no site has it |
| ModxFs.ModxFs.constructor | src/modxFs.ts:9-13 | no client, empty fields, null id, no events |
| ModxFs.ModxFs.Parse | src/modxFs.ts:39-51 | the result is the decoded path; on success the four fields take its values, on failure they stay |
| ModxFs.ModxFs.CompleteInit | src/modxFs.ts:19-36 | the client becomes that of the first stored site named by the current `sitename`; with no such site the client is unchanged |
| ModxFs.ModxFs.Stat | src/modxFs.ts:59-66 | always a regular file of size 0, whatever the path |
| ModxFs.ModxFs.ReadDirectory | src/modxFs.ts:68-71 | always empty |
| ModxFs.ModxFs.CreateDirectory | src/modxFs.ts:108 | changes nothing |
| ModxFs.ModxFs.Delete | src/modxFs.ts:109 | changes nothing |
| ModxFs.ModxFs.Rename | src/modxFs.ts:110 | changes nothing |
| ModxFs.ModxFs.ReadFile | src/modxFs.ts:73-81 | parses into the fields, fails with FileNotFound when `client` is null, else GETs `/<type>/<id>` with the parsed fields and answers the reply's bytes |
| ModxFs.ModxFs.WriteFile | src/modxFs.ts:83-105 | parses into the fields, PUTs the parsed name and the decoded bytes to `/<type>/<id>` without following redirects, catches every failure, and appends exactly one Changed event for the path |
| ModxFs.FirstReadFails | src/modxFs.ts:73-75 | the first read after activation fails with FileNotFound |
| ModxFs.ReadUsesEarlierClient | src/modxFs.ts:74-77 | after site A's `init` has finished, a read of site B's element is sent on site A's client |
| TreeProvider.SiteTreeProvider.constructor | src/siteTreeProvider.ts:11-14 | empty query, empty cache, no events |
| TreeProvider.SiteTreeProvider.Refresh | src/siteTreeProvider.ts:16-19 | the cache is empty and one event carrying the node is appended |
| TreeProvider.SiteTreeProvider.SetFilter | src/siteTreeProvider.ts:22-25 | the query is `q`, one whole-tree event is appended, the cache stays empty |
| TreeProvider.SiteTreeProvider.GetTreeItem | src/siteTreeProvider.ts:27-29 | the item itself |
| TreeProvider.SiteTreeProvider.AddChild | src/siteTreeProvider.ts:31-40 | exactly one new element node is appended to the category's children, the earlier ones unchanged, and one event for the category is appended |
| TreeProvider.SiteTreeProvider.GetChildren | src/siteTreeProvider.ts:42-66 | root: one site item per stored site in order, the flag set to whether there are none; site: its fresh categories, one per type in order, each under the site node and on the site's own `ModxSite`; category: its filtered fetched elements under the current query; anything else: nothing |
| TreeProvider.AddedChildNotListed | src/siteTreeProvider.ts:31-62 | expanding a category after `addChild` gives the same items as before it |
| TreeProvider.ListAfterSetFilter | src/siteTreeProvider.ts:22-62 | after `setFilter(q)` a category lists the fetched elements filtered by `q`, in order |
| Config.SitesIn | src/config.ts:35-40 | the stored list, or the empty list when the text does not parse or there is none |
| Config.FirstIndex | src/config.ts:62 | the first index whose baseUrl matches, or -1 when none does |
| Config.FindIndex | src/config.ts:62 | the search loop finds that first index |
| Config.FirstIndexIsFirstMatch | src/config.ts:62 | the first index is the only index that matches with no match before it |
| Config.ReplaceFirst | src/config.ts:61-67 | none when nothing matches; else the same length, the new site at the first match, all other entries unchanged |
| Config.RemoveFirst | src/config.ts:74-80 | none when nothing matches; else one fewer entry, the first match gone, the others in order |
| Config.RemoveFirstMultiset | src/config.ts:79 | removal takes away exactly one entry, the first match |
| Config.RemoveUndoesAdd | src/config.ts:48-81 | removing a site just appended, when no earlier site shares its baseUrl, gives the list back |
| Config.UpdateBackUndoesUpdate | src/config.ts:56-68 | updating back with the replaced entry restores the list |
| Config.SiteStore.LoadSites | src/config.ts:35-40 | a missing file is created holding `[]`; the stored list is returned, or `[]` for text that does not parse |
| Config.SiteStore.AddSite | src/config.ts:48-54 | the stored list is the old one plus the site at the end, and is returned |
| Config.SiteStore.UpdateSite | src/config.ts:56-68 | the first match is replaced and saved, or "Site not found" is thrown and nothing is saved |
| Config.SiteStore.RemoveSite | src/config.ts:70-81 | the first match is spliced out and saved, or "Site not found, did you change the name?" is thrown and nothing is saved |
| AddSiteWebview.NormalizeApiPath | src/webviews/addSiteWebview.ts:298-302 | the result ends in '/'; an empty path gives "vscode-api/" |
| AddSiteWebview.NormalizeApiPathAbsolute | src/webviews/addSiteWebview.ts:300 | an http(s) URL keeps everything up to its trailing slashes, and exactly one '/' ends it |
| AddSiteWebview.NormalizeApiPathRelative | src/webviews/addSiteWebview.ts:301 | any other path keeps what lies between its leading and trailing slashes, then one '/' |
| AddSiteWebview.NormalizedForm | src/webviews/addSiteWebview.ts:298-302 | every normalised path is a path with no slash at either end, followed by one '/' |
| AddSiteWebview.NormalizeApiPathOfNormalForm | src/webviews/addSiteWebview.ts:298-302 | a path with no slash at either end, followed by one '/', comes out of normalisation unchanged |
| AddSiteWebview.NormalizeApiPathStripped | src/webviews/addSiteWebview.ts:298-302 | cutting the slashes off both ends of a normalised path and appending one '/' gives it back |
| AddSiteWebview.NormalizeApiPathIdempotent | src/webviews/addSiteWebview.ts:298-302 | normalising twice is normalising once |
| AddSiteWebview.NormalizeApiUrl | src/webviews/addSiteWebview.ts:303-306 | an http(s) API URL is returned verbatim, with no "ping" |
| AddSiteWebview.SavedApiBase | src/webviews/addSiteWebview.ts:76-82 | a site saved with a relative API path has the endpoint the form shows: the base URL without trailing slashes, '/', and the normalised path |
| AddSiteWebview.PingUrlIsApiBase | src/webviews/addSiteWebview.ts:303-306 | for an API path whose normalised form is not an http(s) URL, the ping URL is the saved site's `apiBase()` followed by "ping" |
| AddSiteWebview.PingUrlMissesStrippedAbsolute | src/webviews/addSiteWebview.ts:303-306 | for an API path that becomes an http(s) URL only once normalised, the ping URL differs from the saved site's `apiBase()` followed by "ping" |
| AddSiteWebview.SanitizeForm | src/webviews/addSiteWebview.ts:307-316 | every text field trimmed, an absent one empty; the checked types when there are any, else the four defaults |
| AddSiteWebview.FieldIdempotent | src/webviews/addSiteWebview.ts:308-311 | trimming a trimmed field changes nothing |
| AddSiteWebview.SanitizeFormIdempotent | src/webviews/addSiteWebview.ts:307-316 | sanitising a sanitised form changes nothing |
| AddSiteWebview.Submit | src/webviews/addSiteWebview.ts:62-68 | a submit is rejected exactly when the sanitised base URL is not an http(s) URL, before anything is stored |
| AddSiteWebview.SavedRecord | src/webviews/addSiteWebview.ts:70-82 | the record has the form's name, or "Unnamed Site" when none was given; the base URL with its trailing slashes trimmed; the normalised API path, which ends in '/'; the checked types; and the token key "modxToken:" plus the sanitised (trimmed) base URL before its trailing slashes are cut, under which the trimmed token is stored, exactly when a token was given |
| AddSiteWebview.SavedSiteSendsToken | src/webviews/addSiteWebview.ts:70-82 | the client of a site saved with a token sends that token as bearer credential |
| AddSiteWebview.SavedSiteCategories | src/webviews/addSiteWebview.ts:62-82 | a saved site expands to the checked types, or to all four when none was checked |
| Strings.Lower | src/site.ts:131 | same length, each ASCII capital lowered, every other character kept |
| Strings.IndexOf | src/site.ts:143 | the first occurrence of the needle, or -1 when there is none |
| Strings.Includes | src/site.ts:134-135 | true exactly when the needle occurs somewhere |
| Strings.TrimRightSlash | src/webviews/addSiteWebview.ts:297 | a prefix of the input with no trailing '/', and everything removed is '/' |
| Strings.TrimRightSlashIdempotent | src/webviews/addSiteWebview.ts:297 | trimming twice is trimming once |
| Strings.TrimLeftSlash | src/site.ts:32 | a suffix of the input with no leading '/', and everything removed is '/' |
| Strings.StripSlashes | src/site.ts:32 | the path with its slashes cut at both ends has no '/' at either end |
| Strings.StripSlashesSpan | src/site.ts:32 | that path is the stretch of the input between its leading and its trailing slashes |
| Strings.StripSlashesIdempotent | src/site.ts:32 | stripping the slashes at both ends twice is stripping them once |
| Strings.Trim | src/webviews/addSiteWebview.ts:308-311 | `trim` returns the piece of its input between a leading and a trailing run of white space, with no white space at either end of the piece |
| Strings.TrimIdempotent | src/webviews/addSiteWebview.ts:308-311 | `trim` twice is `trim` once |
| Strings.Split | src/modxFs.ts:41 | at least one piece, and no piece contains '/' |
| Strings.JoinSplit | src/modxFs.ts:41 | joining the pieces with '/' gives the path back |
| Strings.SplitAtSlash | src/modxFs.ts:41 | splitting `a/b` is splitting `a` followed by splitting `b` |
| Strings.SplitFourSegments | src/modxFs.ts:41 | `/a/b/c/d` with slash-free segments splits into "", a, b, c and d |
| Strings.NumberOf | src/modxFs.ts:43 | `Number` of blank text is 0, and any text read as a number ends (after trimming) in a digit |
| Strings.NumberOfNumberText | src/modxFs.ts:43 | `Number` of an integer's text is the integer |
| Strings.NumberOfDigits | src/modxFs.ts:43 | `Number` of a string of digits is their decimal value |
| Strings.NumberOfMinusDigits | src/modxFs.ts:43 | `Number` of '-' followed by digits is the negated decimal value |
| Strings.NumberOfLetterIsNaN | src/modxFs.ts:43 | text that starts with a letter is NaN |
| Utf8.EncodeChar | src/modxFs.ts:80 | each character becomes one to four bytes: a lead byte announcing the length, then continuation bytes |
| Utf8.Encode | src/modxFs.ts:80 | a string becomes between one and four bytes per character |
| Utf8.Decode | src/modxFs.ts:80-88 | decoding yields at most one character per byte |
| Utf8.DecodeEncode | src/modxFs.ts:80-88 | decoding UTF-8 bytes produced from a string gives the string back |
| UriComponent.Encode | src/site.ts:179 | the encoded name contains no '/' |
| UriComponent.Decode | src/modxFs.ts:45 | a successful decode is never longer than its input |
| UriComponent.DecodeEncode | src/modxFs.ts:45 | `decodeURIComponent(encodeURIComponent(s))` is `s` for every string |
| UriComponent.DecodeWithoutEscapes | src/modxFs.ts:45 | a string with no '%' decodes to itself |

## Left out

- The webview UI: the HTML, CSS and script of `getHtml`, and `getNonce`, which uses `Math.random`.
- The panel message plumbing: the ping request, the add-or-update dispatch after the record is built, the delete message, and cancel. These are UI and network.
- The edit flow's replacement of `existingSite.tokenKey` by the token itself before the page is rendered. This is UI state.
- src/extension.ts: command registration, input boxes and VS Code wiring. It is not part of this model.
- Building the axios instance and the HTTP transport. A request is a value (`Remote.Request`), and the server answering it is the parameter `server`.
- Reading the secret store, writing sites.json to disk and creating the storage directory. The store is a map, and the file is the field `Config.SiteStore.file`.
- The asynchronous interleaving of `init`. The model is sequential: `parse` writes the fields at once, and the late assignment of `client` is the separate method `ModxFs.ModxFs.CompleteInit`.
- Event emitters as a subscription mechanism. Fired events are an appended log.
- Tree item presentation: icons, tooltips, `contextValue`, collapsible state, and the `vscode.open` command of an element node. The `Date.now()` timestamps of `stat` are left out as well.
- `console.log` output and `showErrorMessage` calls. `WriteStatus` keeps what a write would log: status and Location header, or the error text.
- Strings.Lower: only ASCII letters are lowered. Full Unicode case mapping is not modelled.
- Strings.NumberOf: only optional sign plus decimal digits (after `trim`) is read as a number, and "" is 0. Fractions, exponents, hexadecimal and `Infinity` are read as NaN, and "-0" is read as 0 (JavaScript's -0, which also prints as "0"). IEEE doubles are not modelled, so the round trip holds for integers of any size.
- Utf8.Decode: each byte that does not start a valid sequence becomes one U+FFFD. The WHATWG rule that replaces a maximal ill-formed subpart with a single U+FFFD is not modelled. Lone surrogates cannot occur, because Dafny strings hold Unicode scalar values.
- The `URL` parser behind `isHttpUrl`. It is the parameter `isHttpUrl`.
- JSON: a reply is already a typed envelope. An object `data` on a list request is `Payload.One`, which gives the empty list. Field values of other JSON types are not modelled.
- `vscode.Uri` serialisation of the resource URI. The model works on the path string.
- Site.SiteNode: the `ModxSite` instance built in the constructor is the function `SiteNode.Site()`. A value-level node cannot express that two categories share one instance.
- Site.Label: highlight offsets count code points, while VS Code counts UTF-16 code units; they differ for names with characters outside the Basic Multilingual Plane.
- Site.Relabel: `filter` writes `el.name` into the fetched objects in place. The model works on values and proves that the write-back stores the name it read.
- ModxFs.ModxFs.CompleteInit: takes the site list from a `SiteStore`. The `context` that `getClient` needs is always present here.
