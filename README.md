# Cover-art provider dispatch and HTTP fixture conversion, in Dafny

This project models three pieces of the `mb-userscripts` suite and proves properties of them.

1. **The provider registry** of the cover-art importer
   (`src/mb_enhanced_cover_art_uploads/providers/index.ts`). Every provider is
   registered under each domain it claims. A URL is dispatched on its host
   name with one leading `www.` removed. The provider found is kept only if
   it recognises the URL.
2. **The common provider base** (`providers/base.ts`). It holds the
   redirect-safety rule, the decision to refuse a fetched page that was
   redirected to a possibly different release, the artwork type codes, and the
   shared finder that returns the page's `og:image` as the single front cover.
3. **The HTTP recording fixtures** (`tests/unit/utils/pollyjs/headers.ts`,
   `tests/unit/utils/pollyjs/warc-persister/warc2har.ts`). These are conversions
   between header representations, and the translation of a WARC archive's
   request, response and metadata records into the entries of a HAR log.

Modules:

| file | module | models |
|---|---|---|
| `wrappers.dfy` | `Wrappers` | `Option` (for `undefined`/`null`) and `Result` (for thrown errors) |
| `strings.dfy` | `Strings` | `String.prototype.split` with a non-empty separator, and `Array.prototype.join` |
| `records.dfy` | `Records` | filling a record or `Map` one assignment at a time (`Object.fromEntries`, `forEach` loops, repeated `set`) |
| `provider_base.dfy` | `ProviderBase` | `base.ts` |
| `provider_registry.dfy` | `ProviderRegistry` | `index.ts`; the registry is a class with a `map` field |
| `polly_headers.dfy` | `PollyHeaders` | `headers.ts` |
| `warc2har.dfy` | `Warc2Har` | `warc2har.ts` |

Modelling choices:

- A provider is a value. Its `supportsUrl` and `extractId` are function-valued
  fields, so every proof holds for any adapter's URL rules.
- A parsed URL is its protocol, host name and path. Its `href` is
  `protocol + "//" + hostname + path`. The `URL` constructor is a parameter
  `parseUrl` from text to an optional parsed URL; `None` stands for the
  `TypeError` it throws.
- A fetched page is represented by the response's final URL, as text, and
  its body. A parsed document is represented by its source text. The
  `og:image` lookup is a function from a document to the content of its first
  such element, if any.
- The 32 registration calls are the constant `RegistrationOrder`. They are run
  by `BuildProviderDispatch`, which takes one provider value per kind.
- A WARC record arrives already parsed, as its type, its WARC header fields,
  its content text, its HTTP status line and headers, and its body length.
- A HAR entry is a value kept in the entry map. The JavaScript `Map`'s
  insertion order is kept as a sequence of keys beside it. Each `populate*`
  function returns the updated entry, and the main loop stores it back under
  the same key.
- The conversion as a whole is the fold `Process` of a one-record `Step` over
  the records, followed by `Finish`, which orders the entries. `Convert` is
  the two together, and the imperative `Warc2Har` method is proved equal to
  it.
- JSON-valued fields (`cache`, `timings`, cookies, `responseDecoded`, the
  creator) keep their JSON text.

What the code does, where a reader might expect otherwise:

- A redirect is safe only when the original URL's ID is defined, non-empty
  (base.ts:45) and equal to the redirected URL's ID. This is the comment's
  "both URLs point towards the same release" (base.ts:39-42), with an empty
  ID counting as no ID.
- The refusal message names the provider and the final URL, the final URL
  twice (base.ts:51). It does not name the original URL.
- The registry's `DispatchMap` is not part of this model. The model reads it
  as a plain map, in which a later registration of a domain overwrites an
  earlier one.

Behaviour of `warc2har.ts` that the model makes explicit:

- A response record needs the `response.content` object that the exchange's
  metadata record creates. If the metadata record has not come first,
  `populateEntryResponse` throws a `TypeError`
  (`Warc2Har.PopulateEntryResponse`).
- A metadata record that comes after the response replaces that content
  object. The MIME type and size are then lost (`Warc2Har.PopulateEntryMetadata`).
- A request record whose status line has no space has an undefined path, and
  `parseQueryString` throws a `TypeError` on it.
- The query string is read from the piece of the path between its first and
  second `?`: for `/a?b=1?c=2` it is `b=1`.
- A field body that ends in CRLF yields a final empty line. That line becomes
  the field `""` with an undefined value.

## Model

| member | source | states |
|---|---|---|
| `Strings.IndexOf` | tests/unit/utils/pollyjs/warc-persister/warc2har.ts:61-62 | the index found is an occurrence of the separator, and no earlier index is; none is found only when there is no occurrence at all |
| `Strings.Split` | tests/unit/utils/pollyjs/warc-persister/warc2har.ts:61-62 | there is always at least one piece |
| `Strings.SplitFirst` | tests/unit/utils/pollyjs/warc-persister/warc2har.ts:115 | there is exactly one piece when the separator does not occur; the first piece is a prefix of the string that contains no separator |
| `Strings.JoinSplit` | tests/unit/utils/pollyjs/warc-persister/warc2har.ts:131-141 | joining the pieces of a split with the same separator gives back the original string; this ties `Join` to `Split` |
| `Strings.FirstMatchAfter` | tests/unit/utils/pollyjs/warc-persister/warc2har.ts:61-62 | when `a` does not contain a separator that cannot overlap itself, the first occurrence in `a + sep + b` is right after `a` |
| `Strings.SplitAfter` | tests/unit/utils/pollyjs/warc-persister/warc2har.ts:108 | splitting `a + sep + b`, with no separator in `a`, gives `a` and then the pieces of `b` |
| `Strings.SplitJoin` | tests/unit/utils/pollyjs/headers.ts:36 | splitting joined parts on the separator gives back exactly the parts, when no part contains a separator that cannot overlap itself |
| `Records.AssignKeys` | tests/unit/utils/pollyjs/warc-persister/warc2har.ts:61-62 | after filling a record from pairs, its keys are the old keys plus every key of the pairs |
| `Records.AssignLastWins` | tests/unit/utils/pollyjs/warc-persister/warc2har.ts:61-62 | a key holds the value of the last pair that assigns it |
| `Records.AssignOther` | tests/unit/utils/pollyjs/headers.ts:9-11 | a key that no pair assigns keeps its presence and value |
| `Records.AssignConstant` | src/mb_enhanced_cover_art_uploads/providers/index.ts:39-40 | when all pairs carry the same value, every assigned key holds that value |
| `ProviderBase.ArtworkTypeId` | src/mb_enhanced_cover_art_uploads/providers/base.ts:73-88 | every artwork type has a code from 1 to 14 |
| `ProviderBase.ArtworkTypeFromId` | src/mb_enhanced_cover_art_uploads/providers/base.ts:73-88 | exactly the codes 1 to 14 name a type, and the type named has that code |
| `ProviderBase.ArtworkTypeIdInjective` | src/mb_enhanced_cover_art_uploads/providers/base.ts:73-88 | distinct types have distinct codes, and each type's code names the type back |
| `ProviderBase.IsSafeRedirect` | src/mb_enhanced_cover_art_uploads/providers/base.ts:43-46 | the rule itself: the original URL's ID is defined, non-empty and equal to the redirected URL's ID; the four lemmas below characterise it |
| `ProviderBase.SafeRedirectNeedsId` | src/mb_enhanced_cover_art_uploads/providers/base.ts:44-45 | a redirect is never safe when the original URL has no ID or an empty ID, whatever the redirected URL is |
| `ProviderBase.SafeRedirectSameId` | src/mb_enhanced_cover_art_uploads/providers/base.ts:43-46 | a redirect between two URLs with the same non-empty ID is safe |
| `ProviderBase.SafeRedirectDifferentIds` | src/mb_enhanced_cover_art_uploads/providers/base.ts:43-46 | a redirect between URLs whose IDs differ, one possibly undefined, is unsafe |
| `ProviderBase.SafeRedirectSymmetric` | src/mb_enhanced_cover_art_uploads/providers/base.ts:43-46 | swapping the original and redirected URLs does not change whether the redirect is safe |
| `ProviderBase.RedirectMessage` | src/mb_enhanced_cover_art_uploads/providers/base.ts:51 | the refusal text, naming the provider and then the final URL twice |
| `ProviderBase.RedirectMessageNames` | src/mb_enhanced_cover_art_uploads/providers/base.ts:51 | the refusal message contains the provider name and the final URL |
| `ProviderBase.FetchPageDOM` | src/mb_enhanced_cover_art_uploads/providers/base.ts:48-55 | accepts exactly when the final URL text equals the requested `href`, or it parses and the redirect is safe; an accepted page is the parsed body; a final URL that does not parse fails as the `URL` constructor does; any other refusal carries the refusal message for the provider and the final URL |
| `ProviderBase.UnredirectedFetchAccepted` | src/mb_enhanced_cover_art_uploads/providers/base.ts:50 | a page whose final URL is the requested one is never refused, even when the URL has no ID |
| `ProviderBase.HeadMetaFindImages` | src/mb_enhanced_cover_art_uploads/providers/base.ts:94-103 | a fetch refusal propagates; a page without `og:image` fails with a missing-element error; content that is not a URL fails as the `URL` constructor does; otherwise the result is exactly one candidate: the parsed content, types `[Front]`, no comment |
| `ProviderRegistry.ExtractDomain` | src/mb_enhanced_cover_art_uploads/providers/index.ts:76-78 | the domain is the host name or the host name minus a leading `www.`; it is unchanged exactly when the host name does not start with `www.` |
| `ProviderRegistry.ExtractDomainStripsOnce` | src/mb_enhanced_cover_art_uploads/providers/index.ts:77 | only one leading `www.` is removed |
| `ProviderRegistry.Claims` | src/mb_enhanced_cover_art_uploads/providers/index.ts:39-40 | the `set` calls of one registration, one per supported domain, in order |
| `ProviderRegistry.ClaimsKeys` | src/mb_enhanced_cover_art_uploads/providers/index.ts:39-40 | one registration assigns exactly the provider's supported domains |
| `ProviderRegistry.Registered` | src/mb_enhanced_cover_art_uploads/providers/index.ts:38-74 | the table after registering a sequence of providers one after another; the two lemmas below describe it |
| `ProviderRegistry.LaterRegistrationWins` | src/mb_enhanced_cover_art_uploads/providers/index.ts:38-74 | after sequential registration, a domain maps to the last provider that claims it |
| `ProviderRegistry.UnclaimedDomainUnchanged` | src/mb_enhanced_cover_art_uploads/providers/index.ts:38-74 | a domain no registered provider claims keeps its earlier presence and value |
| `ProviderRegistry.ProviderDispatch.constructor` | src/mb_enhanced_cover_art_uploads/providers/index.ts:36 | the registry starts empty |
| `ProviderRegistry.ProviderDispatch.AddProvider` | src/mb_enhanced_cover_art_uploads/providers/index.ts:38-41 | afterwards every supported domain maps to the provider, and every other domain keeps its earlier presence and value |
| `ProviderRegistry.ProviderDispatch.AddProviders` | src/mb_enhanced_cover_art_uploads/providers/index.ts:43-74 | the table after registering a sequence of providers in order is the sequential registration of them |
| `ProviderRegistry.ProviderDispatch.GetProviderByDomain` | src/mb_enhanced_cover_art_uploads/providers/index.ts:85-87 | a provider is found exactly when the URL's domain is registered, and it is that domain's provider |
| `ProviderRegistry.ProviderDispatch.GetProvider` | src/mb_enhanced_cover_art_uploads/providers/index.ts:80-83 | returns a provider exactly when the domain lookup finds one that supports the URL; the result is undefined or the domain lookup's result |
| `ProviderRegistry.BuildProviderDispatch` | src/mb_enhanced_cover_art_uploads/providers/index.ts:36-74 | the table is the sequential registration of the 32 providers in their fixed order, starting empty |
| `ProviderRegistry.WwwAliasSameProvider` | src/mb_enhanced_cover_art_uploads/providers/index.ts:85-87 | host names that differ only by a leading `www.` find the same provider, and the path plays no part |
| `ProviderRegistry.UnregisteredDomain` | src/mb_enhanced_cover_art_uploads/providers/index.ts:80-87 | a URL whose domain is not registered gets undefined from both lookups |
| `PollyHeaders.CrlfFromPollyHeaders` | tests/unit/utils/pollyjs/headers.ts:27-37 | the conversion itself: one `name: value` line per value, joined with CRLF; `LineCount`, `LineAt`, `NoValuesNoText` and `CrlfLinesSplit` describe its text |
| `PollyHeaders.FieldPairsAppend` | tests/unit/utils/pollyjs/headers.ts:28-34 | the output for two header lists in a row is the output for the first followed by the output for the second: output order follows header order |
| `PollyHeaders.LineCount` | tests/unit/utils/pollyjs/headers.ts:28-34 | there is one line per value, a scalar counting as one value |
| `PollyHeaders.LineAt` | tests/unit/utils/pollyjs/headers.ts:28-34 | value `m` of header `j` becomes the line `name: value` at the position after all values of earlier headers and the earlier values of its own header |
| `PollyHeaders.NoValuesNoText` | tests/unit/utils/pollyjs/headers.ts:35-36 | headers with no values give the empty string |
| `PollyHeaders.CrlfLinesSplit` | tests/unit/utils/pollyjs/headers.ts:27-37 | splitting the output on CRLF gives back exactly the lines, so they are CRLF-separated with no trailing separator, when no name or value holds a carriage return |
| `PollyHeaders.FetchHeadersFromPollyHeaders` | tests/unit/utils/pollyjs/headers.ts:17-21 | every header name is kept; each gets the first element of an array value (undefined for an empty array) or the scalar value |
| `PollyHeaders.PollyHeadersFromFetchHeaders` | tests/unit/utils/pollyjs/headers.ts:7-12 | the record holds exactly the iterated names, each with its last iterated value |
| `Warc2Har.WarcHeader` | tests/unit/utils/pollyjs/warc-persister/warc2har.ts:70 | a WARC header field of the record, `null` when absent |
| `Warc2Har.HttpHeader` | tests/unit/utils/pollyjs/warc-persister/warc2har.ts:145 | a header is found exactly when some HTTP header has that name, and its value is that of the last such header |
| `Warc2Har.FieldsOfText` | tests/unit/utils/pollyjs/warc-persister/warc2har.ts:60-62 | the reading of a fields body: CRLF-separated lines, each split at `": "`, a later name winning; `FieldNames`, `ParseFieldLine` and `WarcFieldsOfCrlfHeaders` describe it |
| `Warc2Har.ParseWarcFields` | tests/unit/utils/pollyjs/warc-persister/warc2har.ts:58-63 | fails with the wrong-content-type assertion exactly when the content type is not `application/warc-fields`; otherwise gives the fields of the content |
| `Warc2Har.FieldNames` | tests/unit/utils/pollyjs/warc-persister/warc2har.ts:61-62 | the field names are the text before the first `": "` of each CRLF-separated line |
| `Warc2Har.ParseFieldLine` | tests/unit/utils/pollyjs/warc-persister/warc2har.ts:62 | the line `name: value` reads back as that name and value, when the name has no colon and the value no `": "` |
| `Warc2Har.WarcFieldsOfCrlfHeaders` | tests/unit/utils/pollyjs/warc-persister/warc2har.ts:61-62 | headers written as CRLF lines read back as WARC fields to every name with its last value |
| `Warc2Har.ParseRequestLine` | tests/unit/utils/pollyjs/warc-persister/warc2har.ts:115 | there is a path exactly when the line has a space; the method is a space-free prefix of the line |
| `Warc2Har.RequestLineRejoin` | tests/unit/utils/pollyjs/warc-persister/warc2har.ts:115 | a request line of three words is method, path and HTTP version joined by spaces |
| `Warc2Har.ParseStatusLine` | tests/unit/utils/pollyjs/warc-persister/warc2har.ts:132 | there is a status exactly when the line has a space; the HTTP version is a space-free prefix of the line |
| `Warc2Har.StatusLineRejoin` | tests/unit/utils/pollyjs/warc-persister/warc2har.ts:131-141 | the HTTP version, status and status text put back together with spaces give the status line; with fewer than three words the status text is empty |
| `Warc2Har.ParseInt` | tests/unit/utils/pollyjs/warc-persister/warc2har.ts:79 | the reading of `parseInt`: an optional sign and the leading decimal digits, `NaN` when there are none; `ParseIntNatText` is its round trip |
| `Warc2Har.ParseIntNatText` | tests/unit/utils/pollyjs/warc-persister/warc2har.ts:79 | a decimal numeral, with or without a minus sign and followed by any non-digit text, reads back as its value |
| `Warc2Har.JsonField` | tests/unit/utils/pollyjs/warc-persister/warc2har.ts:80 | reading a JSON field fails exactly when the field is undefined |
| `Warc2Har.PopulateHarLogInfo` | tests/unit/utils/pollyjs/warc-persister/warc2har.ts:65-73 | fails exactly on the wrong content type, a missing creator or a missing file name; the version and creator are the info fields, the recording name is the file name, and the entries are untouched |
| `Warc2Har.PopulateEntryMetadata` | tests/unit/utils/pollyjs/warc-persister/warc2har.ts:75-99 | fails exactly on the wrong content type or when a field given to `JSON.parse` is undefined; otherwise the entry gets its ID, parsed order, start time, parsed time, cache, timings and decoding flag; the request and response get header sizes and cookies; the response content is reset to hold at most the encoding, set only when it is non-empty |
| `Warc2Har.QueryText` | tests/unit/utils/pollyjs/warc-persister/warc2har.ts:107-112 | a path without `?` gives the empty query |
| `Warc2Har.QueryTextOf` | tests/unit/utils/pollyjs/warc-persister/warc2har.ts:108 | the query is the text after the first `?`, up to a second `?` if there is one |
| `Warc2Har.PopulateEntryRequest` | tests/unit/utils/pollyjs/warc-persister/warc2har.ts:114-129 | method and HTTP version are parts 0 and 2 of the request line, body size is 0, the URL is the target URI, the headers are the record's, the query is the path's query text, earlier request fields are kept; fails exactly when the line has no path |
| `Warc2Har.PopulateEntryResponse` | tests/unit/utils/pollyjs/warc-persister/warc2har.ts:131-155 | the HTTP version, parsed status and status text come from the status line; body size and content size are the body length; the MIME type is the `content-type` header; fails exactly without that header or without a content object |
| `Warc2Har.KindOf` | tests/unit/utils/pollyjs/warc-persister/warc2har.ts:23-40 | the four record types the loop handles, and every other type as unsupported |
| `Warc2Har.EntryKey` | tests/unit/utils/pollyjs/warc-persister/warc2har.ts:26-37 | a response is keyed by its own record ID, a request or metadata record by the ID it is concurrent to |
| `Warc2Har.ExchangeSharesEntry` | tests/unit/utils/pollyjs/warc-persister/warc2har.ts:26-37 | the request and metadata records that refer to a response's record ID share that response's entry key |
| `Warc2Har.EntryTable.Values` | tests/unit/utils/pollyjs/warc-persister/warc2har.ts:43 | one entry per key, in insertion order, each the entry stored under its key |
| `Warc2Har.AddEntry` | tests/unit/utils/pollyjs/warc-persister/warc2har.ts:26-37 | fails exactly without a key or when the update fails; otherwise the key gains its updated entry, appended to the insertion order when new, every other entry is unchanged, and a valid table stays valid |
| `Warc2Har.EntryMap.constructor` | tests/unit/utils/pollyjs/warc-persister/warc2har.ts:19 | the entry map starts empty |
| `Warc2Har.EntryMap.GetOrCreateEntry` | tests/unit/utils/pollyjs/warc-persister/warc2har.ts:49-56 | fails on a null ID; returns the existing entry and changes nothing; otherwise inserts a fresh empty entry at the end of the insertion order and returns it |
| `Warc2Har.EntryMap.SetEntry` | tests/unit/utils/pollyjs/warc-persister/warc2har.ts:26-37 | storing an updated entry changes only its key's value and keeps the insertion order |
| `Warc2Har.AddEntryRecord` | tests/unit/utils/pollyjs/warc-persister/warc2har.ts:26-37 | fails exactly when `AddEntry` fails, with its error; otherwise the map becomes `AddEntry`'s table and the updated entry is returned |
| `Warc2Har.EntryKeysSnoc` | tests/unit/utils/pollyjs/warc-persister/warc2har.ts:21-41 | one more record adds at most its own entry key to the keys named |
| `Warc2Har.Step` | tests/unit/utils/pollyjs/warc-persister/warc2har.ts:22-40 | one record: a valid table stays valid; only an exchange record adds a key, its own, and it must have one; only a `warcinfo` record changes the log |
| `Warc2Har.Process` | tests/unit/utils/pollyjs/warc-persister/warc2har.ts:21-41 | after the records, the entry map is valid, its keys are exactly the keys the records name, and every exchange record had a key |
| `Warc2Har.ProcessFailurePersists` | tests/unit/utils/pollyjs/warc-persister/warc2har.ts:21-41 | a failure on a prefix of the records is the failure of the whole conversion |
| `Warc2Har.ApplyRecord` | tests/unit/utils/pollyjs/warc-persister/warc2har.ts:22-40 | changes the log and the entry map as `Step` does, and fails exactly when it fails |
| `Warc2Har.SortedPairwise` | tests/unit/utils/pollyjs/warc-persister/warc2har.ts:43 | entries sorted neighbour by neighbour are sorted pair by pair |
| `Warc2Har.InsertByOrder` | tests/unit/utils/pollyjs/warc-persister/warc2har.ts:43 | inserting into sorted entries keeps them sorted and adds exactly the one entry |
| `Warc2Har.SortByOrder` | tests/unit/utils/pollyjs/warc-persister/warc2har.ts:43 | the result is sorted ascending by `_order` and is a permutation of the input |
| `Warc2Har.Finish` | tests/unit/utils/pollyjs/warc-persister/warc2har.ts:43-46 | the log's entries are a permutation of the map's values, sorted by `_order` when there are two or more, one per key; fails exactly when two or more entries do not all have an order |
| `Warc2Har.Convert` | tests/unit/utils/pollyjs/warc-persister/warc2har.ts:14-47 | fails exactly when processing fails or the order is engine-defined; otherwise the entries are a permutation of the final map's values, sorted, one per distinct key, every exchange record had a key, and the other log fields are those processing built |
| `Warc2Har.Warc2Har` | tests/unit/utils/pollyjs/warc-persister/warc2har.ts:14-47 | the loop computes exactly `Convert` of the records, error or result |

## Left out

- URL parsing, WARC parsing by `warcio`, DOM parsing and `qs`, and the HTTP request itself (`gmxhr`). The model takes their results as inputs, and takes the `URL` constructor as the parameter `parseUrl`.
- The `href` of a parsed URL is taken to be exactly `protocol + "//" + hostname + path`. The normalisation the `URL` constructor applies (case, default ports, percent-encoding) is not modelled. So whether a final URL text equals the requested `href` is decided on these strings.
- The real `DispatchMap` is not part of this model. It is modelled as a plain map, so shop-subdomain matching such as `iosys.booth.pm` is not captured.
- The individual providers' `supportsUrl`, `extractId`, `findImages`, `name` and `favicon`: they are arbitrary values here.
- Asynchronous sequencing (`await`, `for await`) and the `console.log` of unsupported record types. In the model an unsupported record is skipped.
- `JSON.parse` is not modelled beyond failing on an undefined field. The JSON text is kept as it is, and invalid JSON is not detected.
- `Warc2Har.QueryText`: `URLSearchParams` decoding is not modelled. The query string is kept as the raw text it parses, with `""` standing for the empty list that both `""` and `undefined` give.
- The base64/UTF-8 encoding of the response body (`content.text`) and `responseShouldBeEncoded`'s effect on it.
- `Warc2Har.ParseInt`: leading whitespace, radix prefixes and non-decimal numbers are not modelled. It takes an optional sign and then the leading decimal digits; `NaN` is `None`. Its result is an unbounded integer, whereas `parseInt` returns a double, which rounds numerals beyond 2^53 (`9007199254740993` reads as `9007199254740992`). The `_order` comparison is therefore exact in the model.
- `Warc2Har.HttpHeader`: the HTTP header object's case-insensitive name matching is not modelled. The lookup is by exact name, the last pair winning.
- The `Headers` objects of `node-fetch`: their name lower-casing, validation and merging of repeated names, and the `Headers` constructor that `FetchHeaders.fromPollyHeaders` returns. The model returns the init record.
- `PollyHeaders.FetchHeadersFromPollyHeaders` and `PollyHeaders.PollyHeadersFromFetchHeaders` treat a header named `__proto__` like any other. The source's plain-object assignment does not store such a string under that key.
- `Warc2Har.Convert`: among two or more entries, when some entry has no numeric `_order`, the JavaScript comparator yields `NaN` and the engine returns some permutation in an order it chooses. The model returns `UnspecifiedOrder` instead. One entry or none is returned as it is.
- `Warc2Har.SortByOrder` is stable, as `Array.prototype.sort` is, but no contract states stability.
- The entries of the HAR log are values. The source's in-place updates of the shared entry object behave the same here, because each update is stored back under its key before the next record is read.
- The HAR log's constant empty `pages` array.
