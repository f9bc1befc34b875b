# Domain expiry checker: the RDAP lookup engine

This project is a Dafny model of the lookup engine of a web application that reports when domain names expire. The user pastes a list of domains into the front page. The engine asks a registration-data (RDAP, RFC 9083) service about each domain. From the answer it takes:

- the expiry, creation and last-update dates;
- the registrar's name;
- the top-level label.

It then classifies the domain as `ok`, `expiring-soon` or `error`.

Answers are kept in an in-memory cache for a day. Failures are kept for five minutes. A batch call can ask for chosen domains to bypass the cache.

The modules follow the source:

- `RdapResponse` (rdap_response.dfy) holds the response shape and the extraction helpers of lib/rdap.ts. It covers the first matching event, the first registrar's formatted name and the top-level label.
- `Status` (status.dfy) is `computeStatus`.
- `RdapCache` (rdap_cache.dfy) covers the cache, `lookupSingleDomain` and `fetchRdapForDomains`. The module-level `rdapCache` map is the class `Cache`, with a `map` field.
  - Each lookup is split at its first `await`; nothing reads or writes the cache before its second `await` completes. `Begin` runs the synchronous part: normalise, then consult the cache. `Store` writes the answer.
  - The batch follows `Promise.all` over `domains.map`. For every input in order, `DeleteAndProbe` runs the delete and the cache check, all before any remote call answers. `CompleteAll` then takes the answers in input order.
  - The functions `Lookup`, `BatchResults` and `BatchCache` specify these methods. The lemmas are stated about those functions.
- `Page` (page.dfy) is `parseDomains` of app/page.tsx and the early exit of `handleSubmit`.
- `Text` (text.dfy) is JavaScript's `trim` and `toLowerCase`.
- `Splitting` (splitting.dfy) is `split` by one character and by a character-class regular expression.
- `Wrappers` (wrappers.dfy) holds `Option`.

Inputs that the source reads from the outside world are parameters:

- **The remote call.** A `FetchOutcome` is either a response, carrying its HTTP status, its decoded body and the clock reading `computeStatus` takes, or a network failure.
- **The clocks.** `now` is the `Date.now()` taken before the remote call.
- **The date parser.** `new Date(s).getTime()` is a function `parse: string -> Option<int>`, where `None` stands for NaN.

## Model

| member | source | states |
|---|---|---|
| RdapResponse.FirstIndex | lib/rdap.ts:30-38 | `find` as an index: the returned position matches, no earlier one does, and `None` exactly when nothing matches |
| RdapResponse.FirstEventDate | lib/rdap.ts:28-40 | the date of the first event whose lower-cased action is in the label set (absent if that event has none); `None` when no event matches or `events` is missing |
| RdapResponse.GetExpiryFromRdap | lib/rdap.ts:27-41 | the date of the first event labelled expiration, expiry, expires or registration expiration in any case; absent when none matches |
| RdapResponse.GetCreatedFromRdap | lib/rdap.ts:43-52 | the date of the first event labelled registration or creation; absent when none matches |
| RdapResponse.GetUpdatedFromRdap | lib/rdap.ts:54-63 | the date of the first event labelled last changed or last update; absent when none matches |
| RdapResponse.FormattedName | lib/rdap.ts:76-86 | the value of the first jCard property named `fn`; `None` exactly when there is none |
| RdapResponse.GetRegistrarNameFromRdap | lib/rdap.ts:65-87 | only the first entity with a `registrar` role (any case) is consulted: no jCard there gives `None` even if a later registrar has one, otherwise its formatted name; no registrar gives `None` |
| RdapResponse.GetTldFromDomain | lib/rdap.ts:133-141 | absent exactly when the domain has no dot; otherwise a dot followed by a dot-free suffix of the lower-cased domain |
| RdapResponse.LowerKeepsDots | lib/rdap.ts:134 | lower-casing neither adds nor removes a dot |
| RdapResponse.LastLabel | lib/rdap.ts:134-140 | fewer than two pieces exactly when there is no dot; otherwise the last piece is the dot-free suffix after the last dot |
| RdapResponse.TldIsLastLabel | lib/rdap.ts:133-141 | for any text, a dot and a dot-free last label, the result is a dot and the lower-cased last label (`example.co.uk` gives `.uk`, `a.` gives `.`) |
| Status.RoundedDays | lib/rdap.ts:111-129 | `Math.round` of the day count: the nearest whole number of days, halves rounding up |
| Status.ExpiryInstant | lib/rdap.ts:93-107 | the instant `computeStatus` compares: absent for a missing or empty string or one that does not parse; stated through `ComputeStatus` |
| Status.ComputeStatus | lib/rdap.ts:89-131 | `error` with "could not determine" exactly when the expiry is missing or empty, with "invalid" exactly when it does not parse, with "appears expired" exactly when it parses to an instant not after now; `expiring-soon` exactly when 0 < expiry − now ≤ 90 days; `ok` exactly when further; a day count message exactly when not `error`, equal to the rounded day count to expiry, within 0..90 for `expiring-soon` and at least 90 for `ok` |
| Status.StatusMonotone | lib/rdap.ts:110-130 | a larger time to expiry never gives a worse status |
| Text.LowerChar | lib/rdap.ts:134 | lower-casing maps each capital to its own small letter (`A` to `a` through `Z` to `z`), changes nothing else, leaves no upper-case letter and keeps white space as white space |
| Text.LowerDistinguishes | app/page.tsx:18 | `B.com` lower-cases to `b.com` and `EXPIRATION` to `expiration`; `B.com` and `a.com` keep distinct keys |
| Text.Lower | lib/rdap.ts:157 | lower-casing keeps the length and maps each character |
| Text.TrimStartFacts | lib/rdap.ts:157 | removing leading white space leaves a suffix that starts with a non-white-space character, and only white space was removed |
| Text.TrimEndFacts | lib/rdap.ts:157 | removing trailing white space leaves a prefix that ends with a non-white-space character, and only white space was removed |
| Text.TrimCharacterized | lib/rdap.ts:157 | `trim` yields a contiguous slice of its input whose first and last characters are not white space |
| Text.Trim | lib/rdap.ts:157 | `trim`; stated by `TrimCharacterized`, `TrimEmpty`, `TrimChars` and `TrimIdempotent` |
| Text.Normalize | lib/rdap.ts:157 | the lookup key, lower-cased then trimmed; stated by `NormalizeCommutes` and `NormalizeIdempotent` |
| Text.TrimLower | lib/rdap.ts:254 | the batch key, trimmed then lower-cased; equal to `Normalize` by `NormalizeCommutes` |
| Text.TrimEmpty | app/page.tsx:18-19 | `trim` yields the empty string exactly when the input is all white space |
| Text.TrimChars | app/page.tsx:18 | every character of the trimmed text occurs in the input |
| Text.TrimStartIdempotent | lib/rdap.ts:157 | removing leading white space twice is removing it once |
| Text.TrimEndOfTrimStart | lib/rdap.ts:157 | removing trailing white space exposes no leading white space |
| Text.TrimIdempotent | lib/rdap.ts:157 | `trim` is idempotent |
| Text.LowerIdempotent | lib/rdap.ts:157 | `toLowerCase` is idempotent |
| Text.TrimStartLower | lib/rdap.ts:157 | removing leading white space commutes with lower-casing |
| Text.TrimEndLower | lib/rdap.ts:157 | removing trailing white space commutes with lower-casing |
| Text.NormalizeCommutes | lib/rdap.ts:250-254 | lower-case-then-trim (the lookup key and the skip set) equals trim-then-lower-case (the batch key) |
| Text.NormalizeIdempotent | lib/rdap.ts:157 | the lookup normalisation gives a trimmed, lower-case string and is idempotent, including on a batch key |
| Splitting.Split | lib/rdap.ts:134 | `split` on a character always gives at least one piece |
| Splitting.SplitPieces | lib/rdap.ts:134-135 | there is one piece more than there are separators, and no piece holds a separator |
| Splitting.JoinSplit | lib/rdap.ts:134 | joining the pieces with the separator gives the text back |
| Splitting.SplitJoin | lib/rdap.ts:134 | splitting a join of separator-free pieces gives the pieces back |
| Splitting.SplitConcat | lib/rdap.ts:134 | the pieces of `a + sep + b` are those of `a` followed by those of `b` |
| Splitting.SplitNoSeparator | lib/rdap.ts:134-137 | text without a separator is a single piece |
| Splitting.LastPiece | lib/rdap.ts:139 | the last piece is the suffix after the last separator, or the whole text when there is no separator |
| Splitting.LeadingRun | app/page.tsx:17 | the length of the maximal run of separators the text starts with |
| Splitting.SplitRuns | app/page.tsx:17 | splitting on the regular expression `[\n,]+` gives at least one piece and no piece holds a separator |
| Splitting.SplitRunsFirst | app/page.tsx:17 | collapsing separator runs does not change the first piece |
| RdapCache.FetchedEntry | lib/rdap.ts:180-242 | the entry a remote attempt writes is about the normalised key and lives a day after a read response, five minutes after an HTTP or network failure |
| RdapCache.FetchedEntryReport | lib/rdap.ts:180-242 | that entry carries the top-level label; every failure is `error` without expiry, registrar, creation or update date; `expiryDate` is set exactly when the response was read and its first expiry event has a date; the status is `computeStatus`'s |
| RdapCache.FetchedEntryFailureMessage | lib/rdap.ts:181-241 | a non-2xx response reports "RDAP returned HTTP" with its code; a failed `fetch` or an unreadable body reports the network-error message |
| RdapCache.FetchedEntryFromBody | lib/rdap.ts:197-215 | a read response's result carries the first expiry event's date as `expiryDate`, `computeStatus`'s message, and the registrar name, creation and update dates the helpers extract |
| RdapCache.ProbeCache | lib/rdap.ts:157-172 | a lookup goes to the network only under a non-empty normalised key |
| RdapCache.ProbeLocal | lib/rdap.ts:169-170 | the cache check reads only the entry under the normalised key |
| RdapCache.ProbeKey | lib/rdap.ts:160-172 | the cache check of an already normalised key: a miss names the key, a hit is a fresh entry's stored result |
| RdapCache.ProbeKeyIsProbeCache | lib/rdap.ts:157-172 | for an already normalised key the batch's cache check is the lookup's own one |
| RdapCache.Lookup | lib/rdap.ts:156-243 | result and new cache of one lookup; stated by `LookupEmptyDomain`, `LookupFreshHit`, `LookupMiss`, `LookupTouchesOnlyItsKey`, `LookupWellFormed` and `RepeatLookupHits` |
| RdapCache.LookupEmptyDomain | lib/rdap.ts:157-167 | an input that normalises to nothing is answered with `error` and "Empty domain value" about the original input, with no expiry date, top-level label, registrar or dates, and the cache is untouched |
| RdapCache.LookupFreshHit | lib/rdap.ts:169-172 | a fresh entry is returned as stored and the cache is untouched |
| RdapCache.LookupMiss | lib/rdap.ts:174-242 | without a fresh entry (absent or `expiresAt <= now`), exactly the normalised key is overwritten with the fetched entry and the result is about the normalised domain |
| RdapCache.LookupTouchesOnlyItsKey | lib/rdap.ts:189-239 | no key but the normalised one changes |
| RdapCache.LookupWellFormed | lib/rdap.ts:156-243 | lookups keep every cache key non-empty, normalised and naming its own result; the result names the normalised domain, or the input when that is empty |
| RdapCache.RepeatLookupHits | lib/rdap.ts:169-242 | a second lookup of the same key before the written entry expires returns the same result and changes nothing |
| RdapCache.BatchKeys | lib/rdap.ts:254 | one key per input |
| RdapCache.BatchProbes | lib/rdap.ts:253-261 | one cache check per input, each against the pre-batch cache less the deleted keys |
| RdapCache.BatchResults | lib/rdap.ts:245-264 | one result per input, in input order |
| RdapCache.BatchKeyNormal | lib/rdap.ts:254-260 | the batch key is already normalised, so the lookup's own normalisation keeps it |
| RdapCache.BatchResultDomains | lib/rdap.ts:245-264 | each result is about its input trimmed and lower-cased, duplicates included |
| RdapCache.BatchResultSource | lib/rdap.ts:249-261 | a blank input gets the empty-domain error with no remote call; a non-blank skipped input always gets a fresh remote result; any other is answered from a fresh pre-batch entry if there is one, remotely otherwise |
| RdapCache.DeletedKeysSnoc | lib/rdap.ts:256-258 | each input adds its key to the deleted set exactly when the key is in the skip set |
| RdapCache.BatchStep | lib/rdap.ts:253-261 | after the deletes of the inputs up to one, that input's cache check sees what the batch specification says it sees |
| RdapCache.BatchProbesMissKeys | lib/rdap.ts:254-260 | every batch lookup that goes to the network does so under a non-empty normalised key |
| RdapCache.SameKeySameProbeKind | lib/rdap.ts:253-263 | inputs that share a key all miss or all do not |
| RdapCache.CommitUntouched | lib/rdap.ts:263 | keys no miss names keep their entry |
| RdapCache.CommitLastWrite | lib/rdap.ts:263 | a key ends with the entry written by the last miss that names it |
| RdapCache.CommitWellFormed | lib/rdap.ts:263 | writing the answers keeps the cache well formed |
| RdapCache.BatchKeepsOtherKeys | lib/rdap.ts:245-264 | a key that no input names keeps its pre-batch entry, or its absence |
| RdapCache.BatchRefreshesSkippedKeys | lib/rdap.ts:249-263 | a skipped key always ends with the entry fetched in this batch for its last input, and that entry expires after `now` |
| RdapCache.BatchCachedKeys | lib/rdap.ts:169-242 | a non-blank key an input names but the skip set does not keeps its fresh pre-batch entry; without one it ends with the entry fetched for its last input |
| RdapCache.BatchWellFormed | lib/rdap.ts:245-264 | the batch keeps every cache key non-empty, normalised and naming its own result |
| RdapCache.SkipKeysCover | lib/rdap.ts:249-258 | every skip key is normalised, and a domain listed verbatim in `skipCacheFor` has its batch key in the skip set although the two normalise in opposite orders |
| RdapCache.SkipKeys | lib/rdap.ts:249-251 | the skip set, each value lower-cased then trimmed; its meaning is stated by `SkipKeysCover` |
| RdapCache.Commit | lib/rdap.ts:189-238 | the writes of the batch's remote calls, in input order; stated by `CommitUntouched`, `CommitLastWrite` and `CommitWellFormed` |
| RdapCache.BatchCache | lib/rdap.ts:245-264 | the cache after a batch; stated by `BatchKeepsOtherKeys`, `BatchRefreshesSkippedKeys`, `BatchCachedKeys` and `BatchWellFormed` |
| RdapCache.Cache.constructor | lib/rdap.ts:153 | the cache starts empty |
| RdapCache.Cache.Delete | lib/rdap.ts:257 | removes exactly one key |
| RdapCache.Cache.Begin | lib/rdap.ts:157-172 | the synchronous start of a lookup is `ProbeCache`; a miss names a well-formed key, a hit returns a result about the normalised domain |
| RdapCache.Cache.DeleteAndProbeOne | lib/rdap.ts:253-261 | the `map` callback for one input deletes its key exactly when it is in the skip set, then checks the cache under that key |
| RdapCache.Cache.Store | lib/rdap.ts:180-242 | writes exactly the fetched entry under the key and returns its result |
| RdapCache.Cache.LookupSingleDomain | lib/rdap.ts:156-243 | result and new cache are those of `Lookup` on the old cache |
| RdapCache.Cache.DeleteAndProbe | lib/rdap.ts:253-261 | deletes exactly the skipped keys of the inputs and returns the probes of `BatchProbes` |
| RdapCache.Cache.CompleteAll | lib/rdap.ts:263 | the results and the new cache are those of taking every answer in input order |
| RdapCache.Cache.FetchRdapForDomains | lib/rdap.ts:245-264 | result and new cache are `BatchResults` and `BatchCache` of the old cache |
| Page.KeepDomains | app/page.tsx:18-19 | keeping never lengthens the list and every kept domain is non-empty, as `filter(Boolean)` ensures |
| Page.TrimLowerEmpty | app/page.tsx:18-19 | a piece is dropped exactly when it is all white space |
| Page.TrimLowerNormalized | app/page.tsx:18 | a trimmed, lower-cased piece is normalised |
| Page.TrimLowerNoSeparator | app/page.tsx:17-18 | trimming and lower-casing adds no comma or newline |
| Page.KeepDomainsAppend | app/page.tsx:18-19 | keeping distributes over concatenation, so order is kept |
| Page.KeepDomainsClean | app/page.tsx:18-19 | keeping separator-free pieces gives non-empty, normalised, separator-free domains |
| Page.ParseDomains | app/page.tsx:15-20 | `parseDomains`; stated by `ParseDomainsClean`, `ParseDomainsPieces`, `ParseDomainsEmpty` and `ParseDomainsJoin` |
| Page.ParseDomainsClean | app/page.tsx:15-20 | no element is empty, every element is trimmed and lower-cased, and none holds a comma or newline |
| Page.KeepSplitDropSeparators | app/page.tsx:17-19 | leading separators contribute nothing |
| Page.KeepRunsSameAsSplit | app/page.tsx:17-19 | splitting on separator runs or on single separators keeps the same domains |
| Page.ParseDomainsPieces | app/page.tsx:16-19 | the result is the non-empty pieces between separator characters, in order |
| Page.ParseDomainsConcat | app/page.tsx:16-19 | the domains of `a + sep + b` are those of `a` followed by those of `b` |
| Page.ParseDomainsSingle | app/page.tsx:16-19 | text without separators is one domain, or none when it is blank |
| Page.SplitChars | app/page.tsx:17 | every character of a piece occurs in the text |
| Page.KeepNothing | app/page.tsx:19 | pieces that are all blank give no domain |
| Page.BlankGivesNothing | app/page.tsx:15-20 | text of separators and white space only gives no domain |
| Page.NonBlankGivesSomething | app/page.tsx:15-20 | text with any other character gives at least one domain |
| Page.ParseDomainsEmpty | app/page.tsx:15-20 | the result is empty exactly when the text holds only separators and white space |
| Page.ParseDomainsJoin | app/page.tsx:15-20 | parsing a clean list joined with a comma or a newline gives the list back |
| Page.JoinSplitSameSeparators | app/page.tsx:17 | a join with one separator splits the same on either separator |
| Page.KeepNormalized | app/page.tsx:18-19 | keeping leaves a list of non-empty normalised domains as it is |
| Page.SubmitStart | app/page.tsx:22-32 | the synchronous start of `handleSubmit`; stated by `SubmitBlank` |
| Page.SubmitBlank | app/page.tsx:22-32 | blank input clears the results and does not enter the loading state; other input enters it |

## Left out

- The remote call (`fetch` with its URL encoding, `response.json()`) and `console.error` are I/O. Their effect is the `FetchOutcome` parameter. A body that cannot be read, or that makes the helpers throw, is `Responded` with body `None`, which the source handles as a network error.
- Date parsing (`new Date(s)`) is the `parse` parameter. Both clock readings are parameters. One `now` serves a whole batch, as if every `Date.now()` of the synchronous part returned the same instant.
- Status.ComputeStatus compares integer milliseconds where the source compares the floating-point day count; the day count itself is not modelled. The comparisons agree on every input: the millisecond difference is an integer below 2^53, IEEE division is correctly rounded and monotone, and 0 and 90 are exact.
- Status.RoundedDays is exact rounding of a rational. It does not model the floating-point error of `diffMs / 86400000` next to a half day.
- Text.LowerChar lower-cases ASCII letters only. `toLowerCase` also maps non-ASCII letters. `trim` is modelled over the full ECMAScript white-space set.
- RdapResponse.VCardEntry drops the jCard parameter object, which the engine never reads. `ldhName` is carried but unused, as in the source.
- The batch takes remote answers in input order. Under `Promise.all` they can complete in any order. The order only matters for inputs that share a key, and then for which of their entries the cache keeps last.
- The returned `DomainResult` follows the shape lib/rdap.ts builds. The `DomainResult` type of types/domain.ts, where `expiryDate` is required and the enrichment fields are absent, is not part of this model. Neither are the `fromCache` and `cachedAt` fields, which nothing produces.
- The message texts are one constructor each, not strings. The day count in "expires in about N days" is kept as a number.
- app/page.tsx: the mock results, the `setTimeout` delay, the input state and the rendering are not modelled. The page components, lib/date-utils.ts and app/api/lookup/route.ts are not part of this model.
