# Article typing app: news search endpoints and typing counter

This project models the result-shaping core of a Korean news typing-practice app.
The user searches for a headline and retypes a chosen article. The model covers:

- the aggregated search endpoint (`api/search-mixed.js`). It asks Google Custom Search and
  Naver News, keeps only Google hits from an allowlist of publisher domains, merges Google's
  items before Naver's, drops repeated links (a link and the same link with one trailing slash
  are one entry; the first one wins), ranks the rest newest first with a stable sort, and
  returns at most ten. Backend errors are reported next to the items, and the status stays 200;
- the Google-only endpoint (`api/search-google.js`): allowlist filter, then the first five;
- the Naver-only endpoint (`api/search-naver.js`): the first five, reshaped, with no filter;
- the typing view's counters (`src/App.jsx`): characters typed, article length, and the
  number of positions where the typed text matches the article.

Modules: `Js` (truthiness, `||` on optional strings, `www.` removal, JavaScript white space,
the runtime's URL and date parsers taken as given, the shape of a fetch reply), `Seqs`
(subsequence, `slice(0, n)`), `Text` (the `/<[^>]+>/g` removal, `/\s+/g` collapsing, `trim`),
`Allowlist` (`isNewsLink` over a domain table), `Items` (record shapes shared by the
endpoints, the allowlist filter, Naver's link fallback and display host), `StableSort`
(`sort((a, b) => b._ts - a._ts)`), then one module per endpoint file and `Typing`.

Imperative parts stay imperative: `SearchMixed.DedupeByLink` is a loop over the items with a
set of seen keys, and `SearchMixed.Handler` is a method that reassigns its item list and
fills the error fields one by one. Both are proved equal to the functions that specify them.

How the code behaves where a plain reading might expect something else:

- An item with no date, or a date that does not parse, gets timestamp 0. It does not rank
  last: an item dated before 1970 ranks after it (`SearchMixed.UndatedBeforeNegative`).
- The link key removes one trailing slash, not all of them, so the normalisation is not
  idempotent (`SearchMixed.LinkKeyNotIdempotent`).
- In the aggregated endpoint, a backend fetch that rejects (a network failure, or the
  12-second abort) is not caught inside `searchGoogle`/`searchNaver`. `Promise.all` rejects,
  and the whole request answers 500. The same happens when Google answers OK with a body that
  is not JSON, because `data.items` is then read from `null`. Only missing credentials and
  non-OK statuses become per-backend errors (`SearchMixed.SearchGoogle`, `SearchMixed.SearchNaver`),
  and a throw from either backend makes the whole answer 500 (`SearchMixed.Answer`).
- In the Google-only endpoint, a body that is not JSON gives 500 even on a non-OK status,
  because `await r.json()` is not guarded there.
- The Google-only table lacks `magazine.hankyung.com`, but both tables accept the same hosts
  (`SearchGoogle.SameHosts`).

## Model

| member | source | states |
|---|---|---|
| `Js.StripWww` | api/search-mixed.js:19 | exactly one leading "www." is removed when present; otherwise the host is unchanged |
| `Js.OrElse` | api/search-mixed.js:137 | `v \|\| d` on an optional string: the value when it is present and non-empty, else the default |
| `Seqs.Take` | api/search-mixed.js:105 | `slice(0, n)`: a prefix of the input of length min(n, input length) |
| `Text.RemoveTags` | api/search-naver.js:47-48 | tag removal only deletes characters: the result is a subsequence of the input |
| `Text.RemoveTagsTagFree` | api/search-mixed.js:41 | after the global replace no `<[^>]+>` match remains anywhere, including where removing one tag brings a '<' and a '>' together |
| `Text.RemoveTagsKeepsPlainPrefix` | api/search-naver.js:47-48 | text before the first '<' is kept verbatim, white space included, whatever follows it |
| `Text.RemoveTagsKeepsNonTag` | api/search-naver.js:47-48 | a character where no tag starts, a stray '<' included, is kept and the scan resumes after it; with `RemoveTagsDropsLeadingTag` this fixes the result on every input |
| `Text.RemoveTagsDropsLeadingTag` | api/search-mixed.js:41 | a whole tag at the front is removed and the rest is scanned as if it had not been there |
| `Text.CollapseSpaces` | api/search-mixed.js:41 | never longer than the input and empty exactly when it is; every white space character left is a blank, no two are adjacent, and the first and the last character are white space exactly when the input's are |
| `Text.TrimStart` | api/search-mixed.js:41 | the result is the suffix after the leading white space run, and it does not start with white space |
| `Text.TrimEnd` | api/search-mixed.js:41 | the result is the prefix before the trailing white space run, and it does not end with white space |
| `Text.Trim` | api/search-mixed.js:41 | the result neither starts nor ends with white space; it is a prefix of `TrimStart(s)` (the part of `s` after its leading white space) and everything after it there is white space, so it is the slice of `s` between the two runs |
| `Text.NonSpaceCollapse` | api/search-mixed.js:41 | collapsing changes only white space: the non-space characters stay, in order |
| `Text.NonSpaceTrim` | api/search-mixed.js:41 | trimming removes only white space |
| `Text.TrimCollapsed` | api/search-mixed.js:41 | collapse then trim gives clean ends, single blanks between words and the same non-space text, and equals the input's words joined by single blanks |
| `Text.WordsCollapse` | api/search-mixed.js:41 | collapsing white space runs keeps the words (maximal runs of non-space characters) |
| `Text.WordsTrim` | api/search-mixed.js:41 | trimming keeps the words |
| `Text.CleanIsJoined` | api/search-mixed.js:41 | a string with clean ends and single blanks is its own words joined by single blanks |
| `Allowlist.IsNewsLink` | api/search-mixed.js:17-22 | true iff the URL parses and its host, minus one leading "www.", equals a table entry or ends with "." plus one; false (never an error) when the URL does not parse |
| `Allowlist.SomeDomainMatchesIff` | api/search-mixed.js:20 | the `some` scan accepts iff some table entry matches |
| `Allowlist.SubdomainCovered` | api/search-google.js:19 | a host that matches a sub-domain entry also matches the parent entry |
| `Allowlist.SomeDomainMatchesConcat` | api/search-mixed.js:20 | a table extended by more entries accepts what either part accepts |
| `Items.Allowlisted` | api/search-google.js:53 | the filter keeps a subsequence of the input; every kept entry has an allowlisted link; no allowlisted entry is dropped; an absent link is rejected |
| `Items.AllowlistedCounts` | api/search-google.js:53 | an allowlisted entry is kept as many times as it occurs in the input |
| `Items.NaverLink` | api/search-naver.js:42 | `link` when non-empty, else `originallink` when non-empty, else ""; empty exactly when both are missing or empty |
| `Items.DisplayHost` | api/search-naver.js:43-44 | "" when the link does not parse; otherwise the host name minus its leading "www." when it has one (the host is "www." + result), else the host name unchanged |
| `StableSort.Insert` | api/search-mixed.js:167 | one insertion step adds exactly the new element to the sorted list's multiset |
| `StableSort.SortDesc` | api/search-mixed.js:167 | the sort returns a permutation of its input |
| `StableSort.SortDescSorted` | api/search-mixed.js:167 | the sorted list has non-increasing timestamps |
| `StableSort.SortDescStable` | api/search-mixed.js:167 | for each timestamp, the items carrying it keep their input order |
| `StableSort.SortDescDistinct` | api/search-mixed.js:160-167 | sorting keeps the items' keys pairwise distinct |
| `StableSort.PrefixHoldsTop` | api/search-mixed.js:167-168 | a prefix of a list sorted by descending key leaves out nothing with a greater key than one it keeps |
| `SearchMixed.StripTags` | api/search-mixed.js:40-42 | the result has no leading or trailing white space, no two adjacent white space characters, only blanks as white space, and the non-space text of the tag-free input |
| `SearchMixed.StripTagsWords` | api/search-mixed.js:40-42 | the result equals the words of the tag-free input joined by single blanks |
| `SearchMixed.ToDate` | api/search-mixed.js:44-48 | no date for a missing or empty value; otherwise the runtime's parse, which may fail |
| `SearchMixed.Timestamp` | api/search-mixed.js:164-165 | the sort key is the parsed time, or 0 when the date is missing or unparsable |
| `SearchMixed.LinkKey` | api/search-mixed.js:33 | the key is the link, or the link minus one final '/' exactly when it ends with '/' |
| `SearchMixed.DedupeFrom` | api/search-mixed.js:30-38 | the filter from a given seen set keeps no more items than it is given, each from the input, with a non-empty key not already seen |
| `SearchMixed.DedupeByLink` | api/search-mixed.js:30-38 | the loop with its seen set returns the specified filter: a subsequence of the input with non-empty, pairwise distinct keys |
| `SearchMixed.DedupeShape` | api/search-mixed.js:30-38 | the filter's result is a subsequence, no key appears twice, and no kept key is empty or already seen |
| `SearchMixed.DedupeKeys` | api/search-mixed.js:33-36 | the keys kept are exactly the input's non-empty keys not yet seen: nothing is lost |
| `SearchMixed.DedupeFirstWins` | api/search-mixed.js:34-36 | every kept item is the earliest input item with its key |
| `SearchMixed.GoogleWins` | api/search-mixed.js:160 | when a Google item and a Naver item share a key, the survivor is the first Google item with that key |
| `SearchMixed.SameKeyMerges` | api/search-mixed.js:33-34 | two items with the same non-empty key become one entry, the earlier one |
| `SearchMixed.SlashVariantsShareKey` | api/search-mixed.js:33 | "https://chosun.com/a/" and "https://chosun.com/a" have the same key |
| `SearchMixed.LinkKeyNotIdempotent` | api/search-mixed.js:33 | a link ending in "//" loses one slash per application, so applying the key twice differs from once |
| `SearchMixed.FirstTruthy` | api/search-mixed.js:72-78 | a chain of `\|\|` over meta keys: the first key's value when it is non-empty; otherwise a non-empty value or the last key's value |
| `SearchMixed.FirstTruthyPicksFirst` | api/search-mixed.js:72-78 | pubDate is the value of the first of the six meta keys whose value is non-empty |
| `SearchMixed.FirstTruthyFallsThrough` | api/search-mixed.js:72-78 | when none of the six is non-empty, pubDate is whatever `pubdate` holds (absent or "") |
| `SearchMixed.MetaFromFirstTag` | api/search-mixed.js:71-78 | only the first meta-tag record is read: with none the `{}` fallback leaves pubDate undefined, and records after the first never change it |
| `SearchMixed.ToGoogleItem` | api/search-mixed.js:80-87 | source "google", title, snippet, link and displayLink copied, pubDate from the meta-tag chain |
| `SearchMixed.MapGoogleItems` | api/search-mixed.js:65-89 | exactly the allowlisted entries in input order, the i-th output being the i-th allowlisted entry reshaped; each a Google item with an allowlisted link; no allowlisted input is left out |
| `SearchMixed.SearchGoogle` | api/search-mixed.js:91-107 | missing key or cx gives no items and the env error, whatever the upstream would say; a non-OK reply gives no items and the parsed body as the error, or `{status, message: "Google request failed"}` when it did not parse; an OK JSON reply gives the first 10 mapped allowlisted items and no error; it throws exactly on a rejected fetch or an OK non-JSON body |
| `SearchMixed.NaverItem` | api/search-mixed.js:131-142 | source "naver", pubDate passed through, link fallback and display host; title is `StripTags(title \|\| "")` and snippet `StripTags(description \|\| "")` |
| `SearchMixed.NaverItems` | api/search-mixed.js:131-142 | `items.map(...)`: one item per entry, in order, the i-th being the i-th entry reshaped, each from Naver |
| `SearchMixed.SearchNaver` | api/search-mixed.js:110-146 | missing id or secret gives no items and the env error; a non-OK reply gives no items and the parsed body (or `{}`) as the error; an OK reply gives no error and the first min(10, n) entries, in order, reshaped; it throws exactly on a rejected fetch |
| `SearchMixed.Rank` | api/search-mixed.js:160-169 | the ranked list has min(10, d) items, d being the number of de-duplicated items, with distinct non-empty keys, non-increasing timestamps, only items from the merged input, and no de-duplicated item left out newer than one kept: the ten newest |
| `SearchMixed.Answer` | api/search-mixed.js:149-181 | 400 with `{ error: "Missing query ?q=" }` exactly when the query is missing; 500 with the thrown marker exactly when a backend call throws; 200 iff a result body is returned, and when neither backend throws, 200 with the ranked merge of Google's items then Naver's and each backend's own error (or none) |
| `SearchMixed.Handler` | api/search-mixed.js:149-181 | the response is the specified answer (so, when no backend throws, 200 with the ranked merge and both backend errors); any result list has at most 10 items, no repeated key, and non-increasing timestamps |
| `SearchMixed.RankStable` | api/search-mixed.js:162-168 | among items with equal timestamps, the ranked list keeps the de-duplicated (merged) order |
| `SearchMixed.UndatedBeforeNegative` | api/search-mixed.js:164-167 | an undated item ranks ahead of any item whose timestamp is negative |
| `SearchMixed.NoCredentialsAnswer` | api/search-mixed.js:171-177 | with no credentials the endpoint still answers 200 with no items and both env errors, whatever the upstreams would say |
| `SearchMixed.NewsDomainsAcceptExact` | api/search-mixed.js:8-22 | "chosun.com", a table entry, is accepted |
| `SearchMixed.NewsDomainsAcceptSubdomain` | api/search-mixed.js:8-22 | "news.chosun.com", a sub-domain of an entry, is accepted |
| `SearchMixed.NewsDomainsAcceptWww` | api/search-mixed.js:8-22 | "www.hani.co.kr" is accepted once its "www." is stripped |
| `SearchMixed.LookalikeCandidates` | api/search-mixed.js:20 | "xchosun.com" can only match the entries "xchosun.com" or "com" |
| `SearchMixed.NewsDomainsRejectLookalike` | api/search-mixed.js:8-22 | "xchosun.com" is rejected |
| `SearchGoogle.ToPlainItem` | api/search-google.js:55-61 | source "google", title, snippet, link and displayLink copied, no date |
| `SearchGoogle.PickItems` | api/search-google.js:52-61 | the first min(5, k) of the k allowlisted entries, in input order (filter before truncation); each is a Google item with title, snippet, link and displayLink copied and no date; every link is allowlisted |
| `SearchGoogle.Handler` | api/search-google.js:29-67 | 400 on a missing query and 500 on missing key or cx, before any request; the upstream status and body echoed as `googleError` exactly on a non-OK JSON reply; 200 exactly on an OK JSON reply, its items being the first five allowlisted entries reshaped; 500 when the fetch rejects or the body is not JSON |
| `SearchGoogle.TableExtension` | api/search-google.js:8-14 | the aggregated endpoint's table is this one plus "magazine.hankyung.com" |
| `SearchGoogle.MagazineCovered` | api/search-google.js:12 | any host matching "magazine.hankyung.com" matches "hankyung.com", which this table holds |
| `SearchGoogle.SameHosts` | api/search-google.js:8-20 | the two tables accept exactly the same hosts |
| `SearchGoogle.SameNewsLinks` | api/search-google.js:16-21 | the two endpoints' `isNewsLink` agree on every URL |
| `SearchNaver.PlainNaverItem` | api/search-naver.js:41-52 | source "naver", pubDate passed through, link fallback, display host; title is `RemoveTags(title \|\| "")` and snippet `RemoveTags(description \|\| "")`, with no tag left |
| `SearchNaver.PickItems` | api/search-naver.js:39-53 | exactly min(5, n) items, the i-th being the i-th entry reshaped: no filtering |
| `SearchNaver.Handler` | api/search-naver.js:13-59 | 400 on a missing query and 500 on missing id or secret, before any request; the upstream status and body (or `{}`) echoed as `naverError` exactly on a non-OK reply; 200 exactly on an OK reply, its items being the first min(5, n) entries reshaped; 500 when the fetch rejects |
| `SearchNaver.RemoveTagsKeepsPlainText` | api/search-naver.js:47-48 | text without '<' is returned unchanged, white space included (no collapsing or trimming) |
| `Typing.MatchesFrom` | src/App.jsx:18 | the count from index i is at most the typed characters left and the article characters left |
| `Typing.CorrectCount` | src/App.jsx:18 | 0 <= correct count <= min(typed length, article length) |
| `Typing.CorrectCountIsMatches` | src/App.jsx:18 | the count equals the number of positions i < typed length, i < article length, where the characters agree |
| `Typing.PrefixAllCorrect` | src/App.jsx:18 | typing a prefix of the article scores every character |
| `Typing.AppendOne` | src/App.jsx:18 | one more keystroke raises the count by 0 or 1, by 1 exactly when it matches the article at its position |
| `Typing.StatusBar` | src/App.jsx:24 | the status bar shows the typed length and the article length, and the correct count is bounded by both |

## Left out

- Network I/O (`fetch`, `abortableFetch`, timers, `AbortController`): each upstream reply is a
  parameter, either a rejected fetch or a status with a body that parsed as JSON or did not.
- The concurrency of `Promise.all`: both backend outcomes are taken as available before the merge.
  Which rejection wins when both backends throw is not modelled: both give the same 500.
- `new URL(...).hostname` and `new Date(...).getTime()`: runtime behaviour, taken as given
  functions in `Js.Runtime` (no value when the constructor throws or the time is NaN).
- Building the request URLs (`buildGoogleURL`, `searchParams.set`) and the `googleDebug` /
  `naverDebug` payloads: they only feed external services and logs. The query text is used only
  for the missing-query check.
- The text of `e.message` in 500 responses: the body is modelled as a bare "thrown" marker.
- JSON fields of types other than strings, bodies that parse to a non-object (such as `null`),
  and a query parameter given more than once (an array).
- Strings are sequences of Unicode characters. JavaScript indexes UTF-16 code units. The two differ
  only for characters outside the Basic Multilingual Plane (for example an emoji in the typed text).
- `api/extract.js`, `api/search.js` and `vite.config.js` are not part of this model: the first
  wraps fetch and a readability library, the second projects fields, the third is build setup.
- In `src/App.jsx`: the accuracy percentage and `toFixed` (floating point; the division is by
  zero when the article is empty), React state, refs and scroll synchronisation, and the
  contents of the `./article` module (the article text is a parameter).
- Loading credentials with dotenv from `process.env`: credentials are optional string inputs.
- Parsed upstream bodies are modelled by their `items` field only. A non-OK body echoed as
  `googleError`/`naverError`, or as a backend error in the aggregated endpoint, is echoed at
  that abstraction: Google's `{ error: {...} }` object and Naver's error fields are not represented.
