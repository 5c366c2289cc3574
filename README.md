# Flixx video catalog, modelled in Dafny

Flixx is a small video-sharing site. Its Express API keeps three MongoDB
collections (videos, content-removal requests and ads). It accepts video
metadata once the browser has uploaded the file to an external asset store.
It lists videos newest first, a page at a time, and counts likes. It takes in
content-removal requests and serves a random sponsored ad, with a fixed ad as
fallback. The React front end checks the file and the title before an upload,
checks the removal form before posting it, and keeps a list of liked ids and
a title search on the home page.

The model, module by module:

- `Text` (text.dfy) covers the string primitives the handlers use. It has
  JavaScript's white-space class, `trim`, `toLowerCase` on ASCII letters and
  `includes`, and `length`, which counts UTF-16 code units, so a character
  outside the Basic Multilingual Plane counts twice. It also has the e-mail pattern `/^[^\s@]+@[^\s@]+\.[^\s@]+$/`,
  both as a decomposition `l@d.t` (the regular expression) and as a scan.
  A lemma proves the two accept the same strings.
- `Ordering` (ordering.dfy) is the store's `sort({ field: -1 })`.
- `Pagination` (pagination.dfy) models `parseInt(q) || default`, the
  skip/limit window and the pagination block.
- `Schema` (schema.dfy) models the three mongoose schemas. That means their
  setters (trim, lowercase) and the validators run on save.
- `Server` (server.dfy) models the route handlers. The store is the class
  `Server.Store`, whose `seq` fields the handlers append to (`save`) or update
  in place (`$inc`). Each handler answers with a `Response` carrying the
  status code's case and the body or the error text.
- `Upload` (upload.dfy) models the upload form. Its pure checks are functions.
  The component state is the class `Upload.UploadForm`, and each handler step
  is a method.
- `ContentRemoval` (content_removal.dfy) models the removal form's check chain
  and its payload.
- `Home` (home.dfy) models the like toggle, the liked list and the search
  filter.

The clock, `Math.random`, the outcome of each store call and the asset
store's reply are parameters.

Behaviours of the code worth knowing:

- The three-character minimum is measured on the untrimmed title. A title
  such as "ab " is stored as "ab" (`Server.ShortTrimmedTitleAdmitted`).
- An id the store cannot parse makes `findById` throw, so the answer is 500,
  not 404.
- The answers for an empty ad collection and for a store failure are two
  different built-in ads: `default-ad` "Welcome to Flixx" and `fallback-ad`
  "Flixx Video Platform".
- The e-mail check accepts exactly one '@'.
- The server tests the untrimmed message against 10 characters before the
  schema tests the trimmed one.
- Every length bound counts UTF-16 code units, as JavaScript's `length` and
  mongoose's `minlength`/`maxlength` do. Two emoji make a title of length 4,
  which is admitted (`Server.WideTitleAdmitted`).

## Model

| member | source | states |
|---|---|---|
| Text.Trim | backend/server.js:103 | `trim` returns the run of the input after its white-space prefix, followed in the input only by white space, and neither starting nor ending with white space |
| Text.TrimEmpty | portfolio-somu/src/pages/Contentremoval.jsx:15 | `s.trim()` is empty (falsy) exactly when `s` is all white space |
| Text.TrimIdempotent | backend/server.js:103 | trimming an already trimmed string changes nothing |
| Text.TrimLowerCommute | backend/server.js:232 | lower-casing and trimming commute, because lower-casing neither creates nor removes white space |
| Text.LowerIdempotent | backend/server.js:232 | lower-casing a lower-cased string changes nothing |
| Text.EmailPatternIff | backend/server.js:218-219 | the scan accepts a string exactly when `/^[^\s@]+@[^\s@]+\.[^\s@]+$/` matches it: no white space, exactly one '@' with text before it, and a '.' after it with text on both sides |
| Text.EmailHasNoSpace | backend/server.js:218-232 | an address the pattern accepts is unchanged by `trim` |
| Text.ContainsTransitive | portfolio-somu/src/components/Home.jsx:18 | an occurrence of an occurrence is an occurrence (`includes` is transitive) |
| Text.Lower | backend/server.js:232 | `toLowerCase` keeps the length, maps each character on its own, leaves no upper-case ASCII letter, keeps every other character as it was, and neither creates nor removes white space |
| Text.JsLength | backend/server.js:96 | `length` in UTF-16 code units: between the number of characters and twice it, and zero only for the empty string |
| Text.JsLengthAppend | backend/server.js:96 | the UTF-16 length of a concatenation is the sum of the lengths |
| Text.TrimJsLength | portfolio-somu/src/pages/Contentremoval.jsx:27 | trimming never makes a string longer in UTF-16 code units |
| Text.Contains | portfolio-somu/src/components/Home.jsx:18 | `includes`: the empty needle and the whole string always occur, and an occurrence is never longer than the string |
| Text.IsEmail | backend/server.js:218-219 | an accepted address has at least 5 characters and neither starts nor ends with '@' |
| Text.ContainsLower | portfolio-somu/src/components/Home.jsx:18 | an occurrence survives lower-casing both strings |
| Ordering.SortDesc | backend/server.js:147 | the listing order is sorted by the timestamp descending and is a permutation of the collection |
| Schema.TrimSetterIdempotent | backend/server.js:20-25 | the schema's `trim` setter leaves the route's already trimmed title and message unchanged |
| Schema.EmailSetterIdempotent | backend/server.js:54-59 | the schema's `trim` and `lowercase` setters leave the route's trimmed, lower-cased e-mail unchanged |
| Schema.VideoViolations | backend/server.js:19-45 | a video document saves exactly when its trimmed title is non-empty with at most 100 UTF-16 code units and both asset references are non-empty; an empty title reports `required` and a long one `maxlength` |
| Schema.RemovalViolations | backend/server.js:53-76 | a removal document saves exactly when the e-mail is non-empty and the trimmed message has 10 to 1000 UTF-16 code units; otherwise the message reports `required`, `minlength` or `maxlength`, the first that fails |
| Pagination.ParamOr | backend/server.js:142-143 | a parsed non-zero parameter is used; an absent, NaN or zero one falls back to the default (page 1, limit 12) |
| Pagination.CeilDiv | backend/server.js:158 | `pages` is Math.ceil(total / limit): the least integer not below the quotient, for either sign of the limit |
| Pagination.List | backend/server.js:142-161 | a negative skip `(page-1)*limit` is refused by the store; otherwise the items are the run of the sorted collection starting at the skip, at most abs(limit) of them, with `pages`, `hasNext = page < pages` and `hasPrev = page > 1` |
| Pagination.Metadata | backend/server.js:156-162 | the block echoes the page and the total; `hasNext` holds exactly when the page is before the last, `hasPrev` exactly when page > 1; for a positive limit `pages` is the least count of limit-sized pages holding the total, and 0 exactly when the total is 0 |
| Pagination.Window | backend/server.js:147-149 | `.skip(s).limit(n)` gives min(n, items left) items, the i-th being item s + i of the sorted collection, and none past the end |
| Pagination.WindowSplit | backend/server.js:144-149 | two adjacent skip/limit windows concatenate to the window of their combined size |
| Pagination.ConsecutivePages | backend/server.js:142-149 | pages 1 and 2 of size n, in order, are exactly page 1 of size 2n |
| Pagination.ItemOnItsPage | backend/server.js:144-149 | item i of the sorted collection is item i mod limit of page i div limit + 1, so no item is skipped |
| Pagination.HasNextIff | backend/server.js:158-161 | for page and limit of at least 1, `hasNext` holds exactly when items remain beyond this page, and `hasPrev` exactly when page > 1 |
| Pagination.BeyondLastPage | backend/server.js:144-161 | a page past the last one answers with an empty list and `hasNext` false, not with an error |
| Server.AdmitVideo | backend/server.js:90-130 | a missing or empty `title`, `videoUrl` or `cloudinaryId` is rejected first; then an untrimmed title under 3 UTF-16 code units; then the trimmed title must be non-empty with at most 100, and any later failure is the schema's 400 carrying exactly `VideoViolations` of the trimmed title. The stored fields are the trimmed title, the two references, `duration`/`fileSize` or 0 and `format` or "mp4" |
| Server.WideTitleAdmitted | backend/server.js:96 | a title of two emoji has length 4 in UTF-16 code units, passes the 3-unit minimum and is stored unchanged |
| Server.ShortTrimmedTitleAdmitted | backend/server.js:96-103 | the length check precedes the trim, so "ab " is admitted and stored as "ab" |
| Server.BlankTitleRejectedBySchema | backend/server.js:96-130 | a title of spaces passes the route's checks and is rejected with 400 by the schema's `required` |
| Server.AdmitRemoval | backend/server.js:211-250 | in order: missing `email`/`msg`, then an address the pattern refuses, then an untrimmed message under 10 UTF-16 code units; otherwise accepted exactly when the trimmed message has 10 to 1000, storing the lower-cased e-mail and the trimmed message, and any later failure is the schema's 400 carrying exactly `RemovalViolations` of those values |
| Server.AcceptedEmailSetter | backend/server.js:218-232 | for an address the pattern accepts, the stored e-mail is its lower-cased form and never empty |
| Server.AdmitRemovalUsesPattern | backend/server.js:217-223 | the route's e-mail rejection happens exactly when the regular expression does not match |
| Server.FindVideo | backend/server.js:173-177 | the lookup returns a position holding the id, or no position when no video has it |
| Server.NewVideo | backend/server.js:102-109 | the document saved for an admitted upload has the fresh id, the upload time, likes 0 and the admitted title, references, duration, size and format |
| Server.Liked | backend/server.js:189-193 | `$inc: { likes: 1 }` on the matched video: the same collection with that video's likes one higher, its other fields and every other video unchanged |
| Server.LikesAccumulate | backend/server.js:189-193 | k likes raise that video's count by exactly k and change no other video and no other field |
| Server.LikeAddsOne | backend/server.js:189-193 | each like adds exactly one to the total likes of the catalog |
| Server.FindAppended | backend/server.js:173 | a video saved with a fresh id is found at the end of the collection |
| Server.Store.constructor | backend/server.js:78-80 | the three collections start empty |
| Server.Store.UploadVideo | backend/server.js:85-137 | a rejection answers 400 with its reason and stores nothing; a store failure answers 500; otherwise the new video (with likes 0 and the given time) is appended and 201 returns its id, title, URL, duration and time |
| Server.Store.ListVideos | backend/server.js:140-168 | 200 with the page of the newest-first listing and its pagination block, the items all from the store and in timestamp order; 500 on a store failure or a negative skip |
| Server.Store.GetVideo | backend/server.js:171-184 | 200 with the video holding the id; 404 exactly when no video holds it; 500 for an unparsable id or a store failure |
| Server.Store.Like | backend/server.js:187-204 | the matched video's likes go up by exactly one and 200 returns the new count, with everything else unchanged; an unknown id gives 404 and changes nothing |
| Server.Store.SubmitRemoval | backend/server.js:207-254 | a rejection answers 400 and stores nothing; otherwise the request is appended with status `pending` and 201 returns its id and status |
| Server.Store.StoreRemoval | backend/server.js:231-242 | the admitted request is appended with a fresh id and status `pending`, the other collections are unchanged, and 201 returns the id and the status |
| Server.Store.ListRemovals | backend/server.js:257-268 | 200 with every removal request, newest first (a permutation of the collection); 500 on a store failure |
| Server.Store.RandomAd | backend/server.js:271-297 | always 200: the `fallback-ad` on a store failure, the `default-ad` (url "#") for an empty collection, otherwise the ad at index `PickIndex(r, n)`, a member of the collection |
| Server.PickIndex | backend/server.js:285 | for `r = Math.random()` in [0, 1) and n > 0 ads, floor(r * n) is an index in range: the k with k <= r * n < k + 1, and k < n |
| Server.Store.CreateAd | backend/server.js:300-322 | a missing `title`, `imageUrl` or `url` answers 400 and stores nothing; otherwise the ad is appended and returned with 201 |
| Server.UploadThenGet | backend/server.js:111-122 | a video just uploaded is fetched back by the returned id with the admitted fields and likes 0 |
| Upload.FileCheck | portfolio-somu/src/components/Upload.jsx:22-33 | a file passes exactly when its type is one of the five video types and its size is at most 100 MiB; the type is checked first |
| Upload.SizeCapInclusive | portfolio-somu/src/components/Upload.jsx:29-33 | 104857600 bytes are accepted and 104857601 are not |
| Upload.SubmitCheck | portfolio-somu/src/components/Upload.jsx:73-81 | the upload is refused with the first message when there is no file or the title is blank, and with the second when the untrimmed title is under 3 UTF-16 code units |
| Upload.NextProgress | portfolio-somu/src/components/Upload.jsx:89-95 | a tick raises the progress while it is below 90, holds it at 90 from 90 and above, keeps it a multiple of 10, and from a shown value at most 90 never passes 90 |
| Upload.MakePayload | portfolio-somu/src/components/Upload.jsx:105-111 | the posted title is trimmed, no longer than the input, and empty exactly when the input is blank; URL, public id, duration and byte count are the asset store's |
| Upload.TicksFromZero | portfolio-somu/src/components/Upload.jsx:88-96 | from 0, k ticks give min(10k, 90): always a multiple of 10 in [0, 90] |
| Upload.FormPayloadAtServer | portfolio-somu/src/components/Upload.jsx:105-113 | a submission the form lets through is stored exactly when both asset references are non-empty and the trimmed title has 3 to 100 UTF-16 code units; it is stored with the trimmed title and format "mp4" |
| Upload.PaddedShortTitleRejectedByServer | portfolio-somu/src/components/Upload.jsx:78-81 | "ab " passes the form's checks, but its posted title "ab" is refused by the server with `TitleTooShort` |
| Upload.UploadForm.constructor | portfolio-somu/src/components/Upload.jsx:7-11 | no file, empty title and preview, not uploading, progress 0 |
| Upload.UploadForm.EditTitle | portfolio-somu/src/components/Upload.jsx:163 | the title input replaces the title |
| Upload.UploadForm.HandleFileChange | portfolio-somu/src/components/Upload.jsx:18-42 | no file changes nothing; a rejected file only sets the error, keeping the previous file and preview; an accepted one becomes the file with its preview URL and clears the error |
| Upload.UploadForm.StartUpload | portfolio-somu/src/components/Upload.jsx:71-84 | starts exactly when the submit checks pass, setting uploading with progress 0; otherwise it shows the failing check's message and changes nothing else |
| Upload.UploadForm.Tick | portfolio-somu/src/components/Upload.jsx:88-96 | progress goes to 90 from 90 or more, else up by 10, and stays a multiple of 10 in [0, 100] |
| Upload.UploadForm.AssetUploaded | portfolio-somu/src/components/Upload.jsx:99-111 | progress becomes 100 and the payload carries the trimmed title and the reply's URL, public id, duration and byte count |
| Upload.UploadForm.Saved | portfolio-somu/src/components/Upload.jsx:115-134 | title, file, preview and progress are reset, the success notice is shown, and uploading ends |
| Upload.UploadForm.Failed | portfolio-somu/src/components/Upload.jsx:129-134 | the server's non-empty error text or the generic message is shown, uploading ends, and the input is kept |
| Upload.UploadForm.Cancel | portfolio-somu/src/components/Upload.jsx:137-144 | the file, the preview URL and the title are cleared |
| ContentRemoval.HandleRemove | portfolio-somu/src/pages/Contentremoval.jsx:15-38 | checks in order (empty e-mail or blank message, then the pattern, then a trimmed message under 10 UTF-16 code units), each failure reported alone; on success the payload carries the trimmed message and the e-mail unchanged (trimming it is the identity) |
| ContentRemoval.FormAcceptedPassesServerChecks | portfolio-somu/src/pages/Contentremoval.jsx:35-38 | what the form posts passes every explicit check of the server; it is stored exactly when the trimmed message has at most 1000 UTF-16 code units, with the e-mail lower-cased |
| ContentRemoval.BoundedFormInputIsStored | portfolio-somu/src/pages/Contentremoval.jsx:100 | with the message box's `maxLength` of 1000 UTF-16 code units, every request the form lets through is stored |
| Home.FilterMembers | portfolio-somu/src/components/Home.jsx:33 | `filter` keeps exactly the elements that pass the test: every element of the result is from the input and passes, and no passing element is lost |
| Home.FilterAppend | portfolio-somu/src/components/Home.jsx:33 | filtering a concatenation is the concatenation of the filtered parts, so `filter` keeps the original order |
| Home.Filter | portfolio-somu/src/components/Home.jsx:33 | `filter` returns no more elements than it is given, each passing the test |
| Home.IsVideoLiked | portfolio-somu/src/components/Home.jsx:31 | `includes(id)` holds exactly when some position of the liked list holds the id |
| Home.ToggleLike | portfolio-somu/src/components/Home.jsx:23-29 | `handleLike(id)` flips whether id is liked, leaves every other id's membership as it was, and appends an id that was not liked at the end |
| Home.MatchesQuery | portfolio-somu/src/components/Home.jsx:18 | the empty query matches every title, and so does any exact substring of the title |
| Home.ToggleTwiceRestores | portfolio-somu/src/components/Home.jsx:23-29 | an id not in the list is appended at the end, and toggling it again restores the original list exactly |
| Home.ToggleKeepsNoDuplicates | portfolio-somu/src/components/Home.jsx:23-29 | a list without repeated ids keeps none after a toggle |
| Home.LikedVideoList | portfolio-somu/src/components/Home.jsx:33 | a video is in the liked list exactly when it is in the catalog and its id is liked |
| Home.SearchResults | portfolio-somu/src/components/Home.jsx:16-21 | a video is a result exactly when its lower-cased title includes the lower-cased query |
| Home.EmptyQueryShowsAll | portfolio-somu/src/components/Home.jsx:16-21 | the empty query returns every video, in order |
| Home.LongerQueryNarrows | portfolio-somu/src/components/Home.jsx:16-21 | every result for a longer query q + more is also a result for q |
| Home.SearchIgnoresQueryCase | portfolio-somu/src/components/Home.jsx:17-19 | lower-casing the query does not change the results |

## Left out

- Express, mongoose and CORS wiring, the server start, the health check, the root route and the catch-all 404 and error handlers: these are transport plumbing.
- The MongoDB query engine and ObjectId parsing: ids are natural numbers given out by `Store.nextId`. An id the store cannot parse is an absent `Option`.
- Concurrency: the atomicity of `$inc` under concurrent likes is not modelled. Each like is one sequential step, and `Server.LikesAccumulate` gives the count after k of them.
- Failures of the store: each is a `storeFails` parameter. Its error text (the `details` shown in development mode) is not modelled.
- The text of the schema validators' messages: a schema 400 carries the list of failing validators (`Schema.Violation`), not the joined message.
- Request fields that are not strings: a number or object where a string is expected (so that `trim` throws and the answer is 500) is outside the model. Fields are absent or strings.
- Numbers: `duration` and `fileSize` are integers, and JavaScript floating point is not modelled.
- Server.Store.RandomAd: `r` is a real in [0, 1). The floating-point rounding of `Math.random() * n` is not modelled.
- Ordering.SortDesc: the store gives no order among equal timestamps. The model keeps insertion order for them but does not state this as a contract.
- Unicode: `toLowerCase` is modelled on the ASCII letters only. The white-space class is JavaScript's full list. A string is a sequence of code points; `length` counts each code point at or above U+10000 as two UTF-16 code units, and lone surrogates are not modelled.
- The literal text of each route's 400 `error` message: a rejection is its `Server.Rejection` case, which names the reason.
- The upload to the asset store, all axios calls, the `setInterval` scheduling, the `setTimeout` redirects and `URL.createObjectURL`/`revokeObjectURL`: these are foreign or asynchronous calls. Their results are parameters (`AssetReply`, `objectUrl`, `serverError`).
- localStorage persistence of the liked ids and the age gate: this is browser storage.
- Rendering-only files and JSX markup, App.jsx's fetch and route plumbing, and the file size display through `toFixed`. The message box's `maxLength` of 1000 appears only as the hypothesis of `ContentRemoval.BoundedFormInputIsStored`. The title input's `maxLength` of 100 is not modelled: `Upload.FormPayloadAtServer` states the server's bound on the trimmed title for any input.
- Transitions of the removal status (pending, reviewed, resolved): the code defines the enum but no route changes it. New requests are `Pending`.
