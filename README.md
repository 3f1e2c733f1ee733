# bas-bots, modelled in Dafny

bas-bots collects case data from the São Paulo court portal (TJSP e-SAJ).
A robot drives a browser through two logins:

- first the Presto identity extension, with an e-mail and a password;
- then the court portal, by digital certificate and PIN.

It then visits each case's search page and reads the case's movements and
metadata. Around the robot sits a Bun/SQLite HTTP API. It keeps users and
their robot executions, execution logs, schedules, notifications, credentials
and browser extensions. Every request is authenticated by a JWT bearer token.
Stored secrets (credential passwords, extension passwords and PINs) are
encrypted with AES-256-GCM in an `iv:tag:cipher` hex envelope.

The model has one module per source file:

- `Scraper` is the robot (`src/services/robot.service.ts`). It is a class
  whose state is the page, the context and a trace of browser events. The
  browser is a `Browser` value that says which selectors become visible and
  which pages exist. Each method is proved against a pure phase function, and
  the run's guarantees are lemmas about that phase function (`RunSpec`).
- `ProcessNumber` and `Extraction` hold the pure parts of the robot: the
  process-number split, the search URL, and the row and field extraction with
  the claim-value normalisation.
- `JsString` holds the JavaScript string operations the code relies on:
  `split`, `trim`, `replace` with a string pattern, and truthiness.
- `Crypto` and `Hex` model `src/crypto.ts`. The cipher itself is a `Vault`
  of caller-supplied functions, and `Inverts` says that opening what was
  sealed gives the text back.
- `Auth` and `Middleware` model token issue and check, bearer parsing,
  `withAuth` and the error-to-status mapping.
- `Store` and `Db*` model the tables. Each table is a class with
  `rows: map<Id, Row>`, an insertion `order` (the `created_at` order) and a
  `clock` standing for `CURRENT_TIMESTAMP`. Its methods change those fields
  and say exactly how.
- `ExecutionService` and `Api*` model the service and the HTTP handlers.
  Each handler's checks are a pure function that gives the error in the
  source's order. The handler method applies it and states the table's new
  state.

Where the repository's written description and its code differ, the model
follows the code:

- A process number is split on `.` without checking the field count. Missing
  fields become `undefined` and extra fields are ignored
  (`ProcessNumber.SplitFields`, `ProcessNumber.ExtraPartsIgnored`).
- The first case page that does not show its movements table ends the whole
  run with that timeout. No per-item failure map is kept
  (`Scraper.FailureSkipsRest`, `Scraper.ExtractFails`).
- Only the first `.` of a claim value is removed, so `R$ 1.234.567,89`
  becomes `1234.567.89` (`Extraction.ClaimExampleMillions`).
- The certificate is the list option whose text matches a fixed owner name,
  and the model takes that option's label from the browser. There is no
  separate "certificate not found" failure: a missing owner shows up as the
  wait for it timing out.
- A run over an empty list of process numbers fails when it parses the
  first result (`Scraper.RunEmptyList`).
- An unknown execution is a 400 for the get handler but a 404 for update and
  delete (`ApiExecutions.HandlerGetExecutionByID`).

Where the code is evidently wrong (see "## Findings"), the model still
follows the code, and the corrected behaviour is modelled beside it. The one
exception is the extensions store, whose code could not store or read a row
at all: there the model is the store the extension handlers expect (see
"## Left out").

- The Presto login and the run use `isLoggedIn` as written. The form is
  therefore always filled in (`Scraper.PrestoAlwaysFillsForm`). The corrected
  login is `Scraper.PrestoPhaseIntended`.
- The update handlers for credentials and extensions store the new secrets
  as the body gives them. The corrected handlers are
  `ApiCredentials.HandlerUpdateCredentialIntended` and
  `ApiExtensions.HandlerUpdateExtensionIntended`.

## Model

| member | source | states |
|---|---|---|
| Scraper.WaitFor | src/services/robot.service.ts:84-89 | `locator.waitFor` resolves to `undefined` exactly when the selector becomes visible; otherwise the catch gives `false` |
| Scraper.IsLoggedInAsWritten | src/services/robot.service.ts:84-95 | isLoggedIn as written answers false for every outcome of the wait |
| Scraper.IsLoggedIn | src/services/robot.service.ts:84-95 | the intended probe is true exactly when the wait resolved, that is when the marker appeared |
| Scraper.IsLoggedInMissesSession | src/services/robot.service.ts:84-95 | with the marker visible the code as written says "not logged in" and the corrected probe says "logged in"; the corrected probe equals visibility for every input |
| Scraper.AwaitThen | src/services/robot.service.ts:114 | a wait for a selector is recorded in the trace; if the selector never shows, the phase ends with that selector's timeout, and otherwise the following steps decide the outcome |
| Scraper.SistemaEvents | src/services/robot.service.ts:120-142 | the events of the certificate login are its navigation, the certificate tab, the two list waits and then the PIN steps, and its outcome is the PIN step's outcome |
| Scraper.PrestoAlwaysFillsForm | src/services/robot.service.ts:84-115 | as written, the Presto login always fills in the e-mail and the password and waits for `button[title=Sair]`; it passes exactly when that button appears, and otherwise fails on its timeout |
| Scraper.PrestoSessionMissed | src/services/robot.service.ts:84-115 | with the "Sair" link visible but no `button[title=Sair]`, the login as written fails on the button's timeout, while the corrected login passes |
| Scraper.PrestoSkipsFormWhenSignedIn | src/services/robot.service.ts:102-115 | with the corrected probe, a visible sign-out control means nothing is done after the navigation and the probe; otherwise the e-mail and the password are filled in |
| Scraper.PrestoOutcome | src/services/robot.service.ts:102-115 | with the corrected probe, the Presto login succeeds exactly when it was signed in already or the "Sair" button appears after the form; any failure is that button's timeout |
| Scraper.SistemaOutcome | src/services/robot.service.ts:120-142 | the portal login succeeds exactly when the certificate list, its owner, the PIN prompt and the menu title all appear; each missing marker is its own timeout; the PIN is typed only once the prompt has appeared |
| Scraper.FailureSkipsRest | src/services/robot.service.ts:267-271 | once one case fails, the cases after it are never visited and the run's result and trace stay as they were |
| Scraper.ExtractAllSucceeds | src/services/robot.service.ts:267-271 | the loop succeeds exactly when every listed case has its page; otherwise it fails with the movements-table timeout |
| Scraper.ExtractAllMap | src/services/robot.service.ts:267-271 | the map of a successful loop has exactly the listed numbers as keys, each mapped to the metadata of its own page |
| Scraper.ExtractAllKeys | src/services/robot.service.ts:267-271 | the keys of a successful loop's map are exactly the listed numbers |
| Scraper.ExtractAllValues | src/services/robot.service.ts:267-271 | in a successful loop each listed number is mapped to the metadata read from its page |
| Scraper.ExtractStep | src/services/robot.service.ts:267-271 | a successful loop over a list is the loop over all but the last case, with the last case's metadata added |
| Scraper.ExtractFails | src/services/robot.service.ts:267-271 | when case i has no page, the loop ends after visiting it, with the visits so far and the movements-table timeout |
| Scraper.ExtractGoesOn | src/services/robot.service.ts:267-271 | when case i has its page, one more step visits it, pauses for a second and adds its metadata under its number |
| Scraper.ExtractAllNeverCloses | src/services/robot.service.ts:267-271 | the extraction loop never closes the browser |
| Scraper.RunRegistersCleanupFirst | src/services/robot.service.ts:240-248 | the very first thing a run does is register the cleanup handlers |
| Scraper.RunClosesOnceAtTheEnd | src/services/robot.service.ts:240-300 | whenever a context existed or was launched, the run ends with exactly one close, and no close comes before it; with no context nothing is closed |
| Scraper.RunClosesOnceLaunched | src/services/robot.service.ts:297-299 | a run whose browser launched ends with exactly one close, whatever failed before |
| Scraper.PhasesNeverClose | src/services/robot.service.ts:60-142 | launch, the Presto login and the portal login never close the browser themselves |
| Scraper.ClosedLast | src/services/robot.service.ts:297-299 | a trace without a close followed by one close has its only close at the end |
| Scraper.RunSucceeds | src/services/robot.service.ts:240-300 | a run succeeds exactly when the browser launches, both logins pass, the list is not empty and every case has its page |
| Scraper.RunMap | src/services/robot.service.ts:267-284 | a successful run answers each listed number with the metadata of its page, and nothing else |
| Scraper.RunEmptyList | src/services/robot.service.ts:284 | after both logins, an empty list of numbers fails when the first result is parsed |
| Scraper.Scraper.constructor | src/services/robot.service.ts:11-14 | a new robot has no page, no context and an empty trace |
| Scraper.Scraper.Init | src/services/robot.service.ts:16-18 | init registers the cleanup handlers and does nothing else |
| Scraper.Scraper.Close | src/services/robot.service.ts:20-26 | close closes the context when there is one, and is a no-op otherwise |
| Scraper.Scraper.InitiateBrowser | src/services/robot.service.ts:60-82 | a successful launch sets the context and reuses the first tab or opens a new one; a failed launch changes nothing |
| Scraper.Scraper.IsLoggedInBy | src/services/robot.service.ts:84-95 | records one wait and answers what isLoggedIn as written answers, which is never a session |
| Scraper.Scraper.LoginPresto | src/services/robot.service.ts:102-115 | without a page the login fails with "page not initialized"; with one it gives the outcome and events of the Presto phase as written, which always fills in the form |
| Scraper.Scraper.LoginSistema | src/services/robot.service.ts:120-142 | without a page the login fails; with one it gives the portal phase's outcome and events |
| Scraper.Scraper.EnterPin | src/services/robot.service.ts:132-140 | the certificate submit and the PIN steps give the PIN phase's outcome and events |
| Scraper.Scraper.OpenCase | src/services/robot.service.ts:176-179 | visiting a case goes to its search URL and waits for the movements table, which appears exactly when the page exists |
| Scraper.Scraper.ExtrairAndamentos | src/services/robot.service.ts:172-192 | with a page, the case's movements are its rows mapped in order; a missing page is a timeout; no page is "page not initialized" |
| Scraper.Scraper.ExtrairMetadados | src/services/robot.service.ts:203-232 | with a page, the case's metadata are read from its fields; a missing page is a timeout; no page is "page not initialized" |
| Scraper.Scraper.ExtractEach | src/services/robot.service.ts:267-271 | the loop's result and trace are those of the loop specification |
| Scraper.Scraper.Run | src/services/robot.service.ts:240-300 | the run's result and trace are those of the run specification, with the Presto login as written, so every lemma about that specification holds of the method; the context is open and the page is the first or a new tab exactly when the launch succeeded, and a failed launch leaves both as they were |
| ProcessNumber.At | src/services/robot.service.ts:305-317 | indexing the split parts gives the part when it exists and `undefined` past the end |
| ProcessNumber.SplitFields | src/services/robot.service.ts:304-319 | each of the five fields is the matching `.`-separated part when there is one and `undefined` otherwise; the first always exists, has no dot and is a prefix of the number |
| ProcessNumber.SplitCanonical | src/services/robot.service.ts:304-319 | a number made of five dot-free fields splits into exactly those fields, and joining them gives the number back |
| ProcessNumber.ExtraPartsIgnored | src/services/robot.service.ts:304-319 | fields after the fifth do not change the split |
| ProcessNumber.SplitExample | src/services/robot.service.ts:304-319 | `1027910-13.2022.8.26.0002` splits into `1027910-13`, `2022`, `8`, `26`, `0002` |
| ProcessNumber.SearchUrl | src/services/robot.service.ts:176 | the search URL starts with the portal's search base and ends with the full number parameter and the fixed tail |
| ProcessNumber.SearchUrlCanonical | src/services/robot.service.ts:176 | for a canonical number, the URL holds the first two fields, the forum field and the whole number in the template's places |
| Extraction.CellText | src/services/robot.service.ts:186-188 | a cell gives its trimmed text, and a missing cell gives the empty string |
| Extraction.RowToMovement | src/services/robot.service.ts:184-190 | a row's date is its first cell and its text its last cell, both trimmed; an empty row gives two empty strings |
| Extraction.Movements | src/services/robot.service.ts:181-191 | a missing table gives no movements; otherwise there is one movement per row, in row order |
| Extraction.MapRows | src/services/robot.service.ts:184-190 | the mapped rows have the same length and order as the table rows |
| Extraction.MovementsInOrder | src/services/robot.service.ts:184-190 | mapping rows commutes with concatenation, so the document order is kept |
| Extraction.FieldText | src/services/robot.service.ts:213-218 | a field gives its trimmed text, and a missing field gives the empty string |
| Extraction.ClaimValue | src/services/robot.service.ts:219 | a missing claim value gives the empty string, and a present one is trimmed and then rewritten by the three first-match replacements |
| Extraction.MetadataOf | src/services/robot.service.ts:212-231 | each metadata field is the trimmed text of its element, and the claim value is normalised |
| Extraction.NormalizeAmount | src/services/robot.service.ts:219 | `R$ a.b,c` becomes `ab.c` when `a` has no dot, `b` no comma and `c` no trailing space |
| Extraction.AmountIsTrimmed | src/services/robot.service.ts:219 | an amount with the currency prefix and no trailing space is unchanged by trim |
| Extraction.ClaimExample | src/services/robot.service.ts:219 | `R$ 12.345,67` becomes `12345.67` |
| Extraction.ClaimExampleMillions | src/services/robot.service.ts:219 | `R$ 1.234.567,89` becomes `1234.567.89`, because only the first dot is removed |
| JsString.OrElse | src/services/robot.service.ts:186 | `x \|\| fallback` on a string gives the string when it is non-empty, and the fallback otherwise |
| JsString.OrNull | src/services/execution.service.ts:58 | `x \|\| null` keeps a non-empty string and gives null otherwise |
| JsString.TrimStart | src/services/robot.service.ts:186 | the result is a suffix of the input, whatever was dropped is whitespace, and it does not start with whitespace |
| JsString.TrimEnd | src/services/robot.service.ts:186 | the result is a prefix of the input, whatever was dropped is whitespace, and it does not end with whitespace |
| JsString.Trim | src/services/robot.service.ts:186 | the result neither starts nor ends with whitespace |
| JsString.TrimIsInfix | src/services/robot.service.ts:186 | the trimmed text is a slice of the input with only whitespace on either side |
| JsString.TrimIdempotent | src/services/robot.service.ts:186 | trimming twice is trimming once |
| JsString.TrimOfTrimmed | src/services/robot.service.ts:219 | a text without surrounding whitespace is its own trim |
| JsString.IndexOfFrom | src/services/robot.service.ts:219 | the first occurrence of the pattern at or after the start, or none when there is no later occurrence |
| JsString.ReplaceFirstSpec | src/services/robot.service.ts:219 | `replace` with a string pattern changes nothing without an occurrence, and otherwise replaces exactly the first occurrence |
| JsString.ReplaceFirstChar | src/services/robot.service.ts:219 | for a one-character pattern, the first occurrence of the character is replaced and the rest is kept |
| JsString.Split | src/services/robot.service.ts:305 | `split` gives at least one part and no part holds the separator |
| JsString.JoinThree | src/crypto.ts:14 | joining three parts puts a separator between each pair |
| JsString.JoinSplit | src/services/robot.service.ts:305 | joining a split gives the text back |
| JsString.SplitNoSeparator | src/crypto.ts:19-20 | a text without the separator splits into itself alone |
| JsString.SplitCons | src/services/robot.service.ts:305 | splitting a text is decided by its first character and the split of the rest |
| JsString.SplitAppend | src/services/robot.service.ts:305 | splitting `a + c + b` is the split of `a` followed by the split of `b` |
| JsString.SplitJoin | src/crypto.ts:14-20 | splitting the join of separator-free parts gives the parts back |
| JsString.SplitLastIsSuffix | src/api/executions.ts:76-77 | the last part of a split is a suffix of the text, and is preceded by the separator when it is not the whole text |
| JsString.LastPartAfterSeparator | src/api/executions.ts:76-77 | in `prefix + c + last` without `c` in `last`, the last part is `last` |
| JsString.JoinFive | src/services/robot.service.ts:305 | joining five parts puts a separator between each pair |
| JsString.SplitFirstIsPrefix | src/services/robot.service.ts:305 | the first part of a split is a prefix of the text |
| JsString.ReplaceFirstCharAt | src/services/robot.service.ts:219 | with the first occurrence of the character at k, the replacement is the text up to k, the replacement and the text after k |
| JsString.ReplaceFirstAtStart | src/services/robot.service.ts:219 | a text that starts with the pattern has exactly that start replaced |
| JsString.ReplaceFirstCharAfter | src/services/robot.service.ts:219 | after a part without the character, its first occurrence is the one replaced |
| Hex.DigitValue | src/crypto.ts:21-23 | a hex digit's value is below 16 |
| Hex.Encode | src/crypto.ts:14 | `toString('hex')` gives two lower-case hex digits per byte and no `:` |
| Hex.DigitRoundTrip | src/crypto.ts:21-23 | reading back the digit written for a value below 16 gives the value |
| Hex.ByteRoundTrip | src/crypto.ts:21-23 | reading back the two digits written for a byte gives the byte |
| Hex.DecodeEncode | src/crypto.ts:14-23 | `Buffer.from(hex, 'hex')` of `toString('hex')` gives the bytes back |
| JsDate.Parse | src/api/executions.ts:106-108 | `new Date(text)` is a time exactly when the engine reads the text as one; the empty text is an Invalid Date |
| JsDate.FromJson | src/api/executions.ts:106-108 | `new Date(null)` is time 0; a text is read by the engine |
| JsDate.ToISOString | src/db/executions.ts:189-196 | `toISOString` renders a time as its text and throws "Invalid time value" on an Invalid Date |
| JsDate.ToColumn | src/db/schedules.ts:118-119 | `d ? d.toISOString() : null`: a missing date is NULL, a time its text, and an Invalid Date, being truthy, throws |
| JsDate.FromColumn | src/db/schedules.ts:170-177 | the Date a column value stands for renders back to that value |
| Crypto.Encrypt | src/crypto.ts:4-15 | the envelope splits on `:` into exactly the hex of the iv, of the tag and of the cipher text, and its first field is 32 characters |
| Crypto.Decrypt | src/crypto.ts:17-34 | a text without exactly three `:`-fields is an invalid-format error, and a successful decrypt's result is what the cipher opens from the three decoded fields |
| Crypto.DecryptEncrypt | src/crypto.ts:4-34 | for a cipher that inverts its seal, decrypting what encrypt produced gives the text back, for every iv |
| Http.LastSegment | src/api/executions.ts:76-77 | `pathname.split('/').pop()` has no `/`, is a suffix of the path, and follows a `/` unless it is the whole path |
| Http.LastSegmentOf | src/api/executions.ts:76-77 | the last segment of `prefix/id` is `id` when `id` has no `/` |
| Http.PathID | src/api/executions.ts:76-79 | the id is required exactly when the path is empty or ends in `/`, with a 400; otherwise it is the non-empty last segment |
| Http.Locate | src/api/executions.ts:94-100 | the order of the handlers' checks: a missing id is a 400, an unknown row the given error, another user's row a 403 "Forbidden"; it succeeds exactly for the user's own row |
| Http.CryptoThrown | src/crypto.ts:17-34 | what decrypt throws reaches the handler as an error that is not one of the four client errors |
| Http.Reveal | src/api/credentials.ts:109 | a handler's decrypt fails exactly when decrypt fails; otherwise it gives the plain text |
| Http.DateThrown | src/api/middleware.ts:46-62 | the RangeError of an Invalid Date is none of the client errors, so the middleware answers it with a 500 |
| Auth.MakePayload | src/services/auth.service.ts:24-35 | the access token names the issuer and the user, is issued in the current second and expires `expiresIn` seconds later |
| Auth.ValidateJWT | src/services/auth.service.ts:37-54 | a token that does not verify is "Invalid token."; a token is accepted exactly when it verifies with the access issuer and a non-empty subject, which is then the result; every failure is a 401 |
| Auth.ValidateMakeJWT | src/services/auth.service.ts:24-54 | a token made for a user validates, before it expires, to that user; an empty user id is refused |
| Auth.GetBearerToken | src/services/auth.service.ts:56-66 | a missing or empty header is "Missing Authorization header", and every failure is a 401 |
| Auth.BearerTokenSpec | src/services/auth.service.ts:56-66 | a token is found exactly when the header begins with `Bearer `, and it is the text after that up to the next space |
| Auth.BearerRoundTrip | src/services/auth.service.ts:56-66 | `Bearer ` followed by a token without spaces gives the token back |
| Auth.CheckPasswordHash | src/services/auth.service.ts:13-20 | a password matches exactly when it is non-empty and the hash verifies it |
| Auth.MakeRefreshToken | src/services/auth.service.ts:68-71 | the refresh token is 64 hex digits that decode to the 32 random bytes |
| Middleware.ErrorHandlingMiddleware | src/api/middleware.ts:46-63 | the four client error classes map to 400, 401, 403 and 404 with their own message; everything else is a 500 with the fixed message |
| Middleware.WithConfig | src/api/middleware.ts:26-28 | the wrapped handler is the handler applied to the configuration and the request |
| Middleware.Authenticate | src/api/middleware.ts:30-37 | the user id is the bearer token's validated subject, or the first failure; it is never empty, so the "Token inválido" branch never fires |
| Middleware.WithAuth | src/api/middleware.ts:30-44 | an unauthenticated request gets its 401 error and the handler never runs; otherwise the handler sees the request with the user id attached |
| Middleware.WithAuthOfIssuedToken | src/api/middleware.ts:30-44 | a request carrying an unexpired token issued for a user reaches the handler as that user |
| ExecutionService.ValidateExecutionRules | src/services/execution.service.ts:20-32 | the type must be manual, scheduled or retry, and a scheduled execution needs a schedule id; each violation is its 400 |
| ExecutionService.ValidateRobotInstance | src/services/execution.service.ts:34-46 | the instance passes exactly when it exists, is the user's and is active; otherwise "not found" comes before "not active" |
| ExecutionService.Admit | src/services/execution.service.ts:48-53 | the rules are checked before the instance |
| ExecutionService.ParamsFor | src/services/execution.service.ts:54-60 | a new execution is pending, for the user and the instance, with the schedule id only when it is non-empty |
| ExecutionService.CreateExecution | src/services/execution.service.ts:48-64 | a rejected request writes nothing; an admitted one inserts exactly one execution: pending, of the user and the instance, with the request's type, the schedule only when one is given, no timings, outputs or retries, and the current time in both stamps |
| Store.StoreBool | src/db/schedules.ts:117 | a flag is stored as 0 or 1 and reads back as itself |
| Store.Filter | src/db/executions.ts:118-131 | a `WHERE` keeps exactly the ids whose rows pass, and no more ids than there were |
| Store.RowsOf | src/db/executions.ts:118-131 | the rows of a list of ids, in the same order |
| Store.Restrict | src/db/executions.ts:243-255 | a `DELETE ... WHERE` leaves exactly the rows that do not match, unchanged |
| Store.Reversed | src/db/executions.ts:126 | the reverse of a list has the same length, with positions mirrored |
| Store.IncreasingDistinct | src/db/executions.ts:126 | ids listed in strictly increasing creation order are distinct |
| Store.FilterIncreasing | src/db/executions.ts:118-131 | filtering keeps creation order |
| Store.TailIncreasing | src/db/executions.ts:126 | the rest of an ordered list is ordered |
| Store.HeadFirst | src/db/executions.ts:126 | the head of an ordered list was created before every later row |
| Store.ConsIncreasing | src/db/executions.ts:126 | an older row in front of an ordered list keeps it ordered |
| Store.FilterCount | src/db/notifications.ts:210-217 | filtering distinct ids gives as many ids as there are matching rows |
| Store.CountStep | src/db/notifications.ts:210-217 | counting the matches of a list is counting the head and then the rest |
| Store.ChronicleCovers | src/db/executions.ts:87-117 | the insertion order lists exactly the stored rows, in strictly increasing creation order |
| Store.OldestListed | src/db/execution-logs.ts:69-83 | `ORDER BY created_at ASC` lists every matching row and only those, oldest first |
| Store.FilterListed | src/db/executions.ts:118-131 | the rows of the filtered ids are exactly the matching rows |
| Store.RowsOfIncreasing | src/db/execution-logs.ts:79 | the rows of ordered ids are in creation order |
| Store.NewestListed | src/db/executions.ts:118-131 | `ORDER BY created_at DESC` lists every matching row and only those, newest first |
| Store.ListedReversed | src/db/executions.ts:126 | reversing a listing still lists exactly the matching rows |
| Store.ReversedDecreasing | src/db/executions.ts:126 | reversing an oldest-first listing gives a newest-first one |
| Store.ChronicleInsert | src/db/executions.ts:87-117 | an insert stamped after every stored row keeps the table's order |
| Store.ChronicleRestamp | src/db/executions.ts:176-241 | an update that keeps each row's `created_at` keeps the table's order |
| Store.ChronicleRestrict | src/db/executions.ts:243-255 | a delete keeps the table's order over the rows left |
| Store.RemovedCount | src/db/notifications.ts:201-208 | a delete removes as many rows as match, and removes some exactly when some row matches |
| Store.DeleteWhere | src/db/notifications.ts:201-208 | the rows left are exactly the unmatched ones, unchanged, in order; the count is the number of matched rows |
| Store.UpdateWhere | src/db/notifications.ts:182-190 | every matched row is changed, every other row kept; the count is the number of matched rows |
| DbExecutions.AssignPush | src/db/executions.ts:185-224 | applying one more `column = ?` entry is setting that column on the result so far |
| DbExecutions.MergeIdempotent | src/db/executions.ts:176-241 | applying the same update twice is applying it once, and an empty update changes nothing |
| DbExecutions.MarksPush | src/db/executions.ts:185-224 | recording one more column is marking it on the record so far |
| DbExecutions.MarksEmpty | src/db/executions.ts:226-228 | the SET list is empty exactly when no field is marked |
| DbExecutions.MergeMark | src/db/executions.ts:185-224 | setting one column after an update is the update that also carries that column |
| DbExecutions.Marks | src/db/executions.ts:185-224 | the dates a SET list records are times, since each entry holds a rendered date |
| DbExecutions.AssignMerges | src/db/executions.ts:176-241 | the SET list, applied entry by entry, is the update of exactly the fields it records |
| DbExecutions.SetClause | src/db/executions.ts:185-228 | a given Invalid Date is a RangeError; otherwise the SET list holds exactly the defined parameters, is empty exactly when none is, and applied to a row gives the merged row |
| DbExecutions.PushLifecycle | src/db/executions.ts:185-204 | the first five pushes record exactly the status, start, end and error fields, with each date as the ISO text of its time; an Invalid Date start or end is a RangeError |
| DbExecutions.PushResults | src/db/executions.ts:205-224 | the last five pushes complete the record with the output, file, retry and duration fields |
| DbExecutions.WellformedInsert | src/db/executions.ts:87-117 | a new row stamped now keeps the table well formed |
| DbExecutions.WellformedRewrite | src/db/executions.ts:176-241 | a row rewritten with its `created_at` kept and a new `updated_at` keeps the table well formed |
| DbExecutions.ExecutionsTable.constructor | src/db/executions.ts:87-117 | a new table is empty and well formed |
| DbExecutions.ExecutionsTable.Get | src/db/executions.ts:165-174 | getExecutionByID finds the row with that id, or nothing |
| DbExecutions.ExecutionsTable.CreateExecution | src/db/executions.ts:87-117 | exactly one row is added, pending unless a status is given, with no schedule for an empty id, no timings or outputs and no retries |
| DbExecutions.ExecutionsTable.ListByUser | src/db/executions.ts:118-131 | exactly the user's executions, newest first |
| DbExecutions.ExecutionsTable.ListByRobotInstance | src/db/executions.ts:133-147 | exactly the user's executions of that instance, newest first |
| DbExecutions.ExecutionsTable.ListByStatus | src/db/executions.ts:149-163 | exactly the user's executions with that status, newest first |
| DbExecutions.ExecutionsTable.UpdateExecution | src/db/executions.ts:176-241 | a given Invalid Date throws a RangeError and nothing changes; with no parameter nothing changes; otherwise only the user's row with that id gets exactly the given fields and a new `updated_at`; the result is the row read back |
| DbExecutions.ExecutionsTable.DeleteExecution | src/db/executions.ts:243-255 | only the user's row with that id goes, the rest are unchanged, and the answer says whether it went |
| DbSchedules.MergeIdempotent | src/db/schedules.ts:150-206 | applying the same update twice is applying it once, and an empty update changes nothing |
| DbSchedules.MarksPush | src/db/schedules.ts:154-189 | recording one more column is marking it on the record so far |
| DbSchedules.MarksEmpty | src/db/schedules.ts:191-193 | the SET list is empty exactly when no field is marked |
| DbSchedules.MergeMark | src/db/schedules.ts:154-189 | setting one column after an update is the update that also carries that column |
| DbSchedules.Marks | src/db/schedules.ts:154-189 | the dates a SET list records can be written, since each entry holds a rendered date or NULL |
| DbSchedules.AssignMerges | src/db/schedules.ts:150-206 | the SET list, applied entry by entry, is the update of exactly the fields it records |
| DbSchedules.SetClause | src/db/schedules.ts:154-193 | a given Invalid Date is a RangeError; otherwise the SET list holds exactly the defined parameters, the flag stored as 1/0, is empty exactly when none is, and applied to a row gives the merged row |
| DbSchedules.PushTrigger | src/db/schedules.ts:154-169 | the first four pushes record exactly the name, cron expression, time zone and flag |
| DbSchedules.PushDates | src/db/schedules.ts:170-177 | the two date pushes record a given date as the ISO text of its time, or NULL; an Invalid Date is a RangeError |
| DbSchedules.PushRetries | src/db/schedules.ts:178-189 | the last three pushes complete the record with the description and retry settings |
| DbSchedules.WellformedInsert | src/db/schedules.ts:83-126 | a new row stamped now keeps the table well formed |
| DbSchedules.WellformedRewrite | src/db/schedules.ts:150-206 | a row rewritten with its `created_at` kept keeps the table well formed |
| DbSchedules.SchedulesTable.constructor | src/db/schedules.ts:83-126 | a new table is empty and well formed |
| DbSchedules.SchedulesTable.Get | src/db/schedules.ts:139-148 | getScheduleByID finds the row with that id, or nothing |
| DbSchedules.SchedulesTable.CreateSchedule | src/db/schedules.ts:83-126 | a given Invalid Date throws a RangeError and nothing is written; otherwise exactly one row is added, with the dates as ISO text or NULL; an unset time zone is America/Sao_Paulo, an unset flag active, unset retries 3 and delay 5 |
| DbSchedules.SchedulesTable.ListAll | src/db/schedules.ts:128-137 | exactly the user's schedules, newest first |
| DbSchedules.SchedulesTable.UpdateSchedule | src/db/schedules.ts:150-206 | a given Invalid Date throws a RangeError and nothing changes; with no parameter nothing changes; otherwise only the user's row with that id gets exactly the given fields and a new `updated_at`; the result is the row read back |
| DbSchedules.SchedulesTable.DeleteSchedule | src/db/schedules.ts:208-214 | only the user's row with that id goes, and the answer says whether it went |
| DbNotifications.AssignShort | src/db/notifications.ts:146-173 | one or two `column = ?` entries apply in the order they were pushed |
| DbNotifications.SetClause | src/db/notifications.ts:150-161 | the SET list is empty exactly when no field is given, and applied to a row gives the merged row |
| DbNotifications.WellformedInsert | src/db/notifications.ts:55-87 | a new row stamped now keeps the table well formed |
| DbNotifications.WellformedRewrite | src/db/notifications.ts:146-190 | rows rewritten with their ids and `created_at` kept keep the table well formed |
| DbNotifications.PickedUnread | src/db/notifications.ts:182-190 | the rows markAll picks are exactly the user's unread ones |
| DbNotifications.DroppedRead | src/db/notifications.ts:201-208 | the rows deleteRead drops are exactly the user's read ones |
| DbNotifications.NotificationsTable.constructor | src/db/notifications.ts:55-87 | a new table is empty and well formed |
| DbNotifications.NotificationsTable.Get | src/db/notifications.ts:135-144 | getNotificationByID finds the row with that id, or nothing |
| DbNotifications.NotificationsTable.CreateNotification | src/db/notifications.ts:55-87 | exactly one row is added, unread and with no read time |
| DbNotifications.NotificationsTable.ListByUser | src/db/notifications.ts:90-99 | exactly the user's notifications, newest first |
| DbNotifications.NotificationsTable.ListUnread | src/db/notifications.ts:102-111 | exactly the user's unread notifications, newest first, as many as there are unread rows |
| DbNotifications.NotificationsTable.ListByType | src/db/notifications.ts:113-122 | exactly the user's notifications of that type, newest first |
| DbNotifications.NotificationsTable.ListByExecution | src/db/notifications.ts:124-133 | exactly the user's notifications of that execution, newest first |
| DbNotifications.NotificationsTable.CountUnread | src/db/notifications.ts:210-217 | the count is the length of the unread listing |
| DbNotifications.NotificationsTable.UpdateNotification | src/db/notifications.ts:146-173 | only the user's row with that id gets exactly the given fields; with none nothing changes; the result is the row read back |
| DbNotifications.NotificationsTable.MarkAsRead | src/db/notifications.ts:175-180 | the user's row with that id becomes read at the given time; any other id changes nothing; the clock and the insertion order are kept |
| DbNotifications.NotificationsTable.MarkAllAsRead | src/db/notifications.ts:182-190 | every unread row of the user becomes read now, every other row is kept, none of the user's is left unread, and the count is how many were unread |
| DbNotifications.NotificationsTable.DeleteNotification | src/db/notifications.ts:192-199 | only the user's row with that id goes, and the answer says whether it went |
| DbNotifications.NotificationsTable.DeleteRead | src/db/notifications.ts:201-208 | exactly the user's read rows go, and the count is how many there were |
| DbExecutionLogs.WellformedInsert | src/db/execution-logs.ts:40-67 | a new row stamped now keeps the table well formed |
| DbExecutionLogs.DroppedLogs | src/db/execution-logs.ts:148-161 | the rows the scoped delete drops are exactly the logs of that execution, when it is the user's |
| DbExecutionLogs.ExecutionLogsTable.constructor | src/db/execution-logs.ts:40-67 | a new table is empty and well formed |
| DbExecutionLogs.ExecutionLogsTable.Get | src/db/execution-logs.ts:101-113 | getExecutionLogByID finds the row with that id, or nothing |
| DbExecutionLogs.ExecutionLogsTable.CreateExecutionLog | src/db/execution-logs.ts:40-67 | exactly one row is added with the given execution, level, message and context |
| DbExecutionLogs.ExecutionLogsTable.ListByExecution | src/db/execution-logs.ts:69-83 | exactly the logs of the execution when it is the user's, oldest first |
| DbExecutionLogs.ExecutionLogsTable.ListByLevel | src/db/execution-logs.ts:85-99 | exactly the logs of that level on the user's executions, newest first |
| DbExecutionLogs.ExecutionLogsTable.VerifyOwnership | src/db/execution-logs.ts:116-131 | ownership requires the log to exist |
| DbExecutionLogs.ExecutionLogsTable.OwnershipListed | src/db/execution-logs.ts:116-131 | a log is owned exactly when it exists and appears in the user's listing of its execution's logs |
| DbExecutionLogs.ExecutionLogsTable.DeleteExecutionLog | src/db/execution-logs.ts:133-146 | only a log the user owns goes, and the answer says whether it went |
| DbExecutionLogs.ExecutionLogsTable.DeleteByExecution | src/db/execution-logs.ts:148-161 | the logs of the execution go when it is the user's, and nothing otherwise; the count is the number removed |
| DbCredentials.AssignShort | src/db/credentials.ts:88-122 | up to three `field = ?` entries apply in the order they were pushed |
| DbCredentials.MergeIdempotent | src/db/credentials.ts:88-122 | applying the same update twice is applying it once, and an empty update changes nothing |
| DbCredentials.SetClause | src/db/credentials.ts:92-109 | the SET list is empty exactly when no field is given, and applied to a row gives the merged row |
| DbCredentials.WellformedInsert | src/db/credentials.ts:38-46 | a new row stamped now keeps the table well formed |
| DbCredentials.WellformedRewrite | src/db/credentials.ts:88-122 | a row rewritten with its `created_at` kept keeps the table well formed |
| DbCredentials.CredentialsTable.constructor | src/db/credentials.ts:38-46 | a new table is empty and well formed |
| DbCredentials.CredentialsTable.Get | src/db/credentials.ts:48-65 | getCredentialByID finds the row with that id, or nothing |
| DbCredentials.CredentialsTable.CreateCredential | src/db/credentials.ts:38-46 | exactly one row is added with the given name, login, password and user |
| DbCredentials.CredentialsTable.GetByName | src/db/credentials.ts:67-86 | a row is found exactly when the user has a credential of that name, and it is the oldest such row |
| DbCredentials.CredentialsTable.UpdateCredential | src/db/credentials.ts:88-122 | with no field nothing changes and zero is answered; otherwise only the user's row with that id gets the fields and a new `updated_at`, and the count is one exactly then |
| DbCredentials.CredentialsTable.DeleteCredential | src/db/credentials.ts:124-129 | only the user's row with that id goes, and the count is one exactly then |
| DbCredentials.FirstIsOldest | src/db/credentials.ts:67-86 | the first of an oldest-first listing is at least as old as every row in it |
| DbCredentials.AtMostOne | src/db/credentials.ts:124-129 | a delete by id removes at most one row |
| ApiExecutionLogs.LogLevels | src/api/execution-logs.ts:17-21 | a level is valid exactly when it is one of the five, spelled in lower case |
| ApiExecutionLogs.CreateParams | src/api/execution-logs.ts:23-50 | the three required fields, then the level, then the execution's existence (404), then its owner (403); otherwise the params are the body's |
| ApiExecutionLogs.HandlerCreateExecutionLog | src/api/execution-logs.ts:23-50 | a failed check writes nothing; otherwise exactly one log is inserted, holding the body's execution, level, message and context and stamped now, and answered with 201 |
| ApiExecutionLogs.HandlerListExecutionLogs | src/api/execution-logs.ts:52-72 | a non-empty execution id wins, then a valid level; an invalid level or neither query is a 400; every log listed is on an execution the user owns |
| ApiExecutionLogs.OwnedLog | src/api/execution-logs.ts:74-89 | an empty id is a 400, an unknown log a 404, another user's log a 403; it succeeds exactly for a log the user owns |
| ApiExecutionLogs.HandlerGetExecutionLogByID | src/api/execution-logs.ts:74-89 | the user's log is answered with 200; every failure is the check's |
| ApiExecutionLogs.GetCreated | src/api/execution-logs.ts:23-89 | a log the user created is what a get of its id then answers |
| ApiExecutionLogs.HandlerDeleteExecutionLog | src/api/execution-logs.ts:91-109 | after the checks exactly that log goes with 204; a failed check writes nothing; the 500 never happens |
| ApiExecutionLogs.HandlerDeleteByExecutionID | src/api/execution-logs.ts:111-121 | a missing query is a 400 and writes nothing; otherwise the execution's logs go when it is the user's, every other log stays unchanged, and 200 answers how many went |
| ApiExecutions.HandlerCreateExecution | src/api/executions.ts:25-43 | the service's rejection is the answer and writes nothing; otherwise exactly one execution is inserted: pending, of the user and the instance, with the body's type, a non-empty schedule id, no timings, outputs or retries, stamped now; answered with 201 |
| ApiExecutions.HandlerListAllExecutions | src/api/executions.ts:45-68 | a non-empty instance id wins, then a status, else all the user's executions; only the user's rows are answered |
| ApiExecutions.HandlerGetExecutionByID | src/api/executions.ts:70-86 | a missing id is a 400, an unknown one a 400 too, another user's a 403; the user's execution is answered with 200 |
| ApiExecutions.GivenDate | src/api/executions.ts:106-108 | a defined date becomes a Date: null is time 0, written as 1970-01-01T00:00:00.000Z, and an empty text is an Invalid Date |
| ApiExecutions.GetCreated | src/api/executions.ts:25-86 | an execution the user created is what a get of its id then answers |
| ApiExecutions.UpdateParams | src/api/executions.ts:104-118 | the update carries exactly the fields the body defines, with their values; its dates can be written exactly when each given one is null or a text the engine reads as a time |
| ApiExecutions.HandlerUpdateExecution | src/api/executions.ts:88-128 | 400, 404, 403 before anything is written; a date that is not a time is a 500 and writes nothing; otherwise only that row gets the body's fields and is answered with 200 |
| ApiExecutions.HandlerDeleteExecution | src/api/executions.ts:130-149 | after the checks exactly that row goes with 204; a failed check writes nothing; the 500 never happens |
| ApiExtensions.ExtensionsTable.constructor | src/api/extensions.ts:38-49 | the store the create handler hands its row to starts empty and well formed |
| ApiExtensions.ExtensionsTable.Get | src/api/extensions.ts:67-68 | the lookup by id finds the row with that id, or nothing |
| ApiExtensions.ExtensionsTable.CreateExtension | src/api/extensions.ts:38-49 | the insert the create handler expects: exactly one row is added, holding the fields of the parameters it builds, stamped now |
| ApiExtensions.ExtensionsTable.ListByUser | src/api/extensions.ts:53-57 | exactly the user's extensions |
| ApiExtensions.ExtensionsTable.UpdateExtension | src/api/extensions.ts:112 | only the user's row with that id gets exactly the given fields and a new `updated_at`, which is returned |
| ApiExtensions.ExtensionsTable.DeleteExtension | src/api/extensions.ts:128 | only the user's row with that id goes, and the answer says whether it went |
| ApiExtensions.Seal | src/api/extensions.ts:33-36 | a secret is stored encrypted exactly when the body gives a non-empty one |
| ApiExtensions.CreateParams | src/api/extensions.ts:17-51 | a name is required and must be new for the user; the secrets are sealed, the other fields kept, and the flag is active unless a falsy one is given |
| ApiExtensions.HandlerCreateExtension | src/api/extensions.ts:17-51 | a failed check writes nothing; otherwise exactly one row is inserted, holding the body's name, description, login and URL, the secrets sealed and the flag active unless given, stamped now, and answered with 201; the user's non-empty names stay distinct |
| ApiExtensions.HandlerListExtensions | src/api/extensions.ts:53-57 | 200 with exactly the user's extensions |
| ApiExtensions.Open | src/api/extensions.ts:70-71 | no secret stays none; a stored one opens exactly when decrypt succeeds, to its plain text |
| ApiExtensions.OpenSeal | src/api/extensions.ts:33-71 | a secret sealed on create opens to what the body gave, or to none |
| ApiExtensions.HandlerGetExtensionByID | src/api/extensions.ts:59-74 | 400, 404, 403 in that order; then 200 with the password and the PIN decrypted, or decrypt's error |
| ApiExtensions.GetCreated | src/api/extensions.ts:17-74 | an extension stored by create is answered by get with the body's password and PIN |
| ApiExtensions.CheckRename | src/api/extensions.ts:98-101 | a rename fails exactly when the new name is non-empty, differs from the current one and the user already has it |
| ApiExtensions.UpdateParamsAsWritten | src/api/extensions.ts:103-110 | as written, the password and the PIN go to the table as the body gives them |
| ApiExtensions.PlainPinBreaksGet | src/api/extensions.ts:103-110 | a PIN set by update as written is stored as `1234`, and a later get of that extension fails in decrypt |
| ApiExtensions.Reseal | src/api/extensions.ts:107-108 | an intended new secret is encrypted when given and not null, cleared when null, kept when absent |
| ApiExtensions.UpdateParams | src/api/extensions.ts:103-110 | the update carries exactly the fields the body defines, the flag by its truthiness, and new secrets encrypted |
| ApiExtensions.UpdatedSecretsOpen | src/api/extensions.ts:103-110 | after the intended update a given password and PIN open to the new values, and secrets not given are kept |
| ApiExtensions.UpdateWith | src/api/extensions.ts:76-114 | 400, 404, 403, then the name check, each writing nothing; then only that row gets the given params and a new updated_at and is answered with 200; non-empty names stay distinct |
| ApiExtensions.HandlerUpdateExtension | src/api/extensions.ts:76-114 | 400, 404, 403, then the name check, each writing nothing; then only that row gets the body's fields, with the password and the PIN as given and not encrypted, and is answered with 200; non-empty names stay distinct |
| ApiExtensions.GetAfterPlainUpdate | src/api/extensions.ts:59-114 | a stored password or PIN without a `:` makes a later get of that extension fail in decrypt; for the password the error is the format error |
| ApiExtensions.HandlerUpdateExtensionIntended | src/api/extensions.ts:76-114 | the corrected handler: the same checks and writes, but new secrets are encrypted, so a later get opens them to the values given |
| ApiExtensions.RenameKeepsNamesUnique | src/api/extensions.ts:98-112 | a rename that passed the check leaves no two of a user's extensions with the same non-empty name |
| ApiExtensions.HandlerDeleteExtension | src/api/extensions.ts:116-132 | after the checks exactly that row goes with 204; a failed check writes nothing; the 500 never happens |
| ApiSchedules.CreateParams | src/api/schedules.ts:15-39 | instance, name and cron are required in that order; the time zone, flag, dates, description and retries get their defaults, a given flag counts by its truthiness, and a given date becomes a Date |
| ApiSchedules.CreateDefaultsEdges | src/api/schedules.ts:15-39 | a null flag deactivates while an absent one activates, and an explicit zero retry count is kept |
| ApiSchedules.DateOrNull | src/api/schedules.ts:30-31 | an empty or missing date is null; any other becomes the Date the engine reads |
| ApiSchedules.HandlerCreateSchedule | src/api/schedules.ts:15-39 | a missing field is its 400 and a date that is not a time a 500, neither writing anything; otherwise exactly one schedule is inserted, holding the body's fields with their defaults and its dates as ISO text, stamped now, and answered with 201 |
| ApiSchedules.HandlerListAllSchedules | src/api/schedules.ts:41-45 | 200 with exactly the user's schedules |
| ApiSchedules.HandlerGetScheduleByID | src/api/schedules.ts:47-60 | 400, 404, 403 in that order; the user's schedule is answered with 200 |
| ApiSchedules.GetCreated | src/api/schedules.ts:15-60 | a schedule the user created is what a get of its id then answers |
| ApiSchedules.HandlerDeleteSchedule | src/api/schedules.ts:62-78 | after the checks exactly that row goes with 204; a failed check writes nothing; the 500 never happens |
| ApiSchedules.GivenDate | src/api/schedules.ts:99-100 | a given date is written: an empty or null one as none, any other as the Date the engine reads |
| ApiSchedules.UpdateParams | src/api/schedules.ts:80-106 | the update carries exactly the fields the body defines, the flag by its truthiness; its dates can be written exactly when each given one is empty, null or a time |
| ApiSchedules.HandlerUpdateSchedule | src/api/schedules.ts:80-106 | 400, 404, 403 before anything is written; a date that is not a time is a 500 and writes nothing; otherwise only that row gets the body's fields and is answered with 200 |
| ApiCredentials.CreateParams | src/api/credentials.ts:17-51 | all four fields are required, then a name new to the user; the password is stored encrypted under this request's iv |
| ApiCredentials.CreatedPasswordDecrypts | src/api/credentials.ts:37 | the stored password decrypts to the one the body gave |
| ApiCredentials.HandlerCreateCredential | src/api/credentials.ts:17-51 | a failed check writes nothing; otherwise exactly one credential is inserted, holding the body's name and login, the password encrypted, stamped now, and answered with 200; the user's names stay distinct |
| ApiCredentials.Owned | src/api/credentials.ts:62-131 | a missing id is a 400, and so is an unknown id or another user's credential; it succeeds exactly for the user's own |
| ApiCredentials.UpdateParamsAsWritten | src/api/credentials.ts:78-82 | as written, the given fields go to the table as the body gives them, password included |
| ApiCredentials.PlainPasswordBreaksGet | src/api/credentials.ts:82 | a password set by update as written is stored as `secret`, and a later get of that credential fails in decrypt |
| ApiCredentials.UpdateParams | src/api/credentials.ts:78-82 | the intended update carries exactly the given fields, with a new password encrypted |
| ApiCredentials.UpdatedPasswordDecrypts | src/api/credentials.ts:78-109 | after the intended update a given password decrypts to the new one, and an absent one is kept |
| ApiCredentials.UpdateWith | src/api/credentials.ts:62-91 | the id and owner checks write nothing on failure; then only that row gets the given params, with 200 and one change, or zero changes when the params are empty |
| ApiCredentials.HandlerUpdateCredential | src/api/credentials.ts:62-91 | a failed check writes nothing; otherwise 200 with one change when some field was given and zero when none was; a given password is stored as the body gives it |
| ApiCredentials.PasswordAsGiven | src/api/credentials.ts:82 | the update as written puts a given password into the row unchanged |
| ApiCredentials.GetAfterPlainUpdate | src/api/credentials.ts:82-111 | a stored password without a `:` makes a later get of that credential fail with decrypt's format error |
| ApiCredentials.HandlerUpdateCredentialIntended | src/api/credentials.ts:62-91 | the corrected handler: the same checks and writes, but a new password is encrypted, so it decrypts to the one given |
| ApiCredentials.HandlerGetCredentialByID | src/api/credentials.ts:93-111 | a missing route id, an unknown one and another user's are each a 400 with its own message; otherwise 200 with the password decrypted, or decrypt's error |
| ApiCredentials.GetCreated | src/api/credentials.ts:17-111 | a credential stored by create is answered by get with the body's password |
| ApiCredentials.HandlerDeleteCredential | src/api/credentials.ts:113-131 | after the checks exactly that row goes with 204; a failed check writes nothing |
| ApiUsers.UsersTable.constructor | src/db/users.ts:27-35 | a new table is empty |
| ApiUsers.UsersTable.CreateUser | src/db/users.ts:27-35 | exactly one row is added with the email and the hashed password, and read back |
| ApiUsers.IsEmailValid | src/api/users.ts:13-15 | `/\w+@\w+/` matches exactly when some `@` has a word character right before and right after it |
| ApiUsers.ValidEmails | src/api/users.ts:13-15 | `ana@ex.com` and `a@b` pass |
| ApiUsers.InvalidEmails | src/api/users.ts:13-15 | `ana@` and `ana@.com` fail |
| ApiUsers.CheckCreate | src/api/users.ts:16-51 | both fields, then the address's shape (same message), then an unused address; every failure is a 400 |
| ApiUsers.Response | src/api/users.ts:43-50 | the answer has the user's id, stamps and email, and no password |
| ApiUsers.HandlerCreateUser | src/api/users.ts:16-51 | a failed check writes nothing; otherwise one user with the hashed password is stored and answered with 200 without the password; emails stay distinct |

## Left out

- `run` scrapes a list of process numbers written into its body. The model takes the list as a parameter.
- Identifiers from `randomUUID` are a `newID` parameter that is not yet in the table.
- `CURRENT_TIMESTAMP` is the table's `clock` counter, which makes each insert or update later than the one before it. 
- How the JavaScript engine reads a date text for `new Date(text)` is the `DateParser` parameter. It gives the ISO text of the time, or none when the text is not a date; only the empty text is fixed as not a date. A number or boolean sent as a date is not modelled.
- `DbNotifications.NotificationsTable.UpdateNotification` takes `readAt` as a clock value, not a Date object. In the repository only `markNotificationAsRead` (src/db/notifications.ts:175-180) passes one, and it passes `new Date()`, which is always a time, so the RangeError of `toISOString` cannot arise there.
- The type checks of JSON bodies (numbers, booleans, strings) are not modelled, beyond the truthiness of the flags. Bodies are records of optional fields.
- A JSON `null` is modelled only where a column may hold it. A `null` in an update body is read as an absent field, so the model keeps the old value, for these fields: a schedule's `scheduleName`, `cronExpression` or `timezone`; an extension's `extensionName`; and a credential's `credentialName`, `login` or `password` (src/api/credentials.ts:79-82). The code writes `null`, which SQLite refuses for those NOT NULL columns.
- Browser internals are not modelled: Playwright, the persistent context's options and locale, clipboard permissions and timeouts. A `Browser` value says only which selectors appear and which pages exist.
- The signal and exception handlers of `setupCleanupHandlers` are modelled by one `RegisterCleanup` event. `process.exit` and console logging are left out.
- `src/api/errors.ts`, `src/api/json.ts`, `src/config.ts` and `src/db/db.ts` are not part of this model. The error classes are the `ApiError` datatype, and `respondWithJSON` is the `Reply` datatype.
- Each "Failed to create" branch (credentials, users, executions) is dead, because the insert is read back by the same id. The model proves the handlers never take it.
- The 500 of the credentials delete at `src/api/credentials.ts:128` is dead, because `db.run` returns an object, which is always truthy.
- `handlerListAllCredentialsByUserID` (`src/api/credentials.ts:53-60`) is left out. It calls `getCredentials`, which `src/db/credentials.ts` does not define.
- The credentials' `groupName` is required by the create handler but never stored, so the table does not have it.
- `ApiExtensions.ExtensionsTable` and `ApiExtensions.ExtensionsTable.CreateExtension` model the store that the extension handlers expect, scoped to the user like the other tables, and not the code of `src/db/extensions.ts`. That code could not work:
  - The INSERT of `createExtension` (src/db/extensions.ts:60-86) is malformed. There is no comma after `description`, and there is a trailing comma after `user_id`.
  - It binds `params.extension_name`, while the handler fills `extensionName`. Its values are bound in a different order from its columns.
  - It returns `getExtensionByID`, which, like `listAllExtensions`, `updateExtension` and `deleteExtension`, is an empty stub.
  - `listExtensionsByUserID` and `getExtensionByName`, imported at src/api/extensions.ts:3-12, are not exported by that file.
  - The schema in `src/db/db.ts` has no extensions table.
- Users are modelled by the create handler and what it needs: `getUserByEmail` as a membership test, and `createUser`. Reading users back by id and refresh tokens are left out.
- `hashPassword` (argon2id) is a function parameter, and `checkPasswordHash` takes the library's verify as one. `randomBytes` ivs and refresh-token bytes are parameters.
- The JWT library is a `Signer` of sign and verify functions, and `Auth.Sound` is its promise. With `Signer`, `MakeJWT` is the library's sign applied to the payload, so it has no contract of its own.
- The request mutation of `withAuth` is an `AuthenticatedRequest` value. The message text of Node's decipher errors is not modelled.
- The credentials get handler reads its id from `req.params`, modelled as an optional id. Under the routing that is not part of this model, that value may never be filled in.
- `Crypto.Decrypt` relies on `Hex.Decode`, which models `Buffer.from`'s leniency: decoding stops at the first pair that is not two hex digits. What the cipher's `open` makes of such shortened fields is up to the `Vault`.
- `DbCredentials.CredentialsTable.CreateCredential`: the schema in `src/db/db.ts` has a `url TEXT NOT NULL` column that the insert at `src/db/credentials.ts:40-44` leaves out, so against that schema the insert would fail its constraint. The model assumes a table without that column, and so does `ApiCredentials.HandlerCreateCredential`.
- `DbCredentials.CredentialsTable.GetByName` picks the oldest matching row. SQLite's `.get()` without `ORDER BY` promises no order, and in practice it returns the first row it scans.
- `Middleware.ErrorHandlingMiddleware` assumes `InternalServerError` is not a subclass of the four client errors, since `src/api/errors.ts` is not part of this model.
- `ExecutionService.ValidateRobotInstance` treats an undefined `robotInstanceID` like an unknown one. The robot instances are a given map, because `src/db/robot-instances.ts` is not part of this model.
- `Extraction`: HTML parsing by node-html-parser is not modelled. A page is given as its movement rows and named field texts.
- `ProcessNumber.SearchUrl` renders an undefined field as the text `undefined`, as a template literal does. The URL's exact bytes beyond its fixed base, parameters and tail are stated only for canonical numbers.

## Findings

| source | as written | input that shows it | evidently intended | confidence | as-written member | corrected member |
|---|---|---|---|---|---|---|
| src/services/robot.service.ts:84-95 | `isLoggedIn` returns `!result` of `locator.waitFor`, which resolves to `undefined` on success and is caught to `false` on timeout, so it is false in both cases | the sign-out marker visible when the Presto page opens | true when the marker appears, so a signed-in session skips the form | not executed | Scraper.IsLoggedInAsWritten (lemma Scraper.IsLoggedInMissesSession; used by Scraper.PrestoPhase, Scraper.Scraper.LoginPresto and the run; lemmas Scraper.PrestoAlwaysFillsForm and Scraper.PrestoSessionMissed) | Scraper.IsLoggedIn (lemma Scraper.IsLoggedInMissesSession; used by Scraper.PrestoPhaseIntended; lemmas Scraper.PrestoSkipsFormWhenSignedIn and Scraper.PrestoOutcome) |
| src/api/credentials.ts:82 | the update handler stores `body.password` as given, without `encrypt` | update with password `secret`, then get the credential: decrypt throws "Invalid encrypted text format" | the new password stored encrypted, as create does, so get returns it | not executed | ApiCredentials.UpdateParamsAsWritten (used by ApiCredentials.HandlerUpdateCredential; lemmas ApiCredentials.PlainPasswordBreaksGet and ApiCredentials.GetAfterPlainUpdate) | ApiCredentials.UpdateParams (used by ApiCredentials.HandlerUpdateCredentialIntended; lemma ApiCredentials.UpdatedPasswordDecrypts) |
| src/api/extensions.ts:107-108 | the update handler stores `body.password` and `body.pin` as given, without `encrypt` | update with PIN `1234`, then get the extension: decrypt throws "Invalid encrypted text format" | new secrets stored encrypted, as create does, so get returns them | not executed | ApiExtensions.UpdateParamsAsWritten (used by ApiExtensions.HandlerUpdateExtension; lemmas ApiExtensions.PlainPinBreaksGet and ApiExtensions.GetAfterPlainUpdate) | ApiExtensions.UpdateParams (used by ApiExtensions.HandlerUpdateExtensionIntended; lemma ApiExtensions.UpdatedSecretsOpen) |
