# ScanWow receiver: a Dafny model of the request-decision layer

The ScanWow receiver is a small HTTP service. It accepts `POST /api/scans` from the ScanWow
app. It is written twice: once with Express (`node-express/index.js`) and once with Flask
(`python-flask/app.py`). Each version does four things:

- It authenticates the caller by comparing field 1 of the space-split `Authorization` header
  with a configured token.
- It answers a JSON "test ping" without touching storage.
- For any other request it stores each uploaded file under a sanitised name with a
  timestamp prefix.
- It reads an optional JSON `metadata` form field. If the field cannot be parsed, `{}` is used
  instead, and the request still succeeds.

This project models that decision logic as pure functions over `seq<char>` and small sum
types, and proves properties about them.

Modules:

- `Wrappers` (`wrappers.dfy`): `Option` (JavaScript's `undefined`, Python's `None`) and `Result`.
- `Strings` (`strings.dfy`): splitting on one separator character (`split(' ')` in both
  languages), splitting at the first separator, substring search (`includes` / `in`), and
  decimal printing and parsing of timestamps.
- `Json` (`json.dfy`): parsed JSON values, JavaScript truthiness, Python type names, and the
  shared "metadata or `{}`" fallback.
- `Http` (`http.dfy`): replies (`Sent(status, body)` or `Threw(error)`), the gate verdict of an
  authentication middleware, stored files, the logged scan summary, and the outcome of a request.
- `ExpressReceiver` (`express.dfy`): multer's `filename` callback, `authenticate`, and the route
  handler.
- `FlaskReceiver` (`flask.dfy`): `check_auth`, and `handle_scan` with its save loop.
- `Receivers` (`receivers.dfy`): where the two versions agree and where they differ.

Nothing is read from ambient state. The following are all parameters or fields of the input:

- the configured token (`SCANWOW_TOKEN`);
- the clock readings, as one `clock` per uploaded file;
- the JSON parser (`parse`);
- Python's `str.isalnum` (`isAlnum`);
- Flask's `request.is_json`;
- the upload directory's previous writes (`disk`), modelled as the log of (name, size) file
  writes in order. A later write under a name already in the log replaces that file's content
  on the real disk; the log keeps both entries.

What multer and Werkzeug make of the request body is input data:

- Express takes a `MulterOutcome`: multer skipped a non-multipart request, multer failed, or
  multer decoded the files and fields.
- Flask takes a `FormOutcome`: reading the form raised, or it gave the file entries in
  iteration order and the text fields.

Behaviours of the code that the model keeps as written:

- Neither version checks the `Bearer` scheme word (`SchemeWordIgnored`).
- Neither version compares in constant time. The comparison is plain string equality.
- Express fails open when `SCANWOW_TOKEN` is unset and the header has no space
  (`UnsetTokenFailsOpen`). There is no 500 "server configuration error" path.
- Flask never lacks a token, because it defaults to `test`. Setting the variable to the empty
  string makes `Bearer ` (with a trailing space) pass (`EmptyTokenAcceptsBlankField`).
- A configured token that contains a space can never be matched (`SpacedTokenNeverPasses`).
- In Express, metadata that parses to `null` makes `metadata.title` throw after multer has
  stored the files (`NullMetadataThrows`).
- In Express, a request that is neither a ping nor multipart reaches `req.files.length` while
  `req.files` is unset, and throws (`NonMultipartRequestThrows`). A request without a content
  type is one of these.
- In Flask, metadata that parses to something other than a dict raises at `.get`. The result
  is a 400 after the files are already saved (`NonObjectMetadataFails`).
- Stored names are not unique. Two files stamped in the same millisecond (Express) or second
  (Flask) whose names sanitise alike get the same name (`StoredNamesCollide`).
- Neither version has a separate verdict for a malformed header. A non-empty header without a
  space gets 401 in Flask and, when the token is set, 403 in Express
  (`AuthDiffersOnOneWordHeaders`).

## Model

| member | source | states |
|---|---|---|
| Strings.Split | node-express/index.js:37 | `split(' ')` returns at least one field, no field contains the separator, and joining the fields with the separator gives back the header |
| Strings.SplitOfJoin | python-flask/app.py:23-26 | splitting the join of separator-free fields returns exactly those fields, so Split and Join are inverse |
| Strings.SplitAfterWord | node-express/index.js:37 | a word followed by a space is always field 0 on its own, and the rest of the header is split independently |
| Strings.Decimal | node-express/index.js:23 | a timestamp prints as a canonical numeral (digits only, no leading zero) that denotes the timestamp |
| Strings.DecimalRoundTrip | python-flask/app.py:46 | parsing a printed timestamp returns it, and a canonical numeral is the printing of the number it parses to |
| Json.PyTypeName | python-flask/app.py:62 | the Python type name that the AttributeError message at `.get` carries; it is `dict` exactly for a JSON object |
| Json.MetadataOf | python-flask/app.py:52-58 | an absent or empty `metadata` field, or one the parser rejects, becomes `{}`; a non-empty field the parser accepts becomes exactly the parsed value |
| ExpressReceiver.SafeName | node-express/index.js:22 | the sanitised name has the original's length; each `[A-Za-z0-9_.-]` character stays in place and every other character becomes `_` |
| ExpressReceiver.SafeNameIsSafe | node-express/index.js:19-22 | every character of a sanitised name is in `[A-Za-z0-9_.-]`, so it contains neither `/` nor `\` |
| ExpressReceiver.SafeNameFixedPoints | node-express/index.js:22 | sanitising leaves a name unchanged if and only if the name is already all safe characters |
| ExpressReceiver.SafeNameIdempotent | node-express/index.js:22 | sanitising twice gives the same result as sanitising once |
| ExpressReceiver.StoredName | node-express/index.js:23 | the callback's file name: the millisecond timestamp in decimal, a `-`, then the sanitised original name |
| ExpressReceiver.StoredNameRoundTrip | node-express/index.js:23 | splitting `<ms>-<name>` at its first `-` recovers the timestamp and the sanitised name |
| ExpressReceiver.ParseStoredNameSound | node-express/index.js:23 | a name the parser accepts is exactly the callback's name for the parsed timestamp and name, so the parser inverts the callback |
| ExpressReceiver.StoredNamesCollide | node-express/index.js:20-23 | two stored names are equal if and only if both the milliseconds and the sanitised names are equal |
| ExpressReceiver.StoredNameIsPathComponent | node-express/index.js:19-23 | a stored name has only safe characters, has no slash or backslash, and is never `.` or `..` |
| ExpressReceiver.Authenticate | node-express/index.js:33-43 | a missing or empty header gives 401 whatever the token is; otherwise the request passes iff field 1 (undefined when missing) equals the configured token, and a non-empty header that does not pass gets 403 `Invalid token` |
| ExpressReceiver.WrongTokenForbidden | node-express/index.js:37-40 | with a token configured, `Bearer <other>` for any other space-free credential gets 403 `Invalid token` |
| ExpressReceiver.BearerTokenPasses | node-express/index.js:37-42 | `Bearer <token>` passes when the token is the configured one and contains no space |
| ExpressReceiver.SchemeWordIgnored | node-express/index.js:37 | replacing the first word of the header by any other space-free word never changes the verdict |
| ExpressReceiver.UnsetTokenFailsOpen | node-express/index.js:37-38 | with `SCANWOW_TOKEN` unset (line 9), every non-empty header without a space passes |
| ExpressReceiver.UnsetTokenRejectsSpacedHeader | node-express/index.js:37-40 | with `SCANWOW_TOKEN` unset, every header that contains a space is refused with 403 |
| ExpressReceiver.SpacedTokenNeverPasses | node-express/index.js:37-41 | a configured token that contains a space lets no request through |
| ExpressReceiver.IsPing | node-express/index.js:50-53 | the ping branch is taken when the content type, or `''` when absent, contains `application/json` anywhere |
| ExpressReceiver.MissingContentTypeIsNotPing | node-express/index.js:50-53 | a missing or empty content type does not select the ping branch |
| ExpressReceiver.JsonContentTypeIsPing | node-express/index.js:53-55 | a content type starting with `application/json`, with any parameters after it, selects the ping branch |
| ExpressReceiver.StoreAll | node-express/index.js:18-24 | multer writes one directory entry per part, in order, named by the callback and with the part's size |
| ExpressReceiver.LoggedTitle | node-express/index.js:76 | reading the title throws exactly when the metadata is `null`; otherwise the title is truthy; it is `metadata.title` when that is truthy, and any other title is `Untitled` |
| ExpressReceiver.HandleScan | node-express/index.js:49-89 | a ping content type answers `Connection successful!` and stores nothing; a multer error gives 400 with multer's message and stores nothing; the write log only grows; every error reply is 400 with nothing stored; the scan reply means a decoded upload within the limit whose parts were all stored and counted; a summary's title is the one `LoggedTitle` gives for the request's metadata |
| ExpressReceiver.Receive | node-express/index.js:49 | a refused request gets 401 or 403 and stores nothing; an admitted one is handled by the route |
| ExpressReceiver.MissingHeaderRejected | node-express/index.js:34-35 | an absent or empty header gives exactly 401 `Missing authorization header`, whatever the token is, and stores nothing |
| ExpressReceiver.MalformedMetadataIsHarmless | node-express/index.js:65-73 | a request whose metadata fails to parse has exactly the outcome it would have without a metadata field |
| ExpressReceiver.DecodedUploadSucceeds | node-express/index.js:59-88 | an upload within 50 MiB whose metadata is not `null` gets `Scan received successfully`; every part is written under its callback name with its size, and the file count is the number of parts |
| ExpressReceiver.UntitledWithoutMetadata | node-express/index.js:66-76 | without a metadata field the logged title is `Untitled` |
| ExpressReceiver.TitleFromMetadata | node-express/index.js:76 | a truthy `title` in object metadata is the logged title |
| ExpressReceiver.OversizedFileRejected | node-express/index.js:27-62 | a part over 50·1024·1024 bytes gives 400 `File too large` and leaves the directory unchanged |
| ExpressReceiver.NullMetadataThrows | node-express/index.js:69-76 | metadata that parses to `null` makes the handler throw after the parts are stored, and no JSON reply is written |
| ExpressReceiver.NonMultipartRequestThrows | node-express/index.js:59-77 | a request that is neither a ping nor multipart makes the handler throw, with nothing stored |
| FlaskReceiver.SafeName | python-flask/app.py:45 | the sanitised name is a subsequence of the original made only of kept characters, and each kept character occurs in it exactly as often as in the original |
| FlaskReceiver.SafeNameKeepsKeptNames | python-flask/app.py:45 | a name made only of kept characters comes through unchanged |
| FlaskReceiver.SafeNameFixedPoints | python-flask/app.py:45 | sanitising leaves a name unchanged if and only if every character is alphanumeric or one of `._-` |
| FlaskReceiver.SafeNameIdempotent | python-flask/app.py:45 | sanitising twice gives the same result as sanitising once |
| FlaskReceiver.SafeNameShrinks | python-flask/app.py:45 | the sanitised name is shorter if and only if the original has a character that is not kept |
| FlaskReceiver.StoredName | python-flask/app.py:46 | the saved file name: the whole seconds in decimal, a `_`, then the sanitised file name |
| FlaskReceiver.StoredNameRoundTrip | python-flask/app.py:46 | splitting `<secs>_<name>` at its first `_` recovers the seconds and the sanitised name |
| FlaskReceiver.ParseStoredNameSound | python-flask/app.py:46 | a name the parser accepts is exactly the view's name for the parsed seconds and name |
| FlaskReceiver.NothingKeptLeavesStamp | python-flask/app.py:45-46 | when no character survives, the stored name is just `<secs>_` |
| FlaskReceiver.StoredNamesCollide | python-flask/app.py:45-48 | two stored names are equal if and only if both the seconds and the sanitised names are equal |
| FlaskReceiver.StoredNameIsPathComponent | python-flask/app.py:45-47 | with a classifier that rejects `/` and `\`, a stored name contains neither and is never `.` or `..` |
| FlaskReceiver.ConfiguredToken | python-flask/app.py:13 | the token is `SCANWOW_TOKEN` when set (even to the empty string), else `test` |
| FlaskReceiver.SkipsAuth | python-flask/app.py:19 | the hook skips a request only when its endpoint name is present and contains `static` |
| FlaskReceiver.CheckAuth | python-flask/app.py:16-29 | an endpoint containing `static` passes; otherwise an absent header, an empty header, or one with fewer than 2 fields gives 401; otherwise the request passes iff field 1 equals the token, and a header with 2 or more fields that does not pass gets 403 `Invalid token` |
| FlaskReceiver.ScanEndpointNotStatic | python-flask/app.py:19-20 | the scan view's endpoint is never exempt from authentication |
| FlaskReceiver.OneWordHeaderRejected | python-flask/app.py:22-24 | a header without a space gives 401 `Missing Authorization header` for every token |
| FlaskReceiver.WrongTokenForbidden | python-flask/app.py:26-29 | `Bearer <other>` for any space-free credential other than the token gets 403 `Invalid token` |
| FlaskReceiver.DefaultTokenAccepted | python-flask/app.py:13 | with `SCANWOW_TOKEN` unset, `Bearer test` passes |
| FlaskReceiver.EmptyTokenAcceptsBlankField | python-flask/app.py:26-29 | with `SCANWOW_TOKEN` set to the empty string, any single word followed by one space passes |
| FlaskReceiver.MissingEndpointIsChecked | python-flask/app.py:19 | a request without an endpoint is checked exactly like the scan view |
| FlaskReceiver.EntryFiles | python-flask/app.py:43-48 | one directory entry per file entry, in order, named by the view and with the file's size |
| FlaskReceiver.FirstSaveFailure | python-flask/app.py:43-49 | the position of the first file whose save raises; every file before it saves |
| FlaskReceiver.SaveFiles | python-flask/app.py:42-49 | the loop succeeds iff no save raises; the entries it writes are those of the files before the first failure, in order; a failure carries the exception's message; on success there is one saved name per file entry, and it is that entry's stored name |
| FlaskReceiver.TitleOf | python-flask/app.py:62 | a dict gives its `title` entry whenever present (even if empty), else `Untitled`; any other value raises `'<type>' object has no attribute 'get'` |
| FlaskReceiver.SaveLoopCompletes | python-flask/app.py:42-49 | when no save raises, the loop completes and has written one entry per file, in order |
| FlaskReceiver.FinishScan | python-flask/app.py:51-71 | after the loop, the scan reply is sent exactly when the metadata is a dict (or the `{}` fallback), and then with the saved-file count; otherwise 400; the directory is left as the loop left it; a summary's title is the one `TitleOf` gives for the metadata |
| FlaskReceiver.EverySaveSucceeds | python-flask/app.py:40-71 | when no save raises, the view writes every file's entry and then answers as the metadata step dictates |
| FlaskReceiver.HandleScan | python-flask/app.py:32-71 | a JSON request answers `Connection successful!` and saves nothing; an exception reading the form gives 400 with its message and saves nothing; the reply is always 200 or 400 and never an exception; the write log only grows; the scan reply means every file was saved and counted |
| FlaskReceiver.Receive | python-flask/app.py:16-32 | a refused request gets 401 or 403 and saves nothing; an admitted one is handled by the view |
| FlaskReceiver.MalformedMetadataIsHarmless | python-flask/app.py:52-58 | a request whose metadata fails to parse has exactly the outcome it would have without a metadata field |
| FlaskReceiver.FormUploadSucceeds | python-flask/app.py:42-67 | when no save raises and the metadata is a dict or `{}`, the scan reply is sent, every file is written under its stored name, and the count equals the number of file entries |
| FlaskReceiver.EmptyTitleIsKept | python-flask/app.py:62 | an empty `title` entry is used as the title and does not fall back to `Untitled` |
| FlaskReceiver.NonObjectMetadataFails | python-flask/app.py:62-71 | metadata that parses to a non-dict gives 400 with the AttributeError message, and the saved files stay |
| FlaskReceiver.SaveFailureKeepsEarlierFiles | python-flask/app.py:40-71 | a save that raises gives 400 with its message, and the files saved before it stay |
| Receivers.SanitisersAgreeOnSafeNames | python-flask/app.py:45 | on names made only of `[A-Za-z0-9_.-]`, both sanitisers are the identity |
| Receivers.FlaskDropsWhatExpressReplaces | node-express/index.js:22 | a character Flask drops is replaced by `_` in Express, so the Flask name is strictly shorter |
| Receivers.AuthAgreesOnSpacedHeaders | python-flask/app.py:22-29 | for headers containing a space, the two middlewares give identical verdicts for the same token |
| Receivers.AuthDiffersOnOneWordHeaders | node-express/index.js:37-40 | with a token configured, for a non-empty one-word header, Express answers 403 and Flask answers 401 |
| Receivers.PingsAgree | python-flask/app.py:34-37 | a ping gets the same `Connection successful!` reply from both versions, and storage is unchanged |

## Left out

- Server start-up is not modelled because it is I/O glue. This covers `app.listen` / `app.run`,
  dotenv and environment loading, and creating the upload directory.
- Console output is not modelled, including the raw-token log lines and the KB figure. The
  scan summary records the title, the file count and the OCR text length that the handlers log.
- Http.OcrTextLength: counts `char`s, which are Unicode scalar values. That is Python's `len`.
  Node's `ocrText.length` counts UTF-16 code units, so for OCR text with a character outside
  the Basic Multilingual Plane the Express log shows a larger number than the model records.
- Multipart framing, multer's and Werkzeug's parsers, and `MultiDict.items()` are not modelled.
  Their result is input data: the decoded parts and fields. Duplicate field names are not
  modelled, because fields are a map.
- The size limit is modelled only as its outcome. A decoded part over 50 MiB yields multer's
  `File too large` error. When multer aborts, it deletes the files it had already written, so
  Express error paths leave the directory unchanged.
- Actual file writes are not modelled. The directory is a log of (name, size) writes. A
  failed Flask save adds no entry; any partial file it leaves behind is not modelled.
- `express.json()` is not modelled. It runs before `authenticate` and may itself answer 400 for
  a malformed JSON body. Likewise, Flask's `request.get_json()` raising a 400 for an unparseable
  JSON ping body is not modelled. The ping branch always answers as the handler's return
  statement does.
- In Express's non-multipart case, `req.body` is taken as a map of strings. Non-string values
  that a JSON body parser could put there are not modelled.
- JSON parsing, Python's Unicode `str.isalnum` and `request.is_json` are parameters, because
  they belong to the libraries.
- ExpressReceiver.SafeName: replaces a character outside the Basic Multilingual Plane with
  one `_`, where Node writes two. Strings are sequences of `char`, and a `char` is one Unicode
  scalar value, as in Python. JavaScript strings are UTF-16 code units, and the regular
  expression at node-express/index.js:22 has no `u` flag, so it replaces each half of the
  surrogate pair. On names without such characters the model and Node agree.
- Overwrites are not modelled. The directory is a log of writes, not a map from names to
  files. multer's disk storage and Werkzeug's `file.save` replace an existing file of the
  same name. So two parts whose names collide (`StoredNamesCollide`) leave one file on disk,
  and a later scan can replace an earlier scan's file. The log shows both writes.
- Strings.Decimal: prints every timestamp in plain decimal. JavaScript would switch to exponent
  notation from 10^21 ms, which is far beyond any clock reading.
- Timing, constant-time comparison and concurrency are not modelled. Name uniqueness under
  concurrent uploads is not claimed, because the code does not provide it
  (`StoredNamesCollide` states exactly when names collide).
- What Express does with an exception thrown from the route callback (its default 500 handler,
  or an uncaught exception) is not modelled. The model records only `Threw(message)`.
