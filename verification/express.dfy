/** The Express receiver (node-express/index.js): multer's filename callback, the
    `authenticate` middleware and the `POST /api/scans` handler. */
module ExpressReceiver {
  import opened Wrappers
  import opened Strings
  import opened Json
  import opened Http

  // ---------------------------------------------------------------------------
  // Stored file names
  // ---------------------------------------------------------------------------

  /** multer's per-file size limit: 50 MiB. */
  const MaxFileSize: nat := 50 * 1024 * 1024

  /** The characters the filename callback keeps: `[a-zA-Z0-9_\-\.]`. */
  predicate IsSafeChar(c: char)
  {
    'a' <= c <= 'z' || 'A' <= c <= 'Z' || '0' <= c <= '9' || c == '_' || c == '-' || c == '.'
  }

  predicate AllSafe(s: string)
  {
    forall i :: 0 <= i < |s| ==> IsSafeChar(s[i])
  }

  /** The original file name with every character outside the safe class
      replaced by `_` (a global regular-expression replace). */
  function SafeName(name: string): (r: string)
    ensures |r| == |name|
    ensures forall i :: 0 <= i < |name| ==> r[i] == (if IsSafeChar(name[i]) then name[i] else '_')
    decreases |name|
  {
    if |name| == 0 then ""
    else [if IsSafeChar(name[0]) then name[0] else '_'] + SafeName(name[1..])
  }

  /** Every character of a sanitised name is safe, so it holds no path separator. */
  lemma SafeNameIsSafe(name: string)
    ensures AllSafe(SafeName(name))
    ensures '/' !in SafeName(name) && '\\' !in SafeName(name)
  {
  }

  /** Sanitising leaves a name alone exactly when it is already safe. */
  lemma SafeNameFixedPoints(name: string)
    ensures SafeName(name) == name <==> AllSafe(name)
  {
  }

  /** Sanitising twice is sanitising once. */
  lemma SafeNameIdempotent(name: string)
    ensures SafeName(SafeName(name)) == SafeName(name)
  {
  }

  /** The name multer's `filename` callback gives a file received when `Date.now()`
      read `clock`: the millisecond timestamp, a dash, the sanitised name. */
  function StoredName(clock: nat, originalName: string): string
  {
    Decimal(clock) + "-" + SafeName(originalName)
  }

  /** Reads a stored name back as its timestamp and sanitised name; None for a name
      the callback cannot have produced. */
  function ParseStoredName(stored: string): Option<(nat, string)>
  {
    match SplitOnce(stored, '-')
    case None => None
    case Some((stamp, name)) =>
      match ParseDecimal(stamp)
      case None => None
      case Some(clock) => if AllSafe(name) then Some((clock, name)) else None
  }

  /** A stored name splits at its first dash back into the timestamp and the
      sanitised name, since decimal digits contain no dash. */
  lemma StoredNameRoundTrip(clock: nat, originalName: string)
    ensures ParseStoredName(StoredName(clock, originalName)) == Some((clock, SafeName(originalName)))
  {
    var stamp := Decimal(clock);
    assert forall i :: 0 <= i < |stamp| ==> stamp[i] != '-';
    SplitOnceOfJoin(stamp, SafeName(originalName), '-');
    DecimalRoundTrip(clock, stamp);
    SafeNameIsSafe(originalName);
  }

  /** ParseStoredName only accepts names the callback produces, and reads back the
      timestamp and name that produce them. */
  lemma ParseStoredNameSound(stored: string, clock: nat, name: string)
    requires ParseStoredName(stored) == Some((clock, name))
    ensures stored == StoredName(clock, name)
  {
    var split := SplitOnce(stored, '-');
    DecimalRoundTrip(clock, split.value.0);
    SafeNameFixedPoints(name);
  }

  /** Two uploads collide on disk exactly when they were stamped in the same
      millisecond and their names sanitise alike; nothing else prevents it. */
  lemma StoredNamesCollide(clock1: nat, name1: string, clock2: nat, name2: string)
    ensures StoredName(clock1, name1) == StoredName(clock2, name2)
        <==> clock1 == clock2 && SafeName(name1) == SafeName(name2)
  {
    StoredNameRoundTrip(clock1, name1);
    StoredNameRoundTrip(clock2, name2);
  }

  /** A stored name is one path component inside the upload directory: safe
      characters only, no separator, and never `.` or `..` since it starts with a digit. */
  lemma StoredNameIsPathComponent(clock: nat, originalName: string)
    ensures AllSafe(StoredName(clock, originalName))
    ensures '/' !in StoredName(clock, originalName) && '\\' !in StoredName(clock, originalName)
    ensures StoredName(clock, originalName) != "." && StoredName(clock, originalName) != ".."
  {
    var stamp := Decimal(clock);
    var r := StoredName(clock, originalName);
    SafeNameIsSafe(originalName);
    assert forall i :: 0 <= i < |stamp| ==> r[i] == stamp[i];
    assert r[|stamp|] == '-';
    assert forall i :: |stamp| < i < |r| ==> r[i] == SafeName(originalName)[i - |stamp| - 1];
    assert AllSafe(r);
    assert forall i :: 0 <= i < |r| ==> r[i] != '/' && r[i] != '\\';
    assert IsDigit(r[0]);
  }

  // ---------------------------------------------------------------------------
  // Authentication
  // ---------------------------------------------------------------------------

  const MissingHeaderError := "Missing authorization header"

  /** The `authenticate` middleware. `configured` is `SCANWOW_TOKEN`, None when unset.
      The header is split on single spaces and field 1 (undefined when missing) is
      compared with the configured token; the scheme word is never looked at. */
  function Authenticate(authorization: Option<string>, configured: Option<string>): (g: Gate)
    ensures authorization.None? || authorization == Some("") ==> g == Reject(401, MissingHeaderError)
    ensures authorization.Some? && authorization.value != "" ==>
      (g == Pass <==> Field(Split(authorization.value, ' '), 1) == configured)
    ensures g.Reject? ==> g == Reject(401, MissingHeaderError) || g == Reject(403, InvalidTokenError)
    ensures authorization.Some? && authorization.value != "" && g != Pass ==> g == Reject(403, InvalidTokenError)
  {
    match authorization
    case None => Reject(401, MissingHeaderError)
    case Some(header) =>
      if header == "" then Reject(401, MissingHeaderError)
      else if Field(Split(header, ' '), 1) != configured then Reject(403, InvalidTokenError)
      else Pass
  }

  /** `Bearer <token>` with the configured token passes. */
  lemma BearerTokenPasses(token: string)
    requires ' ' !in token
    ensures Authenticate(Some("Bearer " + token), Some(token)) == Pass
  {
    assert "Bearer " + token == "Bearer" + [' '] + token;
    SplitAfterWord("Bearer", token, ' ');
    SplitWithoutSeparator(token, ' ');
  }

  /** `Bearer <other>` with a token configured and a different credential is
      forbidden with 403 `Invalid token`. */
  lemma WrongTokenForbidden(given: string, token: string)
    requires ' ' !in given && given != token
    ensures Authenticate(Some("Bearer " + given), Some(token)) == Reject(403, InvalidTokenError)
  {
    assert "Bearer " + given == "Bearer" + [' '] + given;
    SplitAfterWord("Bearer", given, ' ');
    SplitWithoutSeparator(given, ' ');
  }

  /** The first word is never inspected: any scheme word, `Bearer` or not, gives
      the same verdict. */
  lemma SchemeWordIgnored(scheme1: string, scheme2: string, rest: string, configured: Option<string>)
    requires ' ' !in scheme1 && ' ' !in scheme2
    ensures Authenticate(Some(scheme1 + " " + rest), configured)
         == Authenticate(Some(scheme2 + " " + rest), configured)
  {
    assert scheme1 + " " + rest == scheme1 + [' '] + rest;
    assert scheme2 + " " + rest == scheme2 + [' '] + rest;
    SplitAfterWord(scheme1, rest, ' ');
    SplitAfterWord(scheme2, rest, ' ');
  }

  /** Fail-open: with `SCANWOW_TOKEN` unset, any non-empty header without a space
      passes, because field 1 is undefined and so is the token. */
  lemma UnsetTokenFailsOpen(header: string)
    requires header != "" && ' ' !in header
    ensures Authenticate(Some(header), None) == Pass
  {
  }

  /** With `SCANWOW_TOKEN` unset, a header that does contain a space is refused. */
  lemma UnsetTokenRejectsSpacedHeader(header: string)
    requires ' ' in header
    ensures Authenticate(Some(header), None) == Reject(403, InvalidTokenError)
  {
  }

  /** A configured token that contains a space can never be presented: field 1
      of a split never contains the separator. */
  lemma SpacedTokenNeverPasses(header: Option<string>, token: string)
    requires ' ' in token
    ensures Authenticate(header, Some(token)) != Pass
  {
  }

  // ---------------------------------------------------------------------------
  // The scan handler
  // ---------------------------------------------------------------------------

  const FileTooLargeError := "File too large"
  const NullTitleError := "Cannot read properties of null (reading 'title')"
  const UnsetFilesError := "Cannot read properties of undefined (reading 'length')"

  /** A file part as multer receives it: the client's name, its size in bytes, and
      the `Date.now()` reading taken when its name was chosen. */
  datatype UploadedFile = UploadedFile(originalName: string, size: nat, clock: nat)

  /** What `upload.any()` does with the request before calling back:
      - Skipped: not a multipart request, so multer calls back with no error and
        leaves `req.files` unset (`body` is whatever earlier middleware parsed);
      - Failed: multer or the disk reported an error (other than the size limit);
      - Decoded: the file parts in arrival order and the text fields. */
  datatype MulterOutcome =
    | Skipped(body: map<string, string>)
    | Failed(message: string)
    | Decoded(files: seq<UploadedFile>, body: map<string, string>)

  /** The request as the handler sees it. */
  datatype Request = Request(authorization: Option<string>, contentType: Option<string>, upload: MulterOutcome)

  /** The content type selects the ping branch when it contains `application/json`
      (case-sensitive); a missing content type reads as the empty string. */
  predicate IsPing(contentType: Option<string>)
  {
    Contains(contentType.GetOr(""), "application/json")
  }

  /** A request without a content type is never a ping. */
  lemma MissingContentTypeIsNotPing()
    ensures !IsPing(None) && !IsPing(Some(""))
  {
  }

  /** Parameters on the media type do not stop a ping being recognised. */
  lemma JsonContentTypeIsPing(parameters: string)
    ensures IsPing(Some("application/json" + parameters))
  {
    PrefixIsContained("application/json", parameters);
  }

  /** Some file part is over multer's size limit. */
  predicate Oversized(files: seq<UploadedFile>)
  {
    exists i :: 0 <= i < |files| && files[i].size > MaxFileSize
  }

  /** The directory entries multer writes for the given parts, in order. */
  function StoreAll(files: seq<UploadedFile>): (stored: seq<StoredFile>)
    ensures |stored| == |files|
    ensures forall i :: 0 <= i < |files| ==>
      stored[i] == StoredFile(StoredName(files[i].clock, files[i].originalName), files[i].size)
    decreases |files|
  {
    if |files| == 0 then []
    else [StoredFile(StoredName(files[0].clock, files[0].originalName), files[0].size)] + StoreAll(files[1..])
  }

  /** The title the handler logs: `metadata.title` when truthy, else `Untitled`.
      None when reading the property throws, which only a `null` metadata does. */
  function LoggedTitle(metadata: Value): (title: Option<Value>)
    ensures title.None? <==> metadata.Null?
    ensures title.Some? ==> JsTruthy(title.value)
    ensures metadata.Object? && "title" in metadata.members && JsTruthy(metadata.members["title"]) ==>
      title == Some(metadata.members["title"])
    ensures title.Some? && title.value != Str("Untitled") ==>
      metadata.Object? && "title" in metadata.members && metadata.members["title"] == title.value
  {
    match metadata
    case Null => None
    case Object(members) =>
      if "title" in members && JsTruthy(members["title"]) then Some(members["title"])
      else Some(Str("Untitled"))
    case _ => Some(Str("Untitled"))
  }

  /** The `POST /api/scans` route body, after authentication has passed. `parse` is
      `JSON.parse`; `disk` is the upload directory before the request. */
  function HandleScan(contentType: Option<string>, upload: MulterOutcome,
                      parse: string -> ParseResult, disk: seq<StoredFile>): (o: Outcome)
    ensures IsPing(contentType) ==> o == Outcome(PingReply, disk, None)
    ensures !IsPing(contentType) && upload.Failed? ==> o == Outcome(Sent(400, ErrorMessage(upload.message)), disk, None)
    ensures disk <= o.disk
    ensures o.reply.Sent? && o.reply.status != 200 ==> o.reply.status == 400 && o.disk == disk
    ensures o.reply == ScanReply ==>
      && !IsPing(contentType) && upload.Decoded? && !Oversized(upload.files)
      && o.disk == disk + StoreAll(upload.files)
      && o.summary.Some? && o.summary.value.fileCount == |upload.files|
    ensures o.summary.Some? ==>
      !upload.Failed? && LoggedTitle(MetadataOf(Lookup(upload.body, "metadata"), parse)) == Some(o.summary.value.title)
  {
    if IsPing(contentType) then
      Outcome(PingReply, disk, None)
    else
      match upload
      case Failed(message) =>
        Outcome(Sent(400, ErrorMessage(message)), disk, None)
      case Skipped(body) =>
        var metadata := MetadataOf(Lookup(body, "metadata"), parse);
        if metadata.Null? then Outcome(Threw(NullTitleError), disk, None)
        else Outcome(Threw(UnsetFilesError), disk, None)
      case Decoded(files, body) =>
        if Oversized(files) then
          Outcome(Sent(400, ErrorMessage(FileTooLargeError)), disk, None)
        else
          var written := disk + StoreAll(files);
          var metadata := MetadataOf(Lookup(body, "metadata"), parse);
          match LoggedTitle(metadata)
          case None => Outcome(Threw(NullTitleError), written, None)
          case Some(title) =>
            Outcome(ScanReply, written, Some(Summary(title, |files|, OcrTextLength(body))))
  }

  /** The whole route: `authenticate`, then the handler. */
  function Receive(request: Request, configured: Option<string>,
                   parse: string -> ParseResult, disk: seq<StoredFile>): (o: Outcome)
    ensures Authenticate(request.authorization, configured).Reject? ==>
      o.disk == disk && o.summary.None? && o.reply.Sent? && o.reply.status in {401, 403}
    ensures Authenticate(request.authorization, configured) == Pass ==>
      o == HandleScan(request.contentType, request.upload, parse, disk)
  {
    match Authenticate(request.authorization, configured)
    case Reject(status, error) => Denied(status, error, disk)
    case Pass => HandleScan(request.contentType, request.upload, parse, disk)
  }

  /** A request with no usable Authorization header is refused with 401 whatever
      the configuration, and nothing is stored. */
  lemma MissingHeaderRejected(request: Request, configured: Option<string>,
                              parse: string -> ParseResult, disk: seq<StoredFile>)
    requires request.authorization.None? || request.authorization == Some("")
    ensures Receive(request, configured, parse, disk)
         == Outcome(Sent(401, ErrorMessage(MissingHeaderError)), disk, None)
  {
  }

  /** Metadata the parser rejects changes nothing: the request fares exactly as if
      the field had not been sent. */
  lemma MalformedMetadataIsHarmless(contentType: Option<string>, files: seq<UploadedFile>,
                                    body: map<string, string>, parse: string -> ParseResult,
                                    disk: seq<StoredFile>)
    requires "metadata" in body && parse(body["metadata"]).Malformed?
    ensures HandleScan(contentType, Decoded(files, body), parse, disk)
         == HandleScan(contentType, Decoded(files, body - {"metadata"}), parse, disk)
  {
  }

  /** A decoded upload within the size limit whose metadata is not `null` succeeds:
      every part is stored under its callback name with its size, and the title
      falls back to `Untitled` unless the metadata carries a truthy title. */
  lemma DecodedUploadSucceeds(contentType: Option<string>, files: seq<UploadedFile>,
                              body: map<string, string>, parse: string -> ParseResult,
                              disk: seq<StoredFile>)
    requires !IsPing(contentType) && !Oversized(files)
    requires !MetadataOf(Lookup(body, "metadata"), parse).Null?
    ensures HandleScan(contentType, Decoded(files, body), parse, disk).reply == ScanReply
    ensures HandleScan(contentType, Decoded(files, body), parse, disk).disk == disk + StoreAll(files)
    ensures HandleScan(contentType, Decoded(files, body), parse, disk).summary.Some?
    ensures HandleScan(contentType, Decoded(files, body), parse, disk).summary.value.fileCount == |files|
  {
  }

  /** Without a `metadata` field the logged title is `Untitled`. */
  lemma UntitledWithoutMetadata(contentType: Option<string>, files: seq<UploadedFile>,
                                body: map<string, string>, parse: string -> ParseResult,
                                disk: seq<StoredFile>)
    requires !IsPing(contentType) && !Oversized(files) && "metadata" !in body
    ensures HandleScan(contentType, Decoded(files, body), parse, disk).summary
         == Some(Summary(Str("Untitled"), |files|, OcrTextLength(body)))
  {
  }

  /** A truthy `title` in object metadata is the title logged. */
  lemma TitleFromMetadata(contentType: Option<string>, files: seq<UploadedFile>,
                          body: map<string, string>, parse: string -> ParseResult,
                          disk: seq<StoredFile>, members: map<string, Value>)
    requires !IsPing(contentType) && !Oversized(files)
    requires "metadata" in body && body["metadata"] != "" && parse(body["metadata"]) == Parsed(Object(members))
    requires "title" in members && JsTruthy(members["title"])
    ensures HandleScan(contentType, Decoded(files, body), parse, disk).summary
         == Some(Summary(members["title"], |files|, OcrTextLength(body)))
  {
  }

  /** A part over 50 MiB fails the whole request with 400 and leaves nothing stored. */
  lemma OversizedFileRejected(contentType: Option<string>, files: seq<UploadedFile>,
                              body: map<string, string>, parse: string -> ParseResult,
                              disk: seq<StoredFile>, k: nat)
    requires !IsPing(contentType) && k < |files| && files[k].size > MaxFileSize
    ensures HandleScan(contentType, Decoded(files, body), parse, disk)
         == Outcome(Sent(400, ErrorMessage(FileTooLargeError)), disk, None)
  {
  }

  /** Metadata that parses to `null` makes the handler throw after the files are
      already stored: no JSON reply is written. */
  lemma NullMetadataThrows(contentType: Option<string>, files: seq<UploadedFile>,
                           body: map<string, string>, parse: string -> ParseResult,
                           disk: seq<StoredFile>)
    requires !IsPing(contentType) && !Oversized(files)
    requires "metadata" in body && body["metadata"] != "" && parse(body["metadata"]) == Parsed(Null)
    ensures HandleScan(contentType, Decoded(files, body), parse, disk)
         == Outcome(Threw(NullTitleError), disk + StoreAll(files), None)
  {
  }

  /** A request that is neither a ping nor multipart (for one, a request with no
      content type) reaches `req.files.length` with `req.files` unset and throws. */
  lemma NonMultipartRequestThrows(contentType: Option<string>, body: map<string, string>,
                                  parse: string -> ParseResult, disk: seq<StoredFile>)
    requires !IsPing(contentType)
    ensures var o := HandleScan(contentType, Skipped(body), parse, disk);
      o.reply.Threw? && o.disk == disk && o.summary.None?
  {
  }
}
