/** The Flask receiver (python-flask/app.py): the `check_auth` before-request hook
    and the `handle_scan` view. */
module FlaskReceiver {
  import opened Wrappers
  import opened Strings
  import opened Json
  import opened Http

  // ---------------------------------------------------------------------------
  // Stored file names
  // ---------------------------------------------------------------------------

  /** The characters the list comprehension keeps: those `str.isalnum` accepts,
      and `.`, `_`, `-`. Python's Unicode `isalnum` is passed in as `isAlnum`. */
  predicate Kept(c: char, isAlnum: char -> bool)
  {
    isAlnum(c) || c in "._-"
  }

  predicate AllKept(s: string, isAlnum: char -> bool)
  {
    forall i :: 0 <= i < |s| ==> Kept(s[i], isAlnum)
  }

  /** The uploaded file name with every character that is not kept dropped. */
  function SafeName(name: string, isAlnum: char -> bool): (r: string)
    ensures |r| <= |name|
    ensures AllKept(r, isAlnum)
    ensures IsSubsequence(r, name)
    ensures forall c :: multiset(r)[c] == if Kept(c, isAlnum) then multiset(name)[c] else 0
    decreases |name|
  {
    if |name| == 0 then ""
    else
      var rest := SafeName(name[1..], isAlnum);
      assert name == [name[0]] + name[1..];
      if Kept(name[0], isAlnum) then
        assert ([name[0]] + rest)[1..] == rest;
        [name[0]] + rest
      else
        assert |rest| > 0 ==> rest[0] != name[0];
        rest
  }

  /** A name made only of kept characters comes through unchanged. */
  lemma {:induction false} SafeNameKeepsKeptNames(name: string, isAlnum: char -> bool)
    requires AllKept(name, isAlnum)
    ensures SafeName(name, isAlnum) == name
    decreases |name|
  {
    if |name| > 0 {
      SafeNameKeepsKeptNames(name[1..], isAlnum);
    }
  }

  /** Sanitising leaves a name alone exactly when every character is kept. */
  lemma SafeNameFixedPoints(name: string, isAlnum: char -> bool)
    ensures SafeName(name, isAlnum) == name <==> AllKept(name, isAlnum)
  {
    if AllKept(name, isAlnum) {
      SafeNameKeepsKeptNames(name, isAlnum);
    }
  }

  /** Sanitising twice is sanitising once. */
  lemma SafeNameIdempotent(name: string, isAlnum: char -> bool)
    ensures SafeName(SafeName(name, isAlnum), isAlnum) == SafeName(name, isAlnum)
  {
    SafeNameKeepsKeptNames(SafeName(name, isAlnum), isAlnum);
  }

  /** Sanitising shortens the name exactly when some character is dropped. */
  lemma {:induction false} SafeNameShrinks(name: string, isAlnum: char -> bool)
    ensures |SafeName(name, isAlnum)| < |name| <==> exists i :: 0 <= i < |name| && !Kept(name[i], isAlnum)
    decreases |name|
  {
    if |name| > 0 {
      var rest := name[1..];
      SafeNameShrinks(rest, isAlnum);
      if Kept(name[0], isAlnum) {
        assert |SafeName(name, isAlnum)| == 1 + |SafeName(rest, isAlnum)|;
        if exists i :: 0 <= i < |name| && !Kept(name[i], isAlnum) {
          var i :| 0 <= i < |name| && !Kept(name[i], isAlnum);
          assert rest[i - 1] == name[i];
        }
        if exists j :: 0 <= j < |rest| && !Kept(rest[j], isAlnum) {
          var j :| 0 <= j < |rest| && !Kept(rest[j], isAlnum);
          assert name[j + 1] == rest[j];
        }
      } else {
        assert |SafeName(name, isAlnum)| == |SafeName(rest, isAlnum)| <= |rest|;
      }
    }
  }

  /** The name the view saves a file under when `int(time.time())` read `clock`:
      the seconds, an underscore, the sanitised name. */
  function StoredName(clock: nat, filename: string, isAlnum: char -> bool): string
  {
    Decimal(clock) + "_" + SafeName(filename, isAlnum)
  }

  /** Reads a stored name back as its timestamp and sanitised name; None for a
      name the view cannot have produced. */
  function ParseStoredName(stored: string, isAlnum: char -> bool): Option<(nat, string)>
  {
    match SplitOnce(stored, '_')
    case None => None
    case Some((stamp, name)) =>
      match ParseDecimal(stamp)
      case None => None
      case Some(clock) => if AllKept(name, isAlnum) then Some((clock, name)) else None
  }

  /** A stored name splits at its first underscore back into the timestamp and
      the sanitised name, since decimal digits contain no underscore. */
  lemma StoredNameRoundTrip(clock: nat, filename: string, isAlnum: char -> bool)
    ensures ParseStoredName(StoredName(clock, filename, isAlnum), isAlnum)
         == Some((clock, SafeName(filename, isAlnum)))
  {
    var stamp := Decimal(clock);
    assert forall i :: 0 <= i < |stamp| ==> stamp[i] != '_';
    SplitOnceOfJoin(stamp, SafeName(filename, isAlnum), '_');
    DecimalRoundTrip(clock, stamp);
  }

  /** ParseStoredName only accepts names the view produces. */
  lemma ParseStoredNameSound(stored: string, isAlnum: char -> bool, clock: nat, name: string)
    requires ParseStoredName(stored, isAlnum) == Some((clock, name))
    ensures stored == StoredName(clock, name, isAlnum)
  {
    var split := SplitOnce(stored, '_');
    DecimalRoundTrip(clock, split.value.0);
    SafeNameKeepsKeptNames(name, isAlnum);
  }

  /** When no character survives, the stored name is the timestamp and `_` alone. */
  lemma NothingKeptLeavesStamp(clock: nat, filename: string, isAlnum: char -> bool)
    requires forall i :: 0 <= i < |filename| ==> !Kept(filename[i], isAlnum)
    ensures StoredName(clock, filename, isAlnum) == Decimal(clock) + "_"
  {
  }

  /** Two saves collide exactly when they fall in the same second and their names
      sanitise alike. */
  lemma StoredNamesCollide(clock1: nat, name1: string, clock2: nat, name2: string, isAlnum: char -> bool)
    ensures StoredName(clock1, name1, isAlnum) == StoredName(clock2, name2, isAlnum)
        <==> clock1 == clock2 && SafeName(name1, isAlnum) == SafeName(name2, isAlnum)
  {
    StoredNameRoundTrip(clock1, name1, isAlnum);
    StoredNameRoundTrip(clock2, name2, isAlnum);
  }

  /** With a classifier that, like Python's, rejects both slashes, a stored name is
      one path component inside the upload directory. */
  lemma StoredNameIsPathComponent(clock: nat, filename: string, isAlnum: char -> bool)
    requires !isAlnum('/') && !isAlnum('\\')
    ensures '/' !in StoredName(clock, filename, isAlnum) && '\\' !in StoredName(clock, filename, isAlnum)
    ensures StoredName(clock, filename, isAlnum) != "." && StoredName(clock, filename, isAlnum) != ".."
  {
    var stamp := Decimal(clock);
    var safe := SafeName(filename, isAlnum);
    var r := StoredName(clock, filename, isAlnum);
    assert forall i :: 0 <= i < |stamp| ==> r[i] == stamp[i];
    assert forall i :: |stamp| < i < |r| ==> r[i] == safe[i - |stamp| - 1];
    assert forall i :: 0 <= i < |r| ==> r[i] != '/' && r[i] != '\\';
    assert IsDigit(r[0]);
  }

  // ---------------------------------------------------------------------------
  // Authentication
  // ---------------------------------------------------------------------------

  const DefaultToken := "test"
  const MissingHeaderError := "Missing Authorization header"

  /** The endpoint name Flask gives `POST /api/scans`. */
  const ScanEndpoint := "handle_scan"

  /** `AUTH_TOKEN`: `SCANWOW_TOKEN` from the environment, `test` when unset. */
  function ConfiguredToken(env: Option<string>): (token: string)
    ensures env.None? ==> token == DefaultToken
    ensures env.Some? ==> token == env.value
  {
    env.GetOr(DefaultToken)
  }

  /** The hook returns early only for an endpoint whose name contains `static`;
      a request with no endpoint is still checked. */
  predicate SkipsAuth(endpoint: Option<string>)
  {
    endpoint.Some? && endpoint.value != "" && Contains(endpoint.value, "static")
  }

  /** The `check_auth` hook: Pass when it returns None, Reject when it returns a
      response. The header is split on single spaces; field 1 is the token and the
      scheme word is never looked at. */
  function CheckAuth(endpoint: Option<string>, authorization: Option<string>, token: string): (g: Gate)
    ensures SkipsAuth(endpoint) ==> g == Pass
    ensures !SkipsAuth(endpoint) && (authorization.None? || |Split(authorization.value, ' ')| < 2) ==>
      g == Reject(401, MissingHeaderError)
    ensures !SkipsAuth(endpoint) && authorization.Some? && |Split(authorization.value, ' ')| >= 2 ==>
      (g == Pass <==> Split(authorization.value, ' ')[1] == token)
    ensures g.Reject? ==> g == Reject(401, MissingHeaderError) || g == Reject(403, InvalidTokenError)
    ensures !SkipsAuth(endpoint) && authorization.Some? && |Split(authorization.value, ' ')| >= 2 && g != Pass ==>
      g == Reject(403, InvalidTokenError)
  {
    if SkipsAuth(endpoint) then Pass
    else
      match authorization
      case None => Reject(401, MissingHeaderError)
      case Some(header) =>
        if header == "" || |Split(header, ' ')| < 2 then Reject(401, MissingHeaderError)
        else if Split(header, ' ')[1] != token then Reject(403, InvalidTokenError)
        else Pass
  }

  /** The scan view's endpoint name does not contain `static`. */
  lemma ScanEndpointNotStatic()
    ensures !SkipsAuth(Some(ScanEndpoint))
  {
    var s := ScanEndpoint;
    var sub := "static";
    forall i | 0 <= i <= |s| - |sub|
      ensures !OccursAt(s, sub, i)
    {
      assert s[i..i + |sub|][0] == s[i] != 's';
    }
  }

  /** A header that is empty or a single word is refused with 401 before the token
      is looked at. */
  lemma OneWordHeaderRejected(header: string, token: string)
    requires ' ' !in header
    ensures CheckAuth(Some(ScanEndpoint), Some(header), token) == Reject(401, MissingHeaderError)
  {
    ScanEndpointNotStatic();
    SplitWithoutSeparator(header, ' ');
  }

  /** `Bearer test` passes when `SCANWOW_TOKEN` is unset. */
  lemma DefaultTokenAccepted()
    ensures CheckAuth(Some(ScanEndpoint), Some("Bearer test"), ConfiguredToken(None)) == Pass
  {
    ScanEndpointNotStatic();
    assert "Bearer test" == "Bearer" + [' '] + "test";
    SplitAfterWord("Bearer", "test", ' ');
    SplitWithoutSeparator("test", ' ');
  }

  /** `Bearer <other>` with a credential other than the token is forbidden with
      403 `Invalid token`. */
  lemma WrongTokenForbidden(given: string, token: string)
    requires ' ' !in given && given != token
    ensures CheckAuth(Some(ScanEndpoint), Some("Bearer " + given), token) == Reject(403, InvalidTokenError)
  {
    ScanEndpointNotStatic();
    assert "Bearer " + given == "Bearer" + [' '] + given;
    SplitAfterWord("Bearer", given, ' ');
    SplitWithoutSeparator(given, ' ');
  }

  /** With `SCANWOW_TOKEN` set to the empty string, a header ending in its first
      space passes: field 1 is empty and equals the token. */
  lemma EmptyTokenAcceptsBlankField(scheme: string)
    requires ' ' !in scheme
    ensures CheckAuth(Some(ScanEndpoint), Some(scheme + " "), ConfiguredToken(Some(""))) == Pass
  {
    ScanEndpointNotStatic();
    assert scheme + " " == scheme + [' '] + "";
    SplitAfterWord(scheme, "", ' ');
    SplitWithoutSeparator("", ' ');
  }

  /** An endpoint without a name is checked exactly like the scan view. */
  lemma MissingEndpointIsChecked(authorization: Option<string>, token: string)
    ensures CheckAuth(None, authorization, token) == CheckAuth(Some(ScanEndpoint), authorization, token)
  {
    ScanEndpointNotStatic();
  }

  // ---------------------------------------------------------------------------
  // The scan view
  // ---------------------------------------------------------------------------

  /** One file entry of `request.files.items()`: the client's file name, its size,
      the `int(time.time())` reading taken for it, and the exception `file.save`
      raises, if any. */
  datatype FileEntry = FileEntry(filename: string, size: nat, clock: nat, saveError: Option<string>)

  /** What reading the form gives: an exception, or the file entries in iteration
      order and the text fields. */
  datatype FormOutcome = FormFailed(error: string) | Form(files: seq<FileEntry>, fields: map<string, string>)

  /** The request as the application sees it; `isJson` is Flask's `request.is_json`. */
  datatype Request = Request(authorization: Option<string>, isJson: bool, form: FormOutcome)

  /** The directory entry a successful save of `e` creates. */
  function EntryFile(e: FileEntry, isAlnum: char -> bool): StoredFile
  {
    StoredFile(StoredName(e.clock, e.filename, isAlnum), e.size)
  }

  /** The directory entries successful saves of `files` create, in order. */
  function EntryFiles(files: seq<FileEntry>, isAlnum: char -> bool): (stored: seq<StoredFile>)
    ensures |stored| == |files|
    ensures forall i :: 0 <= i < |files| ==> stored[i] == EntryFile(files[i], isAlnum)
    decreases |files|
  {
    if |files| == 0 then [] else [EntryFile(files[0], isAlnum)] + EntryFiles(files[1..], isAlnum)
  }

  /** The position of the first entry whose save raises; `|files|` when none does. */
  function FirstSaveFailure(files: seq<FileEntry>): (k: nat)
    ensures k <= |files|
    ensures forall j :: 0 <= j < k ==> files[j].saveError.None?
    ensures k < |files| ==> files[k].saveError.Some?
    decreases |files|
  {
    if |files| == 0 then 0
    else if files[0].saveError.Some? then 0
    else 1 + FirstSaveFailure(files[1..])
  }

  /** The entries for a prefix of the files are the first file's entry followed by
      the entries for the matching prefix of the rest. */
  lemma EntryFilesOfPrefix(files: seq<FileEntry>, k: nat, isAlnum: char -> bool)
    requires k < |files|
    ensures EntryFiles(files[..k + 1], isAlnum) == [EntryFile(files[0], isAlnum)] + EntryFiles(files[1..][..k], isAlnum)
  {
    assert files[..k + 1] == [files[0]] + files[1..][..k];
  }

  /** The outcome of the save loop: the names appended to `saved_files` and the
      directory entries written, or the exception that ended it and the entries
      written before it. */
  datatype SaveResult =
    | Saved(names: seq<string>, written: seq<StoredFile>)
    | SaveFailed(error: string, written: seq<StoredFile>)

  /** The `for` loop over `request.files.items()`: each file is saved under its
      stored name and the name appended to `saved_files`, until a save raises. */
  function SaveFiles(files: seq<FileEntry>, isAlnum: char -> bool): (r: SaveResult)
    ensures r.Saved? <==> FirstSaveFailure(files) == |files|
    ensures r.written == EntryFiles(files[..FirstSaveFailure(files)], isAlnum)
    ensures r.SaveFailed? ==> Some(r.error) == files[FirstSaveFailure(files)].saveError
    ensures r.Saved? ==> |r.names| == |files|
    ensures r.Saved? ==> forall i :: 0 <= i < |files| ==> r.names[i] == StoredName(files[i].clock, files[i].filename, isAlnum)
    decreases |files|
  {
    if |files| == 0 then
      Saved([], [])
    else
      match files[0].saveError
      case Some(error) => SaveFailed(error, [])
      case None =>
        var entry := EntryFile(files[0], isAlnum);
        EntryFilesOfPrefix(files, FirstSaveFailure(files[1..]), isAlnum);
        match SaveFiles(files[1..], isAlnum)
        case Saved(names, written) => Saved([entry.name] + names, [entry] + written)
        case SaveFailed(error, written) => SaveFailed(error, [entry] + written)
  }

  /** `metadata.get('title', 'Untitled')`: the `title` entry of a dict, present
      even when empty, else `Untitled`; any other value has no `get` and raises. */
  function TitleOf(metadata: Value): (r: Result<Value>)
    ensures r.Failure? <==> !metadata.Object?
    ensures r.Failure? ==> r.error == "'" + PyTypeName(metadata) + "' object has no attribute 'get'"
    ensures r.Success? && "title" in metadata.members ==> r.value == metadata.members["title"]
    ensures r.Success? && "title" !in metadata.members ==> r.value == Str("Untitled")
  {
    match metadata
    case Object(members) => Success(if "title" in members then members["title"] else Str("Untitled"))
    case _ => Failure("'" + PyTypeName(metadata) + "' object has no attribute 'get'")
  }

  /** The `handle_scan` view. `parse` is `json.loads`; `disk` is the upload
      directory before the request. Every exception in the multipart branch turns
      into a 400 carrying its message. */
  function HandleScan(isJson: bool, form: FormOutcome, parse: string -> ParseResult,
                      isAlnum: char -> bool, disk: seq<StoredFile>): (o: Outcome)
    ensures isJson ==> o == Outcome(PingReply, disk, None)
    ensures !isJson && form.FormFailed? ==> o == Outcome(Sent(400, ErrorMessage(form.error)), disk, None)
    ensures o.reply.Sent? && o.reply.status in {200, 400}
    ensures disk <= o.disk
    ensures o.reply == ScanReply ==>
      && !isJson && form.Form?
      && o.disk == disk + EntryFiles(form.files, isAlnum)
      && o.summary.Some? && o.summary.value.fileCount == |form.files|
  {
    if isJson then
      Outcome(PingReply, disk, None)
    else
      match form
      case FormFailed(error) => Outcome(Sent(400, ErrorMessage(error)), disk, None)
      case Form(files, fields) =>
        match SaveFiles(files, isAlnum)
        case SaveFailed(error, written) => Outcome(Sent(400, ErrorMessage(error)), disk + written, None)
        case Saved(names, written) =>
          assert files[..|files|] == files;
          FinishScan(|names|, fields, parse, disk + written)
  }

  /** The rest of the `try` block once every file is saved: read the metadata, log
      the title and the count, and answer. */
  function FinishScan(count: nat, fields: map<string, string>, parse: string -> ParseResult,
                      disk: seq<StoredFile>): (o: Outcome)
    ensures o.disk == disk && o.reply.Sent?
    ensures o.reply == ScanReply <==> MetadataOf(Lookup(fields, "metadata"), parse).Object?
    ensures o.reply != ScanReply ==> o.reply.status == 400 && o.summary.None?
    ensures o.reply == ScanReply ==> o.summary.Some? && o.summary.value.fileCount == count
    ensures o.summary.Some? ==> TitleOf(MetadataOf(Lookup(fields, "metadata"), parse)) == Success(o.summary.value.title)
  {
    match TitleOf(MetadataOf(Lookup(fields, "metadata"), parse))
    case Failure(error) => Outcome(Sent(400, ErrorMessage(error)), disk, None)
    case Success(title) => Outcome(ScanReply, disk, Some(Summary(title, count, OcrTextLength(fields))))
  }

  /** The whole application for `POST /api/scans`: `check_auth`, then the view.
      `env` is the `SCANWOW_TOKEN` environment variable. */
  function Receive(request: Request, env: Option<string>, parse: string -> ParseResult,
                   isAlnum: char -> bool, disk: seq<StoredFile>): (o: Outcome)
    ensures CheckAuth(Some(ScanEndpoint), request.authorization, ConfiguredToken(env)).Reject? ==>
      o.disk == disk && o.summary.None? && o.reply.Sent? && o.reply.status in {401, 403}
    ensures CheckAuth(Some(ScanEndpoint), request.authorization, ConfiguredToken(env)) == Pass ==>
      o == HandleScan(request.isJson, request.form, parse, isAlnum, disk)
  {
    match CheckAuth(Some(ScanEndpoint), request.authorization, ConfiguredToken(env))
    case Reject(status, error) => Denied(status, error, disk)
    case Pass => HandleScan(request.isJson, request.form, parse, isAlnum, disk)
  }

  /** When no save raises, the loop completes and writes an entry for every file. */
  lemma SaveLoopCompletes(files: seq<FileEntry>, isAlnum: char -> bool)
    requires forall i :: 0 <= i < |files| ==> files[i].saveError.None?
    ensures SaveFiles(files, isAlnum) == Saved(SaveFiles(files, isAlnum).names, EntryFiles(files, isAlnum))
  {
    assert FirstSaveFailure(files) == |files|;
    assert files[..|files|] == files;
  }

  /** When no save raises, every file is written and the view goes on to the metadata. */
  lemma EverySaveSucceeds(files: seq<FileEntry>, fields: map<string, string>,
                          parse: string -> ParseResult, isAlnum: char -> bool,
                          disk: seq<StoredFile>)
    requires forall i :: 0 <= i < |files| ==> files[i].saveError.None?
    ensures HandleScan(false, Form(files, fields), parse, isAlnum, disk)
         == FinishScan(|files|, fields, parse, disk + EntryFiles(files, isAlnum))
  {
    SaveLoopCompletes(files, isAlnum);
  }

  /** Metadata `json.loads` rejects changes nothing: the request fares exactly as
      if the field had not been sent. */
  lemma MalformedMetadataIsHarmless(files: seq<FileEntry>, fields: map<string, string>,
                                    parse: string -> ParseResult, isAlnum: char -> bool,
                                    disk: seq<StoredFile>)
    requires "metadata" in fields && parse(fields["metadata"]).Malformed?
    ensures HandleScan(false, Form(files, fields), parse, isAlnum, disk)
         == HandleScan(false, Form(files, fields - {"metadata"}), parse, isAlnum, disk)
  {
  }

  /** When every save succeeds and the metadata is a dict (or absent), the scan is
      received: one saved name per file entry, each file on disk under its stored
      name with its size. */
  lemma FormUploadSucceeds(files: seq<FileEntry>, fields: map<string, string>,
                           parse: string -> ParseResult, isAlnum: char -> bool,
                           disk: seq<StoredFile>)
    requires forall i :: 0 <= i < |files| ==> files[i].saveError.None?
    requires MetadataOf(Lookup(fields, "metadata"), parse).Object?
    ensures HandleScan(false, Form(files, fields), parse, isAlnum, disk).reply == ScanReply
    ensures HandleScan(false, Form(files, fields), parse, isAlnum, disk).disk == disk + EntryFiles(files, isAlnum)
    ensures HandleScan(false, Form(files, fields), parse, isAlnum, disk).summary.Some?
    ensures HandleScan(false, Form(files, fields), parse, isAlnum, disk).summary.value.fileCount == |files|
  {
    EverySaveSucceeds(files, fields, parse, isAlnum, disk);
  }

  /** A `title` key is used whenever present, even with an empty value. */
  lemma EmptyTitleIsKept(files: seq<FileEntry>, fields: map<string, string>,
                         parse: string -> ParseResult, isAlnum: char -> bool,
                         disk: seq<StoredFile>, members: map<string, Value>)
    requires forall i :: 0 <= i < |files| ==> files[i].saveError.None?
    requires "metadata" in fields && fields["metadata"] != ""
    requires parse(fields["metadata"]) == Parsed(Object(members))
    requires "title" in members && members["title"] == Str("")
    ensures HandleScan(false, Form(files, fields), parse, isAlnum, disk).summary
         == Some(Summary(Str(""), |files|, OcrTextLength(fields)))
  {
    EverySaveSucceeds(files, fields, parse, isAlnum, disk);
  }

  /** Metadata that parses to something other than a dict raises at `.get` after
      every file has been saved: the reply is 400 and the files stay on disk. */
  lemma NonObjectMetadataFails(files: seq<FileEntry>, fields: map<string, string>,
                               parse: string -> ParseResult, isAlnum: char -> bool,
                               disk: seq<StoredFile>, metadata: Value)
    requires forall i :: 0 <= i < |files| ==> files[i].saveError.None?
    requires "metadata" in fields && fields["metadata"] != ""
    requires parse(fields["metadata"]) == Parsed(metadata) && !metadata.Object?
    ensures HandleScan(false, Form(files, fields), parse, isAlnum, disk)
         == Outcome(Sent(400, ErrorMessage("'" + PyTypeName(metadata) + "' object has no attribute 'get'")),
                    disk + EntryFiles(files, isAlnum), None)
  {
    EverySaveSucceeds(files, fields, parse, isAlnum, disk);
    assert MetadataOf(Lookup(fields, "metadata"), parse) == metadata;
    NonObjectMetadataRaises(|files|, fields, parse, disk + EntryFiles(files, isAlnum));
  }

  /** Past the save loop, a non-dict metadata value ends the request with the
      `AttributeError` message and nothing else changes. */
  lemma NonObjectMetadataRaises(count: nat, fields: map<string, string>,
                                parse: string -> ParseResult, disk: seq<StoredFile>)
    requires !MetadataOf(Lookup(fields, "metadata"), parse).Object?
    ensures FinishScan(count, fields, parse, disk)
         == Outcome(Sent(400, ErrorMessage("'" + PyTypeName(MetadataOf(Lookup(fields, "metadata"), parse))
                                          + "' object has no attribute 'get'")), disk, None)
  {
  }

  /** A save that raises ends the request with 400; the files saved before it
      stay on disk. */
  lemma SaveFailureKeepsEarlierFiles(files: seq<FileEntry>, fields: map<string, string>,
                                     parse: string -> ParseResult, isAlnum: char -> bool,
                                     disk: seq<StoredFile>, k: nat)
    requires k < |files| && files[k].saveError.Some?
    requires forall j :: 0 <= j < k ==> files[j].saveError.None?
    ensures HandleScan(false, Form(files, fields), parse, isAlnum, disk)
         == Outcome(Sent(400, ErrorMessage(files[k].saveError.value)),
                    disk + EntryFiles(files[..k], isAlnum), None)
  {
    var first := FirstSaveFailure(files);
    assert first == k;
  }
}
