/** How the two receivers relate: where they agree and where they part ways. */
module Receivers {
  import opened Wrappers
  import opened Strings
  import opened Http
  import Express = ExpressReceiver
  import Flask = FlaskReceiver

  /** An ASCII letter or digit. */
  predicate IsAsciiAlnum(c: char)
  {
    'a' <= c <= 'z' || 'A' <= c <= 'Z' || '0' <= c <= '9'
  }

  /** A classifier that, like Python's `str.isalnum`, accepts every ASCII letter and digit. */
  predicate AcceptsAsciiAlnum(isAlnum: char -> bool)
  {
    forall c :: IsAsciiAlnum(c) ==> isAlnum(c)
  }

  /** On a name made only of `[A-Za-z0-9_.-]` both sanitisers are the identity. */
  lemma SanitisersAgreeOnSafeNames(name: string, isAlnum: char -> bool)
    requires Express.AllSafe(name)
    requires AcceptsAsciiAlnum(isAlnum)
    ensures Flask.SafeName(name, isAlnum) == name
    ensures Express.SafeName(name) == name
  {
    forall i | 0 <= i < |name|
      ensures Flask.Kept(name[i], isAlnum)
    {
      assert Express.IsSafeChar(name[i]);
      if !(name[i] in "._-") {
        assert IsAsciiAlnum(name[i]);
      }
    }
    Flask.SafeNameFixedPoints(name, isAlnum);
    Express.SafeNameFixedPoints(name);
  }

  /** A character Flask does not keep is replaced by Express and dropped by
      Flask, so the Flask name comes out strictly shorter. */
  lemma FlaskDropsWhatExpressReplaces(name: string, isAlnum: char -> bool, i: nat)
    requires AcceptsAsciiAlnum(isAlnum)
    requires i < |name| && !Flask.Kept(name[i], isAlnum)
    ensures |Flask.SafeName(name, isAlnum)| < |Express.SafeName(name)|
    ensures Express.SafeName(name)[i] == '_'
  {
    assert !IsAsciiAlnum(name[i]) && name[i] !in "._-";
    assert !Express.IsSafeChar(name[i]);
    Flask.SafeNameShrinks(name, isAlnum);
  }

  /** For a header with at least one space the two hooks give the same verdict:
      both compare field 1 of the split with the token. */
  lemma AuthAgreesOnSpacedHeaders(header: string, token: string)
    requires ' ' in header
    ensures Express.Authenticate(Some(header), Some(token))
         == Flask.CheckAuth(Some(Flask.ScanEndpoint), Some(header), token)
  {
    Flask.ScanEndpointNotStatic();
    assert |Split(header, ' ')| > 1;
  }

  /** For a non-empty header without a space they differ: Express compares an
      undefined field with the token and answers 403, Flask answers 401. */
  lemma AuthDiffersOnOneWordHeaders(header: string, token: string)
    requires header != "" && ' ' !in header
    ensures Express.Authenticate(Some(header), Some(token)) == Reject(403, InvalidTokenError)
    ensures Flask.CheckAuth(Some(Flask.ScanEndpoint), Some(header), token)
         == Reject(401, Flask.MissingHeaderError)
  {
    SplitWithoutSeparator(header, ' ');
    Flask.OneWordHeaderRejected(header, token);
  }

  /** A ping is answered identically by both and stores nothing. */
  lemma PingsAgree(contentType: Option<string>, upload: Express.MulterOutcome, form: Flask.FormOutcome,
                   parse: string -> Json.ParseResult, isAlnum: char -> bool, disk: seq<StoredFile>)
    requires Express.IsPing(contentType)
    ensures Express.HandleScan(contentType, upload, parse, disk)
         == Flask.HandleScan(true, form, parse, isAlnum, disk)
         == Outcome(PingReply, disk, None)
  {
  }
}
