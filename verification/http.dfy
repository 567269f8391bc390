/** What a receiver hands back to the HTTP layer, and what it leaves on disk. */
module Http {
  import opened Wrappers
  import Json

  /** A JSON response body: `{success: true, message}` or `{error}`. */
  datatype JsonBody = SuccessMessage(message: string) | ErrorMessage(error: string)

  /** The handler either writes a JSON response with a status, or throws an
      exception past its own code. */
  datatype Reply = Sent(status: nat, body: JsonBody) | Threw(error: string)

  /** The verdict of an authentication middleware: let the request through, or
      answer it with an error status and message. */
  datatype Gate = Pass | Reject(status: nat, error: string)

  /** One file in the upload directory: its name and its size in bytes. */
  datatype StoredFile = StoredFile(name: string, size: nat)

  /** What a receiver logs about a scan it accepted. */
  datatype Summary = Summary(title: Json.Value, fileCount: nat, ocrTextLength: Option<nat>)

  /** The full effect of one request: the reply, the upload directory afterwards,
      and the scan summary when the handler got as far as logging one. */
  datatype Outcome = Outcome(reply: Reply, disk: seq<StoredFile>, summary: Option<Summary>)

  const PingMessage := "Connection successful!"
  const ScanMessage := "Scan received successfully"
  const InvalidTokenError := "Invalid token"

  /** The reply for a successful ping. */
  const PingReply := Sent(200, SuccessMessage(PingMessage))

  /** The reply for a successfully received scan. */
  const ScanReply := Sent(200, SuccessMessage(ScanMessage))

  /** A form field's value, or None when the form has no such field. */
  function Lookup(fields: map<string, string>, key: string): Option<string>
  {
    if key in fields then Some(fields[key]) else None
  }

  /** The OCR text length the receivers log: only for a present, non-empty field. */
  function OcrTextLength(fields: map<string, string>): Option<nat>
  {
    if "ocrText" in fields && fields["ocrText"] != "" then Some(|fields["ocrText"]|) else None
  }

  /** The outcome of a request an authentication gate turned away: nothing stored. */
  function Denied(status: nat, error: string, disk: seq<StoredFile>): Outcome
  {
    Outcome(Sent(status, ErrorMessage(error)), disk, None)
  }
}
