/**
 * What the upload page exchanges with the browser and the processing
 * service: the chosen file, the form sent, the service's answer, and the
 * notifications shown to the user.
 */
module Uploads {
  import opened Wrappers
  import Results

  /** A browser `File`: its name, size and MIME type (its bytes are not modelled). */
  datatype FileInfo = FileInfo(name: string, size: nat, mimeType: string)

  const XlsType: string := "application/vnd.ms-excel"
  const XlsxType: string := "application/vnd.openxmlformats-officedocument.spreadsheetml.sheet"
  const CsvType: string := "text/csv"

  /** The MIME types the page accepts, in the page's order. */
  const ValidFileTypes: seq<string> := [XlsType, XlsxType, CsvType]

  /** `VALID_FILE_TYPES.includes(type)`. */
  predicate IsValidFileType(mimeType: string)
    ensures IsValidFileType(mimeType) <==> mimeType == XlsType || mimeType == XlsxType || mimeType == CsvType
  {
    mimeType in ValidFileTypes
  }

  /** The multipart body of the upload request: the `file` field, and an
      `email` field that is present only when the e-mail text is non-empty. */
  datatype UploadForm = UploadForm(file: FileInfo, email: Option<string>)

  /** The form built for a file and the page's e-mail text (`if (email)`). */
  function BuildForm(file: FileInfo, email: string): (form: UploadForm)
    ensures form.file == file
    ensures form.email.Some? <==> email != ""
    ensures form.email.Some? ==> form.email.value == email
  {
    UploadForm(file, if email != "" then Some(email) else None)
  }

  /** How the request ended: a 2xx answer with its parsed body, or a rejected
      request with the body's `message` (if the server sent one) and the
      transport error's own `message`. */
  datatype UploadResponse =
    | Answered(message: Option<string>, results: Option<seq<Results.ResultRecord>>)
    | Rejected(serverMessage: Option<string>, errorMessage: Option<string>)

  /** JavaScript truthiness of an optional string: present and non-empty. */
  predicate Truthy(s: Option<string>) {
    s.Some? && s.value != ""
  }

  /** `a || b` on optional strings. */
  function OrElse(a: Option<string>, b: string): (r: string)
    ensures Truthy(a) ==> r == a.value
    ensures !Truthy(a) ==> r == b
  {
    if Truthy(a) then a.value else b
  }

  const UploadFailedFallback: string := "Upload failed."
  const UploadedFallback: string := "File uploaded successfully."

  /** The message reported for a rejected request: the server's message, else
      the transport error's, else the fixed fallback. */
  function FailureMessage(serverMessage: Option<string>, errorMessage: Option<string>): (m: string)
    ensures Truthy(serverMessage) ==> m == serverMessage.value
    ensures !Truthy(serverMessage) && Truthy(errorMessage) ==> m == errorMessage.value
    ensures !Truthy(serverMessage) && !Truthy(errorMessage) ==> m == UploadFailedFallback
    ensures m != ""
  {
    OrElse(serverMessage, OrElse(errorMessage, UploadFailedFallback))
  }

  /** The styling of a notification. */
  datatype ToastKind = SuccessToast | ErrorToast

  /** One notification shown to the user. */
  datatype Toast = Toast(message: string, kind: ToastKind)

  const InvalidTypeToast: Toast :=
    Toast("Invalid file type. Please upload Excel (XLS, XLSX) or CSV file.", ErrorToast)
  const ClearedToast: Toast := Toast("File selection cleared", SuccessToast)
  const NoFileToast: Toast := Toast("Please select a file first.", ErrorToast)
  const BadEmailToast: Toast := Toast("If providing an email, please enter a valid one.", ErrorToast)

  /** The notification for a rejected request. */
  function UploadErrorToast(serverMessage: Option<string>, errorMessage: Option<string>): (t: Toast)
    ensures t.kind == ErrorToast
    ensures |t.message| > |"Upload error: "| && t.message[..|"Upload error: "|] == "Upload error: "
    ensures t.message[|"Upload error: "|..] == FailureMessage(serverMessage, errorMessage)
  {
    Toast("Upload error: " + FailureMessage(serverMessage, errorMessage), ErrorToast)
  }

  /** The notification for an answered request. */
  function UploadedToast(message: Option<string>): (t: Toast)
    ensures t.kind == SuccessToast
    ensures Truthy(message) ==> t.message == message.value
    ensures !Truthy(message) ==> t.message == UploadedFallback
  {
    Toast(OrElse(message, UploadedFallback), SuccessToast)
  }
}
