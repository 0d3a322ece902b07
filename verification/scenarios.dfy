/**
 * Worked cases of the upload page's rules.
 */
module Scenarios {
  import opened Wrappers
  import opened Uploads
  import opened Results
  import EmailPattern
  import HomePage

  /** A CSV file is accepted; a plain-text file is not. */
  lemma CsvAcceptedTextRejected()
    ensures IsValidFileType("text/csv")
    ensures !IsValidFileType("text/plain")
    ensures HomePage.SelectionAfter(None, FileInfo("report.txt", 3, "text/plain")) == None
  {
  }

  /** "not-an-email" blocks a submit. */
  lemma BadEmailBlocked(file: FileInfo)
    ensures HomePage.Validate(Some(file), "not-an-email") == HomePage.Blocked(HomePage.InvalidEmailFormat)
  {
    assert !EmailPattern.IsValidEmail("not-an-email") by {
      assert EmailPattern.FirstFrom("not-an-email", '@', 1).None?;
    }
  }

  /** "a@b.com" passes and is sent along with the file. */
  lemma GoodEmailSent(file: FileInfo)
    ensures HomePage.Validate(Some(file), "a@b.com") == HomePage.Started(UploadForm(file, Some("a@b.com")))
  {
    assert EmailPattern.IsValidEmail("a@b.com") by {
      assert EmailPattern.FirstFrom("a@b.com", '@', 1) == Some(1);
      assert EmailPattern.LastBefore("a@b.com", '.', 6) == Some(3);
    }
  }

  /** An empty e-mail is not checked and not sent. */
  lemma EmptyEmailNotSent(file: FileInfo)
    ensures HomePage.Validate(Some(file), "") == HomePage.Started(UploadForm(file, None))
  {
  }

  /** One successful row and one failed row count as 2 / 1 / 1. */
  lemma TwoRowStats(a: ResultRecord, b: ResultRecord)
    requires a.status == "success" && b.status == "error"
    ensures DeriveStats([a, b]) == Stats(2, 1, 1)
  {
  }

  /** A rejected request with neither message reports the fixed fallback; an
      empty server message counts as none. */
  lemma FailureMessageExamples()
    ensures FailureMessage(None, None) == "Upload failed."
    ensures FailureMessage(Some(""), Some("Network Error")) == "Network Error"
    ensures FailureMessage(Some("Bad sheet"), Some("Network Error")) == "Bad sheet"
  {
  }
}
