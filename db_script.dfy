/**
 * `store_email_in_db` of script.py: stores a body under fixed sender,
 * recipient and subject. The duplicate check of the same file is the one in
 * `DuplicateCheck`.
 */
module DbScript {
  import opened Wrappers
  import opened EmailStore

  const ScriptSender: string := "abc@test.com"
  const ScriptRecipient: string := "xyz@test.com"
  const ScriptSubject: string := "My Subject Line"

  /**
   * The `Email` the script builds: the given body and attachment flag under
   * the script's fixed addresses and subject, with no category.
   */
  function ScriptEmail(body: string, hasAttachment: bool): (e: NewEmail)
    ensures e.body == body && e.hasAttachment == hasAttachment
    ensures e.sender == Some(ScriptSender) && e.recipient == Some(ScriptRecipient) && e.subject == Some(ScriptSubject)
    ensures e.categoryType.None? && e.category.None?
  {
    NewEmail(Some(ScriptSender), Some(ScriptRecipient), Some(ScriptSubject), body, hasAttachment, None, None)
  }

  /** `store_email_in_db`: appends exactly one row carrying the body and the flag. */
  method StoreEmailInDb(repo: EmailRepo, emailBody: string, hasAttachment: bool)
    requires repo.Valid()
    modifies repo
    ensures repo.Valid()
    ensures repo.rows == old(repo.rows) + [AsRecord(ScriptEmail(emailBody, hasAttachment), old(repo.nextId))]
    ensures |repo.rows| == |old(repo.rows)| + 1
    ensures repo.rows[|repo.rows| - 1].body == emailBody && repo.rows[|repo.rows| - 1].hasAttachment == hasAttachment
  {
    var email := ScriptEmail(emailBody, hasAttachment);
    var _ := repo.InsertEmail(email);
  }
}
