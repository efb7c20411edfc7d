/**
 * `store_email` (store_email_to_db.py): derives the attachment flag, runs
 * the duplicate check on the body and the flag, and inserts a row only when
 * the email is not a duplicate.
 */
module StoreEmailToDb {
  import opened Wrappers
  import opened Provider
  import opened EmailStore
  import opened DuplicateCheck

  /** One parsed attachment; only its presence matters here. */
  datatype Attachment = Attachment(filename: string, extractedText: string)

  /**
   * The parsed email dictionary. A field is `None` when its key is missing
   * (`email.get(key)`).
   */
  datatype IncomingEmail = IncomingEmail(
    subject: Option<string>,
    sender: Option<string>,
    recipients: Option<string>,
    body: Option<string>,
    attachments: Option<seq<Attachment>>)

  /** What `store_email` returns: `{"email_id": ..., "is_duplicate": ...}`. */
  datatype StoreOutcome = StoreOutcome(emailId: Option<int>, isDuplicate: bool)

  /** `len(attachments) > 0 if attachments else False`. */
  function HasAttachment(attachments: Option<seq<Attachment>>): (b: bool)
    ensures b <==> attachments.Some? && attachments.value != []
  {
    if attachments.Some? && attachments.value != [] then |attachments.value| > 0 else false
  }

  /** `email.get("body", "")`. */
  function BodyOf(email: IncomingEmail): (body: string)
    ensures email.body.None? ==> body == ""
    ensures email.body.Some? ==> body == email.body.value
  {
    email.body.GetOr("")
  }

  /** The `Email` built for a new message: its own fields, the derived flag and no category. */
  function ToStore(email: IncomingEmail): (e: NewEmail)
    ensures e.body == BodyOf(email) && e.hasAttachment == HasAttachment(email.attachments)
    ensures e.sender == email.sender && e.recipient == email.recipients && e.subject == email.subject
    ensures e.categoryType.None? && e.category.None?
  {
    NewEmail(email.sender, email.recipients, email.subject, BodyOf(email), HasAttachment(email.attachments), None, None)
  }

  /**
   * `store_email`. The duplicate check reads the same table it writes to;
   * its exception, if the provider raised, propagates.
   */
  method StoreEmail(repo: EmailRepo, email: IncomingEmail, sim: Similarity, gen: Generator)
    returns (r: Result<StoreOutcome, string>)
    requires repo.Valid()
    modifies repo
    ensures repo.Valid()
    ensures var verdict := DuplicateVerdict(old(repo.rows), BodyOf(email), HasAttachment(email.attachments), sim, gen,
                                            DefaultThreshold, DefaultLlmThreshold);
      match verdict
      case Failure(e) => r == Failure(e) && repo.rows == old(repo.rows)
      case Success(true) => r == Success(StoreOutcome(None, true)) && repo.rows == old(repo.rows)
      case Success(false) =>
        r == Success(StoreOutcome(Some(old(repo.nextId)), false)) &&
        repo.rows == old(repo.rows) + [AsRecord(ToStore(email), old(repo.nextId))]
    ensures old(repo.rows) == [] ==>
      r == Success(StoreOutcome(Some(old(repo.nextId)), false)) &&
      repo.rows == [AsRecord(ToStore(email), old(repo.nextId))]
  {
    var body := BodyOf(email);
    var hasAttachment := HasAttachment(email.attachments);
    var isDuplicate, _, _ := CheckDuplicateEmail(repo.rows, body, hasAttachment, sim, gen, DefaultThreshold, DefaultLlmThreshold);
    if isDuplicate.Failure? {
      return Failure(isDuplicate.error);
    }
    if !isDuplicate.value {
      var stored := ToStore(email);
      var emailId := repo.InsertEmail(stored);
      return Success(StoreOutcome(Some(emailId), isDuplicate.value));
    }
    return Success(StoreOutcome(None, isDuplicate.value));
  }
}
