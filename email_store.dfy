/**
 * The EMAIL table as the core sees it through `EmailRepo`: a sequence of
 * rows in insertion order, each with the id the table assigned
 * (`EMAIL_ID INTEGER PRIMARY KEY AUTOINCREMENT`). Only the columns the core
 * reads or writes are kept.
 */
module EmailStore {
  import opened Wrappers

  /** One row of the EMAIL table. */
  datatype EmailRecord = EmailRecord(
    emailId: int,
    sender: Option<string>,
    recipient: Option<string>,
    subject: Option<string>,
    body: string,
    hasAttachment: bool,
    categoryType: Option<string>,
    category: Option<string>)

  /** The fields of an `Email` handed to `insert_email`; the id is the table's to choose. */
  datatype NewEmail = NewEmail(
    sender: Option<string>,
    recipient: Option<string>,
    subject: Option<string>,
    body: string,
    hasAttachment: bool,
    categoryType: Option<string>,
    category: Option<string>)

  /** The row `insert_email` writes for `e` under the id `id`. */
  function AsRecord(e: NewEmail, id: int): (r: EmailRecord)
    ensures r.emailId == id && r.body == e.body && r.hasAttachment == e.hasAttachment
    ensures r.sender == e.sender && r.recipient == e.recipient && r.subject == e.subject
    ensures r.categoryType == e.categoryType && r.category == e.category
  {
    EmailRecord(id, e.sender, e.recipient, e.subject, e.body, e.hasAttachment, e.categoryType, e.category)
  }

  /** Every id in `rows` is below `next`, and ids increase in insertion order. */
  predicate IdsBelow(rows: seq<EmailRecord>, next: int) {
    (forall k :: 0 <= k < |rows| ==> 1 <= rows[k].emailId < next) &&
    (forall j, k :: 0 <= j < k < |rows| ==> rows[j].emailId < rows[k].emailId)
  }

  /** The position of the row with id `id`, if there is one. */
  function IndexOfId(rows: seq<EmailRecord>, id: int): (r: Option<nat>)
    ensures r.Some? ==> r.value < |rows| && rows[r.value].emailId == id
    ensures r.None? ==> forall k :: 0 <= k < |rows| ==> rows[k].emailId != id
    decreases |rows|
  {
    if rows == [] then None
    else if rows[|rows| - 1].emailId == id then Some(|rows| - 1)
    else IndexOfId(rows[..|rows| - 1], id)
  }

  /** The rows after `update_email(email_id, category_type, category)`. */
  function WithCategory(rows: seq<EmailRecord>, emailId: Option<int>, categoryType: Option<string>, category: string)
    : (r: seq<EmailRecord>)
    ensures |r| == |rows|
    ensures forall k :: 0 <= k < |rows| ==>
      r[k] == if emailId == Some(rows[k].emailId)
              then rows[k].(categoryType := categoryType, category := Some(category))
              else rows[k]
    decreases |rows|
  {
    if rows == [] then []
    else
      var row := rows[0];
      var row' := if emailId == Some(row.emailId) then row.(categoryType := categoryType, category := Some(category)) else row;
      [row'] + WithCategory(rows[1..], emailId, categoryType, category)
  }

  /** Categorising touches nothing but the two category columns of the matching row. */
  lemma WithCategoryKeepsContent(rows: seq<EmailRecord>, emailId: Option<int>, categoryType: Option<string>, category: string)
    ensures var r := WithCategory(rows, emailId, categoryType, category);
      forall k :: 0 <= k < |rows| ==>
        r[k].emailId == rows[k].emailId && r[k].body == rows[k].body && r[k].hasAttachment == rows[k].hasAttachment &&
        r[k].sender == rows[k].sender && r[k].recipient == rows[k].recipient && r[k].subject == rows[k].subject
  {
  }

  /** An id no row carries (`None`, or one never assigned) leaves the table as it was. */
  lemma {:induction false} WithCategoryMissing(rows: seq<EmailRecord>, emailId: Option<int>, categoryType: Option<string>, category: string)
    requires emailId.None? || IndexOfId(rows, emailId.value).None?
    ensures WithCategory(rows, emailId, categoryType, category) == rows
  {
    var r := WithCategory(rows, emailId, categoryType, category);
    assert forall k :: 0 <= k < |rows| ==> emailId != Some(rows[k].emailId);
    assert forall k :: 0 <= k < |rows| ==> r[k] == rows[k];
  }

  /** Ids being distinct, categorising by id is overwriting the one row that carries it. */
  lemma WithCategoryAt(rows: seq<EmailRecord>, i: nat, categoryType: Option<string>, category: string)
    requires i < |rows|
    requires forall j, k :: 0 <= j < k < |rows| ==> rows[j].emailId < rows[k].emailId
    ensures WithCategory(rows, Some(rows[i].emailId), categoryType, category)
      == rows[i := rows[i].(categoryType := categoryType, category := Some(category))]
  {
    var r := WithCategory(rows, Some(rows[i].emailId), categoryType, category);
    forall k | 0 <= k < |rows| && k != i
      ensures rows[k].emailId != rows[i].emailId
    {
      if k < i {
        assert rows[k].emailId < rows[i].emailId;
      } else {
        assert rows[i].emailId < rows[k].emailId;
      }
    }
  }

  /** Categorising a row leaves every id where it was. */
  lemma CategoryKeepsIds(rows: seq<EmailRecord>, i: nat, categoryType: Option<string>, category: string, next: int)
    requires i < |rows| && IdsBelow(rows, next)
    ensures IdsBelow(rows[i := rows[i].(categoryType := categoryType, category := Some(category))], next)
  {
    var r := rows[i := rows[i].(categoryType := categoryType, category := Some(category))];
    assert forall k :: 0 <= k < |rows| ==> r[k].emailId == rows[k].emailId;
  }

  /** `EmailRepo` over an SQLite connection, as a sequence of rows and the next id to assign. */
  class EmailRepo {
    var rows: seq<EmailRecord>
    var nextId: int

    ghost predicate Valid()
      reads this
    {
      1 <= nextId && IdsBelow(rows, nextId)
    }

    /** A new, empty table. */
    constructor ()
      ensures Valid() && rows == [] && nextId == 1
    {
      rows := [];
      nextId := 1;
    }

    /** `insert_email`: appends one row and returns the id it was given. */
    method InsertEmail(e: NewEmail) returns (id: int)
      requires Valid()
      modifies this
      ensures Valid()
      ensures id == old(nextId) && nextId == old(nextId) + 1
      ensures rows == old(rows) + [AsRecord(e, id)]
    {
      id := nextId;
      rows := rows + [AsRecord(e, id)];
      nextId := nextId + 1;
    }

    /**
     * `update_email` of email_classifier.py: fetch the row by id, set its
     * category columns and write it back. A missing row makes the attribute
     * assignment raise, which the function catches, so nothing changes.
     */
    method UpdateCategory(emailId: Option<int>, categoryType: Option<string>, category: string)
      requires Valid()
      modifies this
      ensures Valid() && nextId == old(nextId)
      ensures rows == WithCategory(old(rows), emailId, categoryType, category)
    {
      if emailId.None? {
        WithCategoryMissing(rows, emailId, categoryType, category);
        return;
      }
      var found := IndexOfId(rows, emailId.value);
      if found.None? {
        WithCategoryMissing(rows, emailId, categoryType, category);
        return;
      }
      var i := found.value;
      WithCategoryAt(rows, i, categoryType, category);
      CategoryKeepsIds(rows, i, categoryType, category, nextId);
      rows := rows[i := rows[i].(categoryType := categoryType, category := Some(category))];
    }
  }
}
