/**
 * The text merge of the `/email/classify` endpoint (`classify_email_file`):
 * the selected body and the selected attachments' extracted texts, each
 * followed by one space, concatenated in that order and stripped.
 */
module EmailProcessor {
  import opened Wrappers
  import opened Text

  /** One selected attachment; `extractedText` is `None` when the key is missing. */
  datatype SelectedAttachment = SelectedAttachment(extractedText: Option<string>)

  /**
   * The request's `selectedItems`. `body` is `None` when the key is missing
   * or holds `None`; `attachments` is `None` when the key is missing.
   */
  datatype SelectedItems = SelectedItems(body: Option<string>, attachments: Option<seq<SelectedAttachment>>)

  /** The body's contribution: itself when present, nothing otherwise. */
  function BodyPiece(body: Option<string>): (r: seq<string>)
    ensures body.Some? ==> r == [body.value]
    ensures body.None? ==> r == []
  {
    if body.Some? then [body.value] else []
  }

  /** Each attachment's `extracted_text`, `""` where missing, in list order. */
  function AttachmentTexts(atts: seq<SelectedAttachment>): (r: seq<string>)
    ensures |r| == |atts|
    ensures forall k :: 0 <= k < |atts| ==> r[k] == atts[k].extractedText.GetOr("")
    decreases |atts|
  {
    if atts == [] then []
    else AttachmentTexts(atts[..|atts| - 1]) + [atts[|atts| - 1].extractedText.GetOr("")]
  }

  /** The texts that go into the merge: the body first, then every attachment's text. */
  function Pieces(items: SelectedItems): (r: seq<string>)
    ensures var offset := if items.body.Some? then 1 else 0;
      var atts := items.attachments.GetOr([]);
      |r| == offset + |atts| &&
      (items.body.Some? ==> r[0] == items.body.value) &&
      forall k :: 0 <= k < |atts| ==> r[offset + k] == atts[k].extractedText.GetOr("")
  {
    BodyPiece(items.body) + AttachmentTexts(items.attachments.GetOr([]))
  }

  /** Every piece followed by one space, concatenated. */
  function Spaced(pieces: seq<string>): string
    decreases |pieces|
  {
    if pieces == [] then ""
    else Spaced(pieces[..|pieces| - 1]) + pieces[|pieces| - 1] + " "
  }

  /** Writing a space after every piece is joining the pieces with spaces and adding one at the end. */
  lemma {:induction false} SpacedJoin(pieces: seq<string>)
    requires pieces != []
    ensures Spaced(pieces) == Join(pieces, " ") + " "
    decreases |pieces|
  {
    var init := pieces[..|pieces| - 1];
    var last := pieces[|pieces| - 1];
    assert Spaced(pieces) == Spaced(init) + last + " ";
    if init == [] {
      assert Join(pieces, " ") == last;
    } else {
      SpacedJoin(init);
      assert pieces == init + [last];
      JoinAppend(init, [last], " ");
      assert Join([last], " ") == last;
    }
  }

  /** The space after the last piece does not survive `strip()`. */
  lemma SpacedStrip(pieces: seq<string>)
    ensures Strip(Spaced(pieces)) == Strip(Join(pieces, " "))
  {
    if pieces != [] {
      SpacedJoin(pieces);
      StripTrailingSpace(Join(pieces, " "), " ");
    }
  }

  /** Taking one more attachment writes its text and a space after what was written. */
  lemma AttachmentTextsStep(head: seq<string>, atts: seq<SelectedAttachment>, i: nat)
    requires i < |atts|
    ensures Spaced(head + AttachmentTexts(atts[..i + 1]))
      == Spaced(head + AttachmentTexts(atts[..i])) + atts[i].extractedText.GetOr("") + " "
  {
    var x := atts[i].extractedText.GetOr("");
    var before := head + AttachmentTexts(atts[..i]);
    assert atts[..i + 1][..i] == atts[..i];
    assert head + AttachmentTexts(atts[..i + 1]) == before + [x];
    assert (before + [x])[..|before|] == before;
  }

  /** `classify_email_file` before the call to `classify`: the merged text it passes on. */
  method MergeText(items: SelectedItems) returns (mergedText: string)
    ensures mergedText == Strip(Join(Pieces(items), " "))
    ensures IsStripped(mergedText)
    ensures Pieces(items) == [] ==> mergedText == ""
  {
    mergedText := "";
    if items.body.Some? {
      mergedText := mergedText + items.body.value + " ";
    }
    assert mergedText == Spaced(BodyPiece(items.body));
    if items.attachments.Some? {
      var atts := items.attachments.value;
      for i := 0 to |atts|
        invariant mergedText == Spaced(BodyPiece(items.body) + AttachmentTexts(atts[..i]))
      {
        var extractedText := atts[i].extractedText.GetOr("");
        AttachmentTextsStep(BodyPiece(items.body), atts, i);
        mergedText := mergedText + extractedText + " ";
      }
      assert atts[..|atts|] == atts;
    } else {
      assert BodyPiece(items.body) + AttachmentTexts([]) == BodyPiece(items.body);
    }
    SpacedStrip(Pieces(items));
    mergedText := Strip(mergedText);
  }
}
