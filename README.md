# Email classification core, modelled in Dafny

This project models the deterministic core of an email classification
service for financial requests. An incoming email is parsed and
stored unless it duplicates one already in the EMAIL table. Its selected
body and attachment texts are merged into one text, which is classified:

- named financial entities are extracted,
- key phrases are extracted,
- a summary is generated,
- the result is categorised, and that category is written back to the row.

Every classification step calls a generative text provider inside a bounded
retry loop. The duplicate check filters stored emails by embedding
similarity, then asks the provider to confirm candidates one by one.

The model has one module per source file, plus shared modules:

| module | models |
|---|---|
| `EmailClassifier` | `backend/app/utils/email_classifier.py`: `validate_input`, the retry loops of the four generators with their fallbacks, `extract_output`, `generate_final_response` with its write-back, and `update_email` |
| `EntityParser` | `parse_entities`: the line cleaning, the skip filter, a matcher that follows `entity_pattern`'s leftmost, greedy and lazy choices, `float` and the 0.8 cutoff |
| `KeyPhrases` | the word split of `extract_key_phrases`, `merge_terms` over `MERGE_TERMS`, and the comma split with its digit filter |
| `DuplicateCheck` | `check_duplicate_email` of `backend/app/db/track_emails.py` and its identical copy in `backend/app/db/script.py` |
| `StoreEmailToDb` | `store_email` of `backend/app/utils/store_email_to_db.py` |
| `DbScript` | `store_email_in_db` of `backend/app/db/script.py` |
| `EmailProcessor` | the text merge of `classify_email_file` in `backend/app/api/endpoints/email_processor.py` |
| `EmailStore` | the EMAIL table behind `EmailRepo`: a class holding the rows in insertion order and the next id |
| `Provider` | the generative model and the embedding model, as oracles |
| `Text`, `Numbers`, `Wrappers` | Python's string primitives, `float(s)` on text, and Option/Result |

The two external models become function parameters:

- A `Generator` maps a prompt and a call number to a reply: a text, or an
  exception raised by the call.
- A `Similarity` maps the new body and a stored body to their cosine
  similarity.

Every property is proved for all generators and all similarity functions.

Some consequences of the code are proved as lemmas:

- Merging vocabulary runs and joining the words with spaces again gives back
  the plain space-joined words. So `merge_terms` never changes the
  key-phrase prompt (`KeyPhrases.MergedJoin`).
- Only a few upper-case entries of `MERGE_TERMS` can ever match the
  upper-cased `\w+` words. Dotted, mixed-case and symbol entries never
  match (`KeyPhrases.UnreachableEntries`). So `["ACME", "INC", "REPORT"]`
  stays three words: "ACME" is not in the vocabulary, so it cannot join
  "INC" in a run, and no word "ACME INC" is formed.
- The similarity filter is inclusive: the code compares with `>=`, so a
  stored email whose similarity equals `threshold` is a candidate
  (`DuplicateCheck.Candidates`).
- The skip filter drops every line that contains "note" in any letter case.
  This includes lines whose entity is a "Promissory Note"
  (`EntityParser.NoteInEntityDropsLine`).
- The three attachment cases of the duplicate check all return `True`.
  Any numeric reply at or above `llm_threshold` therefore confirms a
  duplicate, whatever the attachment flags are
  (`DuplicateCheck.ScoreDecides`).
- A provider call that raises does not lead to a retry. The first handler
  of each loop names an attribute `google.generativeai` does not have, so
  the `AttributeError` raised while evaluating it leaves the loop
  (`EmailClassifier.EscapesIff`, `EmailClassifier.RaiseEscapes`). The
  catch-and-retry loop the handlers evidently intend is modelled beside it
  (`EmailClassifier.RetryCatching`); see "## Findings".

## Model

| member | source | states |
|---|---|---|
| `EmailClassifier.ValidateInput` | backend/app/utils/email_classifier.py:43-48 | The input is accepted exactly when it is a string that is not all whitespace. It is then returned stripped, and is non-empty. Every rejection carries the "Invalid input" message. |
| `EmailClassifier.ValidateValidated` | backend/app/utils/email_classifier.py:43-48 | Validation is idempotent: validated text validates again to itself. |
| `EmailClassifier.FirstAnswer` | backend/app/utils/email_classifier.py:92-107 | The catching retry loop, the one the handlers evidently intend, settles on the first attempt below `retries` whose stripped reply is non-empty, after only empty replies. It finds none exactly when every attempt is empty. |
| `EmailClassifier.Calls` | backend/app/utils/email_classifier.py:92-105 | The catching loop makes at most `retries` provider calls, and at least one when `retries` is positive. |
| `EmailClassifier.RetryCatching` | backend/app/utils/email_classifier.py:92-107 | The loop that catches a raised call and retries returns the first non-empty stripped reply, or nothing once the attempts run out. It makes exactly the calls up to and including the accepted one. |
| `EmailClassifier.WrittenLoop` | backend/app/utils/email_classifier.py:92-107 | The loop as written accepts a non-empty stripped reply at an attempt below `retries`, and ends by an exception only at an attempt below `retries` whose call raised. |
| `EmailClassifier.WrittenAgrees` | backend/app/utils/email_classifier.py:92-107 | Until a call raises, the loop as written accepts the same reply as the catching loop, or runs out with it. It escapes only after empty replies. |
| `EmailClassifier.EscapesIff` | backend/app/utils/email_classifier.py:93-101 | The loop as written ends by an exception exactly when some attempt below `retries` raises after only empty replies. |
| `EmailClassifier.RaisedEscapes` | backend/app/utils/email_classifier.py:93-101 | A call that raises after only empty replies ends the loop as written by an exception. |
| `EmailClassifier.RaiseEscapes` | backend/app/utils/email_classifier.py:100 | When the first call raises and the second answers, the loop as written escapes at attempt 0, while the catching loop accepts the second answer. |
| `EmailClassifier.WrittenCalls` | backend/app/utils/email_classifier.py:92-105 | The loop as written makes at most `retries` calls, and at least one when `retries` is positive. |
| `EmailClassifier.WrittenCallsAgree` | backend/app/utils/email_classifier.py:92-105 | When no call raises, the loop as written makes as many calls as the catching loop. |
| `EmailClassifier.Retry` | backend/app/utils/email_classifier.py:92-107 | The loop as written returns the first non-empty stripped reply, or nothing once the attempts run out, or ends with the `AttributeError` of its first handler when a call raises. It makes exactly the calls up to the accepted or raising one. |
| `EmailClassifier.EntitiesFor` | backend/app/utils/email_classifier.py:92-107 | When no call raises, every returned entity has confidence at least 0.8 and a stripped entity and type. With no usable reply the result is empty. |
| `EmailClassifier.ExtractNamedEntities` | backend/app/utils/email_classifier.py:80-107 | Invalid input raises before any provider call. A call that raises first makes it raise `AttributeError`. Otherwise the result is the parse of the first usable reply to the entity prompt, or `[]`. |
| `EmailClassifier.KeyPhrasesFor` | backend/app/utils/email_classifier.py:130-153 | When no call raises, every returned phrase is stripped and digit-free. With no usable reply the result is empty. |
| `EmailClassifier.ExtractKeyPhrases` | backend/app/utils/email_classifier.py:109-153 | Invalid input raises before any call. The prompt embeds the upper-cased words joined by spaces, with merged runs included. A call that raises first makes it raise `AttributeError`. Otherwise the result is the filtered comma split of the first usable reply, or `[]`. |
| `EmailClassifier.SummaryFor` | backend/app/utils/email_classifier.py:195-210 | When no call raises, the summary is non-empty and stripped. It is the fallback text when every attempt is empty. Any other summary is the reply to some attempt below `retries`. |
| `EmailClassifier.GenerateSummary` | backend/app/utils/email_classifier.py:185-210 | Invalid input raises before any call. A call that raises first makes it raise `AttributeError`. Otherwise the result is the first usable reply, or "Summary generation failed.". |
| `EmailClassifier.FinalResponseFor` | backend/app/utils/email_classifier.py:258-274 | When no call raises, the response is non-empty and stripped. It is the fallback text when every attempt is empty. Any other response is the reply to some attempt below `retries`. |
| `EmailClassifier.GenerateFinalResponse` | backend/app/utils/email_classifier.py:247-274 | Invalid input raises and leaves the table alone. An accepted reply is returned and written as the category of row `email_id`. When the attempts run out, the fallback text is returned; when a call raises first, `AttributeError` escapes. In both cases the table is unchanged. |
| `EmailClassifier.EntityJson` | backend/app/utils/email_classifier.py:220 | An entity is reported under exactly the keys "Entity" and "Type", in that order. The confidence is not reported. |
| `EmailClassifier.EntitiesJson` | backend/app/utils/email_classifier.py:220 | There is one object per entity, in entity order. |
| `EmailClassifier.StringsJson` | backend/app/utils/email_classifier.py:221 | There is one JSON string per key phrase, in order. |
| `EmailClassifier.ResultJson` | backend/app/utils/email_classifier.py:219-223 | The result object has exactly the keys named_entities, key_phrases and summary, in that order, each holding its part. |
| `EmailClassifier.ErrorJson` | backend/app/utils/email_classifier.py:226-228 | The error object has the single key "error", holding the message. |
| `EmailClassifier.ExtractOutput` | backend/app/utils/email_classifier.py:212-231 | Invalid input gives the error object with the validation message. When a call of one of the three loops raises first, the error object holds the `AttributeError` message. Otherwise the output holds the entities, key phrases and summary computed with 3 retries. The output is an error object exactly when validation fails or a loop escapes. |
| `EntityParser.RemoveBoldNoStars` | backend/app/utils/email_classifier.py:63 | Removing "**" leaves text without asterisks unchanged. |
| `EntityParser.RemoveBoldNoPairs` | backend/app/utils/email_classifier.py:63 | No "**" is left after the removal: a '*' that is kept is never next to another. |
| `EntityParser.CleanLineShape` | backend/app/utils/email_classifier.py:63 | A cleaned line has no surrounding whitespace and contains no "**". |
| `EntityParser.SkipTestIgnoresCase` | backend/app/utils/email_classifier.py:64 | The skip test gives the same answer for a line and for its lower-cased form. |
| `EntityParser.LongestEnd` | backend/app/utils/email_classifier.py:58 | The greedy entity group's chosen end is within range, acceptable, and followed by matching fields. |
| `EntityParser.LongestEndSkips` | backend/app/utils/email_classifier.py:58 | Ends after which the rest of the pattern cannot match are backtracked over. |
| `EntityParser.LongestEndIsLargest` | backend/app/utils/email_classifier.py:58 | The chosen end is the largest acceptable one. There is none exactly when no end from the group's start to the end of the line is acceptable. |
| `EntityParser.ConfidenceFieldShape` | backend/app/utils/email_classifier.py:58 | The confidence field matches only where "Confidence Score:" stands, in any letter case. Its group is a non-empty run of digits and dots. |
| `EntityParser.TypeFieldShape` | backend/app/utils/email_classifier.py:58 | The type field matches only where "Type:" stands, in any letter case. Its group is non-empty and holds no comma. |
| `EntityParser.FieldsAfterShape` | backend/app/utils/email_classifier.py:58 | After the entity group, only whitespace stands before the comma that leads to the type field, and the type and confidence groups are well shaped. |
| `EntityParser.EntityEndOkShape` | backend/app/utils/email_classifier.py:58 | Every end the entity group may take leaves it non-empty and not ending in a comma. |
| `EntityParser.MatchAtShape` | backend/app/utils/email_classifier.py:57-60 | A match starts with "Entity:" in any letter case. Its entity group begins right after that, so unlike the regex's group 1 it includes the whitespace that `\s*` takes before the entity; only the stripped group is ever used, and the chosen end is the same. The group is non-empty and does not end in a comma. Its type group is non-empty and comma-free, and its confidence group is a run of digits and dots. |
| `EntityParser.SearchFromNone` | backend/app/utils/email_classifier.py:67 | `search` finds no match exactly when the pattern matches at no position of the line. |
| `EntityParser.SearchFromLeftmost` | backend/app/utils/email_classifier.py:67 | The match `search` reports is the one at the leftmost position where the pattern matches. |
| `EntityParser.EntityOfMatch` | backend/app/utils/email_classifier.py:69-75 | A match adds at most one entity. Whatever it adds has confidence at least 0.8 and stripped texts. |
| `EntityParser.EntityOfMatchIff` | backend/app/utils/email_classifier.py:69-73 | A match adds an entity exactly when `float` accepts its confidence text and the value is at least 0.8. The entity is then the stripped entity and type groups with that value. |
| `EntityParser.LineEntities` | backend/app/utils/email_classifier.py:62-77 | A line yields at most one entity, and that entity is kept. |
| `EntityParser.CollectedEntitiesKept` | backend/app/utils/email_classifier.py:62-78 | There are no more entities than lines, and every one of them is kept. |
| `EntityParser.EntitiesOf` | backend/app/utils/email_classifier.py:62-78 | The collected entities number at most the lines, and all of them are kept. |
| `EntityParser.EntitiesOfAppend` | backend/app/utils/email_classifier.py:62-78 | Entities come out in line order: consecutive blocks of lines give consecutive blocks of entities. |
| `EntityParser.LineWithoutEntity` | backend/app/utils/email_classifier.py:64-77 | A skipped, unmatched or low-confidence line is passed over, and parsing goes on with the following lines. |
| `EntityParser.ParseEntities` | backend/app/utils/email_classifier.py:50-78 | An empty response gives no entities. Otherwise the entities are those of the response's lines, in line order, and all of them are kept. |
| `EntityParser.LaidOutMatches` | backend/app/utils/email_classifier.py:57-60 | On a line laid out as the prompt asks, the pattern's groups are exactly the entity, the type and the confidence text. |
| `EntityParser.LaidOutEntityEnd` | backend/app/utils/email_classifier.py:58 | The greedy entity group ends exactly before ", Type:", even when the entity holds commas. |
| `EntityParser.LaidOutFieldsAtEntityEnd` | backend/app/utils/email_classifier.py:58 | After the entity, the type and confidence fields match the laid-out type and confidence. |
| `EntityParser.LaidOutNoFieldsBeyond` | backend/app/utils/email_classifier.py:58 | No later end of the entity group lets the rest of the pattern match. |
| `EntityParser.FormatLineMatches` | backend/app/utils/email_classifier.py:57-60 | The search finds the groups of any line in the prompt's format. |
| `EntityParser.CleanFormatLine` | backend/app/utils/email_classifier.py:63 | Cleaning leaves a formatted line without asterisks as it is. |
| `EntityParser.FormattedLineEntity` | backend/app/utils/email_classifier.py:57-75 | A formatted line yields its entity and type, unpadded, exactly when its confidence text parses as a float of at least 0.8. |
| `EntityParser.PaddedGroups` | backend/app/utils/email_classifier.py:73 | The space the groups carry is stripped from entity and type. |
| `EntityParser.FormattedDecimalEntity` | backend/app/utils/email_classifier.py:71-73 | A line whose confidence is written as `whole.frac` is kept exactly when that decimal value is at least 0.8. |
| `EntityParser.NoteInEntityDropsLine` | backend/app/utils/email_classifier.py:64-65 | An entity containing "note" in any case is dropped, together with its whole line. |
| `EntityParser.SkippedLineDropped` | backend/app/utils/email_classifier.py:64-65 | An empty line, a heading line or a "note" line yields nothing. |
| `KeyPhrases.WordsFrom` | backend/app/utils/email_classifier.py:114 | The words are non-empty runs of word characters. |
| `KeyPhrases.Words` | backend/app/utils/email_classifier.py:114 | Every word of the upper-cased text is a non-empty run of word characters without lower-case letters. |
| `KeyPhrases.UnmatchableTerm` | backend/app/utils/email_classifier.py:156-169 | A vocabulary entry that is not such a word is never among the words. |
| `KeyPhrases.UnreachableEntries` | backend/app/utils/email_classifier.py:156-162 | The dotted, mixed-case and symbol entries of `MERGE_TERMS` are not such words. |
| `KeyPhrases.RunLength` | backend/app/utils/email_classifier.py:168-173 | This is the length of the maximal vocabulary run that opens the list. |
| `KeyPhrases.Merged` | backend/app/utils/email_classifier.py:164-183 | Merging never lengthens the list, and returns empty exactly for an empty list. |
| `KeyPhrases.MergedJoin` | backend/app/utils/email_classifier.py:115-118 | The merged phrases joined by spaces are the words joined by spaces. |
| `KeyPhrases.MergedNoTerms` | backend/app/utils/email_classifier.py:164-183 | Without vocabulary words the list is returned unchanged. |
| `KeyPhrases.AllTermsMerge` | backend/app/utils/email_classifier.py:164-183 | A list made only of vocabulary words becomes one space-joined phrase. |
| `KeyPhrases.MergedSplitsAt` | backend/app/utils/email_classifier.py:174-178 | A non-vocabulary word stands alone and splits the merge into two independent halves. |
| `KeyPhrases.ScanMerged` | backend/app/utils/email_classifier.py:164-183 | The loop's final phrases, with the pending phrase flushed, are the specified merge. |
| `KeyPhrases.MergeTerms` | backend/app/utils/email_classifier.py:164-183 | The loop returns the specified merge: maximal vocabulary runs joined by spaces, other words alone, order kept. |
| `KeyPhrases.KeptPhrases` | backend/app/utils/email_classifier.py:138-142 | There are no more phrases than pieces. Every phrase is stripped and digit-free. |
| `KeyPhrases.StripKeepsDigitFree` | backend/app/utils/email_classifier.py:141 | Stripping a digit-free piece leaves it digit-free. |
| `KeyPhrases.KeptPhrasesMembers` | backend/app/utils/email_classifier.py:141 | A phrase is returned exactly when some digit-free piece strips to it. |
| `KeyPhrases.KeyPhrasesShape` | backend/app/utils/email_classifier.py:138-142 | Every key phrase returned is stripped, holds no digit and holds no comma. |
| `KeyPhrases.KeptPhrasesAppend` | backend/app/utils/email_classifier.py:141 | The filter keeps the order of the pieces. |
| `KeyPhrases.SinglePhrase` | backend/app/utils/email_classifier.py:138-142 | A reply with no comma and no digit becomes the one stripped phrase. |
| `DuplicateCheck.Candidates` | backend/app/db/track_emails.py:48-50 | A stored email is a candidate exactly when its similarity to the new body is at least `threshold` (inclusive). |
| `DuplicateCheck.CandidatesAppend` | backend/app/db/track_emails.py:48-50 | Candidates keep store order. |
| `DuplicateCheck.Judge` | backend/app/db/track_emails.py:72-95 | A raised call propagates exactly when the provider raised. A candidate is confirmed exactly when the stripped reply parses as a float of at least `llm_threshold`. |
| `DuplicateCheck.FirstDecisive` | backend/app/db/track_emails.py:60-95 | This is the first pass that does not skip, with every pass before it skipping. |
| `DuplicateCheck.OutcomeDecisive` | backend/app/db/track_emails.py:60-97 | The first non-skipping pass decides: `True` if it confirms, the exception if it raised, and `False` if every pass skips. |
| `DuplicateCheck.OutcomeTrueIff` | backend/app/db/track_emails.py:60-95 | The loop returns `True` exactly when some pass confirms after only skipped passes. |
| `DuplicateCheck.OutcomeFalseIff` | backend/app/db/track_emails.py:60-97 | The loop returns `False` exactly when every pass skips. |
| `DuplicateCheck.CheckDuplicateEmail` | backend/app/db/track_emails.py:31-97 | The method returns the duplicate verdict. It does no embedding and makes no provider call on an empty store, and makes at most one call per candidate. The copy in backend/app/db/script.py (lines 33-92) is the same code and has the same verdict. |
| `DuplicateCheck.DuplicateIff` | backend/app/db/track_emails.py:31-97 | The verdict is `True` exactly when the store is non-empty and some candidate confirms after only skipped candidates. |
| `DuplicateCheck.NotDuplicateIff` | backend/app/db/track_emails.py:34-97 | The verdict is `False` exactly when the store is empty or every candidate is skipped. |
| `DuplicateCheck.FailureIsRaised` | backend/app/db/track_emails.py:72 | The only failure is the provider's exception. It is raised on a call reached after only skipped candidates. |
| `DuplicateCheck.NoCandidatesNoDuplicate` | backend/app/db/track_emails.py:56-57 | When every stored email is below `threshold`, there are no candidates and the verdict is `False`. |
| `DuplicateCheck.NoCandidates` | backend/app/db/track_emails.py:48-50 | With every similarity below `threshold`, the filter is empty. |
| `DuplicateCheck.ScoreDecides` | backend/app/db/track_emails.py:80-92 | A numeric reply at or above `llm_threshold` confirms under every combination of attachment flags: the three attachment cases cover every pair of flags, so none of them rejects a candidate. |
| `DuplicateCheck.DuplicateVerdict` | backend/app/db/track_emails.py:31-97 | An empty store gives `False`. The only failure is the provider's exception, propagated out of the check. |
| `DuplicateCheck.JustBelowThreshold` | backend/app/db/track_emails.py:80 | Worked example: a reply of "89.999" against the default threshold of 90 moves on to the next candidate. |
| `DuplicateCheck.ParsesJustBelow` | backend/app/db/track_emails.py:75 | Worked example: `float("89.999")` is 89999/1000. |
| `StoreEmailToDb.HasAttachment` | backend/app/utils/store_email_to_db.py:12 | The flag is true exactly when an attachment list is present and non-empty. |
| `StoreEmailToDb.BodyOf` | backend/app/utils/store_email_to_db.py:10 | The body is the given body, or "" when it is missing. |
| `StoreEmailToDb.ToStore` | backend/app/utils/store_email_to_db.py:17-30 | The stored email carries the sender, recipients, subject, body and derived flag, with no category. |
| `StoreEmailToDb.StoreEmail` | backend/app/utils/store_email_to_db.py:4-35 | The exception of the check propagates, and nothing is stored. A duplicate returns no id and stores nothing. Otherwise exactly one row is appended under the next id, which is returned. Into an empty table every email is stored, as the only row, under the next id (1 for a new table). |
| `DbScript.ScriptEmail` | backend/app/db/script.py:96-107 | The script's email has the given body and flag under the fixed addresses and subject, with no category. |
| `DbScript.StoreEmailInDb` | backend/app/db/script.py:95-111 | Exactly one row is appended, carrying the body and the flag. |
| `EmailStore.AsRecord` | backend/app/db/email_repo.py:11-17 | The inserted row carries every modelled field of the email, and the assigned id. |
| `EmailStore.IndexOfId` | backend/app/db/email_repo.py:40-52 | A lookup by id finds a row carrying that id. It finds nothing exactly when no row carries the id. |
| `EmailStore.WithCategory` | backend/app/utils/email_classifier.py:233-245 | The row carrying the id gets the new category type and category. Every other row is unchanged. |
| `EmailStore.WithCategoryKeepsContent` | backend/app/utils/email_classifier.py:239-241 | Categorising changes no id, body, flag, sender, recipient or subject. |
| `EmailStore.WithCategoryMissing` | backend/app/utils/email_classifier.py:236-245 | A `None` id, or an id no row carries, leaves the table unchanged. |
| `EmailStore.WithCategoryAt` | backend/app/utils/email_classifier.py:238-241 | With distinct ids, categorising by a row's id updates exactly that row. |
| `EmailStore.EmailRepo.constructor` | backend/app/db/db_ddl.py:11 | The table starts empty, and the first id is 1. |
| `EmailStore.EmailRepo.InsertEmail` | backend/app/db/email_repo.py:9-25 | The email is appended as one row under the next id, which is returned. Ids stay increasing. |
| `EmailStore.EmailRepo.UpdateCategory` | backend/app/utils/email_classifier.py:233-245 | The table becomes the categorised table. The id counter is unchanged, and ids stay valid. |
| `EmailProcessor.BodyPiece` | backend/app/api/endpoints/email_processor.py:14-15 | The body contributes itself when present and not `None`, and nothing otherwise. |
| `EmailProcessor.AttachmentTexts` | backend/app/api/endpoints/email_processor.py:16-19 | There is one text per attachment, in order, with "" where `extracted_text` is missing. |
| `EmailProcessor.Pieces` | backend/app/api/endpoints/email_processor.py:13-19 | The pieces are the body, if any, followed by every attachment text in order. |
| `EmailProcessor.SpacedJoin` | backend/app/api/endpoints/email_processor.py:13-19 | Appending each piece and a space is joining the pieces with spaces and adding one trailing space. |
| `EmailProcessor.SpacedStrip` | backend/app/api/endpoints/email_processor.py:20 | The trailing space does not survive the strip. |
| `EmailProcessor.MergeText` | backend/app/api/endpoints/email_processor.py:12-20 | The merged text is the stripped space-join of the pieces. With nothing selected it is "". |
| `Text.Strip` | backend/app/utils/email_classifier.py:48 | `str.strip()`: the result is stripped, and empty exactly when the input is all whitespace. |
| `Text.SplitOn` | backend/app/utils/email_classifier.py:138 | `split(',')`: there is at least one piece, no piece holds the separator, and joining the pieces gives the input back. |
| `Text.SplitLines` | backend/app/utils/email_classifier.py:62 | `splitlines()`: no line holds a line break. |
| `Text.SplitLinesJoin` | backend/app/utils/email_classifier.py:62 | Lines without line breaks, joined by "\n", split back into the same lines when the last one is non-empty. |
| `Numbers.ParseDecimalText` | backend/app/utils/email_classifier.py:71 | `float` of `whole.frac` is that decimal value. |
| `Numbers.ParseNatText` | backend/app/db/track_emails.py:75 | `float` of a natural number's decimal text is that number. |
| `Numbers.ParseDigits` | backend/app/db/track_emails.py:75 | `float` of a run of digits is the number they denote. |
| `Numbers.ParseFloatIgnoresPadding` | backend/app/utils/email_classifier.py:71 | `float` ignores whitespace around the literal and rejects empty or whitespace-only text. The same conversion reads the duplicate score at backend/app/db/track_emails.py line 75. |
| `Provider.Answer` | backend/app/utils/email_classifier.py:95 | The answer is stripped. It is empty exactly when the call raised or the reply is whitespace only. Lines 133, 198 and 261 read replies the same way. |

## Findings

| source | as written | input that shows it | evidently intended | confidence | as-written member | corrected member |
|---|---|---|---|---|---|---|
| backend/app/utils/email_classifier.py:100 (also 146, 203 and 267) | The first handler of each retry loop names `genai.GoogleGenerativeAIError`, which `google.generativeai` (imported at line 3) does not define. When a call raises, evaluating that handler raises `AttributeError`, which leaves the loop: there is no retry. `extract_output` then returns `{"error": "module 'google.generativeai' has no attribute 'GoogleGenerativeAIError'"}`, and `generate_final_response` raises. | The first call raises; the second would answer "Entity: X, Type: Y, Confidence Score: 0.9". | Log the error and try again, so the second answer is used. | high, resting on the public names of `google.generativeai`; not executed | `EmailClassifier.RaiseEscapes` (with `EmailClassifier.Retry`) | `EmailClassifier.RetryCatching` |

## Left out

- The generative model and the embedding model are oracles (`Generator`, `Similarity`). Their outputs are not modelled. The `temperature` argument, the prompt wording and the model configuration at import time are not modelled.
- `time.sleep` back-off, logging and `print` are not modelled: they change no result.
- `json.dumps` rendering in `extract_output`: the model returns the JSON value, not its text.
- Database errors are not modelled. `insert_email` returning `None` after a `DatabaseError` and `update_email` failing silently are not covered. Rows come back in insertion order, as SQLite returns them for this table.
- Rows keep only the id, sender, recipient, subject, body, attachment flag, category type and category. The columns the core always writes as NULL are not modelled: `S3_MESSAGE_PATH`, `REQUEST_TYPE`, `SUB_REQUEST_TYPE`, `PROCESSING_STATUS` and `ATTACHMENT_METADATA`.
- The clock is not modelled, so neither are the timestamps `insert_email` and `update_email` take from it: `CREATED_AT` and `UPDATED_AT`.
- `DbScript.StoreEmailInDb` builds its `Email` without the `category_type` and `category` keys (`allows_missing_keys=True`), yet `insert_email` reads both. The model assumes these missing fields read as `None`, so that the insert succeeds and stores no category. How the DTO library treats a missing key is not part of this model.
- `classify_email` and the service layer that calls it are not part of this model. That wiring passes the JSON text of `extract_output` on to `generate_final_response`. `GenerateFinalResponse` takes that text as its argument.
- `EmailProcessor.MergeText`: a body or an attachment text that is present but not a string raises a `TypeError` in the source. The model has strings only. An `attachments` value of `None` also raises there; the model has no such value.
- `EmailClassifier.Retry`: the exception a raised call first throws, which Python chains to the `AttributeError` as its context, is not modelled; only the `AttributeError` message is. A call whose `response.text` raises counts as a raised call, and a response object without `text` counts as an empty reply.
- `EmailClassifier.ExtractNamedEntities`: `parse_entities` runs inside the `try` of the loop; the model's parser never raises, so that path does not arise.
- `DuplicateCheck.CheckDuplicateEmail`: `response.text` raising `ValueError` is read as an unparsable reply, which is skipped as the source's `except ValueError` does. Any other exception from the provider call propagates as `ProviderRaised`.
- Floats are exact reals, plus infinities and NaN. Rounding of long decimal texts and cosine scores is not modelled. Python's `float` also accepts underscores between digits; the model's parser does not.
- Case folding (`lower`, `upper`) is modelled on ASCII letters only, and `\w` on ASCII letters, digits and `_` only.
- `Text.HasDigit`, `EntityParser.DecimalRunEnd` and `Numbers.ParseFloat` take only the ASCII digits 0-9 as digits. Python's `\d` and `float` also accept every other Unicode decimal digit, such as the Arabic-Indic digits in "Revenue ٢٠٢٤". The model treats those as non-digits: such a phrase is kept by the key-phrase filter, and such a confidence text is not matched.
- `KeyPhrases.MergeTerms` takes the vocabulary as a parameter; `ExtractKeyPhrases` passes `MERGE_TERMS`.
- `KeyPhrases.MergeTerms` requires non-empty words, the only kind the word split produces. An empty word in the vocabulary would behave differently under the source's truthiness test.
- `EntityParser.LaidOutMatches` and the lemmas beside it cover lines in the prompt's format. For every other line the matcher is defined, and `EntityParser.MatchAtShape` and `EntityParser.SearchFromLeftmost` state what any match looks like and where it is found, but no closed form of its result is proved.
