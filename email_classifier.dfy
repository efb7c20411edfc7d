/**
 * email_classifier.py: input validation, the bounded retry loop shared by
 * the four provider-backed operations (entities, key phrases, summary,
 * final categorisation) as written and as its handlers intend it, the JSON payload of `extract_output` and the
 * category write-back of `generate_final_response`.
 */
module EmailClassifier {
  import opened Wrappers
  import opened Text
  import opened Numbers
  import opened Provider
  import opened EntityParser
  import opened KeyPhrases
  import opened EmailStore

  /** What a Python caller may pass as `text`: `None`, a `str`, or any other object. */
  datatype Arg = NoneArg | StrArg(s: string) | OtherArg

  const InvalidInput: string := "Invalid input: Text must be a non-empty string."
  const SummaryFallback: string := "Summary generation failed."
  const FinalFallback: string := "Final response generation failed."
  /** The default of every `retries` parameter, the one `extract_output` relies on. */
  const DefaultRetries: int := 3

  /**
   * `validate_input`: `None`, a non-string, an empty or all-whitespace string
   * raise `ValueError(InvalidInput)`; anything else comes back stripped.
   */
  function ValidateInput(text: Arg): (r: Result<string, string>)
    ensures r.Success? <==> text.StrArg? && !AllSpace(text.s)
    ensures r.Success? ==> r.value == Strip(text.s) && r.value != [] && IsStripped(r.value)
    ensures r.Failure? ==> r.error == InvalidInput
  {
    match text
    case StrArg(s) =>
      if s == [] || Strip(s) == [] then Failure(InvalidInput) else Success(Strip(s))
    case _ => Failure(InvalidInput)
  }

  /** Validation is idempotent: validated text passes again unchanged. */
  lemma ValidateValidated(text: Arg)
    requires ValidateInput(text).Success?
    ensures ValidateInput(StrArg(ValidateInput(text).value)) == ValidateInput(text)
  {
    StripStripped(ValidateInput(text).value);
  }

  /** A provider answer the retry loop accepted, and the attempt (from 0) that produced it. */
  datatype Attempt = Attempt(text: string, index: nat)

  /**
   * The stripped text of each call the retry loop may make with `prompt`,
   * by attempt number, with a raised call read as an empty reply: the
   * catch-and-retry reading of the loop's handlers.
   */
  function Answers(gen: Generator, prompt: Prompt): nat -> string {
    (a: nat) => Answer(gen(prompt, a))
  }

  /**
   * The answer the catching loop settles on when attempts `from` up to
   * `retries - 1` remain: the first non-empty stripped reply.
   */
  function FirstAnswer(answers: nat -> string, from: nat, retries: int): (r: Option<Attempt>)
    ensures r.Some? ==> from <= r.value.index < retries
    ensures r.Some? ==> r.value.text == answers(r.value.index) && r.value.text != []
    ensures r.Some? ==> Silent(answers, from, r.value.index)
    ensures r.None? <==> Silent(answers, from, retries)
    decreases retries - from
  {
    if retries <= from then None
    else if answers(from) != [] then Some(Attempt(answers(from), from))
    else FirstAnswer(answers, from + 1, retries)
  }

  /** Every attempt in `[from, to)` gives an empty text. */
  predicate Silent(answers: nat -> string, from: nat, to: int) {
    forall a: nat :: from <= a < to ==> answers(a) == []
  }

  /** How many provider calls the catching loop makes: up to the accepted one, or all `retries` of them. */
  function Calls(gen: Generator, prompt: Prompt, retries: int): (n: nat)
    ensures n <= if retries < 0 then 0 else retries
    ensures retries > 0 ==> n >= 1
  {
    match FirstAnswer(Answers(gen, prompt), 0, retries)
    case Some(a) => a.index + 1
    case None => if retries < 0 then 0 else retries
  }

  /**
   * The loop that catches a raised call, logs it and tries again: what the
   * two handlers of each retry loop evidently mean to do. `calls` counts the
   * provider calls; the back-off `time.sleep` is not modelled.
   */
  method RetryCatching(gen: Generator, prompt: Prompt, retries: int) returns (answer: Option<Attempt>, ghost calls: nat)
    ensures answer == FirstAnswer(Answers(gen, prompt), 0, retries)
    ensures calls == Calls(gen, prompt, retries)
  {
    calls := 0;
    var attempts := if retries < 0 then 0 else retries;
    for attempt := 0 to attempts
      invariant calls == attempt
      invariant FirstAnswer(Answers(gen, prompt), attempt, retries) == FirstAnswer(Answers(gen, prompt), 0, retries)
    {
      var responseText := Answer(gen(prompt, attempt));
      calls := calls + 1;
      if responseText != [] {
        answer := Some(Attempt(responseText, attempt));
        return;
      }
    }
    answer := None;
  }

  /**
   * `str(e)` of the `AttributeError` raised while the loop looks for a
   * handler: the first handler names `genai.GoogleGenerativeAIError`, which
   * the `google.generativeai` module does not define.
   */
  const MissingHandlerError: string := "module 'google.generativeai' has no attribute 'GoogleGenerativeAIError'"

  /** How the retry loop as written ends: with an accepted reply, out of attempts, or by an escaping exception. */
  datatype LoopEnd = Accepted(attempt: Attempt) | Exhausted | Escaped(index: nat)

  /**
   * The retry loop as written, from attempt `from` on. A call that raises
   * (or whose `text` raises) sends Python looking for a handler; evaluating
   * `genai.GoogleGenerativeAIError` then raises `AttributeError`, which
   * leaves the loop at once. Otherwise the first non-empty stripped reply is
   * accepted. Until a call raises, it agrees with the catching loop.
   */
  function WrittenLoop(gen: Generator, prompt: Prompt, from: nat, retries: int): (r: LoopEnd)
    ensures r.Accepted? ==>
      from <= r.attempt.index < retries && r.attempt.text == Answer(gen(prompt, r.attempt.index)) && r.attempt.text != []
    ensures r.Escaped? ==> from <= r.index < retries && gen(prompt, r.index).Raised?
    decreases retries - from
  {
    if retries <= from then Exhausted
    else if gen(prompt, from).Raised? then Escaped(from)
    else if Answer(gen(prompt, from)) != [] then Accepted(Attempt(Answer(gen(prompt, from)), from))
    else WrittenLoop(gen, prompt, from + 1, retries)
  }

  /**
   * Until a call raises, the loop as written and the catching loop agree:
   * they accept the same reply, or both run out of attempts; and the loop as
   * written escapes only after empty replies.
   */
  lemma {:induction false} WrittenAgrees(gen: Generator, prompt: Prompt, from: nat, retries: int)
    ensures WrittenLoop(gen, prompt, from, retries).Accepted? ==>
      FirstAnswer(Answers(gen, prompt), from, retries) == Some(WrittenLoop(gen, prompt, from, retries).attempt)
    ensures WrittenLoop(gen, prompt, from, retries).Exhausted? ==>
      FirstAnswer(Answers(gen, prompt), from, retries) == None
    ensures WrittenLoop(gen, prompt, from, retries).Escaped? ==>
      Silent(Answers(gen, prompt), from, WrittenLoop(gen, prompt, from, retries).index)
    decreases retries - from
  {
    var answers := Answers(gen, prompt);
    assert answers(from) == Answer(gen(prompt, from));
    WrittenStep(gen, prompt, from, retries);
    if from < retries && !gen(prompt, from).Raised? && answers(from) == [] {
      WrittenAgrees(gen, prompt, from + 1, retries);
      assert FirstAnswer(answers, from, retries) == FirstAnswer(answers, from + 1, retries);
      SilentExtend(answers, from, WrittenLoop(gen, prompt, from + 1, retries));
    }
  }

  /** An empty reply at `from` extends the run of empty replies that starts after it. */
  lemma SilentExtend(answers: nat -> string, from: nat, end: LoopEnd)
    requires answers(from) == []
    requires end.Escaped? ==> from < end.index && Silent(answers, from + 1, end.index)
    ensures end.Escaped? ==> Silent(answers, from, end.index)
  {
    if end.Escaped? {
      forall a: nat | from <= a < end.index
        ensures answers(a) == []
      {
        if a != from {
          assert from + 1 <= a < end.index;
        }
      }
    }
  }

  /** The loop as written ends by an exception exactly when some call raises after only empty replies. */
  lemma {:induction false} EscapesIff(gen: Generator, prompt: Prompt, from: nat, retries: int)
    ensures WrittenLoop(gen, prompt, from, retries).Escaped? <==>
      exists i: nat :: from <= i < retries && gen(prompt, i).Raised? && Silent(Answers(gen, prompt), from, i)
  {
    var r := WrittenLoop(gen, prompt, from, retries);
    if r.Escaped? {
      WrittenAgrees(gen, prompt, from, retries);
      assert from <= r.index < retries && gen(prompt, r.index).Raised? && Silent(Answers(gen, prompt), from, r.index);
    }
    if i: nat :| from <= i < retries && gen(prompt, i).Raised? && Silent(Answers(gen, prompt), from, i) {
      RaisedEscapes(gen, prompt, from, retries, i);
    }
  }

  /** A call that raises after only empty replies ends the loop as written by an exception. */
  lemma {:induction false} RaisedEscapes(gen: Generator, prompt: Prompt, from: nat, retries: int, i: nat)
    requires from <= i < retries && gen(prompt, i).Raised? && Silent(Answers(gen, prompt), from, i)
    ensures WrittenLoop(gen, prompt, from, retries).Escaped?
    decreases i - from
  {
    if from < i && !gen(prompt, from).Raised? {
      assert Answers(gen, prompt)(from) == [];
      RaisedEscapes(gen, prompt, from + 1, retries, i);
    }
  }

  /**
   * A call that raises ends the loop as written, even when the next attempt
   * would have answered; the catching loop takes that answer.
   */
  lemma RaiseEscapes(gen: Generator, prompt: Prompt, retries: int, t: string)
    requires retries >= 2 && gen(prompt, 0) == Raised && gen(prompt, 1) == Text(t) && Strip(t) != []
    ensures WrittenLoop(gen, prompt, 0, retries) == Escaped(0)
    ensures FirstAnswer(Answers(gen, prompt), 0, retries) == Some(Attempt(Strip(t), 1))
  {
    assert Answers(gen, prompt)(0) == [];
    assert Answers(gen, prompt)(1) == Strip(t);
  }

  /** The loop as written ends by an exception. */
  predicate Escapes(gen: Generator, prompt: Prompt, retries: int) {
    WrittenLoop(gen, prompt, 0, retries).Escaped?
  }

  /** How many provider calls the loop as written makes: up to the accepted or the raising one, or all of them. */
  function WrittenCalls(gen: Generator, prompt: Prompt, retries: int): (n: nat)
    ensures n <= if retries < 0 then 0 else retries
    ensures retries > 0 ==> n >= 1
  {
    CallsOf(WrittenLoop(gen, prompt, 0, retries), retries)
  }

  /** The calls made by a loop of `retries` attempts that ended with `end`. */
  function CallsOf(end: LoopEnd, retries: int): nat {
    match end
    case Accepted(a) => a.index + 1
    case Escaped(i) => i + 1
    case Exhausted => if retries < 0 then 0 else retries
  }

  /** When no call raises, the loop as written makes as many provider calls as the catching loop. */
  lemma WrittenCallsAgree(gen: Generator, prompt: Prompt, retries: int)
    ensures !Escapes(gen, prompt, retries) ==> WrittenCalls(gen, prompt, retries) == Calls(gen, prompt, retries)
  {
    WrittenAgrees(gen, prompt, 0, retries);
  }

  /** One attempt of the loop as written. */
  lemma WrittenStep(gen: Generator, prompt: Prompt, from: nat, retries: int)
    ensures WrittenLoop(gen, prompt, from, retries) ==
      if retries <= from then Exhausted
      else if gen(prompt, from).Raised? then Escaped(from)
      else if Answer(gen(prompt, from)) != [] then Accepted(Attempt(Answer(gen(prompt, from)), from))
      else WrittenLoop(gen, prompt, from + 1, retries)
  {
  }

  /**
   * The loop `for attempt in range(retries)` shared by the four generators,
   * as written: call the provider, strip the reply, return on the first
   * non-empty one; a raised call ends the loop with the `AttributeError` of
   * its first handler. `calls` counts the provider calls.
   */
  method Retry(gen: Generator, prompt: Prompt, retries: int) returns (end: LoopEnd, ghost calls: nat)
    ensures end == WrittenLoop(gen, prompt, 0, retries)
    ensures calls == WrittenCalls(gen, prompt, retries)
  {
    ghost var written := WrittenLoop(gen, prompt, 0, retries);
    assert WrittenCalls(gen, prompt, retries) == CallsOf(written, retries);
    var attempts := if retries < 0 then 0 else retries;
    for attempt := 0 to attempts
      invariant WrittenLoop(gen, prompt, attempt, retries) == written
    {
      var response := gen(prompt, attempt);
      WrittenStep(gen, prompt, attempt, retries);
      if response.Raised? {
        assert written == Escaped(attempt);
        return Escaped(attempt), attempt + 1;
      }
      var responseText := Answer(response);
      if responseText != [] {
        assert written == Accepted(Attempt(responseText, attempt));
        return Accepted(Attempt(responseText, attempt)), attempt + 1;
      }
    }
    WrittenStep(gen, prompt, attempts, retries);
    assert written == Exhausted;
    end, calls := Exhausted, attempts;
  }

  /** What `extract_named_entities` returns for validated text `v` when no call raises. */
  function EntitiesFor(gen: Generator, v: string, retries: int): (r: seq<ExtractedEntity>)
    ensures forall k :: 0 <= k < |r| ==>
      Kept(r[k])
    ensures FirstAnswer(Answers(gen, EntityPrompt(v)), 0, retries).None? ==> r == []
  {
    match FirstAnswer(Answers(gen, EntityPrompt(v)), 0, retries)
    case None => []
    case Some(a) => EntitiesOf(SplitLines(a.text))
  }

  /** `extract_named_entities`. */
  method ExtractNamedEntities(gen: Generator, text: Arg, retries: int)
    returns (r: Result<seq<ExtractedEntity>, string>, ghost calls: nat)
    ensures ValidateInput(text).Failure? ==> r == Failure(InvalidInput)
    ensures ValidateInput(text).Success? ==>
      var v := ValidateInput(text).value;
      r == if Escapes(gen, EntityPrompt(v), retries) then Failure(MissingHandlerError)
           else Success(EntitiesFor(gen, v, retries))
    ensures calls == if ValidateInput(text).Failure? then 0
                     else WrittenCalls(gen, EntityPrompt(ValidateInput(text).value), retries)
  {
    var validated := ValidateInput(text);
    if validated.Failure? {
      return Failure(validated.error), 0;
    }
    var end;
    end, calls := Retry(gen, EntityPrompt(validated.value), retries);
    WrittenAgrees(gen, EntityPrompt(validated.value), 0, retries);
    match end
    case Escaped(_) => r := Failure(MissingHandlerError);
    case Exhausted => r := Success([]);
    case Accepted(a) =>
      var entities := ParseEntities(a.text);
      r := Success(entities);
  }

  /** What `extract_key_phrases` returns for validated text `v` when no call raises. */
  function KeyPhrasesFor(gen: Generator, v: string, retries: int): (r: seq<string>)
    ensures forall k :: 0 <= k < |r| ==> IsStripped(r[k]) && !HasDigit(r[k])
    ensures FirstAnswer(Answers(gen, KeyPhrasePrompt(Join(Words(v), " "))), 0, retries).None? ==> r == []
  {
    match FirstAnswer(Answers(gen, KeyPhrasePrompt(Join(Words(v), " "))), 0, retries)
    case None => []
    case Some(a) => KeyPhrasesOf(a.text)
  }

  /**
   * `extract_key_phrases`: upper-case and split the text into words, merge
   * vocabulary runs, join the result with spaces into the prompt, then split
   * the accepted reply on commas and drop the pieces with a digit. Merging
   * and joining again gives the words joined by spaces, so the prompt is
   * `Join(Words(v), " ")` whatever `MERGE_TERMS` holds.
   */
  method ExtractKeyPhrases(gen: Generator, text: Arg, retries: int)
    returns (r: Result<seq<string>, string>, ghost calls: nat)
    ensures ValidateInput(text).Failure? ==> r == Failure(InvalidInput)
    ensures ValidateInput(text).Success? ==>
      var v := ValidateInput(text).value;
      r == if Escapes(gen, KeyPhrasePrompt(Join(Words(v), " ")), retries) then Failure(MissingHandlerError)
           else Success(KeyPhrasesFor(gen, v, retries))
    ensures calls == if ValidateInput(text).Failure? then 0
                     else WrittenCalls(gen, KeyPhrasePrompt(Join(Words(ValidateInput(text).value), " ")), retries)
  {
    var validated := ValidateInput(text);
    if validated.Failure? {
      return Failure(validated.error), 0;
    }
    var words := Words(validated.value);
    var mergedKeyPhrases := MergeTerms(words, MergeTermList);
    var mergedText := Join(mergedKeyPhrases, " ");
    MergedJoin(words, MergeTermList);
    var end;
    end, calls := Retry(gen, KeyPhrasePrompt(mergedText), retries);
    WrittenAgrees(gen, KeyPhrasePrompt(mergedText), 0, retries);
    match end
    case Escaped(_) => r := Failure(MissingHandlerError);
    case Exhausted => r := Success([]);
    case Accepted(a) => r := Success(KeyPhrasesOf(a.text));
  }

  /** What `generate_summary` returns for validated text `v` when no call raises. */
  function SummaryFor(gen: Generator, v: string, retries: int): (r: string)
    ensures r != [] && IsStripped(r)
    ensures FirstAnswer(Answers(gen, SummaryPrompt(v)), 0, retries).None? ==> r == SummaryFallback
    ensures r != SummaryFallback ==> exists i: nat :: i < retries && r == Answer(gen(SummaryPrompt(v), i))
  {
    match FirstAnswer(Answers(gen, SummaryPrompt(v)), 0, retries)
    case None => SummaryFallback
    case Some(a) =>
      assert a.text == Answer(gen(SummaryPrompt(v), a.index));
      a.text
  }

  /** `generate_summary`. */
  method GenerateSummary(gen: Generator, text: Arg, retries: int) returns (r: Result<string, string>, ghost calls: nat)
    ensures ValidateInput(text).Failure? ==> r == Failure(InvalidInput)
    ensures ValidateInput(text).Success? ==>
      var v := ValidateInput(text).value;
      r == if Escapes(gen, SummaryPrompt(v), retries) then Failure(MissingHandlerError)
           else Success(SummaryFor(gen, v, retries))
    ensures calls == if ValidateInput(text).Failure? then 0
                     else WrittenCalls(gen, SummaryPrompt(ValidateInput(text).value), retries)
  {
    var validated := ValidateInput(text);
    if validated.Failure? {
      return Failure(validated.error), 0;
    }
    var end;
    end, calls := Retry(gen, SummaryPrompt(validated.value), retries);
    WrittenAgrees(gen, SummaryPrompt(validated.value), 0, retries);
    match end
    case Escaped(_) => r := Failure(MissingHandlerError);
    case Exhausted => r := Success(SummaryFallback);
    case Accepted(a) => r := Success(a.text);
  }

  /** What `generate_final_response` returns for validated text `v` when no call raises. */
  function FinalResponseFor(gen: Generator, v: string, retries: int): (r: string)
    ensures r != [] && IsStripped(r)
    ensures FirstAnswer(Answers(gen, CategoryPrompt(v)), 0, retries).None? ==> r == FinalFallback
    ensures r != FinalFallback ==> exists i: nat :: i < retries && r == Answer(gen(CategoryPrompt(v), i))
  {
    match FirstAnswer(Answers(gen, CategoryPrompt(v)), 0, retries)
    case None => FinalFallback
    case Some(a) =>
      assert a.text == Answer(gen(CategoryPrompt(v), a.index));
      a.text
  }

  /**
   * `generate_final_response`: the retry loop over the categorisation
   * prompt; the accepted reply is written back as the category of the email
   * `email_id` (with `category_type`) before it is returned. When the
   * attempts run out the fallback text is returned, and when a call raises
   * the exception escapes; in both cases the table is left untouched.
   * `update_email` catches its own errors, so the write-back never raises.
   */
  method GenerateFinalResponse(gen: Generator, repo: EmailRepo, text: Arg, retries: int,
                               emailId: Option<int>, categoryType: Option<string>)
    returns (r: Result<string, string>, ghost calls: nat)
    requires repo.Valid()
    modifies repo
    ensures repo.Valid() && repo.nextId == old(repo.nextId)
    ensures ValidateInput(text).Failure? ==> r == Failure(InvalidInput) && repo.rows == old(repo.rows)
    ensures ValidateInput(text).Success? ==>
      var v := ValidateInput(text).value;
      r == if Escapes(gen, CategoryPrompt(v), retries) then Failure(MissingHandlerError)
           else Success(FinalResponseFor(gen, v, retries))
    ensures calls == if ValidateInput(text).Failure? then 0
                     else WrittenCalls(gen, CategoryPrompt(ValidateInput(text).value), retries)
    ensures ValidateInput(text).Success? ==>
      var end := WrittenLoop(gen, CategoryPrompt(ValidateInput(text).value), 0, retries);
      repo.rows == if end.Accepted? then WithCategory(old(repo.rows), emailId, categoryType, end.attempt.text)
                   else old(repo.rows)
  {
    var validated := ValidateInput(text);
    if validated.Failure? {
      return Failure(validated.error), 0;
    }
    var end;
    end, calls := Retry(gen, CategoryPrompt(validated.value), retries);
    WrittenAgrees(gen, CategoryPrompt(validated.value), 0, retries);
    match end
    case Escaped(_) => r := Failure(MissingHandlerError);
    case Exhausted => r := Success(FinalFallback);
    case Accepted(a) =>
      repo.UpdateCategory(emailId, categoryType, a.text);
      r := Success(a.text);
  }

  /** The JSON values `extract_output` builds. */
  datatype Json = JStr(s: string) | JArr(items: seq<Json>) | JObj(members: seq<(string, Json)>)

  /** The member names of an object, in order; none for other values. */
  function Keys(j: Json): seq<string> {
    match j
    case JObj(members) => KeysOf(members)
    case _ => []
  }

  function KeysOf(members: seq<(string, Json)>): (r: seq<string>)
    ensures |r| == |members|
    ensures forall k :: 0 <= k < |members| ==> r[k] == members[k].0
    decreases |members|
  {
    if members == [] then [] else [members[0].0] + KeysOf(members[1..])
  }

  /** The value under `key` in an object, if there is one. */
  function Lookup(j: Json, key: string): Option<Json>
    decreases j
  {
    match j
    case JObj(members) => LookupIn(members, key)
    case _ => None
  }

  function LookupIn(members: seq<(string, Json)>, key: string): Option<Json>
    decreases |members|
  {
    if members == [] then None
    else if members[0].0 == key then Some(members[0].1)
    else LookupIn(members[1..], key)
  }

  /** `{"Entity": entity.entity, "Type": entity.label}`: the confidence is not reported. */
  function EntityJson(e: ExtractedEntity): (j: Json)
    ensures Keys(j) == ["Entity", "Type"]
    ensures Lookup(j, "Entity") == Some(JStr(e.entity)) && Lookup(j, "Type") == Some(JStr(e.entityType))
  {
    var members := [("Entity", JStr(e.entity)), ("Type", JStr(e.entityType))];
    var j := JObj(members);
    assert Keys(j) == ["Entity", "Type"];
    assert LookupIn(members[1..], "Type") == Some(JStr(e.entityType));
    j
  }

  /** The list comprehension over the extracted entities. */
  function EntitiesJson(es: seq<ExtractedEntity>): (r: seq<Json>)
    ensures |r| == |es|
    ensures forall k :: 0 <= k < |es| ==> r[k] == EntityJson(es[k])
    decreases |es|
  {
    if es == [] then [] else [EntityJson(es[0])] + EntitiesJson(es[1..])
  }

  function StringsJson(xs: seq<string>): (r: seq<Json>)
    ensures |r| == |xs|
    ensures forall k :: 0 <= k < |xs| ==> r[k] == JStr(xs[k])
    decreases |xs|
  {
    if xs == [] then [] else [JStr(xs[0])] + StringsJson(xs[1..])
  }

  /** The `result` dictionary of `extract_output`. */
  function ResultJson(entities: seq<ExtractedEntity>, keyPhrases: seq<string>, summary: string): (j: Json)
    ensures Keys(j) == ["named_entities", "key_phrases", "summary"]
    ensures Lookup(j, "named_entities") == Some(JArr(EntitiesJson(entities)))
    ensures Lookup(j, "key_phrases") == Some(JArr(StringsJson(keyPhrases)))
    ensures Lookup(j, "summary") == Some(JStr(summary))
  {
    var members := [("named_entities", JArr(EntitiesJson(entities))),
                    ("key_phrases", JArr(StringsJson(keyPhrases))),
                    ("summary", JStr(summary))];
    var j := JObj(members);
    assert Keys(j) == ["named_entities", "key_phrases", "summary"];
    assert LookupIn(members[1..], "key_phrases") == Some(JArr(StringsJson(keyPhrases)));
    assert LookupIn(members[2..], "summary") == Some(JStr(summary));
    assert members[1..][1..] == members[2..];
    assert LookupIn(members[1..], "summary") == Some(JStr(summary));
    j
  }

  /** `{"error": str(e)}`. */
  function ErrorJson(message: string): (j: Json)
    ensures Keys(j) == ["error"] && Lookup(j, "error") == Some(JStr(message))
  {
    var j := JObj([("error", JStr(message))]);
    assert Keys(j) == ["error"];
    j
  }

  /** Some provider call of `extract_output` raises and ends its loop. */
  predicate AnyEscapes(gen: Generator, v: string) {
    Escapes(gen, EntityPrompt(v), DefaultRetries)
    || Escapes(gen, KeyPhrasePrompt(Join(Words(v), " ")), DefaultRetries)
    || Escapes(gen, SummaryPrompt(v), DefaultRetries)
  }

  /**
   * `extract_output`: entities, key phrases and summary with the default
   * number of retries, gathered into one object. The `ValueError` of
   * `validate_input` and the `AttributeError` a raised call leads to both
   * become an error object holding the exception's text. The `json.dumps`
   * rendering is not modelled: the result is the JSON value.
   */
  method ExtractOutput(gen: Generator, emailText: Arg) returns (out: Json)
    ensures ValidateInput(emailText).Failure? ==> out == ErrorJson(InvalidInput)
    ensures ValidateInput(emailText).Success? ==>
      var v := ValidateInput(emailText).value;
      out == if AnyEscapes(gen, v) then ErrorJson(MissingHandlerError)
             else ResultJson(EntitiesFor(gen, v, DefaultRetries), KeyPhrasesFor(gen, v, DefaultRetries),
                             SummaryFor(gen, v, DefaultRetries))
    ensures Keys(out) == ["named_entities", "key_phrases", "summary"] || Keys(out) == ["error"]
    ensures Keys(out) == ["error"] <==>
      ValidateInput(emailText).Failure? || AnyEscapes(gen, ValidateInput(emailText).value)
  {
    var extractedEntities, _ := ExtractNamedEntities(gen, emailText, DefaultRetries);
    if extractedEntities.Failure? {
      return ErrorJson(extractedEntities.error);
    }
    // The text validated once, so the two calls below fail only by a raised call.
    var keyPhrases, _ := ExtractKeyPhrases(gen, emailText, DefaultRetries);
    if keyPhrases.Failure? {
      return ErrorJson(keyPhrases.error);
    }
    var summary, _ := GenerateSummary(gen, emailText, DefaultRetries);
    if summary.Failure? {
      return ErrorJson(summary.error);
    }
    out := ResultJson(extractedEntities.value, keyPhrases.value, summary.value);
  }
}
