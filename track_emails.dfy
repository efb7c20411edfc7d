/**
 * `check_duplicate_email` (track_emails.py, and the identical copy in
 * script.py): a similarity pre-filter over the stored emails, then a
 * confirmation loop that asks the provider for a similarity percentage per
 * candidate and stops at the first one that reaches `llm_threshold`.
 */
module DuplicateCheck {
  import opened Wrappers
  import opened Text
  import opened Numbers
  import opened Provider
  import opened EmailStore

  const DefaultThreshold: real := 0.85
  const DefaultLlmThreshold: real := 90.0
  /** Stands for the exception `generate_content` raised; the loop does not catch it. */
  const ProviderRaised: string := "generate_content raised"

  /**
   * The potential duplicates: the stored emails whose similarity to the new
   * body is at least `threshold` (inclusive), in store order.
   */
  function Candidates(stored: seq<EmailRecord>, body: string, sim: Similarity, threshold: real): (r: seq<EmailRecord>)
    ensures |r| <= |stored|
    ensures forall e :: e in r <==> e in stored && sim(body, e.body) >= threshold
    decreases |stored|
  {
    if stored == [] then []
    else
      var head := if sim(body, stored[0].body) >= threshold then [stored[0]] else [];
      head + Candidates(stored[1..], body, sim, threshold)
  }

  /** The filter keeps store order: blocks of stored emails give blocks of candidates. */
  lemma {:induction false} CandidatesAppend(a: seq<EmailRecord>, b: seq<EmailRecord>, body: string, sim: Similarity, threshold: real)
    ensures Candidates(a + b, body, sim, threshold) == Candidates(a, body, sim, threshold) + Candidates(b, body, sim, threshold)
    decreases |a|
  {
    if a == [] {
      assert a + b == b;
    } else {
      assert (a + b)[0] == a[0];
      assert (a + b)[1..] == a[1..] + b;
      CandidatesAppend(a[1..], b, body, sim, threshold);
    }
  }

  /**
   * The three attachment cases of the loop: same flag; stored with and new
   * without; stored without and new with. Each returns `True`.
   */
  predicate AttachmentDecision(storedHasAttachment: bool, hasAttachment: bool) {
    if storedHasAttachment == hasAttachment then true
    else if storedHasAttachment && !hasAttachment then true
    else if !storedHasAttachment && hasAttachment then true
    else false
  }

  /** What one pass of the loop does with a candidate. */
  datatype Step = Confirmed | Skipped | Raises

  /**
   * One pass of the loop: a raised call propagates; a reply `float` cannot
   * parse is skipped (`except ValueError: continue`); a score below
   * `llm_threshold` moves on; a score at or above it confirms, whatever the
   * attachment flags are.
   */
  function Judge(reply: Reply, storedHasAttachment: bool, hasAttachment: bool, llmThreshold: real): (r: Step)
    ensures r == Raises <==> reply.Raised?
    ensures r == Confirmed <==>
      reply.Text? && ParseFloat(Strip(reply.text)).Some? && AtLeast(ParseFloat(Strip(reply.text)).value, llmThreshold)
  {
    match reply
    case Raised => Raises
    case Text(t) =>
      match ParseFloat(Strip(t))
      case None => Skipped
      case Some(score) =>
        if AtLeast(score, llmThreshold) && AttachmentDecision(storedHasAttachment, hasAttachment) then Confirmed
        else Skipped
  }

  /**
   * The passes of the loop, by position: pass `k` judges the `k`-th
   * candidate against the provider's reply to the check's `k`-th call.
   * Positions past the last candidate are never reached.
   */
  function Passes(cands: seq<EmailRecord>, body: string, hasAttachment: bool, gen: Generator, llmThreshold: real)
    : nat -> Step
  {
    (k: nat) =>
      if k < |cands| then Judge(gen(DuplicatePrompt(cands[k].body, body), k), cands[k].hasAttachment, hasAttachment, llmThreshold)
      else Skipped
  }

  /** The outcome of the loop over passes `i` up to `n`. */
  function Outcome(passes: nat -> Step, i: nat, n: nat): Result<bool, string>
    decreases n - i
  {
    if i >= n then Success(false)
    else
      match passes(i)
      case Confirmed => Success(true)
      case Raises => Failure(ProviderRaised)
      case Skipped => Outcome(passes, i + 1, n)
  }

  /** Every pass from `i` up to `j` skips. */
  predicate AllSkip(passes: nat -> Step, i: nat, j: nat) {
    forall k: nat :: i <= k < j ==> passes(k) == Skipped
  }

  /** The first pass from `i` on that does not skip, or `n`. */
  function FirstDecisive(passes: nat -> Step, i: nat, n: nat): (j: nat)
    requires i <= n
    ensures i <= j <= n
    ensures AllSkip(passes, i, j)
    ensures j < n ==> passes(j) != Skipped
    decreases n - i
  {
    if i == n || passes(i) != Skipped then i else FirstDecisive(passes, i + 1, n)
  }

  /**
   * The loop's outcome is decided by the first pass that does not skip:
   * `True` if it confirms, the provider's exception if its call raised, and
   * `False` when every pass skips.
   */
  lemma {:induction false} OutcomeDecisive(passes: nat -> Step, i: nat, n: nat)
    requires i <= n
    ensures var j := FirstDecisive(passes, i, n);
      Outcome(passes, i, n) ==
        if j == n then Success(false)
        else if passes(j) == Confirmed then Success(true)
        else Failure(ProviderRaised)
    decreases n - i
  {
    if i < n && passes(i) == Skipped {
      OutcomeDecisive(passes, i + 1, n);
    }
  }

  /** `True` exactly when some pass confirms and every pass before it skipped. */
  lemma OutcomeTrueIff(passes: nat -> Step, n: nat)
    ensures Outcome(passes, 0, n) == Success(true) <==>
      exists j: nat :: j < n && passes(j) == Confirmed && AllSkip(passes, 0, j)
  {
    OutcomeDecisive(passes, 0, n);
    var j0 := FirstDecisive(passes, 0, n);
    if j0 < n && passes(j0) == Confirmed {
      assert AllSkip(passes, 0, j0);
    }
  }

  /** `False` exactly when every pass skips. */
  lemma OutcomeFalseIff(passes: nat -> Step, n: nat)
    ensures Outcome(passes, 0, n) == Success(false) <==> AllSkip(passes, 0, n)
  {
    OutcomeDecisive(passes, 0, n);
    var j0 := FirstDecisive(passes, 0, n);
    if j0 < n {
      assert !AllSkip(passes, 0, n) by { assert passes(j0) != Skipped; }
    }
  }

  /** What `check_duplicate_email` returns: `False` on an empty store, otherwise the loop's outcome. */
  function DuplicateVerdict(stored: seq<EmailRecord>, body: string, hasAttachment: bool, sim: Similarity, gen: Generator,
                            threshold: real, llmThreshold: real): (r: Result<bool, string>)
    ensures stored == [] ==> r == Success(false)
    ensures r.Failure? ==> r.error == ProviderRaised
  {
    if stored == [] then Success(false)
    else
      var cands := Candidates(stored, body, sim, threshold);
      OutcomeDecisive(Passes(cands, body, hasAttachment, gen, llmThreshold), 0, |cands|);
      Outcome(Passes(cands, body, hasAttachment, gen, llmThreshold), 0, |cands|)
  }

  /**
   * `check_duplicate_email`. The store's rows and the similarity oracle
   * stand for `fetch_emails_from_db` and the embedding model; `embedded`
   * records whether the embeddings were computed and `calls` counts the
   * provider calls.
   */
  method CheckDuplicateEmail(stored: seq<EmailRecord>, emailBody: string, hasAttachment: bool, sim: Similarity,
                             gen: Generator, threshold: real, llmThreshold: real)
    returns (r: Result<bool, string>, ghost embedded: bool, ghost calls: nat)
    ensures r == DuplicateVerdict(stored, emailBody, hasAttachment, sim, gen, threshold, llmThreshold)
    ensures stored == [] ==> !embedded && calls == 0
    ensures calls <= |Candidates(stored, emailBody, sim, threshold)|
  {
    if stored == [] {
      return Success(false), false, 0;
    }
    embedded := true;
    var potentialDuplicates := Candidates(stored, emailBody, sim, threshold);
    calls := 0;
    if potentialDuplicates == [] {
      return Success(false), embedded, calls;
    }
    ghost var passes := Passes(potentialDuplicates, emailBody, hasAttachment, gen, llmThreshold);
    ghost var n := |potentialDuplicates|;
    for i := 0 to |potentialDuplicates|
      invariant calls == i
      invariant Outcome(passes, i, n) == Outcome(passes, 0, n)
    {
      var storedEmail := potentialDuplicates[i];
      var response := gen(DuplicatePrompt(storedEmail.body, emailBody), i);
      assert passes(i) == Judge(response, storedEmail.hasAttachment, hasAttachment, llmThreshold);
      calls := calls + 1;
      if response.Raised? {
        return Failure(ProviderRaised), embedded, calls;
      }
      var llmSimilarityScore := ParseFloat(Strip(response.text));
      if llmSimilarityScore.None? {
        continue;
      }
      if AtLeast(llmSimilarityScore.value, llmThreshold) {
        if storedEmail.hasAttachment == hasAttachment {
          return Success(true), embedded, calls;
        }
        if storedEmail.hasAttachment && !hasAttachment {
          return Success(true), embedded, calls;
        }
        if !storedEmail.hasAttachment && hasAttachment {
          return Success(true), embedded, calls;
        }
      }
    }
    r := Success(false);
  }

  /**
   * `True` exactly when the store is not empty and some candidate confirms
   * while every candidate before it was skipped (a reply that is not a
   * number, or a score below `llm_threshold`).
   */
  lemma DuplicateIff(stored: seq<EmailRecord>, body: string, hasAttachment: bool, sim: Similarity, gen: Generator,
                     threshold: real, llmThreshold: real)
    ensures var cands := Candidates(stored, body, sim, threshold);
      var passes := Passes(cands, body, hasAttachment, gen, llmThreshold);
      DuplicateVerdict(stored, body, hasAttachment, sim, gen, threshold, llmThreshold) == Success(true) <==>
        stored != [] && exists j: nat :: j < |cands| && passes(j) == Confirmed && AllSkip(passes, 0, j)
  {
    var cands := Candidates(stored, body, sim, threshold);
    var passes := Passes(cands, body, hasAttachment, gen, llmThreshold);
    if stored == [] {
      assert DuplicateVerdict(stored, body, hasAttachment, sim, gen, threshold, llmThreshold) == Success(false);
    } else {
      assert DuplicateVerdict(stored, body, hasAttachment, sim, gen, threshold, llmThreshold) == Outcome(passes, 0, |cands|);
      OutcomeTrueIff(passes, |cands|);
    }
  }

  /** `False` exactly when the store is empty or every candidate is skipped. */
  lemma NotDuplicateIff(stored: seq<EmailRecord>, body: string, hasAttachment: bool, sim: Similarity, gen: Generator,
                        threshold: real, llmThreshold: real)
    ensures var cands := Candidates(stored, body, sim, threshold);
      DuplicateVerdict(stored, body, hasAttachment, sim, gen, threshold, llmThreshold) == Success(false) <==>
        stored == [] || AllSkip(Passes(cands, body, hasAttachment, gen, llmThreshold), 0, |cands|)
  {
    var cands := Candidates(stored, body, sim, threshold);
    OutcomeFalseIff(Passes(cands, body, hasAttachment, gen, llmThreshold), |cands|);
  }

  /** Some call raised, and every pass before it skipped. */
  predicate RaisedAfterSkips(cands: seq<EmailRecord>, body: string, hasAttachment: bool, gen: Generator, llmThreshold: real) {
    exists j: nat :: j < |cands| && gen(DuplicatePrompt(cands[j].body, body), j).Raised? &&
      AllSkip(Passes(cands, body, hasAttachment, gen, llmThreshold), 0, j)
  }

  /** A failure is the provider's exception, raised on a call that came after only skipped passes. */
  lemma FailureIsRaised(stored: seq<EmailRecord>, body: string, hasAttachment: bool, sim: Similarity, gen: Generator,
                        threshold: real, llmThreshold: real)
    requires DuplicateVerdict(stored, body, hasAttachment, sim, gen, threshold, llmThreshold).Failure?
    ensures DuplicateVerdict(stored, body, hasAttachment, sim, gen, threshold, llmThreshold) == Failure(ProviderRaised)
    ensures RaisedAfterSkips(Candidates(stored, body, sim, threshold), body, hasAttachment, gen, llmThreshold)
  {
    var cands := Candidates(stored, body, sim, threshold);
    var passes := Passes(cands, body, hasAttachment, gen, llmThreshold);
    OutcomeDecisive(passes, 0, |cands|);
    var j := FirstDecisive(passes, 0, |cands|);
    assert j < |cands| && passes(j) == Raises;
    assert passes(j) == Judge(gen(DuplicatePrompt(cands[j].body, body), j), cands[j].hasAttachment, hasAttachment, llmThreshold);
    assert gen(DuplicatePrompt(cands[j].body, body), j).Raised? && AllSkip(passes, 0, j);
  }

  /** No candidate passes the filter: `False` without any provider call. */
  lemma NoCandidatesNoDuplicate(stored: seq<EmailRecord>, body: string, hasAttachment: bool, sim: Similarity, gen: Generator,
                                threshold: real, llmThreshold: real)
    requires forall e :: e in stored ==> sim(body, e.body) < threshold
    ensures Candidates(stored, body, sim, threshold) == []
    ensures DuplicateVerdict(stored, body, hasAttachment, sim, gen, threshold, llmThreshold) == Success(false)
  {
    NoCandidates(stored, body, sim, threshold);
  }

  lemma {:induction false} NoCandidates(stored: seq<EmailRecord>, body: string, sim: Similarity, threshold: real)
    requires forall e :: e in stored ==> sim(body, e.body) < threshold
    ensures Candidates(stored, body, sim, threshold) == []
    decreases |stored|
  {
    if stored != [] {
      assert stored[0] in stored;
      NoCandidates(stored[1..], body, sim, threshold);
    }
  }

  /**
   * A numeric reply at or above `llm_threshold` confirms for every
   * combination of attachment flags: the three attachment cases cover every
   * pair of flags, so none of them rejects the candidate.
   */
  lemma ScoreDecides(t: string, storedHasAttachment: bool, hasAttachment: bool, llmThreshold: real, score: Float)
    requires ParseFloat(Strip(t)) == Some(score) && AtLeast(score, llmThreshold)
    ensures AttachmentDecision(storedHasAttachment, hasAttachment)
    ensures Judge(Text(t), storedHasAttachment, hasAttachment, llmThreshold) == Confirmed
  {
    AttachmentCasesCover(storedHasAttachment, hasAttachment);
  }

  /** The case split behind `ScoreDecides`, apart from its parsing facts. */
  lemma AttachmentCasesCover(storedHasAttachment: bool, hasAttachment: bool)
    ensures AttachmentDecision(storedHasAttachment, hasAttachment)
  {
  }

  /**
   * Worked example of the threshold test: a reply of 89.999 against the
   * default threshold of 90 moves on to the next candidate.
   */
  lemma JustBelowThreshold(storedHasAttachment: bool, hasAttachment: bool)
    ensures Judge(Text("89.999"), storedHasAttachment, hasAttachment, DefaultLlmThreshold) == Skipped
  {
    StripStripped("89.999");
    ParsesJustBelow();
  }

  /** Worked example, used by `JustBelowThreshold`: `float("89.999")` is 89999/1000. */
  lemma ParsesJustBelow()
    ensures ParseFloat("89.999") == Some(Finite(89999.0 / 1000.0))
  {
    assert "89.999" == "89" + "." + "999";
    ParseDecimalText("89", "999");
    DigitsJustBelow();
  }

  /** Worked example, used by `ParsesJustBelow`: the digits "89" and "999" make 89999/1000. */
  lemma DigitsJustBelow()
    ensures DecimalValue("89", "999") == 89999.0 / 1000.0
  {
    assert DigitsValue("8") == 8 by { assert "8"[..0] == ""; }
    assert DigitsValue("9") == 9 by { assert "9"[..0] == ""; }
    assert DigitsValue("89") == 89 by { assert "89"[..1] == "8"; }
    assert DigitsValue("99") == 99 by { assert "99"[..1] == "9"; }
    assert DigitsValue("999") == 999 by { assert "999"[..2] == "99"; }
    assert Pow10(3) == 1000 by { assert Pow10(1) == 10; assert Pow10(2) == 100; }
  }
}
