/**
 * The deterministic parts of `extract_key_phrases` in email_classifier.py:
 * the word split of the upper-cased text, `merge_terms` over the
 * `MERGE_TERMS` vocabulary, and the comma split with its digit filter that
 * turns the provider's reply into key phrases.
 */
module KeyPhrases {
  import opened Text

  /** `MERGE_TERMS`, in source order; "INR" and "Investments" appear twice there too. */
  const MergeTermList: seq<string> := [
    "NA", "N.A.", "INC", "LTD", "LLC", "PLC", "GMBH", "Ltd.", "Corp.", "S.A.", "S.p.A.", "B.V.",
    "AG", "Co.", "U.S.", "USA", "U.K.", "UK", "E.U.", "EUR", "GBP", "USD", "INR", "JPY", "CNY",
    "AUD", "CHF", "CAD", "INR", "AUS$", "\U{E2}\U{201A}\U{AC}", "FBI", "CIA", "IRS", "FDA", "SEC", "S&P", "NASDAQ",
    "Bank", "Group", "Investments", "Partners", "Associates", "Pty", "BHD", "ATF", "Synd.",
    "Investments", "Agency", "Firm"
  ]

  /** `\w` on ASCII text. */
  predicate IsWordChar(c: char) {
    'A' <= c <= 'Z' || 'a' <= c <= 'z' || '0' <= c <= '9' || c == '_'
  }

  /** A word `re.findall(r'\b\w+\b', text.upper())` can return: no lower-case letter left. */
  predicate IsUpperWord(w: string) {
    w != [] && forall k :: 0 <= k < |w| ==> IsWordChar(w[k]) && !('a' <= w[k] <= 'z')
  }

  /** End of the run of word characters starting at `i`. */
  function WordEnd(s: string, i: nat): (j: nat)
    requires i <= |s|
    ensures i <= j <= |s| && (j == |s| || !IsWordChar(s[j]))
    ensures forall k :: i <= k < j ==> IsWordChar(s[k])
    decreases |s| - i
  {
    if i < |s| && IsWordChar(s[i]) then WordEnd(s, i + 1) else i
  }

  /** `re.findall(r'\b\w+\b', s[i..])`: the maximal runs of word characters, in order. */
  function WordsFrom(s: string, i: nat): (ws: seq<string>)
    requires i <= |s|
    ensures forall k :: 0 <= k < |ws| ==> ws[k] != [] && forall m :: 0 <= m < |ws[k]| ==> IsWordChar(ws[k][m])
    decreases |s| - i
  {
    if i == |s| then []
    else if !IsWordChar(s[i]) then WordsFrom(s, i + 1)
    else
      var j := WordEnd(s, i);
      [s[i..j]] + WordsFrom(s, j)
  }

  /** The words of `text.upper()` that `extract_key_phrases` hands to `merge_terms`. */
  function Words(text: string): (ws: seq<string>)
    ensures forall k :: 0 <= k < |ws| ==> IsUpperWord(ws[k])
  {
    var u := ToUpper(text);
    var ws := WordsFrom(u, 0);
    assert forall k :: 0 <= k < |ws| ==> IsUpperWord(ws[k]) by {
      forall k | 0 <= k < |ws|
        ensures IsUpperWord(ws[k])
      {
        WordsOfUpper(u, 0, k);
      }
    }
    ws
  }

  /** Words cut out of upper-cased text hold no lower-case letter. */
  lemma {:induction false} WordsOfUpper(u: string, i: nat, k: nat)
    requires i <= |u| && forall m :: 0 <= m < |u| ==> !('a' <= u[m] <= 'z')
    requires k < |WordsFrom(u, i)|
    ensures IsUpperWord(WordsFrom(u, i)[k])
    decreases |u| - i
  {
    if !IsWordChar(u[i]) {
      WordsOfUpper(u, i + 1, k);
    } else {
      var j := WordEnd(u, i);
      if k > 0 {
        WordsOfUpper(u, j, k - 1);
      } else {
        assert WordsFrom(u, i)[0] == u[i..j];
        assert forall m :: 0 <= m < j - i ==> u[i..j][m] == u[i + m];
      }
    }
  }

  /**
   * A vocabulary entry with a dot, a symbol, a lower-case letter or a
   * non-ASCII character is never among the words, so it never merges.
   */
  lemma UnmatchableTerm(text: string, w: string)
    requires !IsUpperWord(w)
    ensures w !in Words(text)
  {
  }

  /**
   * The entries of `MERGE_TERMS` of that kind: all but NA, INC, LTD, LLC,
   * PLC, GMBH, AG, USA, UK, EUR, GBP, USD, INR, JPY, CNY, AUD, CHF, CAD,
   * FBI, CIA, IRS, FDA, SEC, NASDAQ, BHD and ATF.
   */
  lemma UnreachableEntries()
    ensures !IsUpperWord("N.A.") && !IsUpperWord("S.A.") && !IsUpperWord("S.p.A.") && !IsUpperWord("B.V.")
    ensures !IsUpperWord("U.S.") && !IsUpperWord("U.K.") && !IsUpperWord("E.U.") && !IsUpperWord("S&P")
    ensures !IsUpperWord("Ltd.") && !IsUpperWord("Corp.") && !IsUpperWord("Co.") && !IsUpperWord("Synd.")
    ensures !IsUpperWord("Bank") && !IsUpperWord("Group") && !IsUpperWord("Investments") && !IsUpperWord("Partners")
    ensures !IsUpperWord("Associates") && !IsUpperWord("Pty") && !IsUpperWord("Agency") && !IsUpperWord("Firm")
    ensures !IsUpperWord("AUS$") && !IsUpperWord("\U{E2}\U{201A}\U{AC}")
  {
    assert "N.A."[1] == "S.A."[1] == "S.p.A."[1] == "B.V."[1] == "U.S."[1] == "U.K."[1] == "E.U."[1] == '.';
    assert "S&P"[1] == '&' && "AUS$"[3] == '$' && "\U{E2}\U{201A}\U{AC}"[0] == '\U{E2}';
    assert "Ltd."[1] == 't' && "Corp."[1] == 'o' && "Co."[1] == 'o' && "Synd."[1] == 'y';
    assert "Bank"[1] == 'a' && "Group"[1] == 'r' && "Investments"[1] == 'n' && "Partners"[1] == 'a';
    assert "Associates"[1] == 's' && "Pty"[1] == 't' && "Agency"[1] == 'g' && "Firm"[1] == 'i';
  }

  /** How many vocabulary words open `ws`. */
  function RunLength(ws: seq<string>, vocab: seq<string>): (n: nat)
    ensures n <= |ws|
    ensures forall k :: 0 <= k < n ==> ws[k] in vocab
    ensures n == |ws| || ws[n] !in vocab
    decreases |ws|
  {
    if ws != [] && ws[0] in vocab then 1 + RunLength(ws[1..], vocab) else 0
  }

  /**
   * What `merge_terms` returns: every maximal run of consecutive vocabulary
   * words becomes one element, its words joined by single spaces; every
   * other word stays an element of its own; order is kept.
   */
  function Merged(ws: seq<string>, vocab: seq<string>): (r: seq<string>)
    ensures |r| <= |ws|
    ensures r == [] <==> ws == []
    decreases |ws|
  {
    if ws == [] then []
    else if ws[0] in vocab then
      var n := RunLength(ws, vocab);
      [Join(ws[..n], " ")] + Merged(ws[n..], vocab)
    else [ws[0]] + Merged(ws[1..], vocab)
  }

  /** A run of vocabulary words that stops at `b` is measured exactly. */
  lemma {:induction false} RunLengthIs(ws: seq<string>, vocab: seq<string>, b: nat)
    requires b <= |ws| && (b == |ws| || ws[b] !in vocab)
    requires forall k :: 0 <= k < b ==> ws[k] in vocab
    ensures RunLength(ws, vocab) == b
    decreases b
  {
    if b > 0 {
      RunLengthIs(ws[1..], vocab, b - 1);
    }
  }

  /** Merging never changes the text once words are joined by spaces again. */
  lemma {:induction false} MergedJoin(ws: seq<string>, vocab: seq<string>)
    ensures Join(Merged(ws, vocab), " ") == Join(ws, " ")
    decreases |ws|
  {
    if ws != [] {
      var n := if ws[0] in vocab then RunLength(ws, vocab) else 1;
      assert ws == ws[..n] + ws[n..];
      MergedJoin(ws[n..], vocab);
      var head := if ws[0] in vocab then Join(ws[..n], " ") else ws[0];
      assert head == Join(ws[..n], " ");
      assert Merged(ws, vocab) == [head] + Merged(ws[n..], vocab);
      if ws[n..] == [] {
        assert ws[..n] == ws;
        assert Merged(ws, vocab) == [head];
      } else {
        JoinAppend([head], Merged(ws[n..], vocab), " ");
        JoinAppend(ws[..n], ws[n..], " ");
      }
    }
  }

  /** Without vocabulary words `merge_terms` returns its input. */
  lemma {:induction false} MergedNoTerms(ws: seq<string>, vocab: seq<string>)
    requires forall k :: 0 <= k < |ws| ==> ws[k] !in vocab
    ensures Merged(ws, vocab) == ws
    decreases |ws|
  {
    if ws != [] {
      MergedNoTerms(ws[1..], vocab);
    }
  }

  /** A list of vocabulary words only becomes one phrase. */
  lemma AllTermsMerge(ws: seq<string>, vocab: seq<string>)
    requires ws != [] && forall k :: 0 <= k < |ws| ==> ws[k] in vocab
    ensures Merged(ws, vocab) == [Join(ws, " ")]
  {
    RunLengthIs(ws, vocab, |ws|);
    assert ws[..|ws|] == ws;
  }

  /**
   * A word outside the vocabulary ends any run before it and opens no run:
   * it stands alone and splits the merge into independent halves.
   */
  lemma {:induction false} MergedSplitsAt(a: seq<string>, w: string, b: seq<string>, vocab: seq<string>)
    requires w !in vocab
    ensures Merged(a + [w] + b, vocab) == Merged(a, vocab) + [w] + Merged(b, vocab)
    decreases |a|
  {
    var ws := a + [w] + b;
    if a == [] {
      assert ws == [w] + b;
      assert ws[1..] == b;
    } else if a[0] in vocab {
      var n := RunLength(a, vocab);
      RunStopsBefore(a, w, b, vocab);
      MergedSplitsAt(a[n..], w, b, vocab);
      var head := [Join(a[..n], " ")];
      assert Merged(ws, vocab) == head + Merged(a[n..] + [w] + b, vocab);
      assert Merged(a, vocab) == head + Merged(a[n..], vocab);
      Regroup3(head, Merged(a[n..], vocab), [w], Merged(b, vocab));
    } else {
      assert ws[1..] == a[1..] + [w] + b;
      MergedSplitsAt(a[1..], w, b, vocab);
      var head := [a[0]];
      assert Merged(ws, vocab) == head + Merged(a[1..] + [w] + b, vocab);
      assert Merged(a, vocab) == head + Merged(a[1..], vocab);
      Regroup3(head, Merged(a[1..], vocab), [w], Merged(b, vocab));
    }
  }

  lemma Regroup3<T>(h: seq<T>, p: seq<T>, m: seq<T>, q: seq<T>)
    ensures h + (p + m + q) == h + p + m + q
  {
  }

  /** The run that opens `a` is the run that opens `a + [w] + b` when `w` is outside the vocabulary. */
  lemma RunStopsBefore(a: seq<string>, w: string, b: seq<string>, vocab: seq<string>)
    requires w !in vocab && a != [] && a[0] in vocab
    ensures var n := RunLength(a, vocab); var ws := a + [w] + b;
      1 <= n && RunLength(ws, vocab) == n && ws[..n] == a[..n] && ws[n..] == a[n..] + [w] + b
  {
    var ws := a + [w] + b;
    var n := RunLength(a, vocab);
    assert forall k :: 0 <= k < n ==> ws[k] == a[k];
    RunLengthIs(ws, vocab, n) by {
      if n < |a| {
        assert ws[n] == a[n];
      } else {
        assert ws[n] == w;
      }
    }
    assert ws[..n] == a[..n];
    assert ws[n..] == a[n..] + [w] + b;
  }

  lemma Regroup<T>(a: seq<T>, b: seq<T>, c: seq<T>, d: seq<T>)
    ensures a + (b + (c + d)) == a + b + c + d
  {
  }

  /** One more vocabulary word extends the pending phrase by a space and the word. */
  lemma ExtendRun(words: seq<string>, runStart: nat, i: nat)
    requires runStart < i < |words|
    ensures Join(words[runStart..i + 1], " ") == Join(words[runStart..i], " ") + " " + words[i]
  {
    JoinAppend(words[runStart..i], [words[i]], " ");
    assert words[runStart..i + 1] == words[runStart..i] + [words[i]];
  }

  /** What the loop of `merge_terms` does at a vocabulary word, stated on the pending phrase. */
  lemma ExtendStep(words: seq<string>, vocab: seq<string>, tempPhrase: string, runStart: nat, i: nat)
    requires runStart <= i < |words| && words[i] in vocab && words[i] != []
    requires forall k :: runStart <= k < i ==> words[k] in vocab
    requires tempPhrase == Join(words[runStart..i], " ")
    requires tempPhrase == [] <==> runStart == i
    ensures forall k :: runStart <= k < i + 1 ==> words[k] in vocab
    ensures (if tempPhrase != [] then tempPhrase + " " + words[i] else words[i]) == Join(words[runStart..i + 1], " ")
    ensures Join(words[runStart..i + 1], " ") != []
  {
    if tempPhrase != [] {
      ExtendRun(words, runStart, i);
    } else {
      assert words[runStart..i + 1] == [words[i]];
    }
  }

  /** A word outside the vocabulary stands alone in the merge of the words from it on. */
  lemma PassWord(words: seq<string>, vocab: seq<string>, i: nat)
    requires i < |words| && words[i] !in vocab
    ensures Merged(words[i..], vocab) == [words[i]] + Merged(words[i + 1..], vocab)
  {
    assert words[i..][1..] == words[i + 1..];
  }

  /** A pending run closed by the non-vocabulary word at `i` becomes one phrase. */
  lemma CloseRun(words: seq<string>, vocab: seq<string>, runStart: nat, i: nat)
    requires runStart < i < |words| && words[i] !in vocab
    requires forall k :: runStart <= k < i ==> words[k] in vocab
    ensures Merged(words[runStart..], vocab) == [Join(words[runStart..i], " ")] + Merged(words[i..], vocab)
  {
    var rest := words[runStart..];
    RunLengthIs(rest, vocab, i - runStart);
    assert rest[..i - runStart] == words[runStart..i];
    assert rest[i - runStart..] == words[i..];
  }

  /** What the loop of `merge_terms` does at a word outside the vocabulary, stated on the merge. */
  lemma FlushStep(words: seq<string>, vocab: seq<string>, merged: seq<string>, tempPhrase: string, runStart: nat, i: nat)
    requires runStart <= i < |words| && words[i] !in vocab
    requires forall k :: runStart <= k < i ==> words[k] in vocab
    requires tempPhrase == Join(words[runStart..i], " ")
    requires tempPhrase == [] <==> runStart == i
    requires merged + Merged(words[runStart..], vocab) == Merged(words, vocab)
    ensures (if tempPhrase != [] then merged + [tempPhrase] else merged) + [words[i]] + Merged(words[i + 1..], vocab)
      == Merged(words, vocab)
  {
    PassWord(words, vocab, i);
    var tail := Merged(words[i + 1..], vocab);
    if runStart < i {
      CloseRun(words, vocab, runStart, i);
      Regroup(merged, [tempPhrase], [words[i]], tail);
    } else {
      assert merged + ([words[i]] + tail) == merged + [words[i]] + tail;
    }
  }

  /** What the end of `merge_terms` does with the pending phrase, stated on the merge. */
  lemma FinishRun(words: seq<string>, vocab: seq<string>, merged: seq<string>, runStart: nat)
    requires runStart <= |words|
    requires forall k :: runStart <= k < |words| ==> words[k] in vocab
    requires merged + Merged(words[runStart..], vocab) == Merged(words, vocab)
    ensures (if runStart < |words| then merged + [Join(words[runStart..|words|], " ")] else merged) == Merged(words, vocab)
  {
    assert words[runStart..|words|] == words[runStart..];
    if runStart < |words| {
      AllTermsMerge(words[runStart..], vocab);
    } else {
      assert words[runStart..] == [];
    }
  }

  /** The loop state of `merge_terms`: the phrases emitted so far and the pending `temp_phrase`. */
  datatype MergeScan = MergeScan(merged: seq<string>, tempPhrase: string)

  /** One pass of the loop of `merge_terms` over `word`. */
  function ScanStep(st: MergeScan, word: string, vocab: seq<string>): MergeScan {
    if word in vocab then
      if st.tempPhrase != [] then st.(tempPhrase := st.tempPhrase + " " + word) else st.(tempPhrase := word)
    else
      var flushed := if st.tempPhrase != [] then st.merged + [st.tempPhrase] else st.merged;
      MergeScan(flushed + [word], "")
  }

  /** The loop state after the first `i` words. */
  function Scan(words: seq<string>, vocab: seq<string>, i: nat): MergeScan
    requires i <= |words|
  {
    if i == 0 then MergeScan([], "") else ScanStep(Scan(words, vocab, i - 1), words[i - 1], vocab)
  }

  /** Where the run of vocabulary words that ends at `i` starts. */
  function RunStartAt(words: seq<string>, vocab: seq<string>, i: nat): (r: nat)
    requires i <= |words|
    ensures r <= i && forall k :: r <= k < i ==> words[k] in vocab
  {
    if i == 0 || words[i - 1] !in vocab then i else RunStartAt(words, vocab, i - 1)
  }

  /** What the loop state means after `i` words, given the run that ends there. */
  predicate ScanMeans(words: seq<string>, vocab: seq<string>, st: MergeScan, runStart: nat, i: nat)
    requires runStart <= i <= |words|
  {
    st.tempPhrase == Join(words[runStart..i], " ")
    && (st.tempPhrase == [] <==> runStart == i)
    && st.merged + Merged(words[runStart..], vocab) == Merged(words, vocab)
  }

  /** The state after a vocabulary word: the pending phrase grows by it. */
  lemma ScanExtends(words: seq<string>, vocab: seq<string>, i: nat)
    requires i < |words| && words[i] in vocab && words[i] != []
    requires ScanMeans(words, vocab, Scan(words, vocab, i), RunStartAt(words, vocab, i), i)
    ensures ScanMeans(words, vocab, Scan(words, vocab, i + 1), RunStartAt(words, vocab, i + 1), i + 1)
  {
    var st := Scan(words, vocab, i);
    ExtendStep(words, vocab, st.tempPhrase, RunStartAt(words, vocab, i), i);
  }

  /** The state after any other word: the pending phrase, then the word, are emitted. */
  lemma ScanFlushes(words: seq<string>, vocab: seq<string>, i: nat)
    requires i < |words| && words[i] !in vocab
    requires ScanMeans(words, vocab, Scan(words, vocab, i), RunStartAt(words, vocab, i), i)
    ensures ScanMeans(words, vocab, Scan(words, vocab, i + 1), RunStartAt(words, vocab, i + 1), i + 1)
  {
    var st := Scan(words, vocab, i);
    FlushStep(words, vocab, st.merged, st.tempPhrase, RunStartAt(words, vocab, i), i);
    assert words[i + 1..i + 1] == [];
  }

  /** Every loop state means what `ScanMeans` says. */
  lemma {:induction false} ScanInvariant(words: seq<string>, vocab: seq<string>, i: nat)
    requires i <= |words|
    requires forall k :: 0 <= k < |words| ==> words[k] != []
    ensures ScanMeans(words, vocab, Scan(words, vocab, i), RunStartAt(words, vocab, i), i)
  {
    if i == 0 {
      assert words[0..] == words;
    } else {
      ScanInvariant(words, vocab, i - 1);
      if words[i - 1] in vocab {
        ScanExtends(words, vocab, i - 1);
      } else {
        ScanFlushes(words, vocab, i - 1);
      }
    }
  }

  /** Emitting the pending phrase at the end of the loop gives the merge. */
  lemma ScanMerged(words: seq<string>, vocab: seq<string>)
    requires forall k :: 0 <= k < |words| ==> words[k] != []
    ensures var st := Scan(words, vocab, |words|);
      (if st.tempPhrase != [] then st.merged + [st.tempPhrase] else st.merged) == Merged(words, vocab)
  {
    ScanInvariant(words, vocab, |words|);
    FinishRun(words, vocab, Scan(words, vocab, |words|).merged, RunStartAt(words, vocab, |words|));
  }

  /**
   * `merge_terms`: walks the words, collecting consecutive vocabulary words
   * in `tempPhrase` and flushing it when a non-vocabulary word or the end
   * arrives. The vocabulary is the module-level `MERGE_TERMS` list, passed
   * in as `vocab` (`MergeTermList` at the call).
   */
  method MergeTerms(words: seq<string>, vocab: seq<string>) returns (mergedKeyPhrases: seq<string>)
    requires forall k :: 0 <= k < |words| ==> words[k] != []
    ensures mergedKeyPhrases == Merged(words, vocab)
  {
    mergedKeyPhrases := [];
    var tempPhrase := "";
    for i := 0 to |words|
      invariant MergeScan(mergedKeyPhrases, tempPhrase) == Scan(words, vocab, i)
    {
      var word := words[i];
      if word in vocab {
        if tempPhrase != [] {
          tempPhrase := tempPhrase + " " + word;
        } else {
          tempPhrase := word;
        }
      } else {
        if tempPhrase != [] {
          mergedKeyPhrases := mergedKeyPhrases + [tempPhrase];
          tempPhrase := "";
        }
        mergedKeyPhrases := mergedKeyPhrases + [word];
      }
    }
    ScanMerged(words, vocab);
    if tempPhrase != [] {
      mergedKeyPhrases := mergedKeyPhrases + [tempPhrase];
    }
  }

  /** The key phrases kept from comma-separated pieces: stripped, without the pieces holding a digit. */
  function KeptPhrases(pieces: seq<string>): (r: seq<string>)
    ensures |r| <= |pieces|
    ensures forall k :: 0 <= k < |r| ==> IsStripped(r[k]) && !HasDigit(r[k])
    decreases |pieces|
  {
    if pieces == [] then []
    else
      var rest := KeptPhrases(pieces[1..]);
      if HasDigit(pieces[0]) then rest
      else
        var p := Strip(pieces[0]);
        StripKeepsDigitFree(pieces[0]);
        ConsPhrase(p, rest);
        [p] + rest
  }

  /** A stripped, digit-free phrase in front of such phrases. */
  lemma ConsPhrase(p: string, rest: seq<string>)
    requires IsStripped(p) && !HasDigit(p)
    requires forall k :: 0 <= k < |rest| ==> IsStripped(rest[k]) && !HasDigit(rest[k])
    ensures forall k :: 0 <= k < |[p] + rest| ==> IsStripped(([p] + rest)[k]) && !HasDigit(([p] + rest)[k])
  {
    forall k | 0 <= k < |[p] + rest|
      ensures IsStripped(([p] + rest)[k]) && !HasDigit(([p] + rest)[k])
    {
      if k > 0 { assert ([p] + rest)[k] == rest[k - 1]; }
    }
  }

  /** Stripping takes characters away and adds none, so it adds no digit. */
  lemma StripKeepsDigitFree(s: string)
    requires !HasDigit(s)
    ensures !HasDigit(Strip(s))
  {
    var l := TrimLeft(s);
    var r := TrimRight(l);
    assert r == Strip(s);
    forall k | 0 <= k < |r|
      ensures !IsDigit(r[k])
    {
      assert r[k] == l[k] == s[|s| - |l| + k];
    }
  }

  /**
   * The phrases `extract_key_phrases` returns for a non-empty reply:
   * `response_text.split(',')`, each piece without a digit, stripped.
   */
  function KeyPhrasesOf(responseText: string): seq<string> {
    KeptPhrases(SplitOn(responseText, ','))
  }

  /** Every phrase returned is stripped, holds no digit and, being part of one piece, no comma. */
  lemma KeyPhrasesShape(responseText: string)
    ensures forall k :: 0 <= k < |KeyPhrasesOf(responseText)| ==>
      var x := KeyPhrasesOf(responseText)[k];
      IsStripped(x) && !HasDigit(x) && ',' !in x
  {
    var pieces := SplitOn(responseText, ',');
    var r := KeyPhrasesOf(responseText);
    forall k | 0 <= k < |r|
      ensures ',' !in r[k]
    {
      KeptPhrasesMembers(pieces, r[k]);
      var j :| 0 <= j < |pieces| && !HasDigit(pieces[j]) && Strip(pieces[j]) == r[k];
      StripKeepsOut(pieces[j], ',');
    }
  }

  /** A phrase is returned exactly when some piece without a digit strips to it. */
  lemma {:induction false} KeptPhrasesMembers(pieces: seq<string>, x: string)
    ensures x in KeptPhrases(pieces) <==> exists k :: 0 <= k < |pieces| && !HasDigit(pieces[k]) && Strip(pieces[k]) == x
    decreases |pieces|
  {
    if pieces != [] {
      KeptPhrasesMembers(pieces[1..], x);
      if exists k :: 0 <= k < |pieces[1..]| && !HasDigit(pieces[1..][k]) && Strip(pieces[1..][k]) == x {
        var k :| 0 <= k < |pieces[1..]| && !HasDigit(pieces[1..][k]) && Strip(pieces[1..][k]) == x;
        assert pieces[k + 1] == pieces[1..][k];
      }
      if exists k :: 0 <= k < |pieces| && !HasDigit(pieces[k]) && Strip(pieces[k]) == x {
        var k :| 0 <= k < |pieces| && !HasDigit(pieces[k]) && Strip(pieces[k]) == x;
        if k > 0 {
          assert pieces[1..][k - 1] == pieces[k];
        }
      }
    }
  }

  /** Filtering keeps the order of the pieces: consecutive blocks of pieces give consecutive phrases. */
  lemma {:induction false} KeptPhrasesAppend(a: seq<string>, b: seq<string>)
    ensures KeptPhrases(a + b) == KeptPhrases(a) + KeptPhrases(b)
    decreases |a|
  {
    if a == [] {
      assert a + b == b;
    } else {
      assert (a + b)[1..] == a[1..] + b;
      KeptPhrasesAppend(a[1..], b);
    }
  }

  /** A reply with neither comma nor digit is returned as the single phrase it is, stripped. */
  lemma SinglePhrase(responseText: string)
    requires ',' !in responseText && !HasDigit(responseText)
    ensures KeyPhrasesOf(responseText) == [Strip(responseText)]
  {
    SplitOnAbsent(responseText, ',');
  }
}
