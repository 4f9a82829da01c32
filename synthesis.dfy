/**
 * `QuestionAnsweringService._generate_answer` and its `_extract_*` strategies: the
 * question's intent is read from fixed cue phrases, and the answer quotes sentences of
 * the context chosen by that intent's rule, or falls back to the context's first 300
 * characters.
 */
module Synthesis {
  import opened Text
  import opened Sequences

  // ----- Token finders -----

  /**
   * The regular-expression searches the strategies run, as given functions: the word
   * tokens of the lower-cased question, and the numbers, dates and capitalised names
   * found in the context (all date patterns' matches, in pattern order).
   */
  datatype Finders = Finders(
    words: string -> seq<string>,
    numbers: string -> seq<string>,
    dates: string -> seq<string>,
    names: string -> seq<string>)

  // ----- Intent -----

  datatype Intent = Definition | Quantity | Date | Location | Person | Reason | Process | General

  /** The cue phrases of each intent; General has none. */
  function Cues(intent: Intent): seq<string> {
    match intent
    case Definition => ["what is", "what are", "define"]
    case Quantity => ["how many", "how much", "count"]
    case Date => ["when", "date"]
    case Location => ["where", "location"]
    case Person => ["who", "person", "people"]
    case Reason => ["why", "reason", "because"]
    case Process => ["how", "process", "steps"]
    case General => []
  }

  /** The order in which `_generate_answer` tries the intents. */
  const Priority: seq<Intent> := [Definition, Quantity, Date, Location, Person, Reason, Process]

  /** The position of an intent in Priority; General comes after all of them. */
  function PriorityIndex(intent: Intent): (i: nat)
    ensures i <= |Priority| && (i < |Priority| ==> Priority[i] == intent) && (i == |Priority| <==> intent == General)
  {
    match intent
    case Definition => 0
    case Quantity => 1
    case Date => 2
    case Location => 3
    case Person => 4
    case Reason => 5
    case Process => 6
    case General => 7
  }

  /**
   * The intent of a lower-cased question: the first in priority order with a cue in the
   * question, General when there is none.
   */
  function Classify(questionLower: string): (intent: Intent)
    ensures intent != General ==> ContainsAny(questionLower, Cues(intent))
    ensures forall j :: 0 <= j < PriorityIndex(intent) ==> !ContainsAny(questionLower, Cues(Priority[j]))
  {
    if ContainsAny(questionLower, Cues(Definition)) then Definition
    else if ContainsAny(questionLower, Cues(Quantity)) then Quantity
    else if ContainsAny(questionLower, Cues(Date)) then Date
    else if ContainsAny(questionLower, Cues(Location)) then Location
    else if ContainsAny(questionLower, Cues(Person)) then Person
    else if ContainsAny(questionLower, Cues(Reason)) then Reason
    else if ContainsAny(questionLower, Cues(Process)) then Process
    else General
  }

  /** A string contains a phrase only where the phrase's first two characters occur side by side. */
  lemma {:induction false} ContainsPair(s: string, sub: string)
    requires |sub| >= 2 && Contains(s, sub)
    ensures exists i :: 0 <= i < |s| - 1 && s[i] == sub[0] && s[i + 1] == sub[1]
    decreases |s|
  {
    if !(sub <= s) {
      ContainsPair(s[1..], sub);
      var i :| 0 <= i < |s[1..]| - 1 && s[1..][i] == sub[0] && s[1..][i + 1] == sub[1];
      assert s[i + 1] == sub[0] && s[i + 2] == sub[1];
    } else {
      assert s[0] == sub[0] && s[1] == sub[1];
    }
  }

  /** A string without the phrase's first two characters side by side does not contain it. */
  lemma NotContains(s: string, sub: string)
    requires |sub| >= 2
    requires forall i :: 0 <= i < |s| - 1 ==> !(s[i] == sub[0] && s[i + 1] == sub[1])
    ensures !Contains(s, sub)
  {
    if Contains(s, sub) {
      ContainsPair(s, sub);
    }
  }

  /** "how many people" holds none of the definition cues. */
  lemma NoWhatIs()
    ensures !Contains("how many people", "what is")
  {
    NotContains("how many people", "what is");
  }

  lemma NoWhatAre()
    ensures !Contains("how many people", "what are")
  {
    NotContains("how many people", "what are");
  }

  lemma NoDefine()
    ensures !Contains("how many people", "define")
  {
    NotContains("how many people", "define");
  }

  lemma NoneOfThree(s: string, a: string, b: string, c: string)
    requires !Contains(s, a) && !Contains(s, b) && !Contains(s, c)
    ensures !ContainsAny(s, [a, b, c])
  {
  }

  lemma NoDefinitionCue()
    ensures !ContainsAny("how many people", Cues(Definition))
  {
    NoWhatIs();
    NoWhatAre();
    NoDefine();
    NoneOfThree("how many people", "what is", "what are", "define");
  }

  /** A question with a quantity cue and no definition cue asks for a quantity. */
  lemma ClassifyQuantity(q: string)
    requires !ContainsAny(q, Cues(Definition)) && ContainsAny(q, Cues(Quantity))
    ensures Classify(q) == Quantity
  {
  }

  /** A text contains each of its prefixes. */
  lemma ContainsPrefix(sub: string, rest: string)
    ensures Contains(sub + rest, sub)
  {
    assert sub <= sub + rest;
  }

  lemma QuantityCue()
    ensures ContainsAny("how many people", Cues(Quantity))
  {
    ContainsPrefix("how many", " people");
    assert "how many" + " people" == "how many people";
    assert Cues(Quantity)[0] == "how many";
  }

  /** "how many" is tried before the person cue "people" and the process cue "how". */
  lemma ClassifyQuantityBeforePerson()
    ensures Classify("how many people") == Quantity
  {
    NoDefinitionCue();
    QuantityCue();
    ClassifyQuantity("how many people");
  }

  // ----- Answers and fallbacks -----

  const QuotePrefix := "According to the document: "
  const DefinitionPrefix := "Based on the document: "

  /** The fallback of every strategy but the definition one. */
  function Fallback(context: string): string {
    "The document contains the following relevant information: " + Prefix(context, 300) + "..."
  }

  /** The definition strategy's fallback. */
  function DefinitionFallback(context: string): string {
    "The document mentions the following relevant information: " + Prefix(context, 300) + "..."
  }

  // ----- Sentence selection by indicator -----

  /** A filter of the comprehensions: some word occurs in the piece (lower-cased or not), and its stripped text may need more than 20 characters. */
  datatype Test = Test(words: seq<string>, lowered: bool, needLong: bool)

  predicate Passes(t: Test, piece: string) {
    ContainsAny(if t.lowered then Lower(piece) else piece, t.words) && (t.needLong ==> |Strip(piece)| > 20)
  }

  /** `[s.strip() for s in pieces if <test>]` */
  function Picked(pieces: seq<string>, t: Test): seq<string>
    decreases |pieces|
  {
    if pieces == [] then []
    else
      var p := pieces[|pieces| - 1];
      Picked(pieces[..|pieces| - 1], t) + (if Passes(t, p) then [Strip(p)] else [])
  }

  /** Picking from two runs of pieces picks from the first, then from the second. */
  lemma {:induction false} PickedAppend(a: seq<string>, b: seq<string>, t: Test)
    ensures Picked(a + b, t) == Picked(a, t) + Picked(b, t)
    decreases |b|
  {
    if b == [] {
      assert a + b == a;
    } else {
      var init := b[..|b| - 1];
      PickedAppend(a, init, t);
      assert (a + b)[..|a + b| - 1] == a + init;
      assert (a + b)[|a + b| - 1] == b[|b| - 1];
    }
  }

  /** Nothing is picked when no piece passes the test. */
  lemma {:induction false} PickedNone(pieces: seq<string>, t: Test)
    requires forall j :: 0 <= j < |pieces| ==> !Passes(t, pieces[j])
    ensures Picked(pieces, t) == []
    decreases |pieces|
  {
    if pieces != [] {
      var init := pieces[..|pieces| - 1];
      assert forall j :: 0 <= j < |init| ==> init[j] == pieces[j];
      PickedNone(init, t);
    }
  }

  /** There is a pick exactly when some piece passes the test. */
  lemma PickedNonEmpty(pieces: seq<string>, t: Test)
    ensures Picked(pieces, t) != [] <==> exists k :: 0 <= k < |pieces| && Passes(t, pieces[k])
  {
    if exists k :: 0 <= k < |pieces| && Passes(t, pieces[k]) {
      var k :| 0 <= k < |pieces| && Passes(t, pieces[k]);
      var x := pieces[k];
      assert pieces == (pieces[..k] + [x]) + pieces[k + 1..];
      assert [x][..0] == [];
      assert Picked([x], t) == [Strip(x)];
      PickedAppend(pieces[..k], [x], t);
      PickedAppend(pieces[..k] + [x], pieces[k + 1..], t);
    } else {
      PickedNone(pieces, t);
    }
  }

  /** The first pick comes from the first piece that passes the test. */
  lemma PickedFirst(pieces: seq<string>, t: Test, k: nat)
    requires k < |pieces| && Passes(t, pieces[k])
    requires forall j :: 0 <= j < k ==> !Passes(t, pieces[j])
    ensures Picked(pieces, t) != [] && Picked(pieces, t)[0] == Strip(pieces[k])
  {
    var pre := pieces[..k];
    var x := pieces[k];
    var rest := pieces[k + 1..];
    assert pieces == (pre + [x]) + rest;
    assert forall j :: 0 <= j < |pre| ==> pre[j] == pieces[j];
    PickedNone(pre, t);
    assert [x][..0] == [];
    assert Picked([x], t) == [Strip(x)];
    PickedAppend(pre, [x], t);
    PickedAppend(pre + [x], rest, t);
  }

  /** Every pick is a stripped piece of the context. */
  lemma {:induction false} PickedAreStrippedPieces(pieces: seq<string>, t: Test)
    ensures forall x :: x in Picked(pieces, t) ==> x in StripAll(pieces)
    decreases |pieces|
  {
    if pieces != [] {
      var init := pieces[..|pieces| - 1];
      var p := pieces[|pieces| - 1];
      SplitLast(pieces);
      PickedAreStrippedPieces(init, t);
      StripAllAppend(init, p);
    }
  }

  /** An answer quoting the first pick, or the fallback. */
  function FirstPick(picked: seq<string>, context: string): string {
    if picked != [] then QuotePrefix + picked[0] else Fallback(context)
  }

  /** The first piece that passes the test is the one quoted. */
  lemma FirstPickQuotesFirstPassing(pieces: seq<string>, t: Test, context: string, k: nat)
    requires k < |pieces| && Passes(t, pieces[k])
    requires forall j :: 0 <= j < k ==> !Passes(t, pieces[j])
    ensures FirstPick(Picked(pieces, t), context) == QuotePrefix + Strip(pieces[k])
  {
    PickedFirst(pieces, t, k);
  }

  /** With no piece passing the test, the answer is the fallback. */
  lemma FirstPickFallsBack(pieces: seq<string>, t: Test, context: string)
    requires forall j :: 0 <= j < |pieces| ==> !Passes(t, pieces[j])
    ensures FirstPick(Picked(pieces, t), context) == Fallback(context)
  {
    PickedNonEmpty(pieces, t);
  }

  /** `_extract_quantity`: the first piece containing one of the numbers found. */
  function QuantityAnswer(context: string, f: Finders): string {
    var numbers := f.numbers(context);
    if numbers != [] then FirstPick(Picked(Split(context), Test(numbers, false, false)), context)
    else Fallback(context)
  }

  /** `_extract_date`: the first piece containing one of the dates found. */
  function DateAnswer(context: string, f: Finders): string {
    var dates := f.dates(context);
    if dates != [] then FirstPick(Picked(Split(context), Test(dates, false, false)), context)
    else Fallback(context)
  }

  const LocationWords := ["in", "at", "located", "address", "city", "country", "state", "region"]
  const ReasonWords := ["because", "due to", "reason", "caused by", "result of", "since", "as a result"]
  const ProcessWords := ["step", "first", "then", "next", "finally", "process", "method", "procedure"]

  /** `_extract_location`: the first long piece whose lower-cased text has a location word. */
  function LocationAnswer(context: string): string {
    FirstPick(Picked(Split(context), Test(LocationWords, true, true)), context)
  }

  /** `_extract_person`: the first long piece containing one of the names found. */
  function PersonAnswer(context: string, f: Finders): string {
    var names := f.names(context);
    if names != [] then FirstPick(Picked(Split(context), Test(names, false, true)), context)
    else Fallback(context)
  }

  /** `_extract_reason`: the first long piece whose lower-cased text has a reason phrase. */
  function ReasonAnswer(context: string): string {
    FirstPick(Picked(Split(context), Test(ReasonWords, true, true)), context)
  }

  /** `_extract_process`: up to the first three long pieces with a process word, joined by `". "`. */
  function ProcessAnswer(context: string): string {
    var picked := Picked(Split(context), Test(ProcessWords, true, true));
    if picked != [] then QuotePrefix + Join(if |picked| <= 3 then picked else picked[..3], ". ")
    else Fallback(context)
  }

  /** The first piece passing a strategy's test, when there is one. */
  predicate FirstPassing(pieces: seq<string>, t: Test, k: nat) {
    k < |pieces| && Passes(t, pieces[k]) && forall j :: 0 <= j < k ==> !Passes(t, pieces[j])
  }

  /** The location answer quotes the first piece longer than 20 characters with a location word. */
  lemma LocationAnswerQuotesFirst(context: string, k: nat)
    requires FirstPassing(Split(context), Test(LocationWords, true, true), k)
    ensures LocationAnswer(context) == QuotePrefix + Strip(Split(context)[k])
  {
    FirstPickQuotesFirstPassing(Split(context), Test(LocationWords, true, true), context, k);
  }

  /** The reason answer quotes the first piece longer than 20 characters with a reason phrase. */
  lemma ReasonAnswerQuotesFirst(context: string, k: nat)
    requires FirstPassing(Split(context), Test(ReasonWords, true, true), k)
    ensures ReasonAnswer(context) == QuotePrefix + Strip(Split(context)[k])
  {
    FirstPickQuotesFirstPassing(Split(context), Test(ReasonWords, true, true), context, k);
  }

  /** The quantity answer quotes the first piece holding a number found in the context. */
  lemma QuantityAnswerQuotesFirst(context: string, f: Finders, k: nat)
    requires f.numbers(context) != []
    requires FirstPassing(Split(context), Test(f.numbers(context), false, false), k)
    ensures QuantityAnswer(context, f) == QuotePrefix + Strip(Split(context)[k])
  {
    FirstPickQuotesFirstPassing(Split(context), Test(f.numbers(context), false, false), context, k);
  }

  /** The date answer quotes the first piece holding a date found in the context. */
  lemma DateAnswerQuotesFirst(context: string, f: Finders, k: nat)
    requires f.dates(context) != []
    requires FirstPassing(Split(context), Test(f.dates(context), false, false), k)
    ensures DateAnswer(context, f) == QuotePrefix + Strip(Split(context)[k])
  {
    FirstPickQuotesFirstPassing(Split(context), Test(f.dates(context), false, false), context, k);
  }

  /** The person answer quotes the first piece longer than 20 characters holding a name found in the context. */
  lemma PersonAnswerQuotesFirst(context: string, f: Finders, k: nat)
    requires f.names(context) != []
    requires FirstPassing(Split(context), Test(f.names(context), false, true), k)
    ensures PersonAnswer(context, f) == QuotePrefix + Strip(Split(context)[k])
  {
    FirstPickQuotesFirstPassing(Split(context), Test(f.names(context), false, true), context, k);
  }

  /** The location answer falls back when no long piece has a location word. */
  lemma LocationFallsBack(context: string)
    ensures (forall j :: 0 <= j < |Split(context)| ==> !Passes(Test(LocationWords, true, true), Split(context)[j]))
      ==> LocationAnswer(context) == Fallback(context)
  {
    PickedNonEmpty(Split(context), Test(LocationWords, true, true));
  }

  /** The reason answer falls back when no long piece has a reason phrase. */
  lemma ReasonFallsBack(context: string)
    ensures (forall j :: 0 <= j < |Split(context)| ==> !Passes(Test(ReasonWords, true, true), Split(context)[j]))
      ==> ReasonAnswer(context) == Fallback(context)
  {
    PickedNonEmpty(Split(context), Test(ReasonWords, true, true));
  }

  /** The process answer falls back when no long piece has a process word. */
  lemma ProcessFallsBack(context: string)
    ensures (forall j :: 0 <= j < |Split(context)| ==> !Passes(Test(ProcessWords, true, true), Split(context)[j]))
      ==> ProcessAnswer(context) == Fallback(context)
  {
    PickedNonEmpty(Split(context), Test(ProcessWords, true, true));
  }

  // ----- Key terms and scores -----

  /** The key terms of the general strategy: question words longer than three characters. */
  function GeneralTerms(words: seq<string>): (terms: seq<string>)
    ensures forall w :: w in terms <==> w in words && |w| > 3
    decreases |words|
  {
    if words == [] then []
    else
      var w := words[|words| - 1];
      var init := words[..|words| - 1];
      SplitLast(words);
      GeneralTerms(init) + (if |w| > 3 then [w] else [])
  }

  /** The words the definition strategy never takes as key terms. */
  const DefinitionStopWords := ["what", "define", "definition"]

  /** The key terms of the definition strategy: longer than three characters and not a stop word. */
  function DefinitionTerms(words: seq<string>): (terms: seq<string>)
    ensures forall w :: w in terms <==> w in words && |w| > 3 && w !in DefinitionStopWords
    decreases |words|
  {
    if words == [] then []
    else
      var w := words[|words| - 1];
      var init := words[..|words| - 1];
      SplitLast(words);
      DefinitionTerms(init) + (if |w| > 3 && w !in DefinitionStopWords then [w] else [])
  }

  /**
   * The general key terms are the question words longer than three characters, in the
   * order found and each as often as it was found.
   */
  lemma {:induction false} GeneralTermsFilter(words: seq<string>)
    ensures IsSubsequence(GeneralTerms(words), words)
    ensures forall w :: multiset(GeneralTerms(words))[w] == if |w| > 3 then multiset(words)[w] else 0
    decreases |words|
  {
    if words != [] {
      var w := words[|words| - 1];
      var init := words[..|words| - 1];
      GeneralTermsFilter(init);
      var r := GeneralTerms(init);
      var x := if |w| > 3 then [w] else [];
      SplitLast(words);
      SubsequenceExtend(r, init, w, |w| > 3);
      assert GeneralTerms(words) == r + x;
      assert multiset(r + x) == multiset(r) + multiset(x);
      assert multiset(words) == multiset(init) + multiset{w};
    }
  }

  /**
   * The definition key terms are the question words longer than three characters that are
   * not stop words, in the order found and each as often as it was found.
   */
  lemma {:induction false} DefinitionTermsFilter(words: seq<string>)
    ensures IsSubsequence(DefinitionTerms(words), words)
    ensures forall w :: multiset(DefinitionTerms(words))[w]
                        == if |w| > 3 && w !in DefinitionStopWords then multiset(words)[w] else 0
    decreases |words|
  {
    if words != [] {
      var w := words[|words| - 1];
      var init := words[..|words| - 1];
      DefinitionTermsFilter(init);
      var r := DefinitionTerms(init);
      var x := if |w| > 3 && w !in DefinitionStopWords then [w] else [];
      SplitLast(words);
      SubsequenceExtend(r, init, w, |w| > 3 && w !in DefinitionStopWords);
      assert DefinitionTerms(words) == r + x;
      assert multiset(r + x) == multiset(r) + multiset(x);
      assert multiset(words) == multiset(init) + multiset{w};
    }
  }

  /** `sum(1 for term in terms if term in sentence_lower)`: repeated terms count again. */
  function Score(sentenceLower: string, terms: seq<string>): (n: nat)
    ensures n <= |terms|
    decreases |terms|
  {
    if terms == [] then 0
    else Score(sentenceLower, terms[..|terms| - 1]) + (if Contains(sentenceLower, terms[|terms| - 1]) then 1 else 0)
  }

  /** A sentence scores 0 exactly when it contains none of the terms. */
  lemma {:induction false} ScoreZero(sentenceLower: string, terms: seq<string>)
    ensures Score(sentenceLower, terms) == 0 <==> forall k :: 0 <= k < |terms| ==> !Contains(sentenceLower, terms[k])
    decreases |terms|
  {
    if terms != [] {
      var init := terms[..|terms| - 1];
      ScoreZero(sentenceLower, init);
      assert forall k :: 0 <= k < |init| ==> init[k] == terms[k];
    }
  }

  /** Both scoring strategies skip stripped pieces shorter than 20 characters. */
  predicate Eligible(piece: string) {
    |Strip(piece)| >= 20
  }

  function ScoreOf(piece: string, terms: seq<string>): nat {
    Score(Lower(Strip(piece)), terms)
  }

  // ----- Definition -----

  /** The definition loop's state: the best sentence so far and its score. */
  datatype Best = Best(sentence: string, matches: nat)

  /** The definition loop: a piece replaces the best one only with a strictly higher score. */
  function DefinitionScan(pieces: seq<string>, terms: seq<string>): Best
    decreases |pieces|
  {
    if pieces == [] then Best("", 0)
    else
      var st := DefinitionScan(pieces[..|pieces| - 1], terms);
      var p := pieces[|pieces| - 1];
      if !Eligible(p) then st
      else
        var m := ScoreOf(p, terms);
        if m > st.matches then Best(Strip(p), m) else st
  }

  /** The definition loop over one more piece. */
  lemma DefinitionScanStep(pieces: seq<string>, terms: seq<string>, i: nat)
    requires i < |pieces|
    ensures var st := DefinitionScan(pieces[..i], terms);
      var s := Strip(pieces[i]);
      DefinitionScan(pieces[..i + 1], terms)
      == if |s| < 20 then st
         else if Score(Lower(s), terms) > st.matches then Best(s, Score(Lower(s), terms))
         else st
  {
    assert pieces[..i + 1][..i] == pieces[..i];
  }

  /** The definition loop's last step, in terms of the last piece. */
  lemma DefinitionScanLast(pieces: seq<string>, terms: seq<string>)
    requires pieces != []
    ensures var p := pieces[|pieces| - 1];
      var st := DefinitionScan(pieces[..|pieces| - 1], terms);
      DefinitionScan(pieces, terms)
      == if Eligible(p) && ScoreOf(p, terms) > st.matches then Best(Strip(p), ScoreOf(p, terms)) else st
  {
  }

  /** No eligible piece scores above the kept one, and a sentence is kept exactly when its score is positive. */
  lemma {:induction false} DefinitionScanBound(pieces: seq<string>, terms: seq<string>)
    ensures var st := DefinitionScan(pieces, terms);
      && (st.sentence == "" <==> st.matches == 0)
      && (forall j :: 0 <= j < |pieces| && Eligible(pieces[j]) ==> ScoreOf(pieces[j], terms) <= st.matches)
    decreases |pieces|
  {
    if pieces != [] {
      var init := pieces[..|pieces| - 1];
      var p := pieces[|pieces| - 1];
      DefinitionScanBound(init, terms);
      DefinitionScanLast(pieces, terms);
      var st0 := DefinitionScan(init, terms);
      var st := DefinitionScan(pieces, terms);
      assert st0.matches <= st.matches;
      var m := ScoreOf(p, terms);
      var e := Eligible(p);
      if e && m > st0.matches {
        assert st.matches == m;
        assert |st.sentence| >= 20;
      } else {
        assert st == st0;
      }
      assert e ==> m <= st.matches;
      forall j | 0 <= j < |pieces| && Eligible(pieces[j]) ensures ScoreOf(pieces[j], terms) <= st.matches {
        if j < |init| {
          assert init[j] == pieces[j];
        } else {
          assert j == |pieces| - 1;
        }
      }
    }
  }

  /** Piece `k` is the one the definition loop keeps: eligible, scoring the kept score, and strictly above every eligible piece before it. */
  predicate IsWinner(pieces: seq<string>, terms: seq<string>, k: nat) {
    var st := DefinitionScan(pieces, terms);
    && k < |pieces| && Eligible(pieces[k]) && st.sentence == Strip(pieces[k])
    && ScoreOf(pieces[k], terms) == st.matches
    && forall j :: 0 <= j < k && Eligible(pieces[j]) ==> ScoreOf(pieces[j], terms) < st.matches
  }

  /** The last piece wins when it beats the loop's state over the pieces before it. */
  lemma WinnerIsLast(pieces: seq<string>, terms: seq<string>)
    requires pieces != []
    requires var p := pieces[|pieces| - 1];
      Eligible(p) && ScoreOf(p, terms) > DefinitionScan(pieces[..|pieces| - 1], terms).matches
    ensures IsWinner(pieces, terms, |pieces| - 1)
  {
    var init := pieces[..|pieces| - 1];
    var p := pieces[|pieces| - 1];
    DefinitionScanLast(pieces, terms);
    DefinitionScanBound(init, terms);
    forall j | 0 <= j < |init| && Eligible(pieces[j]) ensures ScoreOf(pieces[j], terms) < ScoreOf(p, terms) {
      assert init[j] == pieces[j];
    }
  }

  /** Otherwise the winner among the earlier pieces stays the winner. */
  lemma WinnerStays(pieces: seq<string>, terms: seq<string>, k: nat)
    requires pieces != []
    requires var p := pieces[|pieces| - 1];
      !(Eligible(p) && ScoreOf(p, terms) > DefinitionScan(pieces[..|pieces| - 1], terms).matches)
    requires IsWinner(pieces[..|pieces| - 1], terms, k)
    ensures IsWinner(pieces, terms, k)
  {
    var init := pieces[..|pieces| - 1];
    DefinitionScanLast(pieces, terms);
    assert DefinitionScan(pieces, terms) == DefinitionScan(init, terms);
    assert init[k] == pieces[k];
    forall j | 0 <= j < k ensures init[j] == pieces[j] {
    }
  }

  /**
   * The definition loop keeps the earliest eligible piece with the strictly highest
   * score, and keeps nothing when every eligible piece scores 0.
   */
  lemma {:induction false} DefinitionScanWinner(pieces: seq<string>, terms: seq<string>) returns (k: nat)
    requires DefinitionScan(pieces, terms).matches > 0
    ensures IsWinner(pieces, terms, k)
    decreases |pieces|
  {
    var init := pieces[..|pieces| - 1];
    var p := pieces[|pieces| - 1];
    DefinitionScanLast(pieces, terms);
    if Eligible(p) && ScoreOf(p, terms) > DefinitionScan(init, terms).matches {
      k := |pieces| - 1;
      WinnerIsLast(pieces, terms);
    } else {
      k := DefinitionScanWinner(init, terms);
      WinnerStays(pieces, terms, k);
    }
  }

  /** `_extract_definition`'s answer for the pieces of `context`. */
  function DefinitionAnswer(question: string, context: string, f: Finders): string {
    var st := DefinitionScan(Split(context), DefinitionTerms(f.words(Lower(question))));
    if st.sentence != "" then DefinitionPrefix + st.sentence else DefinitionFallback(context)
  }

  /** Piece `k` is eligible, scores above 0, scores highest, and is the earliest to score that. */
  predicate IsBest(pieces: seq<string>, terms: seq<string>, k: nat) {
    && k < |pieces| && Eligible(pieces[k]) && ScoreOf(pieces[k], terms) > 0
    && (forall j :: 0 <= j < |pieces| && Eligible(pieces[j]) ==> ScoreOf(pieces[j], terms) <= ScoreOf(pieces[k], terms))
    && (forall j :: 0 <= j < k && Eligible(pieces[j]) ==> ScoreOf(pieces[j], terms) < ScoreOf(pieces[k], terms))
  }

  /** The definition loop keeps the best piece. */
  lemma DefinitionScanKeepsBest(pieces: seq<string>, terms: seq<string>, k: nat)
    requires IsBest(pieces, terms, k)
    ensures DefinitionScan(pieces, terms).sentence == Strip(pieces[k])
  {
    var st := DefinitionScan(pieces, terms);
    DefinitionScanBound(pieces, terms);
    var w := DefinitionScanWinner(pieces, terms);
    assert ScoreOf(pieces[k], terms) == st.matches;
    assert w == k;
  }

  /** No eligible piece contains a key term. */
  predicate NoneScores(pieces: seq<string>, terms: seq<string>) {
    forall j :: 0 <= j < |pieces| && Eligible(pieces[j]) ==> ScoreOf(pieces[j], terms) == 0
  }

  /** The definition loop keeps nothing when no eligible piece contains a key term. */
  lemma DefinitionScanKeepsNothing(pieces: seq<string>, terms: seq<string>)
    requires NoneScores(pieces, terms)
    ensures DefinitionScan(pieces, terms).sentence == ""
  {
    var st := DefinitionScan(pieces, terms);
    DefinitionScanBound(pieces, terms);
    if st.matches > 0 {
      var w := DefinitionScanWinner(pieces, terms);
    }
  }

  /** The definition answer quotes the best piece of the context. */
  lemma DefinitionAnswerQuotesBest(question: string, context: string, f: Finders, k: nat)
    requires IsBest(Split(context), DefinitionTerms(f.words(Lower(question))), k)
    ensures DefinitionAnswer(question, context, f) == DefinitionPrefix + Strip(Split(context)[k])
  {
    DefinitionScanKeepsBest(Split(context), DefinitionTerms(f.words(Lower(question))), k);
  }

  /** The definition answer falls back when no eligible piece contains a key term. */
  lemma DefinitionAnswerFallsBack(question: string, context: string, f: Finders)
    requires NoneScores(Split(context), DefinitionTerms(f.words(Lower(question))))
    ensures DefinitionAnswer(question, context, f) == DefinitionFallback(context)
  {
    var pieces := Split(context);
    var terms := DefinitionTerms(f.words(Lower(question)));
    DefinitionScanKeepsNothing(pieces, terms);
    assert DefinitionScan(pieces, terms).sentence == "";
  }

  /** `_extract_definition` */
  method ExtractDefinition(question: string, context: string, f: Finders) returns (answer: string)
    ensures answer == DefinitionAnswer(question, context, f)
  {
    var sentences := Split(context);
    var keyTerms := DefinitionTerms(f.words(Lower(question)));
    var bestSentence := "";
    var maxMatches := 0;
    for i := 0 to |sentences|
      invariant Best(bestSentence, maxMatches) == DefinitionScan(sentences[..i], keyTerms)
    {
      DefinitionScanStep(sentences, keyTerms, i);
      var sentence := Strip(sentences[i]);
      if |sentence| < 20 {
        continue;
      }
      var matches := Score(Lower(sentence), keyTerms);
      if matches > maxMatches {
        maxMatches := matches;
        bestSentence := sentence;
      }
    }
    assert sentences[..|sentences|] == sentences;
    if bestSentence != "" {
      answer := DefinitionPrefix + bestSentence;
    } else {
      answer := DefinitionFallback(context);
    }
  }

  // ----- General -----

  /** A sentence and its score. */
  datatype Scored = Scored(sentence: string, score: nat)

  /** The general loop: the eligible stripped pieces with a positive score, in order. */
  function ScoredSentences(pieces: seq<string>, terms: seq<string>): (r: seq<Scored>)
    ensures forall k :: 0 <= k < |r| ==> r[k].score > 0
    decreases |pieces|
  {
    if pieces == [] then []
    else
      var p := pieces[|pieces| - 1];
      var prev := ScoredSentences(pieces[..|pieces| - 1], terms);
      if Eligible(p) && ScoreOf(p, terms) > 0 then prev + [Scored(Strip(p), ScoreOf(p, terms))] else prev
  }

  /** The general loop over one more piece. */
  lemma ScoredSentencesStep(pieces: seq<string>, terms: seq<string>, i: nat)
    requires i < |pieces|
    ensures var prev := ScoredSentences(pieces[..i], terms);
      var s := Strip(pieces[i]);
      ScoredSentences(pieces[..i + 1], terms)
      == if |s| < 20 || Score(Lower(s), terms) == 0 then prev else prev + [Scored(s, Score(Lower(s), terms))]
  {
    assert pieces[..i + 1][..i] == pieces[..i];
  }

  /** Highest score first. */
  predicate ByScoreDescending(xs: seq<Scored>) {
    forall j, k :: 0 <= j < k < |xs| ==> xs[j].score >= xs[k].score
  }

  /** Inserts `x` after every element scoring at least as much. */
  function InsertByScore(sorted: seq<Scored>, x: Scored): seq<Scored>
    decreases |sorted|
  {
    if sorted == [] || sorted[|sorted| - 1].score >= x.score then sorted + [x]
    else InsertByScore(sorted[..|sorted| - 1], x) + [sorted[|sorted| - 1]]
  }

  /** `list.sort(key=score, reverse=True)`: a stable sort, highest score first. */
  function SortByScore(xs: seq<Scored>): seq<Scored>
    decreases |xs|
  {
    if xs == [] then [] else InsertByScore(SortByScore(xs[..|xs| - 1]), xs[|xs| - 1])
  }

  /** The elements with score `v`, in order. */
  function WithScore(xs: seq<Scored>, v: nat): seq<Scored>
    decreases |xs|
  {
    if xs == [] then []
    else WithScore(xs[..|xs| - 1], v) + (if xs[|xs| - 1].score == v then [xs[|xs| - 1]] else [])
  }

  lemma {:induction false} InsertByScorePermutes(sorted: seq<Scored>, x: Scored)
    ensures multiset(InsertByScore(sorted, x)) == multiset(sorted) + multiset{x}
    decreases |sorted|
  {
    if !(sorted == [] || sorted[|sorted| - 1].score >= x.score) {
      InsertByScorePermutes(sorted[..|sorted| - 1], x);
      SplitLast(sorted);
    }
  }

  /** Appending a score no higher than any before it keeps the order. */
  lemma DescendingAppend(a: seq<Scored>, y: Scored)
    requires ByScoreDescending(a) && forall k :: 0 <= k < |a| ==> a[k].score >= y.score
    ensures ByScoreDescending(a + [y])
  {
    var b := a + [y];
    forall j, k | 0 <= j < k < |b| ensures b[j].score >= b[k].score {
      assert b[j] == a[j];
    }
  }

  lemma {:induction false} InsertByScoreSorted(sorted: seq<Scored>, x: Scored)
    requires ByScoreDescending(sorted)
    ensures ByScoreDescending(InsertByScore(sorted, x))
    decreases |sorted|
  {
    if sorted == [] || sorted[|sorted| - 1].score >= x.score {
      DescendingAppend(sorted, x);
    } else {
      var init := sorted[..|sorted| - 1];
      var last := sorted[|sorted| - 1];
      InsertByScoreSorted(init, x);
      var a := InsertByScore(init, x);
      InsertByScorePermutes(init, x);
      forall k | 0 <= k < |a| ensures a[k].score >= last.score {
        assert a[k] in multiset(a);
        if a[k] != x {
          var i :| 0 <= i < |init| && init[i] == a[k];
        }
      }
      DescendingAppend(a, last);
    }
  }

  lemma WithScoreAppend(xs: seq<Scored>, ys: seq<Scored>, v: nat)
    ensures WithScore(xs + ys, v) == WithScore(xs, v) + WithScore(ys, v)
    decreases |ys|
  {
    if ys == [] {
      assert xs + ys == xs;
    } else {
      assert (xs + ys)[..|xs + ys| - 1] == xs + ys[..|ys| - 1];
      WithScoreAppend(xs, ys[..|ys| - 1], v);
    }
  }

  /** One element has the score or not. */
  lemma WithScoreOne(y: Scored, v: nat)
    ensures WithScore([y], v) == if y.score == v then [y] else []
  {
    assert [y][..0] == [];
  }

  /** Inserting `x` adds it at the end of the elements with its score and moves no other. */
  lemma {:induction false} InsertByScoreStable(sorted: seq<Scored>, x: Scored, v: nat)
    ensures WithScore(InsertByScore(sorted, x), v) == WithScore(sorted, v) + (if x.score == v then [x] else [])
    decreases |sorted|
  {
    WithScoreOne(x, v);
    if sorted == [] || sorted[|sorted| - 1].score >= x.score {
      WithScoreAppend(sorted, [x], v);
    } else {
      var init := sorted[..|sorted| - 1];
      var last := sorted[|sorted| - 1];
      var a := InsertByScore(init, x);
      var xs := if x.score == v then [x] else [];
      var ls := if last.score == v then [last] else [];
      InsertByScoreStable(init, x, v);
      assert InsertByScore(sorted, x) == a + [last];
      WithScoreOne(last, v);
      WithScoreAppend(a, [last], v);
      assert WithScore(sorted, v) == WithScore(init, v) + ls;
      AppendSwap(WithScore(init, v), xs, ls);
    }
  }

  /**
   * The sort orders by descending score, permutes its input, and is stable: for every
   * score, the elements with that score keep their relative order.
   */
  lemma {:induction false} SortByScoreCorrect(xs: seq<Scored>)
    ensures ByScoreDescending(SortByScore(xs))
    ensures multiset(SortByScore(xs)) == multiset(xs)
    ensures forall v :: WithScore(SortByScore(xs), v) == WithScore(xs, v)
    decreases |xs|
  {
    if xs != [] {
      var init := xs[..|xs| - 1];
      var x := xs[|xs| - 1];
      SortByScoreCorrect(init);
      InsertByScoreSorted(SortByScore(init), x);
      InsertByScorePermutes(SortByScore(init), x);
      SplitLast(xs);
      forall v ensures WithScore(SortByScore(xs), v) == WithScore(xs, v) {
        InsertByScoreStable(SortByScore(init), x, v);
      }
    }
  }

  /** The sentences of scored pairs, in order. */
  function ScoredTexts(xs: seq<Scored>): seq<string> {
    MapSeq(xs, (x: Scored) => x.sentence)
  }

  /** After the sort, the first sentence scores at least as much as every scored sentence. */
  lemma SortByScoreFirstIsBest(xs: seq<Scored>)
    requires xs != []
    ensures SortByScore(xs) != [] && forall k :: 0 <= k < |xs| ==> xs[k].score <= SortByScore(xs)[0].score
  {
    var sorted := SortByScore(xs);
    SortByScoreCorrect(xs);
    assert xs[0] in multiset(sorted);
    forall k | 0 <= k < |xs| ensures xs[k].score <= sorted[0].score {
      assert xs[k] in multiset(sorted);
      var i :| 0 <= i < |sorted| && sorted[i] == xs[k];
    }
  }

  /** `_extract_general_answer`'s answer: the two best-scoring sentences joined by `". "`. */
  function GeneralAnswer(question: string, context: string, f: Finders): string {
    var scored := SortByScore(ScoredSentences(Split(context), GeneralTerms(f.words(Lower(question)))));
    if scored != [] then QuotePrefix + Join(ScoredTexts(if |scored| <= 2 then scored else scored[..2]), ". ")
    else Fallback(context)
  }

  /** `_extract_general_answer` */
  method ExtractGeneralAnswer(question: string, context: string, f: Finders) returns (answer: string)
    ensures answer == GeneralAnswer(question, context, f)
  {
    var keyTerms := GeneralTerms(f.words(Lower(question)));
    var sentences := Split(context);
    var scoredSentences := [];
    for i := 0 to |sentences|
      invariant scoredSentences == ScoredSentences(sentences[..i], keyTerms)
    {
      ScoredSentencesStep(sentences, keyTerms, i);
      var sentence := Strip(sentences[i]);
      if |sentence| < 20 {
        continue;
      }
      var score := Score(Lower(sentence), keyTerms);
      if score > 0 {
        scoredSentences := scoredSentences + [Scored(sentence, score)];
      }
    }
    assert sentences[..|sentences|] == sentences;
    scoredSentences := SortByScore(scoredSentences);
    if scoredSentences != [] {
      var best := if |scoredSentences| <= 2 then scoredSentences else scoredSentences[..2];
      answer := QuotePrefix + Join(ScoredTexts(best), ". ");
    } else {
      answer := Fallback(context);
    }
  }

  // ----- The token patterns as written -----

  /**
   * The finders as written: each pattern starts with an escaped backslash (`\\b`) and so
   * matches only text holding a backslash.
   */
  ghost predicate AsWrittenFinders(f: Finders) {
    && (forall s: string :: '\\' !in s ==> f.words(s) == [])
    && (forall s: string :: '\\' !in s ==> f.numbers(s) == [])
    && (forall s: string :: '\\' !in s ==> f.dates(s) == [])
    && (forall s: string :: '\\' !in s ==> f.names(s) == [])
  }

  /** With no key terms, the general loop scores nothing. */
  lemma {:induction false} ScoredSentencesNoTerms(pieces: seq<string>)
    ensures ScoredSentences(pieces, []) == []
    decreases |pieces|
  {
    if pieces != [] {
      ScoredSentencesNoTerms(pieces[..|pieces| - 1]);
    }
  }

  /**
   * With the finders as written, a question and context without backslashes get the
   * fallback from every strategy that depends on a finder.
   */
  lemma LiteralPatternsFallBack(question: string, context: string, f: Finders)
    requires AsWrittenFinders(f) && '\\' !in question && '\\' !in context
    ensures DefinitionAnswer(question, context, f) == DefinitionFallback(context)
    ensures QuantityAnswer(context, f) == Fallback(context)
    ensures DateAnswer(context, f) == Fallback(context)
    ensures PersonAnswer(context, f) == Fallback(context)
    ensures GeneralAnswer(question, context, f) == Fallback(context)
  {
    var q := Lower(question);
    assert '\\' !in q by {
      forall i | 0 <= i < |q| ensures q[i] != '\\' {
        assert q[i] == LowerChar(question[i]);
      }
    }
    DefinitionNoWords(question, context, f);
    GeneralNoWords(question, context, f);
  }

  /** When the word finder finds nothing in the question, the definition answer falls back. */
  lemma DefinitionNoWords(question: string, context: string, f: Finders)
    requires f.words(Lower(question)) == []
    ensures DefinitionAnswer(question, context, f) == DefinitionFallback(context)
  {
    var pieces := Split(context);
    assert NoneScores(pieces, DefinitionTerms([]));
    DefinitionScanKeepsNothing(pieces, DefinitionTerms([]));
  }

  /** When the word finder finds nothing in the question, the general answer falls back. */
  lemma GeneralNoWords(question: string, context: string, f: Finders)
    requires f.words(Lower(question)) == []
    ensures GeneralAnswer(question, context, f) == Fallback(context)
  {
    ScoredSentencesNoTerms(Split(context));
  }

  // ----- Dispatch -----

  /** The strategy `_generate_answer` runs for a question with a cue phrase. */
  function CuedAnswer(intent: Intent, question: string, context: string, f: Finders): string
    requires intent != General
  {
    match intent
    case Definition => DefinitionAnswer(question, context, f)
    case Quantity => QuantityAnswer(context, f)
    case Date => DateAnswer(context, f)
    case Location => LocationAnswer(context)
    case Person => PersonAnswer(context, f)
    case Reason => ReasonAnswer(context)
    case Process => ProcessAnswer(context)
  }

  /** `_generate_answer` on the joined context text: the strategy of the question's intent. */
  function Synthesize(question: string, context: string, f: Finders): string {
    var intent := Classify(Lower(question));
    if intent == General then GeneralAnswer(question, context, f) else CuedAnswer(intent, question, context, f)
  }

  // ----- Answers quote the context -----

  /** `r` quotes one to three stripped pieces of `context`, joined by `". "`, after one of the two answer prefixes. */
  ghost predicate QuotesPieces(r: string, context: string) {
    exists ps: seq<string> ::
      && 1 <= |ps| <= 3
      && (forall k :: 0 <= k < |ps| ==> ps[k] in StripAll(Split(context)))
      && (r == QuotePrefix + Join(ps, ". ") || r == DefinitionPrefix + Join(ps, ". "))
  }

  /** An answer is grounded when it is one of the two fallbacks or quotes pieces of the context. */
  ghost predicate Grounded(r: string, context: string) {
    r == Fallback(context) || r == DefinitionFallback(context) || QuotesPieces(r, context)
  }

  lemma QuoteOne(x: string, context: string, prefix: string)
    requires x in StripAll(Split(context)) && (prefix == QuotePrefix || prefix == DefinitionPrefix)
    ensures QuotesPieces(prefix + x, context)
  {
    assert Join([x], ". ") == x;
    QuoteSome([x], context, prefix);
  }

  /** A quoted first pick is a piece of the context. */
  lemma FirstPickQuotes(pieces: seq<string>, t: Test, context: string)
    requires pieces == Split(context)
    ensures Grounded(FirstPick(Picked(pieces, t), context), context)
  {
    var picked := Picked(pieces, t);
    if picked != [] {
      PickedAreStrippedPieces(pieces, t);
      QuoteOne(picked[0], context, QuotePrefix);
    }
  }

  /** The general loop keeps stripped pieces. */
  lemma {:induction false} ScoredSentencesArePieces(pieces: seq<string>, terms: seq<string>)
    ensures forall x :: x in ScoredSentences(pieces, terms) ==> x.sentence in StripAll(pieces)
    decreases |pieces|
  {
    if pieces != [] {
      var init := pieces[..|pieces| - 1];
      var p := pieces[|pieces| - 1];
      SplitLast(pieces);
      ScoredSentencesArePieces(init, terms);
      StripAllAppend(init, p);
      assert ScoredSentences(pieces, terms) == ScoredSentences(init, terms)
        || ScoredSentences(pieces, terms) == ScoredSentences(init, terms) + [Scored(Strip(p), ScoreOf(p, terms))];
    }
  }

  /** A kept definition sentence is a stripped piece of the context. */
  lemma DefinitionQuotes(question: string, context: string, f: Finders)
    ensures Grounded(DefinitionAnswer(question, context, f), context)
  {
    var pieces := Split(context);
    var terms := DefinitionTerms(f.words(Lower(question)));
    var st := DefinitionScan(pieces, terms);
    DefinitionScanBound(pieces, terms);
    if st.sentence != "" {
      var k := DefinitionScanWinner(pieces, terms);
      assert StripAll(pieces)[k] == st.sentence;
      QuoteOne(st.sentence, context, DefinitionPrefix);
    }
  }

  /** One to three pieces of the context, joined after a prefix, quote the context. */
  lemma QuoteSome(ps: seq<string>, context: string, prefix: string)
    requires 1 <= |ps| <= 3 && forall k :: 0 <= k < |ps| ==> ps[k] in StripAll(Split(context))
    requires prefix == QuotePrefix || prefix == DefinitionPrefix
    ensures QuotesPieces(prefix + Join(ps, ". "), context)
  {
  }

  /** Up to three picks, joined after the answer prefix, quote the context. */
  lemma FirstPicksQuote(pieces: seq<string>, t: Test, context: string)
    requires pieces == Split(context)
    ensures var picked := Picked(pieces, t);
      picked != [] ==> QuotesPieces(QuotePrefix + Join(if |picked| <= 3 then picked else picked[..3], ". "), context)
  {
    var picked := Picked(pieces, t);
    if picked != [] {
      PickedAreStrippedPieces(pieces, t);
      var ps := if |picked| <= 3 then picked else picked[..3];
      assert forall k :: 0 <= k < |ps| ==> ps[k] in picked;
      QuoteSome(ps, context, QuotePrefix);
    }
  }

  /** The process answer quotes up to three picks, all pieces of the context. */
  lemma ProcessQuotes(context: string)
    ensures Grounded(ProcessAnswer(context), context)
  {
    FirstPicksQuote(Split(context), Test(ProcessWords, true, true), context);
  }

  /** Sorting by score keeps the sentences it was given. */
  lemma SortByScoreKeepsSentences(scored: seq<Scored>, all: seq<string>)
    requires forall x :: x in scored ==> x.sentence in all
    ensures forall x :: x in SortByScore(scored) ==> x.sentence in all
  {
    SortByScoreCorrect(scored);
    forall x | x in SortByScore(scored) ensures x.sentence in all {
      assert x in multiset(SortByScore(scored));
    }
  }

  /** The first one or two of some scored pieces of the context, quoted, quote the context. */
  lemma TopQuotes(sorted: seq<Scored>, context: string)
    requires sorted != [] && forall x :: x in sorted ==> x.sentence in StripAll(Split(context))
    ensures QuotesPieces(QuotePrefix + Join(ScoredTexts(if |sorted| <= 2 then sorted else sorted[..2]), ". "), context)
  {
    var top := if |sorted| <= 2 then sorted else sorted[..2];
    var ps := ScoredTexts(top);
    forall k | 0 <= k < |ps| ensures ps[k] in StripAll(Split(context)) {
      assert top[k] in sorted;
    }
    QuoteSome(ps, context, QuotePrefix);
  }

  /** The two best-scoring sentences are pieces of the context. */
  lemma RankedQuotes(context: string, terms: seq<string>)
    ensures var sorted := SortByScore(ScoredSentences(Split(context), terms));
      sorted != [] ==> QuotesPieces(QuotePrefix + Join(ScoredTexts(if |sorted| <= 2 then sorted else sorted[..2]), ". "), context)
  {
    var pieces := Split(context);
    var scored := ScoredSentences(pieces, terms);
    if SortByScore(scored) != [] {
      ScoredSentencesArePieces(pieces, terms);
      SortByScoreKeepsSentences(scored, StripAll(pieces));
      TopQuotes(SortByScore(scored), context);
    }
  }

  /** The general answer quotes up to two scored sentences, all pieces of the context. */
  lemma GeneralQuotes(question: string, context: string, f: Finders)
    ensures Grounded(GeneralAnswer(question, context, f), context)
  {
    RankedQuotes(context, GeneralTerms(f.words(Lower(question))));
  }

  /** The location answer quotes a piece of the context or falls back. */
  lemma LocationQuotes(context: string)
    ensures Grounded(LocationAnswer(context), context)
  {
    FirstPickQuotes(Split(context), Test(LocationWords, true, true), context);
  }

  /** The reason answer quotes a piece of the context or falls back. */
  lemma ReasonQuotes(context: string)
    ensures Grounded(ReasonAnswer(context), context)
  {
    FirstPickQuotes(Split(context), Test(ReasonWords, true, true), context);
  }

  /** The quantity answer quotes a piece of the context or falls back. */
  lemma QuantityQuotes(context: string, f: Finders)
    ensures Grounded(QuantityAnswer(context, f), context)
  {
    if f.numbers(context) != [] {
      FirstPickQuotes(Split(context), Test(f.numbers(context), false, false), context);
    }
  }

  /** The date answer quotes a piece of the context or falls back. */
  lemma DateQuotes(context: string, f: Finders)
    ensures Grounded(DateAnswer(context, f), context)
  {
    if f.dates(context) != [] {
      FirstPickQuotes(Split(context), Test(f.dates(context), false, false), context);
    }
  }

  /** The person answer quotes a piece of the context or falls back. */
  lemma PersonQuotes(context: string, f: Finders)
    ensures Grounded(PersonAnswer(context, f), context)
  {
    if f.names(context) != [] {
      FirstPickQuotes(Split(context), Test(f.names(context), false, true), context);
    }
  }

  /**
   * Whatever the cued intent, the answer is a fallback, or quotes one to three stripped
   * pieces of the context split on runs of `.`, `!` and `?`.
   */
  lemma CuedAnswerQuotesContext(intent: Intent, question: string, context: string, f: Finders)
    requires intent != General
    ensures Grounded(CuedAnswer(intent, question, context, f), context)
  {
    var r := CuedAnswer(intent, question, context, f);
    match intent
    case Definition =>
      DefinitionQuotes(question, context, f);
      assert r == DefinitionAnswer(question, context, f);
    case Quantity =>
      QuantityQuotes(context, f);
      assert r == QuantityAnswer(context, f);
    case Date =>
      DateQuotes(context, f);
      assert r == DateAnswer(context, f);
    case Location =>
      LocationQuotes(context);
      assert r == LocationAnswer(context);
    case Person =>
      PersonQuotes(context, f);
      assert r == PersonAnswer(context, f);
    case Reason =>
      ReasonQuotes(context);
      assert r == ReasonAnswer(context);
    case Process =>
      ProcessQuotes(context);
      assert r == ProcessAnswer(context);
  }

  /** Every answer `_generate_answer` gives is a fallback or quotes pieces of the context. */
  lemma SynthesizeQuotesContext(question: string, context: string, f: Finders)
    ensures Grounded(Synthesize(question, context, f), context)
  {
    var intent := Classify(Lower(question));
    if intent == General {
      GeneralQuotes(question, context, f);
    } else {
      CuedAnswerQuotesContext(intent, question, context, f);
    }
  }
}
