/**
 * The keyword signal classifier of classifier.py: the input is lowercased and
 * tested against three keyword lists in a fixed priority order; the first list
 * with a keyword occurring as a substring decides the label.
 */
module Classifier {

  /** The four labels the classifier can return. */
  const Labels: set<string> := {"uncertain", "stressed", "positive", "neutral"}

  const UncertainWords: seq<string> := ["maybe", "not sure", "unsure", "confused", "?"]
  const StressedWords: seq<string> := ["angry", "frustrated", "upset", "stressed"]
  const PositiveWords: seq<string> := ["thank", "great", "happy", "awesome", "good"]

  // ---------------------------------------------------------------------------
  // Lowercasing (ASCII only)
  // ---------------------------------------------------------------------------

  /** Lowercase of one character: 'A'..'Z' map to 'a'..'z', everything else is kept. */
  function LowerChar(c: char): (d: char)
    ensures 'A' <= c <= 'Z' ==> 'a' <= d <= 'z' && d as int - c as int == 'a' as int - 'A' as int
    ensures !('A' <= c <= 'Z') ==> d == c
  {
    if 'A' <= c <= 'Z' then (c as int - 'A' as int + 'a' as int) as char else c
  }

  function Lower(s: string): (r: string)
    ensures |r| == |s|
    ensures forall i :: 0 <= i < |s| ==> r[i] == LowerChar(s[i])
  {
    if s == [] then [] else [LowerChar(s[0])] + Lower(s[1..])
  }

  /** Lowercasing twice is lowercasing once. */
  lemma LowerIdempotent(s: string)
    ensures Lower(Lower(s)) == Lower(s)
  {
  }

  // ---------------------------------------------------------------------------
  // Substring test, Python's `word in text`
  // ---------------------------------------------------------------------------

  ghost predicate OccursAt(text: string, word: string, i: int) {
    0 <= i && i + |word| <= |text| && text[i..i + |word|] == word
  }

  /** Reference definition: `word` occurs somewhere in `text`. */
  ghost predicate IsSubstring(word: string, text: string) {
    exists i :: OccursAt(text, word, i)
  }

  /** Executable substring test: try every start position from the left. */
  function Contains(text: string, word: string): bool
    decreases |text|
  {
    if |word| > |text| then false
    else if text[..|word|] == word then true
    else Contains(text[1..], word)
  }

  lemma {:induction false} ContainsCorrect(text: string, word: string)
    ensures Contains(text, word) <==> IsSubstring(word, text)
    decreases |text|
  {
    if |word| > |text| {
      assert !IsSubstring(word, text);
    } else if text[..|word|] == word {
      assert OccursAt(text, word, 0);
    } else {
      ContainsCorrect(text[1..], word);
      if IsSubstring(word, text) {
        var i :| OccursAt(text, word, i);
        assert i != 0;
        assert text[1..][i - 1..i - 1 + |word|] == text[i..i + |word|];
        assert OccursAt(text[1..], word, i - 1);
      }
      if IsSubstring(word, text[1..]) {
        var i :| OccursAt(text[1..], word, i);
        assert text[i + 1..i + 1 + |word|] == text[1..][i..i + |word|];
        assert OccursAt(text, word, i + 1);
      }
    }
  }

  /** Python's `any(word in text for word in words)`. */
  function AnyIn(text: string, words: seq<string>): bool {
    if words == [] then false else Contains(text, words[0]) || AnyIn(text, words[1..])
  }

  /** Reference definition: some word of the list occurs in `text`. */
  ghost predicate HasKeyword(text: string, words: seq<string>) {
    exists w :: w in words && IsSubstring(w, text)
  }

  lemma {:induction false} AnyInCorrect(text: string, words: seq<string>)
    ensures AnyIn(text, words) <==> HasKeyword(text, words)
  {
    if words != [] {
      ContainsCorrect(text, words[0]);
      AnyInCorrect(text, words[1..]);
      if HasKeyword(text, words) && !Contains(text, words[0]) {
        var w :| w in words && IsSubstring(w, text);
        assert w in words[1..];
      }
    }
  }

  // ---------------------------------------------------------------------------
  // The classifier
  // ---------------------------------------------------------------------------

  function ClassifySignal(userInput: string): (signal: string)
    ensures signal in Labels
  {
    var text := Lower(userInput);
    if AnyIn(text, UncertainWords) then "uncertain"
    else if AnyIn(text, StressedWords) then "stressed"
    else if AnyIn(text, PositiveWords) then "positive"
    else "neutral"
  }

  lemma KeywordTestsCorrect(text: string)
    ensures AnyIn(text, UncertainWords) <==> HasKeyword(text, UncertainWords)
    ensures AnyIn(text, StressedWords) <==> HasKeyword(text, StressedWords)
    ensures AnyIn(text, PositiveWords) <==> HasKeyword(text, PositiveWords)
  {
    AnyInCorrect(text, UncertainWords);
    AnyInCorrect(text, StressedWords);
    AnyInCorrect(text, PositiveWords);
  }

  /** Any uncertain keyword wins, whatever else the input contains. */
  lemma ClassifyUncertain(userInput: string)
    ensures ClassifySignal(userInput) == "uncertain" <==> HasKeyword(Lower(userInput), UncertainWords)
  {
    KeywordTestsCorrect(Lower(userInput));
  }

  lemma ClassifyStressed(userInput: string)
    ensures ClassifySignal(userInput) == "stressed" <==>
      !HasKeyword(Lower(userInput), UncertainWords) && HasKeyword(Lower(userInput), StressedWords)
  {
    KeywordTestsCorrect(Lower(userInput));
  }

  lemma ClassifyPositive(userInput: string)
    ensures ClassifySignal(userInput) == "positive" <==>
      !HasKeyword(Lower(userInput), UncertainWords) && !HasKeyword(Lower(userInput), StressedWords) &&
      HasKeyword(Lower(userInput), PositiveWords)
  {
    KeywordTestsCorrect(Lower(userInput));
  }

  lemma ClassifyNeutral(userInput: string)
    ensures ClassifySignal(userInput) == "neutral" <==>
      !HasKeyword(Lower(userInput), UncertainWords) && !HasKeyword(Lower(userInput), StressedWords) &&
      !HasKeyword(Lower(userInput), PositiveWords)
  {
    KeywordTestsCorrect(Lower(userInput));
  }

  /** Classification ignores ASCII letter case. */
  lemma ClassifyCaseInsensitive(userInput: string)
    ensures ClassifySignal(Lower(userInput)) == ClassifySignal(userInput)
  {
    LowerIdempotent(userInput);
  }
}
