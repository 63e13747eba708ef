/**
 * `MorphologicalAnalysisPipeline._process` of lab_6_pipeline/pipeline.py: a text
 * becomes one `ConlluSentence` per sentence of the sentence splitter, with the
 * sentence's whitespace-separated words as its tokens.
 *
 * The splitter (`split_by_sentence`) is a parameter.
 */
module PipelineMorph {
  import opened Text
  import opened PipelineConllu

  /** `[ConlluToken(word.strip()) for word in sentence.split()]`: one token per word,
      and the `strip()` changes nothing, since a word holds no whitespace. */
  function TokensOf(sentence: string): (r: seq<ConlluToken>)
    ensures |r| == |Split(sentence)|
    ensures forall i :: 0 <= i < |r| ==> r[i].text == Split(sentence)[i]
  {
    var words := Split(sentence);
    StripWords(words);
    seq(|words|, i requires 0 <= i < |words| => ConlluToken(Strip(words[i])))
  }

  /** `strip()` leaves every word of a split unchanged. */
  lemma StripWords(words: seq<string>)
    requires forall w :: w in words ==> IsWord(w)
    ensures forall i :: 0 <= i < |words| ==> Strip(words[i]) == words[i]
  {
    forall i | 0 <= i < |words|
      ensures Strip(words[i]) == words[i]
    {
      assert words[i] in words;
      assert Trimmed(words[i]);
    }
  }

  /** The sentence `_process` builds for `sentences[i]`: its position is one more than
      the index of the first sentence equal to it (`sentences.index(sentence) + 1`). */
  function SentenceAt(sentences: seq<string>, i: nat): ConlluSentence
    requires i < |sentences|
  {
    ConlluSentence(IndexOf(sentences, sentences[i]) + 1, sentences[i], TokensOf(sentences[i]))
  }

  /** What `_process` returns for the splitter's output `sentences`. */
  function Segmented(sentences: seq<string>): (r: seq<ConlluSentence>)
    ensures |r| == |sentences|
    ensures forall i :: 0 <= i < |sentences| ==> r[i] == SentenceAt(sentences, i)
  {
    seq(|sentences|, i requires 0 <= i < |sentences| => SentenceAt(sentences, i))
  }

  /** `_process`: split the text into sentences, then append one `ConlluSentence`
      per sentence, in order. */
  method Process(text: string, splitBySentence: string -> seq<string>) returns (r: seq<ConlluSentence>)
    ensures r == Segmented(splitBySentence(text))
  {
    var sentences := splitBySentence(text);
    r := [];
    for k := 0 to |sentences|
      invariant |r| == k
      invariant forall i :: 0 <= i < k ==> r[i] == SentenceAt(sentences, i)
    {
      var sentence := sentences[k];
      var tokens := TokensOf(sentence);
      r := r + [ConlluSentence(IndexOf(sentences, sentence) + 1, sentence, tokens)];
    }
  }

  predicate AllDifferent(ss: seq<string>) {
    forall i, j :: 0 <= i < j < |ss| ==> ss[i] != ss[j]
  }

  /** A sentence's text and tokens: the splitter's sentence and its words, in order. */
  lemma SegmentedContent(sentences: seq<string>, i: nat)
    requires i < |sentences|
    ensures Segmented(sentences)[i].text == sentences[i]
    ensures |Segmented(sentences)[i].tokens| == |Split(sentences[i])|
    ensures forall k :: 0 <= k < |Split(sentences[i])| ==> Segmented(sentences)[i].tokens[k].text == Split(sentences[i])[k]
  {
  }

  /** The position points at the first sentence equal to this one: it lies in
      1..i+1, the sentence there is the same text, and no earlier one is. */
  lemma PositionIsFirstOccurrence(sentences: seq<string>, i: nat)
    requires i < |sentences|
    ensures var p := Segmented(sentences)[i].position;
      1 <= p <= i + 1 && sentences[p - 1] == sentences[i]
      && forall j :: 0 <= j < p - 1 ==> sentences[j] != sentences[i]
  {
    var p := Segmented(sentences)[i].position;
    assert p == IndexOf(sentences, sentences[i]) + 1;
  }

  /** Equal sentences share a position. */
  lemma EqualSentencesSharePosition(sentences: seq<string>, i: nat, j: nat)
    requires i < |sentences| && j < |sentences| && sentences[i] == sentences[j]
    ensures Segmented(sentences)[i].position == Segmented(sentences)[j].position
  {
  }

  /** When no sentence repeats, the positions are exactly 1, 2, ..., n. */
  lemma DistinctSentencePositions(sentences: seq<string>)
    requires AllDifferent(sentences)
    ensures forall i :: 0 <= i < |sentences| ==> Segmented(sentences)[i].position == i + 1
  {
    forall i | 0 <= i < |sentences|
      ensures Segmented(sentences)[i].position == i + 1
    {
      var p := IndexOf(sentences, sentences[i]);
      assert sentences[p] == sentences[i];
      assert !(p < i) by {
        assert forall k :: 0 <= k < p ==> sentences[k] != sentences[i];
      }
    }
  }

  /** A repeated sentence keeps the position of its first occurrence, so positions
      are not 1..n: for ["A.", "B.", "A."] they are 1, 2, 1. */
  lemma RepeatedSentenceExample()
    ensures var r := Segmented(["A.", "B.", "A."]);
      r[0].position == 1 && r[1].position == 2 && r[2].position == 1
  {
    var ss := ["A.", "B.", "A."];
    assert ss[0] == ss[2] && ss[0] != ss[1];
    PositionIsFirstOccurrence(ss, 1);
    EqualSentencesSharePosition(ss, 0, 2);
  }

  /** The cleaned text of a processed sentence has no more words than the sentence. */
  lemma CleanedSentenceOfProcessed(sentences: seq<string>, i: nat)
    requires i < |sentences|
    ensures |Split(CleanedSentence(Segmented(sentences)[i].tokens))| <= |Split(sentences[i])|
  {
    CleanedSentenceWords(Segmented(sentences)[i].tokens);
  }
}
