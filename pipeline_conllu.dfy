/**
 * `ConlluToken` and `ConlluSentence` of lab_6_pipeline/pipeline.py: the cleaned
 * (lower-case, alphanumeric-only) form of a token, and the cleaned text of a
 * sentence built from its tokens.
 *
 * Neither class changes its fields after construction (the morphological setters
 * are empty), so both are values here.
 */
module PipelineConllu {
  import opened Text

  datatype ConlluToken = ConlluToken(text: string)

  /** A sentence: its 1-based position in the text, its text and its tokens.
      `get_tokens` is the `tokens` field. */
  datatype ConlluSentence = ConlluSentence(position: int, text: string, tokens: seq<ConlluToken>)

  // ---------------------------------------------------------------- tokens

  /** The cleaned form of a token's text: its alphanumeric characters, lower-cased,
      in order. */
  function Cleaned(text: string): string {
    KeepAlnum(Lower(text))
  }

  /** `get_cleaned`: walk `text.lower().strip()` and keep the alphanumeric characters. */
  method GetCleaned(token: ConlluToken) returns (cleaned: string)
    ensures cleaned == Cleaned(token.text)
  {
    cleaned := AlnumOnly(Strip(Lower(token.text)));
    StripIrrelevant(token.text);
  }

  /** The loop of `get_cleaned`: append each character of `u` that `isalnum()` accepts. */
  method AlnumOnly(u: string) returns (cleaned: string)
    ensures cleaned == KeepAlnum(u)
  {
    cleaned := "";
    for k := 0 to |u|
      invariant cleaned == KeepAlnum(u[..k])
    {
      assert u[..k + 1] == u[..k] + [u[k]];
      KeepAlnumSnoc(u[..k], u[k]);
      if IsAlnum(u[k]) {
        cleaned := cleaned + [u[k]];
      }
    }
    assert u[..|u|] == u;
  }

  lemma {:induction false} KeepAlnumFrom(s: string)
    ensures forall i :: 0 <= i < |KeepAlnum(s)| ==> KeepAlnum(s)[i] in s
  {
    if s != [] {
      KeepAlnumFrom(s[1..]);
      var head := if IsAlnum(s[0]) then [s[0]] else [];
      forall i | 0 <= i < |KeepAlnum(s)|
        ensures KeepAlnum(s)[i] in s
      {
        if i >= |head| {
          assert KeepAlnum(s)[i] == KeepAlnum(s[1..])[i - |head|];
          assert KeepAlnum(s[1..])[i - |head|] in s[1..];
        }
      }
    }
  }

  /** The `strip()` in `get_cleaned` makes no difference: whitespace is not
      alphanumeric. */
  lemma StripIrrelevant(text: string)
    ensures KeepAlnum(Strip(Lower(text))) == Cleaned(text)
  {
    KeepAlnumStrip(Lower(text));
  }

  /** Every character of a cleaned form is a lower-case letter or a digit, so in
      particular it holds no whitespace. */
  lemma CleanedChars(text: string)
    ensures forall i :: 0 <= i < |Cleaned(text)| ==>
      IsAlnum(Cleaned(text)[i]) && !IsUpper(Cleaned(text)[i]) && !IsSpace(Cleaned(text)[i])
  {
    KeepAlnumFrom(Lower(text));
  }

  /** A cleaned form has no whitespace at its ends, so `strip()` leaves it alone. */
  lemma CleanedTrimmed(text: string)
    ensures Trimmed(Cleaned(text)) && Strip(Cleaned(text)) == Cleaned(text)
  {
    CleanedChars(text);
  }

  /** Cleaning a cleaned form changes nothing. */
  lemma CleanedIdempotent(text: string)
    ensures Cleaned(Cleaned(text)) == Cleaned(text)
  {
    var c := Cleaned(text);
    CleanedChars(text);
    assert forall i :: 0 <= i < |c| ==> Lower(c)[i] == c[i];
    assert Lower(c) == c;
    KeepAlnumOfAlnum(c);
  }

  /** Punctuation alone cleans to the empty string; case is folded. */
  lemma CleanedExamples()
    ensures Cleaned("...") == ""
    ensures Cleaned("Hi!") == "hi"
  {
    assert Lower("...") == "...";
    assert Lower("Hi!") == "hi!";
    assert KeepAlnum("hi!") == "h" + KeepAlnum("i!");
    assert KeepAlnum("i!") == "i" + KeepAlnum("!");
  }

  /** Russian text is case folded too: "Привет!" cleans to "привет". */
  lemma CyrillicCleanedExample()
    ensures Cleaned("Привет!") == "привет"
  {
    var w := "привет";
    assert "привет!" == w + ['!'];
    CyrillicLower();
    KeepAlnumSnoc(w, '!');
    KeepAlnumOfAlnum(w);
  }

  lemma CyrillicLower()
    ensures Lower("Привет!") == "привет!"
  {
  }

  // ---------------------------------------------------------------- sentences

  /** The non-empty cleaned forms of `tokens`, in token order. */
  function CleanedWords(tokens: seq<ConlluToken>): seq<string>
    decreases |tokens|
  {
    if tokens == [] then []
    else
      var last := Cleaned(tokens[|tokens| - 1].text);
      CleanedWords(tokens[..|tokens| - 1]) + (if last != [] then [last] else [])
  }

  /** What `get_cleaned_sentence` returns. */
  function CleanedSentence(tokens: seq<ConlluToken>): string {
    Join(" ", CleanedWords(tokens))
  }

  /** Each kept word is a non-empty run of lower-case letters and digits. */
  lemma {:induction false} CleanedWordsAreWords(tokens: seq<ConlluToken>)
    ensures |CleanedWords(tokens)| <= |tokens|
    ensures forall i :: 0 <= i < |CleanedWords(tokens)| ==> IsWord(CleanedWords(tokens)[i])
    decreases |tokens|
  {
    if tokens != [] {
      var init := tokens[..|tokens| - 1];
      CleanedWordsAreWords(init);
      CleanedChars(tokens[|tokens| - 1].text);
    }
  }

  lemma {:induction false} JoinTrimmed(ws: seq<string>)
    requires forall i :: 0 <= i < |ws| ==> IsWord(ws[i])
    ensures Trimmed(Join(" ", ws))
  {
    if |ws| > 1 {
      JoinTrimmed(ws[1..]);
      var rest := Join(" ", ws[1..]);
      var j := Join(" ", ws);
      assert j == ws[0] + " " + rest;
      assert j[0] == ws[0][0];
      assert j[|j| - 1] == rest[|rest| - 1];
    } else if |ws| == 1 {
      assert Join(" ", ws) == ws[0];
    }
  }

  /** `get_cleaned_sentence`: collect the non-empty stripped cleaned forms, join them
      with single spaces and strip the result. (The source cleans each token twice,
      once for the test and once for the value; both give the same string.) */
  method GetCleanedSentence(sentence: ConlluSentence) returns (r: string)
    ensures r == CleanedSentence(sentence.tokens)
  {
    var tokens := sentence.tokens;
    var words: seq<string> := [];
    for k := 0 to |tokens|
      invariant words == CleanedWords(tokens[..k])
    {
      var cleaned := GetCleaned(tokens[k]);
      SentenceStep(tokens, k);
      CleanedTrimmed(tokens[k].text);
      var word := Strip(cleaned);
      if |word| > 0 {
        words := words + [word];
      }
    }
    assert tokens[..|tokens|] == tokens;
    CleanedSentenceTrimmed(tokens);
    r := Strip(Join(" ", words));
  }

  lemma SentenceStep(tokens: seq<ConlluToken>, k: nat)
    requires k < |tokens|
    ensures CleanedWords(tokens[..k + 1]) == CleanedWords(tokens[..k]) +
      (if Cleaned(tokens[k].text) != [] then [Cleaned(tokens[k].text)] else [])
  {
    assert tokens[..k + 1] == tokens[..k] + [tokens[k]];
    CleanedWordsSnoc(tokens[..k], tokens[k]);
  }

  /** The joined words have no whitespace at their ends, so the final `strip()`
      leaves them alone. */
  lemma CleanedSentenceTrimmed(tokens: seq<ConlluToken>)
    ensures Strip(CleanedSentence(tokens)) == CleanedSentence(tokens)
  {
    CleanedWordsAreWords(tokens);
    JoinTrimmed(CleanedWords(tokens));
  }

  /** `get_conllu_text`: the source repeats the body of `get_cleaned_sentence`, and
      the flag is not read. */
  method GetConlluText(sentence: ConlluSentence, includeMorphologicalTags: bool) returns (r: string)
    ensures r == CleanedSentence(sentence.tokens)
  {
    r := GetCleanedSentence(sentence);
  }

  /** Splitting the cleaned sentence on whitespace gives back the kept words, so it
      has at most as many words as the sentence has tokens. */
  lemma CleanedSentenceWords(tokens: seq<ConlluToken>)
    ensures Split(CleanedSentence(tokens)) == CleanedWords(tokens)
    ensures |Split(CleanedSentence(tokens))| <= |tokens|
  {
    CleanedWordsAreWords(tokens);
    SplitJoin(CleanedWords(tokens));
  }

  /** A token that cleans to nothing is dropped; any other one contributes its
      cleaned form as the next word. */
  lemma CleanedWordsSnoc(tokens: seq<ConlluToken>, t: ConlluToken)
    ensures CleanedWords(tokens + [t]) ==
      CleanedWords(tokens) + (if Cleaned(t.text) != [] then [Cleaned(t.text)] else [])
  {
    assert (tokens + [t])[..|tokens|] == tokens;
  }

  /** Punctuation tokens vanish from the cleaned sentence. */
  lemma CleanedSentenceExample()
    ensures CleanedSentence([ConlluToken("Hi!"), ConlluToken("..."), ConlluToken("Hi!")]) == "hi hi"
  {
    var words := ["hi", "hi"];
    assert words[1..] == ["hi"];
    assert Join(" ", words) == "hi hi";
    CleanedWordsExample();
  }

  lemma CleanedWordsExample()
    ensures CleanedWords([ConlluToken("Hi!"), ConlluToken("..."), ConlluToken("Hi!")]) == ["hi", "hi"]
  {
    var a := ConlluToken("Hi!");
    var b := ConlluToken("...");
    assert [a] == [] + [a] && [a, b] == [a] + [b] && [a, b, a] == [a, b] + [a];
    CleanedExamples();
    CleanedWordsSnoc([], a);
    CleanedWordsSnoc([a], b);
    CleanedWordsSnoc([a, b], a);
  }
}
