/**
 * The symptom normaliser of expert.py (`preprocess_symptoms`): tokenise the
 * text, drop every token whose lower-case form is an English stopword, and
 * lemmatise the tokens that remain, keeping their order.
 *
 * Tokenising, lower-casing and lemmatising are NLTK calls and the stopword
 * list is an NLTK corpus; they are not modelled and are taken as a
 * `Toolkit` value, so every property below holds whatever they do.
 */
module Normaliser {

  /** The linguistic resources `preprocess_symptoms` uses. */
  datatype Toolkit = Toolkit(
    tokenize: string -> seq<string>,   // nltk.tokenize.word_tokenize
    lower: string -> string,           // str.lower
    lemmatize: string -> string,       // WordNetLemmatizer().lemmatize
    stopwords: set<string>)            // set(stopwords.words('english'))

  /** A token survives the stopword filter when its lower-case form is not a stopword. */
  predicate IsContentWord(nlp: Toolkit, token: string) {
    nlp.lower(token) !in nlp.stopwords
  }

  /** `[token for token in tokens if token.lower() not in stop_words]` */
  function RemoveStopwords(nlp: Toolkit, tokens: seq<string>): (kept: seq<string>)
    ensures |kept| <= |tokens|
    ensures forall k :: 0 <= k < |kept| ==> IsContentWord(nlp, kept[k])
    ensures forall k :: 0 <= k < |kept| ==> kept[k] in tokens
  {
    if tokens == [] then []
    else
      var init := tokens[..|tokens| - 1];
      var last := tokens[|tokens| - 1];
      RemoveStopwords(nlp, init) + (if IsContentWord(nlp, last) then [last] else [])
  }

  /** `[lemmatizer.lemmatize(token) for token in tokens]` */
  function LemmatizeAll(nlp: Toolkit, tokens: seq<string>): (lemmas: seq<string>)
    ensures |lemmas| == |tokens|
  {
    seq(|tokens|, i requires 0 <= i < |tokens| => nlp.lemmatize(tokens[i]))
  }

  /** The filter-then-map pipeline applied to an already tokenised text. */
  function NormaliseTokens(nlp: Toolkit, tokens: seq<string>): (r: seq<string>)
    ensures |r| <= |tokens|
  {
    LemmatizeAll(nlp, RemoveStopwords(nlp, tokens))
  }

  /** `preprocess_symptoms(symptoms)`: never longer than the tokenisation of the text. */
  function PreprocessSymptoms(nlp: Toolkit, text: string): (r: seq<string>)
    ensures |r| <= |nlp.tokenize(text)|
  {
    NormaliseTokens(nlp, nlp.tokenize(text))
  }

  /**
   * `idx` lists, in increasing order, exactly the positions of `tokens`
   * that hold a content word.
   */
  ghost predicate SelectsContentWords(nlp: Toolkit, tokens: seq<string>, idx: seq<nat>) {
    && (forall k :: 0 <= k < |idx| ==> idx[k] < |tokens|)
    && (forall k, l :: 0 <= k < l < |idx| ==> idx[k] < idx[l])
    && (forall i :: 0 <= i < |tokens| ==> (IsContentWord(nlp, tokens[i]) <==> i in idx))
  }

  /** Positions of the content words of `tokens`, in order (a reference definition). */
  ghost function ContentPositions(nlp: Toolkit, tokens: seq<string>): (ps: seq<nat>)
    ensures forall k :: 0 <= k < |ps| ==> ps[k] < |tokens|
  {
    if tokens == [] then []
    else
      var n := |tokens| - 1;
      ContentPositions(nlp, tokens[..n]) + (if IsContentWord(nlp, tokens[n]) then [n] else [])
  }

  lemma {:induction false} ContentPositionsSelect(nlp: Toolkit, tokens: seq<string>)
    ensures SelectsContentWords(nlp, tokens, ContentPositions(nlp, tokens))
  {
    if tokens != [] {
      var n := |tokens| - 1;
      var init := tokens[..n];
      ContentPositionsSelect(nlp, init);
      var idx, r := ContentPositions(nlp, init), ContentPositions(nlp, tokens);
      assert r == idx + (if IsContentWord(nlp, tokens[n]) then [n] else []);
      forall k | 0 <= k < |r|
        ensures r[k] < |tokens|
      {
        if k < |idx| {
          assert r[k] == idx[k];
        }
      }
      forall k, l | 0 <= k < l < |r|
        ensures r[k] < r[l]
      {
        assert r[k] == idx[k];
        if l < |idx| {
          assert r[l] == idx[l];
        }
      }
      forall i | 0 <= i < |tokens|
        ensures IsContentWord(nlp, tokens[i]) <==> i in r
      {
        if i < n {
          assert tokens[i] == init[i];
          assert i in r <==> i in idx;
        }
      }
    }
  }

  /** The stopword filter keeps the tokens at the content-word positions, in order. */
  lemma {:induction false} RemoveStopwordsAtPositions(nlp: Toolkit, tokens: seq<string>)
    ensures |RemoveStopwords(nlp, tokens)| == |ContentPositions(nlp, tokens)|
    ensures forall k :: 0 <= k < |ContentPositions(nlp, tokens)| ==>
              RemoveStopwords(nlp, tokens)[k] == tokens[ContentPositions(nlp, tokens)[k]]
  {
    if tokens != [] {
      var n := |tokens| - 1;
      var init := tokens[..n];
      RemoveStopwordsAtPositions(nlp, init);
      ContentPositionsSelect(nlp, init);
      var idx, r := ContentPositions(nlp, init), ContentPositions(nlp, tokens);
      var kept, kept' := RemoveStopwords(nlp, init), RemoveStopwords(nlp, tokens);
      assert r == idx + (if IsContentWord(nlp, tokens[n]) then [n] else []);
      assert kept' == kept + (if IsContentWord(nlp, tokens[n]) then [tokens[n]] else []);
      forall k | 0 <= k < |r|
        ensures kept'[k] == tokens[r[k]]
      {
        if k < |idx| {
          assert kept'[k] == kept[k] && r[k] == idx[k];
          assert tokens[idx[k]] == init[idx[k]];
        }
      }
    }
  }

  /**
   * The normaliser's output is, in order, the lemma of exactly those input
   * tokens whose lower-case form is not a stopword.
   */
  lemma NormaliseSelectsContentWords(nlp: Toolkit, tokens: seq<string>)
    ensures exists idx :: SelectsContentWords(nlp, tokens, idx)
              && |NormaliseTokens(nlp, tokens)| == |idx|
              && forall k :: 0 <= k < |idx| ==> NormaliseTokens(nlp, tokens)[k] == nlp.lemmatize(tokens[idx[k]])
  {
    var idx := ContentPositions(nlp, tokens);
    ContentPositionsSelect(nlp, tokens);
    RemoveStopwordsAtPositions(nlp, tokens);
    assert SelectsContentWords(nlp, tokens, idx);
  }

  /** A sequence of content words passes the stopword filter unchanged. */
  lemma {:induction false} RemoveStopwordsKeepsContent(nlp: Toolkit, tokens: seq<string>)
    requires forall i :: 0 <= i < |tokens| ==> IsContentWord(nlp, tokens[i])
    ensures RemoveStopwords(nlp, tokens) == tokens
  {
    if tokens != [] {
      var n := |tokens| - 1;
      var init := tokens[..n];
      RemoveStopwordsKeepsContent(nlp, init);
      assert IsContentWord(nlp, tokens[n]);
      assert tokens == init + [tokens[n]];
    }
  }

  /**
   * Normalising an already normalised token sequence changes nothing,
   * provided lemmatising is idempotent and never turns a content word into
   * a stopword.
   */
  lemma NormaliseIdempotent(nlp: Toolkit, tokens: seq<string>)
    requires forall t :: IsContentWord(nlp, t) ==>
               IsContentWord(nlp, nlp.lemmatize(t)) && nlp.lemmatize(nlp.lemmatize(t)) == nlp.lemmatize(t)
    ensures NormaliseTokens(nlp, NormaliseTokens(nlp, tokens)) == NormaliseTokens(nlp, tokens)
  {
    var kept := RemoveStopwords(nlp, tokens);
    var once := LemmatizeAll(nlp, kept);
    assert forall i :: 0 <= i < |once| ==> IsContentWord(nlp, once[i]) by {
      forall i | 0 <= i < |once| ensures IsContentWord(nlp, once[i]) {
        assert IsContentWord(nlp, kept[i]);
      }
    }
    RemoveStopwordsKeepsContent(nlp, once);
  }
}
