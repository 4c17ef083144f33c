/** The heuristic `isSpanish`: a text is Spanish when more than three in
    ten of its whitespace-separated words, stripped of punctuation, are common
    Spanish function words, or when it contains an accented letter. */
module Language {
  import opened Text

  /** The word list and the accented-letter class of the heuristic. */
  datatype Lexicon = Lexicon(words: set<string>, accents: set<char>)

  /** What the proofs need of a lexicon, whichever reading of it is taken:
      the empty word is not listed and no accent is whitespace. */
  predicate WellFormed(lex: Lexicon)
  {
    && [] !in lex.words
    && (forall c :: c in lex.accents ==> !IsWhitespace(c))
  }

  /** The lexicon read as the Spanish the source evidently spells: `está`,
      `están` in the list and the class of á é í ó ú ü ñ. */
  const Intended: Lexicon := Lexicon(
    {"el", "la", "los", "las", "un", "una", "y", "o", "pero", "si", "no",
     "con", "por", "para", "de", "del", "en", "que", "es", "son", "est\U{00E1}",
     "est\U{00E1}n", "fue", "fueron", "ser", "estar", "tener", "hacer", "decir"},
    {'\U{00E1}', '\U{00E9}', '\U{00ED}', '\U{00F3}', '\U{00FA}', '\U{00FC}', '\U{00F1}'})

  /** The lexicon read character for character as the source text stores
      it, where each accented letter appears as two characters (√ followed
      by °, ©, ≠, ≥, ∫, º or ±). */
  const AsStored: Lexicon := Lexicon(
    {"el", "la", "los", "las", "un", "una", "y", "o", "pero", "si", "no",
     "con", "por", "para", "de", "del", "en", "que", "es", "son", "est\U{221A}\U{00B0}",
     "est\U{221A}\U{00B0}n", "fue", "fueron", "ser", "estar", "tener", "hacer", "decir"},
    {'\U{221A}', '\U{00B0}', '\U{00A9}', '\U{2260}', '\U{2265}', '\U{222B}', '\U{00BA}', '\U{00B1}'})

  lemma IntendedWellFormed()
    ensures WellFormed(Intended)
  {
  }

  lemma AsStoredWellFormed()
    ensures WellFormed(AsStored)
  {
  }

  /** The characters `word.replace(/[.,!?;:"'()]/g, '')` deletes. */
  const Punctuation: set<char> := {'.', ',', '!', '?', ';', ':', '"', '\'', '(', ')'}

  /** Deletes every punctuation character, wherever it stands in the word. */
  function StripPunctuation(word: string): (r: string)
    ensures |r| <= |word|
    ensures forall c :: c in r <==> c in word && c !in Punctuation
    decreases |word|
  {
    if |word| == 0 then []
    else (if word[0] in Punctuation then [] else [word[0]]) + StripPunctuation(word[1..])
  }

  lemma {:induction false} StripPunctuationAppend(a: string, b: string)
    ensures StripPunctuation(a + b) == StripPunctuation(a) + StripPunctuation(b)
    decreases |a|
  {
    if |a| == 0 {
      assert a + b == b;
    } else {
      assert (a + b)[0] == a[0];
      assert (a + b)[1..] == a[1..] + b;
      StripPunctuationAppend(a[1..], b);
    }
  }

  /** Stripping twice strips nothing more, and a word without punctuation
      is left as it is. */
  lemma {:induction false} StripPunctuationIdempotent(word: string)
    ensures StripPunctuation(StripPunctuation(word)) == StripPunctuation(word)
    ensures (forall i :: 0 <= i < |word| ==> word[i] !in Punctuation) ==> StripPunctuation(word) == word
    decreases |word|
  {
    if |word| > 0 {
      StripPunctuationIdempotent(word[1..]);
      var head := if word[0] in Punctuation then [] else [word[0]];
      StripPunctuationAppend(head, StripPunctuation(word[1..]));
      assert StripPunctuation(head) == head by {
        if head != [] {
          assert head[1..] == [];
        }
      }
      if forall i :: 0 <= i < |word| ==> word[i] !in Punctuation {
        assert forall i :: 0 <= i < |word[1..]| ==> word[1..][i] == word[i + 1];
        assert [word[0]] + word[1..] == word;
      }
    }
  }

  /** Whether a token counts as a listed word once its punctuation is gone. */
  predicate IsListed(words: set<string>, token: string)
  {
    StripPunctuation(token) in words
  }

  /** The number of tokens that are listed words: none exactly when no token
      is listed, all exactly when every token is. */
  function CountMatches(words: set<string>, tokens: seq<string>): (n: nat)
    ensures n <= |tokens|
    ensures n == 0 <==> forall i :: 0 <= i < |tokens| ==> !IsListed(words, tokens[i])
    ensures n == |tokens| <==> forall i :: 0 <= i < |tokens| ==> IsListed(words, tokens[i])
    decreases |tokens|
  {
    if |tokens| == 0 then 0
    else
      var rest := CountMatches(words, tokens[1..]);
      assert forall i :: 0 < i < |tokens| ==> tokens[i] == tokens[1..][i - 1];
      (if IsListed(words, tokens[0]) then 1 else 0) + rest
  }

  lemma {:induction false} CountMatchesAppend(words: set<string>, a: seq<string>, b: seq<string>)
    ensures CountMatches(words, a + b) == CountMatches(words, a) + CountMatches(words, b)
    decreases |a|
  {
    if |a| == 0 {
      assert a + b == b;
    } else {
      assert (a + b)[0] == a[0];
      assert (a + b)[1..] == a[1..] + b;
      CountMatchesAppend(words, a[1..], b);
    }
  }

  /** The tokens of the heuristic: `text.toLowerCase().split(/\s+/)`. */
  function Tokens(text: string): (ts: seq<string>)
    ensures |ts| >= 1
  {
    SplitOnWhitespace(Lower(text))
  }

  /** `/[…]/i.test(text)`: some character of the text, compared without
      regard to case, is in the accent class. */
  predicate HasAccent(accents: set<char>, text: string)
  {
    exists i :: 0 <= i < |text| && LowerChar(text[i]) in accents
  }

  /** `spanishWordCount / words.length`; the split never yields zero
      tokens, so the division is always defined. */
  function SpanishWordRatio(lex: Lexicon, text: string): real
  {
    CountMatches(lex.words, Tokens(text)) as real / |Tokens(text)| as real
  }

  lemma ScaleStrict(x: real, y: real, n: real)
    requires n > 0.0
    ensures x > y <==> x * n > y * n
  {
    assert x * n - y * n == (x - y) * n;
    if x > y {
      assert (x - y) * n > 0.0;
    } else {
      assert (y - x) * n >= 0.0;
    }
  }

  lemma RatioThreshold(count: nat, total: nat)
    requires total > 0
    ensures count as real / total as real > 0.3 <==> 10 * count > 3 * total
  {
    var n := total as real;
    var q := count as real / n;
    assert q * n == count as real;
    ScaleStrict(q, 0.3, n);
  }

  /** `isSpanish`, with the threshold `ratio > 0.3` decided in integers;
      the result is the ratio test or the accent test. */
  function IsSpanish(lex: Lexicon, text: string): (r: bool)
    ensures r <==> SpanishWordRatio(lex, text) > 0.3 || HasAccent(lex.accents, text)
  {
    var tokens := Tokens(text);
    RatioThreshold(CountMatches(lex.words, tokens), |tokens|);
    10 * CountMatches(lex.words, tokens) > 3 * |tokens| || HasAccent(lex.accents, text)
  }

  /** Empty and whitespace-only text is never Spanish. */
  lemma BlankIsNotSpanish(lex: Lexicon, text: string)
    requires WellFormed(lex)
    requires IsBlank(text)
    ensures !IsSpanish(lex, text)
  {
    var lowered := Lower(text);
    LowerKeepsBlankness(text);
    SplitOfBlank(lowered);
    var tokens := Tokens(text);
    assert forall i :: 0 <= i < |tokens| ==> !IsListed(lex.words, tokens[i]) by {
      forall i | 0 <= i < |tokens|
        ensures !IsListed(lex.words, tokens[i])
      {
        assert tokens[i] == [];
        assert StripPunctuation(tokens[i]) == [];
      }
    }
    assert !HasAccent(lex.accents, text) by {
      forall i | 0 <= i < |text|
        ensures LowerChar(text[i]) !in lex.accents
      {
        assert IsWhitespace(LowerChar(text[i]));
      }
    }
  }

  /** A text judged Spanish has something left after `trim`: inside the
      translation gate the non-blank test adds nothing to `isSpanishAudio`. */
  lemma SpanishIsNotBlank(lex: Lexicon, text: string)
    requires WellFormed(lex)
    ensures IsSpanish(lex, text) ==> Trim(text) != []
  {
    if IsBlank(text) {
      BlankIsNotSpanish(lex, text);
    }
  }

  /** The heuristic ignores letter case. */
  lemma IsSpanishIgnoresCase(lex: Lexicon, text: string)
    ensures IsSpanish(lex, Lower(text)) == IsSpanish(lex, text)
  {
    LowerIdempotent(text);
    assert HasAccent(lex.accents, Lower(text)) == HasAccent(lex.accents, text) by {
      if HasAccent(lex.accents, text) {
        var i :| 0 <= i < |text| && LowerChar(text[i]) in lex.accents;
        assert LowerChar(Lower(text)[i]) == LowerChar(text[i]);
      }
      if HasAccent(lex.accents, Lower(text)) {
        var i :| 0 <= i < |text| && LowerChar(Lower(text)[i]) in lex.accents;
        assert LowerChar(Lower(text)[i]) == LowerChar(text[i]);
      }
    }
  }

  // ---------------------------------------------------------------------
  // The two readings of the lexicon on two transcripts
  // ---------------------------------------------------------------------

  /** A text without capitals is its own lower-case form. */
  lemma NoCapitals(s: string)
    requires forall i :: 0 <= i < |s| ==> !IsUpper(s[i])
    ensures Lower(s) == s
  {
  }

  /** A lower-case text made of words joined by single spaces has those
      words as its tokens. */
  lemma TokensOfLowerWords(ts: seq<string>)
    requires IsSplitShape(ts)
    requires Lower(JoinWithSpace(ts)) == JoinWithSpace(ts)
    ensures Tokens(JoinWithSpace(ts)) == ts
  {
    SplitJoinRoundTrip(ts);
  }

  /** Every listed word is a short word starting with a small letter. */
  predicate ShortLowerWords(words: set<string>)
  {
    forall w :: w in words ==> 0 < |w| <= 6 && 'a' <= w[0] <= 'z'
  }

  lemma LexiconWordsShort()
    ensures ShortLowerWords(Intended.words) && ShortLowerWords(AsStored.words)
  {
  }

  /** A token longer than every listed word, or starting with something
      other than a small letter, is not listed. */
  lemma Unlisted(words: set<string>, token: string)
    requires ShortLowerWords(words)
    requires |token| > 6 || (|token| > 0 && !('a' <= token[0] <= 'z'))
    ensures token !in words
  {
  }

  /** A Spanish request with an accented word but no listed word, and an
      English one with a degree sign. */
  const SpanishRequest := "necesito v\U{00E1}lvula"
  const EnglishRequest := "90\U{00B0} fitting"

  lemma SpanishRequestTokens()
    ensures Tokens(SpanishRequest) == ["necesito", "v\U{00E1}lvula"]
  {
    var words := ["necesito", "v\U{00E1}lvula"];
    assert JoinWithSpace(words) == SpanishRequest;
    NoCapitals(SpanishRequest);
    TokensOfLowerWords(words);
  }

  lemma EnglishRequestTokens()
    ensures Tokens(EnglishRequest) == ["90\U{00B0}", "fitting"]
  {
    var words := ["90\U{00B0}", "fitting"];
    assert JoinWithSpace(words) == EnglishRequest;
    NoCapitals(EnglishRequest);
    TokensOfLowerWords(words);
  }

  /** A token no lexicon with short lower-case words can list: it has no
      punctuation, and it is longer than every listed word or does not
      start with a small letter. */
  predicate Unlistable(token: string)
  {
    && (forall i :: 0 <= i < |token| ==> token[i] !in Punctuation)
    && (|token| > 6 || (|token| > 0 && !('a' <= token[0] <= 'z')))
  }

  lemma TokenUnlisted(words: set<string>, token: string)
    requires ShortLowerWords(words)
    requires Unlistable(token)
    ensures !IsListed(words, token)
  {
    StripPunctuationIdempotent(token);
    Unlisted(words, token);
  }

  lemma RequestTokensUnlistable()
    ensures Unlistable("necesito") && Unlistable("v\U{00E1}lvula")
    ensures Unlistable("90\U{00B0}") && Unlistable("fitting")
  {
  }

  lemma NoneOfTwoListed(words: set<string>, a: string, b: string)
    requires !IsListed(words, a) && !IsListed(words, b)
    ensures CountMatches(words, [a, b]) == 0
  {
    assert [a, b][1..] == [b];
  }

  /** No token of either request is listed, in either reading. */
  lemma RequestWordsUnlisted(words: set<string>)
    requires ShortLowerWords(words)
    ensures CountMatches(words, ["necesito", "v\U{00E1}lvula"]) == 0
    ensures CountMatches(words, ["90\U{00B0}", "fitting"]) == 0
  {
    RequestTokensUnlistable();
    TokenUnlisted(words, "necesito");
    TokenUnlisted(words, "v\U{00E1}lvula");
    NoneOfTwoListed(words, "necesito", "v\U{00E1}lvula");
    TokenUnlisted(words, "90\U{00B0}");
    TokenUnlisted(words, "fitting");
    NoneOfTwoListed(words, "90\U{00B0}", "fitting");
  }

  /** With no listed token and no accent a text is not Spanish. */
  lemma NotSpanishWithoutEvidence(lex: Lexicon, text: string)
    requires CountMatches(lex.words, Tokens(text)) == 0
    requires forall i :: 0 <= i < |text| ==> LowerChar(text[i]) !in lex.accents
    ensures !IsSpanish(lex, text)
  {
  }

  /** The Spanish request has no character of the stored accent class, and
      the English one none of the intended class. */
  lemma RequestAccents()
    ensures forall i :: 0 <= i < |SpanishRequest| ==> LowerChar(SpanishRequest[i]) !in AsStored.accents
    ensures forall i :: 0 <= i < |EnglishRequest| ==> LowerChar(EnglishRequest[i]) !in Intended.accents
    ensures LowerChar(SpanishRequest[10]) in Intended.accents
    ensures LowerChar(EnglishRequest[2]) in AsStored.accents
  {
  }

  /** The lexicon as stored misjudges both requests: the Spanish one has a
      real `á`, which is neither in the stored accent class nor part of a
      stored word, and the English one has `°`, which the stored class
      holds as the second half of every mis-decoded letter. */
  lemma StoredReadingMisjudges()
    ensures !IsSpanish(AsStored, SpanishRequest)
    ensures IsSpanish(AsStored, EnglishRequest)
  {
    LexiconWordsShort();
    RequestWordsUnlisted(AsStored.words);
    SpanishRequestTokens();
    RequestAccents();
    NotSpanishWithoutEvidence(AsStored, SpanishRequest);
  }

  /** The intended reading judges both requests as their languages are. */
  lemma IntendedReadingJudges()
    ensures IsSpanish(Intended, SpanishRequest)
    ensures !IsSpanish(Intended, EnglishRequest)
  {
    LexiconWordsShort();
    RequestWordsUnlisted(Intended.words);
    EnglishRequestTokens();
    RequestAccents();
    NotSpanishWithoutEvidence(Intended, EnglishRequest);
  }
}
