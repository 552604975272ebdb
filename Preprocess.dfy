/** The review normaliser `preprocess_review`: decode HTML entities, lowercase,
    delete URLs, line feeds, punctuation and digits, tokenise, drop stopwords,
    lemmatise what is left and join it with single spaces. */
module Preprocess {
  import opened Chars
  import opened Seqs
  import opened Urls

  /** The library pieces the normaliser calls, taken as given: `html.unescape`,
      `nltk.word_tokenize`, the English stopword set and `WordNetLemmatizer().lemmatize`. */
  datatype Resources = Resources(
    unescape: string -> string,
    tokenize: string -> seq<string>,
    stops: set<string>,
    lemmatize: string -> string)

  /** `text.lower()` on ASCII: capitals become small letters, nothing else changes. */
  function Lower(s: string): (r: string)
    ensures |r| == |s|
    ensures forall i :: 0 <= i < |s| && IsUpper(s[i]) ==> IsLower(r[i]) && r[i] as int == s[i] as int + 32
    ensures forall i :: 0 <= i < |s| && !IsUpper(s[i]) ==> r[i] == s[i]
    ensures forall c :: c in r ==> !IsUpper(c)
  {
    if s == [] then [] else [LowerChar(s[0])] + Lower(s[1..])
  }

  predicate NotNewline(c: char) { c != '\n' }
  predicate NotPunctuation(c: char) { !IsPunctuation(c) }
  predicate NotDigit(c: char) { !IsDigit(c) }

  /** A character that lines 65 to 67 keep. */
  predicate SurvivesCleaning(c: char) { c != '\n' && !IsPunctuation(c) && !IsDigit(c) }

  /** `re.sub(r'\n', '', text)`: line feeds go; carriage returns, tabs and every
      other character stay, in order. */
  function RemoveNewlines(s: string): (r: string)
    ensures '\n' !in r
    ensures IsSubsequence(r, s)
    ensures forall c :: c != '\n' ==> multiset(r)[c] == multiset(s)[c]
  {
    var r := Filter(s, NotNewline);
    forall c | c != '\n' ensures multiset(r)[c] == multiset(s)[c] {
      FilterCounts(s, NotNewline, c);
    }
    r
  }

  /** `re.sub('[%s]' % re.escape(string.punctuation), '', text)`. */
  function RemovePunctuation(s: string): (r: string)
    ensures forall c :: c in r ==> !IsPunctuation(c)
    ensures IsSubsequence(r, s)
    ensures forall c :: !IsPunctuation(c) ==> multiset(r)[c] == multiset(s)[c]
  {
    var r := Filter(s, NotPunctuation);
    forall c | !IsPunctuation(c) ensures multiset(r)[c] == multiset(s)[c] {
      FilterCounts(s, NotPunctuation, c);
    }
    r
  }

  /** `re.sub(r"\d+", "", text)`: deleting every run of digits deletes every digit. */
  function RemoveDigits(s: string): (r: string)
    ensures forall c :: c in r ==> !IsDigit(c)
    ensures IsSubsequence(r, s)
    ensures forall c :: !IsDigit(c) ==> multiset(r)[c] == multiset(s)[c]
  {
    var r := Filter(s, NotDigit);
    forall c | !IsDigit(c) ensures multiset(r)[c] == multiset(s)[c] {
      FilterCounts(s, NotDigit, c);
    }
    r
  }

  /** The character-level part, lines 62 to 67: the text handed to the tokeniser.
      It is the lowercased text with characters deleted and none added or moved. */
  function CleanText(res: Resources, text: string): (r: string)
    ensures forall c :: c in r ==> !IsUpper(c) && c != '\n' && !IsPunctuation(c) && !IsDigit(c)
    ensures IsSubsequence(r, Lower(res.unescape(text)))
    ensures |r| <= |Lower(res.unescape(text))|
  {
    var lowered := Lower(res.unescape(text));
    var noUrls := StripUrlsAsWritten(lowered);
    var noNewlines := RemoveNewlines(noUrls);
    var noPunctuation := RemovePunctuation(noNewlines);
    var r := RemoveDigits(noPunctuation);
    SubsequenceTransitive(noPunctuation, noNewlines, noUrls);
    SubsequenceTransitive(r, noPunctuation, noUrls);
    SubsequenceTransitive(r, noUrls, lowered);
    SubsequenceLength(r, lowered);
    assert forall c :: c in r ==> c in noPunctuation by {
      SubsequenceContents(r, noPunctuation);
    }
    assert forall c :: c in noPunctuation ==> c in noNewlines by {
      SubsequenceContents(noPunctuation, noNewlines);
    }
    assert forall c :: c in noNewlines ==> c in noUrls by {
      SubsequenceContents(noNewlines, noUrls);
    }
    assert forall c :: c in noUrls ==> c in lowered by {
      SubsequenceContents(noUrls, lowered);
    }
    r
  }

  /** The stopword test of line 71, on the token before it is lemmatised. */
  function NotStop(stops: set<string>): string -> bool {
    w => w !in stops
  }

  /** `[lemmatizer.lemmatize(word) for word in words if word not in stop_words]`:
      the lemmas of the tokens that are not stopwords, one each, in token order. */
  function KeepAndLemmatize(words: seq<string>, stops: set<string>, lemmatize: string -> string): (r: seq<string>)
    ensures |r| == |Filter(words, NotStop(stops))|
    ensures forall i :: 0 <= i < |r| ==> r[i] == lemmatize(Filter(words, NotStop(stops))[i])
  {
    if words == [] then []
    else if words[0] !in stops then [lemmatize(words[0])] + KeepAndLemmatize(words[1..], stops, lemmatize)
    else KeepAndLemmatize(words[1..], stops, lemmatize)
  }

  /** The tokens that survive the stopword filter. */
  function KeptTokens(res: Resources, text: string): seq<string> {
    Filter(res.tokenize(CleanText(res, text)), NotStop(res.stops))
  }

  /** `preprocess_review(text)`, lines 61 to 72: empty when no token is kept,
      and otherwise the lemma of the first kept token comes first. */
  function PreprocessReview(res: Resources, text: string): (r: string)
    ensures KeptTokens(res, text) == [] ==> r == ""
    ensures KeptTokens(res, text) != [] ==> res.lemmatize(KeptTokens(res, text)[0]) <= r
  {
    JoinSpace(KeepAndLemmatize(res.tokenize(CleanText(res, text)), res.stops, res.lemmatize))
  }

  /** Line 64 as written never matches once the text is lowercased (a match needs
      a capital S), so on every review the URL step leaves the text unchanged. */
  lemma {:induction false} UrlStepIsIdentity(text: string)
    ensures StripUrlsAsWritten(Lower(text)) == Lower(text)
  {
    StripUrlsAsWrittenWithoutS(Lower(text));
  }

  /** Lines 65 to 67 together delete exactly the line feeds, punctuation and digits,
      so the text handed to the tokeniser is one filter of the lowercased text. */
  lemma CleanTextIsOneFilter(res: Resources, text: string)
    ensures CleanText(res, text) == Filter(Lower(res.unescape(text)), SurvivesCleaning)
  {
    var lowered := Lower(res.unescape(text));
    UrlStepIsIdentity(res.unescape(text));
    var newlinesOrPunctuation := (c: char) => NotNewline(c) && NotPunctuation(c);
    FilterFilter(lowered, NotNewline, NotPunctuation, newlinesOrPunctuation);
    FilterFilter(lowered, newlinesOrPunctuation, NotDigit, SurvivesCleaning);
  }

  /** The output's space-separated pieces are exactly the lemmas of the kept tokens,
      in order, whenever some token is kept and no kept token's lemma contains a space. */
  lemma PreprocessTokens(res: Resources, text: string)
    requires KeptTokens(res, text) != []
    requires forall w :: w in KeptTokens(res, text) ==> ' ' !in res.lemmatize(w)
    ensures |SplitSpace(PreprocessReview(res, text))| == |KeptTokens(res, text)|
    ensures forall i :: 0 <= i < |KeptTokens(res, text)| ==>
      SplitSpace(PreprocessReview(res, text))[i] == res.lemmatize(KeptTokens(res, text)[i])
  {
    var kept := KeptTokens(res, text);
    var lemmas := KeepAndLemmatize(res.tokenize(CleanText(res, text)), res.stops, res.lemmatize);
    forall w | w in lemmas ensures ' ' !in w {
      var i :| 0 <= i < |lemmas| && lemmas[i] == w;
      assert kept[i] in kept;
    }
    SplitJoin(lemmas);
  }

  /** The output is empty when every token is a stopword. When the kept tokens'
      lemmas are non-empty and space-free it is empty only then, and otherwise
      has no leading or trailing space. */
  lemma PreprocessEmpty(res: Resources, text: string)
    ensures KeptTokens(res, text) == [] ==> PreprocessReview(res, text) == ""
    ensures LemmasAreWords(res, text) ==>
      (PreprocessReview(res, text) == "" <==> KeptTokens(res, text) == [])
    ensures LemmasAreWords(res, text) && KeptTokens(res, text) != [] ==>
      PreprocessReview(res, text)[0] != ' ' &&
      PreprocessReview(res, text)[|PreprocessReview(res, text)| - 1] != ' '
  {
    var kept := KeptTokens(res, text);
    var lemmas := KeepAndLemmatize(res.tokenize(CleanText(res, text)), res.stops, res.lemmatize);
    if LemmasAreWords(res, text) {
      forall i | 0 <= i < |lemmas| ensures lemmas[i] != "" && ' ' !in lemmas[i] {
        assert kept[i] in kept;
      }
      JoinSpaceShape(lemmas);
    }
  }

  /** Every kept token's lemma is a non-empty, space-free word. */
  predicate LemmasAreWords(res: Resources, text: string) {
    forall w :: w in KeptTokens(res, text) ==> res.lemmatize(w) != "" && ' ' !in res.lemmatize(w)
  }

  /** Stopwords are tested before lemmatising, so a lemma that is itself a
      stopword reaches the output. */
  lemma StopwordLemmaKept()
    ensures var res := Resources(s => s, s => ["cats"], {"cat"}, w => if w == "cats" then "cat" else w);
      PreprocessReview(res, "x") == "cat" && "cat" in res.stops
  {
    var res := Resources(s => s, s => ["cats"], {"cat"}, w => if w == "cats" then "cat" else w);
    var words := res.tokenize(CleanText(res, "x"));
    assert words == ["cats"];
    assert KeepAndLemmatize(words, res.stops, res.lemmatize) == ["cat"];
  }

  /** An empty review normalises to the empty string when the tokeniser finds no
      token in empty text and entity decoding leaves empty text empty. */
  lemma EmptyReview(res: Resources)
    requires res.unescape("") == "" && res.tokenize("") == []
    ensures PreprocessReview(res, "") == ""
  {
    assert CleanText(res, "") == "";
  }
}
