# Medical condition predictor: review normaliser and label display

A Dafny model of the logic in `classification_app.py`, a small web page that
takes a patient's free-text review, normalises it, hands it to a trained
vectorizer and classifier, and shows the predicted condition on a coloured card.
Four pieces are modelled:

- **`preprocess_review`** (module `Preprocess`, with `Chars`, `Seqs` and `Urls`):
  HTML-entity decoding, lowercasing, the URL deletion of line 64 exactly as its
  pattern is written, deletion of line feeds, ASCII punctuation and digits,
  tokenisation, stopword filtering with per-token lemmatisation, and the
  single-space join. The entity decoder, the tokeniser, the stopword set and the
  lemmatiser are parameters (`Preprocess.Resources`).
- **Label resolution** (`Labels.LabelFor`): `condition_map.get(pred, "Unknown")`.
- **Card style** (`Labels.StyleFor`): the if/elif/else choosing background
  colour, icon and font colour.
- **The blank-input gate and one button press** (`App.Strip`, `App.Submit`):
  a review that `strip()`s to nothing yields a warning and nothing else runs;
  otherwise the normalised text goes to `classify`, a parameter standing for
  the vectorizer and the trained model.

Everything is pure: the source rebinds local values and reads a constant
dictionary, so the model is functions and lemmas over values.

Line 64 does not do what it evidently means to, and the model follows the
code. Its pattern, `r'https?://\\S+|www\\.\\S+'`, is the usual URL pattern
`https?://\S+|www\.\S+` with every backslash doubled. Doubling is what a plain
string literal would need, but inside a raw string each `\\` reaches the
regular-expression engine as an escaped backslash. The pattern therefore only
matches `http://` or `https://` followed by a backslash and capital `S`
characters, or `www`, a backslash, one character other than a line feed, a
backslash and capital `S` characters. The text was lowercased on line 63, so it
holds no capital `S` and line 64 never changes it (`Preprocess.UrlStepIsIdentity`).
An ordinary URL goes on to lose its `:`, `/` and `.` on line 66 and reaches the
tokeniser as one run of letters. See "## Findings".

## Model

| member | source | states |
|---|---|---|
| `Chars.LowerChar` | classification_app.py:63 | an ASCII capital becomes the small letter 32 code points above it; every other character is unchanged; the result is never a capital |
| `Chars.PunctuationCodes` | classification_app.py:66 | the characters of `string.punctuation` are exactly the codes 33-47, 58-64, 91-96 and 123-126 |
| `Chars.PunctuationDisjoint` | classification_app.py:66-67 | no punctuation character is a digit, a letter or whitespace, so the punctuation and digit deletions touch disjoint characters |
| `Preprocess.Lower` | classification_app.py:63 | lowercasing keeps the length, maps each capital to its small letter, leaves every other character in place, and leaves no capital |
| `Seqs.Filter` | classification_app.py:65-67 | deleting a class of elements keeps only elements of the class's complement, never lengthens, and leaves an order-preserving subsequence of the input |
| `Seqs.FilterCounts` | classification_app.py:65-67 | deletion keeps every occurrence of a kept value and no occurrence of a deleted one |
| `Seqs.FilterFilter` | classification_app.py:65-67 | two deletions in a row are one deletion by the conjunction of the two keep-tests |
| `Seqs.FilterKeepsAll` | classification_app.py:65-67 | a deletion changes nothing exactly when no element belongs to the deleted class |
| `Seqs.SubsequenceTransitive` | classification_app.py:64-67 | a subsequence of a subsequence is a subsequence, so a chain of deletions is a deletion |
| `Seqs.SubsequenceLength` | classification_app.py:64-67 | a subsequence is never longer than the sequence it was taken from |
| `Seqs.SubsequenceContents` | classification_app.py:64-67 | every element of a subsequence occurs in the sequence it was taken from |
| `Preprocess.RemoveNewlines` | classification_app.py:65 | no line feed is left; every other character, carriage return and tab included, keeps its count; the result is an ordered subsequence of the input |
| `Preprocess.RemovePunctuation` | classification_app.py:66 | no `string.punctuation` character is left; every other character keeps its count; the result is an ordered subsequence |
| `Preprocess.RemoveDigits` | classification_app.py:67 | no ASCII digit is left; every other character keeps its count; the result is an ordered subsequence |
| `Preprocess.CleanText` | classification_app.py:62-67 | the text handed to the tokeniser has no capital, line feed, punctuation or digit and is an ordered subsequence of, so never longer than, the decoded and lowercased review |
| `Preprocess.CleanTextIsOneFilter` | classification_app.py:63-67 | lines 64 to 67 together delete exactly the line feeds, punctuation and digits of the lowercased text and nothing else |
| `Urls.MatchAsWritten` | classification_app.py:64 | a match of the pattern as written contains a capital `S` |
| `Urls.StripUrlsAsWritten` | classification_app.py:64 | the URL step as written only deletes: its result is an ordered subsequence of its input |
| `Urls.StripUrlsAsWrittenWithoutS` | classification_app.py:64 | on text without a capital `S` the URL step as written changes nothing |
| `Preprocess.UrlStepIsIdentity` | classification_app.py:63-64 | after lowercasing, the URL step as written is the identity on every review |
| `Urls.OrdinaryUrlSurvivesAsWritten` | classification_app.py:64 | `http://a b` passes the URL step as written unchanged |
| `Urls.StripUrls` | classification_app.py:64 | the URL step with the intended pattern only deletes: an ordered subsequence of its input |
| `Urls.MatchIsWord` | classification_app.py:64 | an intended match runs from the URL prefix to the end of its whitespace-delimited word |
| `Urls.StripUrlsLeavesNoUrl` | classification_app.py:64 | after the intended URL step no position starts `http://`, `https://` or `www.` followed by a non-space character |
| `Urls.StripUrlsWithoutUrl` | classification_app.py:64 | text with no URL passes the intended step unchanged |
| `Urls.StripUrlsIdempotent` | classification_app.py:64 | applying the intended step twice is the same as applying it once |
| `Urls.OrdinaryUrlRemoved` | classification_app.py:64 | the intended step turns `http://a b` into ` b` |
| `Preprocess.KeepAndLemmatize` | classification_app.py:68-71 | the list has one entry per token that is not a stopword, in token order, and that entry is the lemma of the token: the stopword test is on the token, before lemmatising |
| `Preprocess.StopwordLemmaKept` | classification_app.py:69-72 | because the test precedes lemmatising, a token whose lemma is a stopword still reaches the output |
| `Seqs.JoinSpace` | classification_app.py:72 | the join of no words is `""`; otherwise it starts with the first word and its length is the words' total length plus one separator per gap |
| `Seqs.SplitJoin` | classification_app.py:72 | splitting the single-space join at spaces gives back the words, for any non-empty list of space-free words |
| `Seqs.JoinSpaceShape` | classification_app.py:72 | the join of non-empty space-free words is empty exactly when there are none, and otherwise neither starts nor ends with a space |
| `Preprocess.PreprocessReview` | classification_app.py:61-72 | the normalised review is `""` when no token survives the stopword filter, and otherwise begins with the lemma of the first kept token |
| `Preprocess.PreprocessTokens` | classification_app.py:61-72 | the output's space-separated pieces are exactly the lemmas of the kept tokens in order, when some token is kept and no kept token's lemma holds a space |
| `Preprocess.PreprocessEmpty` | classification_app.py:61-72 | the output is `""` when every token is a stopword; when every kept token's lemma is non-empty and space-free, only then, and otherwise it has no leading or trailing space |
| `Preprocess.EmptyReview` | classification_app.py:61-72 | an empty review normalises to `""` when decoding and tokenising empty text give nothing |
| `Labels.LabelFor` | classification_app.py:75-79 | index 0 is "Depression", 1 "Diabetes Type 2", 2 "High Blood Pressure", and the name is "Unknown" exactly for every other index |
| `Labels.LabelForInjective` | classification_app.py:75-79 | distinct known indices have distinct names |
| `Labels.StyleFor` | classification_app.py:96-107 | purple with the thought balloon exactly for "Depression", blue with the candy exactly for "Diabetes Type 2", red with the heart for every other name |
| `Labels.StyleForIndex` | classification_app.py:93-107 | from the index: purple exactly for 0, blue exactly for 1, and red for 2 and every unknown index alike |
| `App.LeadingSpace` | classification_app.py:87 | the front of the review up to the returned index is whitespace, and the character at that index, if any, is not |
| `App.TrailingStart` | classification_app.py:87 | the back of the review from the returned index on is whitespace, and the character just before it, if any, is not |
| `App.Strip` | classification_app.py:87 | the stripped review is the slice of the input that starts after its leading whitespace and is followed only by whitespace; it is empty exactly when every character is whitespace, and otherwise starts and ends with a non-space |
| `App.StripIdempotent` | classification_app.py:87 | stripping a stripped string changes nothing |
| `App.Submit` | classification_app.py:87-107 | a press yields a warning exactly for a blank review; otherwise a card whose name is the label of the classifier's answer on the normalised review, hence one of the three conditions or "Unknown", and whose style is the one chosen for that name |
| `App.BlankNeverClassified` | classification_app.py:87-91 | for a blank review the outcome does not depend on the classifier at all: it is never consulted |
| `App.SameNormalFormSameCard` | classification_app.py:89-93 | two non-blank reviews with the same normalised text get the same card |

## Left out

- The entity decoding of line 62 (`html.unescape`), the tokeniser of line 68 (`nltk.word_tokenize`), the English stopword list of line 69 and WordNet lemmatisation of lines 70-71 are library behaviour; they are the parameters `unescape`, `tokenize`, `stops` and `lemmatize` of `Preprocess.Resources`.
- `vectorizer.transform` and `model.predict` (lines 91-92) are trained artifacts; `App.Submit` takes their composition as the parameter `classify: string -> int`.
- The page setup, style sheet, text area, button and HTML rendering (lines 11, 26-58, 82-86, 88, 109-113), the resource downloads (lines 14-16) and the loading of `model.pkl` and `vectorizer.pkl` (lines 19-23) are user interface and start-up input; `App.Outcome` records only what is shown, not how.
- Preprocess.Lower: only ASCII capitals are lowercased; Python's `str.lower` also maps non-ASCII letters (and some to several characters), which this model leaves unchanged.
- Preprocess.RemoveDigits: only the ASCII digits are deleted; `\d` in a `str` pattern also matches every other Unicode decimal digit.
- Regular expressions in general are not modelled: each of the two patterns (as written and as intended) is a dedicated scanner that follows `re.sub`'s leftmost, first-alternative, greedy matching for that pattern alone.
- The label index is an unbounded integer; the NumPy integer type the classifier returns is not modelled.

## Findings

| source | as written | input that shows it | evidently intended | confidence | as-written member | corrected member |
|---|---|---|---|---|---|---|
| classification_app.py:64 | `r'https?://\\S+\|www\\.\\S+'`: in a raw string the doubled backslash matches a literal backslash, so the pattern needs a backslash and capital `S` characters, and after the lowercasing of line 63 it can never match | `http://a b` passes the step unchanged, and every review passes it unchanged | `r'https?://\S+\|www\.\S+'`: delete each `http://`, `https://` or `www.` word up to the next whitespace | high; not executed | `Urls.OrdinaryUrlSurvivesAsWritten` | `Urls.StripUrlsLeavesNoUrl` |

`Preprocess.CleanText` keeps line 64 as written, because the model follows the
code: line 90 passes this function's output, produced with the URL step as
written, to `vectorizer.transform` on line 91. The corrected step, `Urls.StripUrls`,
is modelled beside it with its properties proved: no URL survives it, it only
deletes, it leaves text without a URL unchanged, and applying it twice is the
same as applying it once.
