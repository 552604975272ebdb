/** One press of the "Predict Condition" button (lines 86 to 107): a blank review
    is turned away with a warning; any other review is normalised, classified,
    named and styled. The vectorizer and the trained model are one parameter,
    `classify`, standing for `model.predict(vectorizer.transform([cleaned]))[0]`. */
module App {
  import opened Chars
  import opened Preprocess
  import opened Labels

  /** How much whitespace `s.lstrip()` removes from the front: the index of the
      first non-whitespace character, or `|s|` when there is none. */
  function LeadingSpace(s: string): (a: nat)
    ensures a <= |s|
    ensures forall i :: 0 <= i < a ==> IsSpace(s[i])
    ensures a < |s| ==> !IsSpace(s[a])
  {
    if s != [] && IsSpace(s[0]) then 1 + LeadingSpace(s[1..]) else 0
  }

  /** Where `s.rstrip()` cuts: one past the last non-whitespace character, or 0
      when there is none. */
  function TrailingStart(s: string): (b: nat)
    ensures b <= |s|
    ensures forall i :: b <= i < |s| ==> IsSpace(s[i])
    ensures b > 0 ==> !IsSpace(s[b - 1])
  {
    if s != [] && IsSpace(s[|s| - 1]) then TrailingStart(s[..|s| - 1]) else |s|
  }

  /** `s.strip()`: the review between its leading whitespace (`LeadingSpace(s)`
      characters, all whitespace) and its trailing whitespace. */
  function Strip(s: string): (r: string)
    ensures LeadingSpace(s) + |r| <= |s|
    ensures r == s[LeadingSpace(s)..LeadingSpace(s) + |r|]
    ensures forall i :: LeadingSpace(s) + |r| <= i < |s| ==> IsSpace(s[i])
    ensures r == "" <==> forall i :: 0 <= i < |s| ==> IsSpace(s[i])
    ensures r != "" ==> !IsSpace(r[0]) && !IsSpace(r[|r| - 1])
  {
    var a, b := LeadingSpace(s), TrailingStart(s);
    if a == |s| then ""
    else
      assert a < b by {
        assert !IsSpace(s[a]);
      }
      s[a..b]
  }

  /** Stripping twice strips nothing more. */
  lemma StripIdempotent(s: string)
    ensures Strip(Strip(s)) == Strip(s)
  {
    var r := Strip(s);
    if r != "" {
      assert LeadingSpace(r) == 0;
      assert TrailingStart(r) == |r|;
    }
  }

  /** What the page shows after the button is pressed. */
  datatype Outcome = Warning | Card(name: string, style: Style)

  /** Lines 87 to 107. */
  function Submit(res: Resources, classify: string -> int, input: string): (o: Outcome)
    ensures o.Warning? <==> forall i :: 0 <= i < |input| ==> IsSpace(input[i])
    ensures o.Card? ==> o.name in {"Depression", "Diabetes Type 2", "High Blood Pressure", Fallback}
    ensures o.Card? ==> o.name == LabelFor(classify(PreprocessReview(res, input)))
    ensures o.Card? ==> o.style == StyleFor(o.name)
  {
    if Strip(input) == "" then Warning
    else
      var name := LabelFor(classify(PreprocessReview(res, input)));
      Card(name, StyleFor(name))
  }

  /** A blank review never reaches the classifier: whatever it would answer, the
      outcome is the same warning. */
  lemma BlankNeverClassified(res: Resources, classify: string -> int, other: string -> int, input: string)
    requires forall i :: 0 <= i < |input| ==> IsSpace(input[i])
    ensures Submit(res, classify, input) == Submit(res, other, input) == Warning
  {
  }

  /** A review that is not blank gets the card of the classifier's answer on its
      normalised text: two reviews with the same normal form get the same card. */
  lemma SameNormalFormSameCard(res: Resources, classify: string -> int, a: string, b: string)
    requires exists i :: 0 <= i < |a| && !IsSpace(a[i])
    requires exists i :: 0 <= i < |b| && !IsSpace(b[i])
    requires PreprocessReview(res, a) == PreprocessReview(res, b)
    ensures Submit(res, classify, a) == Submit(res, classify, b)
    ensures Submit(res, classify, a).Card?
  {
  }
}
