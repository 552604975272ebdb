/** The URL-deletion step of the review normaliser: `re.sub(pattern, '', text)`
    with the pattern exactly as the source writes it, and with the pattern its
    authors evidently meant. Both scan left to right as `re.sub` does: at each
    position the first alternative is tried, then the second; a match is
    deleted and the scan resumes after it, otherwise one character is kept. */
module Urls {
  import opened Chars
  import opened Seqs

  predicate StartsWith(s: string, p: string) {
    |p| <= |s| && forall i :: 0 <= i < |p| ==> s[i] == p[i]
  }

  /** Whether `s` starts with `p` depends only on its first `|p|` characters. */
  lemma StartsWithAgree(s: string, t: string, p: string, m: nat)
    requires |p| <= m <= |s| && m <= |t|
    requires forall i :: 0 <= i < m ==> s[i] == t[i]
    ensures StartsWith(s, p) == StartsWith(t, p)
  {
  }

  /** Length of the run of `c` at the head of `s`. */
  function RunOf(s: string, c: char): (n: nat)
    ensures n <= |s|
    ensures forall i :: 0 <= i < n ==> s[i] == c
    ensures n < |s| ==> s[n] != c
  {
    if s != [] && s[0] == c then 1 + RunOf(s[1..], c) else 0
  }

  /** Length of `https?://` at the head of `s` (0 when absent); the optional `s`
      is tried first. */
  function SchemeLength(s: string): nat {
    if StartsWith(s, "https://") then 8
    else if StartsWith(s, "http://") then 7
    else 0
  }

  // ---------------------------------------------------------------------------
  // As written: r'https?://\\S+|www\\.\\S+'. In a raw string the doubled
  // backslash is a regex escape of a backslash, so `\\S+` is one backslash
  // followed by one or more capital S, and `\\.\\` is a backslash, any
  // character but a line feed, and a backslash.
  // ---------------------------------------------------------------------------

  /** Length of the match of the pattern as written at the head of `s`, 0 if none. */
  function MatchAsWritten(s: string): (n: nat)
    ensures n <= |s|
    ensures n > 0 ==> 'S' in s[..n]
  {
    var k := SchemeLength(s);
    if k > 0 && k < |s| && s[k] == '\\' && RunOf(s[k + 1..], 'S') > 0 then
      assert s[..k + 1 + RunOf(s[k + 1..], 'S')][k + 1] == s[k + 1..][0];
      k + 1 + RunOf(s[k + 1..], 'S')
    else if StartsWith(s, "www\\") && |s| > 6 && s[4] != '\n' && s[5] == '\\' && RunOf(s[6..], 'S') > 0 then
      assert s[..6 + RunOf(s[6..], 'S')][6] == s[6..][0];
      6 + RunOf(s[6..], 'S')
    else 0
  }

  /** classification_app.py line 64 as written. */
  function StripUrlsAsWritten(s: string): (r: string)
    ensures IsSubsequence(r, s)
    decreases |s|
  {
    if s == [] then []
    else
      var n := MatchAsWritten(s);
      if n > 0 then
        var r := StripUrlsAsWritten(s[n..]);
        DropPrefixSubsequence(r, s, n);
        r
      else
        [s[0]] + StripUrlsAsWritten(s[1..])
  }

  lemma {:induction false} DropPrefixSubsequence<T>(r: seq<T>, s: seq<T>, n: nat)
    requires n <= |s| && IsSubsequence(r, s[n..])
    ensures IsSubsequence(r, s)
    decreases n
  {
    if n > 0 {
      assert s[1..][n - 1..] == s[n..];
      DropPrefixSubsequence(r, s[1..], n - 1);
    }
  }

  /** Text without a capital S is never touched by the pattern as written. */
  lemma {:induction false} StripUrlsAsWrittenWithoutS(s: string)
    requires 'S' !in s
    ensures StripUrlsAsWritten(s) == s
    decreases |s|
  {
    if s != [] {
      var n := MatchAsWritten(s);
      if n > 0 {
        assert false;
      }
      assert 'S' !in s[1..] by {
        forall i | 0 <= i < |s[1..]| ensures s[1..][i] != 'S' {
          assert s[1..][i] == s[i + 1];
        }
      }
      StripUrlsAsWrittenWithoutS(s[1..]);
      assert [s[0]] + s[1..] == s;
    }
  }

  /** An ordinary URL survives the pattern as written. */
  lemma OrdinaryUrlSurvivesAsWritten(s: string)
    requires s == "http://a b"
    ensures StripUrlsAsWritten(s) == s
  {
    StripUrlsAsWrittenWithoutS(s);
  }

  // ---------------------------------------------------------------------------
  // As intended: r'https?://\S+|www\.\S+', a URL prefix followed by the rest
  // of its whitespace-delimited word.
  // ---------------------------------------------------------------------------

  /** Length of the run of non-whitespace at the head of `s`. */
  function WordLength(s: string): (n: nat)
    ensures n <= |s|
    ensures forall i :: 0 <= i < n ==> !IsSpace(s[i])
    ensures n < |s| ==> IsSpace(s[n])
  {
    if s != [] && !IsSpace(s[0]) then 1 + WordLength(s[1..]) else 0
  }

  /** Length of a URL prefix (`http://`, `https://` or `www.`) at the head of `s`. */
  function UrlPrefixLength(s: string): (k: nat)
    ensures k <= |s|
    ensures forall i :: 0 <= i < k ==> !IsSpace(s[i])
  {
    if SchemeLength(s) > 0 then SchemeLength(s) else if StartsWith(s, "www.") then 4 else 0
  }

  /** Length of the match of the intended pattern at the head of `s`, 0 if none. */
  function MatchUrl(s: string): (n: nat)
    ensures n <= |s|
  {
    var k := UrlPrefixLength(s);
    if k > 0 && WordLength(s[k..]) > 0 then k + WordLength(s[k..]) else 0
  }

  /** The URL-deletion step with the pattern as intended. */
  function StripUrls(s: string): (r: string)
    ensures IsSubsequence(r, s)
    decreases |s|
  {
    if s == [] then []
    else
      var n := MatchUrl(s);
      if n > 0 then
        var r := StripUrls(s[n..]);
        DropPrefixSubsequence(r, s, n);
        r
      else
        [s[0]] + StripUrls(s[1..])
  }

  /** No position of `s` starts a URL. */
  predicate NoUrl(s: string) {
    forall i :: 0 <= i < |s| ==> MatchUrl(s[i..]) == 0
  }

  lemma {:induction false} WordLengthSplit(s: string, k: nat)
    requires k <= |s| && forall i :: 0 <= i < k ==> !IsSpace(s[i])
    ensures WordLength(s) == k + WordLength(s[k..])
    decreases k
  {
    if k > 0 {
      assert s[1..][k - 1..] == s[k..];
      WordLengthSplit(s[1..], k - 1);
    }
  }

  /** A match of the intended pattern is the whole word at the head of `s`. */
  lemma {:induction false} MatchIsWord(s: string)
    requires MatchUrl(s) > 0
    ensures MatchUrl(s) == WordLength(s)
  {
    WordLengthSplit(s, UrlPrefixLength(s));
  }

  /** A URL prefix is recognised from at most one character past its own length. */
  lemma UrlPrefixAgree(t: string, s: string, m: nat)
    requires m <= |t| && m <= |s|
    requires forall i :: 0 <= i < m ==> s[i] == t[i]
    requires 0 < UrlPrefixLength(t) < m
    ensures UrlPrefixLength(s) == UrlPrefixLength(t)
  {
    if UrlPrefixLength(t) == 4 {
      StartsWithAgree(s, t, "www.", 4);
      assert s[0] == t[0] == 'w';
    } else {
      StartsWithAgree(s, t, "https://", 8);
      StartsWithAgree(s, t, "http://", 7);
    }
  }

  /** Whether `s` starts a URL depends only on its leading word, and a longer
      word with the same beginning starts one too. */
  lemma MatchExtends(t: string, s: string)
    requires WordLength(t) <= WordLength(s)
    requires forall i :: 0 <= i < WordLength(t) ==> s[i] == t[i]
    requires MatchUrl(t) > 0
    ensures MatchUrl(s) > 0
  {
    var k := UrlPrefixLength(t);
    WordLengthSplit(t, k);
    UrlPrefixAgree(t, s, WordLength(t));
    assert s[k..][0] == s[k] == t[k] == t[k..][0];
  }

  /** A string that starts with whitespace does not start a URL. */
  lemma SpaceStartsNoUrl(t: string)
    requires t != [] && IsSpace(t[0])
    ensures MatchUrl(t) == 0
  {
  }

  /** Deletion resumes at whitespace, so what follows a deleted URL has no leading word. */
  lemma StripUrlsAtSpace(t: string)
    requires t == [] || IsSpace(t[0])
    ensures WordLength(StripUrls(t)) == 0
  {
    if t != [] {
      SpaceStartsNoUrl(t);
      assert StripUrls(t)[0] == t[0];
    }
  }

  /** The leading word of the result is a beginning of the leading word of the input. */
  lemma {:induction false} StripUrlsHead(s: string)
    ensures WordLength(StripUrls(s)) <= WordLength(s)
    ensures forall i :: 0 <= i < WordLength(StripUrls(s)) ==> StripUrls(s)[i] == s[i]
    decreases |s|
  {
    if s != [] {
      var n := MatchUrl(s);
      if n > 0 {
        MatchIsWord(s);
        StripUrlsAtSpace(s[n..]);
      } else if !IsSpace(s[0]) {
        var r, r' := StripUrls(s), StripUrls(s[1..]);
        StripUrlsHead(s[1..]);
        assert r == [s[0]] + r';
        var m := WordLength(r');
        assert WordLength(r) == 1 + m;
        forall i | 0 <= i < 1 + m ensures r[i] == s[i] {
          if i > 0 {
            assert r[i] == r'[i - 1] == s[1..][i - 1];
          }
        }
      }
    }
  }

  /** No URL survives the intended pattern. */
  lemma {:induction false} StripUrlsLeavesNoUrl(s: string)
    ensures NoUrl(StripUrls(s))
    decreases |s|
  {
    if s != [] {
      var n := MatchUrl(s);
      if n > 0 {
        StripUrlsLeavesNoUrl(s[n..]);
      } else {
        var r := StripUrls(s);
        var r' := StripUrls(s[1..]);
        StripUrlsLeavesNoUrl(s[1..]);
        assert r == [s[0]] + r';
        forall i | 0 <= i < |r| ensures MatchUrl(r[i..]) == 0 {
          if i == 0 {
            StripUrlsHead(s);
            if MatchUrl(r) > 0 { MatchExtends(r, s); }
            assert r[0..] == r;
          } else {
            assert r[i..] == r'[i - 1..];
          }
        }
      }
    }
  }

  /** Text without a URL is left as it is. */
  lemma {:induction false} StripUrlsWithoutUrl(s: string)
    requires NoUrl(s)
    ensures StripUrls(s) == s
    decreases |s|
  {
    if s != [] {
      assert MatchUrl(s[0..]) == 0 && s[0..] == s;
      assert NoUrl(s[1..]) by {
        forall i | 0 <= i < |s[1..]| ensures MatchUrl(s[1..][i..]) == 0 {
          assert s[1..][i..] == s[i + 1..];
        }
      }
      StripUrlsWithoutUrl(s[1..]);
      assert [s[0]] + s[1..] == s;
    }
  }

  /** The intended step is idempotent. */
  lemma StripUrlsIdempotent(s: string)
    ensures StripUrls(StripUrls(s)) == StripUrls(s)
  {
    StripUrlsLeavesNoUrl(s);
    StripUrlsWithoutUrl(StripUrls(s));
  }

  /** The intended pattern deletes an ordinary URL and the rest of its word. */
  lemma OrdinaryUrlRemoved()
    ensures StripUrls("http://a b") == " b"
  {
    var s := "http://a b";
    assert s[4] == ':';
    assert StartsWith(s, "http://") && !StartsWith(s, "https://");
    assert s[7..] == "a b";
    assert WordLength("a b") == 1 by { assert "a b"[1..] == " b"; }
    assert MatchUrl(s) == 8;
    var t := s[8..];
    assert t == " b";
    assert MatchUrl(t) == 0 by { assert !StartsWith(t, "http://") && !StartsWith(t, "https://") && !StartsWith(t, "www."); }
    assert t[1..] == "b";
    assert MatchUrl("b") == 0 by { assert !StartsWith("b", "www."); }
    assert "b"[1..] == [];
  }
}
