/** Sequence operations the normaliser is built from: deleting the elements of
    a class (`re.sub` with a character class, a list comprehension's `if`),
    and Python's `" ".join` together with its inverse `str.split(" ")`. */
module Seqs {

  /** `a` is `b` with some elements deleted, the rest kept in order. */
  predicate IsSubsequence<T(==)>(a: seq<T>, b: seq<T>)
    decreases |b|
  {
    || a == []
    || (b != [] && ((a[0] == b[0] && IsSubsequence(a[1..], b[1..])) || IsSubsequence(a, b[1..])))
  }

  /** The elements of `s` that satisfy `keep`, in their original order. */
  function Filter<T(==)>(s: seq<T>, keep: T -> bool): (r: seq<T>)
    ensures |r| <= |s|
    ensures forall x :: x in r ==> x in s && keep(x)
    ensures IsSubsequence(r, s)
  {
    if s == [] then []
    else if keep(s[0]) then [s[0]] + Filter(s[1..], keep)
    else Filter(s[1..], keep)
  }

  /** Filtering keeps every occurrence of a kept value and none of the others. */
  lemma {:induction false} FilterCounts<T(!new)>(s: seq<T>, keep: T -> bool, x: T)
    ensures multiset(Filter(s, keep))[x] == if keep(x) then multiset(s)[x] else 0
  {
    if s != [] {
      FilterCounts(s[1..], keep, x);
      assert s == [s[0]] + s[1..];
      assert multiset(s) == multiset([s[0]]) + multiset(s[1..]);
    }
  }

  lemma {:induction false} SubsequenceTransitive<T>(a: seq<T>, b: seq<T>, c: seq<T>)
    requires IsSubsequence(a, b) && IsSubsequence(b, c)
    ensures IsSubsequence(a, c)
    decreases |c|
  {
    if a != [] {
      assert b != [] && c != [];
      if IsSubsequence(b, c[1..]) {
        SubsequenceTransitive(a, b, c[1..]);
      } else {
        assert b[0] == c[0] && IsSubsequence(b[1..], c[1..]);
        if a[0] == b[0] && IsSubsequence(a[1..], b[1..]) {
          SubsequenceTransitive(a[1..], b[1..], c[1..]);
        } else {
          SubsequenceTransitive(a, b[1..], c[1..]);
        }
      }
    }
  }

  lemma {:induction false} SubsequenceLength<T>(a: seq<T>, b: seq<T>)
    requires IsSubsequence(a, b)
    ensures |a| <= |b|
    decreases |b|
  {
    if a != [] {
      if IsSubsequence(a, b[1..]) {
        SubsequenceLength(a, b[1..]);
      } else {
        SubsequenceLength(a[1..], b[1..]);
      }
    }
  }

  lemma {:induction false} SubsequenceContents<T>(a: seq<T>, b: seq<T>)
    requires IsSubsequence(a, b)
    ensures forall x :: x in a ==> x in b
    decreases |b|
  {
    if a != [] {
      if IsSubsequence(a, b[1..]) {
        SubsequenceContents(a, b[1..]);
      } else {
        SubsequenceContents(a[1..], b[1..]);
        assert forall x :: x in a ==> x == a[0] || x in a[1..];
      }
    }
  }

  /** Filtering twice is filtering once by both conditions. */
  lemma {:induction false} FilterFilter<T(!new)>(s: seq<T>, p: T -> bool, q: T -> bool, both: T -> bool)
    requires forall x :: both(x) == (p(x) && q(x))
    ensures Filter(Filter(s, p), q) == Filter(s, both)
  {
    if s != [] {
      FilterFilter(s[1..], p, q, both);
      if p(s[0]) {
        assert Filter(s, p) == [s[0]] + Filter(s[1..], p);
        assert Filter(s, p)[1..] == Filter(s[1..], p);
      }
    }
  }

  /** Filtering deletes nothing exactly when every element is kept. */
  lemma {:induction false} FilterKeepsAll<T(!new)>(s: seq<T>, keep: T -> bool)
    ensures Filter(s, keep) == s <==> forall i :: 0 <= i < |s| ==> keep(s[i])
  {
    if s != [] {
      FilterKeepsAll(s[1..], keep);
      if !keep(s[0]) {
        assert |Filter(s, keep)| < |s|;
      } else if Filter(s, keep) == s {
        assert Filter(s[1..], keep) == s[1..];
        forall i | 0 <= i < |s| ensures keep(s[i]) {
          if i > 0 { assert s[i] == s[1..][i - 1]; }
        }
      }
    }
  }

  /** The total length of the words. */
  function TotalLength(ws: seq<string>): nat {
    if ws == [] then 0 else |ws[0]| + TotalLength(ws[1..])
  }

  /** Python's `" ".join(ws)`: the words in order with exactly one space between
      neighbours, so it starts with the first word and adds one character per gap. */
  function JoinSpace(ws: seq<string>): (r: string)
    ensures ws == [] ==> r == ""
    ensures ws != [] ==> ws[0] <= r && |r| == TotalLength(ws) + |ws| - 1
  {
    if ws == [] then ""
    else if |ws| == 1 then ws[0]
    else ws[0] + " " + JoinSpace(ws[1..])
  }

  /** Python's `s.split(" ")`: cut at every space; there is always at least one piece. */
  function SplitSpace(s: string): (r: seq<string>)
    ensures |r| >= 1
    ensures forall w :: w in r ==> ' ' !in w
  {
    if s == [] then [""]
    else
      var rest := SplitSpace(s[1..]);
      if s[0] == ' ' then [""] + rest
      else [[s[0]] + rest[0]] + rest[1..]
  }

  lemma {:induction false} SplitNoSpace(w: string)
    requires ' ' !in w
    ensures SplitSpace(w) == [w]
  {
    if w != [] {
      SplitNoSpace(w[1..]);
      assert [w[0]] + w[1..] == w;
    }
  }

  lemma {:induction false} SplitAfterWord(w: string, t: string)
    requires ' ' !in w
    ensures SplitSpace(w + " " + t) == [w] + SplitSpace(t)
  {
    if w == [] {
      assert w + " " + t == [' '] + t;
      assert (w + " " + t)[1..] == t;
    } else {
      assert (w + " " + t)[1..] == w[1..] + " " + t;
      SplitAfterWord(w[1..], t);
      assert [w[0]] + w[1..] == w;
    }
  }

  /** Joining with single spaces and splitting at spaces are inverse on a non-empty
      list of space-free words (empty words included). */
  lemma {:induction false} SplitJoin(ws: seq<string>)
    requires ws != []
    requires forall w :: w in ws ==> ' ' !in w
    ensures SplitSpace(JoinSpace(ws)) == ws
  {
    if |ws| == 1 {
      SplitNoSpace(ws[0]);
    } else {
      SplitJoin(ws[1..]);
      SplitAfterWord(ws[0], JoinSpace(ws[1..]));
      assert [ws[0]] + ws[1..] == ws;
    }
  }

  /** With non-empty, space-free words the joined string is empty exactly when there
      are no words, and otherwise it neither starts nor ends with a space. */
  lemma {:induction false} JoinSpaceShape(ws: seq<string>)
    requires forall i :: 0 <= i < |ws| ==> ws[i] != "" && ' ' !in ws[i]
    ensures JoinSpace(ws) == "" <==> ws == []
    ensures ws != [] ==> JoinSpace(ws)[0] != ' ' && JoinSpace(ws)[|JoinSpace(ws)| - 1] != ' '
  {
    if |ws| == 1 {
      assert ws[0][0] in ws[0] && ws[0][|ws[0]| - 1] in ws[0];
    } else if |ws| > 1 {
      JoinSpaceShape(ws[1..]);
      var j := JoinSpace(ws);
      assert j == ws[0] + " " + JoinSpace(ws[1..]);
      assert j[0] == ws[0][0] && ws[0][0] in ws[0];
      assert ws[1..][0] == ws[1];
      assert j[|j| - 1] == JoinSpace(ws[1..])[|JoinSpace(ws[1..])| - 1];
    }
  }
}
