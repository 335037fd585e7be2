/**
  `String.prototype.split` with a regular-expression separator, for the two
  shapes of separator the parser uses, followed by `.filter(s => s.length)`.
  The separator regular expressions carry no `g` flag, but `split` ignores
  that flag and cuts at every match from left to right; the piece after the
  last match is always kept, so the result is never empty (an empty input
  gives one empty piece).
 */
module StringSplit {
  import opened CharClasses

  /** The concatenation of a list of strings. */
  function Flatten(ps: seq<seq<char>>): seq<char>
  {
    if |ps| == 0 then [] else ps[0] + Flatten(ps[1..])
  }

  /**
    `s.split(re)` where `re` matches one character of class `k`: the pieces
    between consecutive separator characters. Adjacent separators leave an
    empty piece between them.
   */
  function SplitEach(s: seq<char>, k: CharClass): (r: seq<seq<char>>)
    ensures |r| >= 1
  {
    if |s| == 0 then [[]]
    else if InClass(s[0], k) then [[]] + SplitEach(s[1..], k)
    else
      var rest := SplitEach(s[1..], k);
      [[s[0]] + rest[0]] + rest[1..]
  }

  /** There is one more piece than there are separator characters. */
  lemma {:induction false} SplitEachCount(s: seq<char>, k: CharClass)
    ensures |SplitEach(s, k)| == |s| - |Without(s, k)| + 1
  {
    if |s| > 0 {
      SplitEachCount(s[1..], k);
    }
  }

  /** The pieces spell the input with its separators removed. */
  lemma {:induction false} SplitEachSpells(s: seq<char>, k: CharClass)
    ensures Flatten(SplitEach(s, k)) == Without(s, k)
  {
    if |s| > 0 {
      SplitEachSpells(s[1..], k);
      var rest := SplitEach(s[1..], k);
      if InClass(s[0], k) {
        assert SplitEach(s, k)[1..] == rest;
      } else {
        var r := [[s[0]] + rest[0]] + rest[1..];
        assert Flatten(rest) == rest[0] + Flatten(rest[1..]);
        assert r[1..] == rest[1..];
        assert Flatten(r) == [s[0]] + rest[0] + Flatten(rest[1..]);
      }
    }
  }

  /**
    `s.split(re)` where `re` matches a maximal run of one or more characters
    of class `k` (the greedy `[...]+`): the pieces between consecutive runs.
    Two runs are always separated by at least one other character, so every
    piece strictly between the first and the last is non-empty.
   */
  function SplitRuns(s: seq<char>, k: CharClass): (r: seq<seq<char>>)
    ensures |r| >= 1
    decreases |s|
  {
    if |s| == 0 then [[]]
    else if InClass(s[0], k) then
      [[]] + SplitRuns(s[RunLength(s, k)..], k)
    else
      var rest := SplitRuns(s[1..], k);
      [[s[0]] + rest[0]] + rest[1..]
  }

  /**
    The first piece is empty exactly when the input is empty or starts with
    a separator, and no piece strictly between the first and the last is empty.
   */
  lemma {:induction false} SplitRunsShape(s: seq<char>, k: CharClass)
    ensures SplitRuns(s, k)[0] == [] <==> |s| == 0 || InClass(s[0], k)
    ensures forall i :: 0 < i < |SplitRuns(s, k)| - 1 ==> |SplitRuns(s, k)[i]| > 0
    decreases |s|
  {
    if |s| > 0 {
      var r := SplitRuns(s, k);
      if InClass(s[0], k) {
        var t := s[RunLength(s, k)..];
        SplitRunsShape(t, k);
        var rest := SplitRuns(t, k);
        assert r == [[]] + rest;
        assert |t| == 0 ==> |rest| == 1;
        assert forall i :: 0 < i < |r| - 1 ==> r[i] == rest[i - 1];
      } else {
        SplitRunsShape(s[1..], k);
        var rest := SplitRuns(s[1..], k);
        assert r == [[s[0]] + rest[0]] + rest[1..];
        assert forall i :: 0 < i < |r| ==> r[i] == rest[i];
      }
    }
  }

  /** `.filter(s => s.length)`: the non-empty pieces, in order. */
  function NonEmpty(ps: seq<seq<char>>): (r: seq<seq<char>>)
    ensures |r| <= |ps|
    ensures forall i :: 0 <= i < |r| ==> |r[i]| > 0
    ensures |ps| == 1 ==> r == (if |ps[0]| > 0 then ps else [])
  {
    if |ps| == 0 then []
    else if |ps[0]| == 0 then NonEmpty(ps[1..])
    else
      var r := [ps[0]] + NonEmpty(ps[1..]);
      assert r[1..] == NonEmpty(ps[1..]);
      r
  }

  /** The filter loses no character of the concatenation. */
  lemma {:induction false} NonEmptyKeepsText(ps: seq<seq<char>>)
    ensures Flatten(NonEmpty(ps)) == Flatten(ps)
  {
    if |ps| > 0 {
      NonEmptyKeepsText(ps[1..]);
      if |ps[0]| > 0 {
        assert ([ps[0]] + NonEmpty(ps[1..]))[1..] == NonEmpty(ps[1..]);
      }
    }
  }

  /** Filtering distributes over concatenation, so the filter keeps the non-empty pieces in order. */
  lemma {:induction false} NonEmptyAppend(a: seq<seq<char>>, b: seq<seq<char>>)
    ensures NonEmpty(a + b) == NonEmpty(a) + NonEmpty(b)
  {
    if |a| == 0 {
      assert a + b == b;
    } else {
      assert (a + b)[1..] == a[1..] + b;
      NonEmptyAppend(a[1..], b);
    }
  }

  lemma ConsConcat(x: seq<char>, z: seq<char>)
    requires |x| > 0
    ensures [x[0]] + (x[1..] + z) == x + z
  {
    assert x == [x[0]] + x[1..];
  }

  /** A prefix free of separators is glued onto the front of the first piece. */
  lemma {:induction false} SplitEachPrefix(x: seq<char>, y: seq<char>, k: CharClass)
    requires NoneIn(x, k)
    ensures SplitEach(x + y, k) == [x + SplitEach(y, k)[0]] + SplitEach(y, k)[1..]
  {
    if |x| > 0 {
      var t := x[1..] + y;
      assert (x + y)[0] == x[0] && (x + y)[1..] == t;
      assert !InClass(x[0], k);
      SplitEachPrefix(x[1..], y, k);
      var e := SplitEach(t, k);
      var p := SplitEach(y, k);
      assert SplitEach(x + y, k) == [[x[0]] + e[0]] + e[1..];
      assert e[0] == x[1..] + p[0] && e[1..] == p[1..];
      ConsConcat(x, p[0]);
      var q := x + p[0];
      assert SplitEach(x + y, k) == [q] + p[1..];
    } else {
      assert x + y == y;
      var p := SplitEach(y, k);
      assert x + p[0] == p[0];
      assert p == [p[0]] + p[1..];
    }
  }

  /** The same for a split on runs. */
  lemma {:induction false} SplitRunsPrefix(x: seq<char>, y: seq<char>, k: CharClass)
    requires NoneIn(x, k)
    ensures SplitRuns(x + y, k) == [x + SplitRuns(y, k)[0]] + SplitRuns(y, k)[1..]
  {
    if |x| > 0 {
      var t := x[1..] + y;
      assert (x + y)[0] == x[0] && (x + y)[1..] == t;
      assert !InClass(x[0], k);
      SplitRunsPrefix(x[1..], y, k);
      var e := SplitRuns(t, k);
      var p := SplitRuns(y, k);
      assert SplitRuns(x + y, k) == [[x[0]] + e[0]] + e[1..];
      assert e[0] == x[1..] + p[0] && e[1..] == p[1..];
      ConsConcat(x, p[0]);
      var q := x + p[0];
      assert SplitRuns(x + y, k) == [q] + p[1..];
    } else {
      assert x + y == y;
      var p := SplitRuns(y, k);
      assert x + p[0] == p[0];
      assert p == [p[0]] + p[1..];
    }
  }

  /** Separators at the front only produce empty pieces, which the filter drops. */
  lemma {:induction false} SplitEachSkipsSeparators(x: seq<char>, y: seq<char>, k: CharClass)
    requires AllIn(x, k)
    ensures NonEmpty(SplitEach(x + y, k)) == NonEmpty(SplitEach(y, k))
  {
    if |x| > 0 {
      assert (x + y)[1..] == x[1..] + y;
      SplitEachSkipsSeparators(x[1..], y, k);
      assert SplitEach(x + y, k) == [[]] + SplitEach(x[1..] + y, k);
    } else {
      assert x + y == y;
    }
  }

  /**
    A non-empty separator-free prefix that ends where a separator (or the
    input) begins comes out of the filtered split as one whole piece.
   */
  lemma PiecesPeelPiece(x: seq<char>, y: seq<char>, k: CharClass)
    requires |x| > 0 && NoneIn(x, k)
    requires |y| == 0 || InClass(y[0], k)
    ensures NonEmpty(SplitEach(x + y, k)) == [x] + NonEmpty(SplitEach(y, k))
  {
    var p := SplitEach(y, k);
    SplitEachPrefix(x, y, k);
    assert p[0] == [];
    assert x + p[0] == x;
    NonEmptyAppend([x], p[1..]);
    assert p == [p[0]] + p[1..];
    NonEmptyAppend([p[0]], p[1..]);
  }

  /**
    Splitting at every separator character and splitting at maximal runs of
    separators give the same first piece and, once empty pieces are
    dropped, the same remaining pieces.
   */
  lemma {:induction false} EachAndRunsAgreeParts(s: seq<char>, k: CharClass)
    ensures SplitEach(s, k)[0] == SplitRuns(s, k)[0]
    ensures NonEmpty(SplitEach(s, k)[1..]) == NonEmpty(SplitRuns(s, k)[1..])
    decreases |s|
  {
    if |s| == 0 {
    } else if InClass(s[0], k) {
      var n := RunLength(s, k);
      var t := s[n..];
      assert NonEmpty(SplitEach(s, k)[1..]) == NonEmpty(SplitEach(t, k)) by {
        assert s[1..] == s[1..n] + t;
        assert AllIn(s[1..n], k) by {
          forall i | 0 <= i < n - 1 ensures InClass(s[1..n][i], k) {
            assert s[1..n][i] == s[..n][i + 1];
          }
        }
        SplitEachSkipsSeparators(s[1..n], t, k);
        assert SplitEach(s, k)[1..] == SplitEach(s[1..], k);
      }
      assert SplitRuns(s, k)[1..] == SplitRuns(t, k);
      EachAndRunsAgreeParts(t, k);
      FilteredAgree(SplitEach(t, k), SplitRuns(t, k));
    } else {
      EachAndRunsAgreeParts(s[1..], k);
    }
  }

  /** Lists of pieces that agree on the first piece and on the filtered rest agree when filtered whole. */
  lemma FilteredAgree(e: seq<seq<char>>, r: seq<seq<char>>)
    requires |e| > 0 && |r| > 0
    requires e[0] == r[0] && NonEmpty(e[1..]) == NonEmpty(r[1..])
    ensures NonEmpty(e) == NonEmpty(r)
  {
    assert e == [e[0]] + e[1..];
    assert r == [r[0]] + r[1..];
    NonEmptyAppend([e[0]], e[1..]);
    NonEmptyAppend([r[0]], r[1..]);
  }

  /**
    The two ways of splitting agree after the filter: a separator that
    matches one character yields the same non-empty pieces as one that
    matches whole runs of it.
   */
  lemma EachAndRunsAgree(s: seq<char>, k: CharClass)
    ensures NonEmpty(SplitEach(s, k)) == NonEmpty(SplitRuns(s, k))
  {
    EachAndRunsAgreeParts(s, k);
    FilteredAgree(SplitEach(s, k), SplitRuns(s, k));
  }
}
