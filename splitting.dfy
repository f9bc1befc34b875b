/**
 * String splitting as JavaScript's `String.prototype.split` does it: `Split`
 * for a separator that is a single character (`"a.b".split(".")`) and
 * `SplitRuns` for a regular expression matching one or more separator
 * characters (`s.split(/[\n,]+/)`).
 */
module Splitting {

  /** No character of `p` is a separator. */
  predicate NoneIn(p: string, seps: set<char>) {
    forall j :: 0 <= j < |p| ==> p[j] !in seps
  }

  /** The number of separator characters in `s`. */
  function CountIn(s: string, seps: set<char>): nat {
    if s == [] then 0 else (if s[0] in seps then 1 else 0) + CountIn(s[1..], seps)
  }

  /** Splits at every separator character. */
  function Split(s: string, seps: set<char>): (r: seq<string>)
    ensures |r| >= 1
    decreases |s|
  {
    if s == [] then [""]
    else
      var rest := Split(s[1..], seps);
      if s[0] in seps then [""] + rest
      else Extend(s[0], rest)
  }

  /** Puts `c` in front of the first piece. */
  function Extend(c: char, ps: seq<string>): (r: seq<string>)
    requires |ps| >= 1
    ensures |r| == |ps|
  {
    [[c] + ps[0]] + ps[1..]
  }

  lemma ExtendAppend(c: char, left: seq<string>, right: seq<string>)
    requires |left| >= 1
    ensures Extend(c, left + right) == Extend(c, left) + right
  {
    assert (left + right)[0] == left[0];
    assert (left + right)[1..] == left[1..] + right;
  }

  /** Concatenates the pieces with `sep` between each two of them. */
  function Join(ps: seq<string>, sep: char): string
    requires |ps| >= 1
    decreases |ps|
  {
    if |ps| == 1 then ps[0] else ps[0] + [sep] + Join(ps[1..], sep)
  }

  /** There is one more piece than there are separators, and no piece holds a separator. */
  lemma {:induction false} SplitPieces(s: string, seps: set<char>)
    ensures |Split(s, seps)| == 1 + CountIn(s, seps)
    ensures forall i :: 0 <= i < |Split(s, seps)| ==> NoneIn(Split(s, seps)[i], seps)
    decreases |s|
  {
    if s != [] {
      SplitPieces(s[1..], seps);
    }
  }

  lemma CountZero(s: string, seps: set<char>)
    ensures CountIn(s, seps) == 0 <==> NoneIn(s, seps)
  {
  }

  lemma JoinCons(x: char, ps: seq<string>, sep: char)
    requires |ps| >= 1
    ensures Join([[x] + ps[0]] + ps[1..], sep) == [x] + Join(ps, sep)
  {
    var qs := [[x] + ps[0]] + ps[1..];
    if |ps| > 1 {
      assert qs[1..] == ps[1..];
    }
  }

  /** Joining the pieces of a split with its separator gives the string back. */
  lemma {:induction false} JoinSplit(s: string, c: char)
    ensures Join(Split(s, {c}), c) == s
    decreases |s|
  {
    if s != [] {
      var rest := Split(s[1..], {c});
      JoinSplit(s[1..], c);
      if s[0] == c {
        assert ([""] + rest)[1..] == rest;
      } else {
        JoinCons(s[0], rest, c);
      }
    }
  }

  /** The split of a non-empty string, in terms of the split of its tail. */
  lemma SplitCons(s: string, seps: set<char>)
    requires s != []
    ensures s[0] in seps ==> Split(s, seps) == [""] + Split(s[1..], seps)
    ensures s[0] !in seps ==> Split(s, seps) == Extend(s[0], Split(s[1..], seps))
  {
  }

  /** Two strings that start alike and whose tails split alike up to a common end split alike up to that end. */
  lemma SplitPrepend(a: string, s: string, right: seq<string>, seps: set<char>)
    requires a != [] && s != [] && s[0] == a[0]
    requires Split(s[1..], seps) == Split(a[1..], seps) + right
    ensures Split(s, seps) == Split(a, seps) + right
  {
    if a[0] in seps {
      SplitPrependSeparator(a, s, right, seps);
    } else {
      SplitPrependOther(a, s, right, seps);
    }
  }

  lemma SplitPrependSeparator(a: string, s: string, right: seq<string>, seps: set<char>)
    requires a != [] && s != [] && s[0] == a[0] && a[0] in seps
    requires Split(s[1..], seps) == Split(a[1..], seps) + right
    ensures Split(s, seps) == Split(a, seps) + right
  {
    var left := Split(a[1..], seps);
    assert [""] + (left + right) == ([""] + left) + right;
  }

  lemma SplitPrependOther(a: string, s: string, right: seq<string>, seps: set<char>)
    requires a != [] && s != [] && s[0] == a[0] && a[0] !in seps
    requires Split(s[1..], seps) == Split(a[1..], seps) + right
    ensures Split(s, seps) == Split(a, seps) + right
  {
    ExtendAppend(a[0], Split(a[1..], seps), right);
  }

  /** A separator splits the string into the pieces on its left followed by those on its right. */
  lemma {:induction false} SplitConcat(a: string, c: char, b: string, seps: set<char>)
    requires c in seps
    ensures Split(a + [c] + b, seps) == Split(a, seps) + Split(b, seps)
    decreases |a|
  {
    var s := a + [c] + b;
    if a == [] {
      assert s[0] == c && s[1..] == b;
      SplitCons(s, seps);
    } else {
      assert s[0] == a[0] && s[1..] == a[1..] + [c] + b;
      SplitConcat(a[1..], c, b, seps);
      SplitPrepend(a, s, Split(b, seps), seps);
    }
  }

  /** A string without separators is a single piece. */
  lemma {:induction false} SplitNoSeparator(p: string, seps: set<char>)
    requires NoneIn(p, seps)
    ensures Split(p, seps) == [p]
    decreases |p|
  {
    if p != [] {
      SplitNoSeparator(p[1..], seps);
      assert [p[0]] + p[1..] == p;
    }
  }

  /** Splitting a join gives the pieces back, when no piece holds the separator. */
  lemma {:induction false} SplitJoin(ps: seq<string>, c: char)
    requires |ps| >= 1
    requires forall i :: 0 <= i < |ps| ==> NoneIn(ps[i], {c})
    ensures Split(Join(ps, c), {c}) == ps
    decreases |ps|
  {
    SplitNoSeparator(ps[0], {c});
    if |ps| > 1 {
      SplitJoin(ps[1..], c);
      SplitConcat(ps[0], c, Join(ps[1..], c), {c});
      assert [ps[0]] + ps[1..] == ps;
    }
  }

  /** The last piece of a split. */
  function LastPieceOf(s: string, seps: set<char>): string {
    var r := Split(s, seps);
    r[|r| - 1]
  }

  /** A leading separator adds an empty first piece and keeps the last one. */
  lemma LastPieceStepSeparator(s: string, seps: set<char>)
    requires s != [] && s[0] in seps
    ensures |Split(s, seps)| == 1 + |Split(s[1..], seps)|
    ensures LastPieceOf(s, seps) == LastPieceOf(s[1..], seps)
  {
    var rest := Split(s[1..], seps);
    var r := Split(s, seps);
    assert r == [""] + rest;
    assert r[|r| - 1] == rest[|rest| - 1];
  }

  /** A leading non-separator joins the first piece: it is the last piece too only when there is one. */
  lemma LastPieceStepOther(s: string, seps: set<char>)
    requires s != [] && s[0] !in seps
    ensures |Split(s, seps)| == |Split(s[1..], seps)|
    ensures |Split(s[1..], seps)| == 1 ==> LastPieceOf(s, seps) == [s[0]] + LastPieceOf(s[1..], seps)
    ensures |Split(s[1..], seps)| >= 2 ==> LastPieceOf(s, seps) == LastPieceOf(s[1..], seps)
  {
    var rest := Split(s[1..], seps);
    var r := Split(s, seps);
    assert r == [[s[0]] + rest[0]] + rest[1..];
    if |rest| >= 2 {
      assert r[|r| - 1] == rest[|rest| - 1];
    }
  }

  /** The last piece is the suffix after the last separator, or all of `s` when there is none. */
  lemma {:induction false} LastPiece(s: string, seps: set<char>)
    ensures |LastPieceOf(s, seps)| <= |s|
    ensures s[|s| - |LastPieceOf(s, seps)|..] == LastPieceOf(s, seps)
    ensures |Split(s, seps)| == 1 ==> LastPieceOf(s, seps) == s
    ensures |Split(s, seps)| >= 2 ==>
      |LastPieceOf(s, seps)| < |s| && s[|s| - |LastPieceOf(s, seps)| - 1] in seps
    decreases |s|
  {
    if s == [] {
      assert Split(s, seps) == [""];
    } else {
      var t := s[1..];
      var last := LastPieceOf(t, seps);
      LastPiece(t, seps);
      if s[0] in seps {
        LastPieceStepSeparator(s, seps);
      } else {
        LastPieceStepOther(s, seps);
      }
      var k := |s| - |last|;
      assert t[k - 1..] == s[k..];
      assert |Split(t, seps)| >= 2 ==> t[k - 2] == s[k - 1];
      if s[0] !in seps && |Split(t, seps)| == 1 {
        assert [s[0]] + t == s;
      } else if s[0] in seps && |Split(t, seps)| == 1 {
        assert k == 1;
      }
    }
  }

  /** The length of the run of separators that `s` starts with. */
  function LeadingRun(s: string, seps: set<char>): (n: nat)
    requires s != [] && s[0] in seps
    ensures 1 <= n <= |s|
    ensures forall j :: 0 <= j < n ==> s[j] in seps
    ensures n == |s| || s[n] !in seps
    decreases |s|
  {
    if |s| > 1 && s[1] in seps then 1 + LeadingRun(s[1..], seps) else 1
  }

  /**
   * Splits at every maximal run of separators, as a greedy regular expression
   * `[seps]+` does: runs inside the string give one boundary each, while a run
   * at the start or end still leaves an empty first or last piece.
   */
  function SplitRuns(s: string, seps: set<char>): (r: seq<string>)
    ensures |r| >= 1
    ensures forall i :: 0 <= i < |r| ==> NoneIn(r[i], seps)
    decreases |s|
  {
    if s == [] then [""]
    else if s[0] in seps then [""] + SplitRuns(s[LeadingRun(s, seps)..], seps)
    else Extend(s[0], SplitRuns(s[1..], seps))
  }

  /** The first piece is the same whether runs are collapsed or not. */
  lemma {:induction false} SplitRunsFirst(s: string, seps: set<char>)
    ensures SplitRuns(s, seps)[0] == Split(s, seps)[0]
    decreases |s|
  {
    if s != [] && s[0] !in seps {
      SplitRunsFirst(s[1..], seps);
    }
  }
}
