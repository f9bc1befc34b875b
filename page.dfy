/**
 * The domain-list parser of the front page (app/page.tsx): `parseDomains`
 * splits the text box on runs of newlines and commas, trims and lower-cases
 * each piece and drops the empty ones; `handleSubmit` stops early, clearing
 * the results, when that leaves nothing.
 */
module Page {
  import opened Text
  import opened Splitting

  /** The characters of the separator class `[\n,]`. */
  const ListSeparators: set<char> := {'\n', ','}

  /** Trims and lower-cases every piece, keeping the non-empty ones in order. */
  function KeepDomains(pieces: seq<string>): (ds: seq<string>)
    ensures |ds| <= |pieces|
    ensures forall i :: 0 <= i < |ds| ==> ds[i] != ""
    decreases |pieces|
  {
    if pieces == [] then []
    else
      var d := TrimLower(pieces[0]);
      (if d == "" then [] else [d]) + KeepDomains(pieces[1..])
  }

  /** `parseDomains` */
  function ParseDomains(raw: string): seq<string> {
    KeepDomains(SplitRuns(raw, ListSeparators))
  }

  /** Only separators and white space. */
  predicate Blank(s: string) {
    forall i :: 0 <= i < |s| ==> s[i] in ListSeparators || IsWhitespace(s[i])
  }

  /** A piece trims and lower-cases to nothing exactly when it is all white space. */
  lemma TrimLowerEmpty(p: string)
    ensures TrimLower(p) == "" <==> forall i :: 0 <= i < |p| ==> IsWhitespace(p[i])
  {
    TrimEmpty(p);
  }

  /** A kept element is trimmed and lower-cased already. */
  lemma TrimLowerNormalized(p: string)
    ensures IsNormalized(TrimLower(p))
  {
    NormalizeIdempotent(p);
    NormalizeCommutes(p);
  }

  /** Trimming and lower-casing adds no separator to a piece. */
  lemma TrimLowerNoSeparator(p: string)
    requires NoneIn(p, ListSeparators)
    ensures NoneIn(TrimLower(p), ListSeparators)
  {
    var t := Trim(p);
    forall j | 0 <= j < |t| ensures t[j] !in ListSeparators {
      TrimChars(p, t[j]);
    }
    forall j | 0 <= j < |t| ensures LowerChar(t[j]) !in ListSeparators {
      assert LowerChar(t[j]) == t[j] || IsUpper(t[j]);
    }
  }

  lemma {:induction false} KeepDomainsAppend(a: seq<string>, b: seq<string>)
    ensures KeepDomains(a + b) == KeepDomains(a) + KeepDomains(b)
    decreases |a|
  {
    if a != [] {
      var d := TrimLower(a[0]);
      var head: seq<string> := if d == "" then [] else [d];
      assert (a + b)[0] == a[0];
      assert (a + b)[1..] == a[1..] + b;
      KeepDomainsAppend(a[1..], b);
      assert KeepDomains(a + b) == head + (KeepDomains(a[1..]) + KeepDomains(b));
      assert KeepDomains(a) == head + KeepDomains(a[1..]);
    } else {
      assert a + b == b;
    }
  }

  /** Every domain is non-empty, trimmed, lower-cased and free of newlines and commas. */
  predicate CleanDomains(ds: seq<string>) {
    forall i :: 0 <= i < |ds| ==> ds[i] != "" && IsNormalized(ds[i]) && NoneIn(ds[i], ListSeparators)
  }

  /** Keeping from pieces that hold no separator gives clean domains. */
  lemma {:induction false} KeepDomainsClean(pieces: seq<string>)
    requires forall i :: 0 <= i < |pieces| ==> NoneIn(pieces[i], ListSeparators)
    ensures CleanDomains(KeepDomains(pieces))
    decreases |pieces|
  {
    if pieces != [] {
      var d := TrimLower(pieces[0]);
      var head: seq<string> := if d == "" then [] else [d];
      var rest := KeepDomains(pieces[1..]);
      KeepDomainsClean(pieces[1..]);
      TrimLowerNormalized(pieces[0]);
      TrimLowerNoSeparator(pieces[0]);
      assert CleanDomains(head);
      assert KeepDomains(pieces) == head + rest;
    }
  }

  /** Every element `parseDomains` returns is non-empty, trimmed, lower-cased and free of newlines and commas. */
  lemma ParseDomainsClean(raw: string)
    ensures CleanDomains(ParseDomains(raw))
  {
    KeepDomainsClean(SplitRuns(raw, ListSeparators));
  }

  /** Leading separators only add empty pieces, which are dropped. */
  lemma {:induction false} KeepSplitDropSeparators(s: string, k: nat)
    requires k <= |s|
    requires forall j :: 0 <= j < k ==> s[j] in ListSeparators
    ensures KeepDomains(Split(s, ListSeparators)) == KeepDomains(Split(s[k..], ListSeparators))
    decreases k
  {
    if k > 0 {
      assert Split(s, ListSeparators) == [""] + Split(s[1..], ListSeparators);
      assert ([""] + Split(s[1..], ListSeparators))[1..] == Split(s[1..], ListSeparators);
      KeepSplitDropSeparators(s[1..], k - 1);
      assert s[1..][k - 1..] == s[k..];
    }
  }

  /** Collapsing runs of separators or not, the kept domains are the same. */
  lemma {:induction false} KeepRunsSameAsSplit(s: string)
    ensures KeepDomains(SplitRuns(s, ListSeparators)) == KeepDomains(Split(s, ListSeparators))
    decreases |s|
  {
    var seps := ListSeparators;
    if s != [] {
      if s[0] in seps {
        var n := LeadingRun(s, seps);
        var rs := SplitRuns(s[n..], seps);
        var ss := Split(s[1..], seps);
        assert SplitRuns(s, seps) == [""] + rs;
        assert ([""] + rs)[1..] == rs;
        assert Split(s, seps) == [""] + ss;
        assert ([""] + ss)[1..] == ss;
        KeepRunsSameAsSplit(s[n..]);
        KeepSplitDropSeparators(s[1..], n - 1);
        assert s[1..][n - 1..] == s[n..];
      } else {
        var rs := SplitRuns(s[1..], seps);
        var ss := Split(s[1..], seps);
        KeepRunsSameAsSplit(s[1..]);
        SplitRunsFirst(s[1..], seps);
        assert rs == [rs[0]] + rs[1..];
        assert ss == [ss[0]] + ss[1..];
        KeepDomainsAppend([rs[0]], rs[1..]);
        KeepDomainsAppend([ss[0]], ss[1..]);
        var h := |KeepDomains([rs[0]])|;
        assert KeepDomains(rs[1..]) == KeepDomains(rs)[h..];
        assert KeepDomains(ss[1..]) == KeepDomains(ss)[h..];
        var p := [s[0]] + rs[0];
        assert SplitRuns(s, seps) == [p] + rs[1..];
        assert Split(s, seps) == [p] + ss[1..];
        KeepDomainsAppend([p], rs[1..]);
        KeepDomainsAppend([p], ss[1..]);
      }
    }
  }

  /** `parseDomains` keeps every non-empty piece between two separator characters. */
  lemma ParseDomainsPieces(raw: string)
    ensures ParseDomains(raw) == KeepDomains(Split(raw, ListSeparators))
  {
    KeepRunsSameAsSplit(raw);
  }

  /**
   * Order is kept: the domains of the text on the left of a separator come
   * first, then those of the text on its right.
   */
  lemma ParseDomainsConcat(a: string, c: char, b: string)
    requires c in ListSeparators
    ensures ParseDomains(a + [c] + b) == ParseDomains(a) + ParseDomains(b)
  {
    KeepRunsSameAsSplit(a + [c] + b);
    KeepRunsSameAsSplit(a);
    KeepRunsSameAsSplit(b);
    SplitConcat(a, c, b, ListSeparators);
    KeepDomainsAppend(Split(a, ListSeparators), Split(b, ListSeparators));
  }

  /** Text without separators is one domain, or none when it is blank. */
  lemma ParseDomainsSingle(p: string)
    requires NoneIn(p, ListSeparators)
    ensures ParseDomains(p) == if TrimLower(p) == "" then [] else [TrimLower(p)]
  {
    KeepRunsSameAsSplit(p);
    SplitNoSeparator(p, ListSeparators);
    assert [p][1..] == [];
  }

  /** Every character of a piece of the split occurs in the text. */
  lemma {:induction false} SplitChars(s: string, i: int, j: int)
    requires 0 <= i < |Split(s, ListSeparators)| && 0 <= j < |Split(s, ListSeparators)[i]|
    ensures exists k :: 0 <= k < |s| && s[k] == Split(s, ListSeparators)[i][j]
    decreases |s|
  {
    var seps := ListSeparators;
    var ss := Split(s[1..], seps);
    if s[0] in seps {
      assert Split(s, seps)[i] == ss[i - 1];
      SplitChars(s[1..], i - 1, j);
      var k :| 0 <= k < |s[1..]| && s[1..][k] == ss[i - 1][j];
      assert s[k + 1] == s[1..][k];
    } else if i == 0 && j == 0 {
      assert s[0] == Split(s, seps)[0][0];
    } else {
      var i' := i;
      var j' := if i == 0 then j - 1 else j;
      assert Split(s, seps)[i][j] == ss[i'][j'];
      SplitChars(s[1..], i', j');
      var k :| 0 <= k < |s[1..]| && s[1..][k] == ss[i'][j'];
      assert s[k + 1] == s[1..][k];
    }
  }

  /** Blank text gives no domains. */
  lemma BlankGivesNothing(s: string)
    requires Blank(s)
    ensures ParseDomains(s) == []
  {
    var ps := Split(s, ListSeparators);
    SplitPieces(s, ListSeparators);
    forall i | 0 <= i < |ps| ensures TrimLower(ps[i]) == "" {
      forall j | 0 <= j < |ps[i]| ensures IsWhitespace(ps[i][j]) {
        SplitChars(s, i, j);
      }
      TrimLowerEmpty(ps[i]);
    }
    KeepNothing(ps);
    KeepRunsSameAsSplit(s);
  }

  lemma {:induction false} KeepNothing(ps: seq<string>)
    requires forall i :: 0 <= i < |ps| ==> TrimLower(ps[i]) == ""
    ensures KeepDomains(ps) == []
    decreases |ps|
  {
    if ps != [] {
      KeepNothing(ps[1..]);
    }
  }

  /** Text holding a character that is neither a separator nor white space gives a domain. */
  lemma {:induction false} NonBlankGivesSomething(s: string, k: int)
    requires 0 <= k < |s| && s[k] !in ListSeparators && !IsWhitespace(s[k])
    ensures KeepDomains(Split(s, ListSeparators)) != []
    decreases |s|
  {
    var seps := ListSeparators;
    var ss := Split(s[1..], seps);
    if s[0] in seps {
      assert Split(s, seps) == [""] + ss;
      assert ([""] + ss)[1..] == ss;
      NonBlankGivesSomething(s[1..], k - 1);
    } else {
      var p := [s[0]] + ss[0];
      assert Split(s, seps) == [p] + ss[1..];
      KeepDomainsAppend([p], ss[1..]);
      if k == 0 {
        TrimLowerEmpty(p);
      } else {
        NonBlankGivesSomething(s[1..], k - 1);
        assert ss == [ss[0]] + ss[1..];
        KeepDomainsAppend([ss[0]], ss[1..]);
        if TrimLower(ss[0]) != "" {
          TrimLowerEmpty(ss[0]);
          var j :| 0 <= j < |ss[0]| && !IsWhitespace(ss[0][j]);
          assert p[j + 1] == ss[0][j];
          TrimLowerEmpty(p);
        }
      }
    }
  }

  /** `parseDomains` gives nothing exactly when the text holds only separators and white space. */
  lemma ParseDomainsEmpty(s: string)
    ensures ParseDomains(s) == [] <==> Blank(s)
  {
    if Blank(s) {
      BlankGivesNothing(s);
    } else {
      var k :| 0 <= k < |s| && !(s[k] in ListSeparators || IsWhitespace(s[k]));
      NonBlankGivesSomething(s, k);
      KeepRunsSameAsSplit(s);
    }
  }

  /** Parsing a list written out with one separator between entries gives the list back. */
  lemma ParseDomainsJoin(ds: seq<string>, c: char)
    requires c in ListSeparators && |ds| >= 1
    requires forall i :: 0 <= i < |ds| ==> ds[i] != "" && IsNormalized(ds[i]) && NoneIn(ds[i], ListSeparators)
    ensures ParseDomains(Join(ds, c)) == ds
  {
    KeepRunsSameAsSplit(Join(ds, c));
    assert Split(Join(ds, c), ListSeparators) == Split(Join(ds, c), {c}) by {
      JoinSplitSameSeparators(ds, c);
    }
    SplitJoin(ds, c);
    KeepNormalized(ds);
  }

  /** Only `c` of the separators occurs in the joined text, so splitting on either set agrees. */
  lemma {:induction false} JoinSplitSameSeparators(ds: seq<string>, c: char)
    requires c in ListSeparators && |ds| >= 1
    requires forall i :: 0 <= i < |ds| ==> NoneIn(ds[i], ListSeparators)
    ensures Split(Join(ds, c), ListSeparators) == Split(Join(ds, c), {c})
    decreases |ds|
  {
    SplitNoSeparator(ds[0], ListSeparators);
    SplitNoSeparator(ds[0], {c});
    if |ds| > 1 {
      JoinSplitSameSeparators(ds[1..], c);
      SplitConcat(ds[0], c, Join(ds[1..], c), ListSeparators);
      SplitConcat(ds[0], c, Join(ds[1..], c), {c});
    }
  }

  lemma {:induction false} KeepNormalized(ds: seq<string>)
    requires forall i :: 0 <= i < |ds| ==> ds[i] != "" && IsNormalized(ds[i])
    ensures KeepDomains(ds) == ds
    decreases |ds|
  {
    if ds != [] {
      KeepNormalized(ds[1..]);
      assert TrimLower(ds[0]) == ds[0];
    }
  }

  /** What the page shows: the result list and whether a lookup is under way. */
  datatype PageState<R> = PageState(results: seq<R>, isLoading: bool)

  /**
   * The synchronous start of `handleSubmit`: with no domain to look up the
   * results are cleared and the page stays out of the loading state;
   * otherwise it enters the loading state.
   */
  function SubmitStart<R>(state: PageState<R>, input: string): PageState<R> {
    if ParseDomains(input) == [] then state.(results := [])
    else state.(isLoading := true)
  }

  /**
   * Submitting blank text clears the results and leaves the loading flag as
   * it was; submitting anything else turns loading on and keeps the results
   * until the lookup answers.
   */
  lemma SubmitBlank<R>(state: PageState<R>, input: string)
    ensures Blank(input) ==> SubmitStart(state, input) == PageState([], state.isLoading)
    ensures !Blank(input) ==> SubmitStart(state, input) == PageState(state.results, true)
  {
    ParseDomainsEmpty(input);
  }
}
