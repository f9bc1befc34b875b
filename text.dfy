/**
 * The two string operations the engine normalises with: JavaScript's
 * `String.prototype.trim` (over the full ECMAScript white-space and
 * line-terminator set) and `toLowerCase` (over ASCII letters only).
 */
module Text {

  /** ECMAScript WhiteSpace and LineTerminator code points: what `trim` removes. */
  const WhitespaceChars: set<char> := {
    '\t', '\n', '\U{B}', '\U{C}', '\r', ' ', '\U{A0}', '\U{1680}',
    '\U{2000}', '\U{2001}', '\U{2002}', '\U{2003}', '\U{2004}', '\U{2005}',
    '\U{2006}', '\U{2007}', '\U{2008}', '\U{2009}', '\U{200A}',
    '\U{2028}', '\U{2029}', '\U{202F}', '\U{205F}', '\U{3000}', '\U{FEFF}'
  }

  predicate IsWhitespace(c: char) {
    c in WhitespaceChars
  }

  predicate IsUpper(c: char) {
    'A' <= c <= 'Z'
  }

  function LowerChar(c: char): (r: char)
    ensures !IsUpper(r)
    ensures IsWhitespace(r) == IsWhitespace(c)
    ensures r == c || IsUpper(c)
    ensures IsUpper(c) ==> 'a' <= r <= 'z' && r as int - 'a' as int == c as int - 'A' as int
  {
    if IsUpper(c) then (c as int + 32) as char else c
  }

  function Lower(s: string): (r: string)
    ensures |r| == |s|
    ensures forall i :: 0 <= i < |s| ==> r[i] == LowerChar(s[i])
  {
    seq(|s|, i requires 0 <= i < |s| => LowerChar(s[i]))
  }

  /** Drops leading white space. */
  function TrimStart(s: string): (r: string)
    ensures |r| <= |s|
    decreases |s|
  {
    if s != [] && IsWhitespace(s[0]) then TrimStart(s[1..]) else s
  }

  /** Drops trailing white space. */
  function TrimEnd(s: string): (r: string)
    ensures |r| <= |s|
    decreases |s|
  {
    if s != [] && IsWhitespace(s[|s| - 1]) then TrimEnd(s[..|s| - 1]) else s
  }

  /** `TrimStart` removes exactly the leading run of white space: the result is a suffix of `s`. */
  lemma {:induction false} TrimStartFacts(s: string)
    ensures TrimStart(s) == s[|s| - |TrimStart(s)|..]
    ensures TrimStart(s) == [] || !IsWhitespace(TrimStart(s)[0])
    ensures forall i :: 0 <= i < |s| - |TrimStart(s)| ==> IsWhitespace(s[i])
    decreases |s|
  {
    if s != [] && IsWhitespace(s[0]) {
      TrimStartFacts(s[1..]);
    }
  }

  /** `TrimEnd` removes exactly the trailing run of white space: the result is a prefix of `s`. */
  lemma {:induction false} TrimEndFacts(s: string)
    ensures TrimEnd(s) == s[..|TrimEnd(s)|]
    ensures TrimEnd(s) == [] || !IsWhitespace(TrimEnd(s)[|TrimEnd(s)| - 1])
    ensures forall i :: |TrimEnd(s)| <= i < |s| ==> IsWhitespace(s[i])
    decreases |s|
  {
    if s != [] && IsWhitespace(s[|s| - 1]) {
      TrimEndFacts(s[..|s| - 1]);
    }
  }

  function Trim(s: string): string {
    TrimEnd(TrimStart(s))
  }

  /** A string that `trim` and `toLowerCase` both leave as it is. */
  predicate IsNormalized(s: string) {
    Trim(s) == s && Lower(s) == s
  }

  /** The cache key of `lookupSingleDomain`: lower-case first, then trim. */
  function Normalize(s: string): string {
    Trim(Lower(s))
  }

  /** The key of `fetchRdapForDomains` and of `parseDomains`: trim first, then lower-case. */
  function TrimLower(s: string): string {
    Lower(Trim(s))
  }

  /** How many leading characters `trim` drops. */
  function TrimOffset(s: string): nat {
    |s| - |TrimStart(s)|
  }

  lemma {:induction false} TrimCharacterized(s: string)
    ensures TrimOffset(s) + |Trim(s)| <= |s| && Trim(s) == s[TrimOffset(s)..TrimOffset(s) + |Trim(s)|]
    ensures Trim(s) != [] ==> !IsWhitespace(Trim(s)[0]) && !IsWhitespace(Trim(s)[|Trim(s)| - 1])
  {
    var a := TrimStart(s);
    var k := |s| - |a|;
    var r := TrimEnd(a);
    TrimStartFacts(s);
    TrimEndFacts(a);
    assert r == a[..|r|];
    assert a[..|r|] == s[k..k + |r|];
    assert Trim(s) == r;
  }

  lemma {:induction false} TrimEmpty(s: string)
    ensures Trim(s) == [] <==> forall i :: 0 <= i < |s| ==> IsWhitespace(s[i])
  {
    var a := TrimStart(s);
    TrimStartFacts(s);
    TrimEndFacts(a);
    if a != [] {
      assert a[0] == s[|s| - |a|];
    }
  }

  /** Every character of `Trim(s)` occurs in `s`. */
  lemma TrimChars(s: string, c: char)
    requires c in Trim(s)
    ensures c in s
  {
    TrimCharacterized(s);
    var i := TrimOffset(s);
    var j :| 0 <= j < |Trim(s)| && Trim(s)[j] == c;
    assert s[i + j] == c;
  }

  lemma {:induction false} TrimStartIdempotent(s: string)
    ensures TrimStart(TrimStart(s)) == TrimStart(s)
  {
    TrimStartFacts(s);
  }

  lemma {:induction false} TrimEndOfTrimStart(s: string)
    ensures TrimStart(TrimEnd(TrimStart(s))) == TrimEnd(TrimStart(s))
  {
    var a := TrimStart(s);
    var r := TrimEnd(a);
    TrimStartFacts(s);
    TrimEndFacts(a);
    if r != [] {
      assert r[0] == a[0];
    }
  }

  /** `trim` is idempotent. */
  lemma {:induction false} TrimIdempotent(s: string)
    ensures Trim(Trim(s)) == Trim(s)
  {
    TrimEndOfTrimStart(s);
    TrimEndFacts(TrimStart(s));
    var r := TrimEnd(TrimStart(s));
    assert TrimEnd(r) == r;
  }

  /** Lower-casing maps capitals to their own small letters: `B.com` and `a.com` stay apart. */
  lemma LowerDistinguishes()
    ensures Lower("B.com") == "b.com"
    ensures Lower("EXPIRATION") == "expiration"
    ensures Lower("B.com") != Lower("a.com")
  {
    assert Lower("B.com")[0] == 'b';
  }

  lemma LowerIdempotent(s: string)
    ensures Lower(Lower(s)) == Lower(s)
  {
  }

  lemma {:induction false} TrimStartLower(s: string)
    ensures TrimStart(Lower(s)) == Lower(TrimStart(s))
    decreases |s|
  {
    if s != [] && IsWhitespace(s[0]) {
      assert Lower(s)[1..] == Lower(s[1..]);
      TrimStartLower(s[1..]);
    }
  }

  lemma {:induction false} TrimEndLower(s: string)
    ensures TrimEnd(Lower(s)) == Lower(TrimEnd(s))
    decreases |s|
  {
    if s != [] && IsWhitespace(s[|s| - 1]) {
      assert Lower(s)[..|s| - 1] == Lower(s[..|s| - 1]);
      TrimEndLower(s[..|s| - 1]);
    }
  }

  /**
   * Lower-casing then trimming (lib/rdap.ts line 157) and trimming then
   * lower-casing (lines 254 and app/page.tsx line 18) give the same key.
   */
  lemma NormalizeCommutes(s: string)
    ensures Normalize(s) == TrimLower(s)
  {
    TrimStartLower(s);
    TrimEndLower(TrimStart(s));
  }

  /** Normalisation is idempotent and yields a normalised string. */
  lemma NormalizeIdempotent(s: string)
    ensures IsNormalized(Normalize(s))
    ensures Normalize(Normalize(s)) == Normalize(s)
    ensures Normalize(TrimLower(s)) == TrimLower(s)
  {
    var t := Trim(s);
    NormalizeCommutes(s);
    TrimIdempotent(s);
    LowerIdempotent(t);
    NormalizeCommutes(t);
    assert Normalize(s) == Lower(t);
    assert Trim(Lower(t)) == Lower(Trim(t)) == Lower(t);
    assert Lower(Lower(t)) == Lower(t);
    NormalizeCommutes(Lower(t));
  }
}
