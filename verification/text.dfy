/** `String.prototype.trim` as the card and column title guards use it. */
module Text {

  /** The characters ECMAScript's `trim` strips: WhiteSpace (TAB, VT, FF, ZWNBSP
      and the Unicode space separators) and LineTerminator (LF, CR, LS, PS). */
  const Whitespace: set<char> := {
    '\t', '\U{000B}', '\U{000C}', ' ', '\U{00A0}', '\U{FEFF}',
    '\U{1680}', '\U{2000}', '\U{2001}', '\U{2002}', '\U{2003}', '\U{2004}',
    '\U{2005}', '\U{2006}', '\U{2007}', '\U{2008}', '\U{2009}', '\U{200A}',
    '\U{202F}', '\U{205F}', '\U{3000}',
    '\n', '\r', '\U{2028}', '\U{2029}'
  }

  predicate IsWhitespace(c: char) {
    c in Whitespace
  }

  predicate AllWhitespace(s: string) {
    forall i :: 0 <= i < |s| ==> IsWhitespace(s[i])
  }

  /** Drops the maximal whitespace prefix. */
  function TrimStart(s: string): (r: string)
    ensures |r| <= |s| && r == s[|s| - |r|..]
    ensures AllWhitespace(s[..|s| - |r|])
    ensures r == [] || !IsWhitespace(r[0])
  {
    if |s| > 0 && IsWhitespace(s[0]) then
      var r := TrimStart(s[1..]);
      assert s[..|s| - |r|] == [s[0]] + s[1..][..|s| - 1 - |r|];
      r
    else
      s
  }

  /** Drops the maximal whitespace suffix. */
  function TrimEnd(s: string): (r: string)
    ensures |r| <= |s| && r == s[..|r|]
    ensures AllWhitespace(s[|r|..])
    ensures r == [] || !IsWhitespace(r[|r| - 1])
  {
    if |s| > 0 && IsWhitespace(s[|s| - 1]) then
      var r := TrimEnd(s[..|s| - 1]);
      assert s[|r|..] == s[..|s| - 1][|r|..] + [s[|s| - 1]];
      r
    else
      s
  }

  /** `s.trim()`: the result is empty exactly when `s` is whitespace only, and
      otherwise starts and ends with a visible character. */
  function Trim(s: string): (r: string)
    ensures |r| <= |s|
    ensures r == [] <==> AllWhitespace(s)
    ensures r != [] ==> !IsWhitespace(r[0]) && !IsWhitespace(r[|r| - 1])
  {
    TrimEmptyOnlyForWhitespace(s);
    TrimEnd(TrimStart(s))
  }

  lemma TrimEmptyOnlyForWhitespace(s: string)
    ensures TrimEnd(TrimStart(s)) == [] <==> AllWhitespace(s)
  {
    var t := TrimStart(s);
    var k := |s| - |t|;
    if TrimEnd(t) == [] {
      assert AllWhitespace(t[0..]);
      assert t[0..] == t;
      forall i | 0 <= i < |s| ensures IsWhitespace(s[i]) {
        if i < k {
          assert s[i] == s[..k][i];
        } else {
          assert s[i] == t[i - k];
        }
      }
    }
  }

  /** The trimmed text is a slice of the input with only whitespace around it. */
  lemma TrimIsSlice(s: string) returns (a: nat)
    ensures a + |Trim(s)| <= |s|
    ensures Trim(s) == s[a..a + |Trim(s)|]
    ensures AllWhitespace(s[..a]) && AllWhitespace(s[a + |Trim(s)|..])
  {
    var t := TrimStart(s);
    a := |s| - |t|;
    var r := TrimEnd(t);
    var n := |r|;
    assert t == s[a..];
    assert r == t[..n] && AllWhitespace(t[n..]);
    assert Trim(s) == r;
    SliceOfSuffix(s, a, n);
    assert r == s[a..a + n];
  }

  /** Slicing the suffix `s[a..]` is slicing `s` shifted by `a`. */
  lemma SliceOfSuffix(s: string, a: nat, n: nat)
    requires a + n <= |s|
    ensures s[a..][..n] == s[a..a + n]
    ensures s[a..][n..] == s[a + n..]
  {
  }

  /** Trimming twice is trimming once. */
  lemma TrimIdempotent(s: string)
    ensures Trim(Trim(s)) == Trim(s)
  {
    var r := Trim(s);
    if r != [] {
      assert TrimStart(r) == r;
      assert TrimEnd(r) == r;
    }
  }
}
