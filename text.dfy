/** The string operations of Python that the handlers rely on: `str.isspace`,
    `str.strip()` and `str.lower()`, on `seq<char>` holding
    Unicode code points. */
module Text {

  /** Python's `str.isspace` for one code point. */
  predicate IsSpace(c: char)
  {
    ('\t' <= c <= '\r') || ('\U{1C}' <= c <= ' ') || c == '\U{85}' || c == '\U{A0}'
    || c == '\U{1680}' || ('\U{2000}' <= c <= '\U{200A}') || c == '\U{2028}' || c == '\U{2029}'
    || c == '\U{202F}' || c == '\U{205F}' || c == '\U{3000}'
  }

  /** Drops the leading white space. */
  function TrimLeft(s: string): (r: string)
    ensures |r| <= |s| && r == s[|s| - |r|..]
    ensures forall i :: 0 <= i < |s| - |r| ==> IsSpace(s[i])
    ensures r != [] ==> !IsSpace(r[0])
  {
    if s != [] && IsSpace(s[0]) then
      var r := TrimLeft(s[1..]);
      assert s[1..][|s| - 1 - |r|..] == s[|s| - |r|..];
      r
    else s
  }

  /** Drops the trailing white space. */
  function TrimRight(s: string): (r: string)
    ensures |r| <= |s| && r == s[..|r|]
    ensures forall i :: |r| <= i < |s| ==> IsSpace(s[i])
    ensures r != [] ==> !IsSpace(r[|r| - 1])
  {
    if s != [] && IsSpace(s[|s| - 1]) then TrimRight(s[..|s| - 1]) else s
  }

  /** Python's `str.strip()`: the longest infix with no surrounding white space. */
  function Strip(s: string): (r: string)
    ensures |r| <= |s|
    ensures r != [] ==> !IsSpace(r[0]) && !IsSpace(r[|r| - 1])
  {
    TrimRight(TrimLeft(s))
  }

  /** `r` is the infix of `s` at offset `a`, with only white space before and
      after it. */
  predicate InfixAmidSpace(s: string, a: int, r: string)
  {
    && 0 <= a && a + |r| <= |s| && r == s[a..a + |r|]
    && (forall i :: 0 <= i < a ==> IsSpace(s[i]))
    && (forall i :: a + |r| <= i < |s| ==> IsSpace(s[i]))
  }

  /** `strip()` removes white space at the two ends and nothing else. */
  lemma StripIsInfix(s: string)
    ensures exists a :: InfixAmidSpace(s, a, Strip(s))
  {
    var l := TrimLeft(s);
    var r := TrimRight(l);
    var a := |s| - |l|;
    assert r == s[a..a + |r|];
    forall i | a + |r| <= i < |s| ensures IsSpace(s[i]) {
      assert s[i] == l[i - a];
    }
    assert forall i :: 0 <= i < a ==> IsSpace(s[i]);
    assert r == Strip(s);
    assert InfixAmidSpace(s, a, r);
  }

  /** What WTForms' `DataRequired` rejects: a value made of white space only. */
  predicate IsBlank(s: string)
  {
    forall i :: 0 <= i < |s| ==> IsSpace(s[i])
  }

  /** A value is blank exactly when it is empty once stripped, which is how
      `DataRequired` tests it. */
  lemma BlankIffStripsToEmpty(s: string)
    ensures IsBlank(s) <==> Strip(s) == []
  {
    if !IsBlank(s) {
      NonBlankKeepsText(s);
    }
  }

  lemma NonBlankKeepsText(s: string)
    requires !IsBlank(s)
    ensures Strip(s) != []
  {
    var i :| 0 <= i < |s| && !IsSpace(s[i]);
    var l := TrimLeft(s);
    TrimLeftKeeps(s, i);
    var j := i - (|s| - |l|);
    assert l[j] == s[i];
    TrimRightKeeps(l, j);
    assert Strip(s) == TrimRight(l);
  }

  /** A code point that is not white space survives `TrimLeft`, shifted left. */
  lemma TrimLeftKeeps(s: string, i: nat)
    requires i < |s| && !IsSpace(s[i])
    ensures var l := TrimLeft(s); |s| - |l| <= i && l[i - (|s| - |l|)] == s[i]
  {
  }

  /** A code point that is not white space survives `TrimRight`. */
  lemma TrimRightKeeps(s: string, j: nat)
    requires j < |s| && !IsSpace(s[j])
    ensures j < |TrimRight(s)|
  {
  }

  /** Python's `str.lower()` restricted to ASCII letters and the basic Cyrillic
      block (U+0400 to U+042F); every other code point is left as it is. */
  function Lower(c: char): (d: char)
  {
    if 'A' <= c <= 'Z' then (c as int + 32) as char
    else if '\U{410}' <= c <= '\U{42F}' then (c as int + 32) as char
    else if '\U{400}' <= c <= '\U{40F}' then (c as int + 80) as char
    else c
  }

  function LowerStr(s: string): (r: string)
    ensures |r| == |s| && forall i :: 0 <= i < |s| ==> r[i] == Lower(s[i])
  {
    seq(|s|, i requires 0 <= i < |s| => Lower(s[i]))
  }

  /** Case-insensitive equality as `ilike` without wildcards sees it. */
  predicate SameIgnoringCase(a: string, b: string)
  {
    LowerStr(a) == LowerStr(b)
  }
}
