/**
 * String.Trim(), as the filter criteria use it: leading and trailing
 * whitespace is stripped; everything between is kept as it is.
 */
module Text {

  /** The whitespace set of this model: space, tab, LF, VT, FF and CR. */
  predicate IsWhite(c: char) {
    c == ' ' || c == '\t' || c == '\n' || c == '\U{0B}' || c == '\U{0C}' || c == '\r'
  }

  predicate AllWhite(s: string) {
    forall i :: 0 <= i < |s| ==> IsWhite(s[i])
  }

  function TrimStart(s: string): string {
    if s != [] && IsWhite(s[0]) then TrimStart(s[1..]) else s
  }

  function TrimEnd(s: string): string {
    if s != [] && IsWhite(s[|s| - 1]) then TrimEnd(s[..|s| - 1]) else s
  }

  /** TrimStart drops the longest all-white prefix: what it drops is white and what it keeps does not start with white. */
  lemma {:induction false} TrimStartShape(s: string)
    ensures |TrimStart(s)| <= |s| && TrimStart(s) == s[|s| - |TrimStart(s)|..]
    ensures TrimStart(s) == [] || !IsWhite(TrimStart(s)[0])
    ensures AllWhite(s[..|s| - |TrimStart(s)|])
    decreases |s|
  {
    if s != [] && IsWhite(s[0]) {
      TrimStartShape(s[1..]);
      var k := |s| - |TrimStart(s)|;
      assert s[1..][..k - 1] == s[1..k];
      assert s[1..][|s| - 1 - |TrimStart(s)|..] == s[k..];
    }
  }

  /** TrimEnd drops the longest all-white suffix: what it drops is white and what it keeps does not end with white. */
  lemma {:induction false} TrimEndShape(s: string)
    ensures |TrimEnd(s)| <= |s| && TrimEnd(s) == s[..|TrimEnd(s)|]
    ensures TrimEnd(s) == [] || !IsWhite(TrimEnd(s)[|TrimEnd(s)| - 1])
    ensures AllWhite(s[|TrimEnd(s)|..])
    decreases |s|
  {
    if s != [] && IsWhite(s[|s| - 1]) {
      TrimEndShape(s[..|s| - 1]);
      var k := |TrimEnd(s)|;
      assert s[..|s| - 1][..k] == s[..k];
      assert forall i :: k <= i < |s| - 1 ==> s[..|s| - 1][i] == s[i];
    }
  }

  function Trim(s: string): (r: string)
    ensures |r| <= |s|
    ensures r != [] ==> !IsWhite(r[0]) && !IsWhite(r[|r| - 1])
  {
    TrimStartShape(s);
    TrimEndShape(TrimStart(s));
    TrimEnd(TrimStart(s))
  }

  /** `s.Trim() == ""`: the criterion carries no constraint. */
  predicate IsBlank(s: string) {
    Trim(s) == ""
  }

  /** Trim(s) is the slice of s between an all-white prefix and an all-white suffix, with no whitespace at either end. */
  lemma TrimIsInnerSlice(s: string) returns (start: nat)
    ensures start + |Trim(s)| <= |s| && Trim(s) == s[start..start + |Trim(s)|]
    ensures AllWhite(s[..start]) && AllWhite(s[start + |Trim(s)|..])
    ensures Trim(s) == [] || (!IsWhite(Trim(s)[0]) && !IsWhite(Trim(s)[|Trim(s)| - 1]))
  {
    TrimStartShape(s);
    TrimEndShape(TrimStart(s));
    var t := TrimStart(s);
    start := |s| - |t|;
    var r := TrimEnd(t);
    assert t == s[start..];
    assert r == s[start..start + |r|];
    assert s[start + |r|..] == t[|r|..];
    if r != [] && t != [] {
      assert r[0] == t[0];
    }
  }

  /** A string is blank exactly when every character of it is whitespace. */
  lemma BlankIffAllWhite(s: string)
    ensures IsBlank(s) <==> AllWhite(s)
  {
    var start := TrimIsInnerSlice(s);
    if IsBlank(s) {
      assert s == s[..start] + s[start..];
      assert forall i :: start <= i < |s| ==> s[i] == s[start..][i - start];
    }
  }

  /** Trimming twice is trimming once. */
  lemma TrimIdempotent(s: string)
    ensures Trim(Trim(s)) == Trim(s)
  {
    var start := TrimIsInnerSlice(s);
    TrimFixedPoint(Trim(s));
  }

  /** A string with no whitespace at either end is its own trim. */
  lemma TrimFixedPoint(r: string)
    requires r == [] || (!IsWhite(r[0]) && !IsWhite(r[|r| - 1]))
    ensures Trim(r) == r
  {
    var start := TrimIsInnerSlice(r);
  }

  lemma {:induction false} TrimStartWhitePrefix(w: string, s: string)
    requires AllWhite(w)
    ensures TrimStart(w + s) == TrimStart(s)
    decreases |w|
  {
    if w != [] {
      assert (w + s)[1..] == w[1..] + s;
      TrimStartWhitePrefix(w[1..], s);
    } else {
      assert w + s == s;
    }
  }

  lemma {:induction false} TrimEndWhiteSuffix(s: string, w: string)
    requires AllWhite(w)
    ensures TrimEnd(s + w) == TrimEnd(s)
    decreases |w|
  {
    if w != [] {
      assert (s + w)[..|s + w| - 1] == s + w[..|w| - 1];
      TrimEndWhiteSuffix(s, w[..|w| - 1]);
    } else {
      assert s + w == s;
    }
  }

  /** Whitespace after a string that is not blank survives TrimStart untouched. */
  lemma {:induction false} TrimStartAppend(v: string, w: string)
    requires !AllWhite(v)
    ensures TrimStart(v + w) == TrimStart(v) + w
    decreases |v|
  {
    assert v != [];
    if IsWhite(v[0]) {
      assert (v + w)[1..] == v[1..] + w;
      assert !AllWhite(v[1..]) by {
        var i :| 0 <= i < |v| && !IsWhite(v[i]);
        assert v[1..][i - 1] == v[i];
      }
      TrimStartAppend(v[1..], w);
    }
  }

  /** Whitespace around a criterion is ignored: Trim(w1 + v + w2) == Trim(v). */
  lemma TrimIgnoresPadding(w1: string, v: string, w2: string)
    requires AllWhite(w1) && AllWhite(w2)
    ensures Trim(w1 + v + w2) == Trim(v)
  {
    assert w1 + v + w2 == w1 + (v + w2);
    TrimStartWhitePrefix(w1, v + w2);
    if AllWhite(v) {
      assert AllWhite(v + w2);
      BlankIffAllWhite(v + w2);
      BlankIffAllWhite(v);
    } else {
      TrimStartAppend(v, w2);
      TrimEndWhiteSuffix(TrimStart(v), w2);
    }
  }
}
