/** JavaScript's String.prototype.trim, as the list controller uses it on the
    pending input: strip leading and trailing white space and line terminators. */
module Text {

  /** The characters trim removes: ECMAScript WhiteSpace (tab, vertical tab,
      form feed, space, no-break space, byte order mark and the Zs category)
      and LineTerminator (line feed, carriage return, line and paragraph
      separators). */
  predicate IsWhitespace(c: char) {
    || c == '\t' || c == '\n' || c == '\U{000B}' || c == '\U{000C}' || c == '\r'
    || c == ' ' || c == '\U{00A0}' || c == '\U{1680}'
    || ('\U{2000}' <= c <= '\U{200A}')
    || c == '\U{2028}' || c == '\U{2029}' || c == '\U{202F}' || c == '\U{205F}'
    || c == '\U{3000}' || c == '\U{FEFF}'
  }

  /** A string made of white space only (the empty string included). */
  ghost predicate IsBlank(s: string) {
    forall k :: 0 <= k < |s| ==> IsWhitespace(s[k])
  }

  /** A string that trim leaves alone: empty, or starting and ending with a
      character that is not white space. */
  ghost predicate IsTrimmed(s: string) {
    s == [] || (!IsWhitespace(s[0]) && !IsWhitespace(s[|s| - 1]))
  }

  /** Drops the leading white space: the result is the suffix of s that starts
      at the first non-white-space character. */
  function TrimStart(s: string): (r: string)
    ensures |r| <= |s| && r == s[|s| - |r|..]
    ensures forall k :: 0 <= k < |s| - |r| ==> IsWhitespace(s[k])
    ensures r == [] || !IsWhitespace(r[0])
    decreases |s|
  {
    if |s| > 0 && IsWhitespace(s[0]) then TrimStart(s[1..]) else s
  }

  /** Drops the trailing white space: the result is the prefix of s that ends
      at the last non-white-space character. */
  function TrimEnd(s: string): (r: string)
    ensures |r| <= |s| && r == s[..|r|]
    ensures forall k :: |r| <= k < |s| ==> IsWhitespace(s[k])
    ensures r == [] || !IsWhitespace(r[|r| - 1])
    decreases |s|
  {
    if |s| > 0 && IsWhitespace(s[|s| - 1]) then TrimEnd(s[..|s| - 1]) else s
  }

  /** s.trim() */
  function Trim(s: string): (r: string)
    ensures IsTrimmed(r)
    ensures |r| <= |s|
  {
    var t := TrimStart(s);
    var r := TrimEnd(t);
    assert r != [] ==> r[0] == t[0];
    r
  }

  /** How many leading characters trim drops. */
  function TrimOffset(s: string): (lo: nat)
    ensures lo <= |s|
  {
    |s| - |TrimStart(s)|
  }

  /** Trim keeps one contiguous slice of its input and drops only white space
      around it. */
  lemma TrimIsSlice(s: string)
    ensures TrimOffset(s) + |Trim(s)| <= |s|
    ensures Trim(s) == s[TrimOffset(s)..TrimOffset(s) + |Trim(s)|]
    ensures forall k :: 0 <= k < TrimOffset(s) ==> IsWhitespace(s[k])
    ensures forall k :: TrimOffset(s) + |Trim(s)| <= k < |s| ==> IsWhitespace(s[k])
  {
    var t := TrimStart(s);
    var r := TrimEnd(t);
    assert Trim(s) == r;
    PrefixOfSuffix(s, t, r);
  }

  /** A prefix r of a suffix t of s, followed in t only by white space, is a
      slice of s followed in s only by white space. */
  lemma PrefixOfSuffix(s: string, t: string, r: string)
    requires |t| <= |s| && t == s[|s| - |t|..]
    requires |r| <= |t| && r == t[..|r|]
    requires forall k :: |r| <= k < |t| ==> IsWhitespace(t[k])
    ensures var lo := |s| - |t|;
      && r == s[lo..lo + |r|]
      && (forall k :: lo + |r| <= k < |s| ==> IsWhitespace(s[k]))
  {
    var lo := |s| - |t|;
    forall k | lo + |r| <= k < |s| ensures IsWhitespace(s[k]) {
      assert s[k] == t[k - lo];
    }
  }

  /** The input is "falsy" after trimming exactly when it is blank. */
  lemma TrimEmptyIffBlank(s: string)
    ensures Trim(s) == [] <==> IsBlank(s)
  {
    var t := TrimStart(s);
    var lo := |s| - |t|;
    if Trim(s) == [] {
      assert t == [];
    }
    if IsBlank(s) && t != [] {
      assert false;
    }
  }

  /** TrimStart stops at the first character that is not white space. */
  lemma {:induction false} TrimStartAt(s: string, lo: nat)
    requires lo < |s| && !IsWhitespace(s[lo])
    requires forall k :: 0 <= k < lo ==> IsWhitespace(s[k])
    ensures TrimStart(s) == s[lo..]
    decreases lo
  {
    if lo > 0 {
      TrimStartAt(s[1..], lo - 1);
      assert s[1..][lo - 1..] == s[lo..];
    }
  }

  /** TrimEnd stops after the last character that is not white space. */
  lemma {:induction false} TrimEndAt(s: string, hi: nat)
    requires 0 < hi <= |s| && !IsWhitespace(s[hi - 1])
    requires forall k :: hi <= k < |s| ==> IsWhitespace(s[k])
    ensures TrimEnd(s) == s[..hi]
    decreases |s| - hi
  {
    if hi < |s| {
      TrimEndAt(s[..|s| - 1], hi);
      assert s[..|s| - 1][..hi] == s[..hi];
    }
  }

  /** Reference characterisation: any slice s[lo..hi] that is trimmed and has
      only white space outside it is what Trim returns. */
  lemma TrimUnique(s: string, lo: nat, hi: nat)
    requires lo <= hi <= |s|
    requires forall k :: 0 <= k < lo ==> IsWhitespace(s[k])
    requires forall k :: hi <= k < |s| ==> IsWhitespace(s[k])
    requires lo < hi ==> !IsWhitespace(s[lo]) && !IsWhitespace(s[hi - 1])
    ensures Trim(s) == s[lo..hi]
  {
    if lo == hi {
      TrimEmptyIffBlank(s);
    } else {
      TrimStartAt(s, lo);
      TrimEndOfSuffix(s, lo, hi);
    }
  }

  lemma TrimEndOfSuffix(s: string, lo: nat, hi: nat)
    requires lo < hi <= |s| && !IsWhitespace(s[hi - 1])
    requires forall k :: hi <= k < |s| ==> IsWhitespace(s[k])
    ensures TrimEnd(s[lo..]) == s[lo..hi]
  {
    var t := s[lo..];
    assert t[hi - lo - 1] == s[hi - 1];
    forall k | hi - lo <= k < |t| ensures IsWhitespace(t[k]) {
      assert t[k] == s[lo + k];
    }
    TrimEndAt(t, hi - lo);
    SliceOfSuffix(s, lo, hi);
  }

  lemma SliceOfSuffix(s: string, lo: nat, hi: nat)
    requires lo <= hi <= |s|
    ensures s[lo..][..hi - lo] == s[lo..hi]
  {
  }

  /** Trimming twice is trimming once. */
  lemma TrimIdempotent(s: string)
    ensures Trim(Trim(s)) == Trim(s)
  {
    var r := Trim(s);
    assert r[0..|r|] == r;
    TrimUnique(r, 0, |r|);
  }

  /** A string with no surrounding white space is its own trim. */
  lemma TrimOfTrimmed(s: string)
    requires IsTrimmed(s)
    ensures Trim(s) == s
  {
    assert s[0..|s|] == s;
    TrimUnique(s, 0, |s|);
  }
}
