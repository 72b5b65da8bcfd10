/** Character classes and trimming as the two runtimes of the system define
    them: Go's strings.TrimSpace (unicode.IsSpace) on the server and
    ECMAScript's String.prototype.trim in the admin page. The two classes
    differ: Go counts U+0085 (NEL) as space, ECMAScript counts U+FEFF. */
module Text {

  /** Which runtime's notion of white space is meant. */
  datatype Whitespace = GoUnicode | EcmaScript

  /** Characters that both runtimes treat as white space. */
  const CommonSpaces: set<char> := {'\t', '\n', '\U{000B}', '\U{000C}', '\r', ' ', '\U{00A0}', '\U{1680}',
    '\U{2000}', '\U{2001}', '\U{2002}', '\U{2003}', '\U{2004}', '\U{2005}', '\U{2006}', '\U{2007}',
    '\U{2008}', '\U{2009}', '\U{200A}', '\U{2028}', '\U{2029}', '\U{202F}', '\U{205F}', '\U{3000}'}

  predicate IsSpace(w: Whitespace, c: char) {
    c in CommonSpaces || c == (if w == GoUnicode then '\U{0085}' else '\U{FEFF}')
  }

  /** s without its leading white space. */
  function TrimStart(w: Whitespace, s: string): (r: string)
    ensures |r| <= |s|
  {
    if |s| > 0 && IsSpace(w, s[0]) then TrimStart(w, s[1..]) else s
  }

  /** s without its trailing white space. */
  function TrimEnd(w: Whitespace, s: string): (r: string)
    ensures |r| <= |s|
  {
    if |s| > 0 && IsSpace(w, s[|s| - 1]) then TrimEnd(w, s[..|s| - 1]) else s
  }

  /** Removes leading and trailing white space. */
  function Trim(w: Whitespace, s: string): (r: string)
    ensures |r| <= |s|
  {
    TrimEnd(w, TrimStart(w, s))
  }

  /** A string is trimmed when it neither starts nor ends with white space. */
  predicate IsTrimmed(w: Whitespace, s: string) {
    s == [] || (!IsSpace(w, s[0]) && !IsSpace(w, s[|s| - 1]))
  }

  predicate AllSpace(w: Whitespace, s: string) {
    forall k :: 0 <= k < |s| ==> IsSpace(w, s[k])
  }

  /** TrimStart removes a run of white space at the front and stops at the
      first other character. */
  lemma {:induction false} TrimStartSpec(w: Whitespace, s: string)
    ensures TrimStart(w, s) == s[|s| - |TrimStart(w, s)|..]
    ensures AllSpace(w, s[..|s| - |TrimStart(w, s)|])
    ensures TrimStart(w, s) == [] || !IsSpace(w, TrimStart(w, s)[0])
  {
    if |s| > 0 && IsSpace(w, s[0]) {
      var t := s[1..];
      TrimStartSpec(w, t);
      var n := |t| - |TrimStart(w, t)|;
      assert t[n..] == s[n + 1..];
      var pre := s[..n + 1];
      forall k | 0 <= k < |pre| ensures IsSpace(w, pre[k]) {
        if k > 0 { assert pre[k] == t[..n][k - 1]; }
      }
    } else {
      assert s[0..] == s;
    }
  }

  /** TrimEnd removes a run of white space at the back and stops at the
      last other character. */
  lemma {:induction false} TrimEndSpec(w: Whitespace, s: string)
    ensures TrimEnd(w, s) == s[..|TrimEnd(w, s)|]
    ensures AllSpace(w, s[|TrimEnd(w, s)|..])
    ensures TrimEnd(w, s) == [] || !IsSpace(w, TrimEnd(w, s)[|TrimEnd(w, s)| - 1])
  {
    if |s| > 0 && IsSpace(w, s[|s| - 1]) {
      var p := s[..|s| - 1];
      TrimEndSpec(w, p);
      var n := |TrimEnd(w, p)|;
      assert p[..n] == s[..n];
      forall k | 0 <= k < |s| - n ensures IsSpace(w, s[n..][k]) {
        if k < |s| - 1 - n { assert s[n..][k] == p[n..][k]; }
      }
    } else {
      assert s[..|s|] == s;
    }
  }

  /** What Trim returns: a trimmed string, empty exactly when s is all
      white space. */
  lemma TrimSpec(w: Whitespace, s: string)
    ensures IsTrimmed(w, Trim(w, s))
    ensures Trim(w, s) == [] <==> AllSpace(w, s)
  {
    var a := TrimStart(w, s);
    TrimStartSpec(w, s);
    TrimEndSpec(w, a);
    var n := |s| - |a|;
    var m := |TrimEnd(w, a)|;
    if Trim(w, s) != [] {
      assert a[..m][0] == a[0];
      assert !IsSpace(w, s[n]);
    } else {
      assert a == [];
      forall k | 0 <= k < |s| ensures IsSpace(w, s[k]) {
        assert s[k] == s[..n][k];
      }
    }
  }

  /** Trimming a trimmed string changes nothing, so Trim is idempotent. */
  lemma TrimOfTrimmed(w: Whitespace, s: string)
    requires IsTrimmed(w, s)
    ensures Trim(w, s) == s
  {
    assert TrimStart(w, s) == s;
  }

  lemma TrimIdempotent(w: Whitespace, s: string)
    ensures Trim(w, Trim(w, s)) == Trim(w, s)
  {
    TrimSpec(w, s);
    TrimOfTrimmed(w, Trim(w, s));
  }
}
