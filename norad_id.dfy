/** extractNoradID of handlers/tle.go: the satellite catalog number is the
    digit run that the regular expression `^1\s+(\d+)` captures on line 1,
    put through strconv.Atoi and strconv.Itoa, so leading zeros are removed
    and a run too large for a 64-bit `int` yields no identifier at all. */
module NoradId {
  import opened Wrappers
  import opened Seqs
  import opened Decimal

  /** The class `\s` of Go's regexp syntax (RE2): tab, newline, form feed,
      carriage return and space. Unlike unicode.IsSpace it has no vertical
      tab and nothing outside ASCII. */
  predicate IsPerlSpace(c: char) {
    c == '\t' || c == '\n' || c == '\U{000C}' || c == '\r' || c == ' '
  }

  /** End of the longest run of `\s` characters starting at i. */
  function SpaceRunEnd(s: string, i: nat): (j: nat)
    requires i <= |s|
    ensures i <= j <= |s|
    ensures forall k :: i <= k < j ==> IsPerlSpace(s[k])
    ensures j == |s| || !IsPerlSpace(s[j])
    decreases |s| - i
  {
    if i < |s| && IsPerlSpace(s[i]) then SpaceRunEnd(s, i + 1) else i
  }

  /** End of the longest run of `\d` characters starting at i. */
  function DigitRunEnd(s: string, i: nat): (j: nat)
    requires i <= |s|
    ensures i <= j <= |s|
    ensures forall k :: i <= k < j ==> IsDigit(s[k])
    ensures j == |s| || !IsDigit(s[j])
    decreases |s| - i
  {
    if i < |s| && IsDigit(s[i]) then DigitRunEnd(s, i + 1) else i
  }

  /** s splits as "1", a non-empty run of `\s`, a non-empty run of digits,
      and a rest that does not continue the digit run: the shape of a match
      of `^1\s+(\d+)` whose group captures `digits` (the quantifiers are
      greedy, so the group takes every digit it can). */
  predicate Matches(s: string, spaces: string, digits: string, rest: string) {
    && s == ['1'] + spaces + digits + rest
    && |spaces| > 0 && (forall k :: 0 <= k < |spaces| ==> IsPerlSpace(spaces[k]))
    && |digits| > 0 && AllDigits(digits)
    && (rest == [] || !IsDigit(rest[0]))
  }

  /** The capture group of `^1\s+(\d+)` on s, or None when s does not match. */
  function CatalogToken(s: string): (r: Option<string>)
    ensures r.Some? ==> |r.value| > 0 && AllDigits(r.value)
  {
    if |s| == 0 || s[0] != '1' then None
    else
      var j := SpaceRunEnd(s, 1);
      var k := DigitRunEnd(s, j);
      if j == 1 || k == j then None else Some(s[j..k])
  }

  /** extractNoradID: the canonical decimal form of the captured digits, or
      "" when the pattern does not match or Atoi reports a range error. */
  function ExtractNoradId(line1: string): (id: string)
    ensures id == "" || IsCanonical(id)
    ensures id != "" <==> CatalogToken(line1).Some? && Value(CatalogToken(line1).value) <= MaxInt
    ensures id != "" ==> Value(id) == Value(CatalogToken(line1).value)
  {
    match CatalogToken(line1)
    case None => ""
    case Some(digits) =>
      match Atoi(digits)
      case None => ""
      case Some(n) => Itoa(n)
  }

  /** Every decomposition of the pattern's shape is the one CatalogToken finds. */
  lemma {:induction false} TokenOfMatch(s: string, spaces: string, digits: string, rest: string)
    requires Matches(s, spaces, digits, rest)
    ensures CatalogToken(s) == Some(digits)
  {
    var j := 1 + |spaces|;
    var k := j + |digits|;
    assert s[1..j] == spaces && s[j..k] == digits && s[k..] == rest;
    assert !IsPerlSpace(s[j]) by { assert s[j] == digits[0]; }
    assert forall i :: 1 <= i < j ==> IsPerlSpace(s[i]) by {
      forall i | 1 <= i < j ensures IsPerlSpace(s[i]) { assert s[i] == spaces[i - 1]; }
    }
    SpaceRunEndFrom(s, 1, j);
    assert forall i :: j <= i < k ==> IsDigit(s[i]) by {
      forall i | j <= i < k ensures IsDigit(s[i]) { assert s[i] == digits[i - j]; }
    }
    assert k == |s| || !IsDigit(s[k]) by {
      if k < |s| { assert s[k] == rest[0]; }
    }
    DigitRunEndFrom(s, j, k);
  }

  lemma {:induction false} SpaceRunEndFrom(s: string, i: nat, j: nat)
    requires i <= j <= |s|
    requires forall k :: i <= k < j ==> IsPerlSpace(s[k])
    requires j == |s| || !IsPerlSpace(s[j])
    ensures SpaceRunEnd(s, i) == j
    decreases j - i
  {
    if i < j { SpaceRunEndFrom(s, i + 1, j); }
  }

  lemma {:induction false} DigitRunEndFrom(s: string, i: nat, j: nat)
    requires i <= j <= |s|
    requires forall k :: i <= k < j ==> IsDigit(s[k])
    requires j == |s| || !IsDigit(s[j])
    ensures DigitRunEnd(s, i) == j
    decreases j - i
  {
    if i < j { DigitRunEndFrom(s, i + 1, j); }
  }

  /** CatalogToken is exactly the regular expression's capture: it returns
      `digits` if and only if s has the pattern's shape with that group. */
  lemma TokenIffMatches(s: string, digits: string)
    ensures CatalogToken(s) == Some(digits) <==> exists spaces, rest :: Matches(s, spaces, digits, rest)
  {
    if CatalogToken(s) == Some(digits) {
      var j := SpaceRunEnd(s, 1);
      var k := DigitRunEnd(s, j);
      assert digits == s[j..k];
      assert Matches(s, s[1..j], digits, s[k..]) by {
        assert s == ['1'] + s[1..j] + s[j..k] + s[k..];
      }
    }
    if exists spaces, rest :: Matches(s, spaces, digits, rest) {
      var spaces, rest :| Matches(s, spaces, digits, rest);
      TokenOfMatch(s, spaces, digits, rest);
    }
  }

  /** A non-empty identifier is a fixed point: rebuilding a line 1 from it
      and extracting again yields the same identifier. */
  lemma ExtractIdempotent(line1: string)
    requires ExtractNoradId(line1) != ""
    ensures ExtractNoradId("1 " + ExtractNoradId(line1)) == ExtractNoradId(line1)
  {
    var id := ExtractNoradId(line1);
    assert Matches("1 " + id, " ", id, "") by {
      assert "1 " + id == ['1'] + " " + id + "";
    }
    TokenOfMatch("1 " + id, " ", id, "");
    ItoaOfValue(id);
  }

  /** Leading zeros of the catalog field are dropped: a line 1 whose field
      is a run of zeros followed by a canonical number in range names that
      number (so "1 00005U" names satellite "5"). */
  lemma ExtractDropsLeadingZeros(zeros: string, id: string, rest: string)
    requires forall k :: 0 <= k < |zeros| ==> zeros[k] == '0'
    requires IsCanonical(id) && Value(id) <= MaxInt
    requires rest == [] || !IsDigit(rest[0])
    ensures ExtractNoradId("1 " + zeros + id + rest) == id
  {
    ValueAfterZeros(zeros, id);
    ZerosFieldToken(zeros, id, rest);
    ItoaOfValue(id);
  }

  lemma ZerosFieldToken(zeros: string, id: string, rest: string)
    requires forall k :: 0 <= k < |zeros| ==> zeros[k] == '0'
    requires |id| > 0 && AllDigits(id)
    requires rest == [] || !IsDigit(rest[0])
    ensures CatalogToken("1 " + zeros + id + rest) == Some(zeros + id)
  {
    var s := "1 " + zeros + id + rest;
    LineShape(zeros + id, rest);
    assert AllDigits(zeros + id) by {
      forall k | 0 <= k < |zeros + id| ensures IsDigit((zeros + id)[k]) {
        if k < |zeros| { assert (zeros + id)[k] == zeros[k]; } else { assert (zeros + id)[k] == id[k - |zeros|]; }
      }
    }
    assert s == "1 " + (zeros + id) + rest by {
      SeqAssoc("1 " + zeros, id, rest);
      SeqAssoc("1 ", zeros, id + rest);
      SeqAssoc("1 ", zeros, id);
      SeqAssoc("1 " , zeros + id, rest);
    }
    assert Matches(s, " ", zeros + id, rest);
    TokenOfMatch(s, " ", zeros + id, rest);
  }

  lemma LineShape(field: string, rest: string)
    ensures "1 " + field + rest == ['1'] + " " + field + rest
  {
  }

}
