/** The client-side TLE code of the admin page (static/admin.js): the bulk
    parser parseTLEText, the empty-result check of the bulk-submit form, and
    the password-change validation. The bulk parser differs from the server's
    stream parser on purpose: it groups the non-blank lines at a fixed stride
    of three, fails as a whole on the first bad group, and takes the catalog
    number from columns 3-7 of line 1 as text, leading zeros and all. */
module Admin {
  import opened Wrappers
  import opened Seqs
  import opened Text
  import opened Decimal
  import opened NoradId
  import opened Models
  import opened Batch
  import opened Handlers

  // ---------------------------------------------------------------------
  // Strings as ECMAScript sees them

  /** String.prototype.split with a one-character separator: the maximal
      pieces between separators, so there is always at least one piece. */
  function Split(s: string, sep: char): (parts: seq<string>)
    ensures |parts| >= 1
    ensures forall k :: 0 <= k < |parts| ==> sep !in parts[k]
    decreases |s|
  {
    if s == [] then [""]
    else
      var rest := Split(s[1..], sep);
      if s[0] == sep then [""] + rest
      else [[s[0]] + rest[0]] + rest[1..]
  }

  /** Array.prototype.join, the inverse of Split. */
  function Join(parts: seq<string>, sep: char): string
    requires |parts| >= 1
  {
    if |parts| == 1 then parts[0] else parts[0] + [sep] + Join(parts[1..], sep)
  }

  /** Joining the pieces with the separator gives back the string. */
  lemma {:induction false} JoinSplit(s: string, sep: char)
    ensures Join(Split(s, sep), sep) == s
    decreases |s|
  {
    if s != [] {
      var rest := Split(s[1..], sep);
      JoinSplit(s[1..], sep);
      if s[0] == sep {
        assert Split(s, sep)[1..] == rest;
        SeqAssoc([sep], [] , Join(rest, sep));
      } else {
        var parts := Split(s, sep);
        if |rest| == 1 {
          assert parts == [[s[0]] + rest[0]];
        } else {
          assert parts[1..] == rest[1..];
          assert Join(rest, sep) == rest[0] + [sep] + Join(rest[1..], sep);
          SeqAssoc([s[0]], rest[0], [sep]);
          SeqAssoc([s[0]] + rest[0], [sep], Join(rest[1..], sep));
          SeqAssoc([s[0]], rest[0] + [sep], Join(rest[1..], sep));
          SeqAssoc(rest[0], [sep], Join(rest[1..], sep));
        }
      }
    }
  }

  /** Splitting a string whose first piece is p. */
  lemma {:induction false} SplitPrefix(p: string, t: string, sep: char)
    requires sep !in p
    ensures Split(p + t, sep) == [p + Split(t, sep)[0]] + Split(t, sep)[1..]
    decreases |p|
  {
    if p == [] {
      var st := Split(t, sep);
      assert p + t == t && p + st[0] == st[0];
      assert [st[0]] + st[1..] == st;
    } else {
      assert (p + t)[0] == p[0] && (p + t)[1..] == p[1..] + t;
      SplitPrefix(p[1..], t, sep);
      SeqAssoc([p[0]], p[1..], Split(t, sep)[0]);
      assert [p[0]] + p[1..] == p;
    }
  }

  /** Splitting pieces that hold no separator, joined, gives them back. */
  lemma {:induction false} SplitJoin(parts: seq<string>, sep: char)
    requires |parts| >= 1
    requires forall k :: 0 <= k < |parts| ==> sep !in parts[k]
    ensures Split(Join(parts, sep), sep) == parts
    decreases |parts|
  {
    if |parts| == 1 {
      SplitPrefix(parts[0], [], sep);
      assert parts[0] + [] == parts[0];
    } else {
      var tail := Join(parts[1..], sep);
      SplitJoin(parts[1..], sep);
      SeqAssoc(parts[0], [sep], tail);
      SplitPrefix(parts[0], [sep] + tail, sep);
      assert ([sep] + tail)[0] == sep && ([sep] + tail)[1..] == tail;
      assert Split([sep] + tail, sep) == [""] + parts[1..];
      assert parts[0] + "" == parts[0];
      assert parts == [parts[0]] + parts[1..];
    }
  }


  /** Trims every piece and drops the empty ones, keeping their order. */
  function CleanLines(parts: seq<string>): (lines: seq<string>)
    ensures |lines| <= |parts|
    ensures forall k :: 0 <= k < |lines| ==> lines[k] != "" && IsTrimmed(EcmaScript, lines[k])
  {
    if parts == [] then []
    else
      var l := Trim(EcmaScript, parts[0]);
      TrimSpec(EcmaScript, parts[0]);
      (if l == "" then [] else [l]) + CleanLines(parts[1..])
  }

  /** text.trim().split('\n').map(line => line.trim()).filter(line => line.length > 0) */
  function NormalizedLines(text: string): seq<string> {
    CleanLines(Split(Trim(EcmaScript, text), '\n'))
  }

  /** Forces x into [0, len], as String.prototype.substring does with its
      arguments. */
  function Clamp(x: int, len: nat): (y: nat)
    ensures y <= len
    ensures 0 <= x <= len ==> y == x
  {
    if x < 0 then 0 else if x > len then len else x
  }

  /** String.prototype.substring: both bounds clamped to the string, and
      swapped when the start lies after the end. */
  function Substring(s: string, start: int, end: int): (r: string)
    ensures |r| <= |s|
    ensures 0 <= start <= end <= |s| ==> r == s[start..end]
  {
    var a, b := Clamp(start, |s|), Clamp(end, |s|);
    if a <= b then s[a..b] else s[b..a]
  }

  /** line1.substring(2, 7).trim(): the client's catalog number. */
  function ClientNoradId(line1: string): (id: string)
    ensures |id| <= 5
  {
    Trim(EcmaScript, Substring(line1, 2, 7))
  }

  // ---------------------------------------------------------------------
  // parseTLEText

  /** Why parseTLEText throws; `line` is the 1-based number the message
      names. */
  datatype ParseError = InvalidFormat(line: int) | MissingNoradId(line: int)

  /** How a group's line 1 yields its catalog number. The parse is stated
      for any such extraction; parseTLEText's is ClientNoradId. */
  type IdOf = string -> string

  /** The group starting at index i: a name (never looked at), line 1 and
      line 2. */
  function Group(idOf: IdOf, lines: seq<string>, i: nat, now: int): Result<Tle, ParseError>
    requires i + 2 < |lines|
  {
    var line1, line2 := lines[i + 1], lines[i + 2];
    if !("1 " <= line1) || !("2 " <= line2) then Failure(InvalidFormat(i + 1))
    else
      var id := idOf(line1);
      if id == "" then Failure(MissingNoradId(i + 2))
      else Success(Tle(id, now, line1, line2))
  }

  /** The records of the groups at i, i + 3, i + 6, ..., or the error of the
      first bad group; one or two lines left over at the end are ignored. */
  function ParseFrom(idOf: IdOf, lines: seq<string>, i: nat, now: int): Result<seq<Tle>, ParseError>
    decreases |lines| - i
  {
    if i + 2 >= |lines| then Success([])
    else match Group(idOf, lines, i, now)
      case Failure(e) => Failure(e)
      case Success(t) => Prepend([t], ParseFrom(idOf, lines, i + 3, now))
  }

  /** Records parsed earlier, in front of a later result. */
  function Prepend(ts: seq<Tle>, r: Result<seq<Tle>, ParseError>): Result<seq<Tle>, ParseError> {
    match r
    case Failure(e) => Failure(e)
    case Success(rest) => Success(ts + rest)
  }

  /** What parseTLEText returns (Success) or throws (Failure); `now` is the
      time in whole seconds that it stamps on every record. */
  function ParseResult(text: string, now: int): Result<seq<Tle>, ParseError> {
    ParseFrom(ClientNoradId, NormalizedLines(text), 0, now)
  }

  lemma PrependTwice(a: seq<Tle>, b: seq<Tle>, r: Result<seq<Tle>, ParseError>)
    ensures Prepend(a, Prepend(b, r)) == Prepend(a + b, r)
  {
    if r.Success? {
      SeqAssoc(a, b, r.value);
    }
  }

  /** parseTLEText: normalise the text, then walk it in groups of three. */
  method ParseTleText(text: string, now: int) returns (r: Result<seq<Tle>, ParseError>)
    ensures r == ParseResult(text, now)
  {
    var lines := NormalizedLines(text);
    r := ParseLines(lines, now);
  }

  /** The loop of parseTLEText over the normalised lines: stops at the first
      bad group, ignores one or two lines left over at the end. */
  method ParseLines(lines: seq<string>, now: int) returns (r: Result<seq<Tle>, ParseError>)
    ensures r == ParseFrom(ClientNoradId, lines, 0, now)
  {
    var tles: seq<Tle> := [];
    var i := 0;
    assert Prepend([], ParseFrom(ClientNoradId, lines, 0, now)) == ParseFrom(ClientNoradId, lines, 0, now) by {
      if ParseFrom(ClientNoradId, lines, 0, now).Success? { assert [] + ParseFrom(ClientNoradId, lines, 0, now).value == ParseFrom(ClientNoradId, lines, 0, now).value; }
    }
    while i < |lines|
      invariant ParseFrom(ClientNoradId, lines, 0, now) == Prepend(tles, ParseFrom(ClientNoradId, lines, i, now))
      decreases |lines| - i
    {
      if i + 2 >= |lines| {
        break;
      }
      var line1, line2 := lines[i + 1], lines[i + 2];
      if !("1 " <= line1) || !("2 " <= line2) {
        assert Group(ClientNoradId, lines, i, now) == Failure(InvalidFormat(i + 1));
        return Failure(InvalidFormat(i + 1));
      }
      var noradId := ClientNoradId(line1);
      if noradId == "" {
        assert Group(ClientNoradId, lines, i, now) == Failure(MissingNoradId(i + 2));
        return Failure(MissingNoradId(i + 2));
      }
      var t := Tle(noradId, now, line1, line2);
      assert Group(ClientNoradId, lines, i, now) == Success(t);
      assert ParseFrom(ClientNoradId, lines, i, now) == Prepend([t], ParseFrom(ClientNoradId, lines, i + 3, now));
      PrependTwice(tles, [t], ParseFrom(ClientNoradId, lines, i + 3, now));
      tles := tles + [t];
      i := i + 3;
    }
    assert tles + [] == tles;
    return Success(tles);
  }

  /** The record that group g (lines 3g, 3g + 1, 3g + 2) stands for. */
  function Record(idOf: IdOf, lines: seq<string>, g: nat, now: int): Tle
    requires 3 * g + 2 < |lines|
  {
    Tle(idOf(lines[3 * g + 1]), now, lines[3 * g + 1], lines[3 * g + 2])
  }

  /** A group is acceptable when its line 1 starts with "1 ", its line 2 with
      "2 ", and columns 3-7 of line 1 are not all blank. */
  predicate GroupOk(idOf: IdOf, lines: seq<string>, i: nat)
    requires i + 2 < |lines|
  {
    "1 " <= lines[i + 1] && "2 " <= lines[i + 2] && idOf(lines[i + 1]) != ""
  }

  /** Group g is complete and not acceptable. */
  predicate BadGroup(idOf: IdOf, lines: seq<string>, g: nat) {
    3 * g + 2 < |lines| && !GroupOk(idOf, lines, 3 * g)
  }

  /** An acceptable group yields its record, any other group an error. */
  lemma GroupVerdict(idOf: IdOf, lines: seq<string>, g: nat, now: int)
    requires 3 * g + 2 < |lines|
    ensures GroupOk(idOf, lines, 3 * g) <==> Group(idOf, lines, 3 * g, now).Success?
    ensures GroupOk(idOf, lines, 3 * g) ==> Group(idOf, lines, 3 * g, now).value == Record(idOf, lines, g, now)
  {
  }

  /** The verdict of every complete group from group g on, in group order,
      as if each were looked at. */
  function Verdicts(idOf: IdOf, lines: seq<string>, g: nat, now: int): (vs: seq<Result<Tle, ParseError>>)
    requires 3 * g <= |lines|
    ensures |vs| == (|lines| - 3 * g) / 3
    decreases |lines| - 3 * g
  {
    if 3 * g + 2 < |lines| then [Group(idOf, lines, 3 * g, now)] + Verdicts(idOf, lines, g + 1, now) else []
  }

  /** The verdict of group j sits at position j - g of Verdicts(idOf, lines, g). */
  lemma {:induction false} VerdictsAt(idOf: IdOf, lines: seq<string>, g: nat, j: nat, now: int)
    requires 3 * g <= |lines| && g <= j < g + |Verdicts(idOf, lines, g, now)|
    ensures 3 * j + 2 < |lines| && Verdicts(idOf, lines, g, now)[j - g] == Group(idOf, lines, 3 * j, now)
    decreases j - g
  {
    var rest := Verdicts(idOf, lines, g + 1, now);
    assert Verdicts(idOf, lines, g, now) == [Group(idOf, lines, 3 * g, now)] + rest;
    if g < j {
      VerdictsAt(idOf, lines, g + 1, j, now);
      assert Verdicts(idOf, lines, g, now)[j - g] == rest[j - (g + 1)];
    }
  }

  /** The records of a run of verdicts, or the first error among them. */
  function Collect(vs: seq<Result<Tle, ParseError>>): Result<seq<Tle>, ParseError> {
    if vs == [] then Success([])
    else match vs[0]
      case Failure(e) => Failure(e)
      case Success(t) => Prepend([t], Collect(vs[1..]))
  }

  /** Parsing from group g collects the verdicts of the groups from g on:
      the loop's early exit loses nothing. */
  lemma {:induction false} ParseFromCollects(idOf: IdOf, lines: seq<string>, g: nat, now: int)
    requires 3 * g <= |lines|
    ensures ParseFrom(idOf, lines, 3 * g, now) == Collect(Verdicts(idOf, lines, g, now))
    decreases |lines| - 3 * g
  {
    if 3 * g + 2 < |lines| {
      var vs := Verdicts(idOf, lines, g, now);
      assert vs[0] == Group(idOf, lines, 3 * g, now) && vs[1..] == Verdicts(idOf, lines, g + 1, now);
      assert 3 * g + 3 == 3 * (g + 1);
      ParseFromCollects(idOf, lines, g + 1, now);
    }
  }

  /** Collecting succeeds with one record per verdict, in order. */
  lemma {:induction false} CollectSuccess(vs: seq<Result<Tle, ParseError>>)
    requires Collect(vs).Success?
    ensures |Collect(vs).value| == |vs|
    ensures forall k :: 0 <= k < |vs| ==> vs[k].Success? && Collect(vs).value[k] == vs[k].value
  {
    if vs != [] {
      CollectSuccess(vs[1..]);
      var ts := Collect(vs).value;
      assert ts == [vs[0].value] + Collect(vs[1..]).value;
      forall k | 0 < k < |vs| ensures vs[k].Success? && ts[k] == vs[k].value {
        assert vs[k] == vs[1..][k - 1];
      }
    }
  }

  /** Collecting fails exactly when some verdict is an error, and then with
      the first one. */
  lemma {:induction false} CollectFailure(vs: seq<Result<Tle, ParseError>>)
    ensures Collect(vs).Failure? <==> exists k :: 0 <= k < |vs| && vs[k].Failure?
    ensures Collect(vs).Failure? ==>
      exists k :: 0 <= k < |vs| && vs[k].Failure? && Collect(vs).error == vs[k].error
        && forall j :: 0 <= j < k ==> vs[j].Success?
  {
    if vs != [] {
      CollectFailure(vs[1..]);
      if vs[0].Success? {
        if exists k :: 0 <= k < |vs| && vs[k].Failure? {
          var k :| 0 <= k < |vs| && vs[k].Failure?;
          assert vs[1..][k - 1] == vs[k];
        }
        if Collect(vs).Failure? {
          var k :| 0 <= k < |vs[1..]| && vs[1..][k].Failure? && Collect(vs[1..]).error == vs[1..][k].error
            && forall j :: 0 <= j < k ==> vs[1..][j].Success?;
          assert vs[k + 1] == vs[1..][k];
          forall j | 0 <= j < k + 1 ensures vs[j].Success? {
            if j > 0 {
              assert vs[j] == vs[1..][j - 1];
            }
          }
        }
      } else {
        assert vs[0].Failure? && Collect(vs).error == vs[0].error;
      }
    }
  }

  /** A successful parse holds exactly one record per complete group, in
      group order: record g is the one group g stands for. */
  lemma ParseRecords(idOf: IdOf, lines: seq<string>, now: int)
    requires ParseFrom(idOf, lines, 0, now).Success?
    ensures |ParseFrom(idOf, lines, 0, now).value| == |lines| / 3
    ensures forall g :: 0 <= g < |lines| / 3 ==>
      3 * g + 2 < |lines| && ParseFrom(idOf, lines, 0, now).value[g] == Record(idOf, lines, g, now)
  {
    ParseFromCollects(idOf, lines, 0, now);
    CollectSuccess(Verdicts(idOf, lines, 0, now));
    forall g | 0 <= g < |lines| / 3
      ensures 3 * g + 2 < |lines| && ParseFrom(idOf, lines, 0, now).value[g] == Record(idOf, lines, g, now)
    {
      ParseRecordAt(idOf, lines, g, now);
    }
  }

  lemma ParseRecordAt(idOf: IdOf, lines: seq<string>, g: nat, now: int)
    requires ParseFrom(idOf, lines, 0, now).Success? && g < |lines| / 3
    ensures |ParseFrom(idOf, lines, 0, now).value| == |lines| / 3
    ensures 3 * g + 2 < |lines| && ParseFrom(idOf, lines, 0, now).value[g] == Record(idOf, lines, g, now)
  {
    var vs := Verdicts(idOf, lines, 0, now);
    ParseFromCollects(idOf, lines, 0, now);
    CollectSuccess(vs);
    VerdictsAt(idOf, lines, 0, g, now);
    assert vs[g] == Group(idOf, lines, 3 * g, now);
    GroupVerdict(idOf, lines, g, now);
  }

  /** The parse fails exactly when some complete group is bad, and then
      with the error of the first bad group. */
  lemma ParseFails(idOf: IdOf, lines: seq<string>, now: int)
    ensures ParseFrom(idOf, lines, 0, now).Failure? <==> exists g: nat :: BadGroup(idOf, lines, g)
    ensures ParseFrom(idOf, lines, 0, now).Failure? ==>
      exists g: nat :: BadGroup(idOf, lines, g)
        && ParseFrom(idOf, lines, 0, now).error == Group(idOf, lines, 3 * g, now).error
        && forall j :: 0 <= j < g ==> !BadGroup(idOf, lines, j)
  {
    var vs := Verdicts(idOf, lines, 0, now);
    ParseFromCollects(idOf, lines, 0, now);
    CollectFailure(vs);
    forall g | 0 <= g < |vs| ensures vs[g].Failure? <==> BadGroup(idOf, lines, g) {
      VerdictsAt(idOf, lines, 0, g, now);
      GroupVerdict(idOf, lines, g, now);
    }
    forall g: nat | BadGroup(idOf, lines, g) ensures g < |vs| {
    }
    if ParseFrom(idOf, lines, 0, now).Failure? {
      var g :| 0 <= g < |vs| && vs[g].Failure? && Collect(vs).error == vs[g].error
        && forall j :: 0 <= j < g ==> vs[j].Success?;
      VerdictsAt(idOf, lines, 0, g, now);
      assert BadGroup(idOf, lines, g);
    }
  }

  /** The name lines are never looked at: two inputs of the same length that
      differ only in the lines at 3g, 3g + 3, 3g + 6, ... parse alike. */
  lemma {:induction false} NameLinesIgnored(idOf: IdOf, lines: seq<string>, other: seq<string>, g: nat, now: int)
    requires |lines| == |other|
    requires forall j :: 3 * g <= j < |lines| && j % 3 != 0 ==> lines[j] == other[j]
    ensures ParseFrom(idOf, lines, 3 * g, now) == ParseFrom(idOf, other, 3 * g, now)
    decreases |lines| - 3 * g
  {
    if 3 * g + 2 < |lines| {
      assert (3 * g + 1) % 3 == 1 && (3 * g + 2) % 3 == 2;
      assert lines[3 * g + 1] == other[3 * g + 1] && lines[3 * g + 2] == other[3 * g + 2];
      assert Group(idOf, lines, 3 * g, now) == Group(idOf, other, 3 * g, now);
      assert 3 * g + 3 == 3 * (g + 1);
      NameLinesIgnored(idOf, lines, other, g + 1, now);
    }
  }

  // ---------------------------------------------------------------------
  // The catalog number, client side and server side

  /** The client's number is the text of columns 3-7, leading zeros kept:
      a line 1 whose columns 3-7 are five digits yields those five digits. */
  lemma ClientKeepsDigits(digits: string, rest: string)
    requires |digits| == 5 && AllDigits(digits)
    ensures ClientNoradId("1 " + digits + rest) == digits
  {
    var line1 := "1 " + digits + rest;
    assert line1[2..7] == digits;
    assert !IsSpace(EcmaScript, digits[0]) && !IsSpace(EcmaScript, digits[4]);
    TrimOfTrimmed(EcmaScript, digits);
  }

  /** A line 1 that starts with "1 " and ends in a non-blank character can
      only lack a client number when it is longer than seven characters:
      columns 3-7 are then all blank. */
  lemma ClientIdMissingOnlyWhenBlank(line1: string)
    requires "1 " <= line1 && IsTrimmed(EcmaScript, line1) && |line1| > 2
    requires ClientNoradId(line1) == ""
    ensures |line1| > 7
    ensures forall k :: 2 <= k < 7 ==> IsSpace(EcmaScript, line1[k])
  {
    TrimSpec(EcmaScript, Substring(line1, 2, 7));
    var sub := line1[2..7];
    assert Substring(line1, 2, 7) == sub;
    forall k | 2 <= k < 7 ensures IsSpace(EcmaScript, line1[k]) {
      assert line1[k] == sub[k - 2];
    }
  }

  /** The two parsers disagree on a padded catalog number: for a line 1
      whose five-digit field has leading zeros the client keeps them and the
      server's stream parser drops them. The satellite table holds noard_id
      as it was entered, so which of the two forms matches it depends on how
      the satellite was entered. */
  lemma ClientServerDiverge(zeros: string, id: string, rest: string)
    requires |zeros| > 0 && forall k :: 0 <= k < |zeros| ==> zeros[k] == '0'
    requires IsCanonical(id) && |zeros| + |id| == 5
    requires rest == [] || !IsDigit(rest[0])
    ensures ExtractNoradId("1 " + zeros + id + rest) == id
    ensures ClientNoradId("1 " + zeros + id + rest) == zeros + id != id
  {
    FiveDigitsInRange(id);
    ExtractDropsLeadingZeros(zeros, id, rest);
    ValueAfterZeros(zeros, id);
    SeqAssoc("1 " + zeros, id, rest);
    SeqAssoc("1 ", zeros, id);
    assert "1 " + zeros + id + rest == "1 " + (zeros + id) + rest;
    ClientKeepsDigits(zeros + id, rest);
  }

  /** Without leading zeros the two parsers agree on a five-digit field. */
  lemma ClientServerAgree(digits: string, rest: string)
    requires |digits| == 5 && IsCanonical(digits)
    requires rest == [] || !IsDigit(rest[0])
    ensures ClientNoradId("1 " + digits + rest) == ExtractNoradId("1 " + digits + rest) == digits
  {
    FiveDigitsInRange(digits);
    ExtractDropsLeadingZeros("", digits, rest);
    assert "1 " + "" + digits + rest == "1 " + digits + rest;
    ClientKeepsDigits(digits, rest);
  }

  lemma FiveDigitsInRange(s: string)
    requires AllDigits(s) && |s| <= 5
    ensures Value(s) < 100000
  {
    ValueBelowPower(s);
    assert Power10(|s|) <= 100000 by {
      Power10Monotone(|s|, 5);
    }
  }

  // ---------------------------------------------------------------------
  // The bulk-submit form and the password form

  datatype BulkError = BadText(cause: ParseError) | NoValidData

  /** What the bulk-submit handler does before any request: a parse error
      or an empty result is shown to the user, otherwise the records are
      posted to the update endpoint. */
  function BulkSubmit(text: string, now: int): Result<seq<Tle>, BulkError> {
    match ParseResult(text, now)
    case Failure(e) => Failure(BadText(e))
    case Success(tles) => if |tles| == 0 then Failure(NoValidData) else Success(tles)
  }

  /** Fewer than three non-blank lines never reach the server, and whatever
      does reach it passes the server's own empty-list check. */
  lemma BulkSubmitChecks(text: string, now: int, catalog: set<string>, faults: Faults, beginFails: bool, commitFails: bool)
    ensures |NormalizedLines(text)| < 3 ==> BulkSubmit(text, now) == Failure(NoValidData)
    ensures BulkSubmit(text, now).Success? ==>
      |BulkSubmit(text, now).value| == |NormalizedLines(text)| / 3 > 0
      && UpdateResult(catalog, Some(BulkSubmit(text, now).value), faults, beginFails, commitFails) != Failure(NoTleData)
  {
    var lines := NormalizedLines(text);
    if ParseResult(text, now).Success? {
      ParseRecords(ClientNoradId, lines, now);
    }
  }

  datatype PasswordError = Mismatch | TooShort

  /** The checks of the change-password form, in their order: None lets
      the request go out. Length is counted in characters. */
  function ValidatePasswordChange(newPassword: string, confirmPassword: string): Option<PasswordError> {
    if newPassword != confirmPassword then Some(Mismatch)
    else if |newPassword| < 6 then Some(TooShort)
    else None
  }

  /** A change goes out exactly when the two entries agree and have at
      least six characters; a mismatch is reported before the length. */
  lemma PasswordRules(newPassword: string, confirmPassword: string)
    ensures ValidatePasswordChange(newPassword, confirmPassword) == None
        <==> newPassword == confirmPassword && |newPassword| >= 6
    ensures newPassword != confirmPassword ==> ValidatePasswordChange(newPassword, confirmPassword) == Some(Mismatch)
    ensures ValidatePasswordChange(newPassword, confirmPassword) == Some(TooShort)
        <==> newPassword == confirmPassword && |newPassword| < 6
  {
  }
}
