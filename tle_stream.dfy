/** The server-side TLE stream parser, fetchTLEFromURL of handlers/tle.go.
    Every scanned line is trimmed (strings.TrimSpace); blank lines are
    skipped; the remaining lines drive a three-state machine whose state is
    the counter `lineCount` (0, 1, 2) and whose carried slot is the accepted
    line 1. A line rejected in state 1 or 2 is consumed: the machine goes
    back to state 0 and the NEXT non-blank line is taken as a name. */
module TleStream {
  import opened Wrappers
  import opened Seqs
  import opened Text
  import opened Decimal
  import opened NoradId
  import opened Models

  /** The state of the machine: lineCount 0, 1 or 2, with the line 1 that
      was accepted in state 1 carried into state 2. */
  datatype ParseState = AwaitName | AwaitLine1 | AwaitLine2(line1: string)

  /** The state that lineCount and line1 stand for in the Go loop. */
  function StateOf(lineCount: int, line1: string): ParseState
    requires 0 <= lineCount <= 2
  {
    if lineCount == 0 then AwaitName else if lineCount == 1 then AwaitLine1 else AwaitLine2(line1)
  }

  /** The value of lineCount in a state. */
  function LineCount(s: ParseState): nat {
    match s
    case AwaitName => 0
    case AwaitLine1 => 1
    case AwaitLine2(_) => 2
  }

  /** The state after one scanned line. */
  function Next(s: ParseState, raw: string): ParseState {
    var line := Trim(GoUnicode, raw);
    if line == "" then s
    else match s
      case AwaitName => AwaitLine1
      case AwaitLine1 => if "1 " <= line then AwaitLine2(line) else AwaitName
      case AwaitLine2(_) => AwaitName
  }

  /** The records emitted by one scanned line: one record when a line 2
      completes a block whose line 1 yields a catalog number, none otherwise. */
  function Emitted(s: ParseState, raw: string, now: int): seq<Tle> {
    var line := Trim(GoUnicode, raw);
    if line != "" && s.AwaitLine2? && "2 " <= line && ExtractNoradId(s.line1) != ""
    then [Tle(ExtractNoradId(s.line1), now, s.line1, line)]
    else []
  }

  /** Records emitted while scanning `lines` from state s. */
  function Run(s: ParseState, lines: seq<string>, now: int): seq<Tle>
    decreases |lines|
  {
    if lines == [] then [] else Emitted(s, lines[0], now) + Run(Next(s, lines[0]), lines[1..], now)
  }

  /** The state reached after scanning `lines` from state s. */
  function After(s: ParseState, lines: seq<string>): ParseState
    decreases |lines|
  {
    if lines == [] then s else After(Next(s, lines[0]), lines[1..])
  }

  /** The state after a + b is the state after b from where a left off. */
  lemma {:induction false} AfterAppend(s: ParseState, a: seq<string>, b: seq<string>)
    ensures After(s, a + b) == After(After(s, a), b)
    decreases |a|
  {
    if a == [] {
      assert a + b == b;
    } else {
      assert (a + b)[0] == a[0] && (a + b)[1..] == a[1..] + b;
      AfterAppend(Next(s, a[0]), a[1..], b);
    }
  }

  /** Scanning a + b is scanning a, then b from where a left off. */
  lemma {:induction false} RunAppend(s: ParseState, a: seq<string>, b: seq<string>, now: int)
    ensures Run(s, a + b, now) == Run(s, a, now) + Run(After(s, a), b, now)
    decreases |a|
  {
    if a == [] {
      assert a + b == b;
    } else {
      var x, t := a[0], a[1..];
      assert a == [x] + t && a + b == [x] + (t + b);
      RunCons(s, x, t + b, now);
      RunCons(s, x, t, now);
      RunAppend(Next(s, x), t, b, now);
      SeqAssoc(Emitted(s, x, now), Run(Next(s, x), t, now), Run(After(Next(s, x), t), b, now));
    }
  }


  /** Scanning one more line: the records so far plus what that line emits
      in the state reached. */
  lemma RunSnoc(s: ParseState, a: seq<string>, x: string, now: int)
    ensures Run(s, a + [x], now) == Run(s, a, now) + Emitted(After(s, a), x, now)
    ensures After(s, a + [x]) == Next(After(s, a), x)
  {
    RunAppend(s, a, [x], now);
    AfterAppend(s, a, [x]);
    assert Run(After(s, a), [x], now) == Emitted(After(s, a), x, now) + Run(Next(After(s, a), x), [], now);
  }

  /** What an HTTP GET of a TLE source yields: a transport error, or a
      response with its status code, the lines the scanner read, and whether
      the scanner stopped on a read error after those lines. */
  datatype HttpResponse =
    | TransportError
    | Response(status: int, lines: seq<string>, readFailed: bool)

  datatype FetchError = GetFailed | HttpStatus(code: int) | ReadFailed

  /** What fetchTLEFromURL returns for a response. */
  function FetchResult(resp: HttpResponse, now: int): Result<seq<Tle>, FetchError> {
    match resp
    case TransportError => Failure(GetFailed)
    case Response(status, lines, readFailed) =>
      if status != 200 then Failure(HttpStatus(status))
      else if readFailed then Failure(ReadFailed)
      else Success(Run(AwaitName, lines, now))
  }

  /** Whether fetchTLEFromURL reports an error for a response: the GET
      failed, the status is not 200, or reading the body failed. */
  predicate FetchFails(resp: HttpResponse) {
    resp.TransportError? || resp.status != 200 || resp.readFailed
  }

  lemma FetchFailsExactly(resp: HttpResponse, now: int)
    ensures FetchResult(resp, now).Failure? <==> FetchFails(resp)
  {
  }

  /** fetchTLEFromURL, with the HTTP GET replaced by its outcome and
      time.Now() by `now`. A non-200 status or a read error discards every
      record parsed so far. */
  method FetchTleFromUrl(resp: HttpResponse, now: int) returns (r: Result<seq<Tle>, FetchError>)
    ensures r == FetchResult(resp, now)
    ensures r.Failure? <==> FetchFails(resp)
  {
    match resp
    case TransportError =>
      return Failure(GetFailed);
    case Response(status, lines, readFailed) =>
      if status != 200 {
        return Failure(HttpStatus(status));
      }
      var tles: seq<Tle> := [];
      var line1: string := "";
      var lineCount := 0;
      var i := 0;
      while i < |lines|
        invariant 0 <= i <= |lines|
        invariant 0 <= lineCount <= 2
        invariant Run(AwaitName, lines, now) == tles + Run(StateOf(lineCount, line1), lines[i..], now)
      {
        ghost var before, found := StateOf(lineCount, line1), tles;
        var line := Trim(GoUnicode, lines[i]);
        if line == "" {
          // blank lines leave lineCount and line1 alone
        } else if lineCount == 0 {
          lineCount := lineCount + 1;
        } else if lineCount == 1 {
          if "1 " <= line {
            line1 := line;
            lineCount := lineCount + 1;
          } else {
            lineCount := 0;
          }
        } else {
          if "2 " <= line {
            var noradId := ExtractNoradId(line1);
            if noradId != "" {
              tles := tles + [Tle(noradId, now, line1, line)];
            }
            lineCount := 0;
          } else {
            lineCount := 0;
          }
        }
        assert StateOf(lineCount, line1) == Next(before, lines[i]);
        assert tles == found + Emitted(before, lines[i], now);
        assert lines[i..][0] == lines[i] && lines[i..][1..] == lines[i + 1..];
        SeqAssoc(found, Emitted(before, lines[i], now), Run(Next(before, lines[i]), lines[i + 1..], now));
        i := i + 1;
      }
      assert tles + [] == tles;
      if readFailed {
        return Failure(ReadFailed);
      }
      return Success(tles);
  }

  // ---------------------------------------------------------------------
  // Properties of the machine

  /** Scanning a line followed by more lines. */
  lemma RunCons(s: ParseState, x: string, rest: seq<string>, now: int)
    ensures Run(s, [x] + rest, now) == Emitted(s, x, now) + Run(Next(s, x), rest, now)
    ensures After(s, [x] + rest) == After(Next(s, x), rest)
  {
    assert ([x] + rest)[0] == x && ([x] + rest)[1..] == rest;
  }

  lemma Cons2(a: string, b: string, rest: seq<string>)
    ensures [a, b] + rest == [a] + ([b] + rest)
  {
  }

  lemma Cons3(a: string, b: string, c: string, rest: seq<string>)
    ensures [a, b, c] + rest == [a] + ([b] + ([c] + rest))
  {
  }

  /** A non-blank line in state 0 is a name: it is not inspected further. */
  lemma NameStep(name: string, rest: seq<string>, now: int)
    requires Trim(GoUnicode, name) != ""
    ensures Run(AwaitName, [name] + rest, now) == Run(AwaitLine1, rest, now)
    ensures After(AwaitName, [name] + rest) == After(AwaitLine1, rest)
  {
    RunCons(AwaitName, name, rest, now);
  }

  /** In state 1, a line with the prefix "1 " is kept, trimmed, as line 1. */
  lemma Line1Step(l1: string, rest: seq<string>, now: int)
    requires "1 " <= Trim(GoUnicode, l1)
    ensures Run(AwaitLine1, [l1] + rest, now) == Run(AwaitLine2(Trim(GoUnicode, l1)), rest, now)
    ensures After(AwaitLine1, [l1] + rest) == After(AwaitLine2(Trim(GoUnicode, l1)), rest)
  {
    RunCons(AwaitLine1, l1, rest, now);
  }

  /** In state 2, a line with the prefix "2 " closes the block, which yields
      a record exactly when line 1 yields a catalog number. */
  lemma Line2Step(line1: string, l2: string, rest: seq<string>, now: int)
    requires "2 " <= Trim(GoUnicode, l2)
    ensures Run(AwaitLine2(line1), [l2] + rest, now)
         == (if ExtractNoradId(line1) != "" then [Tle(ExtractNoradId(line1), now, line1, Trim(GoUnicode, l2))] else [])
            + Run(AwaitName, rest, now)
    ensures After(AwaitLine2(line1), [l2] + rest) == After(AwaitName, rest)
  {
    RunCons(AwaitLine2(line1), l2, rest, now);
  }

  /** A non-blank line that fails the prefix test of state 1 or 2 sends the
      machine back to state 0 without a record; the line itself is used up. */
  lemma RejectStep(s: ParseState, bad: string, rest: seq<string>, now: int)
    requires Trim(GoUnicode, bad) != ""
    requires (s.AwaitLine1? && !("1 " <= Trim(GoUnicode, bad))) || (s.AwaitLine2? && !("2 " <= Trim(GoUnicode, bad)))
    ensures Run(s, [bad] + rest, now) == Run(AwaitName, rest, now)
    ensures After(s, [bad] + rest) == After(AwaitName, rest)
  {
    RunCons(s, bad, rest, now);
  }

  /** A name line, a line 1 and a line 2 scanned from state 0 emit exactly
      one record, made of the trimmed lines and the canonical catalog
      number, and leave the machine in state 0 again. */
  lemma {:induction false} BlockEmitsOne(name: string, l1: string, l2: string, rest: seq<string>, now: int)
    requires Trim(GoUnicode, name) != ""
    requires "1 " <= Trim(GoUnicode, l1) && "2 " <= Trim(GoUnicode, l2)
    requires ExtractNoradId(Trim(GoUnicode, l1)) != ""
    ensures Run(AwaitName, [name, l1, l2] + rest, now)
         == [Tle(ExtractNoradId(Trim(GoUnicode, l1)), now, Trim(GoUnicode, l1), Trim(GoUnicode, l2))]
            + Run(AwaitName, rest, now)
    ensures After(AwaitName, [name, l1, l2] + rest) == After(AwaitName, rest)
  {
    Cons3(name, l1, l2, rest);
    NameStep(name, [l1] + ([l2] + rest), now);
    Line1Step(l1, [l2] + rest, now);
    Line2Step(Trim(GoUnicode, l1), l2, rest, now);
  }

  /** Such a block in the middle of a stream contributes its record in place,
      provided the machine is in state 0 when the block starts. */
  lemma BlockInContext(prefix: seq<string>, name: string, l1: string, l2: string, rest: seq<string>, now: int)
    requires After(AwaitName, prefix) == AwaitName
    requires Trim(GoUnicode, name) != ""
    requires "1 " <= Trim(GoUnicode, l1) && "2 " <= Trim(GoUnicode, l2)
    requires ExtractNoradId(Trim(GoUnicode, l1)) != ""
    ensures Run(AwaitName, prefix + [name, l1, l2] + rest, now)
         == Run(AwaitName, prefix, now)
            + [Tle(ExtractNoradId(Trim(GoUnicode, l1)), now, Trim(GoUnicode, l1), Trim(GoUnicode, l2))]
            + Run(AwaitName, rest, now)
  {
    SeqAssoc(prefix, [name, l1, l2], rest);
    AfterAppend(AwaitName, prefix, [name, l1, l2] + rest);
    RunAppend(AwaitName, prefix, [name, l1, l2] + rest, now);
    BlockEmitsOne(name, l1, l2, rest, now);
  }


  /** A complete block whose line 1 yields no catalog number (no digits
      after "1" and white space, or too many for Atoi) is dropped, and the
      machine is back in state 0 all the same. */
  lemma {:induction false} BlockWithoutIdDropped(name: string, l1: string, l2: string, rest: seq<string>, now: int)
    requires Trim(GoUnicode, name) != ""
    requires "1 " <= Trim(GoUnicode, l1) && "2 " <= Trim(GoUnicode, l2)
    requires ExtractNoradId(Trim(GoUnicode, l1)) == ""
    ensures Run(AwaitName, [name, l1, l2] + rest, now) == Run(AwaitName, rest, now)
    ensures After(AwaitName, [name, l1, l2] + rest) == After(AwaitName, rest)
  {
    Cons3(name, l1, l2, rest);
    NameStep(name, [l1] + ([l2] + rest), now);
    Line1Step(l1, [l2] + rest, now);
    Line2Step(Trim(GoUnicode, l1), l2, rest, now);
  }

  /** In state 1, a non-blank line without the prefix "1 " is consumed: the
      block is abandoned and scanning starts over with the line AFTER it as
      the name. */
  lemma {:induction false} BadLine1Consumed(name: string, bad: string, rest: seq<string>, now: int)
    requires Trim(GoUnicode, name) != "" && Trim(GoUnicode, bad) != ""
    requires !("1 " <= Trim(GoUnicode, bad))
    ensures Run(AwaitName, [name, bad] + rest, now) == Run(AwaitName, rest, now)
    ensures After(AwaitName, [name, bad] + rest) == After(AwaitName, rest)
  {
    Cons2(name, bad, rest);
    NameStep(name, [bad] + rest, now);
    RejectStep(AwaitLine1, bad, rest, now);
  }

  /** In state 2, a non-blank line without the prefix "2 " is consumed in
      the same way, and no record is emitted. */
  lemma {:induction false} BadLine2Consumed(name: string, l1: string, bad: string, rest: seq<string>, now: int)
    requires Trim(GoUnicode, name) != "" && "1 " <= Trim(GoUnicode, l1)
    requires Trim(GoUnicode, bad) != "" && !("2 " <= Trim(GoUnicode, bad))
    ensures Run(AwaitName, [name, l1, bad] + rest, now) == Run(AwaitName, rest, now)
    ensures After(AwaitName, [name, l1, bad] + rest) == After(AwaitName, rest)
  {
    Cons3(name, l1, bad, rest);
    NameStep(name, [l1] + ([bad] + rest), now);
    Line1Step(l1, [bad] + rest, now);
    RejectStep(AwaitLine2(Trim(GoUnicode, l1)), bad, rest, now);
  }

  /** The lines of `lines` that are not blank once trimmed, in order. */
  function NonBlank(lines: seq<string>): (r: seq<string>)
    ensures |r| <= |lines|
    ensures forall k :: 0 <= k < |r| ==> Trim(GoUnicode, r[k]) != ""
  {
    if lines == [] then []
    else if Trim(GoUnicode, lines[0]) == "" then NonBlank(lines[1..])
    else [lines[0]] + NonBlank(lines[1..])
  }

  /** Blank lines are invisible to the machine: scanning only the non-blank
      lines gives the same records and the same final state. */
  lemma {:induction false} BlankLinesIgnored(s: ParseState, lines: seq<string>, now: int)
    ensures Run(s, NonBlank(lines), now) == Run(s, lines, now)
    ensures After(s, NonBlank(lines)) == After(s, lines)
    decreases |lines|
  {
    if lines != [] {
      BlankLinesIgnored(Next(s, lines[0]), lines[1..], now);
      if Trim(GoUnicode, lines[0]) != "" {
        var nb := [lines[0]] + NonBlank(lines[1..]);
        assert nb[0] == lines[0] && nb[1..] == NonBlank(lines[1..]);
      }
    }
  }

  /** The machine sees each line only through its trimmed form. */
  lemma {:induction false} RunOnTrimmedLines(s: ParseState, lines: seq<string>, trimmed: seq<string>, now: int)
    requires |trimmed| == |lines|
    requires forall k :: 0 <= k < |lines| ==> trimmed[k] == Trim(GoUnicode, lines[k])
    ensures Run(s, trimmed, now) == Run(s, lines, now)
    ensures After(s, trimmed) == After(s, lines)
    decreases |lines|
  {
    if lines != [] {
      var x, t := lines[0], trimmed[0];
      StepOnTrimmedLine(s, x, now);
      assert t == Trim(GoUnicode, x);
      assert [x] + lines[1..] == lines && [t] + trimmed[1..] == trimmed;
      RunCons(s, x, lines[1..], now);
      RunCons(s, t, trimmed[1..], now);
      RunOnTrimmedLines(Next(s, x), lines[1..], trimmed[1..], now);
    }
  }

  /** One line read trimmed or as it came has the same effect. */
  lemma StepOnTrimmedLine(s: ParseState, raw: string, now: int)
    ensures Next(s, Trim(GoUnicode, raw)) == Next(s, raw)
    ensures Emitted(s, Trim(GoUnicode, raw), now) == Emitted(s, raw, now)
  {
    TrimIdempotent(GoUnicode, raw);
  }

  /** A state is sound when its carried line 1 is one the machine accepted:
      trimmed and starting with "1 ". */
  predicate SoundState(s: ParseState) {
    s.AwaitLine2? ==> "1 " <= s.line1 && IsTrimmed(GoUnicode, s.line1)
  }

  /** A record as the parser builds it: line 1 starts with "1 ", line 2
      with "2 ", both trimmed; the catalog number is the canonical form of
      line 1's digits; the time is the one passed in. */
  predicate WellFormed(t: Tle, now: int) {
    && "1 " <= t.line1 && "2 " <= t.line2
    && IsTrimmed(GoUnicode, t.line1) && IsTrimmed(GoUnicode, t.line2)
    && t.satNoardId == ExtractNoradId(t.line1) && IsCanonical(t.satNoardId)
    && t.time == now
  }

  lemma {:induction false} NextSound(s: ParseState, raw: string)
    requires SoundState(s)
    ensures SoundState(Next(s, raw))
  {
    TrimSpec(GoUnicode, raw);
  }

  predicate AllWellFormed(ts: seq<Tle>, now: int) {
    forall k :: 0 <= k < |ts| ==> WellFormed(ts[k], now)
  }

  lemma AllWellFormedAppend(a: seq<Tle>, b: seq<Tle>, now: int)
    requires AllWellFormed(a, now) && AllWellFormed(b, now)
    ensures AllWellFormed(a + b, now)
  {
    forall k | 0 <= k < |a + b| ensures WellFormed((a + b)[k], now) {
      if k >= |a| { assert (a + b)[k] == b[k - |a|]; } else { assert (a + b)[k] == a[k]; }
    }
  }

  /** Every record the machine emits is well formed. */
  lemma {:induction false} RunWellFormed(s: ParseState, lines: seq<string>, now: int)
    requires SoundState(s)
    ensures AllWellFormed(Run(s, lines, now), now)
    decreases |lines|
  {
    if lines != [] {
      var e := Emitted(s, lines[0], now);
      NextSound(s, lines[0]);
      RunWellFormed(Next(s, lines[0]), lines[1..], now);
      assert AllWellFormed(e, now) by {
        if e != [] {
          TrimSpec(GoUnicode, lines[0]);
          assert WellFormed(e[0], now);
        }
      }
      AllWellFormedAppend(e, Run(Next(s, lines[0]), lines[1..], now), now);
    }
  }

  /** Each record takes three non-blank lines: from any state, three times
      the records plus the lines held in the final state never exceed the
      lines held at the start plus the non-blank lines scanned. */
  lemma {:induction false} RunCountBound(s: ParseState, lines: seq<string>, now: int)
    ensures 3 * |Run(s, lines, now)| + LineCount(After(s, lines)) <= LineCount(s) + |NonBlank(lines)|
    decreases |lines|
  {
    if lines != [] {
      RunCountBound(Next(s, lines[0]), lines[1..], now);
    }
  }

  /** From state 0, at most one record per three non-blank lines. */
  lemma RecordsAtMostThird(lines: seq<string>, now: int)
    ensures |Run(AwaitName, lines, now)| <= |NonBlank(lines)| / 3
  {
    RunCountBound(AwaitName, lines, now);
  }

  /** A line rejected as line 1 is not tried again as a name: a name line
      followed directly by a complete block loses that block too, because
      the block's name is rejected as line 1 and its line 1 is then read as
      a name. */
  lemma {:induction false} NoResynchronisation(name: string, name2: string, l1: string, l2: string,
                                               rest: seq<string>, now: int)
    requires Trim(GoUnicode, name) != "" && Trim(GoUnicode, name2) != ""
    requires !("1 " <= Trim(GoUnicode, name2))
    requires "1 " <= Trim(GoUnicode, l1) && "2 " <= Trim(GoUnicode, l2)
    ensures Run(AwaitName, [name, name2, l1, l2] + rest, now) == Run(AwaitName, rest, now)
    ensures After(AwaitName, [name, name2, l1, l2] + rest) == After(AwaitName, rest)
  {
    Split4(name, name2, l1, l2, rest);
    BadLine1Consumed(name, name2, [l1, l2] + rest, now);
    assert !("1 " <= Trim(GoUnicode, l2)) by {
      assert Trim(GoUnicode, l2)[0] == '2';
    }
    BadLine1Consumed(l1, l2, rest, now);
  }

  lemma Split4(a: string, b: string, c: string, d: string, rest: seq<string>)
    ensures [a, b, c, d] + rest == [a, b] + ([c, d] + rest)
  {
  }

  lemma Split6(a: string, b: string, c: string, d: string, e: string, f: string)
    ensures [a, b, c, d, e, f] == [a, b, c] + [d, e, f]
    ensures [d, e, f] == [d] + ([e] + ([f] + []))
  {
  }

  /** A blank line changes nothing. */
  lemma BlankStep(s: ParseState, blank: string, rest: seq<string>, now: int)
    requires Trim(GoUnicode, blank) == ""
    ensures Run(s, [blank] + rest, now) == Run(s, rest, now)
    ensures After(s, [blank] + rest) == After(s, rest)
  {
    RunCons(s, blank, rest, now);
  }

  /** A source text with one complete block, a blank line, and a block cut
      short after its line 1 yields exactly the complete block's record, and
      the machine ends waiting for the missing line 2. */
  lemma {:induction false} CompleteThenUnfinished(name: string, l1: string, l2: string, blank: string,
                                                  name2: string, l1b: string, now: int)
    requires Trim(GoUnicode, name) != "" && Trim(GoUnicode, name2) != ""
    requires "1 " <= Trim(GoUnicode, l1) && "2 " <= Trim(GoUnicode, l2)
    requires ExtractNoradId(Trim(GoUnicode, l1)) != ""
    requires Trim(GoUnicode, blank) == "" && "1 " <= Trim(GoUnicode, l1b)
    ensures Run(AwaitName, [name, l1, l2, blank, name2, l1b], now)
         == [Tle(ExtractNoradId(Trim(GoUnicode, l1)), now, Trim(GoUnicode, l1), Trim(GoUnicode, l2))]
    ensures After(AwaitName, [name, l1, l2, blank, name2, l1b]) == AwaitLine2(Trim(GoUnicode, l1b))
  {
    Split6(name, l1, l2, blank, name2, l1b);
    BlockEmitsOne(name, l1, l2, [blank, name2, l1b], now);
    BlankStep(AwaitName, blank, [name2] + ([l1b] + []), now);
    NameStep(name2, [l1b] + [], now);
    Line1Step(l1b, [], now);
  }
}
