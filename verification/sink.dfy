/**
 * The per-file match collector (ResultsSink) and how the searcher drives it:
 * one `matched` call per match, stopping at the first error the sink returns.
 */
module Sink {
  import opened Wrappers
  import opened Errors
  import opened Entries
  import opened Numerals

  /** grep's SinkMatch, reduced to the matched bytes and the line number. */
  datatype SinkMatch = SinkMatch(bytes: seq<byte>, lineNumber: Option<nat>)

  /** ResultsSink: the file's lossy path and the match records gathered so far. */
  datatype ResultsSink = ResultsSink(path: string, matches: seq<string>)

  /** The sink state after a `matched` call, with what the call returned. */
  datatype Step = Step(sink: ResultsSink, result: Result<bool, FinderError>)

  /**
   * What the searcher produced for one matcher over one file: the matches it
   * delivers to the sink, in order (already cut short where binary detection
   * quit), and the text of an I/O error raised after them, if any.
   */
  datatype Scan = Scan(matches: seq<SinkMatch>, failure: Option<string>)

  /** search_path's outcome: the sink afterwards and the Ok(()) or error. */
  datatype Searched = Searched(sink: ResultsSink, result: Result<(), FinderError>)

  const LineNumbersNotConfigured: string := "line numbers not configured"
  const Separator: string := " :: "

  /** A fresh sink for an entry: keyed by the entry's lossy path, no matches. */
  function NewSink(e: Entry): (s: ResultsSink)
    ensures s.path == e.lossyPath && |s.matches| == 0
  {
    ResultsSink(e.lossyPath, [])
  }

  /** The record `"{lineno} :: {text}"`. */
  function FormatMatch(lineno: nat, text: string): string {
    ToDecimal(lineno) + Separator + text
  }

  /** The number of leading decimal digits of s. */
  function LeadingDigits(s: string): (k: nat)
    ensures k <= |s| && AllDigits(s[..k])
    ensures k < |s| ==> !IsDigit(s[k])
    decreases |s|
  {
    if |s| == 0 || !IsDigit(s[0]) then 0
    else
      var k := 1 + LeadingDigits(s[1..]);
      assert s[..k] == [s[0]] + s[1..][..k - 1];
      k
  }

  /** Splits a record back into its line number and text. */
  function ParseMatchLine(s: string): Option<(nat, string)> {
    var k := LeadingDigits(s);
    if k == 0 || |s| < k + |Separator| || s[k..k + |Separator|] != Separator then None
    else Some((FromDecimal(s[..k]), s[k + |Separator|..]))
  }

  lemma {:induction false} LeadingDigitsOfDigitsThenOther(d: string, rest: string)
    requires AllDigits(d)
    requires 0 < |rest| && !IsDigit(rest[0])
    ensures LeadingDigits(d + rest) == |d|
    decreases |d|
  {
    if |d| == 0 {
      assert (d + rest)[0] == rest[0];
    } else {
      assert (d + rest)[1..] == d[1..] + rest;
      LeadingDigitsOfDigitsThenOther(d[1..], rest);
    }
  }

  /** A record reads back as the line number and text it was made from. */
  lemma FormatMatchRoundTrip(lineno: nat, text: string)
    ensures ParseMatchLine(FormatMatch(lineno, text)) == Some((lineno, text))
  {
    var d := ToDecimal(lineno);
    var s := FormatMatch(lineno, text);
    assert s == d + (Separator + text);
    LeadingDigitsOfDigitsThenOther(d, Separator + text);
    assert s[..|d|] == d;
    assert s[|d|..|d| + |Separator|] == Separator;
    assert s[|d| + |Separator|..] == text;
    DecimalRoundTrip(lineno);
  }

  /** Distinct (line number, text) pairs give distinct records. */
  lemma FormatMatchInjective(m: nat, t: string, n: nat, u: string)
    ensures FormatMatch(m, t) == FormatMatch(n, u) ==> m == n && t == u
  {
    FormatMatchRoundTrip(m, t);
    FormatMatchRoundTrip(n, u);
  }

  /** Whether the sink records a match: its bytes decode and it has a line number. */
  predicate Accepts(m: SinkMatch, decode: Utf8Decoder) {
    decode(m.bytes).Success? && m.lineNumber.Some?
  }

  /** The record the sink appends for an accepted match. */
  function Record(m: SinkMatch, decode: Utf8Decoder): (line: string)
    requires Accepts(m, decode)
    ensures ParseMatchLine(line) == Some((m.lineNumber.value, decode(m.bytes).value))
  {
    FormatMatchRoundTrip(m.lineNumber.value, decode(m.bytes).value);
    FormatMatch(m.lineNumber.value, decode(m.bytes).value)
  }

  /** The error the sink returns for a match it does not accept. */
  function Rejection(m: SinkMatch, decode: Utf8Decoder): FinderError
    requires !Accepts(m, decode)
  {
    if decode(m.bytes).Failure? then Utf8(decode(m.bytes).error)
    else Unknown(LineNumbersNotConfigured)
  }

  /**
   * ResultsSink::matched. Bytes that are not UTF-8 give a Utf8 error; a
   * missing line number gives an Unknown error (UTF-8 is checked first);
   * in both cases nothing is recorded. Otherwise exactly one record is
   * appended and the searcher is told to continue.
   */
  function Matched(sink: ResultsSink, m: SinkMatch, decode: Utf8Decoder): (st: Step)
    ensures st.sink.path == sink.path
    ensures decode(m.bytes).Failure? ==> st == Step(sink, Failure(Utf8(decode(m.bytes).error)))
    ensures decode(m.bytes).Success? && m.lineNumber == None ==>
              st == Step(sink, Failure(Unknown(LineNumbersNotConfigured)))
    ensures Accepts(m, decode) ==>
              && st.result == Success(true)
              && |st.sink.matches| == |sink.matches| + 1
              && st.sink.matches == sink.matches + [Record(m, decode)]
              && st.sink.matches[..|sink.matches|] == sink.matches
              && ParseMatchLine(st.sink.matches[|sink.matches|]) == Some((m.lineNumber.value, decode(m.bytes).value))
  {
    match decode(m.bytes)
    case Failure(err) => Step(sink, Failure(Utf8(err)))
    case Success(text) =>
      match m.lineNumber
      case None => Step(sink, Failure(Unknown(LineNumbersNotConfigured)))
      case Some(lineno) =>
        FormatMatchRoundTrip(lineno, text);
        Step(sink.(matches := sink.matches + [FormatMatch(lineno, text)]), Success(true))
  }

  /** The index of the first match the sink rejects, or |ms| when it accepts all. */
  function FirstRejected(ms: seq<SinkMatch>, decode: Utf8Decoder): (k: nat)
    ensures k <= |ms|
    ensures forall i :: 0 <= i < k ==> Accepts(ms[i], decode)
    ensures k < |ms| ==> !Accepts(ms[k], decode)
    decreases |ms|
  {
    if |ms| == 0 || !Accepts(ms[0], decode) then 0 else 1 + FirstRejected(ms[1..], decode)
  }

  /** The records of a run of accepted matches, one per match, in order. */
  function Records(ms: seq<SinkMatch>, decode: Utf8Decoder): (lines: seq<string>)
    requires forall i :: 0 <= i < |ms| ==> Accepts(ms[i], decode)
    ensures |lines| == |ms|
    ensures forall i :: 0 <= i < |ms| ==> lines[i] == Record(ms[i], decode)
  {
    seq(|ms|, i requires 0 <= i < |ms| => Record(ms[i], decode))
  }

  /** The records one scan contributes to a sink: those before the first rejected match. */
  function Accepted(scan: Scan, decode: Utf8Decoder): seq<string> {
    Records(scan.matches[..FirstRejected(scan.matches, decode)], decode)
  }

  /**
   * The searcher feeding matches to the sink: each `matched` call in order,
   * stopping at the first error. Everything recorded before the error stays.
   */
  function Deliver(sink: ResultsSink, ms: seq<SinkMatch>, decode: Utf8Decoder): (st: Step)
    ensures st.sink.path == sink.path
    ensures st.sink.matches == sink.matches + Records(ms[..FirstRejected(ms, decode)], decode)
    ensures FirstRejected(ms, decode) == |ms| ==> st.result == Success(true)
    ensures FirstRejected(ms, decode) < |ms| ==>
              st.result == Failure(Rejection(ms[FirstRejected(ms, decode)], decode))
    decreases |ms|
  {
    if |ms| == 0 then Step(sink, Success(true))
    else
      var st := Matched(sink, ms[0], decode);
      if st.result.Failure? then
        assert ms[..0] == [];
        st
      else
        RecordsCons(ms, FirstRejected(ms, decode), decode);
        Deliver(st.sink, ms[1..], decode)
  }

  /** The records of an accepted run are its first match's record followed by the rest's. */
  lemma RecordsCons(ms: seq<SinkMatch>, k: nat, decode: Utf8Decoder)
    requires 0 < k <= |ms|
    requires forall i :: 0 <= i < k ==> Accepts(ms[i], decode)
    ensures Records(ms[..k], decode) == [Record(ms[0], decode)] + Records(ms[1..][..k - 1], decode)
  {
    assert ms[..k] == [ms[0]] + ms[1..][..k - 1];
  }

  /**
   * Searcher::search_path with this sink. A sink error ends the search and is
   * returned as is; an I/O error is turned into FinderError::Unknown by the
   * default SinkError::error_io, which this sink does not override.
   */
  function SearchPath(sink: ResultsSink, scan: Scan, decode: Utf8Decoder): (out: Searched)
    ensures out.sink.path == sink.path
    ensures out.sink.matches == sink.matches + Accepted(scan, decode)
    ensures out.result.Success? <==>
              FirstRejected(scan.matches, decode) == |scan.matches| && scan.failure == None
  {
    var st := Deliver(sink, scan.matches, decode);
    if st.result.Failure? then Searched(st.sink, Failure(st.result.error))
    else if scan.failure.Some? then Searched(st.sink, Failure(Unknown(scan.failure.value)))
    else Searched(st.sink, Success(()))
  }
}
