/** Concrete searches worked through the model. */
module Scenarios {
  import opened Wrappers
  import opened Errors
  import opened Entries
  import opened Sink
  import opened Needles
  import opened Finder
  import opened Numerals

  /** A decoder that accepts ASCII only, enough for these scenarios. */
  function AsciiDecode(bs: seq<byte>): Result<string, Utf8Error> {
    if forall i :: 0 <= i < |bs| ==> bs[i] < 128 then
      Success(seq(|bs|, i requires 0 <= i < |bs| => (bs[i] as int) as char))
    else
      Failure(Utf8Error(0))
  }

  lemma DecodesAs(bs: seq<byte>, s: string)
    requires |bs| == |s|
    requires forall i :: 0 <= i < |s| ==> bs[i] < 128 && bs[i] as int == s[i] as int
    ensures AsciiDecode(bs) == Success(s)
  {
    var text := seq(|bs|, i requires 0 <= i < |bs| => (bs[i] as int) as char);
    forall i | 0 <= i < |s|
      ensures text[i] == s[i]
    {
      assert (s[i] as int) as char == s[i];
    }
    assert text == s;
  }

  const FooLine: seq<byte> := [102, 111, 111, 10]
  const FooLast: seq<byte> := [102, 111, 111]

  const FooFile: Entry := Entry("notes.txt", Some("notes.txt"), "notes.txt", Some(RegularFile))

  /** The searcher's view of the file: lines 1 and 3 match, nothing fails. */
  const FooScan: Scan := Scan([SinkMatch(FooLine, Some(1)), SinkMatch(FooLast, Some(3))], None)

  lemma FooScanRecords()
    ensures Accepts(FooScan.matches[0], AsciiDecode) && Record(FooScan.matches[0], AsciiDecode) == "1 :: foo\n"
    ensures Accepts(FooScan.matches[1], AsciiDecode) && Record(FooScan.matches[1], AsciiDecode) == "3 :: foo"
  {
    DecodesAs(FooLine, "foo\n");
    DecodesAs(FooLast, "foo");
    assert ToDecimal(1) == "1" && ToDecimal(3) == "3";
  }

  lemma FooScanAccepted()
    ensures Accepted(FooScan, AsciiDecode) == ["1 :: foo\n", "3 :: foo"]
  {
    FooScanRecords();
    assert FirstRejected(FooScan.matches, AsciiDecode) == 2;
    assert FooScan.matches[..2] == FooScan.matches;
    var hits := Accepted(FooScan, AsciiDecode);
    assert |hits| == 2 && hits[0] == "1 :: foo\n" && hits[1] == "3 :: foo";
  }

  /**
   * A file with lines "foo", "bar", "foo" and one needle "foo": the searcher
   * delivers lines 1 and 3 (matched bytes include the line terminator when
   * there is one), and the sink records both, in order.
   */
  lemma OneNeedleTwoLines()
    ensures AllHits([Needle("foo", 0)], FooFile, Env(AsciiDecode, (m: int, e: Entry) => FooScan))
            == ["1 :: foo\n", "3 :: foo"]
  {
    var env := Env(AsciiDecode, (m: int, e: Entry) => FooScan);
    FooScanAccepted();
    assert Hits(Needle("foo", 0), FooFile, env) == Accepted(FooScan, AsciiDecode);
    assert AllHits([Needle("foo", 0)], FooFile, env) == Hits(Needle("foo", 0), FooFile, env) + [];
  }
}
