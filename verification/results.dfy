/**
 * Results: the run-wide aggregate, a list of matched paths and a map from
 * path to that file's match records.
 */
module Results {
  import opened Wrappers
  import opened Sink

  datatype Results = Results(filesMatched: seq<string>, linesMatched: map<string, seq<string>>)

  /** Results::default(). */
  const Empty: Results := Results([], map[])

  /** Every mapped path has at least one record and is also listed. */
  predicate Consistent(r: Results) {
    forall p :: p in r.linesMatched ==> |r.linesMatched[p]| > 0 && p in r.filesMatched
  }

  /** Results::add_file: the path is appended; the map is untouched. */
  function AddFile(r: Results, path: string): (r': Results)
    ensures r'.filesMatched == r.filesMatched + [path]
    ensures r'.linesMatched == r.linesMatched
    ensures Consistent(r) ==> Consistent(r')
  {
    r.(filesMatched := r.filesMatched + [path])
  }

  /**
   * Results::update. A sink without matches changes nothing. Otherwise its
   * path is appended to the list (even if already there) and its records
   * replace whatever the map held for that path; no other key changes.
   */
  function Update(r: Results, sink: ResultsSink): (r': Results)
    ensures |sink.matches| == 0 ==> r' == r
    ensures |sink.matches| > 0 ==>
              && r'.filesMatched == r.filesMatched + [sink.path]
              && r'.linesMatched.Keys == r.linesMatched.Keys + {sink.path}
              && r'.linesMatched[sink.path] == sink.matches
    ensures forall p :: p in r.linesMatched && p != sink.path ==> r'.linesMatched[p] == r.linesMatched[p]
    ensures Consistent(r) ==> Consistent(r')
  {
    if |sink.matches| > 0 then
      Results(r.filesMatched + [sink.path], r.linesMatched[sink.path := sink.matches])
    else
      r
  }

  /** The paths of the sinks that hold matches, in order. */
  function NonEmptyPaths(sinks: seq<ResultsSink>): (paths: seq<string>)
    ensures |paths| <= |sinks|
    ensures forall p :: p in paths <==> exists i :: 0 <= i < |sinks| && |sinks[i].matches| > 0 && sinks[i].path == p
    decreases |sinks|
  {
    if |sinks| == 0 then []
    else
      var rest := NonEmptyPaths(sinks[1..]);
      assert forall i :: 0 < i < |sinks| ==> sinks[i] == sinks[1..][i - 1];
      if |sinks[0].matches| > 0 then [sinks[0].path] + rest else rest
  }

  /** Folding Update over a sequence of sinks, first to last. */
  function UpdateAll(r: Results, sinks: seq<ResultsSink>): (r': Results)
    ensures r'.filesMatched == r.filesMatched + NonEmptyPaths(sinks)
    ensures (forall i :: 0 <= i < |sinks| ==> |sinks[i].matches| == 0) ==> r' == r
    ensures Consistent(r) ==> Consistent(r')
    decreases |sinks|
  {
    if |sinks| == 0 then r
    else UpdateAll(Update(r, sinks[0]), sinks[1..])
  }

  /** The position of the last sink with matches for path p, if there is one. */
  function LastWith(sinks: seq<ResultsSink>, p: string): (last: Option<nat>)
    ensures last.Some? ==>
              && last.value < |sinks|
              && sinks[last.value].path == p && |sinks[last.value].matches| > 0
              && forall j :: last.value < j < |sinks| ==> sinks[j].path != p || |sinks[j].matches| == 0
    ensures last.None? ==> forall j :: 0 <= j < |sinks| ==> sinks[j].path != p || |sinks[j].matches| == 0
    decreases |sinks|
  {
    if |sinks| == 0 then None
    else
      var n := |sinks| - 1;
      if sinks[n].path == p && |sinks[n].matches| > 0 then Some(n)
      else LastWith(sinks[..n], p)
  }

  lemma {:induction false} UpdateAllSnoc(r: Results, sinks: seq<ResultsSink>, sink: ResultsSink)
    ensures UpdateAll(r, sinks + [sink]) == Update(UpdateAll(r, sinks), sink)
    decreases |sinks|
  {
    if |sinks| > 0 {
      assert (sinks + [sink])[1..] == sinks[1..] + [sink];
      UpdateAllSnoc(Update(r, sinks[0]), sinks[1..], sink);
    }
  }

  /**
   * What the map holds for a path after a fold: the records of the LAST sink
   * with matches for that path (an insert overwrites, paths are not merged),
   * or what it held before when no sink had matches for it.
   */
  lemma {:induction false} UpdateAllLastWriteWins(r: Results, sinks: seq<ResultsSink>, p: string)
    ensures LastWith(sinks, p).Some? ==>
              && p in UpdateAll(r, sinks).linesMatched
              && UpdateAll(r, sinks).linesMatched[p] == sinks[LastWith(sinks, p).value].matches
    ensures LastWith(sinks, p).None? ==>
              && (p in UpdateAll(r, sinks).linesMatched <==> p in r.linesMatched)
              && (p in r.linesMatched ==> UpdateAll(r, sinks).linesMatched[p] == r.linesMatched[p])
    decreases |sinks|
  {
    if |sinks| > 0 {
      var n := |sinks| - 1;
      assert sinks == sinks[..n] + [sinks[n]];
      UpdateAllSnoc(r, sinks[..n], sinks[n]);
      UpdateAllLastWriteWins(r, sinks[..n], p);
    }
  }
}
