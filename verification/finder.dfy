/**
 * The finder's drivers: the walker configuration, the listing fold
 * (find_files_without_match) and the search fold (FinderInner::search).
 */
module Finder {
  import opened Wrappers
  import opened Errors
  import opened Entries
  import opened Sink
  import opened Needles
  import opened Results

  /**
   * What build_walker hands to the ignore crate's WalkBuilder: the first
   * root, the remaining roots in order, standard ignore filters on, hidden
   * entries not excluded, and the entry filter.
   */
  datatype WalkerConfig = WalkerConfig(
    base: string,
    extraRoots: seq<string>,
    standardFilters: bool,
    hidden: bool,
    entryFilter: Entry -> bool)

  /** The traversal the ignore crate performs for a configuration. */
  type Walker = WalkerConfig -> seq<WalkItem>

  /** The foreign parts of a search: UTF-8 decoding, and what the searcher finds for a matcher in a file. */
  datatype Env<-M> = Env(decode: Utf8Decoder, scan: (M, Entry) -> Scan)

  /** A run that either returns or panics (the unwrap on a walker error). */
  datatype Run<T> = Returned(value: T) | Panicked(cause: WalkError)

  /** FinderInner::build_walker; indexing dirs[0] demands at least one root. */
  function BuildWalker(dirs: seq<string>): (w: WalkerConfig)
    requires |dirs| > 0
    ensures [w.base] + w.extraRoots == dirs
    ensures w.standardFilters && !w.hidden
    ensures forall e :: w.entryFilter(e) == SkipGit(e)
  {
    WalkerConfig(dirs[0], dirs[1..], true, false, SkipGit)
  }

  // ---------------------------------------------------------------------------
  // Listing

  /** The index of the first walker error, or |walk| when there is none. */
  function FirstWalkError(walk: seq<WalkItem>): (k: nat)
    ensures k <= |walk|
    ensures forall i :: 0 <= i < k ==> walk[i].Success?
    ensures k < |walk| ==> walk[k].Failure?
    decreases |walk|
  {
    if |walk| == 0 || walk[0].Failure? then 0 else 1 + FirstWalkError(walk[1..])
  }

  /** Whether an item is listed: a non-directory entry whose path is valid UTF-8. */
  predicate Listed(item: WalkItem) {
    item.Success? && !IsDir(item.value) && item.value.utf8Path.Some?
  }

  /** The UTF-8 paths of the listed items, in walker order. */
  function ListedPaths(walk: seq<WalkItem>): (paths: seq<string>)
    ensures |paths| <= |walk|
    ensures forall p :: p in paths <==> exists i :: 0 <= i < |walk| && Listed(walk[i]) && walk[i].value.utf8Path == Some(p)
    decreases |walk|
  {
    if |walk| == 0 then []
    else
      var rest := ListedPaths(walk[1..]);
      assert forall i :: 0 < i < |walk| ==> walk[i] == walk[1..][i - 1];
      if Listed(walk[0]) then [walk[0].value.utf8Path.value] + rest else rest
  }

  /**
   * find_files_without_match: walks the items in order, panicking at the
   * first walker error; skips directories and entries of unknown type;
   * appends the path of every other entry whose path is valid UTF-8, and
   * silently skips the rest.
   */
  function FindFilesWithoutMatch(walk: seq<WalkItem>, results: Results): (run: Run<Results>)
    ensures FirstWalkError(walk) < |walk| ==> run == Panicked(walk[FirstWalkError(walk)].error)
    ensures FirstWalkError(walk) == |walk| ==>
              run == Returned(Results(results.filesMatched + ListedPaths(walk), results.linesMatched))
    decreases |walk|
  {
    if |walk| == 0 then
      assert results.filesMatched + ListedPaths(walk) == results.filesMatched;
      Returned(results)
    else
      match walk[0]
      case Failure(err) => Panicked(err)
      case Success(entry) =>
        if IsDir(entry) then FindFilesWithoutMatch(walk[1..], results)
        else
          match entry.utf8Path
          case Some(s) =>
            assert results.filesMatched + ListedPaths(walk)
                == (results.filesMatched + [s]) + ListedPaths(walk[1..]);
            FindFilesWithoutMatch(walk[1..], AddFile(results, s))
          case None => FindFilesWithoutMatch(walk[1..], results)
  }

  /** FinderInner::find_files: a fresh Results filled by the listing fold. */
  function FindFiles(dirs: seq<string>, walker: Walker): (run: Run<Results>)
    requires |dirs| > 0
    ensures run.Returned? <==> forall i :: 0 <= i < |walker(BuildWalker(dirs))| ==> walker(BuildWalker(dirs))[i].Success?
    ensures run.Returned? ==>
              && run.value.filesMatched == ListedPaths(walker(BuildWalker(dirs)))
              && run.value.linesMatched == map[]
  {
    FindFilesWithoutMatch(walker(BuildWalker(dirs)), Empty)
  }

  /** Listing a concatenated walk lists each part in turn: order kept, nothing merged. */
  lemma {:induction false} ListedPathsConcat(a: seq<WalkItem>, b: seq<WalkItem>)
    ensures ListedPaths(a + b) == ListedPaths(a) + ListedPaths(b)
    decreases |a|
  {
    if |a| > 0 {
      assert (a + b)[0] == a[0];
      assert (a + b)[1..] == a[1..] + b;
      ListedPathsConcat(a[1..], b);
    } else {
      assert a + b == b;
    }
  }

  /** A listed path always belongs to an entry of known type that is not a directory. */
  lemma ListedPathsAreFiles(walk: seq<WalkItem>, p: string)
    requires p in ListedPaths(walk)
    ensures exists i :: 0 <= i < |walk| && walk[i].Success?
              && walk[i].value.fileType.Some? && walk[i].value.fileType.value != Directory
              && walk[i].value.utf8Path == Some(p)
  {
  }

  // ---------------------------------------------------------------------------
  // Searching

  /** The records one needle contributes for an entry. */
  function Hits<M>(needle: Needle<M>, e: Entry, env: Env<M>): seq<string> {
    Accepted(env.scan(needle.matcher, e), env.decode)
  }

  /** The records of every needle for an entry, needle after needle in registration order. */
  function AllHits<M>(needles: seq<Needle<M>>, e: Entry, env: Env<M>): seq<string>
    decreases |needles|
  {
    if |needles| == 0 then [] else Hits(needles[0], e, env) + AllHits(needles[1..], e, env)
  }

  /**
   * The inner loop of search: one search_path per needle into the same sink.
   * A failing search is only reported: what it recorded before failing stays,
   * and the remaining needles still run.
   */
  function SearchNeedles<M>(sink: ResultsSink, needles: seq<Needle<M>>, e: Entry, env: Env<M>): (s: ResultsSink)
    ensures s.path == sink.path
    ensures s.matches == sink.matches + AllHits(needles, e, env)
    decreases |needles|
  {
    if |needles| == 0 then sink
    else
      var first := Hits(needles[0], e, env);
      var later := AllHits(needles[1..], e, env);
      assert (sink.matches + first) + later == sink.matches + (first + later);
      var searched := SearchPath(sink, env.scan(needles[0].matcher, e), env.decode);
      SearchNeedles(searched.sink, needles[1..], e, env)
  }

  /** Registering more needles appends their records after the earlier needles' records. */
  lemma {:induction false} AllHitsConcat<M>(a: seq<Needle<M>>, b: seq<Needle<M>>, e: Entry, env: Env<M>)
    ensures AllHits(a + b, e, env) == AllHits(a, e, env) + AllHits(b, e, env)
    decreases |a|
  {
    if |a| > 0 {
      assert (a + b)[0] == a[0];
      assert (a + b)[1..] == a[1..] + b;
      AllHitsConcat(a[1..], b, e, env);
    } else {
      assert a + b == b;
    }
  }

  /** One iteration of search's outer loop. */
  function SearchEntry<M>(results: Results, item: WalkItem, needles: seq<Needle<M>>, env: Env<M>): Results {
    match item
    case Failure(_) => results
    case Success(e) =>
      if IsDir(e) then results else Update(results, SearchNeedles(NewSink(e), needles, e, env))
  }

  /** The outer loop of search, over the walker's items in order. */
  function SearchWalk<M>(results: Results, walk: seq<WalkItem>, needles: seq<Needle<M>>, env: Env<M>): Results
    decreases |walk|
  {
    if |walk| == 0 then results
    else SearchWalk(SearchEntry(results, walk[0], needles, env), walk[1..], needles, env)
  }

  /** The sink each searched entry ends with: walker errors and directories get none. */
  function FileSinks<M>(walk: seq<WalkItem>, needles: seq<Needle<M>>, env: Env<M>): (sinks: seq<ResultsSink>)
    ensures |sinks| <= |walk|
    ensures forall j :: 0 <= j < |sinks| ==>
              (exists i :: 0 <= i < |walk| && walk[i].Success? && !IsDir(walk[i].value)
                 && sinks[j] == ResultsSink(walk[i].value.lossyPath, AllHits(needles, walk[i].value, env)))
    decreases |walk|
  {
    if |walk| == 0 then []
    else
      var rest := FileSinks(walk[1..], needles, env);
      assert forall i :: 0 < i < |walk| ==> walk[i] == walk[1..][i - 1];
      match walk[0]
      case Failure(_) => rest
      case Success(e) =>
        if IsDir(e) then rest
        else
          var sinks := [ResultsSink(e.lossyPath, AllHits(needles, e, env))] + rest;
          assert forall j :: 0 < j < |sinks| ==> sinks[j] == rest[j - 1];
          sinks
  }

  /** The search fold is Update folded over the entries' final sinks. */
  lemma {:induction false} SearchWalkIsUpdateAll<M>(results: Results, walk: seq<WalkItem>, needles: seq<Needle<M>>, env: Env<M>)
    ensures SearchWalk(results, walk, needles, env) == UpdateAll(results, FileSinks(walk, needles, env))
    decreases |walk|
  {
    if |walk| > 0 {
      var next := SearchEntry(results, walk[0], needles, env);
      SearchWalkIsUpdateAll(next, walk[1..], needles, env);
      var rest := FileSinks(walk[1..], needles, env);
      match walk[0]
      case Failure(_) =>
        assert FileSinks(walk, needles, env) == rest;
      case Success(entry) =>
        if IsDir(entry) {
          assert FileSinks(walk, needles, env) == rest;
        } else {
          var sink := ResultsSink(entry.lossyPath, AllHits(needles, entry, env));
          var searched := SearchNeedles(NewSink(entry), needles, entry, env);
          assert searched.matches == [] + AllHits(needles, entry, env);
          assert searched == sink;
          assert FileSinks(walk, needles, env) == [sink] + rest;
          assert ([sink] + rest)[1..] == rest;
        }
    }
  }

  /** Searching a concatenated walk searches each part in turn. */
  lemma {:induction false} FileSinksConcat<M>(a: seq<WalkItem>, b: seq<WalkItem>, needles: seq<Needle<M>>, env: Env<M>)
    ensures FileSinks(a + b, needles, env) == FileSinks(a, needles, env) + FileSinks(b, needles, env)
    decreases |a|
  {
    if |a| > 0 {
      assert (a + b)[0] == a[0];
      assert (a + b)[1..] == a[1..] + b;
      FileSinksConcat(a[1..], b, needles, env);
    } else {
      assert a + b == b;
    }
  }

  /** A walker error yields no sink. */
  lemma FileSinksSkipWalkError<M>(a: seq<WalkItem>, err: WalkError, b: seq<WalkItem>, needles: seq<Needle<M>>, env: Env<M>)
    ensures FileSinks(a + [Failure(err)] + b, needles, env) == FileSinks(a + b, needles, env)
  {
    var bad: seq<WalkItem> := [Failure(err)];
    assert FileSinks(bad, needles, env) == [];
    FileSinksConcat(a, bad, needles, env);
    assert FileSinks(a + bad, needles, env) == FileSinks(a, needles, env);
    FileSinksConcat(a + bad, b, needles, env);
    FileSinksConcat(a, b, needles, env);
  }

  /** A walker error in the middle of a walk changes nothing about the search's outcome. */
  lemma SearchSkipsWalkErrors<M>(results: Results, a: seq<WalkItem>, err: WalkError, b: seq<WalkItem>, needles: seq<Needle<M>>, env: Env<M>)
    ensures SearchWalk(results, a + [Failure(err)] + b, needles, env) == SearchWalk(results, a + b, needles, env)
  {
    FileSinksSkipWalkError(a, err, b, needles, env);
    SearchWalkIsUpdateAll(results, a + [Failure(err)] + b, needles, env);
    SearchWalkIsUpdateAll(results, a + b, needles, env);
  }

  /** With no needles registered, every sink stays empty. */
  lemma FileSinksWithoutNeedles<M>(walk: seq<WalkItem>, env: Env<M>)
    ensures forall j :: 0 <= j < |FileSinks(walk, [], env)| ==> |FileSinks(walk, [], env)[j].matches| == 0
  {
  }

  /**
   * FinderInner::search on a fresh Results. It always returns Ok: walker
   * errors are skipped and search errors only reported. Every mapped path has
   * records and is listed; the list holds the searched entries with records,
   * in walker order; and with no needles nothing is found.
   */
  function Search<M>(dirs: seq<string>, walker: Walker, needles: seq<Needle<M>>, env: Env<M>): (r: Result<Results, FinderError>)
    requires |dirs| > 0
    ensures r.Success?
    ensures Consistent(r.value)
    ensures r.value.filesMatched == NonEmptyPaths(FileSinks(walker(BuildWalker(dirs)), needles, env))
    ensures |needles| == 0 ==> r.value == Empty
  {
    var walk := walker(BuildWalker(dirs));
    SearchWalkIsUpdateAll(Empty, walk, needles, env);
    FileSinksWithoutNeedles(walk, env);
    Success(SearchWalk(Empty, walk, needles, env))
  }

  /**
   * What search maps a path to: the records, from every needle in order, of
   * the last searched entry with that path and at least one record.
   */
  lemma SearchMapsLastEntry<M>(dirs: seq<string>, walker: Walker, needles: seq<Needle<M>>, env: Env<M>, p: string)
    requires |dirs| > 0
    ensures var sinks := FileSinks(walker(BuildWalker(dirs)), needles, env);
            var lines := Search(dirs, walker, needles, env).value.linesMatched;
            && (p in lines <==> LastWith(sinks, p).Some?)
            && (p in lines ==> lines[p] == sinks[LastWith(sinks, p).value].matches)
  {
    var walk := walker(BuildWalker(dirs));
    SearchWalkIsUpdateAll(Empty, walk, needles, env);
    UpdateAllLastWriteWins(Empty, FileSinks(walk, needles, env), p);
  }

  /** A path search lists belongs to a searched entry of known type, not a directory, for which some needle recorded a match. */
  lemma SearchListsOnlyMatchedFiles<M>(dirs: seq<string>, walker: Walker, needles: seq<Needle<M>>, env: Env<M>, p: string)
    requires |dirs| > 0
    requires p in Search(dirs, walker, needles, env).value.filesMatched
    ensures var walk := walker(BuildWalker(dirs));
            exists i :: 0 <= i < |walk| && walk[i].Success?
              && walk[i].value.fileType.Some? && walk[i].value.fileType.value != Directory
              && walk[i].value.lossyPath == p
              && |AllHits(needles, walk[i].value, env)| > 0
  {
  }
}
