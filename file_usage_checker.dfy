/**
 * The depth-first traversal of checker/file-usage-checker.js.
 *
 * Parsing a file, walking its syntax tree and discovering the files it
 * imports are the work of a foreign parser; here they are an `Oracle`: a
 * file either parses (and then imports a given list of files) or fails. The
 * oracle's files are drawn from a finite universe closed under imports, so
 * the number of unvisited files of that universe decreases with every call
 * and the recursion terminates, cycles included.
 *
 * `Visit` and `VisitImports` state the traversal as functions of the run's
 * state, with a ghost trace of the files entered; the methods on
 * `FilesMetadata` are proved to compute exactly those functions.
 */
module FileUsageChecker {
  import opened Helper
  import opened Metadata

  /** What the parser and the path helpers say about a file. */
  datatype Oracle = Oracle(
    parses: string -> bool,
    imports: string -> seq<string>,
    isFilePath: string -> bool)

  /** A finite set of files that holds every import of its members. */
  ghost predicate Closed(oracle: Oracle, universe: set<string>) {
    forall f, k :: f in universe && 0 <= k < |oracle.imports(f)| ==> oracle.imports(f)[k] in universe
  }

  /** The part of `filesMetadata` the traversal reads and writes, and the files entered so far. */
  datatype TraversalState = TraversalState(
    visitedFilesMapping: map<string, bool>,
    filesMapping: map<string, FileRecord>,
    unparsableVistedFiles: int,
    traversed: seq<string>)

  ghost function StateOf(files: FilesMetadata): TraversalState
    reads files
  {
    TraversalState(files.visitedFilesMapping, files.filesMapping, files.unparsableVistedFiles, files.traversed)
  }

  /** The files of the universe still to be visited. */
  ghost function Unvisited(universe: set<string>, visitedFilesMapping: map<string, bool>): set<string> {
    set f | f in universe && IsFileNotVisited(f, visitedFilesMapping)
  }

  /** How many of `files` fail to parse. */
  function Failures(parses: string -> bool, files: seq<string>): nat {
    if files == [] then 0
    else Failures(parses, files[..|files| - 1]) + (if parses(files[|files| - 1]) then 0 else 1)
  }

  /** Whether `files` names no file twice. */
  predicate NoDuplicates(files: seq<string>) {
    forall i, j :: 0 <= i < j < |files| ==> files[i] != files[j]
  }

  /**
   * The bookkeeping the traversal keeps: no file entered twice, every file
   * entered is marked visited, and the failure counter is the number of
   * entered files that failed to parse, on top of `base`.
   */
  ghost predicate Bookkept(oracle: Oracle, base: int, st: TraversalState) {
    && NoDuplicates(st.traversed)
    && (forall k :: 0 <= k < |st.traversed| ==> !IsFileNotVisited(st.traversed[k], st.visitedFilesMapping))
    && st.unparsableVistedFiles == base + Failures(oracle.parses, st.traversed)
  }

  /** What one call may do to the state: only add visited marks, records and trace entries. */
  ghost predicate Grows(st: TraversalState, r: TraversalState) {
    && (forall f :: f in st.visitedFilesMapping ==> f in r.visitedFilesMapping)
    && (forall f :: !IsFileNotVisited(f, st.visitedFilesMapping) ==> !IsFileNotVisited(f, r.visitedFilesMapping))
    && (forall f :: f in st.filesMapping ==> f in r.filesMapping && r.filesMapping[f] == st.filesMapping[f])
    && |st.traversed| <= |r.traversed| && r.traversed[..|st.traversed|] == st.traversed
    && st.unparsableVistedFiles <= r.unparsableVistedFiles
  }

  /** Every import of every file entered from position `from` on has a record, if that file parsed. */
  ghost predicate ImportsRecorded(oracle: Oracle, r: TraversalState, from: nat) {
    forall k, i :: from <= k < |r.traversed| && oracle.parses(r.traversed[k]) && 0 <= i < |oracle.imports(r.traversed[k])|
                   ==> oracle.imports(r.traversed[k])[i] in r.filesMapping
  }

  /** Whether the traversal recurses into an import: unvisited, a script, a file and not excluded. */
  predicate Followed(oracle: Oracle, excludedFilesRegex: string -> bool, file: string,
                     visitedFilesMapping: map<string, bool>) {
    && IsFileNotVisited(file, visitedFilesMapping)
    && IsFileExtensionValid(file)
    && IsFileNotExcluded(excludedFilesRegex, oracle.isFilePath, file)
  }

  /** The files mapping with a default record for `file` when it has none. */
  function WithRecord(filesMapping: map<string, FileRecord>, file: string): (r: map<string, FileRecord>)
    ensures file in r && r.Keys == filesMapping.Keys + {file}
    ensures forall f :: f in filesMapping ==> r[f] == filesMapping[f]
  {
    if IsFileMappingNotPresent(file, filesMapping) then filesMapping[file := DefaultFileObject(file)]
    else filesMapping
  }

  lemma SubsetCardinality(a: set<string>, b: set<string>)
    requires a <= b
    ensures |a| <= |b| && (a != b ==> |a| < |b|)
  {
    assert b == a + (b - a);
    if a != b {
      var x :| x in b - a;
    }
  }

  /** Marking more files visited leaves fewer unvisited. */
  lemma UnvisitedShrinks(universe: set<string>, before: map<string, bool>, after: map<string, bool>)
    requires forall f :: !IsFileNotVisited(f, before) ==> !IsFileNotVisited(f, after)
    ensures Unvisited(universe, after) <= Unvisited(universe, before)
    ensures |Unvisited(universe, after)| <= |Unvisited(universe, before)|
  {
    SubsetCardinality(Unvisited(universe, after), Unvisited(universe, before));
  }

  /** Marking one unvisited file of the universe visited leaves strictly fewer unvisited. */
  lemma MarkingShrinks(universe: set<string>, visitedFilesMapping: map<string, bool>, file: string)
    requires file in universe && IsFileNotVisited(file, visitedFilesMapping)
    ensures |Unvisited(universe, visitedFilesMapping[file := true])| < |Unvisited(universe, visitedFilesMapping)|
  {
    var after := Unvisited(universe, visitedFilesMapping[file := true]);
    var before := Unvisited(universe, visitedFilesMapping);
    assert file in before && file !in after;
    SubsetCardinality(after, before);
  }

  /** Visited marks are never taken back. */
  ghost predicate KeepsMarks(before: map<string, bool>, after: map<string, bool>) {
    forall f :: !IsFileNotVisited(f, before) ==> !IsFileNotVisited(f, after)
  }

  /**
   * `traverseFileForCheckingUsage`: mark the file visited, then parse it; a
   * failure counts one unparsable file and expands nothing. Otherwise each
   * import gets a default record if it has none, and the followed ones are
   * traversed in turn.
   */
  function Visit(oracle: Oracle, excludedFilesRegex: string -> bool, ghost universe: set<string>,
                 fileLocation: string, st: TraversalState): (r: TraversalState)
    requires Closed(oracle, universe) && fileLocation in universe
    requires IsFileNotVisited(fileLocation, st.visitedFilesMapping)
    ensures KeepsMarks(st.visitedFilesMapping, r.visitedFilesMapping)
    ensures !IsFileNotVisited(fileLocation, r.visitedFilesMapping)
    decreases |Unvisited(universe, st.visitedFilesMapping)|, 0
  {
    var marked := st.(visitedFilesMapping := st.visitedFilesMapping[fileLocation := true],
                      traversed := st.traversed + [fileLocation]);
    MarkingShrinks(universe, st.visitedFilesMapping, fileLocation);
    if !oracle.parses(fileLocation) then
      marked.(unparsableVistedFiles := st.unparsableVistedFiles + 1)
    else
      VisitImports(oracle, excludedFilesRegex, universe, fileLocation, 0, marked)
  }

  /** The `for ... in` loop over the imports of `fileLocation`, from the `i`-th on. */
  function VisitImports(oracle: Oracle, excludedFilesRegex: string -> bool, ghost universe: set<string>,
                        fileLocation: string, i: nat, st: TraversalState): (r: TraversalState)
    requires Closed(oracle, universe) && fileLocation in universe
    requires i <= |oracle.imports(fileLocation)|
    ensures KeepsMarks(st.visitedFilesMapping, r.visitedFilesMapping)
    decreases |Unvisited(universe, st.visitedFilesMapping)|, 1, |oracle.imports(fileLocation)| - i
  {
    var imports := oracle.imports(fileLocation);
    if i == |imports| then st
    else
      var file := imports[i];
      var recorded := st.(filesMapping := WithRecord(st.filesMapping, file));
      if Followed(oracle, excludedFilesRegex, file, st.visitedFilesMapping) then
        var visited := Visit(oracle, excludedFilesRegex, universe, file, recorded);
        UnvisitedShrinks(universe, recorded.visitedFilesMapping, visited.visitedFilesMapping);
        VisitImports(oracle, excludedFilesRegex, universe, fileLocation, i + 1, visited)
      else
        VisitImports(oracle, excludedFilesRegex, universe, fileLocation, i + 1, recorded)
  }

  lemma GrowsTransitive(a: TraversalState, b: TraversalState, c: TraversalState)
    requires Grows(a, b) && Grows(b, c)
    ensures Grows(a, c)
  {
    assert c.traversed[..|a.traversed|] == c.traversed[..|b.traversed|][..|a.traversed|];
  }

  /**
   * A traversal only adds: visited marks stay, records are never removed or
   * overwritten, the trace is extended, the failure counter never drops.
   */
  lemma {:induction false} VisitGrows(oracle: Oracle, excludedFilesRegex: string -> bool, universe: set<string>,
                                      fileLocation: string, st: TraversalState)
    requires Closed(oracle, universe) && fileLocation in universe
    requires IsFileNotVisited(fileLocation, st.visitedFilesMapping)
    ensures Grows(st, Visit(oracle, excludedFilesRegex, universe, fileLocation, st))
    decreases |Unvisited(universe, st.visitedFilesMapping)|, 0
  {
    var marked := st.(visitedFilesMapping := st.visitedFilesMapping[fileLocation := true],
                      traversed := st.traversed + [fileLocation]);
    MarkingShrinks(universe, st.visitedFilesMapping, fileLocation);
    assert marked.traversed[..|st.traversed|] == st.traversed;
    if oracle.parses(fileLocation) {
      VisitImportsGrows(oracle, excludedFilesRegex, universe, fileLocation, 0, marked);
      GrowsTransitive(st, marked, VisitImports(oracle, excludedFilesRegex, universe, fileLocation, 0, marked));
    }
  }

  lemma {:induction false} VisitImportsGrows(oracle: Oracle, excludedFilesRegex: string -> bool,
                                             universe: set<string>, fileLocation: string, i: nat,
                                             st: TraversalState)
    requires Closed(oracle, universe) && fileLocation in universe
    requires i <= |oracle.imports(fileLocation)|
    ensures Grows(st, VisitImports(oracle, excludedFilesRegex, universe, fileLocation, i, st))
    decreases |Unvisited(universe, st.visitedFilesMapping)|, 1, |oracle.imports(fileLocation)| - i
  {
    var imports := oracle.imports(fileLocation);
    if i < |imports| {
      var file := imports[i];
      var recorded := st.(filesMapping := WithRecord(st.filesMapping, file));
      assert recorded.traversed[..|st.traversed|] == st.traversed;
      if Followed(oracle, excludedFilesRegex, file, st.visitedFilesMapping) {
        VisitGrows(oracle, excludedFilesRegex, universe, file, recorded);
        var visited := Visit(oracle, excludedFilesRegex, universe, file, recorded);
        UnvisitedShrinks(universe, recorded.visitedFilesMapping, visited.visitedFilesMapping);
        VisitImportsGrows(oracle, excludedFilesRegex, universe, fileLocation, i + 1, visited);
        GrowsTransitive(st, recorded, visited);
        GrowsTransitive(st, visited, VisitImports(oracle, excludedFilesRegex, universe, fileLocation, i + 1, visited));
      } else {
        VisitImportsGrows(oracle, excludedFilesRegex, universe, fileLocation, i + 1, recorded);
        GrowsTransitive(st, recorded, VisitImports(oracle, excludedFilesRegex, universe, fileLocation, i + 1, recorded));
      }
    }
  }

  /**
   * Each file is entered at most once, is marked visited before it is
   * parsed, and the failure counter rises by exactly the number of entered
   * files that failed to parse.
   */
  lemma {:induction false} VisitBookkeeping(oracle: Oracle, excludedFilesRegex: string -> bool, universe: set<string>,
                                            fileLocation: string, st: TraversalState, base: int)
    requires Closed(oracle, universe) && fileLocation in universe
    requires IsFileNotVisited(fileLocation, st.visitedFilesMapping)
    requires Bookkept(oracle, base, st)
    ensures Bookkept(oracle, base, Visit(oracle, excludedFilesRegex, universe, fileLocation, st))
    decreases |Unvisited(universe, st.visitedFilesMapping)|, 0
  {
    var marked := st.(visitedFilesMapping := st.visitedFilesMapping[fileLocation := true],
                      traversed := st.traversed + [fileLocation]);
    MarkingShrinks(universe, st.visitedFilesMapping, fileLocation);
    EnteringKeepsBookkeeping(oracle, base, st, fileLocation);
    if oracle.parses(fileLocation) {
      VisitImportsBookkeeping(oracle, excludedFilesRegex, universe, fileLocation, 0, marked, base);
    }
  }

  /** Entering an unvisited file (marking it, tracing it, counting it if it fails) keeps the bookkeeping. */
  lemma EnteringKeepsBookkeeping(oracle: Oracle, base: int, st: TraversalState, fileLocation: string)
    requires Bookkept(oracle, base, st) && IsFileNotVisited(fileLocation, st.visitedFilesMapping)
    ensures var marked := st.(visitedFilesMapping := st.visitedFilesMapping[fileLocation := true],
                              traversed := st.traversed + [fileLocation]);
            Bookkept(oracle, base, if oracle.parses(fileLocation) then marked
                                   else marked.(unparsableVistedFiles := st.unparsableVistedFiles + 1))
  {
    var traversed := st.traversed + [fileLocation];
    assert traversed[..|st.traversed|] == st.traversed;
    assert fileLocation !in st.traversed;
  }

  lemma {:induction false} VisitImportsBookkeeping(oracle: Oracle, excludedFilesRegex: string -> bool,
                                                   universe: set<string>, fileLocation: string, i: nat,
                                                   st: TraversalState, base: int)
    requires Closed(oracle, universe) && fileLocation in universe
    requires i <= |oracle.imports(fileLocation)|
    requires Bookkept(oracle, base, st)
    ensures Bookkept(oracle, base, VisitImports(oracle, excludedFilesRegex, universe, fileLocation, i, st))
    decreases |Unvisited(universe, st.visitedFilesMapping)|, 1, |oracle.imports(fileLocation)| - i
  {
    var imports := oracle.imports(fileLocation);
    if i < |imports| {
      var file := imports[i];
      var recorded := st.(filesMapping := WithRecord(st.filesMapping, file));
      if Followed(oracle, excludedFilesRegex, file, st.visitedFilesMapping) {
        VisitBookkeeping(oracle, excludedFilesRegex, universe, file, recorded, base);
        var visited := Visit(oracle, excludedFilesRegex, universe, file, recorded);
        UnvisitedShrinks(universe, recorded.visitedFilesMapping, visited.visitedFilesMapping);
        VisitImportsBookkeeping(oracle, excludedFilesRegex, universe, fileLocation, i + 1, visited, base);
      } else {
        VisitImportsBookkeeping(oracle, excludedFilesRegex, universe, fileLocation, i + 1, recorded, base);
      }
    }
  }

  /** Every file entered from position `from` on is a followed import of the universe. */
  ghost predicate EnteredFollowed(oracle: Oracle, excludedFilesRegex: string -> bool, universe: set<string>,
                                  r: TraversalState, from: nat) {
    forall k :: from <= k < |r.traversed| ==>
      && IsFileExtensionValid(r.traversed[k])
      && IsFileNotExcluded(excludedFilesRegex, oracle.isFilePath, r.traversed[k])
      && r.traversed[k] in universe
  }

  /** The imports of `fileLocation` from the `i`-th on all have records. */
  ghost predicate ImportsFrom(oracle: Oracle, fileLocation: string, i: nat, r: TraversalState) {
    forall k :: i <= k < |oracle.imports(fileLocation)| ==> oracle.imports(fileLocation)[k] in r.filesMapping
  }

  /** Facts about two consecutive stretches of the trace combine. */
  lemma CoverageComposes(oracle: Oracle, excludedFilesRegex: string -> bool, universe: set<string>,
                         a: TraversalState, b: TraversalState, from: nat)
    requires Grows(a, b) && from <= |a.traversed|
    requires EnteredFollowed(oracle, excludedFilesRegex, universe, a, from)
    requires EnteredFollowed(oracle, excludedFilesRegex, universe, b, |a.traversed|)
    requires ImportsRecorded(oracle, a, from) && ImportsRecorded(oracle, b, |a.traversed|)
    ensures EnteredFollowed(oracle, excludedFilesRegex, universe, b, from)
    ensures ImportsRecorded(oracle, b, from)
  {
    forall k | from <= k < |a.traversed|
      ensures b.traversed[k] == a.traversed[k]
    {
      assert b.traversed[..|a.traversed|][k] == b.traversed[k];
    }
  }

  /** The trace of `b` continues the trace of `a`, and `b` keeps every record of `a`. */
  ghost predicate Extends(a: TraversalState, b: TraversalState) {
    && |a.traversed| <= |b.traversed| && b.traversed[..|a.traversed|] == a.traversed
    && a.filesMapping.Keys <= b.filesMapping.Keys
  }

  /** One import handled, then the rest of the loop: what holds of each part holds of the whole. */
  lemma StepComposes(oracle: Oracle, excludedFilesRegex: string -> bool, universe: set<string>,
                     fileLocation: string, i: nat, st: TraversalState, next: TraversalState)
    requires Closed(oracle, universe) && fileLocation in universe
    requires i < |oracle.imports(fileLocation)| && oracle.imports(fileLocation)[i] in next.filesMapping
    requires Extends(st, next)
    requires EnteredFollowed(oracle, excludedFilesRegex, universe, next, |st.traversed|)
    requires ImportsRecorded(oracle, next, |st.traversed|)
    requires var r := VisitImports(oracle, excludedFilesRegex, universe, fileLocation, i + 1, next);
             && EnteredFollowed(oracle, excludedFilesRegex, universe, r, |next.traversed|)
             && ImportsFrom(oracle, fileLocation, i + 1, r)
             && ImportsRecorded(oracle, r, |next.traversed|)
    ensures var r := VisitImports(oracle, excludedFilesRegex, universe, fileLocation, i + 1, next);
            && EnteredFollowed(oracle, excludedFilesRegex, universe, r, |st.traversed|)
            && ImportsFrom(oracle, fileLocation, i, r)
            && ImportsRecorded(oracle, r, |st.traversed|)
  {
    VisitImportsGrows(oracle, excludedFilesRegex, universe, fileLocation, i + 1, next);
    var r := VisitImports(oracle, excludedFilesRegex, universe, fileLocation, i + 1, next);
    CoverageComposes(oracle, excludedFilesRegex, universe, next, r, |st.traversed|);
  }

  /**
   * Which files a traversal enters and what it leaves recorded: every file
   * entered after the first is a followed import (a script, a file, not
   * excluded) of the universe, and every import of every entered file that
   * parsed has a record.
   */
  lemma {:induction false} VisitCoverage(oracle: Oracle, excludedFilesRegex: string -> bool, universe: set<string>,
                                         fileLocation: string, st: TraversalState)
    requires Closed(oracle, universe) && fileLocation in universe
    requires IsFileNotVisited(fileLocation, st.visitedFilesMapping)
    ensures var r := Visit(oracle, excludedFilesRegex, universe, fileLocation, st);
            && |r.traversed| > |st.traversed| && r.traversed[|st.traversed|] == fileLocation
            && EnteredFollowed(oracle, excludedFilesRegex, universe, r, |st.traversed| + 1)
            && EnteredImported(oracle, r, |st.traversed| + 1)
            && ImportsRecorded(oracle, r, |st.traversed|)
    decreases |Unvisited(universe, st.visitedFilesMapping)|, 0
  {
    var marked := st.(visitedFilesMapping := st.visitedFilesMapping[fileLocation := true],
                      traversed := st.traversed + [fileLocation]);
    MarkingShrinks(universe, st.visitedFilesMapping, fileLocation);
    VisitEntersImports(oracle, excludedFilesRegex, universe, fileLocation, st);
    if oracle.parses(fileLocation) {
      VisitImportsCoverage(oracle, excludedFilesRegex, universe, fileLocation, 0, marked);
      VisitImportsGrows(oracle, excludedFilesRegex, universe, fileLocation, 0, marked);
      var r := VisitImports(oracle, excludedFilesRegex, universe, fileLocation, 0, marked);
      assert r.traversed[..|marked.traversed|][|st.traversed|] == r.traversed[|st.traversed|];
      assert r.traversed[|st.traversed|] == fileLocation;
      assert ImportsRecorded(oracle, r, |st.traversed|) by {
        forall k, i | |st.traversed| <= k < |r.traversed| && oracle.parses(r.traversed[k])
                      && 0 <= i < |oracle.imports(r.traversed[k])|
          ensures oracle.imports(r.traversed[k])[i] in r.filesMapping
        {
          if k == |st.traversed| {
            assert oracle.imports(fileLocation)[i] in r.filesMapping;
          }
        }
      }
    }
  }

  lemma {:induction false} VisitImportsCoverage(oracle: Oracle, excludedFilesRegex: string -> bool,
                                                universe: set<string>, fileLocation: string, i: nat,
                                                st: TraversalState)
    requires Closed(oracle, universe) && fileLocation in universe
    requires i <= |oracle.imports(fileLocation)|
    ensures var r := VisitImports(oracle, excludedFilesRegex, universe, fileLocation, i, st);
            && EnteredFollowed(oracle, excludedFilesRegex, universe, r, |st.traversed|)
            && ImportsFrom(oracle, fileLocation, i, r)
            && ImportsRecorded(oracle, r, |st.traversed|)
    decreases |Unvisited(universe, st.visitedFilesMapping)|, 1, |oracle.imports(fileLocation)| - i, 1
  {
    if i < |oracle.imports(fileLocation)| {
      ImportStepCoverage(oracle, excludedFilesRegex, universe, fileLocation, i, st);
    }
  }

  /** One turn of the import loop, then the rest of it. */
  lemma {:induction false} ImportStepCoverage(oracle: Oracle, excludedFilesRegex: string -> bool,
                                              universe: set<string>, fileLocation: string, i: nat,
                                              st: TraversalState)
    requires Closed(oracle, universe) && fileLocation in universe
    requires i < |oracle.imports(fileLocation)|
    ensures var r := VisitImports(oracle, excludedFilesRegex, universe, fileLocation, i, st);
            && EnteredFollowed(oracle, excludedFilesRegex, universe, r, |st.traversed|)
            && ImportsFrom(oracle, fileLocation, i, r)
            && ImportsRecorded(oracle, r, |st.traversed|)
    decreases |Unvisited(universe, st.visitedFilesMapping)|, 1, |oracle.imports(fileLocation)| - i, 0
  {
    var file := oracle.imports(fileLocation)[i];
    var recorded := st.(filesMapping := WithRecord(st.filesMapping, file));
    assert recorded.traversed[..|st.traversed|] == st.traversed;
    if Followed(oracle, excludedFilesRegex, file, st.visitedFilesMapping) {
      VisitCoverage(oracle, excludedFilesRegex, universe, file, recorded);
      VisitGrows(oracle, excludedFilesRegex, universe, file, recorded);
      var next := Visit(oracle, excludedFilesRegex, universe, file, recorded);
      UnvisitedShrinks(universe, recorded.visitedFilesMapping, next.visitedFilesMapping);
      GrowsExtends(recorded, next);
      EnteredFollowedFirst(oracle, excludedFilesRegex, universe, next, |st.traversed|);
      VisitImportsCoverage(oracle, excludedFilesRegex, universe, fileLocation, i + 1, next);
      StepComposes(oracle, excludedFilesRegex, universe, fileLocation, i, st, next);
    } else {
      VisitImportsCoverage(oracle, excludedFilesRegex, universe, fileLocation, i + 1, recorded);
      StepComposes(oracle, excludedFilesRegex, universe, fileLocation, i, st, recorded);
    }
  }

  lemma GrowsExtends(a: TraversalState, b: TraversalState)
    requires Grows(a, b)
    ensures Extends(a, b)
  {
  }

  /** A followed file at position `from` extends the stretch of followed files back by one. */
  lemma EnteredFollowedFirst(oracle: Oracle, excludedFilesRegex: string -> bool, universe: set<string>,
                             r: TraversalState, from: nat)
    requires from < |r.traversed| && EnteredFollowed(oracle, excludedFilesRegex, universe, r, from + 1)
    requires IsFileExtensionValid(r.traversed[from]) && r.traversed[from] in universe
    requires IsFileNotExcluded(excludedFilesRegex, oracle.isFilePath, r.traversed[from])
    ensures EnteredFollowed(oracle, excludedFilesRegex, universe, r, from)
  {
  }

  /** The file at position `k` of the trace is an import of a file entered before it that parsed. */
  ghost predicate ImportedEarlier(oracle: Oracle, traversed: seq<string>, k: nat)
    requires k < |traversed|
  {
    exists j :: 0 <= j < k && oracle.parses(traversed[j]) && traversed[k] in oracle.imports(traversed[j])
  }

  /** Every file entered from position `from` on was entered as an import of an earlier file that parsed. */
  ghost predicate EnteredImported(oracle: Oracle, r: TraversalState, from: nat) {
    forall k :: from <= k < |r.traversed| ==> ImportedEarlier(oracle, r.traversed, k)
  }

  /** A trace that continues another keeps who imported each file of the shorter one. */
  lemma ImportedComposes(oracle: Oracle, b: TraversalState, c: TraversalState, from: nat)
    requires |b.traversed| <= |c.traversed| && c.traversed[..|b.traversed|] == b.traversed
    requires EnteredImported(oracle, b, from) && EnteredImported(oracle, c, |b.traversed|)
    ensures EnteredImported(oracle, c, from)
  {
    forall k | from <= k < |b.traversed|
      ensures ImportedEarlier(oracle, c.traversed, k)
    {
      assert ImportedEarlier(oracle, b.traversed, k);
      var j :| 0 <= j < k && oracle.parses(b.traversed[j]) && b.traversed[k] in oracle.imports(b.traversed[j]);
      assert c.traversed[..|b.traversed|][j] == c.traversed[j];
      assert c.traversed[..|b.traversed|][k] == c.traversed[k];
    }
  }

  /**
   * A traversal enters its own file first, and every file it enters after
   * that is an import of a file entered before it that parsed.
   */
  lemma {:induction false} VisitEntersImports(oracle: Oracle, excludedFilesRegex: string -> bool,
                                              universe: set<string>, fileLocation: string, st: TraversalState)
    requires Closed(oracle, universe) && fileLocation in universe
    requires IsFileNotVisited(fileLocation, st.visitedFilesMapping)
    ensures var r := Visit(oracle, excludedFilesRegex, universe, fileLocation, st);
            && |r.traversed| > |st.traversed| && r.traversed[|st.traversed|] == fileLocation
            && EnteredImported(oracle, r, |st.traversed| + 1)
    decreases |Unvisited(universe, st.visitedFilesMapping)|, 0
  {
    var marked := st.(visitedFilesMapping := st.visitedFilesMapping[fileLocation := true],
                      traversed := st.traversed + [fileLocation]);
    MarkingShrinks(universe, st.visitedFilesMapping, fileLocation);
    if oracle.parses(fileLocation) {
      VisitImportsEntersImports(oracle, excludedFilesRegex, universe, fileLocation, 0, marked, |st.traversed|);
      VisitImportsGrows(oracle, excludedFilesRegex, universe, fileLocation, 0, marked);
      var r := VisitImports(oracle, excludedFilesRegex, universe, fileLocation, 0, marked);
      assert r.traversed[..|marked.traversed|][|st.traversed|] == r.traversed[|st.traversed|];
    }
  }

  lemma {:induction false} VisitImportsEntersImports(oracle: Oracle, excludedFilesRegex: string -> bool,
                                                     universe: set<string>, fileLocation: string, i: nat,
                                                     st: TraversalState, at: nat)
    requires Closed(oracle, universe) && fileLocation in universe
    requires i <= |oracle.imports(fileLocation)|
    requires at < |st.traversed| && st.traversed[at] == fileLocation && oracle.parses(fileLocation)
    ensures EnteredImported(oracle, VisitImports(oracle, excludedFilesRegex, universe, fileLocation, i, st),
                            |st.traversed|)
    decreases |Unvisited(universe, st.visitedFilesMapping)|, 1, |oracle.imports(fileLocation)| - i, 1
  {
    if i < |oracle.imports(fileLocation)| {
      ImportStepEntersImports(oracle, excludedFilesRegex, universe, fileLocation, i, st, at);
    }
  }

  /** One turn of the import loop, then the rest of it. */
  lemma {:induction false} ImportStepEntersImports(oracle: Oracle, excludedFilesRegex: string -> bool,
                                                   universe: set<string>, fileLocation: string, i: nat,
                                                   st: TraversalState, at: nat)
    requires Closed(oracle, universe) && fileLocation in universe
    requires i < |oracle.imports(fileLocation)|
    requires at < |st.traversed| && st.traversed[at] == fileLocation && oracle.parses(fileLocation)
    ensures EnteredImported(oracle, VisitImports(oracle, excludedFilesRegex, universe, fileLocation, i, st),
                            |st.traversed|)
    decreases |Unvisited(universe, st.visitedFilesMapping)|, 1, |oracle.imports(fileLocation)| - i, 0
  {
    var file := oracle.imports(fileLocation)[i];
    var recorded := st.(filesMapping := WithRecord(st.filesMapping, file));
    if Followed(oracle, excludedFilesRegex, file, st.visitedFilesMapping) {
      VisitEntersImports(oracle, excludedFilesRegex, universe, file, recorded);
      VisitGrows(oracle, excludedFilesRegex, universe, file, recorded);
      var next := Visit(oracle, excludedFilesRegex, universe, file, recorded);
      UnvisitedShrinks(universe, recorded.visitedFilesMapping, next.visitedFilesMapping);
      assert next.traversed[..|st.traversed|][at] == next.traversed[at];
      FollowedImportEntered(oracle, next, |st.traversed|, at, i);
      VisitImportsEntersImports(oracle, excludedFilesRegex, universe, fileLocation, i + 1, next, at);
      VisitImportsGrows(oracle, excludedFilesRegex, universe, fileLocation, i + 1, next);
      ImportedComposes(oracle, next, VisitImports(oracle, excludedFilesRegex, universe, fileLocation, i + 1, next),
                       |st.traversed|);
    } else {
      VisitImportsEntersImports(oracle, excludedFilesRegex, universe, fileLocation, i + 1, recorded, at);
    }
  }

  /** The `i`-th import of the file at `at`, entered at `from`, extends the stretch of imported files back by one. */
  lemma FollowedImportEntered(oracle: Oracle, r: TraversalState, from: nat, at: nat, i: nat)
    requires at < from < |r.traversed| && oracle.parses(r.traversed[at])
    requires i < |oracle.imports(r.traversed[at])| && r.traversed[from] == oracle.imports(r.traversed[at])[i]
    requires EnteredImported(oracle, r, from + 1)
    ensures EnteredImported(oracle, r, from)
  {
    assert r.traversed[from] in oracle.imports(r.traversed[at]);
    assert ImportedEarlier(oracle, r.traversed, from);
  }

  /**
   * Every import of every file entered from position `from` on that is a
   * script and not excluded ends up visited, if that file parsed.
   */
  ghost predicate ImportsVisited(oracle: Oracle, excludedFilesRegex: string -> bool, r: TraversalState, from: nat) {
    forall k, i :: from <= k < |r.traversed| && oracle.parses(r.traversed[k]) && 0 <= i < |oracle.imports(r.traversed[k])|
                   && IsFileExtensionValid(oracle.imports(r.traversed[k])[i])
                   && IsFileNotExcluded(excludedFilesRegex, oracle.isFilePath, oracle.imports(r.traversed[k])[i])
                   ==> !IsFileNotVisited(oracle.imports(r.traversed[k])[i], r.visitedFilesMapping)
  }

  /** The imports of `fileLocation` from the `i`-th on that are scripts and not excluded are all visited. */
  ghost predicate ImportsFromVisited(oracle: Oracle, excludedFilesRegex: string -> bool, fileLocation: string,
                                     i: nat, r: TraversalState) {
    forall k :: i <= k < |oracle.imports(fileLocation)| && IsFileExtensionValid(oracle.imports(fileLocation)[k])
                && IsFileNotExcluded(excludedFilesRegex, oracle.isFilePath, oracle.imports(fileLocation)[k])
                ==> !IsFileNotVisited(oracle.imports(fileLocation)[k], r.visitedFilesMapping)
  }

  /** A file that gains its visited mark between `st` and `r` is one entered in between. */
  ghost predicate MarksOnlyEntered(st: TraversalState, r: TraversalState) {
    && |st.traversed| <= |r.traversed|
    && forall f :: IsFileNotVisited(f, st.visitedFilesMapping) && !IsFileNotVisited(f, r.visitedFilesMapping)
                   ==> f in r.traversed[|st.traversed|..]
  }

  /** Two consecutive stretches of the run: what each marks and reaches, the whole does. */
  lemma ReachComposes(oracle: Oracle, excludedFilesRegex: string -> bool,
                      a: TraversalState, b: TraversalState, c: TraversalState)
    requires Grows(b, c)
    requires MarksOnlyEntered(a, b) && MarksOnlyEntered(b, c)
    requires ImportsVisited(oracle, excludedFilesRegex, b, |a.traversed|)
    requires ImportsVisited(oracle, excludedFilesRegex, c, |b.traversed|)
    ensures MarksOnlyEntered(a, c)
    ensures ImportsVisited(oracle, excludedFilesRegex, c, |a.traversed|)
  {
    forall k | |a.traversed| <= k < |b.traversed|
      ensures c.traversed[k] == b.traversed[k]
    {
      assert c.traversed[..|b.traversed|][k] == c.traversed[k];
    }
    forall f | IsFileNotVisited(f, a.visitedFilesMapping) && !IsFileNotVisited(f, c.visitedFilesMapping)
      ensures f in c.traversed[|a.traversed|..]
    {
      if !IsFileNotVisited(f, b.visitedFilesMapping) {
        var j :| 0 <= j < |b.traversed[|a.traversed|..]| && b.traversed[|a.traversed|..][j] == f;
        assert c.traversed[|a.traversed|..][j] == c.traversed[|a.traversed| + j];
      } else {
        var j :| 0 <= j < |c.traversed[|b.traversed|..]| && c.traversed[|b.traversed|..][j] == f;
        assert c.traversed[|a.traversed|..][|b.traversed| - |a.traversed| + j] == f;
      }
    }
  }

  /**
   * Which files a traversal marks visited: it marks exactly the files it
   * enters, and it leaves visited every import of every entered file that
   * parsed, when that import is a script and not excluded (followed then,
   * or visited already).
   */
  lemma {:induction false} VisitReach(oracle: Oracle, excludedFilesRegex: string -> bool, universe: set<string>,
                                      fileLocation: string, st: TraversalState)
    requires Closed(oracle, universe) && fileLocation in universe
    requires IsFileNotVisited(fileLocation, st.visitedFilesMapping)
    ensures var r := Visit(oracle, excludedFilesRegex, universe, fileLocation, st);
            && MarksOnlyEntered(st, r)
            && ImportsVisited(oracle, excludedFilesRegex, r, |st.traversed|)
    decreases |Unvisited(universe, st.visitedFilesMapping)|, 0
  {
    var marked := st.(visitedFilesMapping := st.visitedFilesMapping[fileLocation := true],
                      traversed := st.traversed + [fileLocation]);
    MarkingShrinks(universe, st.visitedFilesMapping, fileLocation);
    var r := Visit(oracle, excludedFilesRegex, universe, fileLocation, st);
    if oracle.parses(fileLocation) {
      VisitImportsReach(oracle, excludedFilesRegex, universe, fileLocation, 0, marked);
      VisitImportsGrows(oracle, excludedFilesRegex, universe, fileLocation, 0, marked);
      assert r.traversed[..|marked.traversed|][|st.traversed|] == r.traversed[|st.traversed|];
      assert r.traversed[|st.traversed|..][0] == fileLocation;
      forall f | IsFileNotVisited(f, st.visitedFilesMapping) && !IsFileNotVisited(f, r.visitedFilesMapping)
        ensures f in r.traversed[|st.traversed|..]
      {
        if f != fileLocation {
          var j :| 0 <= j < |r.traversed[|marked.traversed|..]| && r.traversed[|marked.traversed|..][j] == f;
          assert r.traversed[|st.traversed|..][j + 1] == f;
        }
      }
      forall k, i | |st.traversed| <= k < |r.traversed| && oracle.parses(r.traversed[k])
                    && 0 <= i < |oracle.imports(r.traversed[k])|
                    && IsFileExtensionValid(oracle.imports(r.traversed[k])[i])
                    && IsFileNotExcluded(excludedFilesRegex, oracle.isFilePath, oracle.imports(r.traversed[k])[i])
        ensures !IsFileNotVisited(oracle.imports(r.traversed[k])[i], r.visitedFilesMapping)
      {
      }
    } else {
      assert r.traversed[|st.traversed|..] == [fileLocation];
    }
  }

  lemma {:induction false} VisitImportsReach(oracle: Oracle, excludedFilesRegex: string -> bool,
                                             universe: set<string>, fileLocation: string, i: nat,
                                             st: TraversalState)
    requires Closed(oracle, universe) && fileLocation in universe
    requires i <= |oracle.imports(fileLocation)|
    ensures var r := VisitImports(oracle, excludedFilesRegex, universe, fileLocation, i, st);
            && MarksOnlyEntered(st, r)
            && ImportsVisited(oracle, excludedFilesRegex, r, |st.traversed|)
            && ImportsFromVisited(oracle, excludedFilesRegex, fileLocation, i, r)
    decreases |Unvisited(universe, st.visitedFilesMapping)|, 1, |oracle.imports(fileLocation)| - i, 1
  {
    if i < |oracle.imports(fileLocation)| {
      ImportStepReach(oracle, excludedFilesRegex, universe, fileLocation, i, st);
    }
  }

  /** One turn of the import loop, then the rest of it. */
  lemma {:induction false} ImportStepReach(oracle: Oracle, excludedFilesRegex: string -> bool,
                                           universe: set<string>, fileLocation: string, i: nat,
                                           st: TraversalState)
    requires Closed(oracle, universe) && fileLocation in universe
    requires i < |oracle.imports(fileLocation)|
    ensures var r := VisitImports(oracle, excludedFilesRegex, universe, fileLocation, i, st);
            && MarksOnlyEntered(st, r)
            && ImportsVisited(oracle, excludedFilesRegex, r, |st.traversed|)
            && ImportsFromVisited(oracle, excludedFilesRegex, fileLocation, i, r)
    decreases |Unvisited(universe, st.visitedFilesMapping)|, 1, |oracle.imports(fileLocation)| - i, 0
  {
    var file := oracle.imports(fileLocation)[i];
    var recorded := st.(filesMapping := WithRecord(st.filesMapping, file));
    if Followed(oracle, excludedFilesRegex, file, st.visitedFilesMapping) {
      VisitReach(oracle, excludedFilesRegex, universe, file, recorded);
      var next := Visit(oracle, excludedFilesRegex, universe, file, recorded);
      UnvisitedShrinks(universe, recorded.visitedFilesMapping, next.visitedFilesMapping);
      VisitImportsReach(oracle, excludedFilesRegex, universe, fileLocation, i + 1, next);
      ReachStepComposes(oracle, excludedFilesRegex, universe, fileLocation, i, st, next);
    } else {
      assert recorded.traversed[|st.traversed|..] == [];
      VisitImportsReach(oracle, excludedFilesRegex, universe, fileLocation, i + 1, recorded);
      ReachStepComposes(oracle, excludedFilesRegex, universe, fileLocation, i, st, recorded);
    }
  }

  /** The `i`-th import handled (visited, unless it is no script or excluded), then the rest of the loop. */
  lemma ReachStepComposes(oracle: Oracle, excludedFilesRegex: string -> bool, universe: set<string>,
                          fileLocation: string, i: nat, st: TraversalState, next: TraversalState)
    requires Closed(oracle, universe) && fileLocation in universe
    requires i < |oracle.imports(fileLocation)|
    requires IsFileExtensionValid(oracle.imports(fileLocation)[i])
             && IsFileNotExcluded(excludedFilesRegex, oracle.isFilePath, oracle.imports(fileLocation)[i])
             ==> !IsFileNotVisited(oracle.imports(fileLocation)[i], next.visitedFilesMapping)
    requires MarksOnlyEntered(st, next) && ImportsVisited(oracle, excludedFilesRegex, next, |st.traversed|)
    requires var r := VisitImports(oracle, excludedFilesRegex, universe, fileLocation, i + 1, next);
             && MarksOnlyEntered(next, r)
             && ImportsVisited(oracle, excludedFilesRegex, r, |next.traversed|)
             && ImportsFromVisited(oracle, excludedFilesRegex, fileLocation, i + 1, r)
    ensures var r := VisitImports(oracle, excludedFilesRegex, universe, fileLocation, i + 1, next);
            && MarksOnlyEntered(st, r)
            && ImportsVisited(oracle, excludedFilesRegex, r, |st.traversed|)
            && ImportsFromVisited(oracle, excludedFilesRegex, fileLocation, i, r)
  {
    VisitImportsGrows(oracle, excludedFilesRegex, universe, fileLocation, i + 1, next);
    var r := VisitImports(oracle, excludedFilesRegex, universe, fileLocation, i + 1, next);
    ReachComposes(oracle, excludedFilesRegex, st, next, r);
  }

  /**
   * `checkFileUsage`: give the entry file a record if it has none, mark it
   * as an entry file, and traverse it when it is unvisited and a script.
   */
  function CheckFileUsageOf(oracle: Oracle, excludedFilesRegex: string -> bool, ghost universe: set<string>,
                            entyFileLocation: string, st: TraversalState): (r: TraversalState)
    requires Closed(oracle, universe) && entyFileLocation in universe
    ensures KeepsMarks(st.visitedFilesMapping, r.visitedFilesMapping)
    ensures IsFileExtensionValid(entyFileLocation) ==> !IsFileNotVisited(entyFileLocation, r.visitedFilesMapping)
  {
    var recorded := WithRecord(st.filesMapping, entyFileLocation);
    var marked := st.(filesMapping := recorded[entyFileLocation := recorded[entyFileLocation].(isEntryFile := true)]);
    if IsFileNotVisited(entyFileLocation, marked.visitedFilesMapping) && IsFileExtensionValid(entyFileLocation) then
      Visit(oracle, excludedFilesRegex, universe, entyFileLocation, marked)
    else marked
  }

  /** `traverseFileForCheckingUsage`, on the run's state. */
  method TraverseFileForCheckingUsage(fileLocation: string, files: FilesMetadata, oracle: Oracle,
                                      ghost universe: set<string>)
    requires Closed(oracle, universe) && fileLocation in universe
    requires IsFileNotVisited(fileLocation, files.visitedFilesMapping)
    modifies files`visitedFilesMapping, files`filesMapping, files`unparsableVistedFiles, files`traversed
    ensures StateOf(files) == Visit(oracle, files.excludedFilesRegex, universe, fileLocation, old(StateOf(files)))
    decreases |Unvisited(universe, files.visitedFilesMapping)|
  {
    ghost var start := StateOf(files);
    ghost var entryMeasure := |Unvisited(universe, files.visitedFilesMapping)|;
    MarkingShrinks(universe, files.visitedFilesMapping, fileLocation);
    files.visitedFilesMapping := files.visitedFilesMapping[fileLocation := true];
    files.traversed := files.traversed + [fileLocation];
    if !oracle.parses(fileLocation) {
      files.unparsableVistedFiles := files.unparsableVistedFiles + 1;
      return;
    }
    var requiredImportedFilesMapping := oracle.imports(fileLocation);
    ghost var marked := StateOf(files);
    for i := 0 to |requiredImportedFilesMapping|
      invariant VisitImports(oracle, files.excludedFilesRegex, universe, fileLocation, i, StateOf(files))
                == VisitImports(oracle, files.excludedFilesRegex, universe, fileLocation, 0, marked)
      invariant |Unvisited(universe, files.visitedFilesMapping)| < entryMeasure
    {
      var file := requiredImportedFilesMapping[i];
      if Followed(oracle, files.excludedFilesRegex, file, files.visitedFilesMapping) {
        if !(file in files.filesMapping) {
          files.filesMapping := files.filesMapping[file := DefaultFileObject(file)];
        }
        ghost var before := StateOf(files);
        TraverseFileForCheckingUsage(file, files, oracle, universe);
        UnvisitedShrinks(universe, before.visitedFilesMapping, files.visitedFilesMapping);
      } else if IsFileMappingNotPresent(file, files.filesMapping) {
        files.filesMapping := files.filesMapping[file := DefaultFileObject(file)];
      }
    }
  }

  /** `checkFileUsage`, on the run's state. */
  method CheckFileUsage(entyFileLocation: string, files: FilesMetadata, oracle: Oracle, ghost universe: set<string>)
    requires Closed(oracle, universe) && entyFileLocation in universe
    modifies files`visitedFilesMapping, files`filesMapping, files`unparsableVistedFiles, files`traversed
    ensures StateOf(files)
            == CheckFileUsageOf(oracle, files.excludedFilesRegex, universe, entyFileLocation, old(StateOf(files)))
  {
    if IsFileMappingNotPresent(entyFileLocation, files.filesMapping) {
      files.filesMapping := files.filesMapping[entyFileLocation := DefaultFileObject(entyFileLocation)];
    }
    files.filesMapping := files.filesMapping[entyFileLocation
      := files.filesMapping[entyFileLocation].(isEntryFile := true)];
    if IsFileNotVisited(entyFileLocation, files.visitedFilesMapping) && IsFileExtensionValid(entyFileLocation) {
      TraverseFileForCheckingUsage(entyFileLocation, files, oracle, universe);
    }
  }

  /**
   * After `checkFileUsage` the entry file has a record marked as an entry
   * file; every other record is as it was, and no visited mark is lost.
   */
  lemma CheckFileUsageMarksEntry(oracle: Oracle, excludedFilesRegex: string -> bool, universe: set<string>,
                                 entyFileLocation: string, st: TraversalState)
    requires Closed(oracle, universe) && entyFileLocation in universe
    ensures var r := CheckFileUsageOf(oracle, excludedFilesRegex, universe, entyFileLocation, st);
            && entyFileLocation in r.filesMapping && r.filesMapping[entyFileLocation].isEntryFile
            && (forall f :: f in st.filesMapping && f != entyFileLocation
                            ==> f in r.filesMapping && r.filesMapping[f] == st.filesMapping[f])
            && KeepsMarks(st.visitedFilesMapping, r.visitedFilesMapping)
  {
    var recorded := WithRecord(st.filesMapping, entyFileLocation);
    var marked := st.(filesMapping := recorded[entyFileLocation := recorded[entyFileLocation].(isEntryFile := true)]);
    if IsFileNotVisited(entyFileLocation, marked.visitedFilesMapping) && IsFileExtensionValid(entyFileLocation) {
      VisitGrows(oracle, excludedFilesRegex, universe, entyFileLocation, marked);
    }
  }

  /**
   * `checkFileUsage` enters the entry file exactly when it is unvisited and
   * a script, and then enters it first.
   */
  lemma CheckFileUsageTraversesOnlyFreshScripts(oracle: Oracle, excludedFilesRegex: string -> bool,
                                                universe: set<string>, entyFileLocation: string, st: TraversalState)
    requires Closed(oracle, universe) && entyFileLocation in universe
    ensures var r := CheckFileUsageOf(oracle, excludedFilesRegex, universe, entyFileLocation, st);
            && (r.traversed != st.traversed
                <==> IsFileNotVisited(entyFileLocation, st.visitedFilesMapping) && IsFileExtensionValid(entyFileLocation))
            && (r.traversed != st.traversed ==> |r.traversed| > |st.traversed|
                                                && r.traversed[|st.traversed|] == entyFileLocation)
  {
    var recorded := WithRecord(st.filesMapping, entyFileLocation);
    var marked := st.(filesMapping := recorded[entyFileLocation := recorded[entyFileLocation].(isEntryFile := true)]);
    if IsFileNotVisited(entyFileLocation, marked.visitedFilesMapping) && IsFileExtensionValid(entyFileLocation) {
      VisitCoverage(oracle, excludedFilesRegex, universe, entyFileLocation, marked);
      var r := Visit(oracle, excludedFilesRegex, universe, entyFileLocation, marked);
      assert |r.traversed| != |st.traversed|;
    }
  }

  /**
   * A file that fails to parse is marked visited and entered, counts one
   * unparsable file, and has none of its imports recorded or expanded.
   */
  lemma FailedParseExpandsNothing(oracle: Oracle, excludedFilesRegex: string -> bool, universe: set<string>,
                                  fileLocation: string, st: TraversalState)
    requires Closed(oracle, universe) && fileLocation in universe
    requires IsFileNotVisited(fileLocation, st.visitedFilesMapping)
    requires !oracle.parses(fileLocation)
    ensures Visit(oracle, excludedFilesRegex, universe, fileLocation, st)
            == TraversalState(st.visitedFilesMapping[fileLocation := true], st.filesMapping,
                              st.unparsableVistedFiles + 1, st.traversed + [fileLocation])
  {
  }

  /**
   * Over a whole run from a fresh state: no file is entered twice, every
   * entered file stays visited (a failed one is never retried), the failure
   * counter is the number of entered files that failed to parse, entered
   * files are the entry and followed imports, and every import of every
   * entered file that parsed has a record and, when it is a script and not
   * excluded, is visited. The visited files are exactly the entered ones, so
   * no excluded file other than the entry is ever marked visited.
   */
  lemma CheckFileUsageFromFreshState(oracle: Oracle, excludedFilesRegex: string -> bool, universe: set<string>,
                                     entyFileLocation: string)
    requires Closed(oracle, universe) && entyFileLocation in universe
    ensures var r := CheckFileUsageOf(oracle, excludedFilesRegex, universe, entyFileLocation,
                                      TraversalState(map[], map[], 0, []));
            && Bookkept(oracle, 0, r)
            && EnteredFollowed(oracle, excludedFilesRegex, universe, r, 1)
            && EnteredImported(oracle, r, 1)
            && ImportsRecorded(oracle, r, 0)
            && ImportsVisited(oracle, excludedFilesRegex, r, 0)
            && (forall f :: !IsFileNotVisited(f, r.visitedFilesMapping) <==> f in r.traversed)
            && (forall f :: !IsFileNotVisited(f, r.visitedFilesMapping) && f != entyFileLocation
                            ==> IsFileNotExcluded(excludedFilesRegex, oracle.isFilePath, f))
  {
    var st := TraversalState(map[], map[], 0, []);
    var recorded := WithRecord(st.filesMapping, entyFileLocation);
    var marked := st.(filesMapping := recorded[entyFileLocation := recorded[entyFileLocation].(isEntryFile := true)]);
    if IsFileExtensionValid(entyFileLocation) {
      VisitBookkeeping(oracle, excludedFilesRegex, universe, entyFileLocation, marked, 0);
      VisitCoverage(oracle, excludedFilesRegex, universe, entyFileLocation, marked);
      VisitReach(oracle, excludedFilesRegex, universe, entyFileLocation, marked);
      var r := Visit(oracle, excludedFilesRegex, universe, entyFileLocation, marked);
      VisitedAreEntered(oracle, marked, r);
      VisitedPassFilter(oracle, excludedFilesRegex, universe, entyFileLocation, r);
    }
  }

  /** From a state with no visited marks, a bookkept run's visited files are exactly its entered ones. */
  lemma VisitedAreEntered(oracle: Oracle, st: TraversalState, r: TraversalState)
    requires st.visitedFilesMapping == map[] && st.traversed == []
    requires MarksOnlyEntered(st, r) && Bookkept(oracle, 0, r)
    ensures forall f :: !IsFileNotVisited(f, r.visitedFilesMapping) <==> f in r.traversed
  {
    assert r.traversed[0..] == r.traversed;
  }

  /** When the visited files are the entered ones, each of them but the entry passed the exclusion filter. */
  lemma VisitedPassFilter(oracle: Oracle, excludedFilesRegex: string -> bool, universe: set<string>,
                          entyFileLocation: string, r: TraversalState)
    requires |r.traversed| > 0 && r.traversed[0] == entyFileLocation
    requires EnteredFollowed(oracle, excludedFilesRegex, universe, r, 1)
    requires forall f :: !IsFileNotVisited(f, r.visitedFilesMapping) <==> f in r.traversed
    ensures forall f :: !IsFileNotVisited(f, r.visitedFilesMapping) && f != entyFileLocation
                        ==> IsFileNotExcluded(excludedFilesRegex, oracle.isFilePath, f)
  {
    forall f | !IsFileNotVisited(f, r.visitedFilesMapping) && f != entyFileLocation
      ensures IsFileNotExcluded(excludedFilesRegex, oracle.isFilePath, f)
    {
      var k :| 0 <= k < |r.traversed| && r.traversed[k] == f;
    }
  }

  /** The imports of two scripts that import each other. */
  function CycleImports(f: string): seq<string> {
    if f == "a.js" then ["b.js"] else if f == "b.js" then ["a.js"] else []
  }

  predicate Always(f: string) {
    true
  }

  predicate Never(f: string) {
    false
  }

  /** Two scripts that import each other: the run enters each once, in import order, and terminates. */
  lemma MutualImportsEnteredOnce()
    ensures Closed(Oracle(Always, CycleImports, Always), {"a.js", "b.js"})
    ensures CheckFileUsageOf(Oracle(Always, CycleImports, Always), Never, {"a.js", "b.js"}, "a.js",
                             TraversalState(map[], map[], 0, [])).traversed
            == ["a.js", "b.js"]
  {
    var oracle := Oracle(Always, CycleImports, Always);
    var universe := {"a.js", "b.js"};
    assert ScriptSuffixAt("a.js", 1, true) && ScriptSuffixAt("b.js", 1, true);
    var st := TraversalState(map[], map[], 0, []);
    var recorded := WithRecord(st.filesMapping, "a.js");
    var marked := st.(filesMapping := recorded["a.js" := recorded["a.js"].(isEntryFile := true)]);
    var inA := marked.(visitedFilesMapping := map["a.js" := true], traversed := ["a.js"]);
    assert [] + ["a.js"] == ["a.js"];
    assert Visit(oracle, Never, universe, "a.js", marked) == VisitImports(oracle, Never, universe, "a.js", 0, inA);
    var recordedB := inA.(filesMapping := WithRecord(inA.filesMapping, "b.js"));
    assert Followed(oracle, Never, "b.js", inA.visitedFilesMapping);
    var inB := recordedB.(visitedFilesMapping := map["a.js" := true, "b.js" := true], traversed := ["a.js", "b.js"]);
    assert ["a.js"] + ["b.js"] == ["a.js", "b.js"];
    assert Visit(oracle, Never, universe, "b.js", recordedB) == VisitImports(oracle, Never, universe, "b.js", 0, inB);
    assert !Followed(oracle, Never, "a.js", inB.visitedFilesMapping);
    var afterB := inB.(filesMapping := WithRecord(inB.filesMapping, "a.js"));
    assert VisitImports(oracle, Never, universe, "b.js", 0, inB) == afterB;
    assert VisitImports(oracle, Never, universe, "a.js", 0, inA) == afterB;
  }
}
