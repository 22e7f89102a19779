/**
 * The file predicates of src/utility/helper.js: configuration flags, the
 * visited / mapping lookups, the exclusion test and the two extension checks.
 * Each predicate is stated as the source computes it; the lemmas say what
 * the lookups mean for the run's state, and relate the regular-expression
 * tests to plain suffix checks.
 */
module Helper {
  import opened Wrappers
  import opened Text

  /**
   * The four options of the program configuration that the predicates read,
   * each reduced to its JavaScript truthiness.
   */
  datatype ProgramConfiguration = ProgramConfiguration(
    checkDeadFiles: bool,
    checkDependenciesAtGivenDepth: bool,
    checkDuplicateFiles: bool,
    checkPossibleChunksMetadata: bool)

  /** `config && config.checkDeadFiles`: falsy without a configuration, otherwise the flag. */
  predicate IsDeadfileCheckRequired(config: Option<ProgramConfiguration>) {
    match config
    case None => false
    case Some(c) => c.checkDeadFiles
  }

  predicate IsDependenciesCheckRequiredAtGivenDepthCheckRequired(config: Option<ProgramConfiguration>) {
    match config
    case None => false
    case Some(c) => c.checkDependenciesAtGivenDepth
  }

  predicate IsDuplicatedFilesCheckRequired(config: Option<ProgramConfiguration>) {
    match config
    case None => false
    case Some(c) => c.checkDuplicateFiles
  }

  predicate IsPossibleChunksMetdataCheckRequired(config: Option<ProgramConfiguration>) {
    match config
    case None => false
    case Some(c) => c.checkPossibleChunksMetadata
  }

  /** `!filesMapping[file]`: file records are objects, so only an absent key is falsy. */
  predicate IsFileMappingNotPresent<R>(file: string, filesMapping: map<string, R>) {
    file !in filesMapping
  }

  /** `!visitedFilesMapping[file]`: an absent key reads as `undefined`, which is falsy. */
  predicate IsFileNotVisited(file: string, visitedFilesMapping: map<string, bool>) {
    !(file in visitedFilesMapping && visitedFilesMapping[file])
  }

  /**
   * `isFilePath(address) && !excludedFilesRegex.test(address)`. Whether the
   * address names a file, and whether the exclusion pattern matches it, are
   * questions about the file system and a user-supplied pattern, so both come
   * in as predicates.
   */
  predicate IsFileNotExcluded(excludedFilesRegex: string -> bool, isFilePath: string -> bool, address: string) {
    isFilePath(address) && !excludedFilesRegex(address)
  }

  /**
   * The pattern `[jt]sx?$` (preceded by `\.` when `dot` holds) matches `s`
   * starting at position `i`: the pattern is anchored at the end only.
   */
  predicate ScriptSuffixAt(s: string, i: int, dot: bool) {
    var n := if dot then i + 1 else i;
    && 0 <= i && n + 2 <= |s|
    && (dot ==> s[i] == '.')
    && (s[n] == 'j' || s[n] == 't') && s[n + 1] == 's'
    && (n + 2 == |s| || (n + 3 == |s| && s[n + 2] == 'x'))
  }

  /** `/\.[jt]sx?$/.test(fileLocation)`: the regular expression matches somewhere. */
  predicate IsFileExtensionValid(fileLocation: string) {
    exists i | 0 <= i < |fileLocation| :: ScriptSuffixAt(fileLocation, i, true)
  }

  /** `!/[jt]sx?$/.test(fileLocation)`: the same pattern without the dot, negated. */
  predicate IsFileExtensionNotValid(fileLocation: string) {
    !exists i | 0 <= i < |fileLocation| :: ScriptSuffixAt(fileLocation, i, false)
  }

  /** The four file name endings the analyser parses. */
  predicate HasScriptExtension(p: string) {
    EndsWith(p, ".js") || EndsWith(p, ".jsx") || EndsWith(p, ".ts") || EndsWith(p, ".tsx")
  }

  /** Where the pattern matches, the rest of the name is one of the four endings. */
  lemma SuffixAtIsEnding(p: string, i: int, dot: bool)
    requires ScriptSuffixAt(p, i, dot)
    ensures var n := if dot then i + 1 else i;
            && p[n..] in {"js", "jsx", "ts", "tsx"}
            && (dot ==> p[i] == '.' && p[i..] == "." + p[n..])
            && (!dot ==> i == n)
  {
    var n := if dot then i + 1 else i;
    if n + 2 == |p| {
      assert p[n..] == [p[n], p[n + 1]];
    } else {
      assert p[n..] == [p[n], p[n + 1], p[n + 2]];
    }
    if dot {
      assert p[i..] == [p[i]] + p[n..];
    }
  }

  /** A name with one of the endings matches the pattern where the ending starts. */
  lemma EndingIsSuffixAt(p: string, ending: string, dot: bool)
    requires EndsWith(p, ending)
    requires if dot then ending in {".js", ".jsx", ".ts", ".tsx"} else ending in {"js", "jsx", "ts", "tsx"}
    ensures ScriptSuffixAt(p, |p| - |ending|, dot)
  {
    var i := |p| - |ending|;
    assert forall k | 0 <= k < |ending| :: p[i + k] == p[i..][k];
  }

  /** A valid extension is exactly one of `.js`, `.jsx`, `.ts` and `.tsx`. */
  lemma ExtensionValidIffScriptExtension(p: string)
    ensures IsFileExtensionValid(p) <==> HasScriptExtension(p)
  {
    if HasScriptExtension(p) {
      var ending := if EndsWith(p, ".js") then ".js" else if EndsWith(p, ".jsx") then ".jsx"
                    else if EndsWith(p, ".ts") then ".ts" else ".tsx";
      EndingIsSuffixAt(p, ending, true);
      assert 0 <= |p| - |ending| < |p|;
    }
    if IsFileExtensionValid(p) {
      var i :| 0 <= i < |p| && ScriptSuffixAt(p, i, true);
      SuffixAtIsEnding(p, i, true);
      assert EndsWith(p, p[i..]);
    }
  }

  /** "Not valid" holds exactly when the name does not end in `js`, `jsx`, `ts` or `tsx`, dot or no dot. */
  lemma ExtensionNotValidIffNoScriptEnding(p: string)
    ensures IsFileExtensionNotValid(p)
            <==> !(EndsWith(p, "js") || EndsWith(p, "jsx") || EndsWith(p, "ts") || EndsWith(p, "tsx"))
  {
    if EndsWith(p, "js") || EndsWith(p, "jsx") || EndsWith(p, "ts") || EndsWith(p, "tsx") {
      var ending := if EndsWith(p, "js") then "js" else if EndsWith(p, "jsx") then "jsx"
                    else if EndsWith(p, "ts") then "ts" else "tsx";
      EndingIsSuffixAt(p, ending, false);
      assert 0 <= |p| - |ending| < |p|;
    }
    if !IsFileExtensionNotValid(p) {
      var i :| 0 <= i < |p| && ScriptSuffixAt(p, i, false);
      SuffixAtIsEnding(p, i, false);
      assert EndsWith(p, p[i..]);
    }
  }

  /** A file with a valid extension is never reported as "not valid". */
  lemma ValidExtensionIsNotNotValid(p: string)
    ensures IsFileExtensionValid(p) ==> !IsFileExtensionNotValid(p)
  {
    if IsFileExtensionValid(p) {
      var i :| 0 <= i < |p| && ScriptSuffixAt(p, i, true);
      assert ScriptSuffixAt(p, i + 1, false);
    }
  }

  /** The two checks are not complements: `a.mjs` is neither valid nor "not valid". */
  lemma ExtensionChecksNotComplementary()
    ensures !IsFileExtensionValid("a.mjs") && !IsFileExtensionNotValid("a.mjs")
  {
    assert ScriptSuffixAt("a.mjs", 3, false);
    ExtensionValidIffScriptExtension("a.mjs");
    assert "a.mjs"[5 - 3..] == "mjs";
    assert "a.mjs"[5 - 4..] == ".mjs";
  }

  /**
   * Without a configuration no check is required; with one, each predicate
   * follows its own option and no other.
   */
  lemma ConfigPredicatesReadOwnOption(config: ProgramConfiguration, other: bool)
    ensures !IsDeadfileCheckRequired(None) && !IsDependenciesCheckRequiredAtGivenDepthCheckRequired(None)
            && !IsDuplicatedFilesCheckRequired(None) && !IsPossibleChunksMetdataCheckRequired(None)
    ensures IsDeadfileCheckRequired(Some(config)) == config.checkDeadFiles
    ensures IsDependenciesCheckRequiredAtGivenDepthCheckRequired(Some(config)) == config.checkDependenciesAtGivenDepth
    ensures IsDuplicatedFilesCheckRequired(Some(config)) == config.checkDuplicateFiles
    ensures IsPossibleChunksMetdataCheckRequired(Some(config)) == config.checkPossibleChunksMetadata
    ensures IsDeadfileCheckRequired(Some(config.(checkDependenciesAtGivenDepth := other, checkDuplicateFiles := other,
                                                 checkPossibleChunksMetadata := other)))
            == IsDeadfileCheckRequired(Some(config))
    ensures IsPossibleChunksMetdataCheckRequired(Some(config.(checkDeadFiles := other, checkDuplicateFiles := other,
                                                              checkDependenciesAtGivenDepth := other)))
            == IsPossibleChunksMetdataCheckRequired(Some(config))
  {
  }

  /**
   * A file is unvisited until it is marked: an empty map has every file
   * unvisited, marking a file visits exactly that file, and a file marked
   * `false` reads as unvisited.
   */
  lemma VisitedMarks(visitedFilesMapping: map<string, bool>, file: string, other: string)
    ensures IsFileNotVisited(file, map[])
    ensures !IsFileNotVisited(file, visitedFilesMapping[file := true])
    ensures IsFileNotVisited(file, visitedFilesMapping[file := false])
    ensures other != file ==> (IsFileNotVisited(other, visitedFilesMapping[file := true])
                               <==> IsFileNotVisited(other, visitedFilesMapping))
  {
  }

  /** A file's record is missing until one is stored for it, and storing one affects no other file. */
  lemma RecordPresence<R>(filesMapping: map<string, R>, file: string, other: string, record: R)
    ensures IsFileMappingNotPresent<R>(file, map[])
    ensures !IsFileMappingNotPresent(file, filesMapping[file := record])
    ensures other != file ==> (IsFileMappingNotPresent(other, filesMapping[file := record])
                               <==> IsFileMappingNotPresent(other, filesMapping))
  {
  }

  /** Only a file path can pass the exclusion filter, and a path passes it exactly when the pattern does not match. */
  lemma ExclusionFilter(excludedFilesRegex: string -> bool, isFilePath: string -> bool, address: string)
    ensures IsFileNotExcluded(excludedFilesRegex, isFilePath, address) ==> isFilePath(address)
    ensures isFilePath(address) ==> (IsFileNotExcluded(excludedFilesRegex, isFilePath, address)
                                     <==> !excludedFilesRegex(address))
  {
  }
}
