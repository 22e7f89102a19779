# code-analyser: the import/export bookkeeping and the file traversal, in Dafny

This project models the core of code-analyser, a tool that walks the JavaScript and TypeScript files reachable from an
entry file to find unused exports, unused files and chunk membership. Three parts of it are modelled.

- **The extractor and the usage accounting** (`ast/utility.js`), in `ast_utility.dfy`:
  - Import specifiers, `export ... from` specifiers and `require` bindings become import records.
  - Export statements become (local name, exported name) pairs.
  - Those pairs are committed either as fresh export entities or as aliases of an imported entity.
  - Reference counts of shared entities move up or down.
  - Call sites, path literals, template-literal paths and webpack magic comments are classified.
  - A file's chunk membership is recorded.
  - Property chains such as `x.y.z` are read.
- **The traversal** (`checker/file-usage-checker.js`), in `file_usage_checker.dfy`: the depth-first, cycle-safe walk
  over the files an entry file reaches. It keeps a visited map, a files map and a counter of files that failed to
  parse.
- **The file predicates** (`src/utility/helper.js`), in `helper.dfy`: extension checks, visited and record lookups,
  the exclusion filter and the four configuration flags.

The other files support these three:
- `metadata.dfy` holds the data model.
  - Export entities live in an arena `map<EntityId, ExportEntity>` owned by `FilesMetadata`. File export tables and
    import slots hold entity ids, so an update made through one holder is seen by every holder.
  - `FilesMetadata` and `CurrentFileMetadata` are classes whose fields the methods update in place.
- `text.dfy` holds the JavaScript string operations the comment parser relies on: `split`, `trim`, and the line
  terminators that `.` refuses to match.
- `wrappers.dfy` holds `Option`.

Each imperative operation is a method on the state objects. It is proved equal to a specification function of the
old state, such as `ReferenceCountUpdate`, `CommitAll` or `Visit`, and the lemmas state what the source promises about
those functions.

The parser is replaced by an `Oracle`. For each file, the oracle says whether the file parses, which files it imports,
and whether an address is a file path. The files are drawn from a finite universe closed under imports, so the number
of unvisited files decreases with every recursive call and the traversal terminates, cycles included.

A TypeError that the source does not catch becomes a `false` "completed" result. A TypeError swallowed by a `try`
keeps the writes made before it and has no other effect.

The model follows what the code does, including where its comments and names suggest otherwise:
- `parseComment` (ast/utility.js:380-392) accepts only comments with exactly one colon, not "split on the first
  colon".
- `parseComment` turns every unquoted value into a regular expression, not only `/…/`-delimited ones.
- A `require` binding under `DONT_UPDATE_REFERENCE_COUNT` takes its weight off the count (ast/utility.js:187-190,
  213-216). It adds the weight only when references are being removed.
- `getValuesFromStatement` builds the pairs of `module.exports = {foo: bar}` with key and value swapped
  (ast/utility.js:432-440). `ValuesFromStatement` keeps that swap. `ValuesFromStatementIntended` is the reading the
  other branches suggest, and "## Findings" relates the two.

## Model

| member | source | states |
|---|---|---|
| Helper.ConfigPredicatesReadOwnOption | src/utility/helper.js:3-14 | Without a configuration none of the four checks is required. With one, each predicate is exactly its own option's flag, and changing the other options does not change it. |
| Helper.RecordPresence | src/utility/helper.js:19-20 | A file's record is missing in an empty mapping and present once stored. Storing one file's record does not change whether any other file's record is missing. |
| Helper.ExclusionFilter | src/utility/helper.js:22-24 | Only a file path can pass the exclusion filter. A file path passes exactly when the exclusion pattern does not match it. |
| Helper.ExtensionNotValidIffNoScriptEnding | src/utility/helper.js:27-28 | "Not valid" holds iff the name ends in none of `js`, `jsx`, `ts` and `tsx`, with or without a dot before it. |
| Helper.VisitedMarks | src/utility/helper.js:30-31 | A file is unvisited in an empty map, visited once marked `true`, and unvisited when marked `false`. Marking one file does not change whether any other file is visited. |
| Helper.ExtensionValidIffScriptExtension | src/utility/helper.js:33 | The regular expression `\.[jt]sx?$` matches iff the name ends in `.js`, `.jsx`, `.ts` or `.tsx`. |
| Helper.ValidExtensionIsNotNotValid | src/utility/helper.js:27-33 | A name with a valid extension is never reported as "not valid". |
| Helper.ExtensionChecksNotComplementary | src/utility/helper.js:27-33 | The two extension checks are not complements: `a.mjs` is neither valid nor "not valid". |
| Metadata.ReferenceCountObject.constructor | ast/utility.js:150-153 | A new counter object holds the given count and an export reference count of 0. |
| Text.Trim | ast/utility.js:382-383 | The trimmed text is a contiguous slice of the input. Everything cut off at either end is white space or a line terminator, and the result neither starts nor ends with one. |
| Text.SplitLength | ast/utility.js:380-381 | Splitting on a character gives one more part than the character's number of occurrences, so "two parts" means "exactly one colon". |
| Text.JoinSplit | ast/utility.js:380 | Joining the parts of a split with the separator gives back the original string, so the split loses nothing. |
| Text.SplitJoin | ast/utility.js:380 | Splitting a join of separator-free parts gives back those parts. |
| AstUtility.SetImportedVariableInCurrentFileMetadata | ast/utility.js:58-103 | The mapping is: a named specifier to (imported name, individual), a default specifier to ("default", individual), a namespace specifier to (local name, all exports). A fresh record under the local name is always written, and no other record changes. The import slot is written only in the `CHECK_USAGE` stage, and only when the target's exports resolve. A missing target leaves the slots unchanged. |
| AstUtility.SetImportedVariablesFromExportFromStatementSpecifier | ast/utility.js:109-128 | `export {x as y} from m` records an individual import of `y` under `x`. A specifier without a local name records an import of all exports under the exported name. Nothing else changes. |
| AstUtility.NewImportVariableObject | ast/utility.js:138-155 | The new record carries the given names, type and source file, and a fresh counter object with the given count and export count 0. |
| AstUtility.ResolveImport | ast/utility.js:90-100 | An import resolves to the target's whole export value (all exports) or to its member of the imported name (individual). It fails when the target has no record or, for an individual import, when the target's export value is `undefined`. An all-exports import of an `undefined` export value resolves to `undefined` without failing. |
| AstUtility.UpdateImportedVariablesReferenceCountInRequireOrDynamicImportStatements | ast/utility.js:164-220 | The new import slots, the entity arena and whether the method completed are exactly those given by `ReferenceCountUpdate` of the old state. |
| AstUtility.UpdatePatternReferenceCounts | ast/utility.js:194-219 | The `forEach` over a pattern leaves the state that `PatternUpdate` gives, the bindings applied in order. |
| AstUtility.UpdateBindingReferenceCount | ast/utility.js:197-218 | One binding writes the named export into its local slot and, under `DONT_UPDATE_REFERENCE_COUNT`, moves that export's count by the signed weight. A failed lookup changes nothing. |
| AstUtility.PatternStepBindsNames | ast/utility.js:262-277 | A binding `{a: b}` writes the export `a` into slot `b`. A plain `a`, in either pattern, writes export `a` into slot `a`. Any other element reads and writes `default`. A missing export table writes nothing. |
| AstUtility.ReferenceCountUpdate | ast/utility.js:164-220 | Only a statement without a binding node can throw out of the update, and a throw leaves the import slots and the arena unchanged. No entity is added or removed. |
| AstUtility.ImportReferenceCount | ast/utility.js:200-205 | A binding weighs 2 iff it is in an object pattern and its local name equals its imported name. Otherwise it weighs 1, including every array-pattern element. |
| AstUtility.BareImportMovesDefaultByOne | ast/utility.js:174-180 | With no binding node, the update completes iff the target has a record and a defined `default` export. It then moves that entity's count by exactly +1 or −1, according to `addReferences`, and changes no other count and no import slot. |
| AstUtility.WholeRequireAliasesExports | ast/utility.js:182-186 | `const X = require(m)` completes and binds `X` to the target's export value itself, not a copy. |
| AstUtility.PatternUpdateMovesCountsByWeight | ast/utility.js:197-218 | Under `DONT_UPDATE_REFERENCE_COUNT`, a pattern moves each entity's count by the total weight of the bindings that name it, signed by `addReferences`. Every other field of every entity is unchanged. |
| AstUtility.PatternStepMovesCount | ast/utility.js:206-217 | One binding moves only the count of the entity it names, by its weight. |
| AstUtility.PatternUpdateKeepsCounts | ast/utility.js:213-216 | Without `DONT_UPDATE_REFERENCE_COUNT`, a pattern leaves every entity as it was. |
| AstUtility.PatternUpdateWithoutExportsIsIdentity | ast/utility.js:206-217 | With no record for the target, every binding's lookup throws inside the `try` and the state is unchanged. |
| AstUtility.CountsMoveOnlyWhenTakenBack | ast/utility.js:182-219 | When there is a binding node and the type is not `DONT_UPDATE_REFERENCE_COUNT`, the update completes and changes no entity. |
| AstUtility.DestructuringWeights | ast/utility.js:200-216 | These examples move a count by two, one and one references respectively: `const {a} = require(m)`, `const {a: b} = require(m)` and `const [a] = require(m)`. |
| AstUtility.ReferenceCountUpdateIsReversible | ast/utility.js:164-220 | Running the update with `addReferences` true and then false, on the same node, completes alike and restores every entity exactly. |
| AstUtility.BareUpdateIsReversible | ast/utility.js:174-180 | For a bare import, the reverse pass takes off the reference the first pass added to the default export. |
| AstUtility.IdentifierUpdateIsReversible | ast/utility.js:182-191 | For `const X = require(m)`, the reverse pass undoes the count change of the first pass. |
| AstUtility.PatternUpdateIsReversible | ast/utility.js:194-219 | For a destructuring pattern, the reverse pass restores every entity, whatever the target and the update type. |
| AstUtility.SetImportedVariablesDuringImportStage | ast/utility.js:227-255 | An identifier gets a fresh all-exports record with a null imported name. An object pattern records each leading `ObjectProperty` as an individual import of its key under its value name. A rest element makes the method stop uncompleted, keeping the records already written. Any other node changes nothing. |
| AstUtility.SetImportedVariablesFromObjectPattern | ast/utility.js:243-253 | The loop completes iff every property is an `ObjectProperty`. Each local name of the properties processed maps to a fresh record of its imported name (a later property wins), and every other record is unchanged. |
| AstUtility.ImportedFileAddress | ast/utility.js:284-287 | An address is found iff the node that `getCallExpressionFromNode` returns has an `arguments` array (a call, an optional call or a `new` expression) with at least one element. The address is the classification of that first argument. |
| AstUtility.CallExpressionFromNode | ast/utility.js:294-301 | A node is returned exactly for a call expression, a member expression and an await expression. It is the call expression itself, the member expression's object or the awaited argument, whatever kind of node that is. |
| AstUtility.ImportedFileAddressShapes | ast/utility.js:284-301 | An address is found iff the node is a call with an argument, or is a member access on, or an await of, a call, optional call or `new` expression with an argument. `new Worker("./w.js").x` yields the file `./w.js`, while a bare `new` expression yields nothing. |
| AstUtility.ValueFromStringOrTemplateLiteral | ast/utility.js:308-317 | A string literal gives `FILE` with its value. A template literal with quasis gives `UNRESOLVED TYPE` with the feasible address of its first quasi. Anything else gives `NONE`. |
| AstUtility.LastFeasibleAddress | ast/utility.js:324-328 | The result is a prefix of the path. When it differs from the path, it is at least two characters long and a slash follows it in the path. |
| AstUtility.LastFeasibleAddressIsRegexReplacement | ast/utility.js:324-328 | When `(.{2,})\/(.*)$` does not match, the path is unchanged. Otherwise the result is the path up to the slash of the match that starts leftmost and, among those, ends at the rightmost slash. |
| AstUtility.LastFeasibleAddressExamples | ast/utility.js:324-328 | `/pages/` gives `/pages`; `/a/b/` gives `/a/b`, which gives `/a`. The cut is therefore not idempotent. `/a` stays `/a`. |
| AstUtility.TemplateLiteralRequireExample | ast/utility.js:284-328 | ``require(`/pages/${id}/index`)`` yields the unresolved address `/pages`. |
| AstUtility.NewWebpackConfigurationObject | ast/utility.js:368-372 | The chunk descriptor of a file is named after the file's location. |
| AstUtility.ParseComment | ast/utility.js:379-396 | A comment is parsed as valid iff it contains exactly one colon. |
| AstUtility.ParseCommentOfKeyValue | ast/utility.js:380-392 | `key:value` with no other colon gives the trimmed key and the meaning of the trimmed value: the quoted content if quoted, otherwise a pattern. |
| AstUtility.ParseCommentQuotedValue | ast/utility.js:386-388 | A value in matching single or double quotes on one line gives the chunk name between the quotes. |
| AstUtility.ParseCommentUnquotedValue | ast/utility.js:389-392 | Any unquoted value, of whatever shape, becomes a pattern, never a chunk name. |
| AstUtility.PatternSourceOfOneLine | ast/utility.js:390 | On one line, the pattern source is the text between the leading slash and the last slash. A value without a leading slash, or without a second slash, is kept whole. |
| AstUtility.UpdateWebpackConfigurationOfImportedFile | ast/utility.js:404-416 | The files mapping afterwards is `WithChunk` of the old one. |
| AstUtility.WithChunkSetsOneKey | ast/utility.js:404-416 | Recording a chunk sets exactly that chunk's key in that file's chunk map. Every other file, every other field and every other chunk key is untouched, and a missing file stays missing. |
| AstUtility.WithChunkIdempotent | ast/utility.js:404-416 | Recording the same chunk twice is the same as recording it once. |
| AstUtility.OwnChunkIsNamedAfterFile | ast/utility.js:404-416 | A file recorded with the descriptor of its own location belongs to the chunk named after it. |
| AstUtility.ObjectExpressionAsWrittenSwapsNames | ast/utility.js:432-440 | As written, `module.exports = {foo: bar}` yields local `foo` and exported `bar`. The corrected reading yields local `bar` exported as `foo`. |
| AstUtility.ObjectExpressionReadingsAgreeIffNoRenaming | ast/utility.js:432-440 | The as-written and the corrected pairs agree iff no keyed property binds an identifier under a different name. |
| AstUtility.ObjectExpressionPairsAreKeyedProperties | ast/utility.js:430-442 | `module.exports = {...}` exports exactly one pair per keyed property, in the properties' order; the `k`-th pair belongs to the `k`-th keyed property. Each pair's exported name is the key, and its local name is the value's identifier or else the key. Incomplete properties are skipped. |
| AstUtility.SpecifierPairs | ast/utility.js:444-456 | There is one pair per specifier, in order: local→exported, or exported→exported when there is no local name. |
| AstUtility.DeclaratorPairsAreNamedDeclarators | ast/utility.js:461-471 | `export const ...` exports exactly the declarators bound to a plain identifier, each under its own name. |
| AstUtility.ValuesFromStatement | ast/utility.js:425-503 | The result is `undefined` exactly for `export default x = ...`, whose branch builds its pairs and drops them. Every other node yields an array. |
| AstUtility.ObjectExpressionPairsAsWrittenAreKeyedProperties | ast/utility.js:430-442 | As written, `module.exports = {...}` yields exactly one pair per keyed property, in the properties' order; the `k`-th pair belongs to the `k`-th keyed property. The key is the local name, and the value's identifier (or else the key) is the exported name. |
| AstUtility.ValuesFromStatementIntended | ast/utility.js:425-503 | The intended reading yields `undefined` for the same nodes as the code. |
| AstUtility.ValuesFromStatementReadingsAgree | ast/utility.js:430-442 | The code and the intended reading give the same result iff the node is not an object expression or none of its keyed properties renames. |
| AstUtility.WholeExportOnlyFromIdentifier | ast/utility.js:425-503 | In the code as written, the empty exported name, which replaces a file's whole export value, is produced iff the node is `module.exports = X`. |
| AstUtility.SetExportedVariablesFromArray | ast/utility.js:512-539 | The export value and the entity arena afterwards are `CommitAll` of the old state. Each pair is looked up among the import records by its local name, in order, and a throw on one pair does not stop the rest. |
| AstUtility.SetExportVariable | ast/utility.js:546-589 | The export value, the arena and whether the method completed are `CommitExport` of the old state. |
| AstUtility.CommitExport | ast/utility.js:546-589 | Committing one export adds at most one entity, under the next fresh id, and removes none. A commit that throws changes no entity and allocates no id. |
| AstUtility.CommitExportKeepsEntities | ast/utility.js:546-589 | Committing an export keeps the arena valid and keeps every entity. It never changes a name, a first-referenced file or a reference count, never clears an entry flag, and never removes a per-file link. |
| AstUtility.CommitAllKeepsEntities | ast/utility.js:512-539 | The same holds for a whole array of export pairs. |
| AstUtility.ReexportSharesImportedEntity | ast/utility.js:552-575 | Re-exporting an imported entity completes and stores that same entity id under the exported name, or as the whole value for the empty name. The entity's per-file map gains this file's link to the record's own counter object, its entry flag becomes the old flag or this file's entry flag, and no new entity is made. |
| AstUtility.LocalExportAllocatesEntity | ast/utility.js:576-588 | A local export completes and adds one entity under an id unused before: named after the local name, first referenced here, with count 0, no entry flag and no links. It is stored under the exported name, or as the whole value for the empty name. |
| AstUtility.NewDefaultObject | ast/utility.js:596-608 | A new entity has the given name and file, count 0, the given entry flag and no per-file links. |
| AstUtility.AllPropertiesFromNode | ast/utility.js:616-638 | The `while` loop returns the names along the chain (`x.y.z` gives `[x, y, z]`): qualified type names when the node is one, member expressions otherwise. |
| AstUtility.PropertyChainOfMemberChain | ast/utility.js:616-638 | Reading a member chain built from identifiers gives back its names, in order. |
| FileUsageChecker.WithRecord | checker/file-usage-checker.js:61-67 | Every import considered ends with a record. A default record is added only when the file has none, and no existing record changes. |
| FileUsageChecker.Visit | checker/file-usage-checker.js:39-75 | A traversal marks its file visited and never unmarks a visited file. |
| FileUsageChecker.TraverseFileForCheckingUsage | checker/file-usage-checker.js:39-75 | The recursive method leaves the visited map, files map, failure counter and trace exactly as `Visit` of the old state gives them. |
| FileUsageChecker.CheckFileUsage | checker/file-usage-checker.js:20-32 | The method leaves the state exactly as `CheckFileUsageOf` of the old state gives it. |
| FileUsageChecker.VisitGrows | checker/file-usage-checker.js:39-75 | A traversal only adds. Visited marks stay, the trace is extended and the failure counter never drops. Records are never removed or overwritten by the checker's own lines; what the syntax-tree walk writes into records is inside the oracle and not modelled. |
| FileUsageChecker.VisitBookkeeping | checker/file-usage-checker.js:39-75 | No file is entered twice, and every entered file is marked visited. The failure counter rises by exactly the number of entered files that failed to parse. |
| FileUsageChecker.VisitCoverage | checker/file-usage-checker.js:55-68 | The traversed file is entered first. Every file entered after it is an import of a file entered before it that parsed, and is a script, a file path, not excluded and in the universe. Every import of every entered file that parsed has a record. |
| FileUsageChecker.VisitEntersImports | checker/file-usage-checker.js:55-68 | A traversal enters its own file first, and every later file it enters is an import of a file it entered earlier that parsed. |
| FileUsageChecker.VisitReach | checker/file-usage-checker.js:39-75 | A traversal marks visited exactly the files it enters. Every import of every entered file that parsed ends visited when it is a script and not excluded. |
| FileUsageChecker.CheckFileUsageOf | checker/file-usage-checker.js:20-32 | `checkFileUsage` loses no visited mark, and an entry file with a script extension ends visited. |
| FileUsageChecker.FailedParseExpandsNothing | checker/file-usage-checker.js:69-74 | A file that fails to parse is marked visited and entered, adds exactly one to the failure counter, and records or expands none of its imports. |
| FileUsageChecker.CheckFileUsageMarksEntry | checker/file-usage-checker.js:20-25 | Afterwards the entry file has a record marked as an entry file. Every other existing record is unchanged and no visited mark is lost. |
| FileUsageChecker.CheckFileUsageTraversesOnlyFreshScripts | checker/file-usage-checker.js:26-31 | The entry is traversed iff it is unvisited and has a valid extension, and it is then the first file entered. |
| FileUsageChecker.CheckFileUsageFromFreshState | checker/file-usage-checker.js:20-75 | A run from a fresh state enters no file twice, and every entered file stays visited. The failure counter equals the number of entered files that failed to parse. Every file after the entry is a followed import of a file entered before it that parsed, and every import of every entered file that parsed has a record. Each such import that is a script and not excluded is visited. The visited files are exactly the entered ones, so no excluded file other than the entry is marked visited. |
| FileUsageChecker.MutualImportsEnteredOnce | checker/file-usage-checker.js:55-68 | For two scripts that import each other, the run terminates and enters each once, in import order. |

## Left out

- Parsing and walking the syntax tree (`buildAST`, `traverseAST`) and import discovery (`getUsedFilesMapping`) are a
  foreign parser. They are the `Oracle` of `FileUsageChecker`.
  - Whatever `traverseAST` writes into the shared state before a parse error is not modelled.
  - A parse error and a throw inside `traverseAST` are both "does not parse".
- The import list comes from the keys of an object, so it has no duplicates. The oracle's list may repeat a file, which
  makes the model slightly more general.
- `getDefaultFileObject` and `getDefaultCurrentFileMetadata` (utility/files.js) are not part of this model.
  `DefaultFileObject` takes a new file's record to start with an empty export table and no chunk.
- The traversal imports `isFileExtensionValid`, `isFileNotVisited`, `isFileMappingNotPresent` and `isFileNotExcluded`
  from checker/utility.js, which is not part of this model. The model uses the `src/utility/helper.js` definitions of
  these names.
  - The checker passes `isFileNotExcluded` its arguments as (file, pattern), the reverse of helper.js's (pattern,
    file). The model keeps the meaning the names give: the file is tested against the pattern.
- `isFilePath` and the exclusion regular expression are user- and file-system-dependent. They are uninterpreted
  predicates.
- The configuration flags are reduced to their truthiness (`bool`). JavaScript's `config && config.flag` returns the
  flag's own value, which only matters for truthiness.
- `isInstanceofRegexExpression` (src/utility/helper.js:16-17) is a run-time type test with no counterpart in a typed
  model.
- `console.error` reporting (checker/file-usage-checker.js:72-73) is I/O.
- The parser plugin and settings arrays (ast/utility.js:4-56) are data for the foreign parser.
- Path resolution (`getResolvedPathFromGivenPath`, `getResolvedImportedFileDetails`, ast/utility.js:337-365) is
  file-system resolution through `pathResolver`, which is not part of this model.
- `parseComment` compiles the pattern with `new RegExp` (ast/utility.js:391). The model keeps the pattern's source
  text. A source that is not a valid regular expression throws in the source but is a `Pattern` here.
- AstUtility.ReferenceCountUpdate: `referenceCount -=` on a whole export table (ast/utility.js:187-190) produces `NaN`
  on a property no one reads. The model leaves the arena unchanged in that case.
- AstUtility.ReferenceCountUpdate: a bare import whose `default` export is a table writes a `referenceCount` property
  onto that table. The model leaves the arena unchanged in that case too.
- AstUtility.ReferenceCountUpdate: the arena has no id for a dangling `Entity` reference. Such a reference is never
  built by the model's own operations, and an update to it changes nothing.
- Property names that JavaScript objects inherit (`constructor`, `toString`, …) are not modelled as keys. A lookup of
  such a name finds nothing here.
- Writes into the properties of an entity reached as a member of another file's table are modelled through the arena.
  Any other object identity of whole tables is not: two files holding "the same" table hold equal values, not one
  shared object.
- AstUtility.CommitExport: after `module.exports = X`, where `X` is an all-exports import, the file's export value is
  the other file's table object itself (ast/utility.js:563). A later named export then writes into that shared table
  (ast/utility.js:561), so the other file's exports change too. The model updates only this file's copy.
- AstUtility.CommitExport: when the file's export value is a single entity, a named export hangs its value onto that
  entity object as a property (ast/utility.js:561 and 578-582). In the local branch that value is a freshly made
  entity. The model leaves the export value and the arena unchanged, allocates no entity, and a later lookup of that
  name on the entity finds nothing.
- An array hole (`const [, a] = require(m)`) is not a `PatternElement`. In the source, `getImportedNameFromProperty`
  reads the type of `null` (ast/utility.js:198, 273-274) outside the `try`, and the TypeError escapes the update after
  the earlier elements were written.
- An `ObjectProperty` whose value is not an identifier (`{a: {b}}`, `{a = 1}`) is not represented. Its `value.name` is
  `undefined` (ast/utility.js:244, 263), so the source writes the slot or record keyed `"undefined"`, and the record's
  local name is `undefined`.
- Strings are sequences of Unicode scalar values. JavaScript regular expressions without the `u` flag count UTF-16 code
  units, so `.{2,}` in `getLastFeasibleAddress` (ast/utility.js:326) differs on a path that starts with one character
  outside the Basic Multilingual Plane followed by a slash: JavaScript cuts it there, the model keeps it whole.
  `split`, `trim` and the comment patterns only test characters inside that plane and are not affected.
- `ReferenceCountObject` counters are never changed by the modelled code. Only their identity (sharing) is modelled.
- Numbers are unbounded integers. JavaScript's doubles lose precision above 2^53, which no realistic reference count
  reaches.
- Recursion depth is unbounded here. The source can overflow the JavaScript call stack on a very deep import chain.
- AstUtility.SetImportedVariablesDuringImportStage: a rest element in the object pattern throws a TypeError that
  escapes to the caller. The model reports `false` and keeps the records already written, without modelling the
  caller's handling.

## Findings

| source | as written | input that shows it | evidently intended | confidence | as-written member | corrected member |
|---|---|---|---|---|---|---|
| ast/utility.js:432-440 | For `module.exports = {foo: bar}` the pair is `{[key.name]: value.name}`, i.e. local `foo`, exported `bar`, although every other branch builds `{[local]: exported}` | `module.exports = {foo: bar}`: `require(m).foo` finds no export, and the entity is named `foo` and looked up among imports as `foo` | local `bar` exported as `foo`, i.e. `{[value.name]: key.name}` | not executed | AstUtility.ObjectExpressionAsWrittenSwapsNames | AstUtility.ObjectExpressionPairsAreKeyedProperties |

`ValuesFromStatement` models the code as written. `ValuesFromStatementIntended` uses the corrected pairs, and
`ValuesFromStatementReadingsAgree` shows the two part only on an object expression that renames.
