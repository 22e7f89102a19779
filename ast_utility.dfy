/**
 * ast/utility.js: turning single syntax nodes of imports, exports, `require`
 * calls and magic comments into import records, export entities and
 * reference-count updates.
 *
 * Syntax nodes are a closed datatype with an explicit "other" arm. The
 * functions that only compute are functions; the ones that write into
 * `currentFileMetadata` or `filesMetadata` are methods on those objects,
 * proved against specification functions where the update is more than a
 * single assignment. Where the source throws a TypeError that nothing in it
 * catches, the method reports `false`; where a `try` swallows the error, the
 * writes made before it stay and nothing else happens.
 */
module AstUtility {
  import opened Wrappers
  import opened Text
  import opened Metadata

  // ---------------------------------------------------------------------
  // Syntax nodes
  // ---------------------------------------------------------------------

  /** An element of an object or array destructuring pattern. */
  datatype PatternElement =
    | ObjectProperty(key: string, value: string)
    | IdentifierElement(name: string)
    | OtherElement

  /** The expression and pattern nodes the extractor inspects. */
  datatype Node =
    | Identifier(name: string)
    | ObjectPattern(properties: seq<PatternElement>)
    | ArrayPattern(elements: seq<PatternElement>)
    | CallExpression(arguments: seq<Node>)
    | OptionalCallExpression(arguments: seq<Node>)
    | NewExpression(arguments: seq<Node>)
    | MemberExpression(obj: Node, property: Node)
    | AwaitExpression(argument: Node)
    | TSQualifiedName(left: Node, right: Node)
    | StringLiteral(value: string)
    | TemplateLiteral(quasis: seq<string>)
    | OtherNode

  /** `node.name`: only identifiers carry one. */
  function NameOf(node: Node): Option<string> {
    if node.Identifier? then Some(node.name) else None
  }

  /** The specifiers of an `import ... from` declaration. */
  datatype ImportSpecifierNode =
    | ImportSpecifier(local: string, imported: string)
    | ImportDefaultSpecifier(local: string)
    | ImportNamespaceSpecifier(local: string)

  /** A specifier of `export ... from`; `local` is absent for `export * as x` and `export x from`. */
  datatype ExportSpecifierNode = ExportSpecifierNode(local: Option<string>, exported: string)

  // ---------------------------------------------------------------------
  // Import records
  // ---------------------------------------------------------------------

  /** `getNewImportVariableObject`: a record with a fresh counter object. */
  method NewImportVariableObject(name: Option<string>, localName: string, importType: ImportType,
                                 importedFileAddress: string, count: int := 0)
    returns (r: ImportRecord)
    ensures r.name == name && r.localName == localName && r.importType == importType
    ensures r.importedFrom == importedFileAddress
    ensures fresh(r.referenceCountObject)
    ensures r.referenceCountObject.referenceCount == count
    ensures r.referenceCountObject.exportReferenceCount == 0
  {
    var counter := new ReferenceCountObject(count);
    r := ImportRecord(name, localName, importType, importedFileAddress, counter);
  }

  /** A record as `getNewImportVariableObject` makes it with the default count 0. */
  ghost predicate IsNewImportRecord(r: ImportRecord, name: Option<string>, localName: string,
                                    importType: ImportType, importedFrom: string)
    reads r.referenceCountObject
  {
    && r.name == name && r.localName == localName && r.importType == importType
    && r.importedFrom == importedFrom
    && r.referenceCountObject.referenceCount == 0 && r.referenceCountObject.exportReferenceCount == 0
  }

  /** The imported name and import type an import specifier declares. */
  function SpecifierImport(specifier: ImportSpecifierNode): (string, ImportType) {
    match specifier
    case ImportSpecifier(_, imported) => (imported, IndividualImport)
    case ImportDefaultSpecifier(_) => ("default", IndividualImport)
    case ImportNamespaceSpecifier(local) => (local, AllExportsImported)
  }

  /**
   * The value an import resolves to: the target's whole `exportedVariables`,
   * or its member `name`. `None` where the lookup throws (no record for the
   * target, or reading a member of `undefined`).
   */
  function ResolveImport(filesMapping: map<string, FileRecord>, address: string,
                         importType: ImportType, name: string): (r: Option<ExportValue>)
    ensures address !in filesMapping ==> r.None?
    ensures address in filesMapping && importType == AllExportsImported
            ==> r == Some(filesMapping[address].exportedVariables)
    ensures address in filesMapping && importType == IndividualImport
            ==> r == Member(filesMapping[address].exportedVariables, name)
  {
    if address !in filesMapping then None
    else
      var exported := filesMapping[address].exportedVariables;
      if importType == AllExportsImported then Some(exported) else Member(exported, name)
  }

  /** JavaScript turns a `null` property key into the string `"null"`. */
  function KeyOf(name: Option<string>): string {
    name.GetOr("null")
  }

  /**
   * `setImportedVariableInCurrentFileMetadata`: always records the import
   * under its local name; in the `CHECK_USAGE` stage also binds the local
   * name to what the target exports, skipping silently when that throws.
   */
  method SetImportedVariableInCurrentFileMetadata(specifier: ImportSpecifierNode, importedFileAddress: string,
                                                  traverseType: string, addReferences: bool,
                                                  current: CurrentFileMetadata, files: FilesMetadata)
    modifies current
    ensures specifier.local in current.importedVariablesMetadata
    ensures var record := current.importedVariablesMetadata[specifier.local];
            && IsNewImportRecord(record, Some(SpecifierImport(specifier).0), specifier.local,
                                 SpecifierImport(specifier).1, importedFileAddress)
            && fresh(record.referenceCountObject)
    ensures current.importedVariablesMetadata
            == old(current.importedVariablesMetadata)[specifier.local := current.importedVariablesMetadata[specifier.local]]
    ensures var resolved := ResolveImport(files.filesMapping, importedFileAddress,
                                          SpecifierImport(specifier).1, SpecifierImport(specifier).0);
            current.importedVariables
            == if traverseType == "CHECK_USAGE" && resolved.Some?
               then old(current.importedVariables)[specifier.local := resolved.value]
               else old(current.importedVariables)
    ensures current.exportedVariables == old(current.exportedVariables)
  {
    var localEntityName := specifier.local;
    var (importedEntityName, importType) := SpecifierImport(specifier);
    var record := NewImportVariableObject(Some(importedEntityName), localEntityName, importType, importedFileAddress);
    current.importedVariablesMetadata := current.importedVariablesMetadata[localEntityName := record];
    if traverseType == "CHECK_USAGE" {
      var resolved := ResolveImport(files.filesMapping, importedFileAddress, importType, importedEntityName);
      if resolved.Some? {
        current.importedVariables := current.importedVariables[localEntityName := resolved.value];
      }
    }
  }

  /**
   * `setImportedVariablesFromExportFromStatementSpecifier`: `export {x as y} from m`
   * is recorded like an import of `x` (record name `y`); a specifier without a
   * local name imports the whole table under the exported name.
   */
  method SetImportedVariablesFromExportFromStatementSpecifier(specifier: ExportSpecifierNode,
                                                              current: CurrentFileMetadata,
                                                              importedFileAddress: string)
    modifies current
    ensures var importName := specifier.local.GetOr(specifier.exported);
            && importName in current.importedVariablesMetadata
            && IsNewImportRecord(current.importedVariablesMetadata[importName], Some(specifier.exported), importName,
                                 if specifier.local.Some? then IndividualImport else AllExportsImported,
                                 importedFileAddress)
            && fresh(current.importedVariablesMetadata[importName].referenceCountObject)
            && current.importedVariablesMetadata
               == old(current.importedVariablesMetadata)[importName := current.importedVariablesMetadata[importName]]
    ensures current.importedVariables == old(current.importedVariables)
    ensures current.exportedVariables == old(current.exportedVariables)
  {
    var exportName := specifier.exported;
    var importName := exportName;
    var importType := AllExportsImported;
    if specifier.local.Some? {
      importName := specifier.local.value;
      importType := IndividualImport;
    }
    var record := NewImportVariableObject(Some(exportName), importName, importType, importedFileAddress);
    current.importedVariablesMetadata := current.importedVariablesMetadata[importName := record];
  }

  /** The leading run of `ObjectProperty` elements of a pattern. */
  function ObjectPropertyPrefix(properties: seq<PatternElement>): (r: seq<PatternElement>)
    ensures |r| <= |properties| && r == properties[..|r|]
    ensures forall k :: 0 <= k < |r| ==> r[k].ObjectProperty?
    ensures |r| < |properties| ==> !properties[|r|].ObjectProperty?
  {
    if properties == [] || !properties[0].ObjectProperty? then []
    else [properties[0]] + ObjectPropertyPrefix(properties[1..])
  }

  /** Local name to imported name, for the `ObjectProperty` elements of `properties`; a later element wins. */
  function ImportedNamesByLocal(properties: seq<PatternElement>): map<string, string> {
    if properties == [] then map[]
    else
      var last := properties[|properties| - 1];
      var earlier := ImportedNamesByLocal(properties[..|properties| - 1]);
      if last.ObjectProperty? then earlier[last.value := last.key] else earlier
  }

  /**
   * `setImportedVariablesDuringImportStage`: `const X = require(m)` records an
   * import of the whole table; `const {a: b} = require(m)` records `b` as an
   * import of `a` for each property. A property that is not an
   * `ObjectProperty` (a rest element) makes the source read `.name` of
   * `undefined`: the TypeError is not caught there, so the method stops and
   * returns false, keeping the records written before it.
   */
  method SetImportedVariablesDuringImportStage(node: Option<Node>, current: CurrentFileMetadata,
                                               importedFileAddress: string)
    returns (completed: bool)
    modifies current
    ensures completed <==> !(node.Some? && node.value.ObjectPattern?)
                           || ObjectPropertyPrefix(node.value.properties) == node.value.properties
    ensures node.Some? && node.value.Identifier? ==>
            && node.value.name in current.importedVariablesMetadata
            && var record := current.importedVariablesMetadata[node.value.name];
            && IsNewImportRecord(record, None, node.value.name, AllExportsImported, importedFileAddress)
            && fresh(record.referenceCountObject)
            && current.importedVariablesMetadata == old(current.importedVariablesMetadata)[node.value.name := record]
    ensures node.Some? && node.value.ObjectPattern? ==>
            ObjectPatternRecorded(node.value.properties, old(current.importedVariablesMetadata),
                                  current.importedVariablesMetadata, importedFileAddress)
            && (forall v :: v in ImportedNamesByLocal(ObjectPropertyPrefix(node.value.properties)) ==>
                  fresh(current.importedVariablesMetadata[v].referenceCountObject))
    ensures !(node.Some? && (node.value.Identifier? || node.value.ObjectPattern?)) ==>
            current.importedVariablesMetadata == old(current.importedVariablesMetadata)
    ensures current.importedVariables == old(current.importedVariables)
    ensures current.exportedVariables == old(current.exportedVariables)
  {
    completed := true;
    if node.None? {
      return;
    }
    match node.value
    case Identifier(localName) =>
      var record := NewImportVariableObject(None, localName, AllExportsImported, importedFileAddress);
      current.importedVariablesMetadata := current.importedVariablesMetadata[localName := record];
    case ObjectPattern(properties) =>
      completed := SetImportedVariablesFromObjectPattern(properties, current, importedFileAddress);
    case _ =>
  }

  /**
   * The records an object pattern leaves: one per local name of its leading
   * `ObjectProperty` elements, a fresh record naming the imported key, and
   * every other record as it was.
   */
  ghost predicate ObjectPatternRecorded(properties: seq<PatternElement>, before: map<string, ImportRecord>,
                                        after: map<string, ImportRecord>, importedFileAddress: string)
    reads set v | v in after :: after[v].referenceCountObject
  {
    var names := ImportedNamesByLocal(ObjectPropertyPrefix(properties));
    && after.Keys == before.Keys + names.Keys
    && (forall v :: v in names ==>
          IsNewImportRecord(after[v], Some(names[v]), v, IndividualImport, importedFileAddress))
    && (forall v :: v in before && v !in names ==> after[v] == before[v])
  }

  /** The loop over the properties of `const {a: b, ...} = require(m)`. */
  method SetImportedVariablesFromObjectPattern(properties: seq<PatternElement>, current: CurrentFileMetadata,
                                               importedFileAddress: string)
    returns (completed: bool)
    modifies current`importedVariablesMetadata
    ensures completed <==> ObjectPropertyPrefix(properties) == properties
    ensures ObjectPatternRecorded(properties, old(current.importedVariablesMetadata),
                                  current.importedVariablesMetadata, importedFileAddress)
    ensures forall v :: v in ImportedNamesByLocal(ObjectPropertyPrefix(properties)) ==>
              fresh(current.importedVariablesMetadata[v].referenceCountObject)
  {
    var prefix := ObjectPropertyPrefix(properties);
    ghost var before := current.importedVariablesMetadata;
    var i := 0;
    while i < |properties|
      invariant 0 <= i <= |prefix|
      invariant properties[..i] == prefix[..i]
      invariant var names := ImportedNamesByLocal(prefix[..i]);
                && current.importedVariablesMetadata.Keys == before.Keys + names.Keys
                && (forall v :: v in names ==>
                      && IsNewImportRecord(current.importedVariablesMetadata[v], Some(names[v]), v,
                                           IndividualImport, importedFileAddress)
                      && fresh(current.importedVariablesMetadata[v].referenceCountObject))
                && (forall v :: v in before && v !in names ==> current.importedVariablesMetadata[v] == before[v])
    {
      if !properties[i].ObjectProperty? {
        assert |prefix| == i;
        assert prefix[..i] == prefix;
        completed := false;
        return;
      }
      var localName := properties[i].value;
      var importedName := properties[i].key;
      var record := NewImportVariableObject(Some(importedName), localName, IndividualImport, importedFileAddress);
      current.importedVariablesMetadata := current.importedVariablesMetadata[localName := record];
      assert prefix[..i + 1][..i] == prefix[..i];
      assert ImportedNamesByLocal(prefix[..i + 1]) == ImportedNamesByLocal(prefix[..i])[localName := importedName];
      i := i + 1;
    }
    assert prefix[..i] == prefix && properties[..i] == properties;
    completed := true;
  }

  /** `getLocalNameFromProperty`. */
  function LocalNameFromProperty(property: PatternElement): string {
    match property
    case ObjectProperty(_, value) => value
    case IdentifierElement(name) => name
    case OtherElement => "default"
  }

  /** `getImportedNameFromProperty`. */
  function ImportedNameFromProperty(property: PatternElement): string {
    match property
    case ObjectProperty(key, _) => key
    case IdentifierElement(name) => name
    case OtherElement => "default"
  }

  /**
   * How many references a destructured binding stands for: two when the
   * pattern is an object pattern and the local name is the imported name,
   * one otherwise.
   */
  function ImportReferenceCount(property: PatternElement, isObjectPattern: bool): (w: nat)
    ensures w == 2 <==> isObjectPattern && (!property.ObjectProperty? || property.key == property.value)
    ensures w == 1 || w == 2
  {
    if ImportedNameFromProperty(property) == LocalNameFromProperty(property) && isObjectPattern then 2 else 1
  }

  // ---------------------------------------------------------------------
  // Call sites and path arguments
  // ---------------------------------------------------------------------

  /** `{type, address}` as `getValueFromStringOrTemplateLiteral` returns it. */
  datatype ImportedAddress =
    | File(address: string)
    | UnresolvedType(address: string)
    | NoAddress

  /**
   * `getCallExpressionFromNode`: the node itself, the object of a member
   * access, or the argument of an `await`; `None` (undefined) otherwise.
   */
  function CallExpressionFromNode(node: Option<Node>): (r: Option<Node>)
    ensures r.Some? <==> node.Some? && (node.value.CallExpression? || node.value.MemberExpression?
                                        || node.value.AwaitExpression?)
    ensures r.Some? && node.value.CallExpression? ==> r.value == node.value
    ensures r.Some? && node.value.MemberExpression? ==> r.value == node.value.obj
    ensures r.Some? && node.value.AwaitExpression? ==> r.value == node.value.argument
  {
    match node
    case None => None
    case Some(n) =>
      match n
      case CallExpression(_) => Some(n)
      case MemberExpression(obj, _) => Some(obj)
      case AwaitExpression(argument) => Some(argument)
      case _ => None
  }

  /** `getValueFromStringOrTemplateLiteral`. */
  function ValueFromStringOrTemplateLiteral(argument: Node): (r: ImportedAddress)
    ensures r.File? <==> argument.StringLiteral?
    ensures r.File? ==> r.address == argument.value
    ensures r.UnresolvedType? <==> argument.TemplateLiteral? && |argument.quasis| > 0
    ensures r.UnresolvedType? ==> r.address == LastFeasibleAddress(argument.quasis[0])
  {
    match argument
    case StringLiteral(value) => File(value)
    case TemplateLiteral(quasis) =>
      if |quasis| > 0 then UnresolvedType(LastFeasibleAddress(quasis[0])) else NoAddress
    case _ => NoAddress
  }

  /** Whether a node has an `arguments` array: a call, an optional call or a `new` expression. */
  predicate HasArguments(node: Node) {
    node.CallExpression? || node.OptionalCallExpression? || node.NewExpression?
  }

  /**
   * `getImportedFileAddress`: the classified first argument of the node
   * `getCallExpressionFromNode` finds. That node need not be a call: any node
   * with an `arguments` array serves. `None` where the source throws: no node
   * was found, it has no `arguments`, or they are empty.
   */
  function ImportedFileAddress(node: Option<Node>): (r: Option<ImportedAddress>)
    ensures r.Some? <==> var found := CallExpressionFromNode(node);
                         found.Some? && HasArguments(found.value) && |found.value.arguments| > 0
    ensures r.Some? ==> r.value == ValueFromStringOrTemplateLiteral(CallExpressionFromNode(node).value.arguments[0])
  {
    match CallExpressionFromNode(node)
    case Some(found) =>
      if HasArguments(found) && |found.arguments| > 0 then Some(ValueFromStringOrTemplateLiteral(found.arguments[0]))
      else None
    case None => None
  }

  /**
   * Only a call, a member access on or an await of a node with arguments
   * (`require(m).x`, `await import(m)`, `new Worker(m).x`) yields an address;
   * a `new` expression on its own does not.
   */
  lemma ImportedFileAddressShapes(node: Node)
    ensures ImportedFileAddress(Some(node)).Some? <==>
            || (node.CallExpression? && |node.arguments| > 0)
            || (node.MemberExpression? && HasArguments(node.obj) && |node.obj.arguments| > 0)
            || (node.AwaitExpression? && HasArguments(node.argument) && |node.argument.arguments| > 0)
    ensures ImportedFileAddress(Some(MemberExpression(NewExpression([StringLiteral("./w.js")]), Identifier("x"))))
            == Some(File("./w.js"))
    ensures ImportedFileAddress(Some(NewExpression([StringLiteral("./w.js")]))).None?
  {
  }

  /** ``require(`/pages/${id}/index`)`` resolves to the unresolved static address `/pages`. */
  lemma TemplateLiteralRequireExample()
    ensures ImportedFileAddress(Some(CallExpression([TemplateLiteral(["/pages/", "/index"])])))
            == Some(UnresolvedType("/pages"))
  {
    LastFeasibleAddressExamples();
  }

  // ---------------------------------------------------------------------
  // getLastFeasibleAddress: givenPath.replace(/(.{2,})\/(.*)$/, "$1")
  // ---------------------------------------------------------------------

  /**
   * The pattern matches `p` starting at `i` with its `\/` at `j`: at least
   * two characters before the slash, and no line terminator (which `.`
   * refuses) anywhere from `i` to the end.
   */
  ghost predicate FeasibleMatch(p: string, i: int, j: int) {
    0 <= i && i + 2 <= j < |p| && p[j] == '/' && NoLineTerminatorIn(p, i, |p|)
  }

  /** A slash at `j` with two characters before it and no line terminator from `j - 2` up to `n`. */
  ghost predicate CutCandidate(p: string, j: int, n: int)
    requires n <= |p|
  {
    2 <= j < n && p[j] == '/' && NoLineTerminatorIn(p, j - 2, n)
  }

  /** The rightmost cut candidate below `n`, scanning back until a line terminator. */
  function FeasibleCut(p: string, n: nat): (r: Option<nat>)
    requires n <= |p|
    ensures r.Some? ==> CutCandidate(p, r.value, n)
    ensures r.Some? ==> forall j :: r.value < j < n ==> !CutCandidate(p, j, n)
    ensures r.None? ==> forall j :: !CutCandidate(p, j, n)
  {
    if n == 0 || IsLineTerminator(p[n - 1]) then None
    else if n - 1 >= 2 && p[n - 1] == '/' && !IsLineTerminator(p[n - 2]) && !IsLineTerminator(p[n - 3]) then
      Some(n - 1)
    else
      assert !CutCandidate(p, n - 1, n);
      assert forall j :: CutCandidate(p, j, n) && j < n - 1 ==> CutCandidate(p, j, n - 1);
      FeasibleCut(p, n - 1)
  }

  /**
   * `getLastFeasibleAddress`: the path cut just before the last slash that
   * has at least two characters before it (within the final line), or the
   * path unchanged if there is none.
   */
  function LastFeasibleAddress(givenPath: string): (r: string)
    ensures |r| <= |givenPath| && r == givenPath[..|r|]
    ensures r != givenPath ==> 2 <= |r| && givenPath[|r|] == '/'
  {
    match FeasibleCut(givenPath, |givenPath|)
    case Some(j) => givenPath[..j]
    case None => givenPath
  }

  /** The index just after the last line terminator of `p`, or 0. */
  function AfterLastLineTerminator(p: string, n: nat): (k: nat)
    requires n <= |p|
    ensures k <= n && NoLineTerminatorIn(p, k, n)
    ensures k > 0 ==> IsLineTerminator(p[k - 1])
  {
    if n == 0 then 0
    else if IsLineTerminator(p[n - 1]) then n
    else AfterLastLineTerminator(p, n - 1)
  }

  /**
   * `getLastFeasibleAddress` is the regular-expression replacement: with no
   * match the path is unchanged; otherwise the leftmost match, taken as
   * long as possible, is replaced by its first group, which leaves the
   * path up to that match's slash.
   */
  lemma LastFeasibleAddressIsRegexReplacement(p: string)
    ensures (forall i, j :: !FeasibleMatch(p, i, j)) ==> LastFeasibleAddress(p) == p
    ensures (exists i, j :: FeasibleMatch(p, i, j)) ==>
            exists i, j :: && FeasibleMatch(p, i, j) && LastFeasibleAddress(p) == p[..j]
                           && (forall i', j' :: FeasibleMatch(p, i', j') ==> i <= i' && j' <= j)
  {
    var k := AfterLastLineTerminator(p, |p|);
    forall i, j | FeasibleMatch(p, i, j)
      ensures k <= i && CutCandidate(p, j, |p|)
    {
    }
    match FeasibleCut(p, |p|)
    case None =>
    case Some(j) =>
      assert FeasibleMatch(p, k, j);
  }

  /** `/pages/` becomes `/pages`; `/a/b/` becomes `/a/b` and then `/a`, so the cut is not idempotent. */
  lemma LastFeasibleAddressExamples()
    ensures LastFeasibleAddress("/pages/") == "/pages"
    ensures LastFeasibleAddress("/a/b/") == "/a/b"
    ensures LastFeasibleAddress("/a/b") == "/a"
    ensures LastFeasibleAddress("/a") == "/a"
  {
    assert FeasibleCut("/pages/", 7) == Some(6);
    assert FeasibleCut("/a/b/", 5) == Some(4);
    assert FeasibleCut("/a/b", 3) == Some(2) by {
      assert FeasibleCut("/a/b", 4) == FeasibleCut("/a/b", 3);
    }
    assert FeasibleCut("/a/b", 4) == Some(2);
    assert FeasibleCut("/a", 2) == None by {
      assert FeasibleCut("/a", 1) == FeasibleCut("/a", 0);
    }
  }

  // ---------------------------------------------------------------------
  // Magic comments and chunk membership
  // ---------------------------------------------------------------------

  /** A magic comment's value: a quoted chunk name, or a pattern kept as its source text. */
  datatype CommentValue = ChunkName(name: string) | Pattern(source: string)

  /** What `parseComment` returns: `{valid: false}` or `{key, value, valid: true}`. */
  datatype ParsedComment = Invalid | Valid(key: string, value: CommentValue)

  predicate IsQuote(c: char) {
    c == '\'' || c == '"'
  }

  /** The middle of `value` when `/^(['"])(.*)\1$/` matches it. */
  function QuotedContent(value: string): Option<string> {
    if 2 <= |value| && IsQuote(value[0]) && value[|value| - 1] == value[0]
       && NoLineTerminatorIn(value, 1, |value| - 1)
    then Some(value[1..|value| - 1])
    else None
  }

  /** The first line terminator at or after `lo`, or the end of `s`. */
  function LineEnd(s: string, lo: nat): (e: nat)
    requires lo <= |s|
    ensures lo <= e <= |s| && NoLineTerminatorIn(s, lo, e)
    ensures e < |s| ==> IsLineTerminator(s[e])
    decreases |s| - lo
  {
    if lo == |s| || IsLineTerminator(s[lo]) then lo else LineEnd(s, lo + 1)
  }

  /** The last slash in `s[lo..hi]`. */
  function LastSlash(s: string, lo: nat, hi: nat): (r: Option<nat>)
    requires lo <= hi <= |s|
    ensures r.Some? ==> lo <= r.value < hi && s[r.value] == '/'
    ensures r.Some? ==> forall t :: r.value < t < hi ==> s[t] != '/'
    ensures r.None? ==> forall t :: lo <= t < hi ==> s[t] != '/'
    decreases hi - lo
  {
    if lo == hi then None
    else if s[hi - 1] == '/' then Some(hi - 1)
    else LastSlash(s, lo, hi - 1)
  }

  /**
   * `value.replace(/^\/(.*)\/(.*)/, "$1")`: for a value starting with a
   * slash, the text between it and the last slash of that line, followed by
   * whatever comes after the line; any other value unchanged.
   */
  function PatternSource(value: string): string {
    if |value| >= 1 && value[0] == '/' then
      var e := LineEnd(value, 1);
      match LastSlash(value, 1, e)
      case Some(j) => value[1..j] + value[e..]
      case None => value
    else value
  }

  /**
   * `parseComment`: a comment with exactly one colon is a key and a value,
   * both trimmed. A quoted value gives the chunk name inside the quotes;
   * any other value is taken as a regular expression, whatever its shape.
   */
  function ParseComment(comment: string): (r: ParsedComment)
    ensures r.Valid? <==> Count(comment, ':') == 1
  {
    var commentSubParts := Split(comment, ':');
    SplitLength(comment, ':');
    if |commentSubParts| == 2 then
      var key := Trim(commentSubParts[0]);
      var value := Trim(commentSubParts[1]);
      match QuotedContent(value)
      case Some(inner) => Valid(key, ChunkName(inner))
      case None => Valid(key, Pattern(PatternSource(value)))
    else Invalid
  }

  /** `key:value` with no other colon parses to the trimmed key and the meaning of the trimmed value. */
  lemma ParseCommentOfKeyValue(key: string, value: string)
    requires ':' !in key && ':' !in value
    ensures ParseComment(key + ":" + value)
            == Valid(Trim(key), match QuotedContent(Trim(value))
                                case Some(inner) => ChunkName(inner)
                                case None => Pattern(PatternSource(Trim(value))))
  {
    var parts := [key, value];
    SplitJoin(parts, ':');
    assert Join(parts, ':') == key + ":" + value;
  }

  /** A value in matching quotes names a chunk: `name: 'home'` gives `home`. */
  lemma ParseCommentQuotedValue(key: string, value: string, quote: char, inner: string)
    requires ':' !in key && ':' !in value
    requires IsQuote(quote) && Trim(value) == [quote] + inner + [quote]
    requires NoLineTerminatorIn(inner, 0, |inner|)
    ensures ParseComment(key + ":" + value) == Valid(Trim(key), ChunkName(inner))
  {
    ParseCommentOfKeyValue(key, value);
    QuotedContentOfQuoted(quote, inner);
  }

  /** Text between two equal quotes on one line is the quoted content. */
  lemma QuotedContentOfQuoted(quote: char, inner: string)
    requires IsQuote(quote) && NoLineTerminatorIn(inner, 0, |inner|)
    ensures QuotedContent([quote] + inner + [quote]) == Some(inner)
  {
    var v := [quote] + inner + [quote];
    assert v[1..|v| - 1] == inner;
    assert forall k :: 1 <= k < |v| - 1 ==> v[k] == inner[k - 1];
  }

  /**
   * On one line, the pattern text of a value is what lies between its leading
   * slash and its last slash; a value without both slashes is kept whole.
   */
  lemma PatternSourceOfOneLine(v: string)
    requires NoLineTerminatorIn(v, 0, |v|)
    ensures (v == [] || v[0] != '/' || (forall t :: 1 <= t < |v| ==> v[t] != '/')) ==> PatternSource(v) == v
    ensures v != [] && v[0] == '/' ==>
              forall j :: 1 <= j < |v| && v[j] == '/' && (forall t :: j < t < |v| ==> v[t] != '/')
                          ==> PatternSource(v) == v[1..j]
  {
    if v != [] && v[0] == '/' {
      assert LineEnd(v, 1) == |v|;
      match LastSlash(v, 1, |v|)
      case Some(j) =>
        assert v[|v|..] == [];
        assert v[1..j] + v[|v|..] == v[1..j];
      case None =>
    }
  }

  /** An unquoted single-line value is taken as a pattern, never as a chunk name. */
  lemma ParseCommentUnquotedValue(key: string, value: string)
    requires ':' !in key && ':' !in value
    requires QuotedContent(Trim(value)).None?
    ensures ParseComment(key + ":" + value) == Valid(Trim(key), Pattern(PatternSource(Trim(value))))
  {
    ParseCommentOfKeyValue(key, value);
  }

  /** `getNewWebpackConfigurationObject`: the chunk a file is split into is named after the file. */
  function NewWebpackConfigurationObject(fileLocation: string): (chunk: ChunkDescriptor)
    ensures chunk.webpackChunkName == fileLocation
  {
    ChunkDescriptor(fileLocation)
  }

  /**
   * The files mapping after `updateWebpackConfigurationOfImportedFile`: the
   * file's chunk map gains the chunk under its name; with no record for the
   * file the update is dropped.
   */
  function WithChunk(filesMapping: map<string, FileRecord>, givenFileAddress: string,
                     chunk: ChunkDescriptor): (r: map<string, FileRecord>)
  {
    if givenFileAddress in filesMapping then
      var record := filesMapping[givenFileAddress];
      filesMapping[givenFileAddress := record.(webpackChunkConfiguration
        := record.webpackChunkConfiguration[chunk.webpackChunkName := chunk])]
    else filesMapping
  }

  /** `updateWebpackConfigurationOfImportedFile`, on the run's state. */
  method UpdateWebpackConfigurationOfImportedFile(givenFileAddress: string, chunk: ChunkDescriptor,
                                                  files: FilesMetadata)
    modifies files`filesMapping
    ensures files.filesMapping == WithChunk(old(files.filesMapping), givenFileAddress, chunk)
  {
    if givenFileAddress in files.filesMapping {
      var record := files.filesMapping[givenFileAddress];
      var currentWebpackConfiguration := record.webpackChunkConfiguration;
      currentWebpackConfiguration := currentWebpackConfiguration[chunk.webpackChunkName := chunk];
      files.filesMapping := files.filesMapping[givenFileAddress := record.(webpackChunkConfiguration
        := currentWebpackConfiguration)];
    }
  }

  /**
   * Recording a chunk sets exactly that chunk's key of that file's map: every
   * other file, every other field and every other chunk key is untouched, and
   * a missing file is left missing.
   */
  lemma WithChunkSetsOneKey(filesMapping: map<string, FileRecord>, givenFileAddress: string,
                            chunk: ChunkDescriptor)
    ensures var r := WithChunk(filesMapping, givenFileAddress, chunk);
            && r.Keys == filesMapping.Keys
            && (forall f :: f in filesMapping && f != givenFileAddress ==> r[f] == filesMapping[f])
            && (givenFileAddress in filesMapping ==>
                  var before := filesMapping[givenFileAddress];
                  var after := r[givenFileAddress];
                  && after.fileLocation == before.fileLocation && after.isEntryFile == before.isEntryFile
                  && after.exportedVariables == before.exportedVariables
                  && after.webpackChunkConfiguration.Keys
                     == before.webpackChunkConfiguration.Keys + {chunk.webpackChunkName}
                  && after.webpackChunkConfiguration[chunk.webpackChunkName] == chunk
                  && (forall c :: c in before.webpackChunkConfiguration && c != chunk.webpackChunkName
                        ==> after.webpackChunkConfiguration[c] == before.webpackChunkConfiguration[c]))
  {
  }

  /** Recording the same chunk twice is the same as recording it once. */
  lemma WithChunkIdempotent(filesMapping: map<string, FileRecord>, givenFileAddress: string,
                            chunk: ChunkDescriptor)
    ensures WithChunk(WithChunk(filesMapping, givenFileAddress, chunk), givenFileAddress, chunk)
            == WithChunk(filesMapping, givenFileAddress, chunk)
  {
    if givenFileAddress in filesMapping {
      var once := WithChunk(filesMapping, givenFileAddress, chunk);
      var m := once[givenFileAddress].webpackChunkConfiguration;
      assert m[chunk.webpackChunkName := chunk] == m;
    }
  }

  /** A file recorded with its own chunk descriptor belongs to the chunk named after it. */
  lemma OwnChunkIsNamedAfterFile(filesMapping: map<string, FileRecord>, fileLocation: string)
    requires fileLocation in filesMapping
    ensures var r := WithChunk(filesMapping, fileLocation, NewWebpackConfigurationObject(fileLocation));
            fileLocation in r[fileLocation].webpackChunkConfiguration
            && r[fileLocation].webpackChunkConfiguration[fileLocation].webpackChunkName == fileLocation
  {
  }

  // ---------------------------------------------------------------------
  // Reference counts of require and dynamic import bindings
  // ---------------------------------------------------------------------

  const UpdateReferenceCount := "UPDATE_REFERENCE_COUNT"
  const DontUpdateReferenceCount := "DONT_UPDATE_REFERENCE_COUNT"

  /** What a reference-count update writes: the current file's import slots and the entity arena. */
  datatype CountState = CountState(importedVariables: map<string, ExportValue>,
                                   entities: map<EntityId, ExportEntity>)

  /** `weight * (addReferences ? 1 : -1)`. */
  function Signed(weight: int, addReferences: bool): (r: int)
    ensures r == weight || r == -weight
  {
    if addReferences then weight else -weight
  }

  /** The outcome of an update: whether it returned without an uncaught TypeError, and the state it left. */
  datatype CountUpdate = CountUpdate(completed: bool, state: CountState)

  /**
   * `value.referenceCount += delta`: only an entity has a count; on an
   * exports table the write lands on a property the model does not track.
   */
  function AddToCount(entities: map<EntityId, ExportEntity>, value: ExportValue, delta: int)
    : (r: map<EntityId, ExportEntity>)
    ensures r.Keys == entities.Keys
    ensures forall id :: id in entities ==>
              r[id] == entities[id].(referenceCount := entities[id].referenceCount
                                                       + (if value == Entity(id) then delta else 0))
  {
    if value.Entity? && value.id in entities then
      entities[value.id := entities[value.id].(referenceCount := entities[value.id].referenceCount + delta)]
    else entities
  }

  /** `filesMapping[importedFileAddress].exportedVariables`; None when the lookup throws. */
  function ExportsOf(filesMapping: map<string, FileRecord>, importedFileAddress: string): Option<ExportValue> {
    if importedFileAddress in filesMapping then Some(filesMapping[importedFileAddress].exportedVariables)
    else None
  }

  /**
   * One destructured binding: the local slot gets the named export, and under
   * `DONT_UPDATE_REFERENCE_COUNT` the export's count drops by the binding's
   * weight, upwards when references are added. A throw inside the `try` leaves what was
   * already written.
   */
  function PatternStep(st: CountState, property: PatternElement, isObjectPattern: bool,
                       exports: Option<ExportValue>, addReferences: bool, dontUpdate: bool): CountState
  {
    match exports
    case None => st
    case Some(table) =>
      match Member(table, ImportedNameFromProperty(property))
      case None => st
      case Some(value) =>
        var importedVariables := st.importedVariables[LocalNameFromProperty(property) := value];
        var delta := Signed(ImportReferenceCount(property, isObjectPattern), addReferences);
        CountState(importedVariables, if dontUpdate then AddToCount(st.entities, value, -delta) else st.entities)
  }

  /**
   * Which slot a binding writes and which export it reads: `{a: b}` puts the
   * export `a` into `b`, a plain `a` (in either pattern) puts `a` into `a`,
   * and any other element reads and writes `default`. A lookup that throws
   * writes nothing.
   */
  lemma PatternStepBindsNames(st: CountState, property: PatternElement, isObjectPattern: bool,
                              table: ExportValue, addReferences: bool, dontUpdate: bool)
    ensures var r := PatternStep(st, property, isObjectPattern, Some(table), addReferences, dontUpdate);
            && (property.ObjectProperty? && Member(table, property.key).Some? ==>
                  r.importedVariables == st.importedVariables[property.value := Member(table, property.key).value])
            && (property.IdentifierElement? && Member(table, property.name).Some? ==>
                  r.importedVariables == st.importedVariables[property.name := Member(table, property.name).value])
            && (property.OtherElement? && Member(table, "default").Some? ==>
                  r.importedVariables == st.importedVariables["default" := Member(table, "default").value])
            && (table.Undefined? ==> r == st)
  {
  }

  /** The bindings of `properties`, in order. */
  function PatternUpdate(st: CountState, properties: seq<PatternElement>, isObjectPattern: bool,
                         exports: Option<ExportValue>, addReferences: bool, dontUpdate: bool): (r: CountState)
    ensures r.entities.Keys == st.entities.Keys
    decreases |properties|
  {
    if properties == [] then st
    else
      var earlier := PatternUpdate(st, properties[..|properties| - 1], isObjectPattern, exports, addReferences, dontUpdate);
      PatternStep(earlier, properties[|properties| - 1], isObjectPattern, exports, addReferences, dontUpdate)
  }

  /** `updateImportedVariablesReferenceCountInRequireOrDynamicImportStatements`, on values. */
  function ReferenceCountUpdate(node: Option<Node>, addReferences: bool, st: CountState,
                                filesMapping: map<string, FileRecord>, importedFileAddress: string,
                                updateType: string): (r: CountUpdate)
    ensures r.state.entities.Keys == st.entities.Keys
    ensures node.Some? ==> r.completed
    ensures !r.completed ==> r.state == st
  {
    var exports := ExportsOf(filesMapping, importedFileAddress);
    var dontUpdate := updateType == DontUpdateReferenceCount;
    match node
    case None =>
      if exports.None? then CountUpdate(false, st)
      else
        (match Member(exports.value, "default")
         case None => CountUpdate(false, st)
         case Some(Undefined) => CountUpdate(false, st)
         case Some(value) => CountUpdate(true, st.(entities := AddToCount(st.entities, value, Signed(1, addReferences)))))
    case Some(Identifier(localEntityName)) =>
      if exports.None? then CountUpdate(true, st)
      else
        var importedVariables := st.importedVariables[localEntityName := exports.value];
        CountUpdate(true, CountState(importedVariables, if dontUpdate then AddToCount(st.entities, exports.value, -Signed(1, addReferences))
                                                          else st.entities))
    case Some(ObjectPattern(properties)) =>
      CountUpdate(true, PatternUpdate(st, properties, true, exports, addReferences, dontUpdate))
    case Some(ArrayPattern(elements)) =>
      CountUpdate(true, PatternUpdate(st, elements, false, exports, addReferences, dontUpdate))
    case Some(_) => CountUpdate(true, st)
  }

  /**
   * `updateImportedVariablesReferenceCountInRequireOrDynamicImportStatements`.
   * With no binding node (`import "./a.css"`, a bare `require`) the default
   * export gains one reference, and a missing file or default export throws
   * out of the method. Otherwise the binding is written into the current
   * file's import slots and, only for `DONT_UPDATE_REFERENCE_COUNT`, the
   * count is taken back down, each destructured name by its weight.
   */
  method UpdateImportedVariablesReferenceCountInRequireOrDynamicImportStatements(
    node: Option<Node>, addReferences: bool, current: CurrentFileMetadata, importedFileAddress: string,
    files: FilesMetadata, updateType: string := UpdateReferenceCount)
    returns (completed: bool)
    modifies current`importedVariables, files`entities
    ensures CountUpdate(completed, CountState(current.importedVariables, files.entities))
            == ReferenceCountUpdate(node, addReferences, CountState(old(current.importedVariables), old(files.entities)),
                                    files.filesMapping, importedFileAddress, updateType)
  {
    var valueToMultiplyWith: int := if addReferences then 1 else -1;
    completed := true;
    if node.None? {
      if importedFileAddress !in files.filesMapping {
        completed := false;
        return;
      }
      var exportedVariable := Member(files.filesMapping[importedFileAddress].exportedVariables, "default");
      if exportedVariable.None? || exportedVariable.value.Undefined? {
        completed := false;
        return;
      }
      files.entities := AddToCount(files.entities, exportedVariable.value, valueToMultiplyWith);
    } else if node.value.Identifier? {
      var localEntityName := node.value.name;
      if importedFileAddress in files.filesMapping {
        current.importedVariables := current.importedVariables[localEntityName
          := files.filesMapping[importedFileAddress].exportedVariables];
        if updateType == DontUpdateReferenceCount {
          files.entities := AddToCount(files.entities, current.importedVariables[localEntityName], -valueToMultiplyWith);
        }
      }
    } else if node.value.ObjectPattern? || node.value.ArrayPattern? {
      var isObjectPattern := node.value.ObjectPattern?;
      var patternToCheck := if isObjectPattern then node.value.properties else node.value.elements;
      UpdatePatternReferenceCounts(patternToCheck, isObjectPattern, addReferences, current, importedFileAddress,
                                   files, updateType);
    }
  }

  /** The loop over the bindings of an object or array pattern, one `try` per binding. */
  method UpdatePatternReferenceCounts(patternToCheck: seq<PatternElement>, isObjectPattern: bool, addReferences: bool,
                                      current: CurrentFileMetadata, importedFileAddress: string,
                                      files: FilesMetadata, updateType: string)
    modifies current`importedVariables, files`entities
    ensures CountState(current.importedVariables, files.entities)
            == PatternUpdate(CountState(old(current.importedVariables), old(files.entities)), patternToCheck,
                             isObjectPattern, ExportsOf(files.filesMapping, importedFileAddress), addReferences,
                             updateType == DontUpdateReferenceCount)
  {
    ghost var start := CountState(current.importedVariables, files.entities);
    var i := 0;
    while i < |patternToCheck|
      invariant 0 <= i <= |patternToCheck|
      invariant CountState(current.importedVariables, files.entities)
                == PatternUpdate(start, patternToCheck[..i], isObjectPattern,
                                 ExportsOf(files.filesMapping, importedFileAddress), addReferences,
                                 updateType == DontUpdateReferenceCount)
    {
      UpdateBindingReferenceCount(patternToCheck[i], isObjectPattern, addReferences, current, importedFileAddress,
                                  files, updateType);
      PatternUpdatePrefix(start, patternToCheck, i, isObjectPattern, ExportsOf(files.filesMapping, importedFileAddress),
                          addReferences, updateType == DontUpdateReferenceCount);
      i := i + 1;
    }
    assert patternToCheck[..|patternToCheck|] == patternToCheck;
  }

  /** One turn of that loop: bind the named export and, under `DONT_UPDATE_REFERENCE_COUNT`, take back its weight. */
  method UpdateBindingReferenceCount(property: PatternElement, isObjectPattern: bool, addReferences: bool,
                                     current: CurrentFileMetadata, importedFileAddress: string,
                                     files: FilesMetadata, updateType: string)
    modifies current`importedVariables, files`entities
    ensures CountState(current.importedVariables, files.entities)
            == PatternStep(CountState(old(current.importedVariables), old(files.entities)), property,
                           isObjectPattern, ExportsOf(files.filesMapping, importedFileAddress), addReferences,
                           updateType == DontUpdateReferenceCount)
  {
    var valueToMultiplyWith: int := if addReferences then 1 else -1;
    var importedEntityName := ImportedNameFromProperty(property);
    var localEntityName := LocalNameFromProperty(property);
    var importReferenceCount: int := ImportReferenceCount(property, isObjectPattern);
    if importedFileAddress in files.filesMapping {
      var exported := Member(files.filesMapping[importedFileAddress].exportedVariables, importedEntityName);
      if exported.Some? {
        current.importedVariables := current.importedVariables[localEntityName := exported.value];
        if updateType == DontUpdateReferenceCount {
          assert importReferenceCount * valueToMultiplyWith == Signed(importReferenceCount, addReferences) by {
            if addReferences { assert valueToMultiplyWith == 1; } else { assert valueToMultiplyWith == -1; }
          }
          files.entities := AddToCount(files.entities, exported.value, -(importReferenceCount * valueToMultiplyWith));
        }
      }
    }
  }

  /** The bindings up to and including the `i`-th are those before it, then the `i`-th. */
  lemma PatternUpdatePrefix(st: CountState, properties: seq<PatternElement>, i: int, isObjectPattern: bool,
                            exports: Option<ExportValue>, addReferences: bool, dontUpdate: bool)
    requires 0 <= i < |properties|
    ensures PatternUpdate(st, properties[..i + 1], isObjectPattern, exports, addReferences, dontUpdate)
            == PatternStep(PatternUpdate(st, properties[..i], isObjectPattern, exports, addReferences, dontUpdate),
                           properties[i], isObjectPattern, exports, addReferences, dontUpdate)
  {
    assert properties[..i + 1][..i] == properties[..i];
  }

  /** The references the bindings of a pattern stand for on entity `id`: each binding to it counts its weight. */
  function PatternWeight(properties: seq<PatternElement>, isObjectPattern: bool, exports: ExportValue,
                         id: EntityId): int
    decreases |properties|
  {
    if properties == [] then 0
    else
      var last := properties[|properties| - 1];
      PatternWeight(properties[..|properties| - 1], isObjectPattern, exports, id)
      + (if Member(exports, ImportedNameFromProperty(last)) == Some(Entity(id))
         then ImportReferenceCount(last, isObjectPattern) else 0)
  }

  /**
   * Under `DONT_UPDATE_REFERENCE_COUNT` a pattern moves every entity's count
   * by its weight in the pattern, and changes nothing
   * else about any entity.
   */
  lemma PatternUpdateMovesCountsByWeight(st: CountState, properties: seq<PatternElement>,
                                         isObjectPattern: bool, exports: ExportValue, addReferences: bool)
    ensures var r := PatternUpdate(st, properties, isObjectPattern, Some(exports), addReferences, true).entities;
            && r.Keys == st.entities.Keys
            && forall id :: id in r ==>
                 r[id] == st.entities[id].(referenceCount := st.entities[id].referenceCount
                                           - Signed(PatternWeight(properties, isObjectPattern, exports, id), addReferences))
  {
    forall id | id in st.entities
      ensures var r := PatternUpdate(st, properties, isObjectPattern, Some(exports), addReferences, true).entities;
              r[id] == st.entities[id].(referenceCount := st.entities[id].referenceCount
                                        - Signed(PatternWeight(properties, isObjectPattern, exports, id), addReferences))
    {
      PatternUpdateMovesCountByWeight(st, properties, isObjectPattern, exports, addReferences, id);
    }
  }

  /** The same for one entity, by induction on the pattern. */
  lemma {:induction false} PatternUpdateMovesCountByWeight(st: CountState, properties: seq<PatternElement>,
                                                           isObjectPattern: bool, exports: ExportValue,
                                                           addReferences: bool, id: EntityId)
    requires id in st.entities
    ensures var r := PatternUpdate(st, properties, isObjectPattern, Some(exports), addReferences, true).entities;
            r[id] == st.entities[id].(referenceCount := st.entities[id].referenceCount
                                      - Signed(PatternWeight(properties, isObjectPattern, exports, id), addReferences))
    decreases |properties|
  {
    if properties != [] {
      var init := properties[..|properties| - 1];
      var last := properties[|properties| - 1];
      PatternUpdateMovesCountByWeight(st, init, isObjectPattern, exports, addReferences, id);
      var mid := PatternUpdate(st, init, isObjectPattern, Some(exports), addReferences, true);
      PatternStepMovesCount(mid, last, isObjectPattern, exports, addReferences);
      var r := PatternUpdate(st, properties, isObjectPattern, Some(exports), addReferences, true).entities;
      assert r == PatternStep(mid, last, isObjectPattern, Some(exports), addReferences, true).entities;
      var step := if Member(exports, ImportedNameFromProperty(last)) == Some(Entity(id))
                  then ImportReferenceCount(last, isObjectPattern) else 0;
      var earlier := PatternWeight(init, isObjectPattern, exports, id);
      assert PatternWeight(properties, isObjectPattern, exports, id) == earlier + step;
      MovesCompose(st.entities[id], mid.entities[id], r[id], earlier, step, addReferences);
      assert r[id] == st.entities[id].(referenceCount := st.entities[id].referenceCount
                                       - Signed(PatternWeight(properties, isObjectPattern, exports, id), addReferences));
    } else {
      assert PatternWeight(properties, isObjectPattern, exports, id) == 0;
      assert PatternUpdate(st, properties, isObjectPattern, Some(exports), addReferences, true) == st;
    }
  }

  /** Moving a count by one weight and then by another moves it by their sum. */
  lemma MovesCompose(e0: ExportEntity, e1: ExportEntity, e2: ExportEntity, a: int, b: int, addReferences: bool)
    requires e1 == e0.(referenceCount := e0.referenceCount - Signed(a, addReferences))
    requires e2 == e1.(referenceCount := e1.referenceCount - Signed(b, addReferences))
    ensures e2 == e0.(referenceCount := e0.referenceCount - Signed(a + b, addReferences))
  {
  }

  /** One binding moves the count of the entity it names by its weight, and no other. */
  lemma PatternStepMovesCount(st: CountState, property: PatternElement, isObjectPattern: bool,
                              exports: ExportValue, addReferences: bool)
    ensures var r := PatternStep(st, property, isObjectPattern, Some(exports), addReferences, true).entities;
            && r.Keys == st.entities.Keys
            && forall id :: id in r ==>
                 r[id] == st.entities[id].(referenceCount := st.entities[id].referenceCount
                                           - Signed(if Member(exports, ImportedNameFromProperty(property))
                                                       == Some(Entity(id))
                                                    then ImportReferenceCount(property, isObjectPattern) else 0,
                                                    addReferences))
  {
  }

  /** Without `DONT_UPDATE_REFERENCE_COUNT` a pattern only writes import slots. */
  lemma {:induction false} PatternUpdateKeepsCounts(st: CountState, properties: seq<PatternElement>,
                                                    isObjectPattern: bool, exports: Option<ExportValue>,
                                                    addReferences: bool)
    ensures PatternUpdate(st, properties, isObjectPattern, exports, addReferences, false).entities == st.entities
    decreases |properties|
  {
    if properties != [] {
      PatternUpdateKeepsCounts(st, properties[..|properties| - 1], isObjectPattern, exports, addReferences);
    }
  }

  /** Only `DONT_UPDATE_REFERENCE_COUNT` moves counts when there is a binding node. */
  lemma CountsMoveOnlyWhenTakenBack(node: Node, addReferences: bool, st: CountState,
                                    filesMapping: map<string, FileRecord>, importedFileAddress: string,
                                    updateType: string)
    requires updateType != DontUpdateReferenceCount
    ensures ReferenceCountUpdate(Some(node), addReferences, st, filesMapping, importedFileAddress, updateType)
            == CountUpdate(true, ReferenceCountUpdate(Some(node), addReferences, st, filesMapping,
                                                      importedFileAddress, updateType).state.(entities := st.entities))
  {
    var exports := ExportsOf(filesMapping, importedFileAddress);
    match node
    case ObjectPattern(properties) => PatternUpdateKeepsCounts(st, properties, true, exports, addReferences);
    case ArrayPattern(elements) => PatternUpdateKeepsCounts(st, elements, false, exports, addReferences);
    case _ =>
  }

  /**
   * Adding the references of a statement and then subtracting them again
   * (as a re-traversal does) gives back every entity exactly as it was.
   */
  lemma ReferenceCountUpdateIsReversible(node: Option<Node>, st: CountState,
                                         filesMapping: map<string, FileRecord>, importedFileAddress: string,
                                         updateType: string)
    ensures var added := ReferenceCountUpdate(node, true, st, filesMapping, importedFileAddress, updateType);
            var removed := ReferenceCountUpdate(node, false, added.state, filesMapping, importedFileAddress, updateType);
            removed.completed == added.completed && removed.state.entities == st.entities
  {
    var exports := ExportsOf(filesMapping, importedFileAddress);
    var dontUpdate := updateType == DontUpdateReferenceCount;
    match node
    case None =>
      BareUpdateIsReversible(st, filesMapping, importedFileAddress, updateType);
    case Some(Identifier(name)) =>
      IdentifierUpdateIsReversible(name, st, filesMapping, importedFileAddress, updateType);
    case Some(ObjectPattern(properties)) =>
      PatternUpdateIsReversible(st, properties, true, exports, dontUpdate);
    case Some(ArrayPattern(elements)) =>
      PatternUpdateIsReversible(st, elements, false, exports, dontUpdate);
    case Some(_) =>
  }

  /** A bare import adds one reference to the default export and the reverse pass takes it off. */
  lemma BareUpdateIsReversible(st: CountState, filesMapping: map<string, FileRecord>, importedFileAddress: string,
                               updateType: string)
    ensures var added := ReferenceCountUpdate(None, true, st, filesMapping, importedFileAddress, updateType);
            var removed := ReferenceCountUpdate(None, false, added.state, filesMapping, importedFileAddress, updateType);
            removed.completed == added.completed && removed.state.entities == st.entities
  {
    var exports := ExportsOf(filesMapping, importedFileAddress);
    if exports.Some? {
      var value := Member(exports.value, "default");
      if value.Some? && !value.value.Undefined? {
        AddToCountCancels(st.entities, value.value, 1);
      }
    }
  }

  /** A whole-module binding under `DONT_UPDATE_REFERENCE_COUNT` takes one reference off, and the reverse pass puts it back. */
  lemma IdentifierUpdateIsReversible(name: string, st: CountState, filesMapping: map<string, FileRecord>,
                                     importedFileAddress: string, updateType: string)
    ensures var node := Some(Identifier(name));
            var added := ReferenceCountUpdate(node, true, st, filesMapping, importedFileAddress, updateType);
            var removed := ReferenceCountUpdate(node, false, added.state, filesMapping, importedFileAddress, updateType);
            removed.completed == added.completed && removed.state.entities == st.entities
  {
    var exports := ExportsOf(filesMapping, importedFileAddress);
    if exports.Some? && updateType == DontUpdateReferenceCount {
      AddToCountCancels(st.entities, exports.value, -1);
    }
  }

  /** Adding to a count and taking the same amount off again cancels out. */
  lemma AddToCountCancels(entities: map<EntityId, ExportEntity>, value: ExportValue, delta: int)
    ensures AddToCount(AddToCount(entities, value, delta), value, -delta) == entities
  {
    var r := AddToCount(AddToCount(entities, value, delta), value, -delta);
    forall id | id in entities
      ensures r[id] == entities[id]
    {
    }
  }

  /** The bindings of a pattern, added and then taken back, leave every entity as it was. */
  lemma PatternUpdateIsReversible(st: CountState, properties: seq<PatternElement>, isObjectPattern: bool,
                                  exports: Option<ExportValue>, dontUpdate: bool)
    ensures var added := PatternUpdate(st, properties, isObjectPattern, exports, true, dontUpdate);
            PatternUpdate(added, properties, isObjectPattern, exports, false, dontUpdate).entities == st.entities
  {
    var added := PatternUpdate(st, properties, isObjectPattern, exports, true, dontUpdate);
    if exports.None? {
      PatternUpdateWithoutExportsIsIdentity(st, properties, isObjectPattern, true, dontUpdate);
      PatternUpdateWithoutExportsIsIdentity(added, properties, isObjectPattern, false, dontUpdate);
    } else if !dontUpdate {
      PatternUpdateKeepsCounts(st, properties, isObjectPattern, exports, true);
      PatternUpdateKeepsCounts(added, properties, isObjectPattern, exports, false);
    } else {
      WeightedPatternIsReversible(st, properties, isObjectPattern, exports.value);
    }
  }

  /** Under `DONT_UPDATE_REFERENCE_COUNT` each entity moves down by its weight and then back up by it. */
  lemma WeightedPatternIsReversible(st: CountState, properties: seq<PatternElement>, isObjectPattern: bool,
                                    exports: ExportValue)
    ensures var added := PatternUpdate(st, properties, isObjectPattern, Some(exports), true, true);
            PatternUpdate(added, properties, isObjectPattern, Some(exports), false, true).entities == st.entities
  {
    var added := PatternUpdate(st, properties, isObjectPattern, Some(exports), true, true);
    var removed := PatternUpdate(added, properties, isObjectPattern, Some(exports), false, true);
    PatternUpdateMovesCountsByWeight(st, properties, isObjectPattern, exports, true);
    PatternUpdateMovesCountsByWeight(added, properties, isObjectPattern, exports, false);
    forall id | id in st.entities
      ensures removed.entities[id] == st.entities[id]
    {
      var w := PatternWeight(properties, isObjectPattern, exports, id);
      assert added.entities[id] == st.entities[id].(referenceCount := st.entities[id].referenceCount - w);
    }
  }

  /** With no record for the imported file every binding's lookup throws and is swallowed. */
  lemma {:induction false} PatternUpdateWithoutExportsIsIdentity(st: CountState, properties: seq<PatternElement>,
                                                                 isObjectPattern: bool, addReferences: bool,
                                                                 dontUpdate: bool)
    ensures PatternUpdate(st, properties, isObjectPattern, None, addReferences, dontUpdate) == st
    decreases |properties|
  {
    if properties != [] {
      PatternUpdateWithoutExportsIsIdentity(st, properties[..|properties| - 1], isObjectPattern, addReferences, dontUpdate);
    }
  }

  /**
   * The weights at work: `const {a} = require(m)` stands for two references
   * to `a`, `const {a: b} = require(m)` and `const [a] = require(m)` for one.
   */
  lemma DestructuringWeights(name: string, other: string, id: EntityId, addReferences: bool, st: CountState,
                             filesMapping: map<string, FileRecord>, importedFileAddress: string)
    requires importedFileAddress in filesMapping
    requires filesMapping[importedFileAddress].exportedVariables.Table?
    requires name in filesMapping[importedFileAddress].exportedVariables.entries
    requires filesMapping[importedFileAddress].exportedVariables.entries[name] == Entity(id)
    requires id in st.entities && other != name
    ensures var m := if addReferences then 1 else -1;
            var before := st.entities[id].referenceCount;
            && ReferenceCountUpdate(Some(ObjectPattern([ObjectProperty(name, name)])), addReferences, st, filesMapping,
                                    importedFileAddress, DontUpdateReferenceCount).state.entities[id].referenceCount
               == before - 2 * m
            && ReferenceCountUpdate(Some(ObjectPattern([ObjectProperty(name, other)])), addReferences, st, filesMapping,
                                    importedFileAddress, DontUpdateReferenceCount).state.entities[id].referenceCount
               == before - m
            && ReferenceCountUpdate(Some(ArrayPattern([IdentifierElement(name)])), addReferences, st, filesMapping,
                                    importedFileAddress, DontUpdateReferenceCount).state.entities[id].referenceCount
               == before - m
  {
    var exports := filesMapping[importedFileAddress].exportedVariables;
    assert Member(exports, name) == Some(Entity(id));
    assert ExportsOf(filesMapping, importedFileAddress) == Some(exports);
    OneBindingMovesCount(st, ObjectProperty(name, name), true, exports, id, addReferences);
    OneBindingMovesCount(st, ObjectProperty(name, other), true, exports, id, addReferences);
    OneBindingMovesCount(st, IdentifierElement(name), false, exports, id, addReferences);
    assert Signed(2, addReferences) == 2 * (if addReferences then 1 else -1);
    PatternStatementUpdate([ObjectProperty(name, name)], true, addReferences, st, filesMapping, importedFileAddress,
                           DontUpdateReferenceCount);
    PatternStatementUpdate([ObjectProperty(name, other)], true, addReferences, st, filesMapping, importedFileAddress,
                           DontUpdateReferenceCount);
    PatternStatementUpdate([IdentifierElement(name)], false, addReferences, st, filesMapping, importedFileAddress,
                           DontUpdateReferenceCount);
  }

  /** A destructuring statement always completes, with the bindings of its pattern applied in order. */
  lemma PatternStatementUpdate(properties: seq<PatternElement>, isObjectPattern: bool, addReferences: bool,
                               st: CountState, filesMapping: map<string, FileRecord>, importedFileAddress: string,
                               updateType: string)
    ensures var node := if isObjectPattern then ObjectPattern(properties) else ArrayPattern(properties);
            ReferenceCountUpdate(Some(node), addReferences, st, filesMapping, importedFileAddress, updateType)
            == CountUpdate(true, PatternUpdate(st, properties, isObjectPattern,
                                               ExportsOf(filesMapping, importedFileAddress), addReferences,
                                               updateType == DontUpdateReferenceCount))
  {
  }

  /** A pattern of one binding moves an entity's count by that binding's weight on it. */
  lemma OneBindingMovesCount(st: CountState, property: PatternElement, isObjectPattern: bool, exports: ExportValue,
                             id: EntityId, addReferences: bool)
    requires id in st.entities
    ensures PatternUpdate(st, [property], isObjectPattern, Some(exports), addReferences, true).entities[id].referenceCount
            == st.entities[id].referenceCount
               - Signed(if Member(exports, ImportedNameFromProperty(property)) == Some(Entity(id))
                        then ImportReferenceCount(property, isObjectPattern) else 0, addReferences)
  {
    assert [property][..0] == [];
    PatternStepMovesCount(st, property, isObjectPattern, exports, addReferences);
  }

  /**
   * A statement with no binding (`import "./a.css"`) completes exactly when
   * the file has a default export, and then moves that export's count by one
   * in the direction asked, touching no other entity and no import slot.
   */
  lemma BareImportMovesDefaultByOne(addReferences: bool, st: CountState, filesMapping: map<string, FileRecord>,
                                    importedFileAddress: string, updateType: string)
    ensures var r := ReferenceCountUpdate(None, addReferences, st, filesMapping, importedFileAddress, updateType);
            && (r.completed <==> importedFileAddress in filesMapping
                                 && Member(filesMapping[importedFileAddress].exportedVariables, "default").Some?
                                 && !Member(filesMapping[importedFileAddress].exportedVariables, "default").value.Undefined?)
            && r.state.importedVariables == st.importedVariables
            && r.state.entities.Keys == st.entities.Keys
            && forall id :: id in st.entities ==>
                 r.state.entities[id].referenceCount
                 == st.entities[id].referenceCount
                    + (if r.completed && Member(filesMapping[importedFileAddress].exportedVariables, "default")
                                         == Some(Entity(id))
                       then (if addReferences then 1 else -1) else 0)
  {
  }

  /** `const X = require(m)` binds `X` to the file's exports as they are, not a copy. */
  lemma WholeRequireAliasesExports(localEntityName: string, addReferences: bool, st: CountState,
                                   filesMapping: map<string, FileRecord>, importedFileAddress: string,
                                   updateType: string)
    requires importedFileAddress in filesMapping
    ensures var r := ReferenceCountUpdate(Some(Identifier(localEntityName)), addReferences, st, filesMapping,
                                          importedFileAddress, updateType);
            && r.completed
            && r.state.importedVariables == st.importedVariables[localEntityName
                                              := filesMapping[importedFileAddress].exportedVariables]
  {
  }

  // ---------------------------------------------------------------------
  // Export statements
  // ---------------------------------------------------------------------

  /** A member of `{...}` on the right of `module.exports =`. */
  datatype ObjectExpressionProperty =
    | Property(keyName: string, valueName: Option<string>)
    | IncompleteProperty

  /** What `export ...` declares, by the shape `getValuesFromStatement` tests for. */
  datatype Declaration =
    | NamedDeclaration(name: string)
    | VariableDeclaration(declaratorNames: seq<Option<string>>)
    | DeclarationWithId(id: string)
    | AssignmentDeclaration(left: Option<string>)
    | OtherDeclaration

  /** The node `getValuesFromStatement` is given. */
  datatype ExportNode =
    | IdentifierExport(name: string)
    | ObjectExpression(properties: seq<ObjectExpressionProperty>)
    | ExportStatement(specifiers: seq<ExportSpecifierNode>, declaration: Option<Declaration>)
    | OtherExpression

  /**
   * `{[local]: exported}`: a local name and the name it is exported under;
   * the empty exported name stands for "the whole export value".
   */
  datatype ExportPair = ExportPair(local: string, exported: string)

  const WholeExport := ""

  /** The keyed properties of an object expression, in order. */
  function KeyedProperties(properties: seq<ObjectExpressionProperty>): (r: seq<ObjectExpressionProperty>)
    ensures |r| <= |properties|
    ensures forall k :: 0 <= k < |r| ==> r[k].Property?
    ensures forall p :: p in r <==> p in properties && p.Property?
  {
    if properties == [] then []
    else (if properties[0].Property? then [properties[0]] else []) + KeyedProperties(properties[1..])
  }

  /**
   * The pair `getValuesFromStatement` builds for a keyed property, as written:
   * `{[key.name]: value.name}`, which makes the key the local name and the
   * value's identifier the exported name.
   */
  function PropertyPairAsWritten(property: ObjectExpressionProperty): ExportPair
    requires property.Property?
  {
    ExportPair(property.keyName, property.valueName.GetOr(property.keyName))
  }

  function ObjectExpressionPairsAsWritten(properties: seq<ObjectExpressionProperty>): (r: seq<ExportPair>)
    ensures |r| <= |properties|
  {
    if properties == [] then []
    else (if properties[0].Property? then [PropertyPairAsWritten(properties[0])] else [])
         + ObjectExpressionPairsAsWritten(properties[1..])
  }

  /**
   * The pair a keyed property stands for: `module.exports = {a: b}` exports
   * the local `b` under the name `a` (and `{a}` or `{a: f()}` exports `a`).
   */
  function PropertyPair(property: ObjectExpressionProperty): ExportPair
    requires property.Property?
  {
    ExportPair(property.valueName.GetOr(property.keyName), property.keyName)
  }

  function ObjectExpressionPairs(properties: seq<ObjectExpressionProperty>): (r: seq<ExportPair>)
    ensures |r| <= |properties|
  {
    if properties == [] then []
    else (if properties[0].Property? then [PropertyPair(properties[0])] else [])
         + ObjectExpressionPairs(properties[1..])
  }

  /**
   * As written, `module.exports = {foo: bar}` records `bar` as the exported
   * name and `foo` as the local one, so `require(m).foo` finds no export and
   * the entity is named after the key.
   */
  lemma ObjectExpressionAsWrittenSwapsNames()
    ensures ObjectExpressionPairsAsWritten([Property("foo", Some("bar"))]) == [ExportPair("foo", "bar")]
    ensures ObjectExpressionPairs([Property("foo", Some("bar"))]) == [ExportPair("bar", "foo")]
  {
  }

  /** Whether no keyed property binds an identifier under a different name. */
  predicate NoRenaming(properties: seq<ObjectExpressionProperty>) {
    forall k :: 0 <= k < |properties| && properties[k].Property?
                ==> properties[k].valueName.None? || properties[k].valueName == Some(properties[k].keyName)
  }

  /**
   * The two readings differ exactly when some property renames: they agree
   * iff every keyed property is shorthand or has no identifier value.
   */
  lemma {:induction false} ObjectExpressionReadingsAgreeIffNoRenaming(properties: seq<ObjectExpressionProperty>)
    ensures ObjectExpressionPairsAsWritten(properties) == ObjectExpressionPairs(properties)
            <==> NoRenaming(properties)
  {
    if properties != [] {
      var rest := properties[1..];
      ObjectExpressionReadingsAgreeIffNoRenaming(rest);
      var written, corrected := ObjectExpressionPairsAsWritten(properties), ObjectExpressionPairs(properties);
      var head := properties[0];
      var headAgrees := !head.Property? || head.valueName.None? || head.valueName == Some(head.keyName);
      assert NoRenaming(properties) <==> headAgrees && NoRenaming(rest) by {
        if headAgrees && NoRenaming(rest) {
          forall k | 1 <= k < |properties| ensures properties[k] == rest[k - 1] { }
        }
      }
      if head.Property? {
        assert written == [PropertyPairAsWritten(head)] + ObjectExpressionPairsAsWritten(rest);
        assert corrected == [PropertyPair(head)] + ObjectExpressionPairs(rest);
        assert headAgrees <==> PropertyPairAsWritten(head) == PropertyPair(head);
        if written == corrected {
          assert written[0] == corrected[0];
          assert written[1..] == corrected[1..];
        }
      } else {
        assert written == ObjectExpressionPairsAsWritten(rest);
        assert corrected == ObjectExpressionPairs(rest);
      }
    }
  }

  function SpecifierPair(specifier: ExportSpecifierNode): ExportPair {
    ExportPair(specifier.local.GetOr(specifier.exported), specifier.exported)
  }

  function SpecifierPairs(specifiers: seq<ExportSpecifierNode>): (r: seq<ExportPair>)
    ensures |r| == |specifiers|
    ensures forall k :: 0 <= k < |r| ==> r[k] == SpecifierPair(specifiers[k])
  {
    if specifiers == [] then [] else [SpecifierPair(specifiers[0])] + SpecifierPairs(specifiers[1..])
  }

  function DeclaratorPairs(declaratorNames: seq<Option<string>>): (r: seq<ExportPair>)
    ensures |r| <= |declaratorNames|
  {
    if declaratorNames == [] then []
    else (if declaratorNames[0].Some? then [ExportPair(declaratorNames[0].value, declaratorNames[0].value)] else [])
         + DeclaratorPairs(declaratorNames[1..])
  }

  /**
   * `getValuesFromStatement`, as written: an object expression takes its pairs
   * from `ObjectExpressionPairsAsWritten`. `None` is the `undefined` the source
   * returns for `export default x = ...`, whose branch builds its array and
   * drops it; every other node yields an array.
   */
  function ValuesFromStatement(nodeToGetValues: ExportNode, exportType: string): (r: Option<seq<ExportPair>>)
    ensures r.None? <==> nodeToGetValues.ExportStatement? && nodeToGetValues.specifiers == []
                         && nodeToGetValues.declaration.Some? && nodeToGetValues.declaration.value.AssignmentDeclaration?
  {
    match nodeToGetValues
    case IdentifierExport(name) => Some([ExportPair(name, WholeExport)])
    case ObjectExpression(properties) => Some(ObjectExpressionPairsAsWritten(properties))
    case ExportStatement(specifiers, declaration) =>
      if |specifiers| > 0 then Some(SpecifierPairs(specifiers))
      else if declaration.None? then Some([])
      else
        (match declaration.value
         case NamedDeclaration(name) => Some([ExportPair(name, "default")])
         case VariableDeclaration(declaratorNames) => Some(DeclaratorPairs(declaratorNames))
         case DeclarationWithId(id) => Some([ExportPair(id, if exportType == "default" then "default" else id)])
         case AssignmentDeclaration(_) => None
         case OtherDeclaration => Some([ExportPair("default", "default")]))
    case OtherExpression => Some([])
  }

  /**
   * What `getValuesFromStatement` evidently means to compute: the same, except
   * that an object expression exports each local under its key.
   */
  function ValuesFromStatementIntended(nodeToGetValues: ExportNode, exportType: string): (r: Option<seq<ExportPair>>)
    ensures r.None? <==> ValuesFromStatement(nodeToGetValues, exportType).None?
  {
    match nodeToGetValues
    case ObjectExpression(properties) => Some(ObjectExpressionPairs(properties))
    case _ => ValuesFromStatement(nodeToGetValues, exportType)
  }

  /** The code and its intended reading part only on an object expression that renames. */
  lemma ValuesFromStatementReadingsAgree(nodeToGetValues: ExportNode, exportType: string)
    ensures ValuesFromStatement(nodeToGetValues, exportType) == ValuesFromStatementIntended(nodeToGetValues, exportType)
            <==> !nodeToGetValues.ObjectExpression? || NoRenaming(nodeToGetValues.properties)
  {
    if nodeToGetValues.ObjectExpression? {
      ObjectExpressionReadingsAgreeIffNoRenaming(nodeToGetValues.properties);
    }
  }

  /**
   * As written, `module.exports = {...}` records each keyed property with the
   * key as its local name and the value's identifier (or else the key) as its
   * exported name, and nothing else.
   */
  lemma {:induction false} ObjectExpressionPairsAsWrittenAreKeyedProperties(properties: seq<ObjectExpressionProperty>)
    ensures forall k :: 0 <= k < |properties| && properties[k].Property?
                        ==> PropertyPairAsWritten(properties[k]) in ObjectExpressionPairsAsWritten(properties)
    ensures forall pair :: pair in ObjectExpressionPairsAsWritten(properties)
                           ==> exists k :: 0 <= k < |properties| && properties[k].Property?
                                           && pair == PropertyPairAsWritten(properties[k])
    ensures |ObjectExpressionPairsAsWritten(properties)| == |KeyedProperties(properties)|
    ensures forall k :: 0 <= k < |KeyedProperties(properties)| ==>
                          ObjectExpressionPairsAsWritten(properties)[k] == PropertyPairAsWritten(KeyedProperties(properties)[k])
  {
    if properties != [] {
      ObjectExpressionPairsAsWrittenAreKeyedProperties(properties[1..]);
      if properties[0].Property? {
        var keyed := KeyedProperties(properties);
        assert keyed == [properties[0]] + KeyedProperties(properties[1..]);
        assert ObjectExpressionPairsAsWritten(properties)
               == [PropertyPairAsWritten(properties[0])] + ObjectExpressionPairsAsWritten(properties[1..]);
      }
      forall pair | pair in ObjectExpressionPairsAsWritten(properties)
        ensures exists k :: 0 <= k < |properties| && properties[k].Property? && pair == PropertyPairAsWritten(properties[k])
      {
        if pair !in ObjectExpressionPairsAsWritten(properties[1..]) {
          assert properties[0].Property? && pair == PropertyPairAsWritten(properties[0]);
        } else {
          var k :| 0 <= k < |properties[1..]| && properties[1..][k].Property? && pair == PropertyPairAsWritten(properties[1..][k]);
          assert properties[k + 1] == properties[1..][k];
        }
      }
      forall k | 0 <= k < |properties| && properties[k].Property?
        ensures PropertyPairAsWritten(properties[k]) in ObjectExpressionPairsAsWritten(properties)
      {
        if k > 0 {
          assert properties[1..][k - 1] == properties[k];
        }
      }
    }
  }

  /**
   * `module.exports = {...}` exports each keyed property under its key, as
   * the value's identifier or else the key itself, and nothing else.
   */
  lemma {:induction false} ObjectExpressionPairsAreKeyedProperties(properties: seq<ObjectExpressionProperty>)
    ensures forall k :: 0 <= k < |properties| && properties[k].Property?
                        ==> PropertyPair(properties[k]) in ObjectExpressionPairs(properties)
    ensures forall pair :: pair in ObjectExpressionPairs(properties)
                           ==> exists k :: 0 <= k < |properties| && properties[k].Property?
                                           && pair == PropertyPair(properties[k])
    ensures |ObjectExpressionPairs(properties)| == |KeyedProperties(properties)|
    ensures forall k :: 0 <= k < |KeyedProperties(properties)| ==>
                          ObjectExpressionPairs(properties)[k] == PropertyPair(KeyedProperties(properties)[k])
  {
    if properties != [] {
      ObjectExpressionPairsAreKeyedProperties(properties[1..]);
      if properties[0].Property? {
        var keyed := KeyedProperties(properties);
        assert keyed == [properties[0]] + KeyedProperties(properties[1..]);
        assert ObjectExpressionPairs(properties) == [PropertyPair(properties[0])] + ObjectExpressionPairs(properties[1..]);
      }
      forall pair | pair in ObjectExpressionPairs(properties)
        ensures exists k :: 0 <= k < |properties| && properties[k].Property? && pair == PropertyPair(properties[k])
      {
        if pair !in ObjectExpressionPairs(properties[1..]) {
          assert properties[0].Property? && pair == PropertyPair(properties[0]);
        } else {
          var k :| 0 <= k < |properties[1..]| && properties[1..][k].Property? && pair == PropertyPair(properties[1..][k]);
          assert properties[k + 1] == properties[1..][k];
        }
      }
      forall k | 0 <= k < |properties| && properties[k].Property?
        ensures PropertyPair(properties[k]) in ObjectExpressionPairs(properties)
      {
        if k > 0 {
          assert properties[1..][k - 1] == properties[k];
        }
      }
    }
  }

  /** `export const a = 1, {b} = c` exports exactly the declarators bound to a plain identifier, each under its own name. */
  lemma {:induction false} DeclaratorPairsAreNamedDeclarators(declaratorNames: seq<Option<string>>)
    ensures forall pair :: pair in DeclaratorPairs(declaratorNames)
                           <==> pair.local == pair.exported && Some(pair.local) in declaratorNames
  {
    if declaratorNames != [] {
      DeclaratorPairsAreNamedDeclarators(declaratorNames[1..]);
      assert declaratorNames == [declaratorNames[0]] + declaratorNames[1..];
      forall name | Some(name) in declaratorNames
        ensures ExportPair(name, name) in DeclaratorPairs(declaratorNames)
      {
        if Some(name) != declaratorNames[0] {
          assert Some(name) in declaratorNames[1..];
        }
      }
    }
  }

  /** Whether every name in an export node is non-empty, as identifier names are. */
  predicate NamesAreIdentifiers(nodeToGetValues: ExportNode) {
    match nodeToGetValues
    case IdentifierExport(name) => name != ""
    case ObjectExpression(properties) =>
      forall k :: 0 <= k < |properties| && properties[k].Property? ==>
        properties[k].keyName != "" && properties[k].valueName != Some("")
    case ExportStatement(specifiers, declaration) =>
      && (forall k :: 0 <= k < |specifiers| ==> specifiers[k].exported != "")
      && (declaration.Some? && declaration.value.VariableDeclaration? ==> Some("") !in declaration.value.declaratorNames)
      && (declaration.Some? && declaration.value.DeclarationWithId? ==> declaration.value.id != "")
    case OtherExpression => true
  }

  /**
   * The empty exported name, which makes `setExportVariable` replace the
   * whole export value, comes only from `module.exports = X`.
   */
  lemma WholeExportOnlyFromIdentifier(nodeToGetValues: ExportNode, exportType: string)
    requires NamesAreIdentifiers(nodeToGetValues)
    ensures var r := ValuesFromStatement(nodeToGetValues, exportType);
            r.Some? && (exists pair :: pair in r.value && pair.exported == WholeExport)
            <==> nodeToGetValues.IdentifierExport?
  {
    var r := ValuesFromStatement(nodeToGetValues, exportType);
    match nodeToGetValues
    case IdentifierExport(name) =>
      assert ExportPair(name, WholeExport) in r.value;
    case ObjectExpression(properties) =>
      ObjectExpressionPairsAsWrittenAreKeyedProperties(properties);
    case ExportStatement(specifiers, declaration) =>
      if |specifiers| == 0 && declaration.Some? && declaration.value.VariableDeclaration? {
        DeclaratorPairsAreNamedDeclarators(declaration.value.declaratorNames);
      }
    case OtherExpression =>
  }

  // ---------------------------------------------------------------------
  // Committing exports
  // ---------------------------------------------------------------------

  /** `getNewDefaultObject`: an entity first seen at `fileLocation`, with no references yet. */
  function NewDefaultObject(fileLocation: string, name: string := "default", isEntryFileObject: bool := false)
    : (e: ExportEntity)
    ensures e.localName == name && e.firstReferencedAt == fileLocation
    ensures e.referenceCount == 0 && e.isEntryFileObject == isEntryFileObject
    ensures e.individualFileReferencesMapping == map[]
  {
    ExportEntity(name, fileLocation, 0, isEntryFileObject, map[])
  }

  /** What committing an export writes: the file's export value and the entity arena. */
  datatype ExportState = ExportState(exportedVariables: ExportValue, entities: map<EntityId, ExportEntity>,
                                     nextEntityId: EntityId)

  /** The arena invariant: every id in use is below the next fresh one. */
  predicate ArenaValid(st: ExportState) {
    forall id :: id in st.entities ==> id < st.nextEntityId
  }

  /** The outcome of `setExportVariable`: whether it returned without throwing, and the state it left. */
  datatype ExportUpdate = ExportUpdate(completed: bool, state: ExportState)

  /**
   * `setExportVariable`, on values. With an import record for the local
   * name, the export slot (or, for the empty name, the whole export value)
   * is set to the very value the import resolves to, and that entity learns
   * which counter of this file refers to it and whether an entry file
   * exports it. Without one, the slot gets a fresh entity named after the
   * local name.
   */
  function CommitExport(st: ExportState, variable: ExportPair, importedVariable: Option<ImportRecord>,
                        fileLocation: string, isEntryFile: bool, filesMapping: map<string, FileRecord>)
    : (r: ExportUpdate)
    ensures r.state.entities.Keys >= st.entities.Keys && r.state.nextEntityId >= st.nextEntityId
    ensures r.state.entities.Keys <= st.entities.Keys + {st.nextEntityId} && r.state.nextEntityId <= st.nextEntityId + 1
    ensures !r.completed ==> r.state.entities == st.entities && r.state.nextEntityId == st.nextEntityId
  {
    match importedVariable
    case Some(record) =>
      (match ResolveImport(filesMapping, record.importedFrom, record.importType, KeyOf(record.name))
       case None => ExportUpdate(false, st)
       case Some(importedVariableToSet) =>
         var exportedVariables :=
           if variable.exported == WholeExport then Some(importedVariableToSet)
           else (match st.exportedVariables
                 case Table(entries) => Some(Table(entries[variable.exported := importedVariableToSet]))
                 case Entity(_) => Some(st.exportedVariables)
                 case Undefined => None);
         if exportedVariables.None? then ExportUpdate(false, st)
         else
           var stored := st.(exportedVariables := exportedVariables.value);
           match importedVariableToSet
           case Entity(id) =>
             if id in st.entities then
               var e := st.entities[id];
               var linked := e.(individualFileReferencesMapping
                                  := e.individualFileReferencesMapping[fileLocation := record.referenceCountObject],
                                isEntryFileObject := e.isEntryFileObject || isEntryFile);
               ExportUpdate(true, stored.(entities := st.entities[id := linked]))
             else ExportUpdate(true, stored)
           case _ => ExportUpdate(false, stored))
    case None =>
      var id := st.nextEntityId;
      var withEntity := st.(entities := st.entities[id := NewDefaultObject(fileLocation, variable.local)],
                           nextEntityId := id + 1);
      if variable.exported == WholeExport then ExportUpdate(true, withEntity.(exportedVariables := Entity(id)))
      else
        match st.exportedVariables
        case Table(entries) =>
          ExportUpdate(true, withEntity.(exportedVariables := Table(entries[variable.exported := Entity(id)])))
        case Entity(_) => ExportUpdate(true, st)
        case Undefined => ExportUpdate(false, st)
  }

  /** `setExportVariable`. A `false` result is the TypeError its caller swallows. */
  method SetExportVariable(current: CurrentFileMetadata, files: FilesMetadata, variable: ExportPair,
                           importedVariable: Option<ImportRecord>)
    returns (completed: bool)
    modifies current`exportedVariables, files`entities, files`nextEntityId
    ensures ExportUpdate(completed, ExportState(current.exportedVariables, files.entities, files.nextEntityId))
            == CommitExport(ExportState(old(current.exportedVariables), old(files.entities), old(files.nextEntityId)),
                            variable, importedVariable, current.fileLocation, current.isEntryFile, files.filesMapping)
  {
    completed := true;
    if importedVariable.Some? {
      var record := importedVariable.value;
      var resolved := ResolveImport(files.filesMapping, record.importedFrom, record.importType, KeyOf(record.name));
      if resolved.None? {
        return false;
      }
      var importedVariableToSet := resolved.value;
      if variable.exported != WholeExport {
        match current.exportedVariables
        case Table(entries) =>
          current.exportedVariables := Table(entries[variable.exported := importedVariableToSet]);
        case Entity(_) =>
        case Undefined =>
          return false;
      } else {
        current.exportedVariables := importedVariableToSet;
      }
      var exportedVariableToUpdate := importedVariableToSet;
      if !exportedVariableToUpdate.Entity? {
        return false;
      }
      var id := exportedVariableToUpdate.id;
      if id in files.entities {
        var e := files.entities[id];
        e := e.(individualFileReferencesMapping
                  := e.individualFileReferencesMapping[current.fileLocation := record.referenceCountObject]);
        e := e.(isEntryFileObject := e.isEntryFileObject || current.isEntryFile);
        files.entities := files.entities[id := e];
      }
    } else {
      var id := files.nextEntityId;
      if variable.exported != WholeExport {
        match current.exportedVariables
        case Table(entries) =>
          files.entities, files.nextEntityId := files.entities[id := NewDefaultObject(current.fileLocation, variable.local)], id + 1;
          current.exportedVariables := Table(entries[variable.exported := Entity(id)]);
        case Entity(_) =>
        case Undefined =>
          return false;
      } else {
        files.entities, files.nextEntityId := files.entities[id := NewDefaultObject(current.fileLocation, variable.local)], id + 1;
        current.exportedVariables := Entity(id);
      }
    }
  }

  /** The import record `setExportedVariablesFromArray` looks up for a pair's local name. */
  function ImportRecordFor(importedVariablesMetadata: map<string, ImportRecord>, variable: ExportPair)
    : Option<ImportRecord>
  {
    if variable.local in importedVariablesMetadata then Some(importedVariablesMetadata[variable.local]) else None
  }

  /** The state after committing `variables` in order, each throw swallowed. */
  function CommitAll(st: ExportState, variables: seq<ExportPair>, importedVariablesMetadata: map<string, ImportRecord>,
                     fileLocation: string, isEntryFile: bool, filesMapping: map<string, FileRecord>): ExportState
    decreases |variables|
  {
    if variables == [] then st
    else
      var last := variables[|variables| - 1];
      var earlier := CommitAll(st, variables[..|variables| - 1], importedVariablesMetadata, fileLocation, isEntryFile,
                               filesMapping);
      CommitExport(earlier, last, ImportRecordFor(importedVariablesMetadata, last), fileLocation, isEntryFile,
                   filesMapping).state
  }

  /** `setExportedVariablesFromArray`. */
  method SetExportedVariablesFromArray(exportedVariablesArray: seq<ExportPair>, current: CurrentFileMetadata,
                                       files: FilesMetadata)
    modifies current`exportedVariables, files`entities, files`nextEntityId
    ensures ExportState(current.exportedVariables, files.entities, files.nextEntityId)
            == CommitAll(ExportState(old(current.exportedVariables), old(files.entities), old(files.nextEntityId)),
                         exportedVariablesArray, current.importedVariablesMetadata, current.fileLocation,
                         current.isEntryFile, files.filesMapping)
  {
    ghost var start := ExportState(current.exportedVariables, files.entities, files.nextEntityId);
    var i := 0;
    while i < |exportedVariablesArray|
      invariant 0 <= i <= |exportedVariablesArray|
      invariant ExportState(current.exportedVariables, files.entities, files.nextEntityId)
                == CommitAll(start, exportedVariablesArray[..i], current.importedVariablesMetadata,
                             current.fileLocation, current.isEntryFile, files.filesMapping)
    {
      var variable := exportedVariablesArray[i];
      var importedVariable := ImportRecordFor(current.importedVariablesMetadata, variable);
      var _ := SetExportVariable(current, files, variable, importedVariable);
      assert exportedVariablesArray[..i + 1][..i] == exportedVariablesArray[..i];
      i := i + 1;
    }
    assert exportedVariablesArray[..|exportedVariablesArray|] == exportedVariablesArray;
  }

  /** How an existing entity may change when an export is committed: only its links and its entry flag. */
  predicate EntityGrows(before: ExportEntity, after: ExportEntity) {
    && after.localName == before.localName
    && after.firstReferencedAt == before.firstReferencedAt
    && after.referenceCount == before.referenceCount
    && (before.isEntryFileObject ==> after.isEntryFileObject)
    && after.individualFileReferencesMapping.Keys >= before.individualFileReferencesMapping.Keys
  }

  /**
   * Committing an export never touches a reference count or a name, keeps
   * every entity, never clears an entry flag, and keeps the arena valid.
   */
  lemma CommitExportKeepsEntities(st: ExportState, variable: ExportPair, importedVariable: Option<ImportRecord>,
                                  fileLocation: string, isEntryFile: bool, filesMapping: map<string, FileRecord>)
    requires ArenaValid(st)
    ensures var r := CommitExport(st, variable, importedVariable, fileLocation, isEntryFile, filesMapping).state;
            && ArenaValid(r)
            && forall id :: id in st.entities ==> EntityGrows(st.entities[id], r.entities[id])
  {
  }

  /** The same for a whole array of exports. */
  lemma {:induction false} CommitAllKeepsEntities(st: ExportState, variables: seq<ExportPair>,
                                                  importedVariablesMetadata: map<string, ImportRecord>,
                                                  fileLocation: string, isEntryFile: bool,
                                                  filesMapping: map<string, FileRecord>)
    requires ArenaValid(st)
    ensures var r := CommitAll(st, variables, importedVariablesMetadata, fileLocation, isEntryFile, filesMapping);
            && ArenaValid(r)
            && r.entities.Keys >= st.entities.Keys
            && forall id :: id in st.entities ==> EntityGrows(st.entities[id], r.entities[id])
    decreases |variables|
  {
    if variables != [] {
      var last := variables[|variables| - 1];
      var init := variables[..|variables| - 1];
      CommitAllKeepsEntities(st, init, importedVariablesMetadata, fileLocation, isEntryFile, filesMapping);
      var earlier := CommitAll(st, init, importedVariablesMetadata, fileLocation, isEntryFile, filesMapping);
      CommitExportKeepsEntities(earlier, last, ImportRecordFor(importedVariablesMetadata, last), fileLocation,
                                isEntryFile, filesMapping);
    }
  }

  /**
   * Re-exporting an imported entity stores that same entity (not a copy)
   * under the exported name, links this file's counter into it, and marks it
   * as an entry-file export when this file is an entry file.
   */
  lemma ReexportSharesImportedEntity(st: ExportState, variable: ExportPair, record: ImportRecord,
                                     fileLocation: string, isEntryFile: bool, filesMapping: map<string, FileRecord>,
                                     id: EntityId)
    requires ResolveImport(filesMapping, record.importedFrom, record.importType, KeyOf(record.name)) == Some(Entity(id))
    requires id in st.entities
    requires variable.exported == WholeExport || st.exportedVariables.Table?
    ensures var r := CommitExport(st, variable, Some(record), fileLocation, isEntryFile, filesMapping);
            && r.completed
            && (variable.exported == WholeExport ==> r.state.exportedVariables == Entity(id))
            && (variable.exported != WholeExport ==>
                  r.state.exportedVariables == Table(st.exportedVariables.entries[variable.exported := Entity(id)]))
            && r.state.entities[id].individualFileReferencesMapping[fileLocation] == record.referenceCountObject
            && r.state.entities[id].isEntryFileObject == (st.entities[id].isEntryFileObject || isEntryFile)
            && r.state.nextEntityId == st.nextEntityId
  {
  }

  /**
   * A local export gets a new entity, unknown before, first referenced here,
   * named after the local name, with no references.
   */
  lemma LocalExportAllocatesEntity(st: ExportState, variable: ExportPair, fileLocation: string, isEntryFile: bool,
                                   filesMapping: map<string, FileRecord>)
    requires ArenaValid(st)
    requires variable.exported == WholeExport || st.exportedVariables.Table?
    ensures var r := CommitExport(st, variable, None, fileLocation, isEntryFile, filesMapping);
            var id := st.nextEntityId;
            && r.completed
            && id !in st.entities
            && r.state.entities == st.entities[id := NewDefaultObject(fileLocation, variable.local)]
            && r.state.entities[id].referenceCount == 0
            && (variable.exported == WholeExport ==> r.state.exportedVariables == Entity(id))
            && (variable.exported != WholeExport ==>
                  r.state.exportedVariables == Table(st.exportedVariables.entries[variable.exported := Entity(id)]))
  {
  }

  // ---------------------------------------------------------------------
  // Property chains
  // ---------------------------------------------------------------------

  /** `x.y.z` read as its names: the head's name, then each property's. */
  function PropertyChain(node: Node, qualifiedName: bool): (r: seq<Option<string>>)
    ensures |r| >= 1
  {
    if qualifiedName && node.TSQualifiedName? then PropertyChain(node.left, qualifiedName) + [NameOf(node.right)]
    else if !qualifiedName && node.MemberExpression? then PropertyChain(node.obj, qualifiedName) + [NameOf(node.property)]
    else [NameOf(node)]
  }

  /**
   * `getAllPropertiesFromNode`: walks down a chain of one kind (qualified
   * type names when the node is one, member expressions otherwise), putting
   * each property name in front.
   */
  method AllPropertiesFromNode(node: Node) returns (allPropertiesArray: seq<Option<string>>)
    ensures allPropertiesArray == PropertyChain(node, node.TSQualifiedName?)
  {
    var qualifiedName := node.TSQualifiedName?;
    allPropertiesArray := [];
    var headNode := node;
    while (qualifiedName && headNode.TSQualifiedName?) || (!qualifiedName && headNode.MemberExpression?)
      invariant PropertyChain(node, qualifiedName) == PropertyChain(headNode, qualifiedName) + allPropertiesArray
      decreases headNode
    {
      if qualifiedName {
        allPropertiesArray := [NameOf(headNode.right)] + allPropertiesArray;
        headNode := headNode.left;
      } else {
        allPropertiesArray := [NameOf(headNode.property)] + allPropertiesArray;
        headNode := headNode.obj;
      }
    }
    allPropertiesArray := [NameOf(headNode)] + allPropertiesArray;
  }

  /** `names[0].names[1]...` as member expressions. */
  function MemberChain(names: seq<string>): Node
    requires |names| >= 1
  {
    if |names| == 1 then Identifier(names[0])
    else MemberExpression(MemberChain(names[..|names| - 1]), Identifier(names[|names| - 1]))
  }

  /** Reading a member chain built from identifiers gives back its names, in order. */
  lemma {:induction false} PropertyChainOfMemberChain(names: seq<string>)
    requires |names| >= 1
    ensures PropertyChain(MemberChain(names), false) == seq(|names|, k requires 0 <= k < |names| => Some(names[k]))
  {
    if |names| > 1 {
      PropertyChainOfMemberChain(names[..|names| - 1]);
    }
  }
}
