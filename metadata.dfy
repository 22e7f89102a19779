/**
 * The analyser's data model: export entities shared by identity, the tables
 * that hold them, import records, file records, and the two state objects the
 * source threads through every call (`filesMetadata` for the whole run,
 * `currentFileMetadata` for the file being walked).
 *
 * Export entities live in an arena owned by `FilesMetadata` and are referred
 * to by id everywhere else, so an update made through any holder is seen by
 * all holders, as with the shared objects of the source.
 */
module Metadata {
  import opened Wrappers

  type EntityId = nat

  /**
   * The `{referenceCount, exportReferenceCount}` object of an import record.
   * It is a heap object: `setExportVariable` links the very same object into
   * an export entity's per-importer map.
   */
  class ReferenceCountObject {
    var referenceCount: int
    var exportReferenceCount: int

    constructor (count: int)
      ensures referenceCount == count && exportReferenceCount == 0
    {
      referenceCount := count;
      exportReferenceCount := 0;
    }
  }

  /** `"ALL_EXPORTS_IMPORTED"` (the whole export table) or `"INDIVIDUAL_IMPORT"` (one name). */
  datatype ImportType = AllExportsImported | IndividualImport

  /**
   * What a file declares it imports under one local name. `name` is `None`
   * where the source stores `null` (a plain `const X = require(...)`).
   */
  datatype ImportRecord = ImportRecord(
    name: Option<string>,
    localName: string,
    importType: ImportType,
    importedFrom: string,
    referenceCountObject: ReferenceCountObject)

  /** The unit of usage accounting (the source's "default object"). */
  datatype ExportEntity = ExportEntity(
    localName: string,
    firstReferencedAt: string,
    referenceCount: int,
    isEntryFileObject: bool,
    individualFileReferencesMapping: map<string, ReferenceCountObject>)

  /**
   * What an export slot, an import slot or a whole `exportedVariables` holds:
   * one entity (by id), a table of further values, or `undefined`.
   */
  datatype ExportValue =
    | Entity(id: EntityId)
    | Table(entries: map<string, ExportValue>)
    | Undefined

  /** `value[key]` in JavaScript; `None` where reading a property of `undefined` throws a TypeError. */
  function Member(value: ExportValue, key: string): (r: Option<ExportValue>)
    ensures r.None? <==> value.Undefined?
    ensures value.Table? && key in value.entries ==> r == Some(value.entries[key])
    ensures value.Table? && key !in value.entries ==> r == Some(Undefined)
  {
    match value
    case Entity(_) => Some(Undefined)
    case Table(entries) => Some(if key in entries then entries[key] else Undefined)
    case Undefined => None
  }

  /** `{webpackChunkName}`: one chunk a file belongs to. */
  datatype ChunkDescriptor = ChunkDescriptor(webpackChunkName: string)

  /** The record `filesMetadata.filesMapping` keeps per file. */
  datatype FileRecord = FileRecord(
    fileLocation: string,
    isEntryFile: bool,
    exportedVariables: ExportValue,
    webpackChunkConfiguration: map<string, ChunkDescriptor>)

  /**
   * The record a file gets when it is first seen. utility/files.js, which
   * builds it, is not part of this model: the record is taken to start with
   * an empty export table and no chunk.
   */
  function DefaultFileObject(fileLocation: string): (r: FileRecord)
    ensures r.fileLocation == fileLocation && !r.isEntryFile
    ensures r.exportedVariables == Table(map[]) && r.webpackChunkConfiguration == map[]
  {
    FileRecord(fileLocation, false, Table(map[]), map[])
  }

  /** The run-wide state (`filesMetadata`). */
  class FilesMetadata {
    var filesMapping: map<string, FileRecord>
    var visitedFilesMapping: map<string, bool>
    var unparsableVistedFiles: int
    /** The arena of export entities and the next unused id. */
    var entities: map<EntityId, ExportEntity>
    var nextEntityId: EntityId
    /** The user's exclusion pattern, as the predicate `excludedFilesRegex.test`. */
    const excludedFilesRegex: string -> bool
    /** The files `traverseFileForCheckingUsage` was entered for, in order. */
    ghost var traversed: seq<string>

    ghost predicate Valid()
      reads this
    {
      forall id :: id in entities ==> id < nextEntityId
    }

    constructor (excludedFilesRegex: string -> bool)
      ensures Valid()
      ensures filesMapping == map[] && visitedFilesMapping == map[] && unparsableVistedFiles == 0
      ensures entities == map[] && traversed == []
      ensures this.excludedFilesRegex == excludedFilesRegex
    {
      this.excludedFilesRegex := excludedFilesRegex;
      filesMapping, visitedFilesMapping, unparsableVistedFiles := map[], map[], 0;
      entities, nextEntityId := map[], 0;
      traversed := [];
    }
  }

  /** The scratch state of the file being walked (`currentFileMetadata`). */
  class CurrentFileMetadata {
    const fileLocation: string
    const isEntryFile: bool
    var importedVariablesMetadata: map<string, ImportRecord>
    var importedVariables: map<string, ExportValue>
    var exportedVariables: ExportValue

    constructor (fileLocation: string, isEntryFile: bool)
      ensures this.fileLocation == fileLocation && this.isEntryFile == isEntryFile
      ensures importedVariablesMetadata == map[] && importedVariables == map[]
      ensures exportedVariables == Table(map[])
    {
      this.fileLocation, this.isEntryFile := fileLocation, isEntryFile;
      importedVariablesMetadata, importedVariables := map[], map[];
      exportedVariables := Table(map[]);
    }
  }
}
