/**
 * The Resource document (backend/src/models/Resource.js): its fields, the store-managed
 * identity and timestamps, and the schema's `required` validation that runs before a save.
 */
module ResourceModel {
  import opened Wrappers

  /** A MongoDB ObjectId, abstracted to a number. */
  type ObjectId = nat

  /**
   * The paths of the Resource schema as a document being built may carry them.
   * `tags` is an array of strings, present (possibly empty) on every document.
   */
  datatype ResourceRecord = ResourceRecord(
    title: Option<string>,
    description: Option<string>,
    tags: seq<string>,
    fileUrl: Option<string>,
    uploadedBy: Option<ObjectId>,
    originalFileName: Option<string>,
    fileSize: Option<int>,
    mimeType: Option<string>)

  /**
   * A saved document: the record plus what the store manages itself, `_id` and,
   * because of `timestamps: true`, `createdAt` and `updatedAt`.
   */
  datatype StoredResource = StoredResource(id: ObjectId, data: ResourceRecord, createdAt: int, updatedAt: int)

  /** Mongoose's `required` test for a String path: the value is present and is not the empty string. */
  predicate PresentString(s: Option<string>) {
    s.Some? && s.value != []
  }

  /**
   * The required paths that fail validation, in schema order. A save of a document
   * with any missing path is rejected with a validation error naming them.
   */
  function MissingRequired(r: ResourceRecord): seq<string> {
    (if PresentString(r.title) then [] else ["title"])
    + (if PresentString(r.fileUrl) then [] else ["fileUrl"])
    + (if r.uploadedBy.Some? then [] else ["uploadedBy"])
    + (if PresentString(r.originalFileName) then [] else ["originalFileName"])
  }

  /** The document passes schema validation. */
  predicate IsValid(r: ResourceRecord) {
    MissingRequired(r) == []
  }

  /** Each required path is reported exactly when it is missing, and nothing else is ever reported. */
  lemma MissingRequiredNamesMissingPaths(r: ResourceRecord)
    ensures "title" in MissingRequired(r) <==> !PresentString(r.title)
    ensures "fileUrl" in MissingRequired(r) <==> !PresentString(r.fileUrl)
    ensures "uploadedBy" in MissingRequired(r) <==> r.uploadedBy.None?
    ensures "originalFileName" in MissingRequired(r) <==> !PresentString(r.originalFileName)
    ensures forall p :: p in MissingRequired(r) ==> p in ["title", "fileUrl", "uploadedBy", "originalFileName"]
  {
  }

  /** A document is valid exactly when title, fileUrl, uploadedBy and originalFileName are all present. */
  lemma ValidIffRequiredPresent(r: ResourceRecord)
    ensures IsValid(r) <==>
      PresentString(r.title) && PresentString(r.fileUrl) && r.uploadedBy.Some? && PresentString(r.originalFileName)
  {
    MissingRequiredNamesMissingPaths(r);
  }

  /** description, tags, fileSize and mimeType are optional: changing them never changes the validation outcome. */
  lemma OptionalPathsDoNotMatter(r: ResourceRecord, description: Option<string>, tags: seq<string>,
                                 fileSize: Option<int>, mimeType: Option<string>)
    ensures MissingRequired(r.(description := description, tags := tags, fileSize := fileSize, mimeType := mimeType))
         == MissingRequired(r)
  {
  }
}
