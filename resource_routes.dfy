/**
 * The two handlers of backend/src/routes/resourceRoutes.js.
 *
 * POST /upload parses the comma-separated tags, builds a Resource from the form fields
 * and the uploaded file's name, saves it and answers 201, or 500 on any thrown error.
 * GET / returns every resource, or, given a `search` term, those with a tag matching the
 * term case-insensitively, newest first.
 *
 * The document store is foreign: a save's outcome, the `_id` and the creation time it
 * assigns are parameters, and the collection a query runs over is a sequence.
 */
module ResourceRoutes {
  import opened Wrappers
  import opened Text
  import opened Seqs
  import opened ResourceModel

  // ---------------------------------------------------------------------------
  // POST /upload
  // ---------------------------------------------------------------------------

  /** The text fields of the multipart form (`req.body`); a field the client did not send is `None`. */
  datatype UploadBody = UploadBody(title: Option<string>, description: Option<string>, tags: Option<string>)

  /** What the upload middleware leaves in `req.file`: the stored name it chose and the file's metadata. */
  datatype StoredFile = StoredFile(filename: string, originalName: string, size: nat, mimeType: string)

  /** Why an upload ended in the catch block: no file (`req.file` undefined), schema validation, or the store. */
  datatype UploadError = NoFile | ValidationFailed(paths: seq<string>) | SaveFailed

  /** The handler's answer: 201 `{ success: true, resource }` or 500 `{ success: false, message }`. */
  datatype UploadResponse = Created(resource: StoredResource) | UploadFailed(error: UploadError) {
    function Status(): int {
      if Created? then 201 else 500
    }
    predicate Success() {
      Created?
    }
  }

  const UploadsPrefix: string := "/uploads/"

  /** Trims every piece (`.map(t => t.trim())`). */
  function TrimAll(pieces: seq<string>): (r: seq<string>)
    ensures |r| == |pieces|
    ensures forall i :: 0 <= i < |r| ==> r[i] == Trim(pieces[i])
  {
    if pieces == [] then [] else [Trim(pieces[0])] + TrimAll(pieces[1..])
  }

  /** `tags ? tags.split(",").map(t => t.trim()) : []` — no empty-piece filtering and no lower-casing. */
  function ParseTags(tags: Option<string>): seq<string> {
    if tags.None? || tags.value == [] then [] else TrimAll(Split(tags.value, ','))
  }

  /** An absent or empty tags field gives no tags. */
  lemma ParseTagsAbsentOrEmpty(tags: Option<string>)
    requires tags.None? || tags == Some("")
    ensures ParseTags(tags) == []
  {
  }

  /**
   * A non-empty tags field gives one tag per comma-separated segment (one more than the
   * number of commas), in input order, each the trimmed segment with its case unchanged.
   */
  lemma ParseTagsSegments(s: string)
    requires s != []
    ensures var tags := ParseTags(Some(s));
      && |tags| == Count(s, ',') + 1
      && forall i :: 0 <= i < |tags| ==> tags[i] == Trim(Split(s, ',')[i])
  {
  }

  /** An empty segment between two commas is kept as an empty tag; the others come back exactly, case included. */
  lemma ParseTagsKeepsEmptySegment(a: string, b: string)
    requires IsTrimmed(a) && IsTrimmed(b) && ',' !in a && ',' !in b
    ensures ParseTags(Some(a + ",," + b)) == [a, "", b]
  {
    var s := a + ",," + b;
    assert s == a + [','] + ([] + [','] + b);
    SplitAfterPiece(a, ',', [] + [','] + b);
    SplitAfterPiece([], ',', b);
    SplitNoSeparator(b, ',');
    assert Split(s, ',') == [a, [], b];
    TrimOfTrimmed(a);
    TrimOfTrimmed([]);
    TrimOfTrimmed(b);
  }

  /** Every parsed tag has no leading or trailing white space and no comma. */
  lemma ParsedTagsTrimmedAndCommaFree(tags: Option<string>)
    ensures forall i :: 0 <= i < |ParseTags(tags)| ==>
      IsTrimmed(ParseTags(tags)[i]) && ',' !in ParseTags(tags)[i]
  {
    if tags.Some? && tags.value != [] {
      var pieces := Split(tags.value, ',');
      forall i | 0 <= i < |pieces| ensures ',' !in Trim(pieces[i]) {
        if ',' in Trim(pieces[i]) {
          TrimChars(pieces[i], ',');
        }
      }
    }
  }

  /**
   * Round trip with the edit form: parsing tags joined with ", " gives the same tags back,
   * when they are trimmed and comma-free (and are not the single empty tag, whose join is
   * the empty string and parses to no tags at all).
   */
  lemma ParseTagsOfJoined(tags: seq<string>)
    requires forall i :: 0 <= i < |tags| ==> IsTrimmed(tags[i]) && ',' !in tags[i]
    requires tags != [""]
    ensures ParseTags(Some(Join(tags, ", "))) == tags
  {
    if tags != [] {
      TrimSplitJoined("", tags);
      assert "" + Join(tags, ", ") == Join(tags, ", ");
    }
  }

  lemma {:induction false} TrimSplitJoined(pad: string, tags: seq<string>)
    requires IsBlank(pad) && ',' !in pad
    requires |tags| > 0
    requires forall i :: 0 <= i < |tags| ==> IsTrimmed(tags[i]) && ',' !in tags[i]
    ensures TrimAll(Split(pad + Join(tags, ", "), ',')) == tags
    decreases |tags|
  {
    TrimPaddedPiece(pad, tags[0]);
    if |tags| == 1 {
      SplitNoSeparator(pad + tags[0], ',');
    } else {
      var rest := Join(tags[1..], ", ");
      SplitJoinedAtFirst(pad, tags);
      TrimSplitJoined(" ", tags[1..]);
      TrimAllCons(pad + tags[0], Split(" " + rest, ','));
      assert [tags[0]] + tags[1..] == tags;
    }
  }

  /** The first piece, white padding and all, trims to the first tag and holds no comma. */
  lemma TrimPaddedPiece(pad: string, t: string)
    requires IsBlank(pad) && ',' !in pad
    requires IsTrimmed(t) && ',' !in t
    ensures Trim(pad + t) == t
    ensures ',' !in pad + t
  {
    TrimPadded(pad, t, []);
    assert pad + t + [] == pad + t;
  }

  /** Splitting ", "-joined tags peels off the first (padded) tag; the rest starts with the space. */
  lemma SplitJoinedAtFirst(pad: string, tags: seq<string>)
    requires |tags| >= 2 && ',' !in pad + tags[0]
    ensures Split(pad + Join(tags, ", "), ',') == [pad + tags[0]] + Split(" " + Join(tags[1..], ", "), ',')
  {
    var rest := Join(tags[1..], ", ");
    assert pad + Join(tags, ", ") == (pad + tags[0]) + [','] + (" " + rest);
    SplitAfterPiece(pad + tags[0], ',', " " + rest);
  }

  lemma TrimAllCons(x: string, xs: seq<string>)
    ensures TrimAll([x] + xs) == [Trim(x)] + TrimAll(xs)
  {
    assert ([x] + xs)[1..] == xs;
  }

  /** The document the handler builds: the form fields, the parsed tags and the stored file's URL — nothing else. */
  function UploadRecord(body: UploadBody, file: StoredFile): ResourceRecord {
    ResourceRecord(
      title := body.title,
      description := body.description,
      tags := ParseTags(body.tags),
      fileUrl := Some(UploadsPrefix + file.filename),
      uploadedBy := None,
      originalFileName := None,
      fileSize := None,
      mimeType := None)
  }

  /** `resource.save()`: schema validation first, then the store's own outcome. */
  function Save(record: ResourceRecord, storeOk: bool, id: ObjectId, now: int): UploadResponse {
    var missing := MissingRequired(record);
    if missing != [] then UploadFailed(ValidationFailed(missing))
    else if !storeOk then UploadFailed(SaveFailed)
    else Created(StoredResource(id, record, now, now))
  }

  /** The POST /upload handler as written. */
  function HandleUpload(body: UploadBody, file: Option<StoredFile>, storeOk: bool, id: ObjectId, now: int): UploadResponse {
    if file.None? then UploadFailed(NoFile)
    else Save(UploadRecord(body, file.value), storeOk, id, now)
  }

  /** The stored URL is always "/uploads/" followed by the uploaded file's name, and the tags are the parsed field. */
  lemma UploadRecordFields(body: UploadBody, file: StoredFile)
    ensures UploadRecord(body, file).fileUrl == Some("/uploads/" + file.filename)
    ensures PresentString(UploadRecord(body, file).fileUrl)
    ensures UploadRecord(body, file).title == body.title
    ensures UploadRecord(body, file).description == body.description
    ensures UploadRecord(body, file).tags == ParseTags(body.tags)
  {
  }

  /** A save answers 201 exactly when the document validates and the store accepts it. */
  lemma SaveOutcome(record: ResourceRecord, storeOk: bool, id: ObjectId, now: int)
    ensures Save(record, storeOk, id, now).Success() <==> IsValid(record) && storeOk
    ensures Save(record, storeOk, id, now).Status() == (if IsValid(record) && storeOk then 201 else 500)
    ensures Save(record, storeOk, id, now).Success() ==>
      Save(record, storeOk, id, now).resource == StoredResource(id, record, now, now)
  {
  }

  /**
   * As written, every upload fails: without a file the handler throws at `req.file.filename`;
   * with one, the document lacks the required `uploadedBy` and `originalFileName`, so the
   * save is rejected by validation. Either way the answer is 500 with `success: false`.
   */
  lemma UploadAlwaysFails(body: UploadBody, file: Option<StoredFile>, storeOk: bool, id: ObjectId, now: int)
    ensures var resp := HandleUpload(body, file, storeOk, id, now);
      && resp.Status() == 500 && !resp.Success()
      && (file.None? ==> resp.error == NoFile)
      && (file.Some? ==> resp.error.ValidationFailed?
                         && "uploadedBy" in resp.error.paths
                         && "originalFileName" in resp.error.paths)
  {
    if file.Some? {
      MissingRequiredNamesMissingPaths(UploadRecord(body, file.value));
    }
  }

  /**
   * The document the handler evidently means to build: as above, plus the uploader's id
   * (which an authenticated route would supply) and the file's original name, size and type.
   */
  function OwnedUploadRecord(body: UploadBody, file: StoredFile, owner: ObjectId): ResourceRecord {
    UploadRecord(body, file).(
      uploadedBy := Some(owner),
      originalFileName := Some(file.originalName),
      fileSize := Some(file.size),
      mimeType := Some(file.mimeType))
  }

  function HandleOwnedUpload(body: UploadBody, file: Option<StoredFile>, owner: ObjectId,
                             storeOk: bool, id: ObjectId, now: int): UploadResponse {
    if file.None? then UploadFailed(NoFile)
    else Save(OwnedUploadRecord(body, file.value, owner), storeOk, id, now)
  }

  /**
   * With the owner and original name set, an upload answers 201 exactly when a file was sent,
   * the title is a non-empty string, the original name is non-empty and the store accepts the
   * save; the created resource then belongs to the owner and points at "/uploads/" + filename.
   */
  lemma OwnedUploadSucceeds(body: UploadBody, file: Option<StoredFile>, owner: ObjectId,
                            storeOk: bool, id: ObjectId, now: int)
    ensures var resp := HandleOwnedUpload(body, file, owner, storeOk, id, now);
      && (resp.Success() <==>
            file.Some? && PresentString(body.title) && file.value.originalName != [] && storeOk)
      && (resp.Success() ==>
            && resp.resource.id == id && resp.resource.createdAt == now
            && resp.resource.data.uploadedBy == Some(owner)
            && resp.resource.data.fileUrl == Some("/uploads/" + file.value.filename)
            && resp.resource.data.tags == ParseTags(body.tags))
  {
    if file.Some? {
      ValidIffRequiredPresent(OwnedUploadRecord(body, file.value, owner));
    }
  }

  // ---------------------------------------------------------------------------
  // GET /
  // ---------------------------------------------------------------------------

  /** Characters with a special meaning in a regular expression. */
  const RegexMeta: set<char> := {'\\', '^', '$', '.', '|', '?', '*', '+', '(', ')', '[', ']', '{', '}'}

  /** A term that, used as a `$regex` pattern, matches itself literally. */
  predicate NoRegexMeta(term: string) {
    forall i :: 0 <= i < |term| ==> term[i] !in RegexMeta
  }

  /** The tag pattern of the query: `if (search) query = { tags: ... }` — absent or empty means no filter. */
  function TagQuery(search: Option<string>): Option<string> {
    if search.Some? && search.value != [] then search else None
  }

  /** `{ tags: { $regex: term, $options: "i" } }` on an array: some tag contains the term, ignoring case. */
  predicate AnyTagContains(r: StoredResource, term: string) {
    exists i :: 0 <= i < |r.data.tags| && ContainsIgnoreCase(r.data.tags[i], term)
  }

  predicate MatchesQuery(query: Option<string>, r: StoredResource) {
    query.None? || AnyTagContains(r, query.value)
  }

  /** The list is ordered by `createdAt`, newest first. */
  ghost predicate NewestFirst(rs: seq<StoredResource>) {
    forall i, j :: 0 <= i < j < |rs| ==> rs[i].createdAt >= rs[j].createdAt
  }

  /** No resource in `rs` is newer than `t`. */
  ghost predicate NoneNewerThan(rs: seq<StoredResource>, t: int) {
    forall k :: 0 <= k < |rs| ==> rs[k].createdAt <= t
  }

  /** A resource at least as new as everything in a newest-first list can go in front of it. */
  lemma PrependNewest(y: StoredResource, rs: seq<StoredResource>)
    requires NewestFirst(rs) && NoneNewerThan(rs, y.createdAt)
    ensures NewestFirst([y] + rs)
  {
    var r := [y] + rs;
    forall i, j | 0 <= i < j < |r| ensures r[i].createdAt >= r[j].createdAt {
      assert r[j] == rs[j - 1];
      if i > 0 {
        assert r[i] == rs[i - 1];
      }
    }
  }

  /** The bound carries over to a sequence holding the same resources plus one that also meets it. */
  lemma NoneNewerThanPlusOne(a: seq<StoredResource>, b: seq<StoredResource>, x: StoredResource, t: int)
    requires multiset(a) == multiset(b) + multiset{x}
    requires NoneNewerThan(b, t) && x.createdAt <= t
    ensures NoneNewerThan(a, t)
  {
    forall k | 0 <= k < |a| ensures a[k].createdAt <= t {
      assert a[k] in multiset(a);
      if a[k] != x {
        assert a[k] in multiset(b);
        var j :| 0 <= j < |b| && b[j] == a[k];
      }
    }
  }

  function InsertNewest(x: StoredResource, rs: seq<StoredResource>): (r: seq<StoredResource>)
    requires NewestFirst(rs)
    ensures NewestFirst(r)
    ensures multiset(r) == multiset(rs) + multiset{x}
  {
    if rs == [] || x.createdAt >= rs[0].createdAt then
      PrependNewest(x, rs);
      [x] + rs
    else
      var tail := InsertNewest(x, rs[1..]);
      assert rs == [rs[0]] + rs[1..];
      NoneNewerThanPlusOne(tail, rs[1..], x, rs[0].createdAt);
      PrependNewest(rs[0], tail);
      [rs[0]] + tail
  }

  /** `.sort({ createdAt: -1 })`: the same resources, newest first (ties keep store order). */
  function SortNewestFirst(rs: seq<StoredResource>): (r: seq<StoredResource>)
    ensures NewestFirst(r)
    ensures multiset(r) == multiset(rs)
  {
    if rs == [] then []
    else
      assert rs == [rs[0]] + rs[1..];
      InsertNewest(rs[0], SortNewestFirst(rs[1..]))
  }

  /** The answer of GET /: 200 with the array of resources, or 500 `{ message }` when the store throws. */
  datatype ListResponse = Listed(resources: seq<StoredResource>) | ListFailed {
    function Status(): int {
      if Listed? then 200 else 500
    }
  }

  /**
   * The GET / handler over the collection `store`. The term is interpolated into a regular
   * expression; this model covers terms without regular-expression metacharacters.
   */
  function ListResources(search: Option<string>, store: seq<StoredResource>, storeOk: bool): ListResponse
    requires search.Some? ==> NoRegexMeta(search.value)
  {
    if !storeOk then ListFailed
    else
      var query := TagQuery(search);
      Listed(SortNewestFirst(Filter(store, r => MatchesQuery(query, r))))
  }

  /** Without a (non-empty) search term, every resource is returned, newest first. */
  lemma ListWithoutSearch(search: Option<string>, store: seq<StoredResource>)
    requires search.None? || search == Some("")
    ensures ListResources(search, store, true).Listed?
    ensures multiset(ListResources(search, store, true).resources) == multiset(store)
    ensures NewestFirst(ListResources(search, store, true).resources)
  {
    var keep := (r: StoredResource) => MatchesQuery(TagQuery(search), r);
    FilterAllKept(store, keep);
  }

  /**
   * With a term, exactly the resources having a tag that contains the term (ignoring case)
   * are returned, each as often as it is stored, newest first.
   */
  lemma ListWithSearch(term: string, store: seq<StoredResource>)
    requires term != [] && NoRegexMeta(term)
    ensures var resp := ListResources(Some(term), store, true);
      && resp.Listed?
      && (forall r :: r in resp.resources <==> r in store && AnyTagContains(r, term))
      && (forall r :: multiset(resp.resources)[r] == if AnyTagContains(r, term) then multiset(store)[r] else 0)
      && NewestFirst(resp.resources)
  {
    var keep := (r: StoredResource) => MatchesQuery(TagQuery(Some(term)), r);
    var resources := ListResources(Some(term), store, true).resources;
    forall r ensures multiset(resources)[r] == if AnyTagContains(r, term) then multiset(store)[r] else 0 {
      FilterMultiset(store, keep, r);
    }
  }

  /** Only tags are consulted: a resource's title and description never affect whether it matches. */
  lemma MatchIgnoresTitleAndDescription(query: Option<string>, r: StoredResource,
                                        title: Option<string>, description: Option<string>)
    ensures MatchesQuery(query, r.(data := r.data.(title := title, description := description)))
        == MatchesQuery(query, r)
  {
  }

  /** When the store throws, the handler answers 500. */
  lemma ListStoreFailure(search: Option<string>, store: seq<StoredResource>)
    requires search.Some? ==> NoRegexMeta(search.value)
    ensures ListResources(search, store, false).Status() == 500
  {
  }
}
