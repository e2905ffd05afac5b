# Resource-Sharing-Portal — a verified model of the core

The Resource-Sharing-Portal is an Express/MongoDB back end with a React front end. Users
upload files with a title, a description and comma-separated tags, browse and search
them by tag. The front end also offers to edit and delete a user's own uploads, but the
routes for those are not in the routes file. This project models, in Dafny:

- **the resource document** (`ResourceModel`). These are the schema's paths and Mongoose's
  `required` rule (a String path fails on a missing value and on `""`). A save that fails
  validation is rejected with an error naming the failed required paths.
- **the two resource routes** (`ResourceRoutes`):
  - `POST /upload` splits the tags field on `,` and trims each piece. It builds the document
    from the form and the stored file name, saves it and answers 201, or 500 on any thrown
    error.
  - `GET /` returns every resource, or, given a `search` term, those with a tag that
    contains the term, ignoring case. Both are sorted by `createdAt`, newest first.
- **the bearer-token middleware** `authenticateToken` (`Auth`). This is the full decision
  table: token extraction, verification, user lookup, the error names caught and their
  401/500 answers, and the write to `req.user`.
- **the front end's stateful pieces**:
  - the keyword search box (`MultiSearchBox`);
  - the "My Resources" list and its replace-by-id and remove-by-id handlers (`MyResources`);
  - the edit dialog (`EditForm`);
  - the upload page (`Upload`);
  - the registration form's password checks (`Register`).
- **the two ends composed** (`Flows`). These lemmas compose the client's strings with the
  handlers as they would meet if the strings reached them: the search box's joined keywords
  taken as the `search` term of `GET /`, and the edit form's joined tags read by the tag
  parser of `POST /upload`. In the code neither string reaches these handlers: the search
  box's only user requests `/resources/my-resources` (frontend/src/pages/MyResourcesPage.jsx:16),
  and the edit form sends `PUT /resources/:id` (frontend/src/components/EditResourceForm.jsx:41).
  The routes file defines neither path.

The JavaScript built-ins this logic depends on are modelled in `Text` and `Seqs`. They are
`trim` (ECMAScript's white-space set), `split` on one character, `join`, `length` (in
UTF-16 code units) and `Array.prototype.filter`. `Text` also holds the store's tag match,
MongoDB's `$regex` with `$options: "i"` (backend/src/routes/resourceRoutes.js:34), which
the model takes for a literal term as case-insensitive substring search
(`Text.ContainsIgnoreCase`).

The document store, the JWT library and the HTTP calls are foreign. Their outcomes are
parameters:
- whether a save or query succeeds, and the `_id` and time a save assigns;
- the verify and lookup functions, each returning a value or the name of the error it threw;
- the answer of a `PUT`, `POST` or `register` call.

The React components that update their state become classes. Their fields are the
`useState` variables, and their methods are the event handlers.

Facts about the code that the model follows:
- Search is a single `$regex` over the tags (backend/src/routes/resourceRoutes.js:34).
  Neither the title nor the description is searched.
- The search box's hint says resources must contain ALL keywords
  (frontend/src/components/MultiSearch.jsx:110-113). But the box joins its keywords with
  "," into one search string (frontend/src/components/MultiSearch.jsx:45), so with two or
  more keywords the term contains a comma, which no parsed tag does
  (`Flows.SeveralKeywordsMatchNothing`).
- Tags are split on "," and trimmed, but not lower-cased, and empty pieces are kept
  (backend/src/routes/resourceRoutes.js:12).
- The upload route attaches no owner and no original file name to the document
  (backend/src/routes/resourceRoutes.js:14-19; see Findings).

## Model

| member | source | states |
|---|---|---|
| ResourceModel.PresentString | backend/src/models/Resource.js:5-14 | defines Mongoose's `required` test for a String path: present and not "" |
| ResourceModel.MissingRequired | backend/src/models/Resource.js:4-17 | defines the failed required paths of a document: title, fileUrl, uploadedBy, originalFileName, each when missing |
| ResourceModel.IsValid | backend/src/models/Resource.js:3-19 | defines schema validity as no failed required path (properties in the two lemmas below) |
| ResourceModel.MissingRequiredNamesMissingPaths | backend/src/models/Resource.js:4-17 | title, fileUrl, uploadedBy and originalFileName are each reported exactly when missing (a String path also when ""), and no other path is ever reported |
| ResourceModel.ValidIffRequiredPresent | backend/src/models/Resource.js:5-14 | a document validates iff its four required paths are all present |
| ResourceModel.OptionalPathsDoNotMatter | backend/src/models/Resource.js:6-16 | description, tags, fileSize and mimeType never affect validation |
| Text.IsWhite | backend/src/routes/resourceRoutes.js:12 | defines the characters `trim()` removes: ECMAScript's WhiteSpace (TAB, VT, FF, SP, NBSP, ZWNBSP and the Zs category) and LineTerminator (LF, CR, LS, PS) |
| Text.TrimStart | backend/src/routes/resourceRoutes.js:12 | drops leading ECMAScript white space; the result is no longer than the input and starts with a non-white character |
| Text.TrimEnd | backend/src/routes/resourceRoutes.js:12 | drops trailing ECMAScript white space; the result is no longer than the input and ends with a non-white character |
| Text.Trim | backend/src/routes/resourceRoutes.js:12 | `trim()` yields a string with no leading or trailing white space, never longer than its input |
| Text.TrimStartIsSuffix | backend/src/routes/resourceRoutes.js:12 | dropping leading white space keeps a suffix of the input |
| Text.TrimEndIsPrefix | backend/src/routes/resourceRoutes.js:12 | dropping trailing white space keeps a prefix of the input |
| Text.TrimStartDropsWhite | backend/src/routes/resourceRoutes.js:12 | what is dropped in front is all white space |
| Text.TrimEndDropsWhite | backend/src/routes/resourceRoutes.js:12 | what is dropped at the end is all white space |
| Text.TrimSlice | backend/src/routes/resourceRoutes.js:12 | the trimmed string is the contiguous slice of the input that starts where the leading white space ends |
| Text.TrimPadded | backend/src/routes/resourceRoutes.js:12 | trimming white padding around a trimmed string gives that string |
| Text.TrimOfTrimmed | backend/src/routes/resourceRoutes.js:12 | trim is the identity on trimmed strings |
| Text.BlankIffTrimEmpty | frontend/src/pages/UploadPage.jsx:16 | `!s.trim()` (the trim is "") holds iff every character is white space |
| Text.TrimChars | backend/src/routes/resourceRoutes.js:12 | every character of the trimmed string occurs in the input |
| Text.Split | backend/src/routes/resourceRoutes.js:12 | `split(sep)` yields one more piece than there are separators, and no piece contains the separator |
| Text.SplitNoSeparator | backend/src/middleware/auth.js:7 | a separator-free string splits into itself alone |
| Text.SplitAfterPiece | backend/src/middleware/auth.js:7 | a separator-free piece followed by the separator is split off as the first piece |
| Text.SplitJoin | frontend/src/components/MultiSearch.jsx:45 | splitting joined separator-free parts on the separator recovers the parts |
| Text.Join | frontend/src/components/MultiSearch.jsx:45 | defines `Array.prototype.join(sep)`: the parts with the separator between each two (properties in the rows around it) |
| Text.JoinChars | frontend/src/components/MultiSearch.jsx:45 | every character of a join comes from the separator or from one of the parts |
| Text.JoinContainsSeparator | frontend/src/components/MultiSearch.jsx:45 | joining two or more parts puts the separator into the result |
| Text.LowerString | backend/src/routes/resourceRoutes.js:34 | case folding keeps the length and folds each character |
| Text.Contains | backend/src/routes/resourceRoutes.js:34 | defines substring search, trying each start position from left to right (its meaning is `ContainsIffOccurs`) |
| Text.ContainsIgnoreCase | backend/src/routes/resourceRoutes.js:34 | defines the `$options: "i"` match as substring search on the case-folded strings (ASCII letters only, see Left out) |
| Text.ContainsIffOccurs | backend/src/routes/resourceRoutes.js:34 | the substring search succeeds iff the needle occurs at some position of the haystack |
| Text.ContainsChar | backend/src/routes/resourceRoutes.js:34 | every character of a found needle occurs in the haystack |
| Text.LowerPreservesNonLetter | backend/src/routes/resourceRoutes.js:34 | case folding never introduces a character that is not a letter |
| Text.LowerKeepsChar | backend/src/routes/resourceRoutes.js:34 | case folding keeps a character it does not change |
| Text.Utf16Length | frontend/src/components/RegisterForm.jsx:34 | JavaScript's `length` lies between the character count and twice it |
| Text.Utf16LengthOfBmp | frontend/src/components/RegisterForm.jsx:34 | within the Basic Multilingual Plane, `length` is the character count |
| Seqs.Filter | frontend/src/pages/MyResourcesPage.jsx:43 | `filter` keeps exactly the elements passing the test and is never longer than its input |
| Seqs.FilterIsSubsequence | frontend/src/pages/MyResourcesPage.jsx:43 | `filter` keeps the survivors in their original order |
| Seqs.SubsequenceOfTail | frontend/src/pages/MyResourcesPage.jsx:43 | a subsequence of the tail is a subsequence of the whole |
| Seqs.SubsequenceDropHead | frontend/src/pages/MyResourcesPage.jsx:43 | a subsequence without its first element is still a subsequence |
| Seqs.FilterAllKept | frontend/src/components/MultiSearch.jsx:17 | filtering when every element passes changes nothing |
| Seqs.FilterIdempotent | frontend/src/pages/MyResourcesPage.jsx:43 | filtering twice with the same test is filtering once |
| Seqs.FilterMultiset | frontend/src/pages/MyResourcesPage.jsx:43 | each surviving element keeps its number of occurrences; each failing one has none |
| Seqs.FilterKeepsDistinct | frontend/src/components/MultiSearch.jsx:17 | filtering a duplicate-free list leaves it duplicate-free |
| ResourceRoutes.TrimAll | backend/src/routes/resourceRoutes.js:12 | `.map(t => t.trim())` trims each piece in place, keeping the count |
| ResourceRoutes.ParseTags | backend/src/routes/resourceRoutes.js:12 | defines `tags ? tags.split(",").map(t => t.trim()) : []` (properties in the ParseTags lemmas) |
| ResourceRoutes.ParseTagsAbsentOrEmpty | backend/src/routes/resourceRoutes.js:12 | an absent or empty tags field gives no tags |
| ResourceRoutes.ParseTagsSegments | backend/src/routes/resourceRoutes.js:12 | a non-empty field gives commas+1 tags, in order, each the trimmed segment with its case unchanged |
| ResourceRoutes.ParseTagsKeepsEmptySegment | backend/src/routes/resourceRoutes.js:12 | an empty segment between two commas is kept as an empty tag |
| ResourceRoutes.ParsedTagsTrimmedAndCommaFree | backend/src/routes/resourceRoutes.js:12 | every parsed tag is trimmed and has no comma |
| ResourceRoutes.ParseTagsOfJoined | backend/src/routes/resourceRoutes.js:12 | parsing trimmed, comma-free tags joined with ", " gives them back (except the single empty tag) |
| ResourceRoutes.TrimSplitJoined | backend/src/routes/resourceRoutes.js:12 | splitting white-padded ", "-joined tags and trimming each piece gives the tags back |
| ResourceRoutes.UploadRecord | backend/src/routes/resourceRoutes.js:10-19 | defines the document literal: the form's title and description, the parsed tags, the "/uploads/" URL, and no uploadedBy, originalFileName, fileSize or mimeType |
| ResourceRoutes.Save | backend/src/routes/resourceRoutes.js:21-24 | defines `resource.save()`: schema validation, then the store's own outcome, answering 201 or 500 |
| ResourceRoutes.HandleUpload | backend/src/routes/resourceRoutes.js:8-26 | defines the `POST /upload` handler as written: no file throws (500), otherwise the built document is saved |
| ResourceRoutes.OwnedUploadRecord | backend/src/routes/resourceRoutes.js:14-19 | defines the corrected document literal, which also sets the owner and the file's original name, size and type |
| ResourceRoutes.HandleOwnedUpload | backend/src/routes/resourceRoutes.js:8-26 | defines the corrected handler over `OwnedUploadRecord` (its property is `OwnedUploadSucceeds`) |
| ResourceRoutes.UploadResponse.Status | backend/src/routes/resourceRoutes.js:22-24 | defines the upload answer's status: 201 after a save, 500 from the catch block |
| ResourceRoutes.UploadResponse.Success | backend/src/routes/resourceRoutes.js:22-24 | defines the `success` flag of the upload answer: true exactly for 201 |
| ResourceRoutes.UploadRecordFields | backend/src/routes/resourceRoutes.js:10-19 | the document's fileUrl is "/uploads/" + the stored file name, title and description are the form's, and tags are the parsed field |
| ResourceRoutes.SaveOutcome | backend/src/routes/resourceRoutes.js:21-24 | a save answers 201 iff the document validates and the store accepts it, otherwise 500; the created resource carries the assigned id and timestamps |
| ResourceRoutes.UploadAlwaysFails | backend/src/routes/resourceRoutes.js:8-26 | as written, every upload answers 500: without a file the handler throws, and with one validation fails, naming uploadedBy and originalFileName |
| ResourceRoutes.OwnedUploadSucceeds | backend/src/routes/resourceRoutes.js:14-22 | with the owner and original name set, an upload answers 201 iff there is a file, a non-empty title and original name, and the store accepts it; the result belongs to the owner |
| ResourceRoutes.TagQuery | backend/src/routes/resourceRoutes.js:32-34 | defines the query: a tag pattern for a present, non-empty search term, and no filter otherwise |
| ResourceRoutes.AnyTagContains | backend/src/routes/resourceRoutes.js:34 | defines `$regex` on an array path: some tag contains the term, ignoring case |
| ResourceRoutes.MatchesQuery | backend/src/routes/resourceRoutes.js:34-36 | defines `find(query)`'s test: no filter, or some tag matches |
| ResourceRoutes.PrependNewest | backend/src/routes/resourceRoutes.js:36 | a resource no older than anything in a newest-first list can go in front of it |
| ResourceRoutes.InsertNewest | backend/src/routes/resourceRoutes.js:36 | inserting into a newest-first list keeps it newest first and adds exactly that element |
| ResourceRoutes.SortNewestFirst | backend/src/routes/resourceRoutes.js:36 | `.sort({ createdAt: -1 })` returns a newest-first permutation of its input |
| ResourceRoutes.ListResources | backend/src/routes/resourceRoutes.js:29-41 | defines the `GET /` handler: 500 when the store fails, else the matching resources sorted newest first (properties in the List lemmas) |
| ResourceRoutes.ListResponse.Status | backend/src/routes/resourceRoutes.js:37-39 | defines the list answer's status: 200 for `res.json(resources)`, 500 from the catch block |
| ResourceRoutes.ListWithoutSearch | backend/src/routes/resourceRoutes.js:31-37 | with no or an empty search term, every stored resource is returned (as a multiset), newest first |
| ResourceRoutes.ListWithSearch | backend/src/routes/resourceRoutes.js:34-37 | with a term, exactly the resources with a tag containing it (ignoring case) are returned, each as often as stored, newest first |
| ResourceRoutes.MatchIgnoresTitleAndDescription | backend/src/routes/resourceRoutes.js:34 | title and description never affect whether a resource matches |
| ResourceRoutes.ListStoreFailure | backend/src/routes/resourceRoutes.js:38-39 | a store failure answers 500 |
| Auth.ExtractToken | backend/src/middleware/auth.js:6-7 | defines `authHeader && authHeader.split(" ")[1]`, with an empty or missing second word as no token |
| Auth.ErrorResponse | backend/src/middleware/auth.js:29-46 | defines the catch block's answer from the thrown error's name |
| Auth.Authenticate | backend/src/middleware/auth.js:4-47 | defines the middleware's decision: extract, verify, look up, with any throw going through the catch block |
| Auth.ExtractedTokenIsOneWord | backend/src/middleware/auth.js:7 | an extracted token is non-empty and contains no space |
| Auth.MissingTokenRejected | backend/src/middleware/auth.js:6-14 | a missing header, or one without a token, is answered 401 "Access token required" |
| Auth.NoSpaceNoToken | backend/src/middleware/auth.js:7 | a header without a space carries no token |
| Auth.TokenIsSecondWord | backend/src/middleware/auth.js:7 | the token is the second word whatever the scheme word is; further words are ignored |
| Auth.ProceedIffVerifiedUser | backend/src/middleware/auth.js:16-28 | `next()` is reached iff a token is present, it verifies and its user is found; `req.user` is that user |
| Auth.UnknownUserRejected | backend/src/middleware/auth.js:18-25 | a verified token whose user is not found is answered 401 "Invalid token" |
| Auth.ThrownErrorsMapByName | backend/src/middleware/auth.js:29-46 | JsonWebTokenError gives 401 "Invalid token" and TokenExpiredError 401 "Token expired"; any other thrown error, from verify or lookup, gives 500 "Authentication error" |
| Auth.RejectionStatuses | backend/src/middleware/auth.js:9-46 | every rejection is 401 or 500, and 500 exactly for "Authentication error" |
| Auth.Request.constructor | backend/src/middleware/auth.js:6 | a request starts without a user |
| Auth.AuthenticateToken | backend/src/middleware/auth.js:4-47 | the outcome is the decision table above; `req.user` is set exactly when the request proceeds |
| MultiSearchBox.Accepts | frontend/src/components/MultiSearch.jsx:9-10 | defines `addKeyword`'s guard: the trimmed keyword is non-empty and not yet listed |
| MultiSearchBox.WithKeyword | frontend/src/components/MultiSearch.jsx:8-14 | defines the list after `addKeyword`: the trimmed keyword appended when accepted, else unchanged |
| MultiSearchBox.WithoutKeyword | frontend/src/components/MultiSearch.jsx:16-18 | defines the list after `removeKeyword`: the filter on `keyword !== k` |
| MultiSearchBox.SearchQuery | frontend/src/components/MultiSearch.jsx:45 | defines the string handed to `onSearch`: the keywords joined with "," |
| MultiSearchBox.KeywordsValidIff | frontend/src/components/MultiSearch.jsx:8-18 | the keyword list's invariant, built up one `addKeyword` at a time, holds iff every keyword is non-empty and trimmed and none occurs twice |
| MultiSearchBox.BlankKeywordIgnored | frontend/src/components/MultiSearch.jsx:8-14 | a blank keyword is never added |
| MultiSearchBox.NewKeywordAppended | frontend/src/components/MultiSearch.jsx:9-13 | a new keyword is appended, trimmed, at the end |
| MultiSearchBox.DuplicateKeywordIgnored | frontend/src/components/MultiSearch.jsx:10 | a keyword already listed (after trimming) changes nothing |
| MultiSearchBox.WithKeywordKeepsValid | frontend/src/components/MultiSearch.jsx:8-14 | adding keeps the keywords non-empty, trimmed and duplicate-free |
| MultiSearchBox.WithoutKeywordKeepsValid | frontend/src/components/MultiSearch.jsx:16-18 | removing keeps the keywords non-empty, trimmed and duplicate-free |
| MultiSearchBox.WithoutKeywordSpec | frontend/src/components/MultiSearch.jsx:17 | removing deletes that keyword and nothing else, keeps every other keyword as often as before and in order, and is a no-op when it is absent |
| MultiSearchBox.SearchQueryRoundTrip | frontend/src/components/MultiSearch.jsx:45 | splitting the emitted query on "," recovers one or more comma-free keywords |
| MultiSearchBox.MultiSearch.Query | frontend/src/components/MultiSearch.jsx:44-46 | defines the string the debounced effect passes to `onSearch`: `SearchQuery` of the current keywords |
| MultiSearchBox.MultiSearch.constructor | frontend/src/components/MultiSearch.jsx:4-5 | the box starts with an empty input and no keywords |
| MultiSearchBox.MultiSearch.SetInput | frontend/src/components/MultiSearch.jsx:64 | typing replaces the input and leaves the keywords alone |
| MultiSearchBox.MultiSearch.AddKeyword | frontend/src/components/MultiSearch.jsx:8-14 | the keywords become the add function's result, the input is cleared exactly when the keyword is taken, and the invariant is kept |
| MultiSearchBox.MultiSearch.RemoveKeyword | frontend/src/components/MultiSearch.jsx:16-18 | the keywords become the remove function's result; the input is unchanged |
| MultiSearchBox.MultiSearch.ClearAll | frontend/src/components/MultiSearch.jsx:97 | "Clear all" empties the keywords and leaves the input |
| MultiSearchBox.MultiSearch.Submit | frontend/src/components/MultiSearch.jsx:20-25 | a blank input changes nothing; otherwise the input is added as a keyword |
| MultiSearchBox.MultiSearch.KeyPress | frontend/src/components/MultiSearch.jsx:27-34 | Enter with a non-blank input adds it as a keyword; any other key changes nothing |
| MyResources.ReplaceById | frontend/src/pages/MyResourcesPage.jsx:37-39 | defines the `map` replacing every entry with the updated `_id` |
| MyResources.RemoveById | frontend/src/pages/MyResourcesPage.jsx:43 | defines the `filter` dropping every entry with the `_id` |
| MyResources.ReplaceByIdPointwise | frontend/src/pages/MyResourcesPage.jsx:37-39 | update keeps the length, and each entry becomes the updated resource iff the ids match |
| MyResources.ReplaceByIdKeepsIds | frontend/src/pages/MyResourcesPage.jsx:37-39 | every position keeps its id |
| MyResources.ReplaceByIdAbsent | frontend/src/pages/MyResourcesPage.jsx:37-39 | an update whose id is not listed changes nothing |
| MyResources.ReplaceByIdIdempotent | frontend/src/pages/MyResourcesPage.jsx:37-39 | the same update twice is the update once |
| MyResources.RemoveByIdSpec | frontend/src/pages/MyResourcesPage.jsx:43 | delete removes every entry with that id and keeps all the others, each as often as before and in order; an absent id changes nothing |
| MyResources.RemoveByIdIdempotent | frontend/src/pages/MyResourcesPage.jsx:43 | deleting twice is deleting once |
| MyResources.MyResourcesPage.constructor | frontend/src/pages/MyResourcesPage.jsx:8 | the list starts empty |
| MyResources.MyResourcesPage.HandleResourceUpdate | frontend/src/pages/MyResourcesPage.jsx:36-40 | the list becomes the replaced list, of the same length |
| MyResources.MyResourcesPage.HandleResourceDelete | frontend/src/pages/MyResourcesPage.jsx:42-44 | the list becomes the filtered list; no entry with the id remains |
| EditForm.InitialFields | frontend/src/components/EditResourceForm.jsx:15-19 | defines the loaded fields: title and description or "", tags joined with ", " |
| EditForm.WithField | frontend/src/components/EditResourceForm.jsx:23-28 | defines `{ ...formData, [name]: value }` over the form's three inputs |
| EditForm.InitialFieldsSpec | frontend/src/components/EditResourceForm.jsx:15-19 | loading takes title and description, or "" when missing; no tags give "" and one tag gives itself |
| EditForm.WithFieldOnlyNamed | frontend/src/components/EditResourceForm.jsx:23-28 | a change replaces the named field only |
| EditForm.EditResourceForm.constructor | frontend/src/components/EditResourceForm.jsx:5-11 | the form starts empty, not loading, without a message |
| EditForm.EditResourceForm.LoadResource | frontend/src/components/EditResourceForm.jsx:13-21 | a resource replaces the fields; none leaves them |
| EditForm.EditResourceForm.HandleChange | frontend/src/components/EditResourceForm.jsx:23-28 | the fields take the change; nothing else moves |
| EditForm.EditResourceForm.HandleSubmit | frontend/src/components/EditResourceForm.jsx:30-53 | a blank title sends nothing and says "Title is required"; otherwise the PUT goes to the resource's id with the fields, success hands the updated resource on, and loading ends false |
| Upload.Refused | frontend/src/pages/UploadPage.jsx:16 | defines the guard at the top of `handleSubmit`: no file chosen, or a blank title |
| Upload.RefusedIffNoFileOrBlankTitle | frontend/src/pages/UploadPage.jsx:16 | a submission is refused iff there is no file or the title trims to "" |
| Upload.UploadPage.constructor | frontend/src/pages/UploadPage.jsx:6-11 | the page starts with empty fields and no file |
| Upload.UploadPage.SetTitle | frontend/src/pages/UploadPage.jsx:67 | the title input sets the title only |
| Upload.UploadPage.SetDescription | frontend/src/pages/UploadPage.jsx:77 | the description input sets the description only |
| Upload.UploadPage.SetTags | frontend/src/pages/UploadPage.jsx:88 | the tags input sets the tags only |
| Upload.UploadPage.SetFile | frontend/src/pages/UploadPage.jsx:96 | the file input sets the file only |
| Upload.UploadPage.HandleSubmit | frontend/src/pages/UploadPage.jsx:14-43 | a refused submission only sets the message; otherwise the fields are sent as typed, success clears them, failure keeps them, and uploading ends false |
| Register.PasswordProblem | frontend/src/components/RegisterForm.jsx:28-38 | defines the first failing check: mismatch first, then a UTF-16 length below 6 |
| Register.WithField | frontend/src/components/RegisterForm.jsx:16-21 | defines `{ ...formData, [name]: value }` over the form's four inputs |
| Register.PasswordChecks | frontend/src/components/RegisterForm.jsx:28-38 | the checks pass iff the passwords match and are at least 6 long; a mismatch is reported first |
| Register.BmpPasswordLength | frontend/src/components/RegisterForm.jsx:34 | within the Basic Multilingual Plane, the length check counts characters |
| Register.WithFieldOnlyNamed | frontend/src/components/RegisterForm.jsx:16-21 | a change replaces the named field only |
| Register.RegisterForm.constructor | frontend/src/components/RegisterForm.jsx:5-12 | the form starts empty, not loading, without a message |
| Register.RegisterForm.HandleChange | frontend/src/components/RegisterForm.jsx:16-21 | the fields take the change; nothing else moves |
| Register.RegisterForm.HandleSubmit | frontend/src/components/RegisterForm.jsx:23-51 | `register` is called with username, email and password iff both checks pass; the message is the failed check's, else the rejection's, else empty; loading ends false |
| Flows.NoKeywordsListsAll | frontend/src/components/MultiSearch.jsx:45 | with no keywords the box's query is "", and taken as the search term of `GET /` it returns every resource |
| Flows.OneKeywordIsTheTerm | frontend/src/components/MultiSearch.jsx:45 | one keyword's query is the keyword itself, and taken as the search term of `GET /` it selects the resources with a tag containing it |
| Flows.JoinedQueryHasNoRegexMeta | frontend/src/components/MultiSearch.jsx:45 | joining keywords without regex metacharacters gives such a term |
| Flows.CommaFreeTagMissesCommaTerm | backend/src/routes/resourceRoutes.js:34 | a comma-free tag never contains a term with a comma, ignoring case or not |
| Flows.SeveralKeywordsMatchNothing | frontend/src/components/MultiSearch.jsx:110-113 | two or more keywords build a term with a comma; taken as the search term of `GET /` over tags without commas (as the tag parser produces), nothing matches, although the page promises an AND of the keywords |
| Flows.EditedTagsParseBack | frontend/src/components/EditResourceForm.jsx:18 | the edit form's ", "-joined tags, if read by the tag parser of `POST /upload`, give the resource's tags back |

## Left out

- The document store (Mongoose): connection, queries and persistence are I/O. A save's outcome, the assigned `_id` and the clock are parameters, and a collection is a sequence.
- ResourceRoutes.ListResources: requires a search term without regular-expression metacharacters. The model matches such a term literally and does not model general `$regex` patterns. A malformed pattern would make the store throw, which would answer 500.
- Text.ContainsIgnoreCase: folds only ASCII letters. The "i" flag's full Unicode case folding is not modelled.
- ResourceRoutes.SortNewestFirst: resources with equal `createdAt` keep their store order, which the store itself does not promise.
- The upload middleware (`upload.single("file")`, backend/src/routes/resourceRoutes.js:8): whatever `upload.js` configures (the file name it generates, any limits, the disk write) is not modelled, and `upload.js` is not part of this model. `req.file` is given as a value or as its absence.
- `jwt.verify` and `generateToken`: the signature check, the secret fallback and the 7-day expiry are cryptography and a clock. Verification is a function parameter returning a user id or an error name.
- `cache.js`, `AuthContext`, `api.js` and the UI components not listed above are not part of this model.
- MultiSearchBox.MultiSearch.Query: the 300 ms debounce timer is left out. The model gives the string the timer would send, not when it is sent.
- EditForm.EditResourceForm.HandleSubmit: the 1.5 s timer that calls `onClose` is left out, and so are the render guards. `requires resource.Some?` stands for the component rendering nothing without a resource.
- The fetch functions (`fetchResources`, `handleSearch`) and their `loading` flags are network calls and are not modelled.
- React's batching of state updates is not modelled. Every handler's state changes are applied as one step.
- Express can parse a repeated `search` query parameter into an array. The model takes the parameter as a single string.
- `e.target.name` values other than the form's own input names are not modelled.
- Rendering is not modelled. This covers the chip list, the "Clear all" button shown only when there are two or more keywords, and the keyword counter.
- The update, delete and my-resources routes that the front end calls are not in the routes file and are not part of this model. The search box's query goes to `GET /resources/my-resources` (frontend/src/pages/MyResourcesPage.jsx:16) and the edit form's fields to `PUT /resources/:id` (frontend/src/components/EditResourceForm.jsx:41); the `Flows` lemmas compose those strings with `GET /` and the tag parser of `POST /upload` instead, which is not a call path of the code.
- The query string is not modelled. Both pages put the search string into the URL without encoding it (`?search=${query}`), so a keyword containing `&`, `#`, `%` or `+` does not reach the server as typed. The `Flows` lemmas take the string the box builds as the `search` value the handler receives.
- Mongoose's ValidationError: the model names the failed required paths in schema order; the order and the message text of Mongoose's own error are not modelled, and the handler only passes `err.message` on.
- Strings are sequences of Unicode scalar values, so a JavaScript string holding a lone surrogate cannot be represented; `Utf16Length` counts two code units for each astral character and cannot express a lone surrogate counting as one.

## Findings

| source | as written | input that shows it | evidently intended | confidence | as-written member | corrected member |
|---|---|---|---|---|---|---|
| backend/src/routes/resourceRoutes.js:14-19 | the new Resource gets only title, description, tags and fileUrl, but the schema also requires uploadedBy and originalFileName | any upload with a file, e.g. title "Notes", file "a.pdf" stored as "1-a.pdf": validation fails on uploadedBy and originalFileName, so the answer is 500 | set uploadedBy to the authenticated user and originalFileName (and fileSize, mimeType) from the uploaded file, so that a valid upload answers 201 | not executed | ResourceRoutes.UploadAlwaysFails | ResourceRoutes.OwnedUploadSucceeds |
