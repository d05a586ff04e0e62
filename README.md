# Image analysis on OCI: a Dafny model of the decision logic

The system has two parts. An OCI Function (`vision_function/func.py`) is triggered by an Object
Storage "create object" event. It works out which object was uploaded, loads its database
credentials (from the environment, overlaid with values from OCI Vault), runs AI Vision object
detection, and stores the result in the `IMAGE_ANALYSIS` collection via the ORDS SODA REST API.
A Flask web app (`app/app.py`) uploads images to the bucket, lists them together with the
analyses found in the `vision_results` collection, shows one analysis, and deletes an image
together with its analysis.

This project models the decision procedures that sit under that glue. Every call into a cloud
service becomes an input to the model: a status code, an exception, or a value. The modules are:

- `Common`, `Text`, `Json` model the Python built-ins these procedures rely on:
  - an `Option` type;
  - `str.strip` with Python's whitespace set;
  - `str.split` with a one-character separator, together with the matching join;
  - `rsplit('.', 1)` as "after the last dot";
  - ASCII `lower()`;
  - substring `in`;
  - JSON-like values with Python truthiness and `dict.get`.
- `VisionEvent` is the handler's event decoder. It is written as imperative Dafny, because the
  handler builds a mutable candidate list and scans it with `for … break`. It is proved equal to
  a reference function, and the name-search properties are proved about that function.
- `VisionConfig` holds the module globals as a `DbConfig` object. `LoadFromVault` updates them in
  place, and it is specified by the pure overlay `VaultOverlay`.
- `VisionStore` is the REST conversation with a remote that records every request it receives,
  so that "no POST when the collection cannot be ensured" can be stated.
- `VisionHandler` is the gate pipeline. `Handle` is tied to a response function, to the settings
  it leaves behind, and to the requests it sends.
- `AppFiles`, `AppJson`, `AppCollection`, `AppResults`, `AppDocs` and `AppConnect` model, in
  turn:
  - `allowed_file`;
  - the `default=str` clean-up;
  - `get_db_collection`;
  - the `results_map` loop;
  - the collection and the document-removal sequence;
  - the connection-attempt list and loop.
- `AppState` holds the web app as a `WebApp` object: the bucket, the connection, and the
  collection with its committed state. The routes are its methods.

## Behaviour worth knowing

- The function stores a result with a blind POST (func.py:173). Nothing makes the insert
  idempotent: each invocation that reaches the store step inserts one more document.
- A failed analysis answers 500 and writes nothing (func.py:355-363). No document with a
  "failed" status is ever written.
- `ensure_collection_exists` does a GET and then, only on 404, a PUT. It does not PUT and then
  treat a conflict as success.
- `delete_file` deletes the storage object first (app.py:298). Only after that does it touch the
  database. When that deletion raises, including with a 404, the database is not touched at all.
- The writer and the reader disagree on the schema, and each side is modelled as written:
  - the function writes `image_name` into `IMAGE_ANALYSIS` (func.py:20, 163);
  - the app reads `filename` from `vision_results` (app.py:27, 209, 269).

## Model

| member | source | states |
|---|---|---|
| Text.Strip | vision_function/func.py:245-247 | `str.strip()`: the result is empty exactly when the input is all whitespace, otherwise it starts and ends with a non-space; it is a slice of the input with only whitespace before and after it; an already stripped string is returned unchanged |
| Text.Split | vision_function/func.py:241 | `str.split('/')`: at least one part, no part contains the separator, and joining the parts with it gives back the input |
| Text.SplitJoin | vision_function/func.py:241 | Splitting the join of separator-free parts gives back the parts (round trip) |
| Text.LastIndexOf | app/app.py:186 | The index of the last occurrence of the character: it holds that character and none follows |
| Text.Lower | app/app.py:186 | `lower()` keeps the length and lower-cases every ASCII letter |
| Text.Contains | app/app.py:171 | Substring test `t in s`: true exactly when `t` occurs at some index of `s` |
| Json.Lookup | vision_function/func.py:209-252 | `dict.get` finds a value exactly when some field has the key, and the value found is that of the last field with the key, as `json.loads` keeps it |
| VisionEvent.FirstName | vision_function/func.py:245-249 | A found name is non-empty and already stripped |
| VisionEvent.EventOutcomeOf | vision_function/func.py:209-265 | A body that is not a dict, or a create event whose reading raises, is malformed; any other event type is ignored; a create event read in full decodes exactly when a name was found and the bucket name is truthy, with the name from `FirstName` of the candidate list, and is missing object information otherwise |
| VisionEvent.DecodeEvent | vision_function/func.py:209-265 | The imperative decoder (list building, append, scan) returns exactly `EventOutcomeOf` of the body |
| VisionEvent.BuildPossibleNames | vision_function/func.py:229-243 | The candidate list built step by step, with the append, is exactly `PossibleNames`; None when `.split` would raise |
| VisionEvent.SelectObjectName | vision_function/func.py:245-249 | The `for … break` loop returns exactly `FirstName` of the candidate list |
| VisionEvent.FirstNameAt | vision_function/func.py:228-249 | If every candidate before index i is falsy or blank and candidate i is a string with non-blank strip, the chosen name is that strip |
| VisionEvent.FirstNameUnnamed | vision_function/func.py:245-249 | No name found means every candidate is falsy or blank |
| VisionEvent.FirstNameNamed | vision_function/func.py:245-249 | A found name is the strip of some candidate all of whose predecessors are falsy or blank |
| VisionEvent.FirstNameCrash | vision_function/func.py:245-249 | The scan raises only on a truthy non-string candidate all of whose predecessors are falsy or blank |
| VisionEvent.ResourceIdCandidateOnlyWhenUnnamed | vision_function/func.py:237-243 | The `resourceId` part is added only when the id is truthy and all five candidates are falsy, and then only when the split has at least 6 parts with `parts[4] == "o"`; the part added is `parts[5]` |
| VisionEvent.SplitCommentedResourceId | vision_function/func.py:239-241 | The commented format `/n/<ns>/b/<bucket>/o/<name>` splits into `"", "n", ns, "b", bucket, "o"` followed by the parts of the name |
| VisionEvent.PathObjectNameMissesCommentedFormat | vision_function/func.py:240-243 | On the commented format the fallback as written yields nothing unless the bucket is literally `o`, and then it yields `"o"` |
| VisionEvent.PathObjectNameExample | vision_function/func.py:240-243 | On `/n/ns/b/images/o/cat.jpg` the fallback as written yields nothing |
| VisionEvent.IntendedPathObjectNameRecovers | vision_function/func.py:239-243 | The corrected fallback recovers the object name from the commented format, slashes in the name included |
| VisionConfig.VaultOverlay | vision_function/func.py:43-72 | With no secret id set the settings are unchanged; otherwise the base URL is the ORDS URL followed by `admin/soda/latest`; a setting takes the vault's value exactly when its secret id is set and the fetch returned non-empty text (username and URL stripped, the password verbatim), and keeps its value otherwise |
| VisionConfig.VaultOverlayIdempotent | vision_function/func.py:43-72 | Running the overlay twice with the same vault answers is the same as running it once |
| VisionConfig.BlankVaultUsername | vision_function/func.py:59-61 | A vault username made only of whitespace replaces the username with "" and so leaves the function without credentials |
| VisionConfig.DbConfig.constructor | vision_function/func.py:12-23 | The globals start from the environment, with the default ORDS URL when none is given, and the derived base URL |
| VisionConfig.DbConfig.LoadFromVault | vision_function/func.py:43-72 | The globals after the call are exactly `VaultOverlay` of the globals before |
| VisionStore.SodaRemote.Send | vision_function/func.py:83-179 | A request joins the trace and gets the remote's reply for its verb |
| VisionStore.EnsureCollectionExists | vision_function/func.py:74-149 | GET 200 is true with no PUT; GET 404 issues one PUT and is true iff it answers 200 or 201; any other status or an exception is false |
| VisionStore.StoreRequests | vision_function/func.py:151-179 | The requests start with the GET; an insert of exactly the document is issued iff the collection was ensured, and then as the last request |
| VisionStore.StoreAnalysisResult | vision_function/func.py:151-194 | True iff the collection was ensured and the POST answered 201 with a JSON object; the trace grows by exactly `StoreRequests` |
| VisionHandler.HandlerResponse | vision_function/func.py:196-409 | Status 200 exactly for ignored events (with the "Event ignored" body) and completed analyses, 400 exactly for events missing the object or bucket name, 500 otherwise (an internal error for a malformed event); a decoded event meets the gates in order, each answering its own 500 and cutting off the later ones: missing credentials, then failed client set-up, then a raised analysis, then a failed store; completion iff every gate passed and the store step succeeded, with the stripped name, bucket and object count |
| VisionHandler.HandlerWritesOnlyAfterAllGates | vision_function/func.py:267-397 | An insert is sent only when the event decoded, credentials are present, the clients initialised and the analysis succeeded, and it carries the name, bucket and detected objects |
| VisionHandler.Handle | vision_function/func.py:196-409 | The response is `HandlerResponse`; the settings change only for a decoded event (by the vault overlay); the store sees no request unless every earlier gate passed |
| AppFiles.Extension | app/app.py:186 | `rsplit('.', 1)[1]` is the dot-free text after the last dot |
| AppFiles.AllowedFileIff | app/app.py:185-186 | A name is allowed iff it has a dot at which it splits into a stem and a dot-free extension whose lower-case form is png, jpg, jpeg or gif |
| AppFiles.UpperCaseExtensionAllowed | app/app.py:185-186 | "a.JPG" is allowed |
| AppFiles.BareExtensionRefused | app/app.py:185-186 | "jpg" is refused |
| AppFiles.DoubleExtensionRefused | app/app.py:185-186 | "a.tar.gz" is refused |
| AppJson.Normalize | app/app.py:274 | The cleaned value holds only JSON-native leaves; an opaque leaf becomes its string text, a native leaf is kept; a list is cleaned element by element and a dict value by value, with its keys in order |
| AppJson.NormalizeForeignId | app/app.py:274 | A document with a native `filename` and a non-JSON `_id` keeps the filename and gets the `_id`'s text |
| AppJson.NormalizeKeepsNative | app/app.py:274 | A value already made of JSON-native values is unchanged |
| AppJson.NormalizeIdempotent | app/app.py:274 | Cleaning twice is the same as cleaning once |
| AppCollection.GetDbCollection | app/app.py:139-183 | It raises exactly when there is no connection; the opened collection is used exactly when the first open finds one; it is created exactly when the first create succeeds; it is re-created exactly when the create error mentions ORA-40669, the re-open does not raise, a found collection drops, and the second create succeeds; a drop happens exactly when the error mentions ORA-40669 and the re-open finds the collection and drop succeeds; every other outcome re-raises the first create error |
| AppCollection.FailedDropReraises | app/app.py:172-183 | An ORA-40669 create error whose recovery fails at the drop re-raises the original create error, with nothing dropped |
| AppCollection.MismatchErrorRecreates | app/app.py:165-180 | A create error whose text begins with ORA-40669, with the collection found again, leads to a drop and a successful re-creation |
| AppResults.FirstUnreadable | app/app.py:205-212 | The index of the first document that is not a dict or whose filename cannot be a dict key, with every earlier one readable |
| AppResults.BuildResultsMap | app/app.py:205-212 | The map's keys are exactly the `filename` values of the documents before the first unreadable one (documents without one add nothing), all mapped to true, and the loop stops at that document |
| AppDocs.Filter | app/app.py:312-322 | A removal keeps exactly the documents that do not match it |
| AppDocs.FilterUnique | app/app.py:312-322 | Removing documents keeps the remaining keys unique |
| AppDocs.FindByKey | app/app.py:319-330 | A lookup by key finds a document with that key, and finds none exactly when no document has it |
| AppDocs.FindByFilename | app/app.py:306 | A lookup by filename finds a document with that filename, and finds none exactly when no document has it |
| AppDocs.RemoveDocumentKeepsOthers | app/app.py:310-341 | The removal only takes documents away, and keeps every document with another key that does not carry the key as `_id` |
| AppDocs.RemoveDocumentUnique | app/app.py:310-341 | Keys stay unique across the removal |
| AppDocs.RemoveDocumentVerdict | app/app.py:310-341 | The first call removes by key; an exception rolls back to the state before and ends with the rollback; otherwise a commit is followed by the verification lookup, and success is reported iff the key is no longer found |
| AppDocs.IdFallbackOnlyWhenKeyRemains | app/app.py:316-323 | The `_id` removal runs iff the key removal returned 0 and the key is still found |
| AppDocs.EffectiveRemoveVerified | app/app.py:312-333 | A key removal that takes effect, followed by a commit, is reported as deleted, whatever count it returned |
| AppConnect.ConnectionPlan | app/app.py:54-106 | No attempt list exactly when there is no wallet and no non-empty DSN; a wallet gives the five wallet attempts in the source's order (auto-login, ADMIN with `DB_PASSWORD` or "", wallet location, config dir, ADMIN without password); otherwise the two DSN attempts |
| AppConnect.TryConnections | app/app.py:108-121 | Attempts run in order, every attempt before the last one tried failed, a connection is the last attempt tried, and no connection means every attempt failed |
| AppConnect.FirstConnection | app/app.py:108-118 | No connection iff every attempt fails; otherwise the connection is an attempt that connects with every earlier one failing |
| AppConnect.DbConnection | app/app.py:52-121 | No connection iff no attempt list was built or every attempt failed |
| AppState.DeleteRouteStorageFirst | app/app.py:297-348 | The object deletion is the first call; when it raises, no database call is made and nothing changes, and a 404 shows no message; otherwise the object is gone from the bucket |
| AppState.DeleteRouteKeepsOtherDocuments | app/app.py:301-344 | Unless the collection had to be dropped, only the document found by filename is removed (and any carrying its key as `_id`); no match leaves the collection as it was |
| AppState.DeleteAnalysisKeepsOtherDocuments | app/app.py:301-344 | The database half alone: only documents are removed, none is added, and the only ones lost are the one found by filename and any carrying its key as `_id` |
| AppState.WebApp.constructor | app/app.py:39-135 | The storage client is set after Resource Principals or the local config; the database connection is the plan's first successful attempt, only with Resource Principals |
| AppState.WebApp.OpenCollection | app/app.py:139-183 | `get_db_collection` on a live connection; a drop empties the collection |
| AppState.WebApp.Index | app/app.py:188-226 | No storage client, a listing error (404 with a warning) or no database each give their message; otherwise the images are the bucket's names and the results are those `BuildResultsMap` gathers, with an error message when it stopped early |
| AppState.WebApp.UploadFile | app/app.py:228-258 | The bucket changes only for a present, named, allowed file that was saved and put, under its secured name; each refusal gives its message and redirect, a failed save is a server error and a failed put an error message; when removing the local copy raises, the route is a server error, with the bucket already updated if the put succeeded |
| AppState.WebApp.ViewResult | app/app.py:260-289 | The result page shows the cleaned content of the first document with that filename; the "not found" warning, with a redirect to the index, is given exactly when no document has that filename and every document is a dict; a failed collection access, or a non-dict document met by the not-found listing, gives the retrieval-error redirect to the index |
| AppState.WebApp.RemoveFound | app/app.py:306-341 | The step-by-step removal leaves exactly the collection, calls and verdict of `RemoveDocument`, and keeps nothing uncommitted |
| AppState.WebApp.DeleteAnalysisOf | app/app.py:301-344 | The database half of the route equals `DeleteAnalysis` |
| AppState.WebApp.DeleteFile | app/app.py:291-353 | The bucket, the collection, the messages and the call sequence are exactly those of `DeleteRoute`, with a redirect to the index |

The contracts above refer to these definitions:

- `VisionEvent.PathObjectName` is the `resourceId` guard and pick as written (vision_function/func.py:241-243).
- `VisionEvent.PossibleNames` is the candidate list with its appended part (vision_function/func.py:228-243).
- `VisionEvent.ReadEvent` is everything read from a create event, or nothing when a read raises (vision_function/func.py:218-252).
- `VisionStore.EnsureSucceeds` and `VisionStore.StoreSucceeds` are the success conditions of `ensure_collection_exists` and of the insert (vision_function/func.py:74-194).
- `AppFiles.AllowedFile` is `allowed_file` (app/app.py:185-186).
- `AppDocs.RemoveDocument` is the removal sequence of `delete_file` (app/app.py:310-341).
- `AppState.DeleteAnalysis` and `AppState.DeleteRoute` are the database half and the whole of `delete_file` (app/app.py:291-353).

The event decoder keeps the fallback as written, so that the model describes what the deployed
function does. `VisionEvent.IntendedPathObjectName` is the corrected definition, and the
property the fallback was meant to have is proved about it.

## Left out

- The OCI SDK is not modelled. That covers the resource-principal signer, `SecretsClient` with its base64 decoding, `AIServiceVisionClient` and `ObjectStorageClient`. Each call is an input: success, a value, or an exception.
- The `requests` transport and the SODA collection metadata payloads are not modelled. Only status codes and whether the body is a JSON object matter.
- Confidence values and bounding boxes are floating-point arithmetic and are left out (func.py:336-351). A detected object keeps only its name, and the response reports how many there were.
- The `datetime.utcnow()` timestamp in the stored document is left out, because it is nondeterministic.
- Flask routing, templates and `flash` are left out. A page is a value carrying its flash messages as a list. The `/debug` route is left out.
- `werkzeug.secure_filename` is a library whose code is not part of this model. The secured name is an input, and so are the outcomes of saving the local copy, of the put and of removing the copy.
- `oracledb` thick-mode initialisation is left out, and so is real SODA semantics. The collection is an ordered list of keyed documents. A filter matches a content field. `getOne` returns the first match. `remove` by key may or may not take effect and reports a count of its own.
- A failure partway through Resource Principals set-up is folded into one flag, and so is one partway through the local-config fallback. A storage client created before `get_namespace` failed is not told apart. `flash` outside a request context raises in the local-config branch, but the client is already set by then, so the flag is still right.
- `getSodaDatabase()` raising and a `find()` raising are not modelled.
- A rollback that itself raises is not modelled.
- `AppState.WebApp.Index`: the images are the bucket's set of names. The order of the `list_objects` page and its page limit (app.py:198-199) are not modelled, because the bucket is a map without an order.
- Python's `1 == True` collision between dict keys is not modelled for `results_map`.
- Unicode case mapping is not modelled: `lower()` is ASCII only.
- The JSON values a document can hold leave out floats.
- `json.loads` failing on the event body is the single input "no body".

## Findings

| source | as written | input that shows it | evidently intended | confidence | as-written member | corrected member |
|---|---|---|---|---|---|---|
| vision_function/func.py:239-243 | The `resourceId` fallback requires `parts[4] == "o"` and takes `parts[5]`, but the leading `/` of the documented format `/n/<ns>/b/<bucket>/o/<name>` makes `parts[0]` empty, so `parts[4]` is the bucket | `/n/ns/b/images/o/cat.jpg` yields no name | Test `parts[5] == "o"` and take the rest of the path from `parts[6]` on | not executed | VisionEvent.PathObjectNameMissesCommentedFormat | VisionEvent.IntendedPathObjectNameRecovers |
