/**
 * The web app's state and routes. The state is the Object Storage bucket
 * (object name to bytes), whether the storage client and the database
 * connection were set up, and the `vision_results` collection as this
 * connection sees it (`docs`) next to what is committed (`committed`).
 * Each route is a method; the answers of the cloud services are inputs.
 */
module AppState {
  import opened Common
  import opened Json
  import opened AppFiles
  import opened AppJson
  import opened AppCollection
  import opened AppResults
  import opened AppDocs
  import opened AppConnect

  type Blob = seq<bv8>

  /** `flash`'s category; "message" is the default. */
  datatype Category = Message | Warning | Error

  datatype Note =
    | StorageNotInitialized
    | StorageNotConfigured
    | NoFilePart
    | NoSelectedFile
    | Uploaded(filename: string)
    | UploadFailed
    | TypeNotAllowed
    | BucketNotFound
    | ListingFailed
    | PageFailed
    | DbNotConnected
    | DbUnavailable
    | RetrievalFailed(filename: string)
    | AnalysisNotFound(filename: string)
    | FileDeleted(filename: string)
    | AnalysisDeleted(filename: string)
    | AnalysisMayRemain(filename: string)
    | AnalysisDeleteFailed(filename: string)
    | NoAnalysisFor(filename: string)
    | StorageDeleteFailed
    | DeletionFailed

  datatype Flash = Flash(note: Note, category: Category)

  /** `redirect(url_for('index'))`, or `redirect(request.url)` back to the form. */
  datatype Target = ToIndex | ToSamePage

  datatype Page =
    | IndexPage(images: set<string>, results: map<Value, bool>, flashes: seq<Flash>)
    | ResultPage(filename: string, data: Value)
    | Redirect(target: Target, flashes: seq<Flash>)
    | ServerError

  /** `object_storage_client.list_objects`: the listing, a service error with its status, or another exception. */
  datatype ListReply = Listed | ListServiceError(status: int) | ListRaised

  /** The uploaded form part: the client's file name and the bytes. */
  datatype FilePart = FilePart(filename: string, content: Blob)

  /** An exception from `delete_object`: a service error with its status, or another one. */
  datatype StorageFault = ServiceFault(status: int) | OtherFault

  /** How `delete_object` ends: deleting a name the bucket does not hold is a 404. */
  function StorageDelete(objects: map<string, Blob>, filename: string, fault: Option<StorageFault>): Option<StorageFault> {
    if fault.Some? then fault
    else if filename !in objects then Some(ServiceFault(404))
    else None
  }

  /** The calls `delete_file` makes, in order. */
  datatype Step = DeleteObjectStep(filename: string) | OpenCollectionStep | FindFilenameStep(filename: string) | Db(step: DbStep)

  function VerdictFlash(verdict: Verdict, filename: string): Flash {
    match verdict
    case Verified => Flash(AnalysisDeleted(filename), Message)
    case StillThere => Flash(AnalysisMayRemain(filename), Message)
    case RemoveError => Flash(AnalysisDeleteFailed(filename), Message)
  }

  function ToSteps(steps: seq<DbStep>): (r: seq<Step>)
    ensures |r| == |steps| && forall i | 0 <= i < |steps| :: r[i] == Db(steps[i])
  {
    seq(|steps|, i requires 0 <= i < |steps| => Db(steps[i]))
  }

  /** The new state and answer of `delete_file`. */
  datatype Deletion = Deletion(objects: map<string, Blob>, docs: seq<Doc>, flashes: seq<Flash>, steps: seq<Step>)

  /** The database part of `delete_file`, after the object was deleted. */
  function DeleteAnalysis(docs: seq<Doc>, filename: string, soda: SodaReplies, replies: RemoveReplies): (seq<Doc>, seq<Flash>, seq<Step>) {
    var access := GetDbCollection(true, soda);
    var base := if access.dropped then [] else docs;
    if access.result.Failed? then (base, [Flash(DeletionFailed, Error)], [OpenCollectionStep])
    else match FindByFilename(base, filename)
      case None => (base, [Flash(NoAnalysisFor(filename), Message)], [OpenCollectionStep, FindFilenameStep(filename)])
      case Some(doc) =>
        var r := RemoveDocument(base, doc.key, replies);
        (r.docs, [VerdictFlash(r.verdict, filename)], [OpenCollectionStep, FindFilenameStep(filename)] + ToSteps(r.steps))
  }

  /**
   * `delete_file` on values: the object is deleted first; an exception from
   * that call ends the route (a 404 without a message); only then, with a
   * database connection, is the analysis document looked up and removed.
   */
  function DeleteRoute(storageReady: bool, connected: bool, objects: map<string, Blob>, docs: seq<Doc>,
                       filename: string, fault: Option<StorageFault>, soda: SodaReplies, replies: RemoveReplies): Deletion
  {
    if !storageReady then Deletion(objects, docs, [Flash(StorageNotConfigured, Error)], [])
    else match StorageDelete(objects, filename, fault)
      case Some(ServiceFault(status)) =>
        Deletion(objects, docs, if status == 404 then [] else [Flash(StorageDeleteFailed, Error)], [DeleteObjectStep(filename)])
      case Some(OtherFault) =>
        Deletion(objects, docs, [Flash(DeletionFailed, Error)], [DeleteObjectStep(filename)])
      case None =>
        var deleted := objects - {filename};
        var first := [Flash(FileDeleted(filename), Message)];
        if !connected then Deletion(deleted, docs, first, [DeleteObjectStep(filename)])
        else
          var (newDocs, flashes, steps) := DeleteAnalysis(docs, filename, soda, replies);
          Deletion(deleted, newDocs, first + flashes, [DeleteObjectStep(filename)] + steps)
  }

  /**
   * The object is deleted before any database call; when that deletion
   * raises no database call is made, nothing changes, and a 404 is silent.
   */
  lemma DeleteRouteStorageFirst(storageReady: bool, connected: bool, objects: map<string, Blob>, docs: seq<Doc>,
                                filename: string, fault: Option<StorageFault>, soda: SodaReplies, replies: RemoveReplies)
    requires storageReady
    ensures var r := DeleteRoute(storageReady, connected, objects, docs, filename, fault, soda, replies);
            && r.steps[0] == DeleteObjectStep(filename)
            && (StorageDelete(objects, filename, fault).Some? ==> r.steps == [DeleteObjectStep(filename)] && r.objects == objects && r.docs == docs)
            && (StorageDelete(objects, filename, fault) == Some(ServiceFault(404)) ==> r.flashes == [])
            && (StorageDelete(objects, filename, fault).None? ==> r.objects == objects - {filename} && filename in objects)
  {
  }

  /**
   * Unless the collection had to be dropped, the route removes only the
   * document found by the file name: every other document whose content
   * does not carry that document's key as `_id` is kept, and nothing is
   * added.
   */
  lemma DeleteRouteKeepsOtherDocuments(storageReady: bool, connected: bool, objects: map<string, Blob>, docs: seq<Doc>,
                                       filename: string, fault: Option<StorageFault>, soda: SodaReplies, replies: RemoveReplies)
    requires UniqueKeys(docs)
    requires !GetDbCollection(true, soda).dropped
    ensures var r := DeleteRoute(storageReady, connected, objects, docs, filename, fault, soda, replies);
            && (forall d | d in r.docs :: d in docs)
            && (FindByFilename(docs, filename).None? ==> r.docs == docs)
            && (FindByFilename(docs, filename).Some? ==>
                  var target := FindByFilename(docs, filename).value;
                  forall d | d in docs && d != target && !HasId(d, target.key) :: d in r.docs)
  {
    var r := DeleteRoute(storageReady, connected, objects, docs, filename, fault, soda, replies);
    assert r.docs == docs || r.docs == DeleteAnalysis(docs, filename, soda, replies).0;
    DeleteAnalysisKeepsOtherDocuments(docs, filename, soda, replies);
  }

  lemma DeleteAnalysisKeepsOtherDocuments(docs: seq<Doc>, filename: string, soda: SodaReplies, replies: RemoveReplies)
    requires UniqueKeys(docs)
    requires !GetDbCollection(true, soda).dropped
    ensures var after := DeleteAnalysis(docs, filename, soda, replies).0;
            && (forall d | d in after :: d in docs)
            && (FindByFilename(docs, filename).None? ==> after == docs)
            && (FindByFilename(docs, filename).Some? ==>
                  var target := FindByFilename(docs, filename).value;
                  forall d | d in docs && d != target && !HasId(d, target.key) :: d in after)
  {
    var found := FindByFilename(docs, filename);
    if found.Some? {
      var target := found.value;
      RemoveDocumentKeepsOthers(docs, target.key, replies);
      forall d | d in docs && d != target ensures d.key != target.key {
        var i :| 0 <= i < |docs| && docs[i] == d;
        var j :| 0 <= j < |docs| && docs[j] == target;
        assert i != j;
      }
    }
  }

  class WebApp {
    var storageReady: bool          // object_storage_client is set
    var db: Option<Attempt>         // db_connection, and the attempt that made it
    var objects: map<string, Blob>  // the bucket `oci-image-analysis-bucket`
    var docs: seq<Doc>              // the collection as this connection sees it
    var committed: seq<Doc>         // the committed collection

    /** Between requests there is nothing uncommitted, and keys are unique. */
    ghost predicate Valid()
      reads this
    {
      docs == committed && UniqueKeys(docs)
    }

    /**
     * `init_oci_clients`: with Resource Principals the storage client is
     * set and the attempt list is tried; without them the local config may
     * still set the storage client, but never a database connection.
     */
    constructor (principalOk: bool, localOk: bool, walletExists: bool, dbPasswordEnv: Option<string>,
                 dsnEnv: Option<string>, connects: Attempt -> bool, bucket: map<string, Blob>, stored: seq<Doc>)
      requires UniqueKeys(stored)
      ensures Valid()
      ensures storageReady == (principalOk || localOk)
      ensures db == if principalOk then DbConnection(ConnectionPlan(walletExists, dbPasswordEnv, dsnEnv), connects) else None
      ensures objects == bucket && docs == stored
    {
      var connection: Option<Attempt> := None;
      if principalOk {
        var plan := ConnectionPlan(walletExists, dbPasswordEnv, dsnEnv);
        if plan.Some? {
          var tried;
          connection, tried := TryConnections(plan.value, connects);
        }
      }
      storageReady := principalOk || localOk;
      db := connection;
      objects := bucket;
      docs := stored;
      committed := stored;
    }

    /** `get_db_collection` on a live connection; a drop empties the collection. */
    method OpenCollection(soda: SodaReplies) returns (access: Access)
      requires Valid()
      modifies this
      ensures Valid()
      ensures access == GetDbCollection(true, soda)
      ensures docs == if access.dropped then [] else old(docs)
      ensures storageReady == old(storageReady) && db == old(db) && objects == old(objects)
    {
      access := GetDbCollection(true, soda);
      if access.dropped {
        docs := [];
        committed := [];
      }
    }

    /**
     * The index page: the bucket's object names and the results map, with
     * what the listing or the collection lookup failed with as a flash.
     */
    method Index(listing: ListReply, soda: SodaReplies) returns (page: Page)
      requires Valid()
      modifies this
      ensures Valid()
      ensures page.IndexPage?
      ensures storageReady == old(storageReady) && db == old(db) && objects == old(objects)
      ensures !storageReady ==> page == IndexPage({}, map[], [Flash(StorageNotInitialized, Error)]) && docs == old(docs)
      ensures storageReady && listing.ListServiceError? ==>
        page == IndexPage({}, map[], [if listing.status == 404 then Flash(BucketNotFound, Warning) else Flash(ListingFailed, Error)])
      ensures storageReady && listing.ListRaised? ==> page == IndexPage({}, map[], [Flash(PageFailed, Error)])
      ensures storageReady && listing.Listed? && db.None? ==> page == IndexPage(objects.Keys, map[], [Flash(DbNotConnected, Warning)])
      ensures storageReady && listing.Listed? && db.Some? ==>
        && docs == (if GetDbCollection(true, soda).dropped then [] else old(docs))
        && (GetDbCollection(true, soda).result.Failed? ==> page == IndexPage(objects.Keys, map[], [Flash(PageFailed, Error)]))
        && (GetDbCollection(true, soda).result.Got? ==>
              var failedAt := FirstUnreadable(Contents(docs));
              && page.images == objects.Keys
              && page.flashes == (if failedAt.Some? then [Flash(PageFailed, Error)] else [])
              && page.results.Keys == FilenameKeys(Contents(docs)[..Processed(failedAt, |docs|)])
              && forall k | k in page.results :: page.results[k])
      ensures !(storageReady && listing.Listed? && db.Some?) ==> docs == old(docs)
    {
      if !storageReady {
        return IndexPage({}, map[], [Flash(StorageNotInitialized, Error)]);
      }
      match listing
      case ListServiceError(status) =>
        return IndexPage({}, map[], [if status == 404 then Flash(BucketNotFound, Warning) else Flash(ListingFailed, Error)]);
      case ListRaised =>
        return IndexPage({}, map[], [Flash(PageFailed, Error)]);
      case Listed =>
        var images := objects.Keys;
        if db.None? {
          return IndexPage(images, map[], [Flash(DbNotConnected, Warning)]);
        }
        var access := OpenCollection(soda);
        if access.result.Failed? {
          return IndexPage(images, map[], [Flash(PageFailed, Error)]);
        }
        var results, failedAt := BuildResultsMap(Contents(docs));
        if failedAt.Some? {
          return IndexPage(images, results, [Flash(PageFailed, Error)]);
        }
        return IndexPage(images, results, []);
    }

    /**
     * `upload_file`: nothing is put into the bucket without a file part, with
     * an empty file name or with a file type that is not allowed. The name
     * stored under is what `secure_filename` made of the client's name. The
     * local copy is removed in a `finally`: when that raises the route fails
     * with a server error, after the put has already changed the bucket.
     */
    method UploadFile(file: Option<FilePart>, securedName: string, saveOk: bool, putOk: bool, removeOk: bool)
      returns (page: Page)
      requires Valid()
      modifies this
      ensures Valid()
      ensures storageReady == old(storageReady) && db == old(db) && docs == old(docs)
      ensures objects == if storageReady && file.Some? && file.value.filename != "" &&
                            AllowedFile(file.value.filename) && saveOk && putOk
                         then old(objects)[securedName := file.value.content] else old(objects)
      ensures !storageReady ==> page == Redirect(ToIndex, [Flash(StorageNotConfigured, Error)])
      ensures storageReady && file.None? ==> page == Redirect(ToSamePage, [Flash(NoFilePart, Message)])
      ensures storageReady && file.Some? && file.value.filename == "" ==> page == Redirect(ToSamePage, [Flash(NoSelectedFile, Message)])
      ensures storageReady && file.Some? && file.value.filename != "" && !AllowedFile(file.value.filename) ==>
        page == Redirect(ToSamePage, [Flash(TypeNotAllowed, Message)])
      ensures storageReady && file.Some? && file.value.filename != "" && AllowedFile(file.value.filename) ==>
        page == if !saveOk || !removeOk then ServerError
                else if !putOk then Redirect(ToIndex, [Flash(UploadFailed, Error)])
                else Redirect(ToIndex, [Flash(Uploaded(securedName), Message)])
    {
      if !storageReady {
        return Redirect(ToIndex, [Flash(StorageNotConfigured, Error)]);
      }
      if file.None? {
        return Redirect(ToSamePage, [Flash(NoFilePart, Message)]);
      }
      var part := file.value;
      if part.filename == "" {
        return Redirect(ToSamePage, [Flash(NoSelectedFile, Message)]);
      }
      if AllowedFile(part.filename) {
        if !saveOk {
          return ServerError;
        }
        if putOk {
          objects := objects[securedName := part.content];
        }
        if !removeOk {
          return ServerError;
        }
        if !putOk {
          return Redirect(ToIndex, [Flash(UploadFailed, Error)]);
        }
        return Redirect(ToIndex, [Flash(Uploaded(securedName), Message)]);
      } else {
        return Redirect(ToSamePage, [Flash(TypeNotAllowed, Message)]);
      }
    }

    /**
     * `view_result`: the first document whose `filename` is the requested
     * name, cleaned by `Normalize`; when there is none, the listing of all
     * documents that follows raises on a document that is not a dict.
     */
    method ViewResult(filename: string, soda: SodaReplies) returns (page: Page)
      requires Valid()
      modifies this
      ensures Valid()
      ensures storageReady == old(storageReady) && db == old(db) && objects == old(objects)
      ensures db.None? ==> page == Redirect(ToIndex, [Flash(DbUnavailable, Error)]) && docs == old(docs)
      ensures db.Some? ==> docs == if GetDbCollection(true, soda).dropped then [] else old(docs)
      ensures page.ResultPage? <==>
        db.Some? && GetDbCollection(true, soda).result.Got? && FindByFilename(docs, filename).Some?
      ensures page.ResultPage? ==>
        page == ResultPage(filename, Normalize(FindByFilename(docs, filename).value.content)) && IsNative(page.data)
      ensures page == Redirect(ToIndex, [Flash(AnalysisNotFound(filename), Warning)]) <==>
        && db.Some? && GetDbCollection(true, soda).result.Got? && FindByFilename(docs, filename).None?
        && forall i | 0 <= i < |docs| :: docs[i].content.Obj?
      ensures db.Some? && (GetDbCollection(true, soda).result.Failed? ||
                           (FindByFilename(docs, filename).None? && exists i | 0 <= i < |docs| :: !docs[i].content.Obj?)) ==>
        page == Redirect(ToIndex, [Flash(RetrievalFailed(filename), Error)])
    {
      if db.None? {
        return Redirect(ToIndex, [Flash(DbUnavailable, Error)]);
      }
      var access := OpenCollection(soda);
      if access.result.Failed? {
        return Redirect(ToIndex, [Flash(RetrievalFailed(filename), Error)]);
      }
      var found := FindByFilename(docs, filename);
      if found.Some? {
        return ResultPage(filename, Normalize(found.value.content));
      }
      var i := 0;
      while i < |docs|
        invariant 0 <= i <= |docs|
        invariant forall j | 0 <= j < i :: docs[j].content.Obj?
      {
        if !docs[i].content.Obj? {
          return Redirect(ToIndex, [Flash(RetrievalFailed(filename), Error)]);
        }
        i := i + 1;
      }
      return Redirect(ToIndex, [Flash(AnalysisNotFound(filename), Warning)]);
    }

    /**
     * The removal of the document with `key`, step by step: remove by key,
     * the `_id` fallback when the count is 0 and the key is still found,
     * commit and verification, and a rollback on any exception.
     */
    method RemoveFound(key: string, replies: RemoveReplies) returns (verdict: Verdict, steps: seq<DbStep>)
      requires Valid()
      modifies this
      ensures Valid()
      ensures var r := RemoveDocument(old(docs), key, replies);
              docs == r.docs && verdict == r.verdict && steps == r.steps
      ensures storageReady == old(storageReady) && db == old(db) && objects == old(objects)
    {
      FilterUnique(docs, (d: Doc) => d.key != key);
      steps := [RemoveKeyStep(key)];
      match replies.keyRemove
      case KeyRemoveRaised =>
        docs := committed;
        return RemoveError, steps + [RollbackStep];
      case KeyRemoveReply(removes, reported) =>
        if removes {
          docs := RemoveKey(docs, key);
        }
        if reported == 0 {
          steps := steps + [FindKeyStep(key)];
          if FindByKey(docs, key).Some? {
            steps := steps + [RemoveIdStep(key)];
            if replies.idRemoveRaises {
              docs := committed;
              return RemoveError, steps + [RollbackStep];
            }
            FilterUnique(docs, (d: Doc) => !HasId(d, key));
            docs := RemoveById(docs, key);
          }
        }
        steps := steps + [CommitStep];
        if !replies.commitOk {
          docs := committed;
          return RemoveError, steps + [RollbackStep];
        }
        committed := docs;
        steps := steps + [VerifyKeyStep(key)];
        verdict := if FindByKey(docs, key).None? then Verified else StillThere;
    }

    /** `delete_file`: the object first, then the analysis document; answers with a redirect to the index. */
    method DeleteFile(filename: string, fault: Option<StorageFault>, soda: SodaReplies, replies: RemoveReplies)
      returns (page: Page, steps: seq<Step>)
      requires Valid()
      modifies this
      ensures Valid()
      ensures storageReady == old(storageReady) && db == old(db)
      ensures page.Redirect? && page.target == ToIndex
      ensures Deletion(objects, docs, page.flashes, steps) ==
        DeleteRoute(old(storageReady), old(db).Some?, old(objects), old(docs), filename, fault, soda, replies)
    {
      if !storageReady {
        return Redirect(ToIndex, [Flash(StorageNotConfigured, Error)]), [];
      }
      steps := [DeleteObjectStep(filename)];
      var outcome := StorageDelete(objects, filename, fault);
      match outcome
      case Some(ServiceFault(status)) =>
        return Redirect(ToIndex, if status == 404 then [] else [Flash(StorageDeleteFailed, Error)]), steps;
      case Some(OtherFault) =>
        return Redirect(ToIndex, [Flash(DeletionFailed, Error)]), steps;
      case None =>
        objects := objects - {filename};
        var flashes := [Flash(FileDeleted(filename), Message)];
        if db.None? {
          return Redirect(ToIndex, flashes), steps;
        }
        var more, dbSteps := DeleteAnalysisOf(filename, soda, replies);
        return Redirect(ToIndex, flashes + more), steps + dbSteps;
    }

    /** The database half of `delete_file`, once the object is gone. */
    method DeleteAnalysisOf(filename: string, soda: SodaReplies, replies: RemoveReplies)
      returns (flashes: seq<Flash>, steps: seq<Step>)
      requires Valid()
      modifies this
      ensures Valid()
      ensures storageReady == old(storageReady) && db == old(db) && objects == old(objects)
      ensures (docs, flashes, steps) == DeleteAnalysis(old(docs), filename, soda, replies)
    {
      var access := OpenCollection(soda);
      steps := [OpenCollectionStep];
      if access.result.Failed? {
        return [Flash(DeletionFailed, Error)], steps;
      }
      steps := steps + [FindFilenameStep(filename)];
      var found := FindByFilename(docs, filename);
      assert docs == if access.dropped then [] else old(docs);
      if found.None? {
        assert steps == [OpenCollectionStep, FindFilenameStep(filename)];
        assert DeleteAnalysis(old(docs), filename, soda, replies) ==
          (docs, [Flash(NoAnalysisFor(filename), Message)], steps);
        return [Flash(NoAnalysisFor(filename), Message)], steps;
      }
      var base := docs;
      assert steps == [OpenCollectionStep, FindFilenameStep(filename)];
      assert FindByFilename(if GetDbCollection(true, soda).dropped then [] else old(docs), filename) == found;
      var verdict, dbSteps := RemoveFound(found.value.key, replies);
      var removal := RemoveDocument(base, found.value.key, replies);
      assert DeleteAnalysis(old(docs), filename, soda, replies) ==
        (removal.docs, [VerdictFlash(removal.verdict, filename)], steps + ToSteps(removal.steps));
      return [VerdictFlash(verdict, filename)], steps + ToSteps(dbSteps);
    }
  }
}
