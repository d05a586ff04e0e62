/**
 * The vision function's REST conversation with the document store:
 * `ensure_collection_exists` (GET the collection, PUT it on 404) and
 * `store_analysis_result_via_rest` (ensure, then POST the document). The
 * store is a remote that answers each verb with a fixed reply and keeps
 * the trace of requests it received.
 */
module VisionStore {
  import opened Common
  import opened Json
  import VisionConfig

  /** What the body of a reply parses to with `response.json()`. */
  datatype ReplyBody = JsonObject | JsonOther | NotJson

  /** An HTTP reply, or an exception raised by `requests` (timeout, connection error). */
  datatype Reply = Http(status: int, body: ReplyBody) | Raised

  /** HTTP Basic credentials `(DB_USERNAME, db_password)`. */
  datatype Auth = Auth(username: Option<string>, password: Option<string>)

  /** One object the analysis reported; confidence and bounding box are not modelled. */
  datatype VisionObject = VisionObject(name: string)

  /** The document POSTed for one image (its UTC timestamp is not modelled). */
  datatype StoredDocument = StoredDocument(imageName: string, bucketName: Value, objects: seq<VisionObject>)

  datatype Request =
    | GetCollection(url: string, auth: Auth)
    | CreateCollection(url: string, auth: Auth)
    | InsertDocument(url: string, auth: Auth, doc: StoredDocument)

  predicate StatusIs(r: Reply, code: int) {
    r.Http? && r.status == code
  }

  /** `f"{DB_BASE_URL}/{DB_COLLECTION}"` */
  function CollectionUrl(baseUrl: string): string {
    baseUrl + "/" + VisionConfig.Collection
  }

  /** Whether `ensure_collection_exists` answers True, given the GET and PUT replies. */
  predicate EnsureSucceeds(getReply: Reply, putReply: Reply) {
    StatusIs(getReply, 200) || (StatusIs(getReply, 404) && (StatusIs(putReply, 200) || StatusIs(putReply, 201)))
  }

  /** The requests `ensure_collection_exists` issues: a PUT only after a 404. */
  function EnsureRequests(getReply: Reply, url: string, auth: Auth): seq<Request> {
    if StatusIs(getReply, 404) then [GetCollection(url, auth), CreateCollection(url, auth)]
    else [GetCollection(url, auth)]
  }

  predicate NoInsert(reqs: seq<Request>) {
    forall i | 0 <= i < |reqs| :: !reqs[i].InsertDocument?
  }

  class SodaRemote {
    const getReply: Reply
    const putReply: Reply
    const postReply: Reply
    var trace: seq<Request>

    constructor (getReply: Reply, putReply: Reply, postReply: Reply)
      ensures this.getReply == getReply && this.putReply == putReply && this.postReply == postReply
      ensures trace == []
    {
      this.getReply := getReply;
      this.putReply := putReply;
      this.postReply := postReply;
      trace := [];
    }

    function ReplyTo(req: Request): Reply {
      match req
      case GetCollection(_, _) => getReply
      case CreateCollection(_, _) => putReply
      case InsertDocument(_, _, _) => postReply
    }

    /** Issue one request: it joins the trace and gets the reply for its verb. */
    method Send(req: Request) returns (reply: Reply)
      modifies this
      ensures trace == old(trace) + [req]
      ensures reply == ReplyTo(req)
    {
      trace := trace + [req];
      reply := ReplyTo(req);
    }
  }

  /**
   * `ensure_collection_exists`: GET 200 is True with no PUT; GET 404 sends
   * a PUT and is True iff it answers 200 or 201; any other status or an
   * exception is False.
   */
  method EnsureCollectionExists(remote: SodaRemote, cfg: VisionConfig.DbConfig, password: Option<string>)
    returns (ok: bool)
    modifies remote
    ensures ok == EnsureSucceeds(remote.getReply, remote.putReply)
    ensures remote.trace == old(remote.trace) +
      EnsureRequests(remote.getReply, CollectionUrl(cfg.baseUrl), Auth(cfg.username, password))
  {
    var auth := Auth(cfg.username, password);
    var url := CollectionUrl(cfg.baseUrl);
    var response := remote.Send(GetCollection(url, auth));
    if response.Raised? {
      return false;
    }
    if response.status == 200 {
      return true;
    } else if response.status == 404 {
      var created := remote.Send(CreateCollection(url, auth));
      if created.Raised? {
        return false;
      }
      return created.status == 200 || created.status == 201;
    } else {
      return false;
    }
  }

  /** Whether `store_analysis_result_via_rest` answers True, given the replies to each verb. */
  predicate StoreSucceeds(getReply: Reply, putReply: Reply, postReply: Reply) {
    EnsureSucceeds(getReply, putReply) && postReply == Http(201, JsonObject)
  }

  /**
   * The requests `store_analysis_result_via_rest` issues: always the GET
   * first, an insert of exactly `doc` if and only if the collection was
   * ensured, and then as the last request.
   */
  function StoreRequests(getReply: Reply, putReply: Reply, url: string, auth: Auth, doc: StoredDocument): (r: seq<Request>)
    ensures 1 <= |r| <= 3 && r[0] == GetCollection(url, auth)
    ensures NoInsert(r) <==> !EnsureSucceeds(getReply, putReply)
    ensures !NoInsert(r) ==> r[|r| - 1] == InsertDocument(url, auth, doc) && NoInsert(r[..|r| - 1])
  {
    var ensured := EnsureRequests(getReply, url, auth);
    if EnsureSucceeds(getReply, putReply) then
      var r := ensured + [InsertDocument(url, auth, doc)];
      assert r[|r| - 1].InsertDocument?;
      r
    else ensured
  }

  /**
   * `store_analysis_result_via_rest`: no POST when the collection cannot be
   * ensured; otherwise one POST of the document, True iff it answers 201
   * with a JSON object body (`response.json().get('id')` raises otherwise).
   */
  method StoreAnalysisResult(remote: SodaRemote, cfg: VisionConfig.DbConfig, imageName: string,
                             bucketName: Value, objects: seq<VisionObject>, password: Option<string>)
    returns (ok: bool)
    modifies remote
    ensures ok == StoreSucceeds(remote.getReply, remote.putReply, remote.postReply)
    ensures remote.trace == old(remote.trace) +
      StoreRequests(remote.getReply, remote.putReply, CollectionUrl(cfg.baseUrl),
                    Auth(cfg.username, password), StoredDocument(imageName, bucketName, objects))
  {
    var ensured := EnsureCollectionExists(remote, cfg, password);
    if !ensured {
      return false;
    }
    var document := StoredDocument(imageName, bucketName, objects);
    var auth := Auth(cfg.username, password);
    var reply := remote.Send(InsertDocument(CollectionUrl(cfg.baseUrl), auth, document));
    if reply.Raised? || reply.status != 201 {
      return false;
    }
    return reply.body == JsonObject;
  }
}
