/**
 * The vision function's `handler`: a pipeline of gates, each of which can
 * end the invocation with its own status, in this order: the event body
 * must parse, the event must be an object creation, it must name an
 * object and a bucket, the database credentials must be present after the
 * vault overlay, the cloud clients must initialise, the analysis must
 * succeed, and the result must be stored. Only the last gate talks to the
 * document store.
 */
module VisionHandler {
  import opened Common
  import opened Json
  import opened VisionEvent
  import opened VisionConfig
  import opened VisionStore

  /** What the vision service returned for the image, or an exception from the SDK. */
  datatype Analysis = Detected(objects: seq<VisionObject>) | AnalysisRaised

  /** Everything the invocation learns from outside: vault ids and answers, client set-up, the analysis. */
  datatype Environment = Environment(ids: SecretIds, vault: VaultReplies, clientsOk: bool, analysis: Analysis)

  datatype ResponseBody =
    | EventIgnored
    | MissingObjectInformation
    | CredentialsNotConfigured
    | ClientInitFailed
    | AnalysisFailed
    | StoreFailed
    | Completed(imageName: string, bucketName: Value, objectsFound: nat)
    | InternalError

  datatype Response = Response(status: int, body: ResponseBody)

  /** What the event decoder makes of the invocation's data (None: `json.loads` raised). */
  function Outcome(event: Option<Value>): EventOutcome {
    if event.None? then Malformed else EventOutcomeOf(event.value)
  }

  /** Whether the invocation gets as far as storing a result. */
  predicate ReachesStore(event: Option<Value>, before: DbSettings, env: Environment) {
    && Outcome(event).Decoded?
    && HasCredentials(VaultOverlay(before, env.ids, env.vault))
    && env.clientsOk
    && env.analysis.Detected?
  }

  /**
   * The handler's answer, given the settings before the invocation and
   * whether the store step would succeed. Status 200 is given exactly to
   * ignored events and to completed analyses, 400 exactly to events that
   * name no object or bucket; everything else is 500.
   */
  function HandlerResponse(event: Option<Value>, before: DbSettings, env: Environment, stored: bool): (r: Response)
    ensures r.status in {200, 400, 500}
    ensures r.status == 200 <==> Outcome(event).Ignored? || r.body.Completed?
    ensures r.status == 400 <==> Outcome(event).MissingObjectInfo?
    ensures Outcome(event).Ignored? ==> r == Response(200, EventIgnored)
    ensures Outcome(event).MissingObjectInfo? ==> r == Response(400, MissingObjectInformation)
    ensures Outcome(event).Malformed? ==> r == Response(500, InternalError)
    ensures r.body.Completed? <==> ReachesStore(event, before, env) && stored
    ensures r.body.Completed? ==>
      r.body.imageName == Outcome(event).objectName && r.body.bucketName == Outcome(event).bucketName &&
      r.body.objectsFound == |env.analysis.objects|
    ensures r.body.CredentialsNotConfigured? ==> !HasCredentials(VaultOverlay(before, env.ids, env.vault))
    ensures Outcome(event).Decoded? && !HasCredentials(VaultOverlay(before, env.ids, env.vault)) ==>
      r == Response(500, CredentialsNotConfigured)
    ensures Outcome(event).Decoded? && HasCredentials(VaultOverlay(before, env.ids, env.vault)) && !env.clientsOk ==>
      r == Response(500, ClientInitFailed)
    ensures (Outcome(event).Decoded? && HasCredentials(VaultOverlay(before, env.ids, env.vault)) && env.clientsOk
             && env.analysis.AnalysisRaised?) ==> r == Response(500, AnalysisFailed)
    ensures ReachesStore(event, before, env) && !stored ==> r == Response(500, StoreFailed)
  {
    match Outcome(event)
    case Malformed => Response(500, InternalError)
    case Ignored => Response(200, EventIgnored)
    case MissingObjectInfo => Response(400, MissingObjectInformation)
    case Decoded(name, bucket, _) =>
      if !HasCredentials(VaultOverlay(before, env.ids, env.vault)) then Response(500, CredentialsNotConfigured)
      else if !env.clientsOk then Response(500, ClientInitFailed)
      else match env.analysis
        case AnalysisRaised => Response(500, AnalysisFailed)
        case Detected(objects) =>
          if stored then Response(200, Completed(name, bucket, |objects|)) else Response(500, StoreFailed)
  }

  /** The settings the invocation leaves behind: the overlay runs only once the event is decoded. */
  function SettingsAfter(event: Option<Value>, before: DbSettings, env: Environment): DbSettings {
    if Outcome(event).Decoded? then VaultOverlay(before, env.ids, env.vault) else before
  }

  /** The requests the invocation sends to the document store: none unless it reaches the store step. */
  function HandlerRequests(event: Option<Value>, before: DbSettings, env: Environment, getReply: Reply, putReply: Reply): seq<Request>
  {
    if ReachesStore(event, before, env) then
      var after := VaultOverlay(before, env.ids, env.vault);
      var outcome := Outcome(event);
      StoreRequests(getReply, putReply, CollectionUrl(after.baseUrl), Auth(after.username, after.password),
                    StoredDocument(outcome.objectName, outcome.bucketName, env.analysis.objects))
    else []
  }

  /**
   * Only an invocation that passes every earlier gate writes, and then it
   * inserts exactly one document: the stripped object name, the bucket and
   * the detected objects.
   */
  lemma HandlerWritesOnlyAfterAllGates(event: Option<Value>, before: DbSettings, env: Environment, getReply: Reply, putReply: Reply)
    ensures var reqs := HandlerRequests(event, before, env, getReply, putReply);
            !NoInsert(reqs) ==>
              && ReachesStore(event, before, env)
              && reqs[|reqs| - 1].doc == StoredDocument(Outcome(event).objectName, Outcome(event).bucketName, env.analysis.objects)
              && NoInsert(reqs[..|reqs| - 1])
  {
  }

  method Handle(event: Option<Value>, env: Environment, cfg: DbConfig, remote: SodaRemote) returns (resp: Response)
    modifies cfg, remote
    ensures resp == HandlerResponse(event, old(cfg.Current()), env,
                                    StoreSucceeds(remote.getReply, remote.putReply, remote.postReply))
    ensures cfg.Current() == SettingsAfter(event, old(cfg.Current()), env)
    ensures remote.trace == old(remote.trace) +
      HandlerRequests(event, old(cfg.Current()), env, remote.getReply, remote.putReply)
  {
    if event.None? {
      return Response(500, InternalError);
    }
    var outcome := DecodeEvent(event.value);
    match outcome
    case Malformed =>
      return Response(500, InternalError);
    case Ignored =>
      return Response(200, EventIgnored);
    case MissingObjectInfo =>
      return Response(400, MissingObjectInformation);
    case Decoded(objectName, bucketName, _) =>
      cfg.LoadFromVault(env.ids, env.vault);
      var dbPassword := cfg.password;
      var dbUsername := cfg.username;
      if dbUsername.None? || dbUsername.value == "" || dbPassword.None? || dbPassword.value == "" {
        return Response(500, CredentialsNotConfigured);
      }
      if !env.clientsOk {
        return Response(500, ClientInitFailed);
      }
      if env.analysis.AnalysisRaised? {
        return Response(500, AnalysisFailed);
      }
      var objects := env.analysis.objects;
      var success := StoreAnalysisResult(remote, cfg, objectName, bucketName, objects, dbPassword);
      if success {
        return Response(200, Completed(objectName, bucketName, |objects|));
      } else {
        return Response(500, StoreFailed);
      }
  }
}
