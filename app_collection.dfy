/**
 * The web app's `get_db_collection`: open the `vision_results`
 * collection, create it when it cannot be opened, and when creation fails
 * with ORA-40669 (a collection of that name exists with other metadata)
 * drop it and create it again, once. The outcome of each SODA call is an
 * input.
 */
module AppCollection {
  import opened Text

  const MetadataMismatch: string := "ORA-40669"

  /** `soda.openCollection(name)`: a collection, None, or an exception. */
  datatype OpenReply = Found | Absent | OpenRaised

  /** `soda.createCollection(name, metadata)`: a collection or an exception with its text. */
  datatype CreateReply = CreateOk | CreateRaised(message: string)

  /** What the SODA database answers each call `get_db_collection` can make. */
  datatype SodaReplies = SodaReplies(
    open: OpenReply,        // the first openCollection
    create: CreateReply,    // the first createCollection
    reopen: OpenReply,      // openCollection after ORA-40669
    dropOk: bool,           // drop() of the reopened collection
    recreate: CreateReply)  // createCollection after the drop

  datatype Acquired = Existing | Created | Recreated

  datatype CollectionError = NoConnection | CreateError(message: string)

  datatype Lookup = Got(how: Acquired) | Failed(error: CollectionError)

  /** The result, and whether an existing collection was dropped on the way. */
  datatype Access = Access(result: Lookup, dropped: bool)

  /** Whether the recovery path runs: the create error's text mentions ORA-40669. */
  predicate Recovers(replies: SodaReplies) {
    replies.create.CreateRaised? && Contains(replies.create.message, MetadataMismatch)
  }

  function GetDbCollection(connected: bool, replies: SodaReplies): (r: Access)
    ensures !connected ==> r == Access(Failed(NoConnection), false)
    ensures connected && replies.open == Found ==> r == Access(Got(Existing), false)
    ensures r.result == Got(Created) <==> connected && replies.open != Found && replies.create == CreateOk
    ensures r.dropped ==> Recovers(replies) && replies.reopen == Found && replies.dropOk
    ensures r.result == Got(Recreated) ==> Recovers(replies) && replies.recreate == CreateOk
    ensures connected && replies.create.CreateRaised? && !Recovers(replies) && replies.open != Found ==>
      r == Access(Failed(CreateError(replies.create.message)), false)
    ensures r.result.Failed? && r.result.error.CreateError? ==> replies.create == CreateRaised(r.result.error.message)
    ensures r.result == Failed(NoConnection) <==> !connected
    ensures r.result == Got(Existing) <==> connected && replies.open == Found
    ensures r.result == Got(Recreated) <==>
      && connected && replies.open != Found && Recovers(replies)
      && replies.reopen != OpenRaised && (replies.reopen == Found ==> replies.dropOk)
      && replies.recreate == CreateOk
    ensures r.dropped <==> connected && replies.open != Found && Recovers(replies) && replies.reopen == Found && replies.dropOk
  {
    if !connected then Access(Failed(NoConnection), false)
    else if replies.open == Found then Access(Got(Existing), false)
    else match replies.create
      case CreateOk => Access(Got(Created), false)
      case CreateRaised(message) =>
        var original := Access(Failed(CreateError(message)), false);
        if !Contains(message, MetadataMismatch) then original
        else match replies.reopen
          case OpenRaised => original
          case Absent =>
            if replies.recreate == CreateOk then Access(Got(Recreated), false) else original
          case Found =>
            if !replies.dropOk then original
            else if replies.recreate == CreateOk then Access(Got(Recreated), true)
            else Access(Failed(CreateError(message)), true)
  }

  /**
   * An Oracle error whose text starts with the ORA-40669 code takes the
   * recovery path: the collection is dropped and created again.
   */
  lemma MismatchErrorRecreates(message: string)
    requires |message| >= |MetadataMismatch| && message[..|MetadataMismatch|] == MetadataMismatch
    ensures GetDbCollection(true, SodaReplies(Absent, CreateRaised(message), Found, true, CreateOk))
            == Access(Got(Recreated), true)
  {
    assert OccursAt(message, MetadataMismatch, 0);
  }

  /**
   * When the drop raises during the recovery, the route sees the original
   * create error again, and nothing was dropped.
   */
  lemma FailedDropReraises(message: string)
    requires |message| >= |MetadataMismatch| && message[..|MetadataMismatch|] == MetadataMismatch
    ensures GetDbCollection(true, SodaReplies(Absent, CreateRaised(message), Found, false, CreateOk))
            == Access(Failed(CreateError(message)), false)
  {
    assert OccursAt(message, MetadataMismatch, 0);
  }
}
