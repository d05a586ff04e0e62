/**
 * The `vision_results` collection as the web app sees it: documents with
 * unique keys in storage order, the lookups and removals `delete_file`
 * uses, and the document-removal sequence itself (remove by key, the
 * `_id` fallback, commit, verification by key, rollback on an exception).
 */
module AppDocs {
  import opened Common
  import opened Json
  import opened AppResults

  datatype Doc = Doc(key: string, content: Value)

  /** The documents' contents, in order: what `getDocuments()` yields `getContent()` of. */
  function Contents(docs: seq<Doc>): (r: seq<Value>)
    ensures |r| == |docs| && forall i | 0 <= i < |docs| :: r[i] == docs[i].content
  {
    seq(|docs|, i requires 0 <= i < |docs| => docs[i].content)
  }

  predicate UniqueKeys(docs: seq<Doc>) {
    forall i, j | 0 <= i < j < |docs| :: docs[i].key != docs[j].key
  }

  /** The documents `keep` accepts, in their order. */
  function Filter(docs: seq<Doc>, keep: Doc -> bool): (r: seq<Doc>)
    ensures forall d :: d in r <==> d in docs && keep(d)
  {
    if docs == [] then []
    else
      var rest := Filter(docs[1..], keep);
      if keep(docs[0]) then [docs[0]] + rest else rest
  }

  /** Removing documents never makes two of the rest share a key. */
  lemma {:induction false} FilterUnique(docs: seq<Doc>, keep: Doc -> bool)
    requires UniqueKeys(docs)
    ensures UniqueKeys(Filter(docs, keep))
  {
    if docs != [] {
      var rest := Filter(docs[1..], keep);
      assert UniqueKeys(docs[1..]) by {
        forall i, j | 0 <= i < j < |docs[1..]| ensures docs[1..][i].key != docs[1..][j].key {
          assert docs[1..][i] == docs[i + 1] && docs[1..][j] == docs[j + 1];
        }
      }
      FilterUnique(docs[1..], keep);
      if keep(docs[0]) {
        forall d | d in rest ensures d.key != docs[0].key {
          assert d in docs[1..];
          var j :| 0 <= j < |docs[1..]| && docs[1..][j] == d;
          assert docs[j + 1] == d;
        }
        var r := [docs[0]] + rest;
        forall i, j | 0 <= i < j < |r| ensures r[i].key != r[j].key {
          assert r[j] == rest[j - 1];
          if i > 0 {
            assert r[i] == rest[i - 1];
          }
        }
      }
    }
  }

  /** The content's `_id` field is the string `key`. */
  predicate HasId(d: Doc, key: string) {
    d.content.Obj? && Lookup(d.content.fields, "_id") == Some(Str(key))
  }

  /** `collection.find().key(key).remove()` when it takes effect. */
  function RemoveKey(docs: seq<Doc>, key: string): seq<Doc> {
    Filter(docs, (d: Doc) => d.key != key)
  }

  /** `collection.find().filter({'_id': key}).remove()`, read as a match on the content's `_id` field. */
  function RemoveById(docs: seq<Doc>, key: string): seq<Doc> {
    Filter(docs, (d: Doc) => !HasId(d, key))
  }

  /** `collection.find().key(key).getOne()` */
  function FindByKey(docs: seq<Doc>, key: string): (r: Option<Doc>)
    ensures r.Some? ==> r.value in docs && r.value.key == key
    ensures r.None? <==> forall i | 0 <= i < |docs| :: docs[i].key != key
  {
    if docs == [] then None
    else if docs[0].key == key then Some(docs[0])
    else FindByKey(docs[1..], key)
  }

  predicate NamesFile(d: Doc, filename: string) {
    FilenameOf(d.content) == Some(Str(filename))
  }

  /** `collection.find().filter({'filename': filename}).getOne()`: the first matching document. */
  function FindByFilename(docs: seq<Doc>, filename: string): (r: Option<Doc>)
    ensures r.Some? ==> r.value in docs && NamesFile(r.value, filename)
    ensures r.None? <==> forall i | 0 <= i < |docs| :: !NamesFile(docs[i], filename)
  {
    if docs == [] then None
    else if NamesFile(docs[0], filename) then Some(docs[0])
    else FindByFilename(docs[1..], filename)
  }

  /**
   * What `find().key(key).remove()` does: it may or may not take effect,
   * and reports a count that need not agree; or it raises.
   */
  datatype KeyRemoveReply = KeyRemoveReply(removes: bool, reported: nat) | KeyRemoveRaised

  /** The database's answers during one document removal. */
  datatype RemoveReplies = RemoveReplies(keyRemove: KeyRemoveReply, idRemoveRaises: bool, commitOk: bool)

  datatype DbStep =
    | RemoveKeyStep(key: string)
    | FindKeyStep(key: string)
    | RemoveIdStep(key: string)
    | CommitStep
    | RollbackStep
    | VerifyKeyStep(key: string)

  /** How the removal ends: verified gone, still found after commit, or an exception. */
  datatype Verdict = Verified | StillThere | RemoveError

  datatype Removal = Removal(docs: seq<Doc>, steps: seq<DbStep>, verdict: Verdict)

  /** The commit and the verification lookup that close a removal without an exception. */
  function Finish(start: seq<Doc>, working: seq<Doc>, steps: seq<DbStep>, key: string, commitOk: bool): Removal {
    if !commitOk then Removal(start, steps + [CommitStep, RollbackStep], RemoveError)
    else Removal(working, steps + [CommitStep, VerifyKeyStep(key)],
                 if FindByKey(working, key).None? then Verified else StillThere)
  }

  /**
   * The removal of the document with `key`, from a collection whose
   * committed state is `docs`: the new committed state, the calls made, and
   * the verdict the page reports.
   */
  function RemoveDocument(docs: seq<Doc>, key: string, replies: RemoveReplies): Removal {
    match replies.keyRemove
    case KeyRemoveRaised => Removal(docs, [RemoveKeyStep(key), RollbackStep], RemoveError)
    case KeyRemoveReply(removes, reported) =>
      var afterKey := if removes then RemoveKey(docs, key) else docs;
      if reported != 0 then Finish(docs, afterKey, [RemoveKeyStep(key)], key, replies.commitOk)
      else if FindByKey(afterKey, key).None? then
        Finish(docs, afterKey, [RemoveKeyStep(key), FindKeyStep(key)], key, replies.commitOk)
      else if replies.idRemoveRaises then
        Removal(docs, [RemoveKeyStep(key), FindKeyStep(key), RemoveIdStep(key), RollbackStep], RemoveError)
      else
        Finish(docs, RemoveById(afterKey, key), [RemoveKeyStep(key), FindKeyStep(key), RemoveIdStep(key)],
               key, replies.commitOk)
  }

  /**
   * A removal only takes documents away, and every document with another
   * key whose content does not carry the key as its `_id` is kept.
   */
  lemma RemoveDocumentKeepsOthers(docs: seq<Doc>, key: string, replies: RemoveReplies)
    ensures forall d | d in RemoveDocument(docs, key, replies).docs :: d in docs
    ensures forall d | d in docs && d.key != key && !HasId(d, key) :: d in RemoveDocument(docs, key, replies).docs
  {
  }

  /** Keys stay unique across a removal. */
  lemma RemoveDocumentUnique(docs: seq<Doc>, key: string, replies: RemoveReplies)
    requires UniqueKeys(docs)
    ensures UniqueKeys(RemoveDocument(docs, key, replies).docs)
  {
    FilterUnique(docs, (d: Doc) => d.key != key);
    FilterUnique(RemoveKey(docs, key), (d: Doc) => !HasId(d, key));
    FilterUnique(docs, (d: Doc) => !HasId(d, key));
  }

  /**
   * An exception anywhere in the removal rolls it back: the collection is as
   * it was and the last call is the rollback. Otherwise a commit was made
   * and success is reported exactly when the key is no longer found.
   */
  lemma RemoveDocumentVerdict(docs: seq<Doc>, key: string, replies: RemoveReplies)
    ensures var r := RemoveDocument(docs, key, replies);
            && |r.steps| >= 2 && r.steps[0] == RemoveKeyStep(key)
            && (r.verdict == RemoveError <==> r.steps[|r.steps| - 1] == RollbackStep)
            && (r.verdict == RemoveError ==> r.docs == docs)
            && (r.verdict != RemoveError ==>
                  && r.steps[|r.steps| - 2..] == [CommitStep, VerifyKeyStep(key)]
                  && (r.verdict == Verified <==> FindByKey(r.docs, key).None?))
  {
    match replies.keyRemove
    case KeyRemoveRaised =>
    case KeyRemoveReply(removes, reported) =>
      var afterKey := if removes then RemoveKey(docs, key) else docs;
      if reported != 0 {
        FinishVerdict(docs, afterKey, [RemoveKeyStep(key)], key, replies.commitOk);
      } else if FindByKey(afterKey, key).None? {
        FinishVerdict(docs, afterKey, [RemoveKeyStep(key), FindKeyStep(key)], key, replies.commitOk);
      } else if !replies.idRemoveRaises {
        FinishVerdict(docs, RemoveById(afterKey, key), [RemoveKeyStep(key), FindKeyStep(key), RemoveIdStep(key)],
                      key, replies.commitOk);
      }
  }

  lemma FinishVerdict(start: seq<Doc>, working: seq<Doc>, steps: seq<DbStep>, key: string, commitOk: bool)
    requires |steps| >= 1 && steps[0] == RemoveKeyStep(key)
    ensures var r := Finish(start, working, steps, key, commitOk);
            && |r.steps| >= 2 && r.steps[0] == RemoveKeyStep(key)
            && (r.verdict == RemoveError <==> r.steps[|r.steps| - 1] == RollbackStep)
            && (r.verdict == RemoveError ==> r.docs == start)
            && (r.verdict != RemoveError ==>
                  && r.steps[|r.steps| - 2..] == [CommitStep, VerifyKeyStep(key)]
                  && (r.verdict == Verified <==> FindByKey(r.docs, key).None?))
  {
  }

  /**
   * The `_id` fallback runs only when the remove by key reported 0 and the
   * key is still found afterwards.
   */
  lemma IdFallbackOnlyWhenKeyRemains(docs: seq<Doc>, key: string, replies: RemoveReplies)
    ensures var r := RemoveDocument(docs, key, replies);
            RemoveIdStep(key) in r.steps <==>
              && replies.keyRemove.KeyRemoveReply?
              && replies.keyRemove.reported == 0
              && FindByKey(if replies.keyRemove.removes then RemoveKey(docs, key) else docs, key).Some?
  {
  }

  /** A remove by key that takes effect, followed by a commit, is reported as verified. */
  lemma EffectiveRemoveVerified(docs: seq<Doc>, key: string, reported: nat, idRemoveRaises: bool)
    ensures RemoveDocument(docs, key, RemoveReplies(KeyRemoveReply(true, reported), idRemoveRaises, true)).verdict == Verified
  {
    var afterKey := RemoveKey(docs, key);
    assert forall i | 0 <= i < |afterKey| :: afterKey[i].key != key by {
      forall i | 0 <= i < |afterKey| ensures afterKey[i].key != key {
        assert afterKey[i] in afterKey;
      }
    }
  }
}
