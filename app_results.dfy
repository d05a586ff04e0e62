/**
 * The index page's `results_map`: every stored document's `'filename'`
 * value is mapped to True. The loop stops with an exception at the first
 * document that is not a dict (its `.keys()` is logged) or whose filename
 * cannot be a dict key; the page then shows what was gathered before it.
 */
module AppResults {
  import opened Common
  import opened Json

  /** The `'filename'` entry of a document's content, if it is a dict that has one. */
  function FilenameOf(content: Value): Option<Value> {
    if content.Obj? then Lookup(content.fields, "filename") else None
  }

  /** A document the loop gets past without raising. */
  predicate Readable(content: Value) {
    content.Obj? && (FilenameOf(content).Some? ==> Hashable(FilenameOf(content).value))
  }

  /** The filenames the documents carry; documents without one contribute nothing. */
  function FilenameKeys(contents: seq<Value>): set<Value> {
    set i | 0 <= i < |contents| && FilenameOf(contents[i]).Some? :: FilenameOf(contents[i]).value
  }

  lemma FilenameKeysSnoc(prefix: seq<Value>, content: Value)
    ensures FilenameKeys(prefix + [content]) ==
      FilenameKeys(prefix) + (if FilenameOf(content).Some? then {FilenameOf(content).value} else {})
  {
    var whole := prefix + [content];
    forall v | v in FilenameKeys(whole)
      ensures v in FilenameKeys(prefix) || FilenameOf(content) == Some(v)
    {
      var i :| 0 <= i < |whole| && FilenameOf(whole[i]).Some? && FilenameOf(whole[i]).value == v;
      if i < |prefix| {
        assert whole[i] == prefix[i];
      }
    }
    forall v | v in FilenameKeys(prefix) ensures v in FilenameKeys(whole) {
      var i :| 0 <= i < |prefix| && FilenameOf(prefix[i]).Some? && FilenameOf(prefix[i]).value == v;
      assert whole[i] == prefix[i];
    }
    if FilenameOf(content).Some? {
      assert whole[|prefix|] == content;
    }
  }

  /** The index of the first document the loop raises on, if any. */
  function FirstUnreadable(contents: seq<Value>): (r: Option<nat>)
    ensures r.None? <==> forall i | 0 <= i < |contents| :: Readable(contents[i])
    ensures r.Some? ==>
      && r.value < |contents|
      && !Readable(contents[r.value])
      && forall i | 0 <= i < r.value :: Readable(contents[i])
  {
    if contents == [] then None
    else if !Readable(contents[0]) then Some(0)
    else
      assert forall i | 0 <= i < |contents| - 1 :: contents[1..][i] == contents[i + 1];
      match FirstUnreadable(contents[1..])
      case None => None
      case Some(k) => Some(k + 1)
  }

  /** How many documents the loop got through. */
  function Processed(failedAt: Option<nat>, total: nat): nat {
    if failedAt.Some? then failedAt.value else total
  }

  method BuildResultsMap(contents: seq<Value>) returns (results: map<Value, bool>, failedAt: Option<nat>)
    ensures failedAt == FirstUnreadable(contents)
    ensures results.Keys == FilenameKeys(contents[..Processed(failedAt, |contents|)])
    ensures forall k | k in results :: results[k]
  {
    results := map[];
    var i := 0;
    while i < |contents|
      invariant 0 <= i <= |contents|
      invariant forall j | 0 <= j < i :: Readable(contents[j])
      invariant results.Keys == FilenameKeys(contents[..i])
      invariant forall k | k in results :: results[k]
    {
      var content := contents[i];
      if !content.Obj? {
        return results, Some(i);
      }
      var filename := Lookup(content.fields, "filename");
      if filename.Some? {
        if !Hashable(filename.value) {
          return results, Some(i);
        }
        results := results[filename.value := true];
      }
      FilenameKeysSnoc(contents[..i], content);
      assert contents[..i + 1] == contents[..i] + [content];
      i := i + 1;
    }
    assert contents[..i] == contents;
    return results, None;
  }
}
