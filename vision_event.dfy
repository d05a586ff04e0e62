/**
 * How the vision function reads an Object Storage event: the event-type
 * gate, the ordered search for the object name (five fields, then a
 * fallback parsed out of `resourceId`), and the bucket/namespace fields.
 * A Python exception raised while doing so (a `.get` on something that is
 * not a dict, `.strip()` or `.split()` on something that is not a string)
 * is the outcome `Malformed`, which the handler answers with status 500.
 */
module VisionEvent {
  import opened Common
  import opened Json
  import opened Text

  const CreateObjectEvent: string := "com.oraclecloud.objectstorage.createobject"

  datatype EventOutcome =
    | Ignored
    | MissingObjectInfo
    | Malformed
    | Decoded(objectName: string, bucketName: Value, namespace: Value)

  /** The five name sources, in the order the handler tries them. */
  function NameCandidates(body: seq<Field>, data: seq<Field>, details: seq<Field>): seq<Value>
  {
    [ Get(details, "objectName", Str("")),
      Get(data, "objectName", Str("")),
      Get(data, "resourceName", Str("")),
      Get(body, "resourceName", Str("")),
      Get(body, "objectName", Str("")) ]
  }

  /** `data.get("resourceId", "") or body.get("resourceId", "")`. */
  function ResourceId(body: seq<Field>, data: seq<Field>): Value
  {
    var d := Get(data, "resourceId", Str(""));
    if Truthy(d) then d else Get(body, "resourceId", Str(""))
  }

  /** Python `any(names)`. */
  predicate AnyTruthy(names: seq<Value>) {
    exists i | 0 <= i < |names| :: Truthy(names[i])
  }

  /**
   * The guard and pick the handler applies to `resourceId.split("/")`:
   * at least six parts and `parts[4] == "o"`, then `parts[5]`.
   */
  function PathObjectName(resourceId: string): Option<string>
  {
    var parts := Split(resourceId, '/');
    if |parts| >= 6 && parts[4] == "o" then Some(parts[5]) else None
  }

  /** What the `resourceId` step adds to the candidate list. */
  datatype Extra = NoExtra | ExtraName(name: string) | ExtraCrash

  function ResourceIdCandidate(resourceId: Value, names: seq<Value>): Extra
  {
    if !Truthy(resourceId) || AnyTruthy(names) then NoExtra
    else if !resourceId.Str? then ExtraCrash
    else
      match PathObjectName(resourceId.s)
      case Some(n) => ExtraName(n)
      case None => NoExtra
  }

  /** A candidate the name loop moves past: falsy, or a string that strips to "". */
  predicate Passes(v: Value) {
    !Truthy(v) || (v.Str? && Strip(v.s) == "")
  }

  /** A candidate the name loop takes: a string with a non-blank strip. */
  predicate Usable(v: Value) {
    v.Str? && Strip(v.s) != ""
  }

  datatype NameSearch = Named(name: string) | Unnamed | NameCrash

  /**
   * The `for name in possible_names` loop: the strip of the first usable
   * candidate; a truthy candidate that is not a string makes `.strip()`
   * raise before a later candidate is looked at.
   */
  function FirstName(names: seq<Value>): (r: NameSearch)
    ensures r.Named? ==> r.name != "" && Strip(r.name) == r.name
  {
    if names == [] then Unnamed
    else if !Truthy(names[0]) then FirstName(names[1..])
    else if !names[0].Str? then NameCrash
    else if Strip(names[0].s) == "" then FirstName(names[1..])
    else Named(Strip(names[0].s))
  }

  /** The candidate list the handler builds, or None when `.split` raises. */
  function PossibleNames(body: seq<Field>, data: seq<Field>, details: seq<Field>): Option<seq<Value>>
  {
    var five := NameCandidates(body, data, details);
    match ResourceIdCandidate(ResourceId(body, data), five)
    case ExtraCrash => None
    case ExtraName(n) => Some(five + [Str(n)])
    case NoExtra => Some(five)
  }

  /** What reading a create event yields: the name search and the bucket and namespace fields. */
  datatype EventRead = EventRead(search: NameSearch, bucketName: Value, namespace: Value)

  /**
   * Everything the handler reads from a dict event once its type is known,
   * or None when one of those reads raises (a non-dict `data` or
   * `additionalDetails`, a `resourceId` that cannot be split, a name
   * candidate that cannot be stripped).
   */
  function ReadEvent(body: seq<Field>): Option<EventRead>
  {
    var data := Get(body, "data", Obj([]));
    var details := if data.Obj? then Get(data.fields, "additionalDetails", Obj([])) else Null;
    if !details.Obj? then None
    else match PossibleNames(body, data.fields, details.fields)
      case None => None
      case Some(names) =>
        if FirstName(names).NameCrash? then None
        else Some(EventRead(FirstName(names), Get(details.fields, "bucketName", Str("")),
                            Get(details.fields, "namespace", Str(""))))
  }

  predicate IsCreateEvent(body: seq<Field>) {
    Get(body, "eventType", Str("")) == Str(CreateObjectEvent)
  }

  /**
   * The decision the handler takes on a parsed event body (lines 209-265):
   * a non-dict body or a read that raises is `Malformed` (status 500); a
   * create event read in full is `Decoded` exactly when a name was found
   * and the bucket name is truthy, and `MissingObjectInfo` (status 400)
   * otherwise.
   */
  function EventOutcomeOf(body: Value): (r: EventOutcome)
    ensures !body.Obj? ==> r == Malformed
    ensures body.Obj? && !IsCreateEvent(body.fields) ==> r == Ignored
    ensures body.Obj? && IsCreateEvent(body.fields) && ReadEvent(body.fields).None? ==> r == Malformed
    ensures body.Obj? && IsCreateEvent(body.fields) && ReadEvent(body.fields).Some? ==>
      var e := ReadEvent(body.fields).value;
      r == if e.search.Named? && Truthy(e.bucketName) then Decoded(e.search.name, e.bucketName, e.namespace)
           else MissingObjectInfo
    ensures r.Decoded? ==> r.objectName != "" && Truthy(r.bucketName)
  {
    if !body.Obj? then Malformed
    else if Get(body.fields, "eventType", Str("")) != Str(CreateObjectEvent) then Ignored
    else
      var data := Get(body.fields, "data", Obj([]));
      if !data.Obj? then Malformed
      else
        var details := Get(data.fields, "additionalDetails", Obj([]));
        if !details.Obj? then Malformed
        else
          match PossibleNames(body.fields, data.fields, details.fields)
          case None => Malformed
          case Some(names) =>
            match FirstName(names)
            case NameCrash => Malformed
            case Unnamed => MissingObjectInfo
            case Named(n) =>
              var bucket := Get(details.fields, "bucketName", Str(""));
              if !Truthy(bucket) then MissingObjectInfo
              else Decoded(n, bucket, Get(details.fields, "namespace", Str("")))
  }

  /**
   * The handler's decoding, step by step as it is written: the candidate
   * list is built, the `resourceId` part appended, and a loop with `break`
   * picks the name.
   */
  method DecodeEvent(body: Value) returns (r: EventOutcome)
    ensures r == EventOutcomeOf(body)
  {
    if !body.Obj? {
      return Malformed;
    }
    var eventType := Get(body.fields, "eventType", Str(""));
    if eventType != Str(CreateObjectEvent) {
      return Ignored;
    }
    var dataInfo := Get(body.fields, "data", Obj([]));
    if !dataInfo.Obj? {
      return Malformed;
    }
    var details := Get(dataInfo.fields, "additionalDetails", Obj([]));
    if !details.Obj? {
      return Malformed;
    }
    var candidates := BuildPossibleNames(body.fields, dataInfo.fields, details.fields);
    if candidates.None? {
      return Malformed;
    }
    var possibleNames := candidates.value;
    var search := SelectObjectName(possibleNames);
    if search.NameCrash? {
      return Malformed;
    }
    var objectName := if search.Named? then search.name else "";
    var bucketName := Get(details.fields, "bucketName", Str(""));
    var namespace := Get(details.fields, "namespace", Str(""));
    if objectName == "" || !Truthy(bucketName) {
      return MissingObjectInfo;
    }
    r := Decoded(objectName, bucketName, namespace);
  }

  /**
   * The list of name candidates, with the part taken from `resourceId`
   * appended when the five are all falsy; None when `.split` raises on a
   * `resourceId` that is not a string.
   */
  method BuildPossibleNames(body: seq<Field>, data: seq<Field>, details: seq<Field>) returns (r: Option<seq<Value>>)
    ensures r == PossibleNames(body, data, details)
  {
    var possibleNames := NameCandidates(body, data, details);
    var resourceId := ResourceId(body, data);
    if Truthy(resourceId) && !AnyTruthy(possibleNames) {
      if !resourceId.Str? {
        return None;
      }
      var parts := Split(resourceId.s, '/');
      if |parts| >= 6 && parts[4] == "o" {
        possibleNames := possibleNames + [Str(parts[5])];
      }
    }
    return Some(possibleNames);
  }

  /** The `for name in possible_names: ... break` loop itself. */
  method SelectObjectName(possibleNames: seq<Value>) returns (r: NameSearch)
    ensures r == FirstName(possibleNames)
  {
    var i := 0;
    while i < |possibleNames|
      invariant 0 <= i <= |possibleNames|
      invariant FirstName(possibleNames) == FirstName(possibleNames[i..])
    {
      var name := possibleNames[i];
      assert possibleNames[i..][1..] == possibleNames[i + 1..];
      if Truthy(name) {
        if !name.Str? {
          return NameCrash;
        }
        if Strip(name.s) != "" {
          return Named(Strip(name.s));
        }
      }
      i := i + 1;
    }
    return Unnamed;
  }

  /** A usable candidate preceded only by passed-over ones is the name chosen. */
  lemma {:induction false} FirstNameAt(names: seq<Value>, i: nat)
    requires i < |names|
    requires forall j | 0 <= j < i :: Passes(names[j])
    requires Usable(names[i])
    ensures FirstName(names) == Named(Strip(names[i].s))
  {
    if i > 0 {
      FirstNameAt(names[1..], i - 1);
    }
  }

  /** No name found: every candidate was passed over. */
  lemma {:induction false} FirstNameUnnamed(names: seq<Value>)
    requires FirstName(names).Unnamed?
    ensures forall j | 0 <= j < |names| :: Passes(names[j])
  {
    if names != [] {
      FirstNameUnnamed(names[1..]);
      forall j | 0 <= j < |names| ensures Passes(names[j]) {
        if j > 0 { assert names[j] == names[1..][j - 1]; }
      }
    }
  }

  /** `name` is the strip of candidate `i`, which is usable and preceded only by passed-over ones. */
  predicate PickedAt(names: seq<Value>, i: int, name: string) {
    && 0 <= i < |names|
    && Usable(names[i])
    && name == Strip(names[i].s)
    && forall j | 0 <= j < i :: Passes(names[j])
  }

  /** A found name is the strip of a usable candidate preceded only by passed-over ones. */
  lemma {:induction false} FirstNameNamed(names: seq<Value>)
    requires FirstName(names).Named?
    ensures exists i :: PickedAt(names, i, FirstName(names).name)
  {
    var name := FirstName(names).name;
    if Usable(names[0]) {
      assert PickedAt(names, 0, name);
    } else {
      var tail := names[1..];
      assert FirstName(tail) == FirstName(names);
      FirstNameNamed(tail);
      var i :| PickedAt(tail, i, name);
      forall j | 0 <= j < i + 1 ensures Passes(names[j]) {
        if j > 0 { assert names[j] == tail[j - 1]; }
      }
      assert PickedAt(names, i + 1, name);
    }
  }

  /** A crash comes from a truthy non-string preceded only by passed-over candidates. */
  lemma {:induction false} FirstNameCrash(names: seq<Value>)
    requires FirstName(names).NameCrash?
    ensures exists i | 0 <= i < |names| ::
      Truthy(names[i]) && !names[i].Str? && forall j | 0 <= j < i :: Passes(names[j])
  {
    if Passes(names[0]) {
      var tail := names[1..];
      FirstNameCrash(tail);
      var i :| 0 <= i < |tail| && Truthy(tail[i]) && !tail[i].Str? && forall j | 0 <= j < i :: Passes(tail[j]);
      assert names[i + 1] == tail[i];
      forall j | 0 <= j < i + 1 ensures Passes(names[j]) {
        if j > 0 { assert names[j] == tail[j - 1]; }
      }
    }
  }

  /**
   * The `resourceId` part is appended only when all five earlier candidates
   * are falsy, `resourceId` is a truthy string, and its split passes the
   * guard; the part appended is `parts[5]`.
   */
  lemma ResourceIdCandidateOnlyWhenUnnamed(resourceId: Value, five: seq<Value>)
    ensures ResourceIdCandidate(resourceId, five).ExtraName? <==>
      && Truthy(resourceId) && resourceId.Str?
      && (forall i | 0 <= i < |five| :: !Truthy(five[i]))
      && |Split(resourceId.s, '/')| >= 6 && Split(resourceId.s, '/')[4] == "o"
    ensures ResourceIdCandidate(resourceId, five).ExtraName? ==>
      ResourceIdCandidate(resourceId, five).name == Split(resourceId.s, '/')[5]
  {
  }

  /** The format the handler's comment gives for `resourceId`. */
  function CommentedResourceId(namespace: string, bucket: string, name: string): string
  {
    // "/n/" + namespace + "/b/" + bucket + "/o/" + name, grouped from the right
    "/" + ("n" + "/" + (namespace + "/" + ("b" + "/" + (bucket + "/" + ("o" + "/" + name)))))
  }

  /** One separator step of a split, for a head without separators. */
  lemma SplitStep(head: string, tail: string, rest: seq<string>)
    requires '/' !in head && Split(tail, '/') == rest
    ensures Split(head + "/" + tail, '/') == [head] + rest
  {
    SplitCons(head, '/', tail);
  }

  /** A leading separator splits off an empty first part. */
  lemma SplitLeading(tail: string, rest: seq<string>)
    requires Split(tail, '/') == rest
    ensures Split("/" + tail, '/') == [""] + rest
  {
    SplitCons("", '/', tail);
    assert "" + "/" + tail == "/" + tail;
  }

  lemma SplitCommentedNested(namespace: string, bucket: string, name: string)
    requires '/' !in namespace && '/' !in bucket
    ensures Split(CommentedResourceId(namespace, bucket, name), '/')
         == [""] + (["n"] + ([namespace] + (["b"] + ([bucket] + (["o"] + Split(name, '/'))))))
  {
    var p := Split(name, '/');
    var t5 := "o" + "/" + name;
    SplitStep("o", name, p);
    var t4 := bucket + "/" + t5;
    SplitStep(bucket, t5, ["o"] + p);
    var t3 := "b" + "/" + t4;
    SplitStep("b", t4, [bucket] + (["o"] + p));
    var t2 := namespace + "/" + t3;
    SplitStep(namespace, t3, ["b"] + ([bucket] + (["o"] + p)));
    var t1 := "n" + "/" + t2;
    SplitStep("n", t2, [namespace] + (["b"] + ([bucket] + (["o"] + p))));
    SplitLeading(t1, ["n"] + ([namespace] + (["b"] + ([bucket] + (["o"] + p)))));
  }

  /** Its split: a leading empty part, so "o" sits at index 5, not 4. */
  lemma SplitCommentedResourceId(namespace: string, bucket: string, name: string)
    requires '/' !in namespace && '/' !in bucket
    ensures Split(CommentedResourceId(namespace, bucket, name), '/')
         == ["", "n", namespace, "b", bucket, "o"] + Split(name, '/')
  {
    SplitCommentedNested(namespace, bucket, name);
    FlattenSix("", "n", namespace, "b", bucket, "o", Split(name, '/'));
  }

  lemma FlattenSix(a: string, b: string, c: string, d: string, e: string, f: string, p: seq<string>)
    ensures [a] + ([b] + ([c] + ([d] + ([e] + ([f] + p))))) == [a, b, c, d, e, f] + p
  {
  }

  /**
   * As written, the fallback misses every commented-format id: it finds
   * nothing, unless the bucket is itself called "o", and then it picks "o".
   */
  lemma PathObjectNameMissesCommentedFormat(namespace: string, bucket: string, name: string)
    requires '/' !in namespace && '/' !in bucket
    ensures PathObjectName(CommentedResourceId(namespace, bucket, name))
         == if bucket == "o" then Some("o") else None
  {
    SplitCommentedResourceId(namespace, bucket, name);
  }

  /** A concrete id from the comment's format that the fallback cannot read. */
  lemma PathObjectNameExample()
    ensures PathObjectName("/n/ns/b/images/o/cat.jpg") == None
  {
    var id := CommentedResourceId("ns", "images", "cat.jpg");
    assert id == "/n/ns/b/images/o/cat.jpg";
    PathObjectNameMissesCommentedFormat("ns", "images", "cat.jpg");
  }

  /**
   * The evidently intended fallback: "o" at index 5 and the object name as
   * everything after it (an object name may itself hold "/").
   */
  function IntendedPathObjectName(resourceId: string): Option<string>
  {
    var parts := Split(resourceId, '/');
    if |parts| >= 7 && parts[5] == "o" then Some(Join(parts[6..], '/')) else None
  }

  /** The intended fallback recovers the object name from every commented-format id. */
  lemma IntendedPathObjectNameRecovers(namespace: string, bucket: string, name: string)
    requires '/' !in namespace && '/' !in bucket
    ensures IntendedPathObjectName(CommentedResourceId(namespace, bucket, name)) == Some(name)
  {
    SplitCommentedResourceId(namespace, bucket, name);
    var parts := Split(CommentedResourceId(namespace, bucket, name), '/');
    assert parts[6..] == Split(name, '/');
  }
}
