/**
 * The result page's clean-up of a stored document,
 * `json.loads(json.dumps(content, default=str))`: every value JSON cannot
 * encode is replaced by its `str()` text, and everything else comes back
 * as it was.
 */
module AppJson {
  import opened Json

  /** A value made only of JSON's own kinds, at every depth. */
  predicate IsNative(v: Value) {
    match v
    case Opaque(_) => false
    case Arr(items) => forall i | 0 <= i < |items| :: IsNative(items[i])
    case Obj(fields) => forall i | 0 <= i < |fields| :: IsNative(fields[i].val)
    case _ => true
  }

  function Normalize(v: Value): (r: Value)
    ensures IsNative(r)
    ensures v.Opaque? ==> r == Str(v.text)
    ensures !v.Opaque? && !v.Arr? && !v.Obj? ==> r == v
    ensures v.Arr? ==>
              && r.Arr? && |r.items| == |v.items|
              && forall i | 0 <= i < |v.items| :: r.items[i] == Normalize(v.items[i])
    ensures v.Obj? ==>
              && r.Obj? && |r.fields| == |v.fields|
              && forall i | 0 <= i < |v.fields| :: r.fields[i] == Field(v.fields[i].key, Normalize(v.fields[i].val))
  {
    match v
    case Opaque(text) => Str(text)
    case Arr(items) =>
      Arr(seq(|items|, i requires 0 <= i < |items| => Normalize(items[i])))
    case Obj(fields) =>
      Obj(seq(|fields|, i requires 0 <= i < |fields| => Field(fields[i].key, Normalize(fields[i].val))))
    case _ => v
  }

  /** A document already made of JSON values is rendered exactly as stored. */
  lemma {:induction false} NormalizeKeepsNative(v: Value)
    requires IsNative(v)
    ensures Normalize(v) == v
  {
    match v
    case Arr(items) =>
      forall i | 0 <= i < |items| ensures Normalize(items[i]) == items[i] {
        NormalizeKeepsNative(items[i]);
      }
    case Obj(fields) =>
      forall i | 0 <= i < |fields| ensures Field(fields[i].key, Normalize(fields[i].val)) == fields[i] {
        NormalizeKeepsNative(fields[i].val);
      }
    case _ =>
  }

  /**
   * A stored document whose `_id` is not a JSON value: the native
   * `filename` is kept and the `_id` becomes its text.
   */
  lemma NormalizeForeignId()
    ensures Normalize(Obj([Field("filename", Str("cat.jpg")), Field("_id", Opaque("abc"))]))
         == Obj([Field("filename", Str("cat.jpg")), Field("_id", Str("abc"))])
  {
  }

  /** Cleaning a cleaned document changes nothing. */
  lemma NormalizeIdempotent(v: Value)
    ensures Normalize(Normalize(v)) == Normalize(v)
  {
    NormalizeKeepsNative(Normalize(v));
  }
}
