/**
 * A macro file after JSON parsing, and the two Python operations the loader
 * applies to its values: indexing with `[0]` and looking a key up in the
 * tag table. Each of them raises on some values; the exception is returned.
 */
module Documents {
  import opened Wrappers
  import opened Actions

  /** A parsed JSON value. Objects keep their members in file order. */
  datatype Doc =
    | JNull
    | JBool(b: bool)
    | JNum(n: int)
    | JStr(s: string)
    | JList(items: seq<Doc>)
    | JObject(members: seq<(string, Doc)>)

  /** The Python exceptions the macro editor's operations can raise. */
  datatype Error = IndexError | KeyError | TypeError | ValueError

  /**
   * `d[0]`: the first element of a list, the first character of a string;
   * an empty list or string raises IndexError, an object (whose keys are all
   * strings) raises KeyError, and a number, boolean or null raises TypeError.
   */
  function First(d: Doc): (r: Result<Doc, Error>)
    ensures r.Success? <==> (d.JList? && d.items != []) || (d.JStr? && d.s != [])
    ensures r.Success? && d.JList? ==> r.value == d.items[0]
    ensures r.Success? && d.JStr? ==> r.value == JStr([d.s[0]])
    ensures r.Failure? ==> r.error != ValueError && (r.error == KeyError <==> d.JObject?)
    ensures r.Failure? ==> (r.error == IndexError <==> d.JList? || d.JStr?)
  {
    match d
    case JList(items) => if items == [] then Failure(IndexError) else Success(items[0])
    case JStr(s) => if s == [] then Failure(IndexError) else Success(JStr([s[0]]))
    case JObject(_) => Failure(KeyError)
    case _ => Failure(TypeError)
  }

  /**
   * `key in tag_to_action`: a list or object key is unhashable (TypeError); a
   * string is known exactly when it is one of the five tags; any other value
   * never equals a tag.
   */
  function LookupTag(key: Doc): (r: Result<Option<Kind>, Error>)
    ensures r.Failure? <==> key.JList? || key.JObject?
    ensures r.Failure? ==> r.error == TypeError
    ensures forall k :: r == Success(Some(k)) <==> key == JStr(TagOf(k))
  {
    match key
    case JStr(s) => Success(KindOfTag(s))
    case JList(_) => Failure(TypeError)
    case JObject(_) => Failure(TypeError)
    case _ => Success(None)
  }

  /**
   * What the loader makes of one record: `record[0] in tag_to_action`.
   * A record is known exactly when it is a list headed by a tag string;
   * a string record is never known, because its first character is not a tag.
   */
  function Classify(record: Doc): (r: Result<Option<Kind>, Error>)
    ensures r.Success? && r.value.Some? ==> record.JList? && record.items != [] && record.items[0].JStr?
    ensures record.JStr? && record.s != [] ==> r == Success(None)
    ensures r.Failure? <==>
      !(record.JList? && record.items != [] && !record.items[0].JList? && !record.items[0].JObject?)
      && !(record.JStr? && record.s != [])
  {
    match First(record)
    case Failure(e) => Failure(e)
    case Success(key) => LookupTag(key)
  }

  /** A record is known as kind `k` exactly when it is a list whose first element is `k`'s tag. */
  lemma ClassifyKnown(record: Doc, k: Kind)
    ensures Classify(record) == Success(Some(k)) <==>
      record.JList? && record.items != [] && record.items[0] == JStr(TagOf(k))
  {
  }
}
