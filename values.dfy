/** Values exchanged with the thermostat, and the wrappers that stand for
    Python's None and for exceptions that escape a call. */
module Values {

  datatype Option<+T> = None | Some(value: T)

  /** The end of a Python call: it returns a value, or an exception
      (KeyError, TypeError, AttributeError, ValueError, ...) escapes it. */
  datatype Outcome<+T> = Returned(value: T) | Raised

  /** A decoded JSON value. JNull is also Python's None: a getter that finds
      nothing returns it. Numbers are integers in this model. */
  datatype Json =
    | JNull
    | JBool(b: bool)
    | JInt(i: int)
    | JStr(s: string)
    | JList(items: seq<Json>)
    | JObj(fields: map<string, Json>)

  /** A value Python can use as a dictionary key: lists and dicts cannot. */
  predicate Hashable(v: Json)
  {
    !v.JList? && !v.JObj?
  }

  /** The index of the first element of `s` that satisfies `p`: the search
      done by a Python `for` loop that breaks on the first hit. */
  function FirstWhere<T>(s: seq<T>, p: T -> bool): (r: Option<nat>)
    ensures r.None? <==> forall i :: 0 <= i < |s| ==> !p(s[i])
    ensures r.Some? ==> r.value < |s| && p(s[r.value])
    ensures r.Some? ==> forall i :: 0 <= i < r.value ==> !p(s[i])
    decreases |s|
  {
    if s == [] then None
    else if p(s[0]) then Some(0)
    else
      match FirstWhere(s[1..], p)
      case None => None
      case Some(i) => Some(i + 1)
  }
}
