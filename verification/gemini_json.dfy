/**
 * A parsed JSON document as `System.Text.Json.JsonElement` presents it, and
 * the four accessors the controller uses, with their outcomes: a value,
 * a `false` from a `Try…` method, or an exception.
 */
module GeminiJson {
  import opened Wrappers

  /** A JSON value. Numbers keep their literal text (the controller never
      reads one); object members keep document order, duplicates included. */
  datatype Json =
    | JNull
    | JBool(b: bool)
    | JNum(literal: string)
    | JStr(s: string)
    | JArr(elems: seq<Json>)
    | JObj(members: seq<(string, Json)>)

  /** The outcome of an accessor call: a value, `false` returned by a
      `Try…` method (or an `if` condition that fails), or an
      `InvalidOperationException`/`IndexOutOfRangeException`. */
  datatype Access<+T> = Found(value: T) | Absent | Threw {

    predicate IsFailure() {
      !Found?
    }

    function PropagateFailure<U>(): Access<U>
      requires !Found?
    {
      if Absent? then Absent else Threw
    }

    function Extract(): T
      requires Found?
    {
      value
    }
  }

  /** The value of the member called `name`; when the name occurs more than
      once, the last occurrence is the one matched. */
  function LastMember(members: seq<(string, Json)>, name: string): (r: Option<Json>)
    ensures r.Some? <==> exists i :: 0 <= i < |members| && members[i].0 == name
    ensures r.Some? ==> exists i :: 0 <= i < |members| && members[i] == (name, r.value)
                                    && forall k :: i < k < |members| ==> members[k].0 != name
    decreases |members|
  {
    if |members| == 0 then None
    else if members[|members| - 1].0 == name then Some(members[|members| - 1].1)
    else
      var r := LastMember(members[..|members| - 1], name);
      assert forall i :: 0 <= i < |members| - 1 ==> members[..|members| - 1][i] == members[i];
      r
  }

  /** `TryGetProperty(name, out v)`: an object yields the member or `false`;
      any other kind throws. */
  function TryGetProperty(e: Json, name: string): Access<Json> {
    match e
    case JObj(members) =>
      (match LastMember(members, name)
       case Some(v) => Found(v)
       case None => Absent)
    case _ => Threw
  }

  /** `GetArrayLength()`: only an array has one; any other kind throws. */
  function GetArrayLength(e: Json): Access<nat> {
    match e
    case JArr(elems) => Found(|elems|)
    case _ => Threw
  }

  /** The indexer `e[i]`: throws unless `e` is an array with an element `i`. */
  function ElementAt(e: Json, i: nat): Access<Json> {
    match e
    case JArr(elems) => if i < |elems| then Found(elems[i]) else Threw
    case _ => Threw
  }

  /** `GetString()`: a string yields its value, JSON null yields C# `null`
      (here `None`), any other kind throws. */
  function GetString(e: Json): Access<Option<string>> {
    match e
    case JStr(s) => Found(Some(s))
    case JNull => Found(None)
    case _ => Threw
  }
}
