/**
 * The message selection of `showToast`: the value passed in is inspected by shape
 * and the first usable text is shown.
 */
module Toast {
  import opened Wrappers

  /**
   * What `showToast` can be handed. A string is shown as it is. Any other truthy value
   * is an object whose `response.data.error` and `message` fields may hold text, and
   * `json` is what `JSON.stringify` renders it as. `Nothing` stands for a falsy
   * non-string value (`undefined`, `null`, `false`, `0`).
   */
  datatype Thrown =
    | Text(s: string)
    | Value(dataError: Option<string>, message: Option<string>, json: string)
    | Nothing

  const Fallback := "An unexpected error occurred"

  /** A field is truthy when it is present and not the empty string. */
  predicate Truthy(field: Option<string>): (b: bool)
    ensures field.None? ==> !b
    ensures field.Some? ==> (b <==> |field.value| > 0)
  {
    field.Some? && field.value != ""
  }

  /** The text of the first truthy field, or `otherwise` when there is none. */
  function FirstTruthy(fields: seq<Option<string>>, otherwise: string): (r: string)
    ensures r == otherwise || exists k :: 0 <= k < |fields| && Truthy(fields[k]) && r == fields[k].value
    ensures forall k :: 0 <= k < |fields| && Truthy(fields[k]) && (forall j :: 0 <= j < k ==> !Truthy(fields[j]))
              ==> r == fields[k].value
    ensures (forall k :: 0 <= k < |fields| ==> !Truthy(fields[k])) ==> r == otherwise
    decreases |fields|
  {
    if fields == [] then otherwise
    else if Truthy(fields[0]) then fields[0].value
    else
      var r := FirstTruthy(fields[1..], otherwise);
      assert forall k :: 1 <= k < |fields| ==> fields[k] == fields[1..][k - 1];
      r
  }

  /** The `safeMessage` that `showToast` settles on. */
  function Message(msg: Thrown): (r: string)
    ensures msg.Text? ==> r == msg.s
    ensures msg.Value? ==> r == FirstTruthy([msg.dataError, msg.message], msg.json)
    ensures msg.Nothing? ==> r == Fallback
  {
    match msg
    case Text(s) => s
    case Value(dataError, message, json) =>
      if Truthy(dataError) then dataError.value
      else if Truthy(message) then message.value
      else json
    case Nothing => Fallback
  }

  /** A backend error body `{ error: ... }` with text wins over the transport's own message. */
  lemma BackendErrorFirst(e: string, message: Option<string>, json: string)
    requires e != ""
    ensures Message(Value(Some(e), message, json)) == e
  {
  }
}
