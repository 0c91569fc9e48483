/** `Action`: an identified payload attached to a node. Its value is a
    structured JSON value (`serde_json::Value`). */
module Actions {
  import opened Base

  /** `serde_json::Number`: an integer (`PosInt`/`NegInt`) or a float. As in
      serde_json, `Integer(1)` and `Float(1.0)` are different numbers. */
  datatype JsonNumber = Integer(i: int) | Float(f: real)

  /** `serde_json::Value`. */
  datatype Json =
    | Null
    | Bool(b: bool)
    | Number(n: JsonNumber)
    | String(s: string)
    | Array(items: seq<Json>)
    | Object(fields: map<string, Json>)

  /** `Action { id, value }`; equality is the derived, field-wise one. */
  datatype Action = Action(id: u32, value: Json)

  /** `Action::new`: an absent value becomes `Null`. */
  function NewAction(id: u32, value: Option<Json>): (a: Action)
    ensures a.id == id
    ensures value.None? ==> a.value == Null
    ensures value.Some? ==> a.value == value.value
  {
    match value
    case Some(v) => Action(id, v)
    case None => Action(id, Null)
  }

  /** Every action is what `Action::new` builds from its own fields. */
  lemma NewActionRebuilds(a: Action)
    ensures NewAction(a.id, Some(a.value)) == a
  {
  }

  /** Leaving the value out is the same as passing `Null`. */
  lemma NewActionDefault(id: u32)
    ensures NewAction(id, None) == NewAction(id, Some(Null))
  {
  }

  /** Derived `PartialEq`: two actions are equal exactly when their ids and
      their values are. */
  lemma ActionEquality(a: Action, b: Action)
    ensures a == b <==> a.id == b.id && a.value == b.value
  {
  }
}
