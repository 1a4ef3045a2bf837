/**
 * The choice every admin form makes on submit: update the record being
 * edited, or insert a new one.
 */
module Crud {
  import opened Wrappers
  import opened Text

  /** The write a form sends to its table. */
  datatype Write<P> = Insert(payload: P) | Update(id: string, payload: P)

  /**
   * `if (editingId) update(payload).eq("id", editingId) else insert(payload)`:
   * an update of the edited record exactly when an id is being edited.
   */
  function ChooseWrite<P>(editingId: Option<string>, payload: P): (w: Write<P>)
    ensures w.payload == payload
    ensures w.Update? <==> Truthy(editingId)
    ensures w.Update? ==> w.id == editingId.value
  {
    if editingId.Some? && editingId.value != "" then Update(editingId.value, payload) else Insert(payload)
  }

  /**
   * `delete().eq("id", id)` on a table held as a map: the row with that id
   * is gone and every other row is kept as it was.
   */
  function Removed<R>(table: map<string, R>, id: string): (t: map<string, R>)
    ensures id !in t
    ensures t.Keys == table.Keys - {id}
    ensures forall k :: k in t ==> t[k] == table[k]
  {
    table - {id}
  }
}
