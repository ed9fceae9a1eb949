/**
 * The local Jenkins as both import actions use it: the names of its top-level
 * items, and the outcomes of its create and delete calls, which the model takes
 * as given (they depend on the host, its plugins and its disk).
 */
module LocalJenkins {
  import opened Wrappers
  import opened ImportMessages

  /**
   * `createProjectFromXML`: the item was created, or the call threw (with the
   * exception's message), possibly after the item had already been registered.
   */
  datatype Creation = Created | CreateFailed(message: Option<string>, leftBehind: bool)

  /** `Item.delete`: done, interrupted (InterruptedException), or an IOException with its message. */
  datatype Deletion = Deleted | DeleteInterrupted | DeleteFailed(message: string)

  /** `getItem(name) != null`; a null name finds nothing. */
  predicate Present(items: set<string>, name: Option<string>)
  {
    name.Some? && name.value in items
  }

  /**
   * The outcome of one import attempt: the status recorded for the job, the
   * local item names afterwards, and the message of the IOException that
   * escapes `doImport`, if any.
   */
  datatype Attempt = Attempt(status: Message, items: set<string>, escaped: Option<string>)

  /**
   * The local items after `createProjectFromXML(name, …)`: the new name when
   * the item was created or a failed creation left it registered.
   */
  function AfterCreate(items: set<string>, name: Option<string>, c: Creation): (r: set<string>)
    ensures items <= r && r <= items + (if name.Some? then {name.value} else {})
    ensures Present(r, name) <==> Present(items, name) || (name.Some? && (c.Created? || c.leftBehind))
  {
    if name.Some? && (c.Created? || c.leftBehind) then items + {name.value} else items
  }

  /**
   * The `catch` block of both `doImport`s: the exception status is recorded,
   * then the item of that name, if there is one, is deleted. An interrupted
   * delete is swallowed; an IOException escapes. No other item is touched.
   */
  function Rollback(name: Option<string>, status: Message, items: set<string>, delete: string -> Deletion): (r: Attempt)
    ensures r.status == status
    ensures r.escaped.Some? <==> Present(items, name) && delete(name.value).DeleteFailed?
    ensures Present(r.items, name) <==> Present(items, name) && !delete(name.value).Deleted?
    ensures forall n :: Some(n) != name ==> (n in r.items <==> n in items)
  {
    if !Present(items, name) then Attempt(status, items, None)
    else
      match delete(name.value)
      case Deleted => Attempt(status, items - {name.value}, None)
      case DeleteInterrupted => Attempt(status, items, None)
      case DeleteFailed(e) => Attempt(status, items, Some(e))
  }
}
