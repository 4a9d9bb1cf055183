/** The JSON envelope every handler answers with: `c.json({ success, data?, msg? }, status)`.
    An absent `data` is `None`; an absent `msg` is the empty string, which the pages treat alike. */
module Http {
  import opened Wrappers

  datatype Reply<T> = Reply(status: nat, success: bool, data: Option<T>, msg: string)

  /** JavaScript truthiness of an optional numeric id: absent and 0 are falsy. */
  predicate Truthy(id: Option<int>)
  {
    id.Some? && id.value != 0
  }

  /** A failed reply with a status and a message and no data. */
  function Error<T>(status: nat, msg: string): Reply<T>
  {
    Reply(status, false, None, msg)
  }
}
