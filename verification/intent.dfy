/**
 * The structured action exchanged between the command endpoint and the window
 * kernel: `{ type: string, payload: any }`, where the payload is `null` or an
 * object that may carry string fields `app_id` and `query`.
 */
module Intent {
  import opened Wrappers

  /** The two payload fields anyone reads; an absent field is `None`. */
  datatype Payload = Payload(appId: Option<string>, query: Option<string>)

  /** `type` is free text on the wire; `payload` is `None` for `null`. */
  datatype Action = Action(kind: string, payload: Option<Payload>)

  const OpenApplication := "open_application"
  const SearchFileSystem := "search_virtual_file_system"
  const NoAction := "none"

  /** JavaScript truthiness of a string field: present and non-empty. */
  predicate Truthy(field: Option<string>) {
    field.Some? && field.value != ""
  }

  /** `action.payload?.app_id` as the value the dispatcher acts on, if it is truthy. */
  function AppIdOf(a: Action): (r: Option<string>)
    ensures r.Some? <==> a.payload.Some? && Truthy(a.payload.value.appId)
    ensures r.Some? ==> r.value != "" && r == a.payload.value.appId
  {
    match a.payload
    case None => None
    case Some(p) => if Truthy(p.appId) then p.appId else None
  }

  /** `action.payload?.query` as the value the dispatcher acts on, if it is truthy. */
  function QueryOf(a: Action): (r: Option<string>)
    ensures r.Some? <==> a.payload.Some? && Truthy(a.payload.value.query)
    ensures r.Some? ==> r.value != "" && r == a.payload.value.query
  {
    match a.payload
    case None => None
    case Some(p) => if Truthy(p.query) then p.query else None
  }
}
