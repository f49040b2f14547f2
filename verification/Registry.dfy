/** Which namespaces have an idler, and which are known to have no tenant. */
module Registry {
  import opened Wrappers
  import opened Tenant

  /** What `createIfNotExist` finds out about a namespace. */
  datatype Resolution =
    | Cached
    | Listed
    | Failed(msg: string)
    | Stranger
    | Create(id: string)

  /** The tenant service is asked only about namespaces in neither map. */
  predicate AsksTenant(cached: bool, listed: bool) {
    !cached && !listed
  }

  function Resolve(cached: bool, listed: bool, answer: Result<InfoList>): Resolution {
    if cached then Cached
    else if listed then Listed
    else match answer
      case Err(msg) => Failed(msg)
      case Ok(ti) =>
        if ti.totalCount > 1 then Failed("could not add new user - Tenant service returned multiple items")
        else if ti.data == [] then Stranger
        else Create(ti.data[0].id)
  }

  /**
   The shared map is asked first, then the controller's own list, and the answer counts only
   for a namespace in neither. More than one tenant is an error, no tenant a stranger, errors
   in the answer or not.
   */
  lemma ResolveTable(cached: bool, listed: bool, answer: Result<InfoList>)
    ensures var r := Resolve(cached, listed, answer);
            && (r.Cached? <==> cached)
            && (r.Listed? <==> !cached && listed)
            && (!cached && !listed ==>
                  && (r.Failed? <==> answer.Err? || answer.value.totalCount > 1)
                  && (answer.Err? ==> r.msg == answer.error)
                  && (r.Stranger? <==> answer.Ok? && answer.value.totalCount <= 1 && answer.value.data == [])
                  && (r.Create? ==> answer.value.data != [] && r.id == answer.value.data[0].id))
  {
  }

  /** An answer after which the controller need not ask again. */
  predicate Conclusive(answer: Result<InfoList>) {
    answer.Ok? && answer.value.totalCount <= 1
  }
}
