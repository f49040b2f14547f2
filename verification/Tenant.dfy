/** The tenant service's answers and the capacity decision (internal/tenant). */
module Tenant {
  import opened Wrappers

  datatype Namespace = Namespace(name: string, clusterCapacityExhausted: bool)

  datatype InfoData = InfoData(id: string, namespaces: seq<Namespace>)

  datatype TenantError = TenantError(code: string, detail: string)

  datatype InfoList = InfoList(data: seq<InfoData>, totalCount: int, errors: seq<TenantError>)

  predicate Names(namespaces: seq<Namespace>, name: string) {
    exists i :: 0 <= i < |namespaces| && namespaces[i].name == name
  }

  method IndexOfNamespaceWithName(namespaces: seq<Namespace>, name: string) returns (index: int)
    ensures index >= 0 <==> Names(namespaces, name)
    ensures index >= 0 ==>
              && index < |namespaces| && namespaces[index].name == name
              && forall j :: 0 <= j < index ==> namespaces[j].name != name
    ensures index < 0 ==> index == -1
  {
    for i := 0 to |namespaces|
      invariant forall j :: 0 <= j < i ==> namespaces[j].name != name
    {
      if namespaces[i].name == name {
        return i;
      }
    }
    return -1;
  }

  /**
   Whether the cluster of namespace `ns` is full. A caller gets an answer only if the
   lookup succeeded without errors and the first tenant has that namespace; the flag is the
   one of its first entry with that name.
   */
  method HasReachedMaxCapacity(answer: Result<InfoList>, ns: string) returns (full: Result<bool>)
    ensures full.Ok? <==>
            && answer.Ok? && answer.value.errors == [] && answer.value.data != []
            && Names(answer.value.data[0].namespaces, ns)
    ensures full.Ok? ==> exists i :: var nss := answer.value.data[0].namespaces;
              && 0 <= i < |nss| && nss[i].name == ns && full.value == nss[i].clusterCapacityExhausted
              && forall j :: 0 <= j < i ==> nss[j].name != ns
  {
    if answer.Err? {
      return Err(answer.error);
    }
    var ti := answer.value;
    if |ti.errors| != 0 {
      return Err(ti.errors[0].code + " - " + ti.errors[0].detail);
    }
    if |ti.data| == 0 {
      return Err("Failed to fetch tenant information for " + ns);
    }
    var index := IndexOfNamespaceWithName(ti.data[0].namespaces, ns);
    if index < 0 {
      return Err("Failed to find " + ns + " in tenant info");
    }
    return Ok(ti.data[0].namespaces[index].clusterCapacityExhausted);
  }
}
