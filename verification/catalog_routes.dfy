/** The `resolve` functions of the catalog item detail states
    (`catalogs.details` at `/:serviceTemplateId` and `catalogs.duplicate` at
    `/duplicate/:serviceRequestId`) in
    client/app/states/catalogs/details/details.state.js.

    A resolver does not fetch anything here: it returns the API call it
    would issue, which is all the decision it makes. */
module CatalogRoutes {
  import opened Wrappers

  /** The route parameters; a parameter missing from the URL is `None`. */
  datatype StateParams = StateParams(serviceTemplateId: Option<string>, serviceRequestId: Option<string>)

  /** The request being duplicated, as far as the page reads it: the
      template it was ordered from and the dialog values it was ordered
      with (`options.dialog`). */
  datatype ServiceRequest = ServiceRequest(sourceId: string, dialogValues: map<string, string>)

  /** The options object passed to the collections API. */
  datatype ApiOptions = ApiOptions(attributes: seq<string>, expand: Option<string>)

  /** A call to the collections API: `get(collection, id, options)` or
      `query(path, options)`. An id of `None` is JavaScript `undefined`. */
  datatype ApiCall =
    | Get(collection: string, id: Option<string>, options: ApiOptions)
    | Query(path: string, options: ApiOptions)

  /** What `resolveServiceRequest` yields: `false`, or the fetch of a request. */
  datatype RequestResolution = NoRequest | Fetch(call: ApiCall)

  /** JavaScript truthiness of a route parameter: present and not empty. */
  predicate Truthy(p: Option<string>)
  {
    p.Some? && p.value != ""
  }

  /** The text JavaScript writes when an id is concatenated to a string. */
  function IdText(id: Option<string>): string
  {
    if id.Some? then id.value else "undefined"
  }

  /** The service template both resolvers look up: the route parameter
      when it is truthy, otherwise the duplicated request's `source_id`
      (undefined when there is no request, since `false.source_id` is
      undefined). */
  function TemplateId(params: StateParams, request: Option<ServiceRequest>): (id: Option<string>)
    ensures Truthy(params.serviceTemplateId) ==> id == params.serviceTemplateId
    ensures !Truthy(params.serviceTemplateId) && request.Some? ==> id == Some(request.value.sourceId)
    ensures !Truthy(params.serviceTemplateId) && request.None? ==> id.None?
  {
    if Truthy(params.serviceTemplateId) then params.serviceTemplateId
    else if request.Some? then Some(request.value.sourceId)
    else None
  }

  /** `resolveServiceRequest`: no request id in the route gives `false`;
      otherwise the request is fetched from the `requests` collection. */
  function ResolveServiceRequest(params: StateParams): (r: RequestResolution)
    ensures r.NoRequest? <==> !Truthy(params.serviceRequestId)
    ensures r.Fetch? ==> r.call == Get("requests", params.serviceRequestId, ApiOptions([], None))
  {
    if Truthy(params.serviceRequestId) then Fetch(Get("requests", params.serviceRequestId, ApiOptions([], None)))
    else NoRequest
  }

  /** `resolveServiceTemplate`: fetch the template with its picture. */
  function ResolveServiceTemplate(params: StateParams, request: Option<ServiceRequest>): (r: ApiCall)
    ensures r.Get? && r.collection == "service_templates"
    ensures r.id == TemplateId(params, request)
    ensures r.options == ApiOptions(["picture", "picture.image_href"], None)
  {
    Get("service_templates", TemplateId(params, request), ApiOptions(["picture", "picture.image_href"], None))
  }

  const DialogsPrefix: string := "service_templates/"
  const DialogsSuffix: string := "/service_dialogs"

  /** `resolveDialogs`: query the template's dialogs with their content. */
  function ResolveDialogs(params: StateParams, request: Option<ServiceRequest>): (r: ApiCall)
    ensures r.Query? && r.options == ApiOptions(["content"], Some("resources"))
    ensures r.path == DialogsPrefix + IdText(TemplateId(params, request)) + DialogsSuffix
  {
    Query(DialogsPrefix + IdText(TemplateId(params, request)) + DialogsSuffix, ApiOptions(["content"], Some("resources")))
  }

  /** The template id written inside a dialogs query path, if the path
      has the dialogs shape. */
  function DialogsPathTemplate(path: string): Option<string>
  {
    if |path| >= |DialogsPrefix| + |DialogsSuffix|
       && path[..|DialogsPrefix|] == DialogsPrefix
       && path[|path| - |DialogsSuffix|..] == DialogsSuffix
    then Some(path[|DialogsPrefix|..|path| - |DialogsSuffix|])
    else None
  }

  /** The dialogs query and the template fetch always name the same
      template: reading the id back out of the dialogs path gives the id
      the template is fetched with. */
  lemma ResolversAgree(params: StateParams, request: Option<ServiceRequest>)
    ensures DialogsPathTemplate(ResolveDialogs(params, request).path)
         == Some(IdText(ResolveServiceTemplate(params, request).id))
  {
    var id := IdText(TemplateId(params, request));
    var path := DialogsPrefix + id + DialogsSuffix;
    assert path[..|DialogsPrefix|] == DialogsPrefix;
    assert path[|path| - |DialogsSuffix|..] == DialogsSuffix;
    assert path[|DialogsPrefix|..|path| - |DialogsSuffix|] == id;
  }

  /** On the `catalogs.details` route (a template id and no request id)
      no request is fetched and the route's template is used. */
  lemma DetailsRouteUsesRouteTemplate(params: StateParams)
    requires Truthy(params.serviceTemplateId) && params.serviceRequestId.None?
    ensures ResolveServiceRequest(params) == NoRequest
    ensures ResolveServiceTemplate(params, None).id == params.serviceTemplateId
    ensures ResolveDialogs(params, None).path
         == "service_templates/" + params.serviceTemplateId.value + "/service_dialogs"
  {
  }

  /** On the `catalogs.duplicate` route (a request id and no template id)
      the request is fetched and the template it came from is used. */
  lemma DuplicateRouteUsesSourceTemplate(params: StateParams, request: ServiceRequest)
    requires params.serviceTemplateId.None? && Truthy(params.serviceRequestId)
    ensures ResolveServiceRequest(params).Fetch?
    ensures ResolveServiceRequest(params).call.collection == "requests"
    ensures ResolveServiceRequest(params).call.id == params.serviceRequestId
    ensures ResolveServiceTemplate(params, Some(request)).id == Some(request.sourceId)
    ensures ResolveDialogs(params, Some(request)).path
         == "service_templates/" + request.sourceId + "/service_dialogs"
  {
  }
}
