/**
  Python's `post_contacts` route, reduced to its decisions: it needs the
  `data` root of the JSON body, resolves the campaign from the request's
  API token, and hands the submission to the pipeline.
 */
module Entry {
  import opened Leads
  import opened Contacts
  import opened Archive
  import opened Pipeline

  const NO_ROOT_MSG := "Invalid JSON structure: no root element \"data\" provided."

  /** A request: the members of its JSON body (only `data` is read), the
      `x-api-key` header, and the metadata that goes into the archive. */
  datatype Request = Request(body: map<string, Submission>, token: string, meta: RequestMeta)

  /** The JSON the route returns. A missing `data` root is answered with a
      `{"success": false, "response": ...}` envelope; every pipeline
      response is returned bare. */
  datatype Reply = Envelope(success: bool, response: Response) | Bare(response: Response)

  datatype Served = Served(reply: Reply, store: Store, archive: seq<ArchiveRecord>)

  /** Without a `data` root the route answers with a `fail` envelope and
      touches no store; with one, an unknown token is a fault; otherwise
      the reply is exactly the pipeline's response for the campaign the
      token names, and the stores are those the pipeline leaves. */
  function PostContacts(req: Request, campaigns: map<string, Campaign>, store: Store, archive: seq<ArchiveRecord>,
                        disposable: set<string>, env: Env): (r: Result<Served>)
    ensures "data" !in req.body ==>
      r == Ok(Served(Envelope(false, Response(FAIL, map["data" := NO_ROOT_MSG])), store, archive))
    ensures "data" in req.body && req.token !in campaigns ==> r == Err(UnknownCampaign(req.token))
    ensures "data" in req.body && req.token in campaigns ==>
      var h := HandleData(req.body["data"], campaigns[req.token], store, archive, disposable, req.meta, env);
      && r.Ok? == h.Ok?
      && (h.Err? ==> r.fault == h.fault)
      && (h.Ok? ==> r.value == Served(Bare(h.value.response), h.value.store, h.value.archive))
  {
    if "data" !in req.body then
      Ok(Served(Envelope(false, Response(FAIL, map["data" := NO_ROOT_MSG])), store, archive))
    else if req.token !in campaigns then
      Err(UnknownCampaign(req.token))
    else
      match HandleData(req.body["data"], campaigns[req.token], store, archive, disposable, req.meta, env)
      case Err(fault) => Err(fault)
      case Ok(o) => Ok(Served(Bare(o.response), o.store, o.archive))
  }

  /** A request without a `data` root never reaches the campaign lookup:
      its answer is the same whatever the campaigns table holds. */
  lemma NoRootIgnoresCampaigns(req: Request, campaigns1: map<string, Campaign>, campaigns2: map<string, Campaign>,
                               store: Store, archive: seq<ArchiveRecord>, disposable: set<string>, env: Env)
    requires "data" !in req.body
    ensures PostContacts(req, campaigns1, store, archive, disposable, env)
         == PostContacts(req, campaigns2, store, archive, disposable, env)
  {
  }
}
