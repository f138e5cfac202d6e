/**
 * `validateSchema(schema)`: parse the request body with the schema;
 * continue when it passes, otherwise answer 400 with the issues' messages.
 */
module ValidatorMiddleware {
  import opened Optional
  import opened Http

  /** `error.errors.map((error) => error.message)`. */
  function MessagesOf(issues: seq<Issue>): (r: seq<string>)
    ensures |r| == |issues|
    ensures forall i :: 0 <= i < |issues| ==> r[i] == issues[i].message
  {
    if |issues| == 0 then [] else [issues[0].message] + MessagesOf(issues[1..])
  }

  /** The schema is the list of issues it reports for a body; `[]` means it parses. */
  function ValidateSchema(schema: Form -> seq<Issue>, req: Request): (r: Passage)
    ensures r.request == req
    ensures (r.response.Some? && r.nextCalls == 0) || (r.response.None? && r.nextCalls == 1)
    ensures r.nextCalls == 1 <==> schema(req.body) == []
    ensures r.response.Some? ==>
              && r.response.value.status == 400
              && r.response.value.cookie.None?
              && r.response.value.body.Messages?
              && |r.response.value.body.list| == |schema(req.body)|
              && forall i :: 0 <= i < |schema(req.body)| ==>
                   r.response.value.body.list[i] == schema(req.body)[i].message
  {
    var issues := schema(req.body);
    if issues == [] then Passage(req, None, 1)
    else Passage(req, Some(Response(400, Messages(MessagesOf(issues)), None)), 0)
  }
}
