/**
 * The public submission endpoint `POST /api/submit-opportunity`: validates
 * the four required fields by JavaScript truthiness and acknowledges. The
 * call that would persist the submission is commented out in the handler, so
 * the submission queue is passed through untouched.
 */
module SubmitRoute {
  import opened Submissions

  /** A field of the parsed JSON body, reduced to what truthiness needs. */
  datatype JsonValue = Missing | Null | Bool(b: bool) | Number(n: real) | Text(s: string) | Composite

  /** JavaScript truthiness: `undefined`, `null`, `false`, `0` and `""` are falsy. */
  predicate Truthy(v: JsonValue) {
    match v
    case Missing => false
    case Null => false
    case Bool(b) => b
    case Number(n) => n != 0.0
    case Text(s) => |s| > 0
    case Composite => true
  }

  datatype Body = Body(
    opportunityName: JsonValue,
    opportunityType: JsonValue,
    description: JsonValue,
    link: JsonValue,
    userName: JsonValue,
    userTwitter: JsonValue)

  /**
   * What `request.json()` yields: a parse failure, `null` (reading a property
   * of it throws), another non-object value (every property reads as
   * `undefined`), or an object.
   */
  datatype Request = Unparsable | JsonNull | JsonPrimitive | JsonObject(body: Body)

  datatype Payload = ErrorPayload(error: string) | Acknowledged(success: bool, message: string)

  datatype Response = Response(status: int, payload: Payload)

  const MissingFields: string := "Missing required fields"
  const SubmitFailed: string := "Failed to submit opportunity"
  const Acknowledgement: string := "Opportunity submitted successfully. Admin will review shortly."

  /** The handler's check: the four required fields are all truthy. */
  predicate RequiredPresent(b: Body) {
    Truthy(b.opportunityName) && Truthy(b.opportunityType) && Truthy(b.description) && Truthy(b.link)
  }

  /**
   * `POST`: 400 when a required field is falsy, 500 when the body cannot be
   * read as JSON (or is `null`), 200 with the acknowledgement otherwise; the
   * queue comes back unchanged on every path.
   */
  function Post(req: Request, queue: Queue): (res: (Response, Queue))
    ensures res.1 == queue
    ensures res.0.status == 200 <==> req.JsonObject? && RequiredPresent(req.body)
    ensures res.0.status == 200 ==> res.0.payload == Acknowledged(true, Acknowledgement)
    ensures res.0.status == 500 <==> req.Unparsable? || req.JsonNull?
    ensures res.0.status == 500 ==> res.0.payload == ErrorPayload(SubmitFailed)
    ensures res.0.status != 200 && res.0.status != 500 ==>
      res.0.status == 400 && res.0.payload == ErrorPayload(MissingFields)
  {
    match req
    case Unparsable => (Response(500, ErrorPayload(SubmitFailed)), queue)
    case JsonNull => (Response(500, ErrorPayload(SubmitFailed)), queue)
    case JsonPrimitive => (Response(400, ErrorPayload(MissingFields)), queue)
    case JsonObject(b) =>
      if !RequiredPresent(b) then (Response(400, ErrorPayload(MissingFields)), queue)
      else (Response(200, Acknowledged(true, Acknowledgement)), queue)
  }

  /** The optional `userName` and `userTwitter` never change the response. */
  lemma UserFieldsIrrelevant(b: Body, userName: JsonValue, userTwitter: JsonValue, queue: Queue)
    ensures Post(JsonObject(b.(userName := userName, userTwitter := userTwitter)), queue) == Post(JsonObject(b), queue)
  {
  }

  /**
   * Validation tests truthiness only: any four non-empty strings pass,
   * white space alone included.
   */
  lemma WhitespaceFieldsAccepted(name: string, kind: string, description: string, link: string,
                                 userName: JsonValue, userTwitter: JsonValue, queue: Queue)
    requires name != "" && kind != "" && description != "" && link != ""
    ensures Post(JsonObject(Body(Text(name), Text(kind), Text(description), Text(link), userName, userTwitter)), queue).0.status == 200
  {
  }

  /** Omitting the link is a validation failure, with the queue untouched. */
  lemma MissingLinkRejected(b: Body, queue: Queue)
    ensures var (resp, q) := Post(JsonObject(b.(link := Missing)), queue);
      resp.status == 400 && resp.payload == ErrorPayload(MissingFields) && q == queue
  {
  }
}
