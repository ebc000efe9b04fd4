/** The request pipeline and the five CRUD routes of `src/index.js`.
    Every route is a pure transition from a table and a request to an
    outcome: the response sent together with the table afterwards, or no
    response at all when a stage threw (Express does not catch a rejected
    async handler, so such a request is never answered). */
module Routes {
  import opened Js
  import opened Utils
  import opened Store

  /** A Boom error: the HTTP status it maps to and the parts of its payload. */
  datatype Boom = Boom(statusCode: int, error: string, message: JsValue) {
    /** `boom.output.payload`. */
    function Payload(): JsValue
    {
      Object(map["statusCode" := Number(statusCode), "error" := Str(error), "message" := message])
    }
  }

  /** `Boom.forbidden(message)`: answered, it is a 403 whose payload says
      `Forbidden` and carries the message. */
  function Forbidden(message: string): (b: Boom)
    ensures BoomIt(b).status == 403
    ensures BoomIt(b).body.fields["error"] == Str("Forbidden")
    ensures BoomIt(b).body.fields["message"] == Str(message)
  {
    Boom(403, "Forbidden", Str(message))
  }

  /** `Boom.badRequest(detail)`: answered, it is a 400 whose payload says
      `Bad Request` and carries the detail as its message. */
  function BadRequest(detail: JsValue): (b: Boom)
    ensures BoomIt(b).status == 400
    ensures BoomIt(b).body.fields["error"] == Str("Bad Request")
    ensures BoomIt(b).body.fields["message"] == detail
  {
    Boom(400, "Bad Request", detail)
  }

  /** An HTTP response: status code and JSON body. */
  datatype Response = Response(status: int, body: JsValue)

  /** `boomIt(res, b)`: the response carries the error's status and its
      payload, and nothing else. */
  function BoomIt(b: Boom): (res: Response)
    ensures res.status == b.statusCode
    ensures res.body.Object? && "statusCode" in res.body.fields
    ensures res.body.fields["statusCode"] == Number(res.status)
    ensures res.body == b.Payload()
  {
    Response(b.statusCode, b.Payload())
  }

  /** What a request carries into the handlers: `req.params.id` and `req.body`. */
  datatype Request = Request(id: Id, body: JsValue)

  /** The `{error, value}` a validation step returns. */
  datatype ValidationResult = ValidationResult(error: JsValue, value: JsValue)

  /** `applyValidateModel(validateHandler, req)`: the validation step, given
      the operation's entry of `restify.validate`; it may throw. */
  type Validator = (JsValue, Request) -> Result<ValidationResult, JsError>

  /** The `error` field of the pipeline's result: either the validation's
      own (falsy) error passed through, or a Boom error. */
  datatype ErrorField = Plain(v: JsValue) | Boomed(b: Boom)

  predicate ErrorTruthy(e: ErrorField)
  {
    match e
    case Plain(v) => Truthy(v)
    case Boomed(_) => true
  }

  /** The `{error, value}` `authAndValidate` resolves to. */
  datatype Checked = Checked(error: ErrorField, value: JsValue)

  /** The auth step resolved to a truthy value. */
  predicate Admits(auth: Result<JsValue, JsError>)
  {
    auth.Success? && Truthy(auth.value)
  }

  /** The auth step resolved to a falsy value. */
  predicate Refuses(auth: Result<JsValue, JsError>)
  {
    auth.Success? && !Truthy(auth.value)
  }

  /** `authAndValidate(req)(defaultAuth, authHandler, validateHandler)`,
      given the awaited auth result. A refusal gives 403 "not allowed"
      without validating; a truthy validation error gives 400; otherwise
      the validation's `{error, value}` comes back unchanged. A throwing
      stage makes the whole pipeline throw. */
  function AuthAndValidate(req: Request, auth: Result<JsValue, JsError>,
                           validateHandler: JsValue, applyValidate: Validator): (r: Result<Checked, JsError>)
    ensures auth.Failure? ==> r == Failure(auth.error)
    ensures Refuses(auth) ==> r == Success(Checked(Boomed(Forbidden("not allowed")), Null))
    ensures Admits(auth) ==>
      match applyValidate(validateHandler, req)
      case Failure(e) => r == Failure(e)
      case Success(vr) =>
        && (Truthy(vr.error) ==> r == Success(Checked(Boomed(BadRequest(vr.error)), Null)))
        && (!Truthy(vr.error) ==> r == Success(Checked(Plain(vr.error), vr.value)))
    ensures r.Success? ==> (ErrorTruthy(r.value.error) <==> r.value.error.Boomed?)
    ensures r.Success? && r.value.error.Boomed? ==> r.value.value == Null
  {
    match auth
    case Failure(e) => Failure(e)
    case Success(isValid) =>
      if !Truthy(isValid) then
        Success(Checked(Boomed(Forbidden("not allowed")), Null))
      else
        match applyValidate(validateHandler, req)
        case Failure(e) => Failure(e)
        case Success(ValidationResult(error, value)) =>
          if Truthy(error) then
            Success(Checked(Boomed(BadRequest(error)), Null))
          else
            Success(Checked(Plain(error), value))
  }

  /** The validator is never consulted unless auth admits the request. */
  lemma ValidationOnlyAfterAdmission(req: Request, auth: Result<JsValue, JsError>,
                                     h1: JsValue, v1: Validator, h2: JsValue, v2: Validator)
    requires !Admits(auth)
    ensures AuthAndValidate(req, auth, h1, v1) == AuthAndValidate(req, auth, h2, v2)
  {
  }

  /** Every rejection the pipeline produces is a 403 or a 400. */
  lemma PipelineRejectionStatus(req: Request, auth: Result<JsValue, JsError>,
                                validateHandler: JsValue, applyValidate: Validator)
    ensures var r := AuthAndValidate(req, auth, validateHandler, applyValidate);
      r.Success? && r.value.error.Boomed? ==>
        r.value.error.b.statusCode == 403 || r.value.error.b.statusCode == 400
  {
  }

  const DefaultAuthMessage: string :=
    "A model try to use auth. You must implement auth option in the constructor"

  /** The `auth` option's default: it always throws. */
  function DefaultAuth(authParams: JsValue): (r: Result<JsValue, JsError>)
    ensures r.Failure? && r.error == Error(DefaultAuthMessage)
  {
    Failure(Error(DefaultAuthMessage))
  }

  /** The `auth` option of the module's constructor, defaulted when absent. */
  function ResolveAuthOption(option: Option<AuthHandler>): (auth: AuthHandler)
    ensures option.None? ==> forall p :: auth(p).Failure?
    ensures option.Some? ==> auth == option.value
  {
    match option
    case None => DefaultAuth
    case Some(handler) => handler
  }

  /** What `forEach` keeps per selected model: its path and the two
      destructured configuration tables. */
  datatype RouteSet = RouteSet(
    path: string,
    model: Model,
    validate: map<Operation, JsValue>,
    auth: map<Operation, AuthEntry>)

  /** The model has what the setup destructures. */
  predicate Configured(m: Model)
  {
    m.restify.Some? && m.restify.value.validate.Some? && m.restify.value.auth.Some?
  }

  /** Setting up one model: derive the path, then destructure
      `restify.validate` and `restify.auth`; destructuring `undefined` throws. */
  function SetupModel(m: Model): (r: Result<RouteSet, JsError>)
    ensures r.Success? <==> Configured(m)
    ensures r.Failure? ==> r.error.TypeError?
    ensures r.Success? ==>
      && r.value.path == PathModelSelector(m)
      && r.value.model == m
      && r.value.validate == m.restify.value.validate.value
      && r.value.auth == m.restify.value.auth.value
  {
    var path := PathModelSelector(m);
    match ValidateModelSelector(m)
    case Failure(e) => Failure(e)
    case Success(None) => Failure(TypeError("Cannot destructure property 'create' of undefined"))
    case Success(Some(validate)) =>
      match AuthModelSelector(m)
      case Failure(e) => Failure(e)
      case Success(None) => Failure(TypeError("Cannot destructure property 'create' of undefined"))
      case Success(Some(auth)) => Success(RouteSet(path, m, validate, auth))
  }

  /** Setting up the models in order; the first one that throws aborts. */
  function SetupEach(models: seq<Model>): (r: Result<seq<RouteSet>, JsError>)
    ensures r.Success? <==> forall i :: 0 <= i < |models| ==> Configured(models[i])
    ensures r.Failure? ==> r.error.TypeError?
    ensures r.Success? ==> |r.value| == |models|
    ensures r.Success? ==> forall i :: 0 <= i < |models| ==> SetupModel(models[i]) == Success(r.value[i])
  {
    if |models| == 0 then Success([])
    else
      match SetupModel(models[0])
      case Failure(e) => Failure(e)
      case Success(first) =>
        match SetupEach(models[1..])
        case Failure(e) => Failure(e)
        case Success(rest) =>
          assert forall i :: 1 <= i < |models| ==> models[i] == models[1..][i - 1];
          Success([first] + rest)
  }

  /** The registration loop of the module: one route set per selected
      model, in the models' order. */
  function Setup(models: seq<Model>): (r: Result<seq<RouteSet>, JsError>)
    ensures r.Success? ==> |r.value| == |ModelsSelector(models)|
    ensures r.Success? ==> forall i :: 0 <= i < |r.value| ==> r.value[i].model == ModelsSelector(models)[i]
    ensures r.Success? ==> forall i :: 0 <= i < |r.value| ==>
      r.value[i].model.name != MetaModelName && r.value[i].path == PathModelSelector(r.value[i].model)
  {
    SetupEach(ModelsSelector(models))
  }

  /** A model without a `restify` block is not skipped: unless it is the
      bookkeeping model, it makes the whole setup throw. */
  lemma SetupFailsOnUnconfiguredModel(models: seq<Model>, i: nat)
    requires i < |models|
    requires models[i].name != MetaModelName
    requires !Configured(models[i])
    ensures Setup(models).Failure?
  {
    ModelsSelectorKeeps(models, i);
    var selected := ModelsSelector(models);
    var j :| 0 <= j < |selected| && selected[j] == models[i];
    assert !Configured(selected[j]);
  }

  /** When every other model is configured, setup succeeds whatever the
      bookkeeping model looks like. */
  lemma SetupSucceedsWhenConfigured(models: seq<Model>)
    requires forall i :: 0 <= i < |models| && models[i].name != MetaModelName ==> Configured(models[i])
    ensures Setup(models).Success?
  {
    var selected := ModelsSelector(models);
    forall j | 0 <= j < |selected|
      ensures Configured(selected[j])
    {
      SelectedComesFromInput(models, j);
    }
  }

  /** Every selected model is one of the input's non-bookkeeping models. */
  lemma {:induction false} SelectedComesFromInput(models: seq<Model>, j: nat)
    requires j < |ModelsSelector(models)|
    ensures exists i :: 0 <= i < |models| && models[i] == ModelsSelector(models)[j]
  {
    var rest := ModelsSelector(models[1..]);
    if models[0].name != MetaModelName && j == 0 {
      assert models[0] == ModelsSelector(models)[0];
    } else {
      var k := if models[0].name != MetaModelName then j - 1 else j;
      assert ModelsSelector(models)[j] == rest[k];
      SelectedComesFromInput(models[1..], k);
      var i :| 0 <= i < |models[1..]| && models[1..][i] == rest[k];
      assert models[i + 1] == rest[k];
    }
  }

  /** `table[op]` of a destructured validation table. */
  function ValidateEntry(routes: RouteSet, op: Operation): JsValue
  {
    if op in routes.validate then routes.validate[op] else Undefined
  }

  /** The outcome of one request: the response with the table after it,
      or no response because a stage threw. */
  datatype Outcome = Answered(response: Response, table: Table) | Unanswered(reason: JsError)

  /** `POST /<path>`: the pipeline with the create entries; a rejection is
      sent as its Boom error, otherwise the validated value (not the raw
      body) is stored under the fresh key the store hands out and sent back
      with 201. */
  function CreateRoute(routes: RouteSet, table: Table, req: Request, auth: Result<JsValue, JsError>,
                       applyValidate: Validator, newId: Id): (o: Outcome)
    requires newId !in table
    ensures auth.Failure? ==> o == Unanswered(auth.error)
    ensures Refuses(auth) ==> o == Answered(BoomIt(Forbidden("not allowed")), table)
    ensures Admits(auth) ==>
      match applyValidate(ValidateEntry(routes, Create), req)
      case Failure(e) => o == Unanswered(e)
      case Success(vr) =>
        && (Truthy(vr.error) ==> o == Answered(BoomIt(BadRequest(vr.error)), table))
        && (!Truthy(vr.error) ==>
              && o.Answered? && o.response.status == 201
              && o.table == table[newId := NewRecord(vr.value, newId)]
              && o.response.body == Object(o.table[newId]))
    ensures o.Answered? && o.response.status != 201 ==> o.table == table
  {
    match AuthAndValidate(req, auth, ValidateEntry(routes, Create), applyValidate)
    case Failure(e) => Unanswered(e)
    case Success(Checked(error, value)) =>
      match error
      case Boomed(b) => Answered(BoomIt(b), table)
      case Plain(_) =>
        var created := NewRecord(value, newId);
        Answered(Response(201, Object(created)), table[newId := created])
  }

  /** `GET /<path>/:id`: the pipeline with the read-one entries; then the
      lookup of the id, sent with the default status 200 even when there
      is no such row (the body is then `null`). The table never changes. */
  function ReadOneRoute(routes: RouteSet, table: Table, req: Request, auth: Result<JsValue, JsError>,
                        applyValidate: Validator): (o: Outcome)
    ensures auth.Failure? ==> o == Unanswered(auth.error)
    ensures Refuses(auth) ==> o == Answered(BoomIt(Forbidden("not allowed")), table)
    ensures Admits(auth) ==>
      match applyValidate(ValidateEntry(routes, ReadOne), req)
      case Failure(e) => o == Unanswered(e)
      case Success(vr) =>
        && (Truthy(vr.error) ==> o == Answered(BoomIt(BadRequest(vr.error)), table))
        && (!Truthy(vr.error) ==>
              && o.Answered? && o.response.status == 200
              && (req.id in table ==> o.response.body == Object(table[req.id]))
              && (req.id !in table ==> o.response.body == Null))
    ensures o.Answered? ==> o.table == table
  {
    match AuthAndValidate(req, auth, ValidateEntry(routes, ReadOne), applyValidate)
    case Failure(e) => Unanswered(e)
    case Success(Checked(error, _)) =>
      match error
      case Boomed(b) => Answered(BoomIt(b), table)
      case Plain(_) => Answered(Response(200, FindByPk(table, req.id)), table)
  }

  /** `GET /<path>`: no auth, no validation; every row, status 200. */
  function ReadAllRoute(table: Table): (o: Outcome)
    ensures o.Answered? && o.response.status == 200 && o.table == table
    ensures o.response.body.Array? && |o.response.body.items| == |table|
    ensures forall id :: id in table ==> Object(table[id]) in o.response.body.items
    ensures forall i :: 0 <= i < |o.response.body.items| ==>
      o.response.body.items[i].Object? && o.response.body.items[i].fields in table.Values
    ensures |o.response.body.items| == |Ascending(table.Keys)|
    ensures forall i :: 0 <= i < |o.response.body.items| ==>
      o.response.body.items[i] == Object(table[Ascending(table.Keys)[i]])
  {
    Answered(Response(200, Array(FindAll(table))), table)
  }

  /** `PUT /<path>/:id`: no auth, no validation; the raw body is merged
      into the row, which is sent back with 200. */
  function UpdateRoute(table: Table, req: Request): (o: Outcome)
    requires req.id in table
    ensures o.Answered? && o.response.status == 200
    ensures o.table.Keys == table.Keys
    ensures forall id :: id in table && id != req.id ==> o.table[id] == table[id]
    ensures o.table[req.id] == Merge(table[req.id], req.body)
    ensures o.response.body == Object(o.table[req.id])
  {
    var resource := Merge(table[req.id], req.body);
    Answered(Response(200, Object(resource)), table[req.id := resource])
  }

  /** `DELETE /<path>/:id`: no auth, no validation; the row is removed and
      its last state sent back with the default status 200. */
  function DeleteRoute(table: Table, req: Request): (o: Outcome)
    requires req.id in table
    ensures o.Answered? && o.response.status == 200
    ensures o.table.Keys == table.Keys - {req.id}
    ensures forall id :: id in o.table ==> o.table[id] == table[id]
    ensures o.response.body == Object(table[req.id])
  {
    Answered(Response(200, Object(table[req.id])), table - {req.id})
  }
}
