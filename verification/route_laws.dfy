/** Properties that relate several routes, or the auth resolution of
    `src/utils.js` to the pipeline of `src/index.js`. */
module RouteLaws {
  import opened Js
  import opened Utils
  import opened Store
  import opened Routes

  /** The validation step for `op` resolves without a truthy error. */
  predicate ValidationPasses(routes: RouteSet, op: Operation, req: Request, applyValidate: Validator)
  {
    var v := applyValidate(ValidateEntry(routes, op), req);
    v.Success? && !Truthy(v.value.error)
  }

  /** A created row is what reading its key sends back, with 200. */
  lemma CreateThenReadOne(routes: RouteSet, table: Table, req: Request, auth: Result<JsValue, JsError>,
                          applyValidate: Validator, newId: Id,
                          readReq: Request, readAuth: Result<JsValue, JsError>)
    requires newId !in table
    requires Admits(auth) && ValidationPasses(routes, Create, req, applyValidate)
    requires readReq.id == newId
    requires Admits(readAuth) && ValidationPasses(routes, ReadOne, readReq, applyValidate)
    ensures var created := CreateRoute(routes, table, req, auth, applyValidate, newId);
      && created.Answered? && created.response.status == 201
      && ReadOneRoute(routes, created.table, readReq, readAuth, applyValidate)
         == Answered(Response(200, created.response.body), created.table)
  {
  }

  /** Deleting what was just created restores the table and sends back the
      created row. */
  lemma CreateThenDelete(routes: RouteSet, table: Table, req: Request, auth: Result<JsValue, JsError>,
                         applyValidate: Validator, newId: Id, deleteReq: Request)
    requires newId !in table
    requires Admits(auth) && ValidationPasses(routes, Create, req, applyValidate)
    requires deleteReq.id == newId
    ensures var created := CreateRoute(routes, table, req, auth, applyValidate, newId);
      && created.Answered? && newId in created.table
      && DeleteRoute(created.table, deleteReq) == Answered(Response(200, created.response.body), table)
  {
  }

  /** A rejected create leaves every later read as it was. */
  lemma RejectedCreateIsInvisible(routes: RouteSet, table: Table, req: Request, auth: Result<JsValue, JsError>,
                                  applyValidate: Validator, newId: Id)
    requires newId !in table
    requires !Admits(auth) || !ValidationPasses(routes, Create, req, applyValidate)
    ensures var created := CreateRoute(routes, table, req, auth, applyValidate, newId);
      created.Answered? ==> created.response.status != 201 && ReadAllRoute(created.table) == ReadAllRoute(table)
  {
  }

  /** Reading after an update sends back the merged row. */
  lemma UpdateThenReadOne(routes: RouteSet, table: Table, req: Request,
                          readReq: Request, readAuth: Result<JsValue, JsError>, applyValidate: Validator)
    requires req.id in table
    requires readReq.id == req.id
    requires Admits(readAuth) && ValidationPasses(routes, ReadOne, readReq, applyValidate)
    ensures var updated := UpdateRoute(table, req);
      ReadOneRoute(routes, updated.table, readReq, readAuth, applyValidate)
      == Answered(Response(200, updated.response.body), updated.table)
  {
  }

  /** Sending the same update twice has the effect of sending it once. */
  lemma UpdateIdempotent(table: Table, req: Request)
    requires req.id in table
    ensures var once := UpdateRoute(table, req);
      UpdateRoute(once.table, req) == once
  {
    var once := UpdateRoute(table, req);
    var merged := Merge(table[req.id], req.body);
    assert Merge(merged, req.body) == merged;
    assert once.table[req.id := merged] == once.table;
  }

  /** There is no 404: reading a deleted key answers 200 with `null`. */
  lemma DeleteThenReadOne(routes: RouteSet, table: Table, req: Request,
                          readReq: Request, readAuth: Result<JsValue, JsError>, applyValidate: Validator)
    requires req.id in table
    requires readReq.id == req.id
    requires Admits(readAuth) && ValidationPasses(routes, ReadOne, readReq, applyValidate)
    ensures var deleted := DeleteRoute(table, req);
      ReadOneRoute(routes, deleted.table, readReq, readAuth, applyValidate)
      == Answered(Response(200, Null), deleted.table)
  {
  }

  /** Create stores the validated value: requests whose validation resolves
      alike are treated alike, whatever their raw bodies. */
  lemma CreateUsesValidatedValue(routes: RouteSet, table: Table, req1: Request, req2: Request,
                                 auth: Result<JsValue, JsError>, applyValidate: Validator, newId: Id)
    requires newId !in table
    requires applyValidate(ValidateEntry(routes, Create), req1) == applyValidate(ValidateEntry(routes, Create), req2)
    ensures CreateRoute(routes, table, req1, auth, applyValidate, newId)
         == CreateRoute(routes, table, req2, auth, applyValidate, newId)
  {
  }

  /** With no `auth` option, a model whose `create` entry is a truthy
      non-function value reaches the throwing default auth: the request is
      never answered and the table is untouched. */
  lemma UnsetAuthOptionLeavesRequestUnanswered(routes: RouteSet, table: Table, req: Request,
                                               applyValidate: Validator, newId: Id, authParams: JsValue)
    requires newId !in table
    requires routes.model.restify.Some? && routes.model.restify.value.auth.Some?
    requires EntryOf(routes.model.restify.value.auth.value, Create).Static?
    requires Truthy(EntryOf(routes.model.restify.value.auth.value, Create).v)
    ensures var auth := ApplyAuthModel(routes.model, ResolveAuthOption(None), authParams);
      && CreateRoute(routes, table, req, auth, applyValidate, newId).Unanswered?
      && ReadOneRoute(routes, table, req, auth, applyValidate).Unanswered?
  {
  }

  /** A falsy `create` entry resolves to the `{isValid: true, credentials: {}}`
      object, which is truthy: the pipeline goes on to validation. */
  lemma FalsyCreateEntryAdmits(model: Model, defaultAuth: AuthHandler, authParams: JsValue)
    requires model.restify.Some? && model.restify.value.auth.Some?
    requires !EntryTruthy(EntryOf(model.restify.value.auth.value, Create))
    ensures Admits(ApplyAuthModel(model, defaultAuth, authParams))
  {
  }

  /** The pipeline tests the truthiness of what auth resolved to, not its
      `isValid` field: an object saying `isValid: false` is admitted. */
  lemma ObjectVerdictAdmits(req: Request, validateHandler: JsValue, applyValidate: Validator)
    ensures var denial := Object(map["isValid" := Bool(false), "credentials" := Object(map[])]);
      var r := AuthAndValidate(req, Success(denial), validateHandler, applyValidate);
      !(r.Success? && r.value.error == Boomed(Forbidden("not allowed")))
  {
  }

  /** What `src/index.js` line 23 throws: `applyAuthModel` is async, so
      `applyAuthModel(defaultAuth)` is a promise, and calling it fails. */
  const CurriedCallError: JsError := TypeError("applyAuthModel(...) is not a function")

  /** With the curried call as written, the auth step of every create and
      read-one throws: no such request is answered and the table is untouched. */
  lemma CurriedAuthCallLeavesRequestsUnanswered(routes: RouteSet, table: Table, req: Request,
                                                applyValidate: Validator, newId: Id)
    requires newId !in table
    ensures CreateRoute(routes, table, req, Failure(CurriedCallError), applyValidate, newId).Unanswered?
    ensures ReadOneRoute(routes, table, req, Failure(CurriedCallError), applyValidate).Unanswered?
  {
  }
}
