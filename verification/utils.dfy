/** The selectors over Sequelize models and the auth resolution of
    `src/utils.js`. A model is reduced to what these functions read: its
    name, its plural name and its `restify` configuration block. */
module Utils {
  import opened Js
  import Text

  /** The five CRUD operations a `restify` block configures. */
  datatype Operation = Create | ReadOne | ReadAll | Update | Delete

  /** An auth function: called with the auth parameters, it returns a value
      or throws. */
  type AuthHandler = JsValue -> Result<JsValue, JsError>

  /** One entry of `restify.auth`: either a plain value (`true`, `false`,
      an object, ...) or a function. */
  datatype AuthEntry = Static(v: JsValue) | Handler(run: AuthHandler)

  /** `restify.auth` and `restify.validate`; `None` is `undefined` (or
      `null`), a missing operation key reads as `undefined`. Validation
      entries are schema descriptions whose meaning lies with the
      validation library, so they stay opaque values. */
  datatype Restify = Restify(
    auth: Option<map<Operation, AuthEntry>>,
    validate: Option<map<Operation, JsValue>>)

  /** A Sequelize model: `model.name`, `model.options.name.plural` and
      `model.restify` (`None` when the model has no such block). */
  datatype Model = Model(name: string, plural: string, restify: Option<Restify>)

  /** The migration-bookkeeping model that never gets routes. */
  const MetaModelName: string := "SequelizeMeta"

  /** Value of `table[op]` when the table exists. */
  function EntryOf(table: map<Operation, AuthEntry>, op: Operation): AuthEntry
  {
    if op in table then table[op] else Static(Undefined)
  }

  predicate EntryTruthy(e: AuthEntry)
  {
    match e
    case Static(v) => Truthy(v)
    case Handler(_) => true
  }

  /** `a` is `b` with some elements left out, the rest in their order. */
  ghost predicate IsSubsequence<T>(a: seq<T>, b: seq<T>)
    decreases |b|
  {
    if |a| == 0 then true
    else if |b| == 0 then false
    else (a[0] == b[0] && IsSubsequence(a[1..], b[1..])) || IsSubsequence(a, b[1..])
  }

  /** How many models in `models` carry the bookkeeping name. */
  function MetaCount(models: seq<Model>): nat
  {
    if |models| == 0 then 0
    else (if models[0].name == MetaModelName then 1 else 0) + MetaCount(models[1..])
  }

  /** `Object.values(models).filter(m => m.name !== "SequelizeMeta")`:
      the input in its order with exactly the bookkeeping models removed. */
  function ModelsSelector(models: seq<Model>): (r: seq<Model>)
    ensures forall i :: 0 <= i < |r| ==> r[i].name != MetaModelName
    ensures IsSubsequence(r, models)
    ensures |r| == |models| - MetaCount(models)
  {
    if |models| == 0 then []
    else
      var rest := ModelsSelector(models[1..]);
      if models[0].name != MetaModelName then [models[0]] + rest else rest
  }

  /** `model.options.name.plural.toLowerCase()`. */
  function PathModelSelector(model: Model): (path: string)
    ensures |path| == |model.plural|
    ensures forall i :: 0 <= i < |path| ==> !Text.IsUpper(path[i])
    ensures forall i :: 0 <= i < |path| && !Text.IsUpper(model.plural[i]) ==> path[i] == model.plural[i]
    ensures forall i :: 0 <= i < |path| && Text.IsUpper(model.plural[i]) ==> path[i] as int == model.plural[i] as int + 32
    ensures Text.ToLower(path) == path
  {
    Text.ToLower(model.plural)
  }

  /** `restify.validate`; reading it off a model without a `restify` block throws. */
  function ValidateModelSelector(model: Model): (r: Result<Option<map<Operation, JsValue>>, JsError>)
    ensures r.Failure? <==> model.restify.None?
    ensures r.Failure? ==> r.error.TypeError?
    ensures r.Success? ==> r.value == model.restify.value.validate
  {
    match model.restify
    case None => Failure(TypeError("Cannot read properties of undefined (reading 'validate')"))
    case Some(block) => Success(block.validate)
  }

  /** `restify.auth`; reading it off a model without a `restify` block throws. */
  function AuthModelSelector(model: Model): (r: Result<Option<map<Operation, AuthEntry>>, JsError>)
    ensures r.Failure? <==> model.restify.None?
    ensures r.Failure? ==> r.error.TypeError?
    ensures r.Success? ==> r.value == model.restify.value.auth
  {
    match model.restify
    case None => Failure(TypeError("Cannot read properties of undefined (reading 'auth')"))
    case Some(block) => Success(block.auth)
  }

  /** What `applyAuthModel` resolves to when the `create` entry is falsy. */
  const AuthPassed: JsValue :=
    Object(map["isValid" := Bool(true), "credentials" := Object(map[])])

  /** `applyAuthModel(model, defaultAuth, authParams)`: only the `create`
      entry of `restify.auth` is read. A falsy entry passes without calling
      anything; a function entry is called; any other truthy entry calls the
      default auth. A missing `restify` block or `auth` table throws. */
  function ApplyAuthModel(model: Model, defaultAuth: AuthHandler, authParams: JsValue): (r: Result<JsValue, JsError>)
    ensures (model.restify.None? || model.restify.value.auth.None?) ==> r.Failure? && r.error.TypeError?
    ensures model.restify.Some? && model.restify.value.auth.Some? ==>
      var entry := EntryOf(model.restify.value.auth.value, Create);
      && (!EntryTruthy(entry) ==> r == Success(AuthPassed))
      && (entry.Handler? ==> r == entry.run(authParams))
      && (entry.Static? && Truthy(entry.v) ==> r == defaultAuth(authParams))
  {
    match AuthModelSelector(model)
    case Failure(e) => Failure(e)
    case Success(None) => Failure(TypeError("Cannot destructure property 'create' of undefined"))
    case Success(Some(table)) =>
      var authCreate := EntryOf(table, Create);
      if EntryTruthy(authCreate) then
        if authCreate.Handler? then authCreate.run(authParams) else defaultAuth(authParams)
      else
        Success(AuthPassed)
  }

  /** The result depends on the `create` entry alone: two models whose
      `create` entries agree resolve alike, whatever their other entries. */
  lemma ApplyAuthModelReadsOnlyCreate(m1: Model, m2: Model, defaultAuth: AuthHandler, authParams: JsValue)
    requires m1.restify.Some? && m1.restify.value.auth.Some?
    requires m2.restify.Some? && m2.restify.value.auth.Some?
    requires EntryOf(m1.restify.value.auth.value, Create) == EntryOf(m2.restify.value.auth.value, Create)
    ensures ApplyAuthModel(m1, defaultAuth, authParams) == ApplyAuthModel(m2, defaultAuth, authParams)
  {
  }

  /** The default auth is consulted only for a truthy, non-function entry:
      otherwise any two defaults give the same result. */
  lemma ApplyAuthModelDefaultOnlyForTruthyValue(model: Model, d1: AuthHandler, d2: AuthHandler, authParams: JsValue)
    requires model.restify.Some? && model.restify.value.auth.Some?
    requires !(EntryOf(model.restify.value.auth.value, Create).Static? && Truthy(EntryOf(model.restify.value.auth.value, Create).v))
    ensures ApplyAuthModel(model, d1, authParams) == ApplyAuthModel(model, d2, authParams)
  {
  }

  /** Selecting twice selects nothing more. */
  lemma {:induction false} ModelsSelectorIdempotent(models: seq<Model>)
    ensures ModelsSelector(ModelsSelector(models)) == ModelsSelector(models)
  {
    if |models| > 0 {
      ModelsSelectorIdempotent(models[1..]);
      var rest := ModelsSelector(models[1..]);
      if models[0].name != MetaModelName {
        assert ([models[0]] + rest)[1..] == rest;
      }
    }
  }

  /** A model is selected exactly when it does not carry the bookkeeping name. */
  lemma {:induction false} ModelsSelectorKeeps(models: seq<Model>, i: nat)
    requires i < |models|
    ensures models[i].name != MetaModelName <==> models[i] in ModelsSelector(models)
  {
    if i == 0 {
      if models[0].name == MetaModelName {
        assert forall j :: 0 <= j < |ModelsSelector(models)| ==> ModelsSelector(models)[j].name != MetaModelName;
      }
    } else {
      ModelsSelectorKeeps(models[1..], i - 1);
      assert models[1..][i - 1] == models[i];
    }
  }
}
