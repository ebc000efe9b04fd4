# restify-express-sequelize middleware: a Dafny model

This project models the core of an Express middleware that turns Sequelize
models into CRUD HTTP routes. It covers three parts:

- **The request pipeline and the five routes** (`src/index.js`).
  `authAndValidate` decides in three ways. A falsy auth result gives a 403
  "not allowed" Boom error and validation never runs. A truthy validation
  error gives a 400. Otherwise the validation's `{error, value}` comes back
  unchanged. The routes (create, read one, read all, update, delete) are
  pure transitions from a table of rows and a request to an `Outcome`. An
  outcome is either the response sent (status and JSON body) together with
  the table afterwards, or `Unanswered` when a stage threw. Express 4 does
  not catch a rejected async handler, so such a request gets no response.
  Read-all, update and delete run no auth and no validation. Read-one has no
  404: a missing row is sent as `null` with status 200. Update merges the raw
  request body, not a validated value.
- **Model selection and auth resolution** (`src/utils.js`).
  `modelsSelector` is a stable filter that drops `SequelizeMeta`.
  `pathModelSelector` lower-cases the plural name. The two configuration
  selectors read `restify.validate` and `restify.auth`. `applyAuthModel`
  reads only the `create` entry of `restify.auth`. A falsy entry passes with
  `{isValid: true, credentials: {}}`. A function entry is called. Any other
  truthy entry calls the default auth.
- **The password record** (`src/auth.js`). A record is the hex of a
  16-byte random salt, then `$`, then the hex of a 32-byte PBKDF2 key derived
  from the password and the hex salt (872791 iterations, SHA-512).
  `verifyPassword` splits the record on `$`, derives the key again and
  compares the hex texts. The key-derivation function and the salt bytes
  are inputs, so any deterministic KDF is covered.

Modules: `Js` (JavaScript values, truthiness, thrown errors), `Text`
(lower-casing, `split`, `join`), `Utils`, `Store` (the table behind one
model), `Routes` (`src/index.js`), `RouteLaws` (properties relating several
routes, or auth resolution to the pipeline) and `Auth`.

Behaviours of the code worth knowing:

- A model without a `restify` block is not excluded from routing. Unless it
  is `SequelizeMeta`, destructuring its missing configuration throws and the
  whole setup fails (`Routes.SetupFailsOnUnconfiguredModel`).
- There is no 404 on read-one, update or delete.
- Read-all, update and delete are not guarded.
- Roles, query overrides, `end` handlers, the login route and API-document
  emission are not in this code.

In `src/index.js` the calls do not match `src/utils.js`. Line 23 calls
`applyAuthModel(defaultAuth)(authHandler, req)` curried, but `src/utils.js:59`
takes `(model, defaultAuth, authParams)`. Line 28 calls
`applyValidateModel`, which `src/utils.js` does not export. The model
therefore gives `authAndValidate` two inputs: the awaited auth result, and
the validation step as a function of the operation's validation entry and
the request. `applyAuthModel` is modelled as written.

As written, line 23 always throws. `applyAuthModel` is async, so
`applyAuthModel(defaultAuth)` is a promise, and calling a promise raises a
TypeError. `authAndValidate` then rejects, and every create and read-one
request goes unanswered (`RouteLaws.CurriedAuthCallLeavesRequestsUnanswered`).
The model keeps the auth result an input so that the routes' other
behaviour can be stated as well.

When the auth result is what `applyAuthModel` resolves to, the pipeline
tests the truthiness of the whole resolved value, not its `isValid` field.
Two lemmas show what that means:

- `RouteLaws.FalsyCreateEntryAdmits`: the `{isValid: true, ...}` object is
  truthy, so a falsy `create` entry admits the request.
- `RouteLaws.ObjectVerdictAdmits`: an object saying `isValid: false` is
  admitted too.

So with `src/utils.js` as written, only a handler that itself resolves to a
falsy value produces a 403.

## Model

| member | source | states |
|---|---|---|
| Utils.ModelsSelector | src/utils.js:6-8 | no selected model is named `SequelizeMeta`; the result is an order-preserving subsequence of the input whose length is the input's minus the number of `SequelizeMeta` models, so every other model is kept |
| Utils.ModelsSelectorKeeps | src/utils.js:6-8 | a model is selected if and only if its name is not `SequelizeMeta` |
| Utils.ModelsSelectorIdempotent | src/utils.js:6-8 | selecting the selection changes nothing |
| Utils.PathModelSelector | src/utils.js:31-33 | the path has the plural name's length, no upper-case letter, agrees with the plural on every non-upper-case character, maps each upper-case letter to its lower-case letter, and lower-casing it again changes nothing |
| Text.ToLower | src/utils.js:32 | same length; no upper-case letter is left; each upper-case ASCII letter becomes its lower-case letter and every other character is kept |
| Text.ToLowerIdempotent | src/utils.js:32 | lower-casing is idempotent |
| Utils.ValidateModelSelector | src/utils.js:21-23 | yields `restify.validate`; throws a TypeError exactly when the model has no `restify` block |
| Utils.AuthModelSelector | src/utils.js:46-48 | yields `restify.auth`; throws a TypeError exactly when the model has no `restify` block |
| Utils.ApplyAuthModel | src/utils.js:59-67 | a falsy `create` entry resolves to `{isValid: true, credentials: {}}` without calling anything; a function entry's own result on `authParams` is returned; a truthy non-function entry returns the default auth's result on `authParams`; a missing `restify` block or `auth` table throws a TypeError |
| Utils.ApplyAuthModelReadsOnlyCreate | src/utils.js:60 | two models whose `create` auth entries agree resolve alike, whatever their other entries |
| Utils.ApplyAuthModelDefaultOnlyForTruthyValue | src/utils.js:61-64 | the default auth matters only when the `create` entry is a truthy non-function value |
| Routes.Forbidden | src/index.js:25 | sent, it is a 403 whose payload has error `Forbidden` and the given message |
| Routes.BadRequest | src/index.js:30 | sent, it is a 400 whose payload has error `Bad Request` and the validation error as its message |
| Js.FalsyValues | src/index.js:24 | a value is falsy exactly when it is `undefined`, `null`, `false`, `0` or `""`; every array and object is truthy |
| Routes.BoomIt | src/index.js:13-15 | the response status is the error's status code and the body is its payload, whose `statusCode` equals that status |
| Routes.AuthAndValidate | src/index.js:17-33 | a thrown auth step rethrows; a falsy auth result gives `{error: Forbidden(403, "not allowed"), value: null}`; after a truthy one, a thrown validation rethrows, a truthy validation error gives `{error: BadRequest(400), value: null}`, and otherwise `{error, value}` is returned unchanged; the error is truthy exactly when it is a Boom error |
| Routes.ValidationOnlyAfterAdmission | src/index.js:23-28 | unless auth admits the request, the outcome is the same for every validation entry and validator, so validation never runs |
| Routes.PipelineRejectionStatus | src/index.js:24-31 | every Boom error the pipeline produces has status 403 or 400 |
| Routes.DefaultAuth | src/index.js:38-42 | the default `auth` option throws its "must implement auth option" error for every input |
| Routes.ResolveAuthOption | src/index.js:35-43 | with no `auth` option, every call of the resolved handler fails; a supplied option is used as is |
| Routes.SetupModel | src/index.js:46-60 | one model's setup succeeds exactly when it has a `restify` block with both a `validate` and an `auth` table, and then records its lower-cased path and both tables; otherwise it throws a TypeError |
| Routes.SetupEach | src/index.js:45-60 | setup over a model list succeeds exactly when every model is configured, giving one route set per model in order; otherwise it throws a TypeError |
| Routes.Setup | src/index.js:45-46 | on success route set `i` belongs to the `i`-th selected model, so there is one per model other than `SequelizeMeta`, in order, each with its model's path |
| Routes.SetupFailsOnUnconfiguredModel | src/index.js:45-53 | a model other than `SequelizeMeta` without a configuration makes the whole setup throw instead of being skipped |
| Routes.SetupSucceedsWhenConfigured | src/index.js:45-60 | when every model other than `SequelizeMeta` is configured, setup succeeds, whatever `SequelizeMeta` looks like |
| Routes.CreateRoute | src/index.js:65-78 | a thrown stage leaves the request unanswered; a 403 or 400 is sent as its Boom error with the table unchanged; otherwise the validated value, with the fresh key, is stored and sent with 201; any non-201 answer leaves the table unchanged |
| Routes.ReadOneRoute | src/index.js:84-97 | after the pipeline passes, the answer is status 200 with the row for `req.params.id`, or `null` when there is none (no 404); rejections are sent as Boom errors; the table never changes |
| Routes.ReadAllRoute | src/index.js:99-102 | no auth or validation: always status 200; item `i` is the row under the `i`-th smallest key, so every row appears exactly once and nothing else does; the table is unchanged |
| Routes.UpdateRoute | src/index.js:107-111 | no auth or validation: the raw body's attributes overwrite the row's, every other row is unchanged, and the merged row is sent with 200 |
| Routes.DeleteRoute | src/index.js:116-120 | no auth or validation: the row is removed, every other row is unchanged, and its last state is sent with the default status 200 |
| Store.NewRecord | src/index.js:76 | the created row holds the assigned key as `id`, every other attribute of the validated value, and nothing else |
| Store.Merge | src/index.js:109 | the body's attributes win, every other attribute of the row is kept, and no attribute appears from elsewhere |
| Store.FindByPk | src/index.js:95 | the row as an object when the key exists, `null` otherwise |
| Store.FindAll | src/index.js:100 | item `i` is the row under the `i`-th smallest key: one item per row, each row exactly once, in ascending key order |
| Store.Ascending | src/index.js:100 | the keys are listed once each, in strictly ascending order |
| RouteLaws.CreateThenReadOne | src/index.js:65-97 | a successful create is followed by a read of the new key that sends back exactly the created row with 200 |
| RouteLaws.CreateThenDelete | src/index.js:65-120 | deleting a just-created key restores the previous table and sends back the created row |
| RouteLaws.RejectedCreateIsInvisible | src/index.js:72-74 | a create that auth or validation rejects changes nothing read-all can see |
| RouteLaws.UpdateThenReadOne | src/index.js:84-111 | a read after an update sends back the merged row |
| RouteLaws.UpdateIdempotent | src/index.js:107-111 | sending the same update twice equals sending it once |
| RouteLaws.DeleteThenReadOne | src/index.js:84-120 | reading a deleted key answers 200 with `null`, not 404 |
| RouteLaws.CreateUsesValidatedValue | src/index.js:67-76 | create depends on the request only through the validation step's result |
| RouteLaws.UnsetAuthOptionLeavesRequestUnanswered | src/index.js:38-42 | with no `auth` option, a truthy non-function `create` entry reaches the throwing default, so create and read-one requests go unanswered |
| RouteLaws.CurriedAuthCallLeavesRequestsUnanswered | src/index.js:23 | the promise-call TypeError of line 23 leaves every create and read-one request unanswered, with the table unchanged |
| RouteLaws.FalsyCreateEntryAdmits | src/utils.js:62-66 | a falsy `create` entry resolves to a truthy object, so the pipeline proceeds to validation |
| RouteLaws.ObjectVerdictAdmits | src/index.js:23-24 | an auth result `{isValid: false, ...}` is not refused, because the pipeline checks only whether the whole value is truthy |
| Text.Split | src/auth.js:32 | at least one piece, no piece holds the separator, and joining the pieces gives back the input |
| Text.Join | src/auth.js:27 | the first part is a prefix of the result; with two or more parts the separator follows it |
| Text.SplitJoin | src/auth.js:27 | splitting a join of separator-free parts gives back exactly those parts |
| Auth.ToHex | src/auth.js:23-26 | two lower-case hex digits per byte, so the length doubles, and the text never holds `$` |
| Auth.FromHexToHex | src/auth.js:23-26 | decoding the hex text gives back the bytes |
| Auth.ToHexFromHex | src/auth.js:23-26 | every decodable text is the encoding of what it decodes to |
| Auth.ToHexInjective | src/auth.js:23-26 | different byte strings have different hex texts |
| Auth.HashPassword | src/auth.js:21-28 | the record splits on `$` into exactly the salt's hex and the hex of the key derived from the password and that hex salt, and has length 2·salt + 1 + 2·key |
| Auth.HashPasswordShape | src/auth.js:5-28 | with 16 salt bytes and a 32-byte key the record has 97 characters, `$` at index 32, a 32-digit salt and a 64-digit hash |
| Auth.VerifyPassword | src/auth.js:30-38 | acceptance implies the record holds `$` and its second piece is the hex of the key derived from the candidate and its first piece |
| Auth.VerifyAgainstRecord | src/auth.js:30-38 | for a record `salt$hash` of separator-free texts, verification holds if and only if `hash` is the hex of the key derived from the candidate and `salt` |
| Auth.VerifyIgnoresTrailingPieces | src/auth.js:32 | pieces after the second do not affect verification |
| Auth.VerifyNeedsSeparator | src/auth.js:32-37 | a record without `$` never verifies, because the missing hash is `undefined` |
| Auth.VerifyHashRoundTrip | src/auth.js:21-38 | verifying a password against a record made from it succeeds for every salt and every deterministic key derivation |
| Auth.VerifyOtherPassword | src/auth.js:21-38 | another password verifies against a record if and only if it derives the same key under the record's salt |

## Left out

- Express wiring is not modelled: `express.json()`, the registration of the five verb/path pairs, and `res.status().json()`. Responses are `(status, body)` values, and a route set keeps only the path.
- Sequelize persistence is reduced to one map from key to row per model. These parts are not modelled: timestamps, dropping unknown attributes on update, associations, and pluralisation (the plural name is an input).
- Routes.CreateRoute: the key that auto-increment assigns is an input that must be fresh. A client-supplied `id` in the validated value does not pick the key.
- Routes.UpdateRoute: requires the id to exist. On a missing id the source dereferences `null` and the request is never answered; that crash is not modelled. A body that changes the `id` attribute does not move the row to a new key.
- Routes.DeleteRoute: requires the id to exist, for the same reason as update.
- Store.FindAll: lists rows in ascending key order, assumed as the order `findAll` returns without an ORDER BY.
- Store.Attributes: a validated value or body that is not an object contributes no attributes. What Sequelize does with such a value is not modelled.
- Joi schema semantics are not modelled. Validation is an input function returning `{error, value}` or throwing.
- Boom is reduced to a status code and a payload `{statusCode, error, message}`. The message text Boom derives from an Error object is not modelled; the validation error value is carried as the message.
- `crypto.randomBytes` and `pbkdf2Sync` are not modelled. The salt bytes and the key-derivation function are inputs. PBKDF2, SHA-512 and timing behaviour (including the non-constant-time comparison) are out of scope.
- Auth.HashPasswordShape: its length facts assume the random source yields 16 bytes and the KDF yields 32 bytes, as Node guarantees.
- Async/await is modelled as plain sequential composition. A throwing stage becomes `Unanswered`.
- Text.ToLower: maps only the ASCII letters. Unicode case mappings, some of which change length, are not modelled.
- Numbers are integers. Fractional numbers and NaN, including NaN's falsiness, are not modelled.
- The test expectation of 201 for PUT (`test/app.test.js:83`) conflicts with the code's 200. The model follows the code.
- Setup is all-or-nothing only in its result. Route sets registered on `app` for earlier models stay registered when a later model throws; the model does not keep them.
- `req.params.id` is text in Express and Sequelize converts it. The model takes the key as a natural number, so non-numeric ids are not modelled.
- Store operations never fail in the model. A database error would reject the handler and leave the request unanswered; that is not modelled.
- An `auth` option that is not a function (`src/sample.js:20-27` passes an object) cannot be represented: the option is a handler or absent. Calling such an object would throw, like the default.
- Auth.DerivedKey: has no contract of its own; it only applies the KDF input to the configured iteration count, key length and digest.
- The migration, seeding, sample and test scripts are not modelled: they are I/O and server startup. The login route and API-document options in the samples have no implementation in this code.
