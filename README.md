# Signup controller model

This project models the presentation layer of a clean-architecture signup endpoint.
`SignUpController.handle` checks a submitted form body. It stops at the first failure, in this order:

1. `name`, `email`, `password` and `passwordConfirmation` must each be present and non-empty. The first field that is not gives `badRequest(MissingParamError(field))`.
2. `password` must equal `passwordConfirmation`. If not, the result is `badRequest(InvalidParamError("passwordConfirmation"))`.
3. The injected `EmailValidator` must accept the email. If not, the result is `badRequest(InvalidParamError("email"))`.
4. The injected `AddAccount` is then called with `{name, email, password}`, and the result is `successResponse({})`.

If either collaborator throws, the catch-all turns that into `serverError()`.

Files:
- `errors.dfy`, module `Errors`: the three error kinds, as constructors.
- `http_helpers.dfy`, module `HttpHelpers`: the response value and the builders `BadRequest`, `SuccessResponse` and `ServerErrorResponse`. It also holds `Ok`, the corrected success builder (see Findings).
- `signup.dfy`, module `SignUp`:
  - the class `SignUpController`. Its two `const` fields are the collaborators, given as oracles from argument to answer. A thrown exception is the answer `ValidatorThrew` or `AddThrew`.
  - the method `Handle`. Its `while` loop walks the required fields. Besides the response it returns a ghost log of the collaborator calls it made.
  - the pure reference function `Outcome`, which `Handle` is proved equal to.
  - lemmas that state the controller's promises about `Outcome`.

`Handle` has no `modifies` clause, so a call leaves no state in the controller. Within one call, the result depends only on the body and on the collaborators' answers to that call. `AnswersDetermineOutcome` sharpens this: only the answers to the calls actually made matter.

`Handle` uses the success builder as written, with status 400, because the model follows the code. The corrected behaviour is `IntendedOutcome`, described under Findings.

## Model

| member | source | states |
|---|---|---|
| `SignUp.SignUpController.constructor` | src/presentation/controllers/signup.ts:17-19 | the controller keeps exactly the two collaborators it is given |
| `SignUp.SignUpController.Handle` | src/presentation/controllers/signup.ts:22-55 | the response and the call log equal the reference `Outcome` for the body and the stored collaborators. The loop keeps the invariant that every field before index i is present and non-empty |
| `SignUp.FirstMissing` | src/presentation/controllers/signup.ts:24-35 | the field the scan reports is a required field that fails the presence check. Nothing is reported exactly when every field passes |
| `SignUp.FirstMissingAt` | src/presentation/controllers/signup.ts:31-35 | a field that fails, with all earlier fields passing, is the one reported |
| `SignUp.FirstMissingIsFirst` | src/presentation/controllers/signup.ts:31-35 | the reported field fails and every field before it in the list passes |
| `SignUp.AllPresentIff` | src/presentation/controllers/signup.ts:24-37 | the scan reports nothing exactly when name, email, password and passwordConfirmation are all present and non-empty |
| `SignUp.MissingFieldReported` | src/presentation/controllers/signup.ts:24-35 | the response is MissingParam naming field i if and only if field i fails and every earlier field passes, in the order name, email, password, passwordConfirmation |
| `SignUp.EmptyValueIsAbsent` | src/presentation/controllers/signup.ts:32 | a body whose field is set to "" gives the same response and calls as the body with that field removed |
| `SignUp.FirstMissingSamePresence` | src/presentation/controllers/signup.ts:32 | two bodies whose fields pass the presence check alike give the same scan result |
| `SignUp.MissingFieldWins` | src/presentation/controllers/signup.ts:31-35 | when any required field is missing, the response is a 400 MissingParam and no collaborator is called, whatever the passwords and collaborators are |
| `SignUp.MismatchReported` | src/presentation/controllers/signup.ts:39-41 | with all fields present and different passwords, the response is 400 InvalidParam("passwordConfirmation") and no collaborator is called |
| `SignUp.ValidatorCalledOnceWithEmail` | src/presentation/controllers/signup.ts:43 | some collaborator is called if and only if all fields are present and the passwords agree. The first call is then isValid, with the body's email unchanged, and there is no second isValid call |
| `SignUp.InvalidEmailReported` | src/presentation/controllers/signup.ts:45-47 | a false answer from the validator gives 400 InvalidParam("email"), and the only call made is the isValid call |
| `SignUp.ServerErrorIffCollaboratorThrew` | src/presentation/controllers/signup.ts:43-53 | status 500 comes only with the ServerError body. That response happens exactly when the validator threw, or when the validator accepted and the creator threw |
| `SignUp.CreatorCalledWithBodyFields` | src/presentation/controllers/signup.ts:37-49 | the creator is called if and only if the email was accepted. The call log is then exactly isValid(email) followed by add({name, email, password}) from the body |
| `SignUp.SuccessCarriesEmptyPayload` | src/presentation/controllers/signup.ts:49-51 | a data body comes exactly when the creator returned, and it is then successResponse({}) whatever account the creator returned |
| `SignUp.AnswersDetermineOutcome` | src/presentation/controllers/signup.ts:43-51 | two collaborator pairs that answer the calls made alike give the same response and calls |
| `SignUp.SuccessLooksLikeBadRequest` | src/presentation/helpers/http-helpers.ts:8-11 | as written, a successful signup and a rejected email both get status 400, which is not a 2xx status |
| `SignUp.IntendedStatusSeparatesSuccess` | src/presentation/helpers/http-helpers.ts:8-11 | with the corrected builder, the status is 2xx if and only if the account was created. The calls are unchanged |
| `HttpHelpers.BadRequestStatus` | src/presentation/helpers/http-helpers.ts:3-4 | badRequest always has status 400 |
| `HttpHelpers.BadRequestKeepsError` | src/presentation/helpers/http-helpers.ts:3-6 | badRequest carries its error unchanged, so distinct errors give distinct responses |
| `HttpHelpers.SuccessResponseStatus` | src/presentation/helpers/http-helpers.ts:8-9 | successResponse has status 400, the same as badRequest, and not a 2xx status |
| `HttpHelpers.SuccessResponseKeepsData` | src/presentation/helpers/http-helpers.ts:8-11 | successResponse carries its data unchanged, so distinct payloads give distinct responses |
| `HttpHelpers.ServerErrorResponseShape` | src/presentation/controllers/signup.ts:52-53 | serverError has status 500 and a ServerError body |
| `HttpHelpers.OkIsSuccess` | src/presentation/helpers/http-helpers.ts:8-11 | the corrected success builder has a 2xx status, different from the badRequest and serverError statuses, and the same body successResponse would carry |

## Findings

| source | as written | input that shows it | evidently intended | confidence | as-written member | corrected member |
|---|---|---|---|---|---|---|
| src/presentation/helpers/http-helpers.ts:9 | `successResponse` sets status 400 | body `{name:"Jane", email:"jane@x.com", password:"p1", passwordConfirmation:"p1"}` with a validator answering true: the success and the rejected-email responses both have status 400 | a 2xx status, so that success and failure can be told apart by status | high (proved on the model; not executed) | `SignUp.SuccessLooksLikeBadRequest` | `SignUp.IntendedStatusSeparatesSuccess` |

The controller method `Handle` keeps the as-written builder, because it models the code. `IntendedOutcome` is the handler with `Ok` (status 200) in place of `successResponse`.

## Left out

- Collaborator implementations: `EmailValidator` and `AddAccount` are not part of this model. They are oracles from argument to answer. No email syntax is checked.
- Exceptions: JavaScript `throw`/`catch` is modelled as the answers `ValidatorThrew` and `AddThrew`, not as an exception mechanism.
- Error classes: `MissingParamError`, `InvalidParamError` and `ServerError` are bare constructors. Their messages, names and stack traces are not modelled.
- `serverError`: the helpers file does not define `serverError`, although the controller imports it. `ServerErrorResponse` stands in for it as (500, ServerError), the response signup.spec.ts:175-176 expects.
- Builder argument types: `badRequest` accepts any error and `successResponse` any payload. `BadRequest` is narrowed to the three `Errors.Error` kinds and `SuccessResponse` to a `map<string, string>` payload, which are the only values the handler passes.
- Collaborator state: each collaborator is a stateless function, fixed for the life of the controller, so one controller answers the same body the same way on every call. The persistence that `add` performs shows up only as the logged `AddCall`. The model cannot represent a creator that refuses a repeated signup, or a mock that answers differently once (`mockReturnValueOnce` in the tests).
- Non-string body values: values are strings. The falsy test becomes "absent or empty", and `!=` becomes string inequality. Loose equality and the falsiness of values such as `0`, `null` or `false` are not modelled.
- Missing body: the request is only its body map. A request with no body would throw inside the `try` and get a 500; that is not modelled.
- The creator's returned account is accepted as a value and then ignored, as the handler ignores it. An asynchronous creator is not modelled.
- The `Controller`, `HttpRequest` and `HttpResponse` interfaces are only type shapes. They are represented by `Handle`'s signature and the `HttpResponse` datatype.
- The test file and its commented-out tests are not modelled. They served only as evidence for the properties above.
