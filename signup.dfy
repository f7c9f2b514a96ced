/** The signup controller: it checks a submitted form body in a fixed order,
    stops at the first failure, and on success hands the new account to the
    account creator. Exceptions thrown by the two injected collaborators are
    modelled as answers (ValidatorThrew, AddThrew) that the handler turns into
    a 500 response, as its catch-all does. */
module SignUp {

  import opened Errors
  import opened HttpHelpers

  datatype Option<T> = None | Some(value: T)

  /** The request body: field name to submitted string. */
  type RequestBody = map<string, string>

  /** What EmailValidator.isValid does on one call: returns a boolean or throws. */
  datatype ValidatorAnswer = Answered(isValid: bool) | ValidatorThrew

  /** The argument of AddAccount.add: the account to create. */
  datatype NewAccount = NewAccount(name: string, email: string, password: string)

  /** The account record AddAccount.add returns (the handler discards it). */
  datatype Account = Account(id: string, name: string, email: string, password: string)

  /** What AddAccount.add does on one call: returns an account or throws. */
  datatype AddAnswer = Added(account: Account) | AddThrew

  /** The injected collaborators, as oracles from argument to answer. */
  type EmailValidator = string -> ValidatorAnswer
  type AddAccount = NewAccount -> AddAnswer

  /** One call the handler makes on a collaborator, with its argument. */
  datatype Call = IsValidCall(email: string) | AddCall(account: NewAccount)

  /** The response of one handle call with the collaborator calls it made, in order. */
  datatype Exchange = Exchange(response: HttpResponse, calls: seq<Call>)

  const RequiredFields: seq<string> := ["name", "email", "password", "passwordConfirmation"]

  /** A field passes the presence check when it is there and not the empty
      string: with string values, `!body[field]` holds exactly for an absent
      key and for "". */
  predicate Present(body: RequestBody, field: string)
  {
    field in body && body[field] != ""
  }

  predicate AllPresent(body: RequestBody)
  {
    Present(body, "name") && Present(body, "email") &&
    Present(body, "password") && Present(body, "passwordConfirmation")
  }

  predicate Confirmed(body: RequestBody)
  {
    "password" in body && "passwordConfirmation" in body &&
    body["password"] == body["passwordConfirmation"]
  }

  /** The account the handler asks to create: name, email and password from the body. */
  function AccountOf(body: RequestBody): NewAccount
    requires AllPresent(body)
  {
    NewAccount(body["name"], body["email"], body["password"])
  }

  /** The first of `fields` that fails the presence check, if any. */
  function FirstMissing(body: RequestBody, fields: seq<string>): (r: Option<string>)
    ensures r.Some? ==> r.value in fields && !Present(body, r.value)
    ensures r.None? <==> forall j :: 0 <= j < |fields| ==> Present(body, fields[j])
    decreases |fields|
  {
    if fields == [] then None
    else if !Present(body, fields[0]) then Some(fields[0])
    else FirstMissing(body, fields[1..])
  }

  /** A field that fails the check after all earlier ones pass is the one reported. */
  lemma {:induction false} FirstMissingAt(body: RequestBody, fields: seq<string>, i: nat)
    requires i < |fields| && !Present(body, fields[i])
    requires forall j :: 0 <= j < i ==> Present(body, fields[j])
    ensures FirstMissing(body, fields) == Some(fields[i])
  {
    if i > 0 {
      assert Present(body, fields[0]);
      FirstMissingAt(body, fields[1..], i - 1);
    }
  }

  /** Conversely, the reported field fails and every earlier one passes. */
  lemma {:induction false} FirstMissingIsFirst(body: RequestBody, fields: seq<string>)
    requires FirstMissing(body, fields).Some?
    ensures exists i :: 0 <= i < |fields| && fields[i] == FirstMissing(body, fields).value &&
                        !Present(body, fields[i]) &&
                        forall j :: 0 <= j < i ==> Present(body, fields[j])
  {
    if Present(body, fields[0]) {
      FirstMissingIsFirst(body, fields[1..]);
      var i :| 0 <= i < |fields[1..]| && fields[1..][i] == FirstMissing(body, fields[1..]).value &&
               !Present(body, fields[1..][i]) &&
               forall j :: 0 <= j < i ==> Present(body, fields[1..][j]);
      assert fields[i + 1] == fields[1..][i];
      forall j | 0 <= j < i + 1
        ensures Present(body, fields[j])
      {
        if j > 0 { assert fields[j] == fields[1..][j - 1]; }
      }
    } else {
      assert fields[0] == FirstMissing(body, fields).value;
    }
  }

  lemma AllPresentIff(body: RequestBody)
    ensures FirstMissing(body, RequiredFields).None? <==> AllPresent(body)
  {
  }

  /** The reference definition of SignUpController.handle: the response and
      the collaborator calls, as a function of the body and of what the two
      collaborators answer. */
  function Outcome(body: RequestBody, validator: EmailValidator, creator: AddAccount): Exchange
  {
    match FirstMissing(body, RequiredFields)
    case Some(field) => Exchange(BadRequest(MissingParamError(field)), [])
    case None =>
      AllPresentIff(body);
      if body["password"] != body["passwordConfirmation"] then
        Exchange(BadRequest(InvalidParamError("passwordConfirmation")), [])
      else
        var email := body["email"];
        match validator(email)
        case ValidatorThrew => Exchange(ServerErrorResponse(), [IsValidCall(email)])
        case Answered(false) => Exchange(BadRequest(InvalidParamError("email")), [IsValidCall(email)])
        case Answered(true) =>
          var account := AccountOf(body);
          var calls := [IsValidCall(email), AddCall(account)];
          match creator(account)
          case AddThrew => Exchange(ServerErrorResponse(), calls)
          case Added(_) => Exchange(SuccessResponse(map[]), calls)
  }

  /** The first failing field, in the order name, email, password,
      passwordConfirmation, is the one reported as missing, and only it. */
  lemma MissingFieldReported(body: RequestBody, validator: EmailValidator, creator: AddAccount, i: nat)
    requires i < |RequiredFields|
    ensures Outcome(body, validator, creator).response == BadRequest(MissingParamError(RequiredFields[i]))
            <==> !Present(body, RequiredFields[i]) &&
                 forall j :: 0 <= j < i ==> Present(body, RequiredFields[j])
  {
  }

  /** A field sent as the empty string is treated exactly like a field not sent. */
  lemma EmptyValueIsAbsent(body: RequestBody, validator: EmailValidator, creator: AddAccount, field: string)
    ensures Outcome(body[field := ""], validator, creator) == Outcome(body - {field}, validator, creator)
  {
  }

  lemma {:induction false} FirstMissingSamePresence(b1: RequestBody, b2: RequestBody, fields: seq<string>)
    requires forall f :: Present(b1, f) <==> Present(b2, f)
    ensures FirstMissing(b1, fields) == FirstMissing(b2, fields)
    decreases |fields|
  {
    if fields != [] {
      FirstMissingSamePresence(b1, b2, fields[1..]);
    }
  }

  /** A missing field wins over every later check: the response is a
      MissingParam bad request and no collaborator is called, whatever the
      passwords or the collaborators would say. */
  lemma MissingFieldWins(body: RequestBody, validator: EmailValidator, creator: AddAccount)
    requires !AllPresent(body)
    ensures Outcome(body, validator, creator).calls == []
    ensures Outcome(body, validator, creator).response.statusCode == 400
    ensures Outcome(body, validator, creator).response.body.ErrorBody?
    ensures Outcome(body, validator, creator).response.body.error.MissingParamError?
  {
  }

  /** With all fields present and the passwords different, the response names
      passwordConfirmation as invalid, and the email validator is never called. */
  lemma MismatchReported(body: RequestBody, validator: EmailValidator, creator: AddAccount)
    requires AllPresent(body) && !Confirmed(body)
    ensures Outcome(body, validator, creator) ==
            Exchange(BadRequest(InvalidParamError("passwordConfirmation")), [])
  {
  }

  /** The email validator is called only once every field is present and the
      passwords agree; it is then the first call, made with the body's email
      unchanged, and it is made exactly once. */
  lemma ValidatorCalledOnceWithEmail(body: RequestBody, validator: EmailValidator, creator: AddAccount)
    ensures Outcome(body, validator, creator).calls != [] <==> AllPresent(body) && Confirmed(body)
    ensures AllPresent(body) && Confirmed(body) ==>
              var calls := Outcome(body, validator, creator).calls;
              calls[0] == IsValidCall(body["email"]) &&
              forall k :: 1 <= k < |calls| ==> !calls[k].IsValidCall?
  {
  }

  /** A false answer from the validator gives an InvalidParam("email") bad
      request, and the account creator is not called. */
  lemma InvalidEmailReported(body: RequestBody, validator: EmailValidator, creator: AddAccount)
    requires AllPresent(body) && Confirmed(body)
    requires validator(body["email"]) == Answered(false)
    ensures Outcome(body, validator, creator) ==
            Exchange(BadRequest(InvalidParamError("email")), [IsValidCall(body["email"])])
  {
  }

  /** The response is the 500 server error exactly when a collaborator that
      was called threw; no validation failure produces it. */
  lemma ServerErrorIffCollaboratorThrew(body: RequestBody, validator: EmailValidator, creator: AddAccount)
    ensures Outcome(body, validator, creator).response.statusCode == 500
            <==> Outcome(body, validator, creator).response == ServerErrorResponse()
    ensures Outcome(body, validator, creator).response == ServerErrorResponse()
            <==> AllPresent(body) && Confirmed(body) &&
                 (validator(body["email"]) == ValidatorThrew ||
                  (validator(body["email"]) == Answered(true) && creator(AccountOf(body)) == AddThrew))
  {
  }

  /** The account creator is called only after the email is accepted, and
      then once, with exactly name, email and password from the body. */
  lemma CreatorCalledWithBodyFields(body: RequestBody, validator: EmailValidator, creator: AddAccount)
    ensures (exists k :: 0 <= k < |Outcome(body, validator, creator).calls| &&
                         Outcome(body, validator, creator).calls[k].AddCall?)
            <==> AllPresent(body) && Confirmed(body) && validator(body["email"]) == Answered(true)
    ensures AllPresent(body) && Confirmed(body) && validator(body["email"]) == Answered(true) ==>
              Outcome(body, validator, creator).calls ==
              [IsValidCall(body["email"]), AddCall(NewAccount(body["name"], body["email"], body["password"]))]
  {
    AllPresentIff(body);
    var calls := Outcome(body, validator, creator).calls;
    if AllPresent(body) && Confirmed(body) && validator(body["email"]) == Answered(true) {
      assert calls[1].AddCall?;
    }
  }

  /** On full success the response is successResponse({}): an empty payload,
      whatever account record the creator returned; and this is the only way
      to get a data payload. */
  lemma SuccessCarriesEmptyPayload(body: RequestBody, validator: EmailValidator, creator: AddAccount)
    ensures Outcome(body, validator, creator).response.body.DataBody?
            <==> AllPresent(body) && Confirmed(body) && validator(body["email"]) == Answered(true) &&
                 creator(AccountOf(body)).Added?
    ensures Outcome(body, validator, creator).response.body.DataBody? ==>
              Outcome(body, validator, creator).response == SuccessResponse(map[])
  {
  }

  /** The outcome depends on the collaborators only through the answers to
      the calls actually made. */
  lemma AnswersDetermineOutcome(body: RequestBody, v1: EmailValidator, c1: AddAccount,
                                v2: EmailValidator, c2: AddAccount)
    requires forall k :: 0 <= k < |Outcome(body, v1, c1).calls| ==>
               match Outcome(body, v1, c1).calls[k]
               case IsValidCall(email) => v1(email) == v2(email)
               case AddCall(account) => c1(account) == c2(account)
    ensures Outcome(body, v1, c1) == Outcome(body, v2, c2)
  {
    var calls := Outcome(body, v1, c1).calls;
    if |calls| > 0 {
      assert calls[0].IsValidCall?;
    }
    if |calls| > 1 {
      assert calls[1].AddCall?;
    }
  }

  /** As written, a successful signup and a rejected email carry the same
      status code: the body {name: "Jane", email: "jane@x.com", password =
      passwordConfirmation = "p1"} gets 400 whether the validator accepts or
      rejects the email. */
  lemma SuccessLooksLikeBadRequest()
    ensures var body := map["name" := "Jane", "email" := "jane@x.com",
                            "password" := "p1", "passwordConfirmation" := "p1"];
            var created := Account("1", "Jane", "jane@x.com", "p1");
            var accepted := Outcome(body, _ => Answered(true), _ => Added(created));
            var rejected := Outcome(body, _ => Answered(false), _ => Added(created));
            accepted.response.body.DataBody? &&
            accepted.response.statusCode == rejected.response.statusCode == 400 &&
            !IsSuccessStatus(accepted.response.statusCode)
  {
  }

  /** The handler with the success builder corrected to a 2xx status. */
  function IntendedOutcome(body: RequestBody, validator: EmailValidator, creator: AddAccount): Exchange
  {
    var o := Outcome(body, validator, creator);
    match o.response.body
    case DataBody(data) => o.(response := Ok(data))
    case ErrorBody(_) => o
  }

  /** With the corrected builder the status code alone tells success from
      failure: it is 2xx exactly when the account was created. */
  lemma IntendedStatusSeparatesSuccess(body: RequestBody, validator: EmailValidator, creator: AddAccount)
    ensures IsSuccessStatus(IntendedOutcome(body, validator, creator).response.statusCode)
            <==> AllPresent(body) && Confirmed(body) && validator(body["email"]) == Answered(true) &&
                 creator(AccountOf(body)).Added?
    ensures IntendedOutcome(body, validator, creator).calls == Outcome(body, validator, creator).calls
  {
  }

  class SignUpController {
    const emailValidator: EmailValidator
    const addAccount: AddAccount

    constructor (emailValidator: EmailValidator, addAccount: AddAccount)
      ensures this.emailValidator == emailValidator && this.addAccount == addAccount
    {
      this.emailValidator := emailValidator;
      this.addAccount := addAccount;
    }

    /** handle(httpRequest), with the request given by its body. `calls` is
        the log of collaborator calls this invocation made. */
    method Handle(body: RequestBody) returns (response: HttpResponse, ghost calls: seq<Call>)
      ensures response == Outcome(body, emailValidator, addAccount).response
      ensures calls == Outcome(body, emailValidator, addAccount).calls
    {
      var requiredFields := RequiredFields;
      var i := 0;
      while i < |requiredFields|
        invariant 0 <= i <= |requiredFields|
        invariant forall j :: 0 <= j < i ==> Present(body, requiredFields[j])
      {
        var field := requiredFields[i];
        if !Present(body, field) {
          FirstMissingAt(body, requiredFields, i);
          response, calls := BadRequest(MissingParamError(field)), [];
          return;
        }
        i := i + 1;
      }
      AllPresentIff(body);

      var name, email, password, passwordConfirmation :=
        body["name"], body["email"], body["password"], body["passwordConfirmation"];

      if password != passwordConfirmation {
        response, calls := BadRequest(InvalidParamError("passwordConfirmation")), [];
        return;
      }

      var isValidEmail := emailValidator(body["email"]);
      calls := [IsValidCall(body["email"])];
      if isValidEmail.ValidatorThrew? {
        response := ServerErrorResponse();
        return;
      }
      if !isValidEmail.isValid {
        response := BadRequest(InvalidParamError("email"));
        return;
      }

      var account := NewAccount(name, email, password);
      var added := addAccount(account);
      calls := calls + [AddCall(account)];
      if added.AddThrew? {
        response := ServerErrorResponse();
        return;
      }

      response := SuccessResponse(map[]);
    }
  }

}
