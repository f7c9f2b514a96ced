/** The error values the signup controller places in response bodies.
    Only their kind and, where there is one, the offending parameter name are
    modelled; messages and stack traces are not. */
module Errors {

  datatype Error =
    | MissingParamError(paramName: string)  // a required field is absent or empty
    | InvalidParamError(paramName: string)  // a field failed a semantic check
    | ServerError                           // a collaborator failed; no detail is carried

}
