/** API credentials (credentials.go): an e-mail address and an API token,
    neither of them blank. */
module Credentials {
  import opened Model
  import opened Validation

  /** `APICredentials`. */
  datatype APICredentials = APICredentials(email: string, token: string)

  /** `NewAPICredentials`: the e-mail address is checked first, then the
      token; valid inputs are kept exactly as given, white space included. */
  function NewAPICredentials(email: string, token: string): (r: Result<APICredentials>)
    ensures r.Success? <==> !IsEmpty(email) && !IsEmpty(token)
    ensures IsEmpty(email) ==> r == Failure(MissingEmail)
    ensures !IsEmpty(email) && IsEmpty(token) ==> r == Failure(MissingToken)
    ensures r.Success? ==> r.value.email == email && r.value.token == token
  {
    if IsEmpty(email) then Failure(MissingEmail)
    else if IsEmpty(token) then Failure(MissingToken)
    else Success(APICredentials(email, token))
  }

  /** Credentials are accepted exactly when both parts hold a character
      other than white space. */
  lemma AcceptedIffNonBlank(email: string, token: string)
    ensures NewAPICredentials(email, token).Success? <==>
              && (exists i :: 0 <= i < |email| && !IsSpace(email[i]))
              && (exists i :: 0 <= i < |token| && !IsSpace(token[i]))
  {
  }

  /** The rejected pairs of credentials_test.go. */
  lemma RejectedExamples(email: string, token: string)
    requires || (email == "example@example.com" && token == "")
             || (email == "" && token == "12456")
             || (email == "" && token == "")
             || (email == " " && token == " ")
    ensures NewAPICredentials(email, token).Failure?
  {
    if email == "example@example.com" {
      BlankExamples(token);
    } else {
      BlankExamples(email);
    }
  }

  /** The accepted pairs of credentials_test.go, kept verbatim. */
  lemma AcceptedExamples(email: string, token: string)
    requires || (email == "example@example.com" && token == "1234")
             || (email == "example@example" && token == "a")
             || (email == "test+test@example.co.uk" && token == "\U{00F6}l\U{00F6}23p4k23l\U{00F6}4k\U{00F6}l23k4\U{00F6}\U{00E4}")
    ensures NewAPICredentials(email, token) == Success(APICredentials(email, token))
  {
    NotBlank(email, 0);
    NotBlank(token, 0);
  }
}
